/** The highlighting of components/PdfViewer.tsx: which text items light up
    while a chunk of the document is being read aloud, how they are handed
    to the pages, and how a page decides to paint one of its items. */
module PdfHighlight {
  import opened Common
  import opened TextChunking
  import opened PdfText

  /** The half-open ranges of an item and of a chunk overlap. */
  predicate Overlaps(item: PdfTextItem, chunk: TextChunk)
  {
    item.startIndex < chunk.endIndex && item.endIndex > chunk.startIndex
  }

  /** The test of the `filter` in `highlightedTextItems`. */
  function OverlapsChunk(chunk: TextChunk): PdfTextItem -> bool
  {
    (it: PdfTextItem) => Overlaps(it, chunk)
  }

  predicate Within(c: int, lo: int, hi: int)
  {
    lo <= c < hi
  }

  /** For non-empty ranges, overlapping means sharing a position of the full
      text. */
  lemma {:induction false} OverlapsIffSharedPosition(item: PdfTextItem, chunk: TextChunk)
    requires item.startIndex < item.endIndex && chunk.startIndex < chunk.endIndex
    ensures Overlaps(item, chunk) <==>
      exists c :: Within(c, item.startIndex, item.endIndex) && Within(c, chunk.startIndex, chunk.endIndex)
  {
    if Overlaps(item, chunk) {
      var c := if item.startIndex < chunk.startIndex then chunk.startIndex else item.startIndex;
      assert Within(c, item.startIndex, item.endIndex) && Within(c, chunk.startIndex, chunk.endIndex);
    }
  }

  /** The chunk `highlightedChunkIndex` names, if there is one: none for
      `null` and for an index outside the list. */
  function ChunkAt(chunks: seq<TextChunk>, index: Option<int>): (r: Option<TextChunk>)
    ensures r.Some? <==> index.Some? && 0 <= index.value < |chunks|
    ensures r.Some? ==> r.value == chunks[index.value]
  {
    match index
    case Some(i) => if 0 <= i < |chunks| then Some(chunks[i]) else None
    case None => None
  }

  /** `highlightedTextItems`: the items whose range overlaps the named chunk,
      or none. */
  function HighlightedItems(items: seq<PdfTextItem>, chunks: seq<TextChunk>, index: Option<int>): (r: seq<PdfTextItem>)
    ensures |r| <= |items|
    ensures forall k :: 0 <= k < |r| ==> ChunkAt(chunks, index).Some? && Overlaps(r[k], ChunkAt(chunks, index).value)
  {
    match ChunkAt(chunks, index)
    case None => []
    case Some(chunk) => Filter(items, OverlapsChunk(chunk))
  }

  /** Nothing is highlighted without a chunk; with one, an item is
      highlighted exactly when it is one of the items and overlaps it. */
  lemma {:induction false} HighlightedItemsMembership(items: seq<PdfTextItem>, chunks: seq<TextChunk>, index: Option<int>, it: PdfTextItem)
    ensures ChunkAt(chunks, index).None? ==> HighlightedItems(items, chunks, index) == []
    ensures it in HighlightedItems(items, chunks, index) <==>
      ChunkAt(chunks, index).Some? && it in items && Overlaps(it, ChunkAt(chunks, index).value)
  {
    if ChunkAt(chunks, index).Some? {
      FilterMembership(items, OverlapsChunk(ChunkAt(chunks, index).value), it);
    }
  }

  /** The highlighted items keep their order: they sit at strictly
      increasing positions of the list of items. */
  lemma {:induction false} HighlightedItemsInOrder(items: seq<PdfTextItem>, chunks: seq<TextChunk>, index: Option<int>)
    ensures var r := HighlightedItems(items, chunks, index);
      exists idx: seq<nat> :: |idx| == |r| &&
        (forall j :: 0 <= j < |idx| ==> idx[j] < |items| && r[j] == items[idx[j]]) &&
        (forall j, k :: 0 <= j < k < |idx| ==> idx[j] < idx[k])
  {
    var r := HighlightedItems(items, chunks, index);
    match ChunkAt(chunks, index)
    case None =>
      var none: seq<nat> := [];
      assert |none| == |r|;
    case Some(chunk) =>
      var idx := KeptPositions(items, OverlapsChunk(chunk));
      KeptPositionsSpec(items, OverlapsChunk(chunk));
      assert |idx| == |r|;
  }

  /** What `PdfViewer` hands page `page`: the highlighted items on it. */
  function PageHighlights(highlighted: seq<PdfTextItem>, page: nat): (r: seq<PdfTextItem>)
    ensures |r| <= |highlighted|
    ensures forall k :: 0 <= k < |r| ==> r[k].page == page
  {
    Filter(highlighted, OnPage(page))
  }

  /** The number of items the pages `1..n` are handed together. */
  function HandedOut(highlighted: seq<PdfTextItem>, n: nat): nat
  {
    if n == 0 then 0 else HandedOut(highlighted, n - 1) + |PageHighlights(highlighted, n)|
  }

  /** An item is handed to a page exactly when it is highlighted and on that
      page. */
  lemma {:induction false} PageHighlightsMembership(highlighted: seq<PdfTextItem>, page: nat, it: PdfTextItem)
    ensures it in PageHighlights(highlighted, page) <==> it in highlighted && it.page == page
  {
    FilterMembership(highlighted, OnPage(page), it);
  }

  lemma {:induction false} HandedOutSnoc(h: seq<PdfTextItem>, x: PdfTextItem, n: nat)
    ensures HandedOut(h + [x], n) == HandedOut(h, n) + (if 1 <= x.page <= n then 1 else 0)
    decreases n
  {
    if n > 0 {
      HandedOutSnoc(h, x, n - 1);
      FilterAppend(h, [x], OnPage(n));
      assert [x][..0] == [];
    }
  }

  /** When every highlighted item lies on one of the pages `1..n`, the pages'
      lists together hold each highlighted item once: they partition it. */
  lemma {:induction false} PageHighlightsPartition(highlighted: seq<PdfTextItem>, n: nat)
    requires forall j :: 0 <= j < |highlighted| ==> 1 <= highlighted[j].page <= n
    ensures HandedOut(highlighted, n) == |highlighted|
    decreases |highlighted|
  {
    if highlighted == [] {
      HandedOutEmpty(n);
    } else {
      var m := |highlighted| - 1;
      PageHighlightsPartition(highlighted[..m], n);
      HandedOutSnoc(highlighted[..m], highlighted[m], n);
      assert highlighted[..m] + [highlighted[m]] == highlighted;
    }
  }

  lemma {:induction false} HandedOutEmpty(n: nat)
    ensures HandedOut([], n) == 0
    decreases n
  {
    if n > 0 {
      HandedOutEmpty(n - 1);
    }
  }

  /** For an assembled document the pages `1..numPages` together are handed
      every highlighted item once. */
  lemma {:induction false} DocumentHighlightsPartition(pages: seq<seq<RawItem>>, chunks: seq<TextChunk>, index: Option<int>)
    ensures var h := HighlightedItems(AllItems(pages), chunks, index);
      HandedOut(h, |pages|) == |h|
  {
    var items := AllItems(pages);
    var h := HighlightedItems(items, chunks, index);
    AllItemsShape(pages);
    forall j | 0 <= j < |h| ensures 1 <= h[j].page <= |pages| {
      HighlightedItemsMembership(items, chunks, index, h[j]);
      var k :| 0 <= k < |items| && items[k] == h[j];
    }
    PageHighlightsPartition(h, |pages|);
  }

  /** `isHighlighted`: some item handed to the page has the same range. An
      item handed to the page is painted highlighted; with nothing handed to
      the page, nothing is. */
  predicate IsHighlighted(item: PdfTextItem, pageHighlights: seq<PdfTextItem>): (b: bool)
    ensures item in pageHighlights ==> b
    ensures b ==> pageHighlights != []
  {
    exists j :: 0 <= j < |pageHighlights| &&
      pageHighlights[j].startIndex == item.startIndex && pageHighlights[j].endIndex == item.endIndex
  }

  /** `textItemsByPage[pageNumber] || []`. */
  function PageTextItems(byPage: map<nat, seq<PdfTextItem>>, page: nat): seq<PdfTextItem>
  {
    if page in byPage then byPage[page] else []
  }

  /** What the reader sees: an item drawn on page `page` of an assembled
      document is painted highlighted exactly when a chunk is named and the
      item's range overlaps it. */
  lemma {:induction false} ShownHighlighted(pages: seq<seq<RawItem>>, chunks: seq<TextChunk>, index: Option<int>, page: nat, item: PdfTextItem)
    requires item in PageTextItems(ByPage(pages), page)
    ensures IsHighlighted(item, PageHighlights(HighlightedItems(AllItems(pages), chunks, index), page)) <==>
      ChunkAt(chunks, index).Some? && Overlaps(item, ChunkAt(chunks, index).value)
  {
    var items := AllItems(pages);
    var h := HighlightedItems(items, chunks, index);
    var ph := PageHighlights(h, page);
    ByPageKeys(pages, page);
    ByPageIsFilter(pages, page);
    FilterMembership(items, OnPage(page), item);
    if ChunkAt(chunks, index).Some? && Overlaps(item, ChunkAt(chunks, index).value) {
      HighlightedItemsMembership(items, chunks, index, item);
      PageHighlightsMembership(h, page, item);
      var j :| 0 <= j < |ph| && ph[j] == item;
      assert IsHighlighted(item, ph);
    }
    if IsHighlighted(item, ph) {
      var j :| 0 <= j < |ph| && ph[j].startIndex == item.startIndex && ph[j].endIndex == item.endIndex;
      PageHighlightsMembership(h, page, ph[j]);
      HighlightedItemsMembership(items, chunks, index, ph[j]);
    }
  }
}
