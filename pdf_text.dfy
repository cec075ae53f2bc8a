/** The text assembly of hooks/usePdfProcessor.ts: the page by page, item by
    item loop that builds the document's full text, the list of its text
    items with their character ranges, and the items of every page. Loading
    the document and its pages is outside the model: a document is given as
    the text content items of its pages, and a document that cannot be read
    as nothing at all. */
module PdfText {
  import opened Common

  /** One entry of a page's text content: a run of text (the items that
      have `str`) or a marked-content marker (the ones that do not). */
  datatype RawItem = TextRun(str: string) | MarkedContent

  /** `PdfTextItem`: the text of a kept item, its page (from 1) and the
      half-open range `[startIndex, endIndex)` it takes up in the full text. */
  datatype PdfTextItem = PdfTextItem(str: string, page: nat, startIndex: nat, endIndex: nat)

  /** What `processPdf` returns on success. */
  datatype ProcessedPdf = ProcessedPdf(fullText: string, textItems: seq<PdfTextItem>,
                                       textItemsByPage: map<nat, seq<PdfTextItem>>, totalPages: nat)

  /** What goes between the text of two pages. */
  const PageSeparator := "\n\n"

  /** The message shown when a document cannot be processed. */
  const ProcessingError := "Failed to process PDF. Please ensure it is a valid file."

  /** An item is kept when it has text that is not blank once trimmed. */
  predicate Kept(item: RawItem)
  {
    item.TextRun? && Trim(item.str) != []
  }

  /** The text one page contributes: its kept items' text, in order. */
  function PageText(raw: seq<RawItem>): string
  {
    if raw == [] then ""
    else
      var n := |raw| - 1;
      PageText(raw[..n]) + (if Kept(raw[n]) then raw[n].str else "")
  }

  /** The items of page `page` whose text starts at offset `start` of the full
      text: one per kept entry, each starting where the kept text before it
      on the page ends. */
  function PageItems(page: nat, start: nat, raw: seq<RawItem>): seq<PdfTextItem>
  {
    if raw == [] then []
    else
      var n := |raw| - 1;
      var at := start + |PageText(raw[..n])|;
      PageItems(page, start, raw[..n]) +
        (if Kept(raw[n]) then [PdfTextItem(raw[n].str, page, at, at + |raw[n].str|)] else [])
  }

  /** The full text of the pages: their texts joined by the separator. */
  function FullText(pages: seq<seq<RawItem>>): string
  {
    if pages == [] then ""
    else
      var n := |pages| - 1;
      FullText(pages[..n]) + (if n > 0 then PageSeparator else "") + PageText(pages[n])
  }

  /** Where the text of the page after `pages` starts. */
  function NextPageStart(pages: seq<seq<RawItem>>): nat
  {
    |FullText(pages)| + (if pages != [] then |PageSeparator| else 0)
  }

  /** All items of the pages, page after page. */
  function AllItems(pages: seq<seq<RawItem>>): seq<PdfTextItem>
  {
    if pages == [] then []
    else
      var n := |pages| - 1;
      AllItems(pages[..n]) + PageItems(n + 1, NextPageStart(pages[..n]), pages[n])
  }

  /** `textItemsByPage`: page number `p` maps to the items of page `p`. */
  function ByPage(pages: seq<seq<RawItem>>): map<nat, seq<PdfTextItem>>
  {
    if pages == [] then map[]
    else
      var n := |pages| - 1;
      ByPage(pages[..n])[n + 1 := PageItems(n + 1, NextPageStart(pages[..n]), pages[n])]
  }

  /** The separator still owed after `done` of `total` pages: one follows
      every page but the last. */
  function SeparatorAfter(done: nat, total: nat): string
  {
    if 0 < done < total then PageSeparator else ""
  }

  /** The loop of `processPdf` over the pages `1..numPages`. `charCount`
      follows the length of `fullText`; every page gets its own, at first
      empty, list of items; a separator follows every page but the last. */
  method AssembleText(pages: seq<seq<RawItem>>)
    returns (fullText: string, items: seq<PdfTextItem>, byPage: map<nat, seq<PdfTextItem>>)
    ensures fullText == FullText(pages) && items == AllItems(pages) && byPage == ByPage(pages)
  {
    var numPages := |pages|;
    fullText := "";
    items := [];
    byPage := map[];
    var charCount := 0;
    for i := 1 to numPages + 1
      invariant fullText == FullText(pages[..i - 1]) + SeparatorAfter(i - 1, numPages)
      invariant charCount == |fullText|
      invariant items == AllItems(pages[..i - 1])
      invariant byPage == ByPage(pages[..i - 1])
    {
      PrefixSnoc(pages, i - 1);
      assert |fullText| == NextPageStart(pages[..i - 1]);
      byPage := byPage[i := []];
      fullText, items, byPage, charCount := AddPageItems(i, pages[i - 1], fullText, items, byPage, charCount);
      if i < numPages {
        fullText := fullText + PageSeparator;
        charCount := charCount + 2;
      }
    }
    FullPrefix(pages);
  }

  /** The inner loop over the text content of page `page`: a kept item is
      recorded with its page and range in the list of all items and in the
      list of its page, and its text is appended. */
  method AddPageItems(page: nat, raw: seq<RawItem>, text0: string, items0: seq<PdfTextItem>,
                      byPage0: map<nat, seq<PdfTextItem>>, charCount0: nat)
    returns (fullText: string, items: seq<PdfTextItem>, byPage: map<nat, seq<PdfTextItem>>, charCount: nat)
    requires charCount0 == |text0| && page in byPage0 && byPage0[page] == []
    ensures fullText == text0 + PageText(raw) && charCount == |fullText|
    ensures items == items0 + PageItems(page, |text0|, raw)
    ensures byPage == byPage0[page := PageItems(page, |text0|, raw)]
  {
    fullText, items, byPage, charCount := text0, items0, byPage0, charCount0;
    for m := 0 to |raw|
      invariant fullText == text0 + PageText(raw[..m])
      invariant charCount == |fullText|
      invariant items == items0 + PageItems(page, |text0|, raw[..m])
      invariant byPage == byPage0[page := PageItems(page, |text0|, raw[..m])]
    {
      var item := raw[m];
      ItemStep(page, |text0|, raw, m);
      if item.TextRun? && Trim(item.str) != [] {
        var textItem := PdfTextItem(item.str, page, charCount, charCount + |item.str|);
        AppendAssoc(items0, PageItems(page, |text0|, raw[..m]), [textItem]);
        AppendAssoc(text0, PageText(raw[..m]), item.str);
        MapOverwrite(byPage0, page, PageItems(page, |text0|, raw[..m]), PageItems(page, |text0|, raw[..m + 1]));
        assert byPage[page] + [textItem] == PageItems(page, |text0|, raw[..m + 1]);
        items := items + [textItem];
        byPage := byPage[page := byPage[page] + [textItem]];
        fullText := fullText + item.str;
        charCount := charCount + |item.str|;
      } else {
        assert PageItems(page, |text0|, raw[..m + 1]) == PageItems(page, |text0|, raw[..m]);
      }
    }
    FullPrefix(raw);
  }

  /** One more entry of a page: how its text and its items grow. */
  lemma {:induction false} ItemStep(page: nat, start: nat, raw: seq<RawItem>, m: nat)
    requires m < |raw|
    ensures PageText(raw[..m + 1]) == PageText(raw[..m]) + (if Kept(raw[m]) then raw[m].str else "")
    ensures var at := start + |PageText(raw[..m])|;
      PageItems(page, start, raw[..m + 1]) == PageItems(page, start, raw[..m]) +
        (if Kept(raw[m]) then [PdfTextItem(raw[m].str, page, at, at + |raw[m].str|)] else [])
  {
    PrefixSnoc(raw, m);
  }

  lemma {:induction false} MapOverwrite<K, V>(m: map<K, V>, k: K, a: V, b: V)
    ensures m[k := a][k := b] == m[k := b]
  {
  }

  /** A page's items are its kept entries, in order, with their own text and
      page: blank entries and markers contribute nothing. */
  lemma {:induction false} PageItemsAreKept(page: nat, start: nat, raw: seq<RawItem>)
    ensures var r, kept := PageItems(page, start, raw), Filter(raw, Kept);
      |r| == |kept| &&
      forall j :: 0 <= j < |r| ==> r[j].str == kept[j].str && Trim(r[j].str) != [] && r[j].page == page
    decreases |raw|
  {
    if raw != [] {
      var n := |raw| - 1;
      PageItemsAreKept(page, start, raw[..n]);
      var r0, k0 := PageItems(page, start, raw[..n]), Filter(raw[..n], Kept);
      var r, k := PageItems(page, start, raw), Filter(raw, Kept);
      assert k == k0 + (if Kept(raw[n]) then [raw[n]] else []);
      forall j | 0 <= j < |r|
        ensures r[j].str == k[j].str && Trim(r[j].str) != [] && r[j].page == page
      {
        if j < |r0| {
          assert r[j] == r0[j] && k[j] == k0[j];
        }
      }
    }
  }

  /** The ranges of a page's items: each as long as its text and inside the
      page's text, the last ending where the page's text ends. A page without
      items contributes no text. */
  lemma {:induction false} PageItemsBounds(page: nat, start: nat, raw: seq<RawItem>)
    ensures var r, t := PageItems(page, start, raw), PageText(raw);
      (forall j :: 0 <= j < |r| ==>
        start <= r[j].startIndex && r[j].endIndex == r[j].startIndex + |r[j].str| &&
        r[j].endIndex <= start + |t|) &&
      (r == [] ==> t == []) &&
      (r != [] ==> r[|r| - 1].endIndex == start + |t|)
    decreases |raw|
  {
    if raw != [] {
      var n := |raw| - 1;
      PageItemsBounds(page, start, raw[..n]);
      var r0, t0 := PageItems(page, start, raw[..n]), PageText(raw[..n]);
      var r := PageItems(page, start, raw);
      if Kept(raw[n]) {
        forall j | 0 <= j < |r0|
          ensures r[j] == r0[j]
        {
        }
      } else {
        assert r == r0;
      }
    }
  }

  /** The items of a page follow one another: the first starts where the
      page starts, and each next one where the previous one ends. */
  lemma {:induction false} PageItemsContiguous(page: nat, start: nat, raw: seq<RawItem>)
    ensures var r := PageItems(page, start, raw);
      (r != [] ==> r[0].startIndex == start) &&
      (forall j :: 0 <= j < |r| - 1 ==> r[j].endIndex == r[j + 1].startIndex)
    decreases |raw|
  {
    if raw != [] {
      var n := |raw| - 1;
      PageItemsContiguous(page, start, raw[..n]);
      PageItemsBounds(page, start, raw[..n]);
      var r0 := PageItems(page, start, raw[..n]);
      var r := PageItems(page, start, raw);
      if Kept(raw[n]) {
        forall j | 0 <= j < |r0|
          ensures r[j] == r0[j]
        {
        }
      } else {
        assert r == r0;
      }
    }
  }

  /** `Locates(text, offset, it)`: the range of `it`, taken relative to
      position `offset`, lies in `text` and selects `it`'s text there. */
  predicate Locates(text: string, offset: nat, it: PdfTextItem)
  {
    offset <= it.startIndex <= it.endIndex <= offset + |text| &&
    text[it.startIndex - offset..it.endIndex - offset] == it.str
  }

  lemma {:induction false} LocatesExtend(text: string, tail: string, offset: nat, it: PdfTextItem)
    requires Locates(text, offset, it)
    ensures Locates(text + tail, offset, it)
  {
    SliceOfAppend(text, tail, it.startIndex - offset, it.endIndex - offset);
  }

  lemma {:induction false} LocatesPrepend(front: string, text: string, it: PdfTextItem)
    requires Locates(text, |front|, it)
    ensures Locates(front + text, 0, it)
  {
    var a, b := it.startIndex - |front|, it.endIndex - |front|;
    SuffixOfAppend(front, text);
    assert (front + text)[it.startIndex..it.endIndex] == (front + text)[|front|..][a..b];
  }

  /** Each item of a page selects its text from the page's text. */
  lemma {:induction false} PageItemsInPageText(page: nat, start: nat, raw: seq<RawItem>)
    ensures forall j {:trigger PageItems(page, start, raw)[j]} :: 0 <= j < |PageItems(page, start, raw)| ==>
      Locates(PageText(raw), start, PageItems(page, start, raw)[j])
    decreases |raw|
  {
    if raw != [] {
      var n := |raw| - 1;
      PageItemsInPageText(page, start, raw[..n]);
      var r0, t0 := PageItems(page, start, raw[..n]), PageText(raw[..n]);
      var r, t := PageItems(page, start, raw), PageText(raw);
      if Kept(raw[n]) {
        var str := raw[n].str;
        var last := PdfTextItem(str, page, start + |t0|, start + |t0| + |str|);
        assert r == r0 + [last];
        assert t == t0 + str;
        forall j | 0 <= j < |r| ensures Locates(t, start, r[j]) {
          if j < |r0| {
            assert r[j] == r0[j];
            LocatesExtend(t0, str, start, r0[j]);
          } else {
            assert r[j] == last;
            LocatesLast(t0, str, page, start);
          }
        }
      } else {
        assert r == r0 && t == t0;
      }
    }
  }

  lemma {:induction false} LocatesLast(text: string, str: string, page: nat, start: nat)
    ensures Locates(text + str, start, PdfTextItem(str, page, start + |text|, start + |text| + |str|))
  {
    SuffixOfAppend(text, str);
    assert (text + str)[|text|..|text| + |str|] == (text + str)[|text|..];
  }

  /** Every item of the document has one of the pages as its page, a text
      that is not blank and a range as long as its text. */
  lemma {:induction false} AllItemsShape(pages: seq<seq<RawItem>>)
    ensures forall j {:trigger AllItems(pages)[j]} :: 0 <= j < |AllItems(pages)| ==>
      var it := AllItems(pages)[j];
      1 <= it.page <= |pages| && Trim(it.str) != [] && it.endIndex == it.startIndex + |it.str|
    decreases |pages|
  {
    if pages != [] {
      var n := |pages| - 1;
      var init := pages[..n];
      AllItemsShape(init);
      var s := NextPageStart(init);
      var pageItems := PageItems(n + 1, s, pages[n]);
      PageItemsAreKept(n + 1, s, pages[n]);
      PageItemsBounds(n + 1, s, pages[n]);
      var items0, items := AllItems(init), AllItems(pages);
      assert items == items0 + pageItems;
      forall j | 0 <= j < |items|
        ensures 1 <= items[j].page <= |pages| && Trim(items[j].str) != [] &&
          items[j].endIndex == items[j].startIndex + |items[j].str|
      {
        if j < |items0| {
          assert items[j] == items0[j];
        } else {
          assert items[j] == pageItems[j - |items0|];
        }
      }
    }
  }

  /** The range of every item selects its text from the full text. */
  lemma {:induction false} AllItemsInFullText(pages: seq<seq<RawItem>>)
    ensures forall j {:trigger AllItems(pages)[j]} :: 0 <= j < |AllItems(pages)| ==>
      Locates(FullText(pages), 0, AllItems(pages)[j])
    decreases |pages|
  {
    if pages != [] {
      var n := |pages| - 1;
      var init := pages[..n];
      AllItemsInFullText(init);
      var s := NextPageStart(init);
      var pageItems := PageItems(n + 1, s, pages[n]);
      PageItemsInPageText(n + 1, s, pages[n]);
      var sep := if n > 0 then PageSeparator else "";
      var front := FullText(init) + sep;
      var full := FullText(pages);
      assert full == front + PageText(pages[n]);
      var items0, items := AllItems(init), AllItems(pages);
      assert items == items0 + pageItems;
      forall j | 0 <= j < |items| ensures Locates(full, 0, items[j]) {
        if j < |items0| {
          assert items[j] == items0[j];
          LocatesExtend(FullText(init), sep, 0, items0[j]);
          LocatesExtend(front, PageText(pages[n]), 0, items0[j]);
        } else {
          assert items[j] == pageItems[j - |items0|];
          LocatesPrepend(front, PageText(pages[n]), pageItems[j - |items0|]);
        }
      }
    }
  }

  /** The ranges of a page's items do not overlap: an item ends no later
      than any later item starts. */
  lemma {:induction false} PageItemsDisjoint(page: nat, start: nat, raw: seq<RawItem>)
    ensures var r := PageItems(page, start, raw);
      forall j, k :: 0 <= j < k < |r| ==> r[j].endIndex <= r[k].startIndex
    decreases |raw|
  {
    if raw != [] {
      var n := |raw| - 1;
      PageItemsDisjoint(page, start, raw[..n]);
      PageItemsBounds(page, start, raw[..n]);
      var r0 := PageItems(page, start, raw[..n]);
      var r := PageItems(page, start, raw);
      if Kept(raw[n]) {
        forall j, k | 0 <= j < k < |r|
          ensures r[j].endIndex <= r[k].startIndex
        {
          assert r[j] == r0[j];
          if k < |r0| {
            assert r[k] == r0[k];
          }
        }
      } else {
        assert r == r0;
      }
    }
  }

  /** The items are in document order: the range of an item ends no later
      than that of any later item starts, and its page is no later. */
  lemma {:induction false} AllItemsOrdered(pages: seq<seq<RawItem>>)
    ensures forall j, k {:trigger AllItems(pages)[j], AllItems(pages)[k]} :: 0 <= j < k < |AllItems(pages)| ==>
      AllItems(pages)[j].endIndex <= AllItems(pages)[k].startIndex && AllItems(pages)[j].page <= AllItems(pages)[k].page
    decreases |pages|
  {
    if pages != [] {
      var n := |pages| - 1;
      var init := pages[..n];
      AllItemsOrdered(init);
      AllItemsShape(init);
      AllItemsInFullText(init);
      var s := NextPageStart(init);
      PageItemsAreKept(n + 1, s, pages[n]);
      PageItemsBounds(n + 1, s, pages[n]);
      PageItemsDisjoint(n + 1, s, pages[n]);
      var items0, pageItems := AllItems(init), PageItems(n + 1, s, pages[n]);
      var items := AllItems(pages);
      assert items == items0 + pageItems;
      var m := |items0|;
      forall j, k | 0 <= j < k < |items|
        ensures items[j].endIndex <= items[k].startIndex && items[j].page <= items[k].page
      {
        if k < m {
          assert items[j] == items0[j] && items[k] == items0[k];
          assert items0[j].endIndex <= items0[k].startIndex;
          assert items0[j].page <= items0[k].page;
        } else if j < m {
          assert items[j] == items0[j] && items[k] == pageItems[k - m];
          assert items0[j].page <= n;
          assert items0[j].endIndex <= |FullText(init)|;
          assert s <= pageItems[k - m].startIndex;
          assert pageItems[k - m].page == n + 1;
        } else {
          assert items[j] == pageItems[j - m] && items[k] == pageItems[k - m];
          assert pageItems[j - m].endIndex <= pageItems[k - m].startIndex;
          assert pageItems[j - m].page == pageItems[k - m].page;
        }
      }
    }
  }

  /** Two neighbouring items on the same page touch: the second starts where
      the first ends. */
  lemma {:induction false} AllItemsContiguousOnPage(pages: seq<seq<RawItem>>)
    ensures forall j, k {:trigger AllItems(pages)[j], AllItems(pages)[k]} ::
      0 <= j && k == j + 1 && k < |AllItems(pages)| && AllItems(pages)[j].page == AllItems(pages)[k].page ==>
        AllItems(pages)[j].endIndex == AllItems(pages)[k].startIndex
    decreases |pages|
  {
    if pages != [] {
      var n := |pages| - 1;
      var init := pages[..n];
      AllItemsContiguousOnPage(init);
      AllItemsShape(init);
      var s := NextPageStart(init);
      PageItemsAreKept(n + 1, s, pages[n]);
      PageItemsContiguous(n + 1, s, pages[n]);
      var items0, pageItems := AllItems(init), PageItems(n + 1, s, pages[n]);
      var items := AllItems(pages);
      assert items == items0 + pageItems;
      var m := |items0|;
      forall j, k | 0 <= j && k == j + 1 && k < |items| && items[j].page == items[k].page
        ensures items[j].endIndex == items[k].startIndex
      {
        if k < m {
          assert items[j] == items0[j] && items[k] == items0[k];
        } else if m <= j {
          assert items[j] == pageItems[j - m] && items[k] == pageItems[k - m];
        }
      }
    }
  }

  /** The full text of the first `k` pages and the separator after them are
      a prefix of the full text, and the text of page `k + 1` follows them. */
  ghost predicate PagePlaced(pages: seq<seq<RawItem>>, k: nat)
    requires k < |pages|
  {
    var s := NextPageStart(pages[..k]);
    s + |PageText(pages[k])| <= |FullText(pages)| &&
    FullText(pages)[..s] == FullText(pages[..k]) + (if k > 0 then PageSeparator else "") &&
    FullText(pages)[s..s + |PageText(pages[k])|] == PageText(pages[k])
  }

  lemma {:induction false} FullTextPrefix(pages: seq<seq<RawItem>>, k: nat)
    requires k < |pages|
    ensures PagePlaced(pages, k)
    decreases |pages|
  {
    var n := |pages| - 1;
    if k == n {
      FullTextOfLast(pages);
    } else {
      FullTextPrefix(pages[..n], k);
      FullTextKeepsPrefix(pages, k);
    }
  }

  /** The text of the last page comes after the text of the pages before it
      and the separator. */
  lemma {:induction false} FullTextOfLast(pages: seq<seq<RawItem>>)
    requires pages != []
    ensures NextPageStart(pages[..|pages| - 1]) + |PageText(pages[|pages| - 1])| == |FullText(pages)|
    ensures PagePlaced(pages, |pages| - 1)
  {
    var n := |pages| - 1;
    var front := FullText(pages[..n]) + (if n > 0 then PageSeparator else "");
    assert FullText(pages) == front + PageText(pages[n]);
    PrefixOfAppend(front, PageText(pages[n]), |front|);
    SuffixOfAppend(front, PageText(pages[n]));
  }

  /** What the full text of all but the last page holds before its end it
      holds in the full text too. */
  lemma {:induction false} FullTextKeepsPrefix(pages: seq<seq<RawItem>>, k: nat)
    requires k < |pages| - 1
    requires PagePlaced(pages[..|pages| - 1], k)
    ensures PagePlaced(pages, k)
  {
    var n := |pages| - 1;
    var init := pages[..n];
    assert init[..k] == pages[..k] && init[k] == pages[k];
    var sep := if n > 0 then PageSeparator else "";
    var whole := FullText(init) + sep;
    assert FullText(pages) == whole + PageText(pages[n]);
    var s := NextPageStart(pages[..k]);
    var e := s + |PageText(pages[k])|;
    PrefixOfAppend(whole, PageText(pages[n]), s);
    PrefixOfAppend(FullText(init), sep, s);
    SliceOfAppend(whole, PageText(pages[n]), s, e);
    SliceOfAppend(FullText(init), sep, s, e);
  }


  /** The test `item.page === page`. */
  function OnPage(page: nat): PdfTextItem -> bool
  {
    (it: PdfTextItem) => it.page == page
  }

  /** `textItemsByPage` has exactly the pages 1 to `numPages` as keys. */
  lemma {:induction false} ByPageKeys(pages: seq<seq<RawItem>>, p: nat)
    ensures p in ByPage(pages) <==> 1 <= p <= |pages|
    decreases |pages|
  {
    if pages != [] {
      ByPageKeys(pages[..|pages| - 1], p);
    }
  }

  /** The list of page `p` is the items of page `p` from the list of all
      items, in the same order. */
  lemma {:induction false} ByPageIsFilter(pages: seq<seq<RawItem>>, p: nat)
    requires 1 <= p <= |pages|
    ensures p in ByPage(pages) && ByPage(pages)[p] == Filter(AllItems(pages), OnPage(p))
    decreases |pages|
  {
    var n := |pages| - 1;
    var init := pages[..n];
    var pageItems := PageItems(n + 1, NextPageStart(init), pages[n]);
    assert ByPage(pages) == ByPage(init)[n + 1 := pageItems];
    assert AllItems(pages) == AllItems(init) + pageItems;
    FilterAppend(AllItems(init), pageItems, OnPage(p));
    if p == n + 1 {
      AllItemsShape(init);
      FilterKeepsNone(AllItems(init), OnPage(p));
      PageItemsAreKept(n + 1, NextPageStart(init), pages[n]);
      FilterKeepsAll(pageItems, OnPage(p));
    } else {
      ByPageIsFilter(init, p);
      PageItemsAreKept(n + 1, NextPageStart(init), pages[n]);
      FilterKeepsNone(pageItems, OnPage(p));
    }
  }

  /** The hook's state around `processPdf`. */
  class PdfProcessor {
    var isProcessing: bool
    var error: Option<string>

    constructor ()
      ensures !isProcessing && error == None
    {
      isProcessing := false;
      error := None;
    }

    /** `processPdf`: the document's pages, or `None` when reading it throws.
        On success the assembled text, items and pages are returned and no
        error is set; on failure the result is `None` and the error message
        is set. Either way processing is over. */
    method ProcessPdf(document: Option<seq<seq<RawItem>>>) returns (r: Option<ProcessedPdf>)
      modifies this
      ensures !isProcessing
      ensures document.None? ==> r == None && error == Some(ProcessingError)
      ensures document.Some? ==>
        error == None &&
        r == Some(ProcessedPdf(FullText(document.value), AllItems(document.value), ByPage(document.value), |document.value|))
    {
      isProcessing := true;
      error := None;
      if document.None? {
        error := Some(ProcessingError);
        isProcessing := false;
        return None;
      }
      var pages := document.value;
      var fullText, items, byPage := AssembleText(pages);
      isProcessing := false;
      r := Some(ProcessedPdf(fullText, items, byPage, |pages|));
    }
  }
}
