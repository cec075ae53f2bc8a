/** The sentence-packing chunker of services/geminiService.ts (`chunkText`):
    the global sentence regex `[^.!?]+[.!?]*`, the greedy packing of whole
    sentences into chunks of a size budget, and the offsets each chunk
    carries. */
module TextChunking {
  import opened Common

  /** The chunk size budget `chunkText` uses when none is given. */
  const DefaultChunkSize := 500

  /** One chunk: its trimmed text and the half-open range `[startIndex,
      endIndex)` of its untrimmed text among the matched sentences. */
  datatype TextChunk = TextChunk(text: string, startIndex: int, endIndex: int)

  predicate IsTerminator(c: char)
  {
    c == '.' || c == '!' || c == '?'
  }

  predicate IsNonTerminator(c: char)
  {
    !IsTerminator(c)
  }

  /** The end of the maximal run, starting at `i`, of characters satisfying
      `p` (what a greedy character class repetition consumes). */
  function RunEnd(s: string, i: nat, p: char -> bool): (j: nat)
    requires i <= |s|
    ensures i <= j <= |s|
    ensures forall k :: i <= k < j ==> p(s[k])
    ensures j < |s| ==> !p(s[j])
    decreases |s| - i
  {
    if i < |s| && p(s[i]) then RunEnd(s, i + 1, p) else i
  }

  /** How many terminators the text starts with; the regex can never match
      there, so they belong to no sentence. */
  function LeadingTerminators(s: string): nat
  {
    RunEnd(s, 0, IsTerminator)
  }

  /** What one match of `[^.!?]+[.!?]*` looks like: it starts with a
      non-terminator and, once a terminator appears, only terminators follow. */
  ghost predicate IsSentence(m: string)
  {
    m != [] && IsNonTerminator(m[0]) &&
    forall i :: 0 < i < |m| && IsTerminator(m[i - 1]) ==> IsTerminator(m[i])
  }

  /** `text.match(...) || []` with the global regex `[^.!?]+[.!?]*`. Where the scan
      stands on a terminator no match can start, so it moves on by one;
      otherwise the match is the maximal run of non-terminators followed by
      the maximal run of terminators. A match that is not the last one ends
      with a terminator, since otherwise it would have run on. */
  function Matches(s: string): (r: seq<string>)
    ensures forall i :: 0 <= i < |r| ==> IsSentence(r[i])
    ensures forall i :: 0 <= i < |r| - 1 ==> r[i] != [] && IsTerminator(r[i][|r[i]| - 1])
    decreases |s|
  {
    if s == [] then []
    else if IsTerminator(s[0]) then Matches(s[1..])
    else
      var a := RunEnd(s, 0, IsNonTerminator);
      var b := RunEnd(s, a, IsTerminator);
      var rest := Matches(s[b..]);
      assert b < |s| ==> IsNonTerminator(s[b]);
      assert ([s[..b]] + rest)[0] == s[..b];
      [s[..b]] + rest
  }

  /** When the text does not start with a terminator, the matches put back
      together give the whole text: no character is lost between sentences. */
  lemma {:induction false} MatchesCoverText(s: string)
    requires s == [] || IsNonTerminator(s[0])
    ensures Concat(Matches(s)) == s
    decreases |s|
  {
    if s != [] {
      var b := FirstMatch(s);
      MatchesCoverText(s[b..]);
      ConcatCons(s[..b], Matches(s[b..]));
      SplitAt(s, b);
    }
  }

  /** Where a text starting with a non-terminator has its first match end;
      the rest of the text starts with a non-terminator. */
  lemma {:induction false} FirstMatch(s: string) returns (b: nat)
    requires s != [] && IsNonTerminator(s[0])
    ensures 0 < b <= |s| && Matches(s) == [s[..b]] + Matches(s[b..])
    ensures b < |s| ==> IsNonTerminator(s[b])
  {
    var a := RunEnd(s, 0, IsNonTerminator);
    b := RunEnd(s, a, IsTerminator);
  }

  /** In general the matches give back the text without its leading
      terminators, and only those. */
  lemma {:induction false} MatchesCoverAfterLeadingTerminators(s: string)
    ensures LeadingTerminators(s) <= |s|
    ensures Concat(Matches(s)) == s[LeadingTerminators(s)..]
    decreases |s|
  {
    if s != [] && IsTerminator(s[0]) {
      MatchesCoverAfterLeadingTerminators(s[1..]);
      RunEndShift(s, 0, IsTerminator);
      assert s[1..][LeadingTerminators(s[1..])..] == s[LeadingTerminators(s)..];
    } else {
      MatchesCoverText(s);
    }
  }

  lemma {:induction false} RunEndShift(s: string, i: nat, p: char -> bool)
    requires i < |s| && p(s[i])
    ensures RunEnd(s, i, p) == 1 + RunEnd(s[1..], i, p) || i > 0
    ensures i == 0 ==> RunEnd(s, 0, p) == 1 + RunEnd(s[1..], 0, p)
    decreases |s| - i
  {
    if i == 0 {
      RunEndTail(s, 1, p);
    }
  }

  lemma {:induction false} RunEndTail(s: string, i: nat, p: char -> bool)
    requires 1 <= i <= |s|
    ensures RunEnd(s, i, p) == 1 + RunEnd(s[1..], i - 1, p)
    decreases |s| - i
  {
    if i < |s| && p(s[i]) {
      assert s[1..][i - 1] == s[i];
      RunEndTail(s, i + 1, p);
    } else if i < |s| {
      assert s[1..][i - 1] == s[i];
    }
  }

  /** The regex finds nothing exactly when the text consists of terminators
      only (the empty text included). */
  lemma {:induction false} MatchesEmpty(s: string)
    ensures Matches(s) == [] <==> forall i :: 0 <= i < |s| ==> IsTerminator(s[i])
  {
    MatchesCoverAfterLeadingTerminators(s);
    var d := LeadingTerminators(s);
    if Matches(s) == [] {
      assert s[d..] == [];
    } else {
      var m := Matches(s)[0];
      ConcatCons(m, Matches(s)[1..]);
      assert Matches(s) == [m] + Matches(s)[1..];
      assert s[d..][0] == m[0];
    }
  }

  lemma {:induction false} SliceOfSuffix<T>(s: seq<T>, suffix: seq<T>, d: nat, a: nat, b: nat)
    requires d <= |s| && suffix == s[d..] && a <= b <= |suffix|
    ensures d + b <= |s| && s[d + a..d + b] == suffix[a..b]
  {
  }

  /** The chunks `sentences` is packed into by the greedy rule of
      `chunkText` with budget `chunkSize`: the groups are the sentences in
      order, none is empty, a group of two or more sentences fits the budget,
      and a group was closed only because its next sentence would have made it
      exceed the budget. */
  ghost predicate IsGreedyPacking(sentences: seq<string>, chunkSize: int, groups: seq<seq<string>>)
  {
    Concat(groups) == sentences &&
    (forall i :: 0 <= i < |groups| ==> groups[i] != []) &&
    (forall i :: 0 <= i < |groups| && |groups[i]| >= 2 ==> |Concat(groups[i])| <= chunkSize) &&
    (forall i :: 0 <= i < |groups| - 1 ==> |Concat(groups[i]) + groups[i + 1][0]| > chunkSize)
  }

  /** The chunk records made from `groups`: each carries its trimmed text and
      the range its untrimmed text takes up in the running concatenation of
      all groups. */
  function Layout(groups: seq<seq<string>>): (chunks: seq<TextChunk>)
    ensures |chunks| == |groups|
    decreases |groups|
  {
    if groups == [] then []
    else
      var n := |groups| - 1;
      Layout(groups[..n]) + [TextChunk(Trim(Concat(groups[n])), |Concat(Concat(groups[..n]))|, |Concat(Concat(groups))|)]
  }

  /** The chunk `Layout` makes of group `i`. */
  lemma {:induction false} LayoutIndex(groups: seq<seq<string>>, i: nat)
    requires i < |groups|
    ensures Layout(groups)[i] ==
      TextChunk(Trim(Concat(groups[i])), |Concat(Concat(groups[..i]))|, |Concat(Concat(groups[..i + 1]))|)
    decreases |groups|
  {
    var n := |groups| - 1;
    if i < n {
      LayoutIndex(groups[..n], i);
      LayoutOfPrefix(groups, i);
      PrefixOfPrefix(groups, n, i);
      PrefixOfPrefix(groups, n, i + 1);
    } else {
      LayoutLast(groups);
    }
  }

  /** The chunks of the groups before the last one are not changed by it. */
  lemma {:induction false} LayoutOfPrefix(groups: seq<seq<string>>, i: nat)
    requires i < |groups| - 1
    ensures Layout(groups)[i] == Layout(groups[..|groups| - 1])[i]
  {
  }

  lemma {:induction false} LayoutLast(groups: seq<seq<string>>)
    requires groups != []
    ensures Layout(groups)[|groups| - 1] == TextChunk(Trim(Concat(groups[|groups| - 1])),
      |Concat(Concat(groups[..|groups| - 1]))|, |Concat(Concat(groups[..|groups|]))|)
  {
    assert groups[..|groups|] == groups;
  }

  lemma PrefixOfPrefix<T>(s: seq<T>, n: nat, i: nat)
    requires i <= n <= |s|
    ensures s[..n][..i] == s[..i]
  {
  }

  /** What the offsets of `Layout` mean: one chunk per group, the first
      starting at 0, each starting where the previous one ended, the last
      ending at the total length, and each range selecting exactly the text of
      its group from the concatenation of all groups. */
  lemma {:induction false} LayoutProperties(groups: seq<seq<string>>)
    ensures var chunks, whole := Layout(groups), Concat(Concat(groups));
      |chunks| == |groups| &&
      (chunks != [] ==> chunks[0].startIndex == 0 && chunks[|chunks| - 1].endIndex == |whole|) &&
      (forall i :: 0 <= i < |chunks| - 1 ==> chunks[i].endIndex == chunks[i + 1].startIndex) &&
      (forall i :: 0 <= i < |chunks| ==>
        chunks[i].text == Trim(Concat(groups[i])) &&
        0 <= chunks[i].startIndex <= chunks[i].endIndex <= |whole| &&
        whole[chunks[i].startIndex..chunks[i].endIndex] == Concat(groups[i]))
  {
    if groups != [] {
      LayoutEnds(groups);
    }
    LayoutContiguous(groups);
    LayoutSelectsGroups(groups);
  }

  lemma {:induction false} LayoutEnds(groups: seq<seq<string>>)
    requires groups != []
    ensures |Layout(groups)| == |groups|
    ensures Layout(groups)[0].startIndex == 0
    ensures Layout(groups)[|groups| - 1].endIndex == |Concat(Concat(groups))|
  {
    LayoutIndex(groups, 0);
    LayoutIndex(groups, |groups| - 1);
    assert groups[..0] == [];
    assert groups[..|groups|] == groups;
  }

  lemma {:induction false} LayoutContiguous(groups: seq<seq<string>>)
    ensures |Layout(groups)| == |groups|
    ensures forall i :: 0 <= i < |groups| - 1 ==> Layout(groups)[i].endIndex == Layout(groups)[i + 1].startIndex
  {
    forall i | 0 <= i < |groups| - 1
      ensures Layout(groups)[i].endIndex == Layout(groups)[i + 1].startIndex
    {
      LayoutIndex(groups, i);
      LayoutIndex(groups, i + 1);
    }
  }

  lemma {:induction false} LayoutSelectsGroups(groups: seq<seq<string>>)
    ensures |Layout(groups)| == |groups|
    ensures forall i :: 0 <= i < |groups| ==>
      Layout(groups)[i].text == Trim(Concat(groups[i])) &&
      0 <= Layout(groups)[i].startIndex <= Layout(groups)[i].endIndex <= |Concat(Concat(groups))| &&
      Concat(Concat(groups))[Layout(groups)[i].startIndex..Layout(groups)[i].endIndex] == Concat(groups[i])
  {
    forall i | 0 <= i < |groups|
      ensures Layout(groups)[i].text == Trim(Concat(groups[i])) &&
        0 <= Layout(groups)[i].startIndex <= Layout(groups)[i].endIndex <= |Concat(Concat(groups))| &&
        Concat(Concat(groups))[Layout(groups)[i].startIndex..Layout(groups)[i].endIndex] == Concat(groups[i])
    {
      LayoutSelectsGroup(groups, i);
    }
  }

  lemma {:induction false} LayoutSelectsGroup(groups: seq<seq<string>>, i: nat)
    requires i < |groups|
    ensures |Layout(groups)| == |groups|
    ensures Layout(groups)[i].text == Trim(Concat(groups[i])) &&
      0 <= Layout(groups)[i].startIndex <= Layout(groups)[i].endIndex <= |Concat(Concat(groups))| &&
      Concat(Concat(groups))[Layout(groups)[i].startIndex..Layout(groups)[i].endIndex] == Concat(groups[i])
  {
    LayoutIndex(groups, i);
    GroupInWhole(groups, i);
  }

  /** The text of group `i` sits in the whole text between the groups
      before it and the groups after it. */
  lemma {:induction false} GroupInWhole(groups: seq<seq<string>>, i: nat)
    requires i < |groups|
    ensures var before, mine := Concat(Concat(groups[..i])), Concat(groups[i]);
      |before| + |mine| == |Concat(Concat(groups[..i + 1]))| <= |Concat(Concat(groups))| &&
      Concat(Concat(groups))[|before|..|before| + |mine|] == mine
  {
    var pre, post := groups[..i + 1], groups[i + 1..];
    assert groups == pre + post;
    ConcatAppend(pre, post);
    ConcatAppend(Concat(pre), Concat(post));
    assert pre[..i] == groups[..i] && pre[i] == groups[i];
    assert Concat(pre) == Concat(groups[..i]) + groups[i];
    ConcatAppend(Concat(groups[..i]), groups[i]);
    var before, mine := Concat(Concat(groups[..i])), Concat(groups[i]);
    assert Concat(Concat(groups)) == before + mine + Concat(Concat(post));
    SliceOfAppend(before + mine, Concat(Concat(post)), |before|, |before| + |mine|);
  }

  /** The state `chunkText` carries from one sentence to the next: the chunks
      closed so far, the text of the chunk being filled, where that chunk
      starts and how many characters of sentences have been read. */
  datatype Packing = Packing(chunks: seq<TextChunk>, currentChunk: string, chunkStartIndex: int, charIndex: int)

  /** One step of the loop of `chunkText`: the current chunk is closed when
      adding the next sentence would take it over the budget and it is not
      empty; the sentence is then appended. */
  function PackStep(st: Packing, sentence: string, chunkSize: int): Packing
  {
    if |st.currentChunk + sentence| > chunkSize && st.currentChunk != "" then
      Packing(st.chunks + [TextChunk(Trim(st.currentChunk), st.chunkStartIndex, st.charIndex)],
              sentence, st.charIndex, st.charIndex + |sentence|)
    else
      Packing(st.chunks, st.currentChunk + sentence, st.chunkStartIndex, st.charIndex + |sentence|)
  }

  /** The loop of `chunkText` over the sentences, from the empty state. */
  function PackSentences(sentences: seq<string>, chunkSize: int): Packing
    decreases |sentences|
  {
    if sentences == [] then Packing([], "", 0, 0)
    else PackStep(PackSentences(sentences[..|sentences| - 1], chunkSize), sentences[|sentences| - 1], chunkSize)
  }

  /** After the loop, a non-empty current chunk is closed too. */
  function FinalChunks(st: Packing): seq<TextChunk>
  {
    if st.currentChunk != "" then st.chunks + [TextChunk(Trim(st.currentChunk), st.chunkStartIndex, st.charIndex)]
    else st.chunks
  }

  /** The same loop on the sentences themselves: the groups closed so far and
      the group being filled. */
  ghost function GroupSentences(sentences: seq<string>, chunkSize: int): (seq<seq<string>>, seq<string>)
    decreases |sentences|
  {
    if sentences == [] then ([], [])
    else
      var (closed, current) := GroupSentences(sentences[..|sentences| - 1], chunkSize);
      GroupStep(closed, current, sentences[|sentences| - 1], chunkSize)
  }

  /** One sentence more: the open group is closed when the sentence would
      take it over the budget and it is not empty; the sentence then joins
      the open group. */
  ghost function GroupStep(closed: seq<seq<string>>, current: seq<string>, sentence: string, chunkSize: int)
    : (seq<seq<string>>, seq<string>)
  {
    if |Concat(current) + sentence| > chunkSize && current != [] then (closed + [current], [sentence])
    else (closed, current + [sentence])
  }

  /** The groups of the whole packing: the closed ones and a non-empty last
      one. */
  ghost function FinalGroups(sentences: seq<string>, chunkSize: int): seq<seq<string>>
  {
    var (closed, current) := GroupSentences(sentences, chunkSize);
    if current != [] then closed + [current] else closed
  }

  /** The packing state is determined by the groups: its chunks are their
      layout, its current chunk the text of the open group, and its offsets
      the lengths read so far. */
  ghost predicate Represents(st: Packing, closed: seq<seq<string>>, current: seq<string>)
  {
    st.chunks == Layout(closed) && st.currentChunk == Concat(current) &&
    st.chunkStartIndex == |Concat(Concat(closed))| && st.charIndex == st.chunkStartIndex + |st.currentChunk|
  }

  /** What all sentences satisfy: none of them is empty. */
  ghost predicate NonEmptyPieces(sentences: seq<string>)
  {
    forall i :: 0 <= i < |sentences| ==> sentences[i] != []
  }

  lemma {:induction false} PrefixOfNonEmptyPieces(sentences: seq<string>, n: nat)
    requires NonEmptyPieces(sentences) && n <= |sentences|
    ensures NonEmptyPieces(sentences[..n])
  {
    assert forall i :: 0 <= i < n ==> sentences[..n][i] == sentences[i];
  }

  /** The loop on the packing state follows the loop on the groups. */
  lemma {:induction false} PackingRepresentsGroups(sentences: seq<string>, chunkSize: int)
    requires NonEmptyPieces(sentences)
    ensures var (closed, current) := GroupSentences(sentences, chunkSize);
      Represents(PackSentences(sentences, chunkSize), closed, current)
    decreases |sentences|
  {
    if sentences != [] {
      var n := |sentences| - 1;
      PrefixOfNonEmptyPieces(sentences, n);
      PackingRepresentsGroups(sentences[..n], chunkSize);
      var (closed, current) := GroupSentences(sentences[..n], chunkSize);
      OpenGroupText(sentences[..n], chunkSize);
      RepresentsStep(PackSentences(sentences[..n], chunkSize), closed, current, sentences[n], chunkSize);
    }
  }

  /** One step of the loop keeps the packing state in step with the groups. */
  lemma {:induction false} RepresentsStep(st: Packing, closed: seq<seq<string>>, current: seq<string>, sentence: string, chunkSize: int)
    requires Represents(st, closed, current) && (current == [] <==> Concat(current) == [])
    ensures var (closed', current') := GroupStep(closed, current, sentence, chunkSize);
      Represents(PackStep(st, sentence, chunkSize), closed', current')
  {
    if |Concat(current) + sentence| > chunkSize && current != [] {
      RepresentsClose(st, closed, current, sentence, chunkSize);
    } else {
      ConcatSnoc(current, sentence);
    }
  }

  lemma {:induction false} RepresentsClose(st: Packing, closed: seq<seq<string>>, current: seq<string>, sentence: string, chunkSize: int)
    requires Represents(st, closed, current) && current != [] && Concat(current) != []
    requires |Concat(current) + sentence| > chunkSize
    ensures Represents(PackStep(st, sentence, chunkSize), closed + [current], [sentence])
  {
    PackStepCloses(st, sentence, chunkSize);
    ChunksGrow(st.chunks, st.currentChunk, st.chunkStartIndex, st.charIndex, closed, current);
    PushGroupConcat(closed, current);
    ConcatOfOne(sentence);
  }

  /** Closing the open group appends the chunk of its text to the layout. */
  lemma {:induction false} ChunksGrow(chunks: seq<TextChunk>, text: string, start: int, end: int,
                                      closed: seq<seq<string>>, current: seq<string>)
    requires chunks == Layout(closed) && text == Concat(current)
    requires start == |Concat(Concat(closed))| && end == start + |text|
    ensures chunks + [TextChunk(Trim(text), start, end)] == Layout(closed + [current])
  {
    var chunk := TextChunk(Trim(Concat(current)), |Concat(Concat(closed))|, |Concat(Concat(closed))| + |Concat(current)|);
    assert TextChunk(Trim(text), start, end) == chunk;
    PushGroup(closed, current);
  }

  /** The closing branch of `PackStep`, field by field. */
  lemma {:induction false} PackStepCloses(st: Packing, sentence: string, chunkSize: int)
    requires |st.currentChunk + sentence| > chunkSize && st.currentChunk != ""
    ensures var st' := PackStep(st, sentence, chunkSize);
      st'.chunks == st.chunks + [TextChunk(Trim(st.currentChunk), st.chunkStartIndex, st.charIndex)] &&
      st'.currentChunk == sentence && st'.chunkStartIndex == st.charIndex &&
      st'.charIndex == st.charIndex + |sentence|
  {
  }

  /** The open group has text exactly when it holds a sentence. */
  lemma {:induction false} OpenGroupText(sentences: seq<string>, chunkSize: int)
    requires NonEmptyPieces(sentences)
    ensures var current := GroupSentences(sentences, chunkSize).1;
      current == [] <==> Concat(current) == []
    decreases |sentences|
  {
    if sentences != [] {
      var n := |sentences| - 1;
      PrefixOfNonEmptyPieces(sentences, n);
      OpenGroupText(sentences[..n], chunkSize);
      var (closed, current) := GroupSentences(sentences[..n], chunkSize);
      var sentence := sentences[n];
      if |Concat(current) + sentence| > chunkSize && current != [] {
        ConcatOfOne(sentence);
      } else {
        ConcatSnoc(current, sentence);
      }
    }
  }

  lemma {:induction false} ConcatOfOne<T>(x: seq<T>)
    ensures Concat([x]) == x
  {
    assert [x][..0] == [];
  }

  lemma {:induction false} ConcatSnoc<T>(ss: seq<seq<T>>, x: seq<T>)
    ensures Concat(ss + [x]) == Concat(ss) + x
  {
    assert (ss + [x])[..|ss|] == ss;
  }

  /** The groups, joined, are the sentences read so far, and the open group is
      empty only before the first sentence. */
  lemma {:induction false} GroupsCoverSentences(sentences: seq<string>, chunkSize: int)
    ensures var (closed, current) := GroupSentences(sentences, chunkSize);
      Concat(closed) + current == sentences && (current == [] <==> sentences == [])
    decreases |sentences|
  {
    if sentences != [] {
      var n := |sentences| - 1;
      GroupsCoverSentences(sentences[..n], chunkSize);
      var (closed, current) := GroupSentences(sentences[..n], chunkSize);
      var sentence := sentences[n];
      if |Concat(current) + sentence| > chunkSize && current != [] {
        ConcatSnoc(closed, current);
      }
      SnocPrefix(sentences);
    }
  }

  /** The shape of the greedy rule, stated one group at a time so that it
      unfolds a step at a time: every group is non-empty, a group of two or
      more sentences fits the budget, and a group was closed only because
      its successor's first sentence would have taken it over the budget. */
  ghost predicate Closed(groups: seq<seq<string>>, chunkSize: int)
    decreases |groups|
  {
    groups == [] ||
    var init, last := groups[..|groups| - 1], groups[|groups| - 1];
    Closed(init, chunkSize) && last != [] && (|last| >= 2 ==> |Concat(last)| <= chunkSize) &&
    (init != [] ==> |Concat(init[|init| - 1]) + last[0]| > chunkSize)
  }

  /** The same rule for the open group, which is not yet closed. */
  ghost predicate Open(closed: seq<seq<string>>, current: seq<string>, chunkSize: int)
  {
    (|current| >= 2 ==> |Concat(current)| <= chunkSize) &&
    (closed != [] ==> current != [] && |Concat(closed[|closed| - 1]) + current[0]| > chunkSize)
  }

  lemma {:induction false} GroupsFollowGreedyRule(sentences: seq<string>, chunkSize: int)
    ensures var (closed, current) := GroupSentences(sentences, chunkSize);
      Closed(closed, chunkSize) && Open(closed, current, chunkSize)
    decreases |sentences|
  {
    if sentences != [] {
      var n := |sentences| - 1;
      GroupsFollowGreedyRule(sentences[..n], chunkSize);
      GroupsCoverSentences(sentences[..n], chunkSize);
      var (closed, current) := GroupSentences(sentences[..n], chunkSize);
      if current == [] {
        assert sentences[..n] == [];
      }
      var sentence := sentences[n];
      if |Concat(current) + sentence| > chunkSize && current != [] {
        GreedyClose(closed, current, sentence, chunkSize);
      } else {
        GreedyAppend(closed, current, sentence, chunkSize);
      }
    }
  }

  /** Closing the open group keeps the rule: it was closed because the
      sentence did not fit. */
  lemma {:induction false} GreedyClose(closed: seq<seq<string>>, current: seq<string>, sentence: string, chunkSize: int)
    requires Closed(closed, chunkSize) && Open(closed, current, chunkSize)
    requires current != [] && |Concat(current) + sentence| > chunkSize
    ensures Closed(closed + [current], chunkSize) && Open(closed + [current], [sentence], chunkSize)
  {
    var all := closed + [current];
    assert all[..|all| - 1] == closed;
  }

  /** Adding the sentence to the open group keeps the rule: it fitted, or the
      group was empty. */
  lemma {:induction false} GreedyAppend(closed: seq<seq<string>>, current: seq<string>, sentence: string, chunkSize: int)
    requires Open(closed, current, chunkSize) && (current == [] ==> closed == [])
    requires !(|Concat(current) + sentence| > chunkSize && current != [])
    ensures Open(closed, current + [sentence], chunkSize)
  {
    var c := current + [sentence];
    assert c[..|c| - 1] == current;
  }

  lemma {:induction false} ClosedMeansGreedy(groups: seq<seq<string>>, chunkSize: int)
    requires Closed(groups, chunkSize)
    ensures forall i :: 0 <= i < |groups| ==> groups[i] != []
    ensures forall i :: 0 <= i < |groups| && |groups[i]| >= 2 ==> |Concat(groups[i])| <= chunkSize
    ensures forall i :: 0 <= i < |groups| - 1 ==> |Concat(groups[i]) + groups[i + 1][0]| > chunkSize
  {
    forall i | 0 <= i < |groups|
      ensures groups[i] != [] && (|groups[i]| >= 2 ==> |Concat(groups[i])| <= chunkSize)
    {
      ClosedAt(groups, chunkSize, i);
    }
    forall i | 0 <= i < |groups| - 1
      ensures |Concat(groups[i]) + groups[i + 1][0]| > chunkSize
    {
      ClosedAt(groups, chunkSize, i + 1);
    }
  }

  /** `Closed` at one group. */
  lemma {:induction false} ClosedAt(groups: seq<seq<string>>, chunkSize: int, i: nat)
    requires Closed(groups, chunkSize) && i < |groups|
    ensures groups[i] != [] && (|groups[i]| >= 2 ==> |Concat(groups[i])| <= chunkSize)
    ensures i > 0 ==> |Concat(groups[i - 1]) + groups[i][0]| > chunkSize
    decreases |groups|
  {
    var n := |groups| - 1;
    var init := groups[..n];
    if i < n {
      ClosedAt(init, chunkSize, i);
      assert init[i] == groups[i];
      if i > 0 {
        assert init[i - 1] == groups[i - 1];
      }
    } else if i > 0 {
      assert init[i - 1] == groups[i - 1];
    }
  }

  /** The groups of the whole packing are a greedy packing of the sentences. */
  lemma {:induction false} FinalGroupsAreGreedy(sentences: seq<string>, chunkSize: int)
    ensures IsGreedyPacking(sentences, chunkSize, FinalGroups(sentences, chunkSize))
  {
    FinalGroupsClosed(sentences, chunkSize);
    ClosedMeansGreedy(FinalGroups(sentences, chunkSize), chunkSize);
  }

  /** The final groups put back together are the sentences, and follow the
      greedy rule. */
  lemma {:induction false} FinalGroupsClosed(sentences: seq<string>, chunkSize: int)
    ensures Concat(FinalGroups(sentences, chunkSize)) == sentences
    ensures Closed(FinalGroups(sentences, chunkSize), chunkSize)
  {
    GroupsCoverSentences(sentences, chunkSize);
    GroupsFollowGreedyRule(sentences, chunkSize);
    var (closed, current) := GroupSentences(sentences, chunkSize);
    if current != [] {
      var groups := closed + [current];
      assert groups[..|groups| - 1] == closed;
      ConcatSnoc(closed, current);
    }
  }

  /** The chunks after the final flush are the layout of the final groups. */
  lemma {:induction false} FinalChunksAreLayout(sentences: seq<string>, chunkSize: int)
    requires NonEmptyPieces(sentences)
    ensures FinalChunks(PackSentences(sentences, chunkSize)) == Layout(FinalGroups(sentences, chunkSize))
  {
    PackingRepresentsGroups(sentences, chunkSize);
    OpenGroupText(sentences, chunkSize);
    var (closed, current) := GroupSentences(sentences, chunkSize);
    Flush(PackSentences(sentences, chunkSize), closed, current);
  }

  /** Closing a non-empty open group at the end. */
  lemma {:induction false} Flush(st: Packing, closed: seq<seq<string>>, current: seq<string>)
    requires Represents(st, closed, current) && (current == [] <==> Concat(current) == [])
    ensures FinalChunks(st) == Layout(if current != [] then closed + [current] else closed)
  {
    if current != [] {
      FlushOpen(st, closed, current);
    }
  }

  lemma {:induction false} FlushOpen(st: Packing, closed: seq<seq<string>>, current: seq<string>)
    requires Represents(st, closed, current) && current != [] && Concat(current) != []
    ensures FinalChunks(st) == Layout(closed + [current])
  {
    ChunksGrow(st.chunks, st.currentChunk, st.chunkStartIndex, st.charIndex, closed, current);
  }

  /** `chunkText(text, chunkSize)` (services/geminiService.ts): the chunks
      are the layout of a greedy packing of the text's sentences. The ghost
      `groups` names the sentences each chunk is made of; what that means for
      the chunks is stated by `LayoutProperties`, `PackingChunkCount` and
      `PackingOffsetsIndexText`. */
  method ChunkText(text: string, chunkSize: int) returns (chunks: seq<TextChunk>, ghost groups: seq<seq<string>>)
    ensures IsGreedyPacking(Matches(text), chunkSize, groups)
    ensures chunks == Layout(groups)
    ensures chunks == FinalChunks(PackSentences(Matches(text), chunkSize))
  {
    var sentences := Matches(text);
    chunks := [];
    var currentChunk := "";
    var charIndex := 0;
    var chunkStartIndex := 0;
    for n := 0 to |sentences|
      invariant Packing(chunks, currentChunk, chunkStartIndex, charIndex) == PackSentences(sentences[..n], chunkSize)
    {
      var sentence := sentences[n];
      PrefixSnoc(sentences, n);
      if |currentChunk + sentence| > chunkSize && currentChunk != "" {
        chunks := chunks + [TextChunk(Trim(currentChunk), chunkStartIndex, charIndex)];
        currentChunk := "";
        chunkStartIndex := charIndex;
      }
      currentChunk := currentChunk + sentence;
      charIndex := charIndex + |sentence|;
    }
    if currentChunk != "" {
      chunks := chunks + [TextChunk(Trim(currentChunk), chunkStartIndex, charIndex)];
    }
    assert sentences[..|sentences|] == sentences;
    assert NonEmptyPieces(sentences) by {
      assert forall i :: 0 <= i < |sentences| ==> IsSentence(sentences[i]);
    }
    FinalChunksAreLayout(sentences, chunkSize);
    FinalGroupsAreGreedy(sentences, chunkSize);
    groups := FinalGroups(sentences, chunkSize);
  }

  /** There are as many chunks as groups and no more than sentences, and none
      exactly when the regex found nothing. */
  lemma {:induction false} PackingChunkCount(sentences: seq<string>, chunkSize: int, groups: seq<seq<string>>)
    requires IsGreedyPacking(sentences, chunkSize, groups)
    ensures |Layout(groups)| == |groups| <= |sentences|
    ensures Layout(groups) == [] <==> sentences == []
  {
    ConcatOfNonEmptyIsLong(groups);
    LayoutProperties(groups);
  }

  /** Each chunk's range, shifted by the number of leading terminators,
      selects from the text exactly the untrimmed text of its sentences; when
      the text does not start with a terminator the shift is 0 and the ranges
      index the text itself. */
  lemma {:induction false} PackingOffsetsIndexText(text: string, groups: seq<seq<string>>, i: nat)
    requires Concat(groups) == Matches(text)
    requires i < |groups|
    ensures i < |Layout(groups)| &&
      var c, d := Layout(groups)[i], LeadingTerminators(text);
      0 <= c.startIndex <= c.endIndex && d + c.endIndex <= |text| &&
      text[d + c.startIndex .. d + c.endIndex] == Concat(groups[i])
    ensures text == [] || IsNonTerminator(text[0]) ==> LeadingTerminators(text) == 0
  {
    LayoutAt(groups, i);
    MatchesCoverAfterLeadingTerminators(text);
    var c, d := Layout(groups)[i], LeadingTerminators(text);
    SliceOfSuffix(text, Concat(Concat(groups)), d, c.startIndex, c.endIndex);
  }

  /** `LayoutProperties` at one index. */
  lemma {:induction false} LayoutAt(groups: seq<seq<string>>, i: nat)
    requires i < |groups|
    ensures i < |Layout(groups)| &&
      var c, whole := Layout(groups)[i], Concat(Concat(groups));
      0 <= c.startIndex <= c.endIndex <= |whole| && whole[c.startIndex..c.endIndex] == Concat(groups[i])
  {
    LayoutSelectsGroup(groups, i);
  }

  /** Closing the current group: how the concatenations and the layout grow. */
  lemma {:induction false} PushGroup(groups: seq<seq<string>>, current: seq<string>)
    ensures Concat(groups + [current]) == Concat(groups) + current
    ensures Concat(Concat(groups + [current])) == Concat(Concat(groups)) + Concat(current)
    ensures Layout(groups + [current]) ==
      Layout(groups) + [TextChunk(Trim(Concat(current)), |Concat(Concat(groups))|, |Concat(Concat(groups))| + |Concat(current)|)]
  {
    PushGroupConcat(groups, current);
    LayoutSnoc(groups, current);
  }

  lemma {:induction false} LayoutSnoc(groups: seq<seq<string>>, current: seq<string>)
    ensures Layout(groups + [current]) ==
      Layout(groups) + [TextChunk(Trim(Concat(current)), |Concat(Concat(groups))|, |Concat(Concat(groups + [current]))|)]
  {
    var all := groups + [current];
    assert all[..|all| - 1] == groups;
  }

  lemma {:induction false} PushGroupConcat(groups: seq<seq<string>>, current: seq<string>)
    ensures Concat(groups + [current]) == Concat(groups) + current
    ensures Concat(Concat(groups + [current])) == Concat(Concat(groups)) + Concat(current)
  {
    var all := groups + [current];
    assert all[..|all| - 1] == groups;
    ConcatAppend(Concat(groups), current);
  }
}
