/** Speech synthesis of a whole document (services/geminiService.ts): the
    length clamp applied to every request, the pool that keeps at most five
    requests in flight and writes each answer into the slot of its chunk, and
    the final filter that drops the slots left empty. The speech service is a
    function from the request text to an optional audio payload. */
module AudioSynthesis {
  import opened Common
  import opened TextChunking

  /** Longer requests are cut to this many characters. */
  const MaxSpeechInput := 5000

  /** What is appended to a cut request. */
  const Ellipsis := "..."

  /** The most requests the pool keeps in flight at once. */
  const ConcurrencyLimit := 5

  /** The text `generateAudioFromText` sends: up to 5000 characters are sent
      as they are, a longer text as its first 5000 characters followed by
      "...". */
  function ClampForSpeech(text: string): (r: string)
    ensures |text| <= MaxSpeechInput ==> r == text
    ensures |text| > MaxSpeechInput ==>
      |r| == MaxSpeechInput + |Ellipsis| && r[..MaxSpeechInput] == text[..MaxSpeechInput] && r[MaxSpeechInput..] == Ellipsis
  {
    if |text| > MaxSpeechInput then text[..MaxSpeechInput] + Ellipsis else text
  }

  /** A request is never longer than 5003 characters, and it always starts
      with the text itself or with its first 5000 characters. */
  lemma {:induction false} ClampBounds(text: string)
    ensures |ClampForSpeech(text)| <= MaxSpeechInput + |Ellipsis|
    ensures var m := if |text| < MaxSpeechInput then |text| else MaxSpeechInput;
      ClampForSpeech(text)[..m] == text[..m]
  {
  }

  /** Clamping a clamped text changes nothing: a cut text is 5003 long, and
      cutting it again keeps the same 5000 characters and the same "...". */
  lemma {:induction false} ClampIdempotent(text: string)
    ensures ClampForSpeech(ClampForSpeech(text)) == ClampForSpeech(text)
  {
    var r := ClampForSpeech(text);
    if |text| > MaxSpeechInput {
      assert r[..MaxSpeechInput] + Ellipsis == r;
    }
  }

  /** What lands in a chunk's slot once its request has settled: the payload
      when it is present and not empty (the `if (audioData)` test), nothing
      otherwise. */
  function SlotValue(answer: Option<string>): (v: Option<string>)
    ensures v.Some? <==> answer.Some? && answer.value != ""
    ensures v.Some? ==> v == answer
  {
    if answer.Some? && answer.value != "" then answer else None
  }

  predicate IsFilled(slot: Option<string>)
  {
    slot.Some?
  }

  /** `results.filter(r => r !== null)`: the payloads of the filled slots, in
      slot order. */
  function SuccessfulChunks(results: seq<Option<string>>): (r: seq<string>)
    ensures |r| == |Filter(results, IsFilled)|
    ensures forall j :: 0 <= j < |r| ==> Filter(results, IsFilled)[j] == Some(r[j])
  {
    if results == [] then []
    else
      var n := |results| - 1;
      var init := SuccessfulChunks(results[..n]);
      assert Filter(results, IsFilled) == Filter(results[..n], IsFilled) + (if results[n].Some? then [results[n]] else []);
      init + (if results[n].Some? then [results[n].value] else [])
  }

  /** The filter keeps exactly the filled slots, in order: the j-th payload
      comes from slot `KeptPositions(...)[j]`, those slots increase, every
      filled slot is among them, and there are no more payloads than slots. */
  lemma {:induction false} SuccessfulChunksInSlotOrder(results: seq<Option<string>>)
    ensures var r, pos := SuccessfulChunks(results), KeptPositions(results, IsFilled);
      |r| == |pos| <= |results| &&
      (forall j :: 0 <= j < |r| ==> pos[j] < |results| && results[pos[j]] == Some(r[j])) &&
      (forall j, k :: 0 <= j < k < |pos| ==> pos[j] < pos[k]) &&
      (forall k :: 0 <= k < |results| && results[k].Some? ==> k in pos)
  {
    KeptPositionsSpec(results, IsFilled);
  }

  /** The player numbers the payloads, not the chunks: the j-th payload comes
      from chunk j or a later one, and it is chunk j's own exactly when none
      of the chunks up to j failed. */
  lemma {:induction false} PayloadChunkLags(results: seq<Option<string>>)
    ensures var pos := KeptPositions(results, IsFilled);
      (forall j :: 0 <= j < |pos| ==> j <= pos[j]) &&
      (forall j :: 0 <= j < |pos| ==> (pos[j] == j <==> forall k :: 0 <= k <= j ==> results[k].Some?))
  {
    var pos := KeptPositions(results, IsFilled);
    SuccessfulChunksInSlotOrder(results);
    assert |SuccessfulChunks(results)| == |pos|;
    IncreasingAtLeastIndex(pos, |pos|);
    forall j | 0 <= j < |pos|
      ensures pos[j] == j <==> forall k :: 0 <= k <= j ==> results[k].Some?
    {
      if pos[j] == j {
        TightBelow(pos, j);
        forall k | 0 <= k <= j ensures results[k].Some? {
          assert pos[k] == k && results[pos[k]].Some?;
        }
      }
      if forall k :: 0 <= k <= j ==> results[k].Some? {
        AllFilledPrefix(results, j + 1);
        KeptPositionsOfPrefix(results, IsFilled, j + 1);
        var pre := KeptPositions(results[..j + 1], IsFilled);
        assert pre[j] == j;
        assert pos[j] == pre[j];
      }
    }
  }

  /** A strictly increasing sequence of naturals has `pos[j] >= j`. */
  lemma {:induction false} IncreasingAtLeastIndex(pos: seq<nat>, m: nat)
    requires m <= |pos|
    requires forall j, k :: 0 <= j < k < |pos| ==> pos[j] < pos[k]
    ensures forall j :: 0 <= j < m ==> j <= pos[j]
    decreases m
  {
    if m > 0 {
      IncreasingAtLeastIndex(pos, m - 1);
      if m > 1 {
        assert pos[m - 2] < pos[m - 1];
      }
    }
  }

  /** Below an index where it meets the bound, it meets it everywhere. */
  lemma {:induction false} TightBelow(pos: seq<nat>, j: nat)
    requires j < |pos| && pos[j] == j
    requires forall a, b :: 0 <= a < b < |pos| ==> pos[a] < pos[b]
    requires forall a :: 0 <= a < |pos| ==> a <= pos[a]
    ensures forall k :: 0 <= k <= j ==> pos[k] == k
    decreases j
  {
    if j > 0 {
      assert pos[j - 1] < pos[j];
      TightBelow(pos, j - 1);
    }
  }

  /** When the first `m` slots are filled, they are kept at positions `0..m`. */
  lemma {:induction false} AllFilledPrefix(results: seq<Option<string>>, m: nat)
    requires m <= |results|
    requires forall k :: 0 <= k < m ==> results[k].Some?
    ensures |KeptPositions(results[..m], IsFilled)| == m
    ensures forall k :: 0 <= k < m ==> KeptPositions(results[..m], IsFilled)[k] == k
    decreases m
  {
    if m > 0 {
      AllFilledPrefix(results, m - 1);
      assert results[..m][..m - 1] == results[..m - 1];
      assert results[..m][m - 1] == results[m - 1];
    }
  }

  /** When every request succeeds, the payloads are exactly the answers, one
      per chunk, in chunk order. */
  lemma {:induction false} AllFilled(results: seq<Option<string>>)
    requires forall k :: 0 <= k < |results| ==> results[k].Some?
    ensures |SuccessfulChunks(results)| == |results|
    ensures forall k :: 0 <= k < |results| ==> SuccessfulChunks(results)[k] == results[k].value
    decreases |results|
  {
    if results != [] {
      var n := |results| - 1;
      AllFilled(results[..n]);
      assert forall k :: 0 <= k < n ==> results[..n][k] == results[k];
    }
  }

  /** The slot of chunk `k` once every request has settled. */
  function Answers(texts: seq<string>, tts: string -> Option<string>): (r: seq<Option<string>>)
    ensures |r| == |texts|
    ensures forall k :: 0 <= k < |texts| ==> r[k] == SlotValue(tts(ClampForSpeech(texts[k])))
  {
    seq(|texts|, k requires 0 <= k < |texts| => SlotValue(tts(ClampForSpeech(texts[k]))))
  }

  /** When chunk 0's request fails and chunk 1's succeeds, the first payload
      the player gets, the one it numbers 0, is chunk 1's speech. */
  lemma {:induction false} FailedFirstChunkShiftsPayloads(texts: seq<string>, tts: string -> Option<string>)
    requires |texts| >= 2
    requires SlotValue(tts(ClampForSpeech(texts[0]))).None?
    requires SlotValue(tts(ClampForSpeech(texts[1]))).Some?
    ensures var audio := SuccessfulChunks(Answers(texts, tts));
      audio != [] && Some(audio[0]) == tts(ClampForSpeech(texts[1]))
  {
    var results := Answers(texts, tts);
    var pos := KeptPositions(results, IsFilled);
    SuccessfulChunksInSlotOrder(results);
    PayloadChunkLags(results);
    assert 1 in pos;
    var m :| 0 <= m < |pos| && pos[m] == 1;
    assert pos[0] <= pos[m];
    assert pos[0] != 0;
    assert results[1] == Some(SuccessfulChunks(results)[0]);
  }

  /** The slots as the settled requests have written them: slot `k` holds the
      slot value of its request's answer once that has settled, and nothing
      before. */
  function Slots(settled: map<nat, Option<string>>, n: nat): seq<Option<string>>
  {
    seq(n, k requires 0 <= k < n => if k as nat in settled then SlotValue(settled[k as nat]) else None)
  }

  /** A request settling writes its own slot and no other. */
  lemma {:induction false} SlotsSettle(settled: map<nat, Option<string>>, n: nat, k: nat, answer: Option<string>)
    requires k < n && k !in settled
    ensures Slots(settled, n)[k] == None
    ensures Slots(settled[k := answer], n) == Slots(settled, n)[k := SlotValue(answer)]
  {
  }

  /** The request pool of `generateFullAudioFromPdfText`. `next` is the cursor
      `i`, `active` the counter `activeRequests`, `inFlight` the chunks whose
      request has been sent and has not settled, and `results` the slots.
      `requests` records the texts sent, in the order they were sent, and
      `settled` the answer each settled request came back with. */
  class SynthesisPool {
    const texts: seq<string>
    const results: array<Option<string>>
    var next: nat
    var active: nat
    var inFlight: set<nat>
    var started: bool
    var resolved: bool
    ghost var requests: seq<string>
    ghost var settled: map<nat, Option<string>>

    /** What holds at every point: the counter counts the requests in flight
        and never exceeds the limit; requests were sent for chunks 0, 1, ...
        in order, one each, clamped; the settled requests are those sent and
        no longer in flight; a slot holds the payload of its own request once
        that has settled with a non-empty one, and is empty otherwise. */
    ghost predicate Core()
      reads this, results
    {
      results.Length == |texts| && next <= |texts| &&
      active == |inFlight| && active <= ConcurrencyLimit &&
      (forall k :: k in inFlight ==> k < next) &&
      |requests| == next &&
      (forall j :: 0 <= j < next ==> requests[j] == ClampForSpeech(texts[j])) &&
      (forall k: nat :: k in settled <==> k < next && k !in inFlight) &&
      results[..] == Slots(settled, |texts|) &&
      (!started ==> next == 0 && active == 0 && !resolved)
    }

    /** Between events, once started: while chunks remain, all five places are
        taken; and the promise has settled exactly when every chunk was sent
        and every request settled, which never happens without chunks. */
    ghost predicate Valid()
      reads this, results
    {
      Core() &&
      (started && next < |texts| ==> active == ConcurrencyLimit) &&
      (resolved <==> started && |texts| > 0 && next == |texts| && active == 0)
    }

    /** `new Array(chunks.length).fill(null)`, nothing sent yet. */
    constructor (texts: seq<string>)
      ensures Valid() && this.texts == texts && fresh(results)
      ensures results[..] == seq(|texts|, k => None)
      ensures next == 0 && active == 0 && inFlight == {} && !started && !resolved && requests == [] && settled == map[]
    {
      this.texts := texts;
      results := new Option<string>[|texts|](k => None);
      next := 0;
      active := 0;
      inFlight := {};
      started := false;
      resolved := false;
      requests := [];
      settled := map[];
    }

    /** `processNext`: with every chunk sent, settle the promise once nothing
        is in flight; otherwise send the request for the chunk at the cursor.
        The caller guarantees a free place (`active < ConcurrencyLimit`), so
        the polling loop at this point gives up no turn. */
    method ProcessNext()
      requires Core() && started && active < ConcurrencyLimit
      modifies this
      ensures Core() && started
      ensures old(next) >= |texts| ==>
        next == old(next) && active == old(active) && inFlight == old(inFlight) &&
        requests == old(requests) && settled == old(settled) && resolved == (old(resolved) || active == 0)
      ensures old(next) < |texts| ==>
        next == old(next) + 1 && active == old(active) + 1 && inFlight == old(inFlight) + {old(next)} &&
        requests == old(requests) + [ClampForSpeech(texts[old(next)])] && settled == old(settled) &&
        resolved == old(resolved)
    {
      if next >= |texts| {
        if active == 0 {
          resolved := true;
        }
        return;
      }
      var chunkIndex := next;
      assert chunkIndex !in inFlight && chunkIndex !in settled;
      assert |inFlight + {chunkIndex}| == |inFlight| + 1;
      next := next + 1;
      active := active + 1;
      inFlight := inFlight + {chunkIndex};
      requests := requests + [ClampForSpeech(texts[chunkIndex])];
    }

    /** The `for` loop that opens the pool: `processNext` once per place, for
        up to five chunks. */
    method Start()
      requires Valid() && !started
      modifies this
      ensures Valid() && started && !resolved
      ensures var m := if |texts| < ConcurrencyLimit then |texts| else ConcurrencyLimit;
        next == m && active == m && (forall j: nat :: j in inFlight <==> j < m) && settled == map[]
      ensures requests == seq(next, j requires 0 <= j < |texts| => ClampForSpeech(texts[j]))
    {
      started := true;
      var m := if |texts| < ConcurrencyLimit then |texts| else ConcurrencyLimit;
      for k := 0 to m
        invariant Core() && started && !resolved
        invariant next == k && active == k && (forall j: nat :: j in inFlight <==> j < k) && settled == map[]
      {
        ProcessNext();
      }
    }

    /** The request of chunk `k` settles with `answer`: the `then` writes the
        slot when the payload is present and non-empty, the `finally` frees
        the place and calls `processNext`. */
    method Complete(k: nat, answer: Option<string>)
      requires Valid() && started && k in inFlight
      modifies this, results
      ensures Valid() && started
      ensures settled == old(settled)[k := answer]
      ensures results[..] == old(results[..])[k := SlotValue(answer)]
      ensures k !in inFlight
      ensures old(next) < |texts| ==>
        next == old(next) + 1 && inFlight == old(inFlight) - {k} + {old(next)}
      ensures old(next) >= |texts| ==> next == old(next) && inFlight == old(inFlight) - {k}
    {
      var slot := SlotValue(answer);
      assert k !in settled;
      SlotsSettle(settled, |texts|, k, answer);
      if slot.Some? {
        results[k] := slot;
      } else {
        assert results[..] == old(results[..])[k := slot];
      }
      active := active - 1;
      inFlight := inFlight - {k};
      settled := settled[k := answer];
      ProcessNext();
    }

    /** After the `await`: with nothing in flight, the promise has settled
        exactly when there were chunks, every request has then settled, and
        the filtered slots are returned. */
    method Collect() returns (r: seq<string>)
      requires Valid() && started && inFlight == {}
      ensures resolved <==> |texts| > 0
      ensures forall k :: 0 <= k < |texts| ==> k in settled
      ensures results[..] == Slots(settled, |texts|)
      ensures r == SuccessfulChunks(results[..])
    {
      r := SuccessfulChunks(results[..]);
    }
  }

  lemma {:induction false} SlotsAreAnswers(slots: seq<Option<string>>, settled: map<nat, Option<string>>,
                        texts: seq<string>, tts: string -> Option<string>)
    requires slots == Slots(settled, |texts|)
    requires forall k :: 0 <= k < |texts| ==> k in settled
    requires forall k :: k in settled ==> k < |texts| && settled[k] == tts(ClampForSpeech(texts[k]))
    ensures slots == Answers(texts, tts)
  {
  }

  /** `generateFullAudioFromPdfText` after chunking: the requests for `texts`
      run through the pool, settling one at a time in any order, and the
      payloads of the filled slots are returned. The result is the same
      whatever the order: the answer to every chunk, in chunk order, without
      the failed ones. With no chunks the pool never starts a request and
      the promise never settles, which is `None`. */
  method SynthesizeAll(texts: seq<string>, tts: string -> Option<string>) returns (r: Option<seq<string>>)
    ensures r.None? <==> texts == []
    ensures r.Some? ==> r.value == SuccessfulChunks(Answers(texts, tts))
  {
    var pool := new SynthesisPool(texts);
    pool.Start();
    while pool.inFlight != {}
      invariant pool.Valid() && pool.started && pool.texts == texts && fresh(pool.results)
      invariant forall k :: k in pool.settled ==> k < |texts| && pool.settled[k] == tts(ClampForSpeech(texts[k]))
      decreases |texts| - pool.next + |pool.inFlight|
    {
      var k :| k in pool.inFlight;
      pool.Complete(k, tts(ClampForSpeech(texts[k])));
    }
    var payloads := pool.Collect();
    if !pool.resolved {
      return None;
    }
    SlotsAreAnswers(pool.results[..], pool.settled, texts, tts);
    r := Some(payloads);
  }

  /** `generateFullAudioFromPdfText(text)`: the texts of the chunks of
      `chunkText(text)` with the default budget, synthesised through the pool.
      It settles exactly when the text has a sentence, and then yields the
      successful payloads in chunk order. */
  method GenerateFullAudioFromPdfText(text: string, tts: string -> Option<string>) returns (r: Option<seq<string>>)
    ensures r.None? <==> Matches(text) == []
    ensures r.Some? ==> r.value == SuccessfulChunks(Answers(ChunkTexts(text), tts))
  {
    var chunks, groups := ChunkText(text, DefaultChunkSize);
    PackingChunkCount(Matches(text), DefaultChunkSize, groups);
    var texts := seq(|chunks|, j requires 0 <= j < |chunks| => chunks[j].text);
    assert |texts| == |chunks|;
    r := SynthesizeAll(texts, tts);
  }

  /** The trimmed texts of the default-budget chunks of `text`, one per
      group of sentences: no more texts than sentences, and none exactly when
      the text has no sentence. */
  function ChunkTexts(text: string): (r: seq<string>)
    ensures |r| <= |Matches(text)|
    ensures r == [] <==> Matches(text) == []
  {
    var sentences := Matches(text);
    var chunks := FinalChunks(PackSentences(sentences, DefaultChunkSize));
    assert NonEmptyPieces(sentences) by {
      assert forall i :: 0 <= i < |sentences| ==> IsSentence(sentences[i]);
    }
    FinalChunksAreLayout(sentences, DefaultChunkSize);
    FinalGroupsAreGreedy(sentences, DefaultChunkSize);
    PackingChunkCount(sentences, DefaultChunkSize, FinalGroups(sentences, DefaultChunkSize));
    seq(|chunks|, j requires 0 <= j < |chunks| => chunks[j].text)
  }
}
