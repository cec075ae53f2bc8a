/** The sequential chunk player of hooks/useAudioPlayer.ts. The React state
    (`isPlaying`, `isLoaded`, `playbackRate`, `currentChunkIndex`) and the
    refs (the live source, the decoded buffers, the remembered playlist, the
    pause and start times) are fields of one object; `cleanup`, `playChunk`,
    `pause`, `play`, `changeRate` and the source's `onended` handler are its
    methods. The callbacks `onChunkStart` and `onFinished` are recorded in an
    event log. Audio hardware is abstract: a source is a record of what it
    plays, the clock is a number passed to the events that read it, and
    decoding is a partial function. */
module AudioPlayback {
  import opened Common

  /** What one decoded payload holds (24 kHz mono samples). */
  datatype AudioBuffer = AudioBuffer(samples: seq<int>)

  /** The values of `isPlaying` and `playbackRate` that a `playChunk`
      closure captured when its render created it, and the value of the
      chat panel's `isSingleMessageAudio` that the `onChunkStart` callback of
      the same render captured (ChatInterface.tsx creates that callback
      inline, so `playChunk` is made anew with it). */
  datatype Closure = Closure(isPlaying: bool, rate: real, singleMessage: bool)

  /** A started buffer source: the buffer it plays, the chunk it belongs to,
      its playback rate and start offset, the closure whose `onended`
      handler it carries, and whether it has ended on its own. */
  datatype Source = Source(buffer: AudioBuffer, index: nat, rate: real, offset: int, handler: Closure, ended: bool)

  /** The callbacks the player invokes. A chunk start carries the
      `isSingleMessageAudio` that the invoked `onChunkStart` had captured. */
  datatype PlayerEvent = ChunkStarted(index: nat, singleMessage: bool) | Finished

  /** A playlist passed to `play`: an array object, compared by reference
      (`chunks !== audioChunksRef.current`). */
  class Playlist {
    const items: seq<string>

    constructor (items: seq<string>)
      ensures this.items == items
    {
      this.items := items;
    }
  }

  /** `Promise.all` over the decoded payloads: every buffer in order when
      every payload decodes, and a rejection (`None`) as soon as one does
      not. */
  function DecodeAll(items: seq<string>, decode: string -> Option<AudioBuffer>): (r: Option<seq<AudioBuffer>>)
    ensures r.Some? <==> forall i :: 0 <= i < |items| ==> decode(items[i]).Some?
    ensures r.Some? ==> |r.value| == |items| && forall i :: 0 <= i < |items| ==> r.value[i] == decode(items[i]).value
  {
    if items == [] then Some([])
    else
      var n := |items| - 1;
      var init := DecodeAll(items[..n], decode);
      assert forall i :: 0 <= i < n ==> items[..n][i] == items[i];
      if init.Some? && decode(items[n]).Some? then Some(init.value + [decode(items[n]).value]) else None
  }

  class Player {
    var isPlaying: bool
    var isLoaded: bool
    var rate: real
    var currentIndex: Option<nat>
    var pausedTime: int
    var startedAt: int
    var buffers: seq<AudioBuffer>
    var chunksRef: Playlist
    var source: Option<Source>
    var events: seq<PlayerEvent>

    /** What holds between events: the pause time is always 0 again; a
        source is live exactly while the player says it is playing; the live
        source plays the buffer of the current chunk from offset 0; and the
        current chunk, if any, is one of the buffers. */
    ghost predicate Valid()
      reads this
    {
      SourceValid() && (currentIndex.Some? ==> currentIndex.value < |buffers|)
    }

    /** `Valid` without the bound on the current chunk, which `play` breaks
        for a moment when it replaces the buffers. */
    ghost predicate SourceValid()
      reads this
    {
      pausedTime == 0 &&
      (isPlaying <==> source.Some?) &&
      (source.Some? ==> var s := source.value;
        s.index < |buffers| && s.buffer == buffers[s.index] && s.offset == 0 && currentIndex == Some(s.index))
    }

    /** The hook's initial state: rate 1, nothing loaded, an empty remembered
        playlist. */
    constructor ()
      ensures Valid() && fresh(chunksRef) && chunksRef.items == []
      ensures !isPlaying && !isLoaded && rate == 1.0 && currentIndex == None
      ensures pausedTime == 0 && startedAt == 0 && buffers == [] && source == None && events == []
    {
      isPlaying := false;
      isLoaded := false;
      rate := 1.0;
      currentIndex := None;
      pausedTime := 0;
      startedAt := 0;
      buffers := [];
      chunksRef := new Playlist([]);
      source := None;
      events := [];
    }

    /** `cleanup`: the live source, if any, loses its handler and is stopped
        and dropped; the player stops playing and forgets the pause time.
        Nothing else changes, so a second call changes nothing more. */
    method Cleanup()
      modifies this
      ensures source == None && !isPlaying && pausedTime == 0
      ensures isLoaded == old(isLoaded) && rate == old(rate) && currentIndex == old(currentIndex)
      ensures startedAt == old(startedAt) && buffers == old(buffers) && chunksRef == old(chunksRef)
      ensures events == old(events)
    {
      if source.Some? {
        source := None;
      }
      isPlaying := false;
      pausedTime := 0;
    }

    /** `playChunk(index)` as created by a render whose state was `closure`.
        Past the last buffer the session ends: nothing plays, nothing is
        loaded, no chunk is current and `onFinished` fires. Otherwise the old
        source is cleaned up and one new source plays `buffers[index]` at the
        captured rate from the pause time, which the cleanup has just set to
        0; `onChunkStart(index)` fires. */
    method PlayChunk(index: nat, closure: Closure, now: int)
      requires SourceValid()
      modifies this
      ensures Valid()
      ensures buffers == old(buffers) && chunksRef == old(chunksRef) && rate == old(rate)
      ensures index >= |buffers| ==>
        source == None && !isPlaying && !isLoaded && currentIndex == None &&
        startedAt == old(startedAt) && events == old(events) + [Finished]
      ensures index < |buffers| ==>
        source == Some(Source(buffers[index], index, closure.rate, 0, closure, false)) &&
        isPlaying && isLoaded == old(isLoaded) && currentIndex == Some(index) &&
        startedAt == now && events == old(events) + [ChunkStarted(index, closure.singleMessage)]
    {
      if index >= |buffers| {
        Cleanup();
        isLoaded := false;
        currentIndex := None;
        events := events + [Finished];
        return;
      }
      Cleanup();
      var offset := pausedTime;
      source := Some(Source(buffers[index], index, closure.rate, offset, closure, false));
      startedAt := now - offset;
      pausedTime := 0;
      isPlaying := true;
      currentIndex := Some(index);
      events := events + [ChunkStarted(index, closure.singleMessage)];
    }

    /** `pause`: with no live source nothing happens; otherwise the elapsed
        time is recorded and at once erased again by `cleanup`. The current
        chunk and the buffers stay. */
    method Pause(now: int)
      requires Valid()
      modifies this
      ensures Valid()
      ensures old(source) == None ==>
        source == None && isPlaying == old(isPlaying) && pausedTime == old(pausedTime)
      ensures source == None && !isPlaying
      ensures isLoaded == old(isLoaded) && rate == old(rate) && currentIndex == old(currentIndex)
      ensures startedAt == old(startedAt) && buffers == old(buffers) && chunksRef == old(chunksRef)
      ensures events == old(events)
    {
      if source.None? {
        return;
      }
      pausedTime := now - startedAt;
      Cleanup();
    }

    /** `play(list)` as created by the render whose state the player is in;
        `singleMessage` is the chat panel's `isSingleMessageAudio` in that
        render, which the `onChunkStart` reached through it reports.
        While playing, the argument is ignored and the current chunk, if any,
        restarts. Otherwise a list that is not the remembered one is
        remembered, then decoded: a rejection (`ok == false`) leaves the old
        buffers; a success replaces them and marks the player loaded. Play
        then starts at chunk 0, since the pause time is always 0 here. */
    method Play(list: Playlist, decode: string -> Option<AudioBuffer>, singleMessage: bool, now: int) returns (ok: bool)
      requires Valid()
      modifies this
      ensures Valid() && rate == old(rate)
      ensures old(isPlaying) ==>
        ok && chunksRef == old(chunksRef) && buffers == old(buffers) && currentIndex == old(currentIndex) &&
        isLoaded == old(isLoaded) && isPlaying &&
        (old(currentIndex).Some? ==>
          source == Some(Source(buffers[currentIndex.value], currentIndex.value, rate, 0, Closure(true, rate, singleMessage), false)) &&
          startedAt == now && events == old(events) + [ChunkStarted(currentIndex.value, singleMessage)]) &&
        (old(currentIndex).None? ==> source == old(source) && startedAt == old(startedAt) && events == old(events))
      ensures !old(isPlaying) ==>
        chunksRef == list &&
        (list == old(chunksRef) ==> ok && buffers == old(buffers)) &&
        (list != old(chunksRef) ==>
          ok == DecodeAll(list.items, decode).Some? &&
          buffers == if ok then DecodeAll(list.items, decode).value else old(buffers))
      ensures !old(isPlaying) && !ok ==>
        source == old(source) && isPlaying == old(isPlaying) && currentIndex == old(currentIndex) &&
        isLoaded == old(isLoaded) && startedAt == old(startedAt) && events == old(events)
      ensures !old(isPlaying) && ok && |buffers| > 0 ==>
        source == Some(Source(buffers[0], 0, rate, 0, Closure(false, rate, singleMessage), false)) &&
        isPlaying && currentIndex == Some(0) && startedAt == now &&
        isLoaded == (list != old(chunksRef) || old(isLoaded)) && events == old(events) + [ChunkStarted(0, singleMessage)]
      ensures !old(isPlaying) && ok && |buffers| == 0 ==>
        source == None && !isPlaying && currentIndex == None && !isLoaded && startedAt == old(startedAt) &&
        events == old(events) + [Finished]
    {
      var closure := Closure(isPlaying, rate, singleMessage);
      if isPlaying {
        if currentIndex.Some? {
          PlayChunk(currentIndex.value, closure, now);
        }
        return true;
      }
      if list != chunksRef {
        chunksRef := list;
        var decoded := DecodeAll(list.items, decode);
        if decoded.None? {
          return false;
        }
        buffers := decoded.value;
        isLoaded := true;
      }
      var startIndex := if pausedTime > 0 then GetOr(currentIndex, 0) else 0;
      PlayChunk(startIndex, closure, now);
      ok := true;
    }

    /** `changeRate(r)`: the stored rate, and that of the live source if there
        is one. Nothing else changes. */
    method ChangeRate(r: real)
      requires Valid()
      modifies this
      ensures Valid()
      ensures rate == r
      ensures source == if old(source).Some? then Some(old(source).value.(rate := r)) else None
      ensures isPlaying == old(isPlaying) && isLoaded == old(isLoaded) && currentIndex == old(currentIndex)
      ensures pausedTime == old(pausedTime) && startedAt == old(startedAt) && buffers == old(buffers)
      ensures chunksRef == old(chunksRef) && events == old(events)
    {
      rate := r;
      if source.Some? {
        source := Some(source.value.(rate := r));
      }
    }

    /** The live source reaches its end. Its handler advances to the next
        chunk only if the closure that created it had captured
        `isPlaying == true`; otherwise the source stays where it is, ended,
        and the player still says it is playing. A source that has already
        ended, or none at all, produces no event. */
    method OnEnded(now: int)
      requires Valid()
      modifies this
      ensures Valid() && rate == old(rate) && buffers == old(buffers) && chunksRef == old(chunksRef)
      ensures (old(source).None? || old(source).value.ended) ==>
        source == old(source) && isPlaying == old(isPlaying) && isLoaded == old(isLoaded) &&
        currentIndex == old(currentIndex) && startedAt == old(startedAt) && events == old(events)
      ensures old(source).Some? && !old(source).value.ended && !old(source).value.handler.isPlaying ==>
        source == Some(old(source).value.(ended := true)) && isPlaying && isLoaded == old(isLoaded) &&
        currentIndex == old(currentIndex) && startedAt == old(startedAt) && events == old(events)
      ensures old(source).Some? && !old(source).value.ended && old(source).value.handler.isPlaying ==>
        var next := old(source).value.index + 1;
        (next < |buffers| ==>
          currentIndex == Some(next) && isPlaying && isLoaded == old(isLoaded) && startedAt == now &&
          events == old(events) + [ChunkStarted(next, old(source).value.handler.singleMessage)] &&
          source == Some(Source(buffers[next], next, old(source).value.handler.rate, 0, old(source).value.handler, false))) &&
        (next >= |buffers| ==>
          currentIndex == None && source == None && !isPlaying && !isLoaded && startedAt == old(startedAt) &&
          events == old(events) + [Finished])
    {
      if source.None? || source.value.ended {
        return;
      }
      var s := source.value;
      if s.handler.isPlaying {
        PlayChunk(s.index + 1, s.handler, now);
      } else {
        source := Some(s.(ended := true));
      }
    }
  }

  /** Loading a playlist whose every payload decodes and pressing play: the
      first chunk starts, and when it ends nothing follows, because the
      handler was created while the player was not yet playing. The player
      goes on saying it plays chunk 0. */
  method PlayFromStopHaltsAfterFirstChunk(items: seq<string>, decode: string -> Option<AudioBuffer>)
    returns (events: seq<PlayerEvent>, current: Option<nat>, playing: bool)
    requires |items| >= 2 && forall i :: 0 <= i < |items| ==> decode(items[i]).Some?
    ensures events == [ChunkStarted(0, false)] && current == Some(0) && playing
  {
    var player := new Player();
    var list := new Playlist(items);
    var ok := player.Play(list, decode, false, 0);
    player.OnEnded(10);
    events, current, playing := player.events, player.currentIndex, player.isPlaying;
  }

  /** Pressing play again while the first chunk plays (the argument is
      ignored) restarts that chunk with a handler that does advance; when it
      ends the next chunk starts; a pause followed by play then starts over
      at chunk 0, since the pause position was erased. */
  method PauseThenPlayStartsOver(items: seq<string>, decode: string -> Option<AudioBuffer>)
    returns (events: seq<PlayerEvent>, current: Option<nat>)
    requires |items| >= 2 && forall i :: 0 <= i < |items| ==> decode(items[i]).Some?
    ensures events == [ChunkStarted(0, false), ChunkStarted(0, false), ChunkStarted(1, false), ChunkStarted(0, false)]
    ensures current == Some(0)
  {
    var player := new Player();
    var list := new Playlist(items);
    var ok := player.Play(list, decode, false, 0);
    ok := player.Play(list, decode, false, 5);
    player.OnEnded(10);
    player.Pause(12);
    ok := player.Play(list, decode, false, 20);
    events, current := player.events, player.currentIndex;
  }

  /** A rate change reaches the chunk that is playing, but not the next one:
      the advancing handler starts it at the rate its closure captured, so
      chunk 1 plays at 1.0 while the player's rate says 2.0. */
  method RateChangeLostOnAdvance(items: seq<string>, decode: string -> Option<AudioBuffer>)
    returns (current: Option<nat>, sourceRate: real, playerRate: real)
    requires |items| >= 2 && forall i :: 0 <= i < |items| ==> decode(items[i]).Some?
    ensures current == Some(1) && sourceRate == 1.0 && playerRate == 2.0
  {
    var player := new Player();
    var list := new Playlist(items);
    var ok := player.Play(list, decode, false, 0);
    ok := player.Play(list, decode, false, 5);
    player.ChangeRate(2.0);
    player.OnEnded(10);
    current, playerRate := player.currentIndex, player.rate;
    sourceRate := if player.source.Some? then player.source.value.rate else 0.0;
  }

  /** Once playback advances by its handlers, the end of the last chunk ends
      the session: `onFinished` fires, nothing is current and the player is
      no longer loaded. */
  method LastChunkEndsSession(item: string, decode: string -> Option<AudioBuffer>)
    returns (events: seq<PlayerEvent>, current: Option<nat>, loaded: bool, playing: bool)
    requires decode(item).Some?
    ensures events == [ChunkStarted(0, false), ChunkStarted(0, false), Finished]
    ensures current == None && !loaded && !playing
  {
    var player := new Player();
    var a := new Playlist([item]);
    var ok := player.Play(a, decode, false, 0);
    ok := player.Play(a, decode, false, 1);
    player.OnEnded(10);
    events, current, loaded, playing := player.events, player.currentIndex, player.isLoaded, player.isPlaying;
  }
}
