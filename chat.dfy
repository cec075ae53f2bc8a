/** The chat panel of components/ChatInterface.tsx: its list of messages, the
    loading flags that keep at most one request outstanding, the handlers
    that start a request and take its answer, the forwarding of the player's
    events to the document highlight, the id the audio button follows, and
    the transcript copied by the share button. The remote calls are outside
    the model: each handler is split at its `await` into the part that
    starts the request and the part that takes the answer, which is a
    parameter (`None` when the call throws). */
module Chat {
  import opened Common
  import opened AudioPlayback

  datatype Role = User | Assistant

  /** `Message`: an id, who wrote it and its text. */
  datatype Message = Message(id: string, role: Role, content: string)

  /** The message the panel opens with. */
  const Greeting := Message("initial", Assistant,
    "Hello! Your document is ready. You can ask me to summarize it, ask any specific questions, or convert the entire document to audio.")

  const AnswerFailed := "Sorry, an error occurred. Please try again."
  const SummaryRequest := "Please summarize this document for me."
  const SummaryFailed := "Sorry, an error occurred while summarizing. Please try again."
  const NoMessageAudio := "Sorry, I couldn't generate audio for this message."
  const MessageAudioFailed := "An error occurred while generating audio."
  const ConvertingNotice := "Generating audio for the entire document. This might take some time..."
  const AudioReady := "Audio is ready. Use the player controls to listen."
  const NoDocumentAudio := "Sorry, I was unable to generate any audio for the document."
  const DocumentAudioFailed := "An unexpected error occurred while generating the document audio."

  /** `lastAssistantMessageId`: the id of the last message from the
      assistant, or none when there is no such message or its id is empty
      (`?.id || null`). */
  function LastAssistantId(messages: seq<Message>): (r: Option<string>)
    ensures r.Some? ==>
      r.value != "" &&
      exists i :: 0 <= i < |messages| && messages[i].role == Assistant && messages[i].id == r.value &&
        forall k :: i < k < |messages| ==> messages[k].role != Assistant
    ensures r.None? <==>
      (forall i :: 0 <= i < |messages| ==> messages[i].role != Assistant) ||
      exists i :: 0 <= i < |messages| && messages[i].role == Assistant && messages[i].id == "" &&
        forall k :: i < k < |messages| ==> messages[k].role != Assistant
  {
    if messages == [] then None
    else
      var n := |messages| - 1;
      if messages[n].role == Assistant then (if messages[n].id == "" then None else Some(messages[n].id))
      else
        var r := LastAssistantId(messages[..n]);
        assert forall i :: 0 <= i < n ==> messages[..n][i] == messages[i];
        r
  }

  /** The audio button sits on the greeting until another assistant message
      arrives; a new assistant message takes it over, and a user message
      leaves it where it is. */
  lemma {:induction false} LastAssistantIdSteps(messages: seq<Message>, m: Message)
    ensures LastAssistantId([Greeting]) == Some("initial")
    ensures m.role == Assistant && m.id != "" ==> LastAssistantId(messages + [m]) == Some(m.id)
    ensures m.role == User ==> LastAssistantId(messages + [m]) == LastAssistantId(messages)
  {
    assert (messages + [m])[..|messages|] == messages;
  }

  /** `anyLoading`. */
  predicate AnyLoading(isLoading: bool, isGeneratingAudio: bool, isConvertingToAudio: bool)
  {
    isLoading || isGeneratingAudio || isConvertingToAudio
  }

  /** The heading of a message in the transcript. */
  function Label(role: Role): string
  {
    if role == User then "You" else "Mr.PDF"
  }

  /** One message of the transcript: its heading, a colon and a line break,
      and its text. */
  function Block(m: Message): string
  {
    Label(m.role) + ":\n" + m.content
  }

  /** What goes between two messages of the transcript. */
  const BlockSeparator := "\n\n---\n\n"

  /** The messages' blocks, in order. */
  function Blocks(messages: seq<Message>): (r: seq<string>)
    ensures |r| == |messages|
    ensures forall i :: 0 <= i < |r| ==> r[i] == Block(messages[i])
  {
    if messages == [] then []
    else Blocks(messages[..|messages| - 1]) + [Block(messages[|messages| - 1])]
  }

  /** JavaScript's `parts.join(sep)`. */
  function Join(parts: seq<string>, sep: string): string
  {
    if parts == [] then ""
    else if |parts| == 1 then parts[0]
    else Join(parts[..|parts| - 1], sep) + sep + parts[|parts| - 1]
  }

  /** The text `handleShareChat` copies. */
  function Transcript(messages: seq<Message>): string
  {
    Join(Blocks(messages), BlockSeparator)
  }

  /** The transcript grows message by message: an empty chat copies nothing,
      one message copies its block, and one more message adds the separator
      and its block at the end. */
  lemma {:induction false} TranscriptAppend(messages: seq<Message>, m: Message)
    ensures Transcript([]) == ""
    ensures Transcript([m]) == Block(m)
    ensures messages != [] ==> Transcript(messages + [m]) == Transcript(messages) + (BlockSeparator + Block(m))
  {
    var all := messages + [m];
    assert all[..|messages|] == messages;
    assert Blocks(all)[..|messages|] == Blocks(messages);
  }

  /** The transcript is as long as the blocks together plus one separator
      between every two of them. */
  function BlocksLength(messages: seq<Message>): nat
  {
    if messages == [] then 0 else BlocksLength(messages[..|messages| - 1]) + |Block(messages[|messages| - 1])|
  }

  lemma {:induction false} TranscriptLength(messages: seq<Message>)
    requires messages != []
    ensures |Transcript(messages)| == BlocksLength(messages) + (|messages| - 1) * |BlockSeparator|
    decreases |messages|
  {
    var n := |messages| - 1;
    assert |BlockSeparator| == 7;
    if n > 0 {
      TranscriptLength(messages[..n]);
      TranscriptLast(messages);
    } else {
      TranscriptOne(messages);
      assert messages[..0] == [];
    }
  }

  /** The transcript starts with the first message's block. */
  lemma {:induction false} TranscriptStartsWithFirst(messages: seq<Message>)
    requires messages != []
    ensures |Block(messages[0])| <= |Transcript(messages)|
    ensures Transcript(messages)[..|Block(messages[0])|] == Block(messages[0])
    decreases |messages|
  {
    var n := |messages| - 1;
    if n > 0 {
      TranscriptStartsWithFirst(messages[..n]);
      TranscriptLast(messages);
      assert messages[..n][0] == messages[0];
      PrefixOfAppend(Transcript(messages[..n]), BlockSeparator + Block(messages[n]), |Block(messages[0])|);
    } else {
      TranscriptOne(messages);
    }
  }

  /** Where part `i` begins in `Join(parts, sep)`: after every earlier part
      and one separator behind each of them. */
  function PartOffset(parts: seq<string>, sep: string, i: nat): nat
    requires i <= |parts|
  {
    if i == 0 then 0 else PartOffset(parts, sep, i - 1) + |parts[i - 1]| + |sep|
  }

  /** Offsets depend only on the parts before them. */
  lemma {:induction false} PartOffsetOfPrefix(parts: seq<string>, sep: string, k: nat, i: nat)
    requires i <= k <= |parts|
    ensures PartOffset(parts[..k], sep, i) == PartOffset(parts, sep, i)
    decreases i
  {
    if i > 0 {
      PartOffsetOfPrefix(parts, sep, k, i - 1);
      assert parts[..k][i - 1] == parts[i - 1];
    }
  }

  /** The joined text ends where its last part ends. */
  lemma {:induction false} JoinLength(parts: seq<string>, sep: string)
    requires parts != []
    ensures |Join(parts, sep)| == PartOffset(parts, sep, |parts| - 1) + |parts[|parts| - 1]|
    decreases |parts|
  {
    var n := |parts| - 1;
    if n > 0 {
      JoinLength(parts[..n], sep);
      PartOffsetOfPrefix(parts, sep, n, n - 1);
      assert parts[..n][n - 1] == parts[n - 1];
    }
  }

  /** Joining the first `k` parts gives a prefix of joining them all. */
  lemma {:induction false} JoinPrefix(parts: seq<string>, sep: string, k: nat)
    requires 1 <= k <= |parts|
    ensures Join(parts[..k], sep) <= Join(parts, sep)
    decreases |parts| - k
  {
    var n := |parts| - 1;
    if k == |parts| {
      assert parts[..k] == parts;
    } else {
      var init := parts[..n];
      JoinPrefix(init, sep, k);
      assert init[..k] == parts[..k];
      assert Join(parts, sep) == Join(init, sep) + sep + parts[n];
    }
  }

  /** Joining the first `i + 1` parts ends with part `i`, one separator after
      the first `i` parts joined. */
  lemma {:induction false} JoinSnoc(parts: seq<string>, sep: string, i: nat)
    requires 0 < i < |parts|
    ensures Join(parts[..i + 1], sep) == Join(parts[..i], sep) + (sep + parts[i])
    ensures |Join(parts[..i], sep)| + |sep| == PartOffset(parts, sep, i)
  {
    var init := parts[..i + 1];
    assert init[..i] == parts[..i];
    assert init[i] == parts[i];
    assert Join(init, sep) == Join(parts[..i], sep) + sep + parts[i];
    JoinLength(parts[..i], sep);
    PartOffsetOfPrefix(parts, sep, i, i - 1);
    assert parts[..i][i - 1] == parts[i - 1];
  }

  /** `parts.join(sep)` read back by position: part `i` sits at
      `PartOffset(parts, sep, i)`. */
  lemma {:induction false} JoinPartAt(parts: seq<string>, sep: string, i: nat)
    requires i < |parts|
    ensures PartOffset(parts, sep, i) + |parts[i]| <= |Join(parts, sep)|
    ensures Join(parts, sep)[PartOffset(parts, sep, i)..PartOffset(parts, sep, i) + |parts[i]|] == parts[i]
  {
    var o := PartOffset(parts, sep, i);
    var j := Join(parts[..i + 1], sep);
    JoinPrefix(parts, sep, i + 1);
    if i == 0 {
      assert j == parts[0];
    } else {
      JoinSnoc(parts, sep, i);
      SuffixOfAppend(Join(parts[..i], sep) + sep, parts[i]);
    }
    assert j[o..o + |parts[i]|] == parts[i];
    SliceOfPrefix(j, Join(parts, sep), o, o + |parts[i]|);
  }

  /** In `parts.join(sep)` every part but the last is followed by the
      separator. */
  lemma {:induction false} JoinSeparatorAt(parts: seq<string>, sep: string, i: nat)
    requires i < |parts| - 1
    ensures PartOffset(parts, sep, i) + |parts[i]| + |sep| <= |Join(parts, sep)|
    ensures Join(parts, sep)[PartOffset(parts, sep, i) + |parts[i]|..PartOffset(parts, sep, i) + |parts[i]| + |sep|] == sep
  {
    var o := PartOffset(parts, sep, i) + |parts[i]|;
    var head := Join(parts[..i + 1], sep);
    var j := Join(parts[..i + 2], sep);
    JoinPrefix(parts, sep, i + 2);
    JoinSnoc(parts, sep, i + 1);
    JoinLength(parts[..i + 1], sep);
    PartOffsetOfPrefix(parts, sep, i + 1, i);
    assert parts[..i + 1][i] == parts[i];
    TailPieces(head, sep, parts[i + 1]);
    SliceOfPrefix(j, Join(parts, sep), o, o + |sep|);
  }

  lemma {:induction false} SliceOfPrefix(a: string, b: string, x: nat, y: nat)
    requires a <= b && x <= y <= |a|
    ensures b[x..y] == a[x..y]
  {
  }

  /** The two pieces appended after `head`, read back by position. */
  lemma {:induction false} TailPieces(head: string, sep: string, block: string)
    ensures (head + (sep + block))[|head|..|head| + |sep|] == sep
    ensures (head + (sep + block))[|head| + |sep|..|head| + |sep| + |block|] == block
  {
  }

  /** The copied transcript holds the messages' blocks in order: block `i`
      (`Blocks(messages)[i]`, the block of message `i`) begins after the
      earlier blocks and one separator behind each. */
  lemma {:induction false} TranscriptBlockAt(messages: seq<Message>, i: nat)
    requires i < |messages|
    ensures var parts := Blocks(messages);
      var o := PartOffset(parts, BlockSeparator, i);
      o + |parts[i]| <= |Transcript(messages)| &&
      Transcript(messages)[o..o + |parts[i]|] == parts[i]
  {
    var parts, sep := Blocks(messages), BlockSeparator;
    JoinPartAt(parts, sep, i);
    assert Transcript(messages) == Join(parts, sep);
  }

  /** Every block but the last is followed by the separator. */
  lemma {:induction false} TranscriptSeparatorAfter(messages: seq<Message>, i: nat)
    requires i < |messages| - 1
    ensures var parts := Blocks(messages);
      var o := PartOffset(parts, BlockSeparator, i) + |parts[i]|;
      o + |BlockSeparator| <= |Transcript(messages)| &&
      Transcript(messages)[o..o + |BlockSeparator|] == BlockSeparator
  {
    var parts, sep := Blocks(messages), BlockSeparator;
    JoinSeparatorAt(parts, sep, i);
    assert Transcript(messages) == Join(parts, sep);
  }

  /** `TranscriptAppend` for the last message of `messages`. */
  lemma {:induction false} TranscriptLast(messages: seq<Message>)
    requires |messages| >= 2
    ensures Transcript(messages) ==
      Transcript(messages[..|messages| - 1]) + (BlockSeparator + Block(messages[|messages| - 1]))
  {
    var n := |messages| - 1;
    TranscriptAppend(messages[..n], messages[n]);
    SnocPrefix(messages);
  }

  lemma {:induction false} TranscriptOne(messages: seq<Message>)
    requires |messages| == 1
    ensures Transcript(messages) == Block(messages[0])
  {
    TranscriptAppend([], messages[0]);
    assert [messages[0]] == messages;
  }

  /** The request the panel is waiting for. */
  datatype Request = Answering | Summarizing | MessageAudio | DocumentAudio

  /** The outcome of the highlight after the player's events: a chunk
      starting sets it, unless the `onChunkStart` that reports it was created
      while single-message audio was on, and the end of playback clears it.
      A highlight the events set is the chunk of a start reported by a
      callback created outside single-message audio. */
  function HighlightAfter(highlight: Option<int>, events: seq<PlayerEvent>): (r: Option<int>)
    ensures r.Some? && r != highlight ==>
      exists k :: 0 <= k < |events| && events[k].ChunkStarted? && !events[k].singleMessage && events[k].index == r.value
    decreases |events|
  {
    if events == [] then highlight
    else
      var h := HighlightAfter(highlight, events[..|events| - 1]);
      match events[|events| - 1]
      case ChunkStarted(i, singleMessage) => if singleMessage then h else Some(i)
      case Finished => None
  }

  /** After any events the highlight is the chunk whose start was last
      reported by a callback created outside single-message audio, or none
      once playback has finished: a start reported by a callback created
      during single-message audio leaves the highlight as it was, and a run
      of such starts never sets one. */
  lemma {:induction false} HighlightAfterSpec(highlight: Option<int>, events: seq<PlayerEvent>)
    requires events != []
    ensures var last := events[|events| - 1];
      (last == Finished ==> HighlightAfter(highlight, events) == None) &&
      (last.ChunkStarted? && !last.singleMessage ==> HighlightAfter(highlight, events) == Some(last.index)) &&
      (last.ChunkStarted? && last.singleMessage ==>
        HighlightAfter(highlight, events) == HighlightAfter(highlight, events[..|events| - 1]))
    ensures (forall k :: 0 <= k < |events| ==> events[k].ChunkStarted? ==> events[k].singleMessage) ==>
      HighlightAfter(highlight, events) == highlight || HighlightAfter(highlight, events) == None
  {
    if forall k :: 0 <= k < |events| ==> events[k].ChunkStarted? ==> events[k].singleMessage {
      SingleAudioNeverHighlights(highlight, events);
    }
  }

  lemma {:induction false} SingleAudioNeverHighlights(highlight: Option<int>, events: seq<PlayerEvent>)
    requires forall k :: 0 <= k < |events| ==> events[k].ChunkStarted? ==> events[k].singleMessage
    ensures HighlightAfter(highlight, events) == highlight || HighlightAfter(highlight, events) == None
    decreases |events|
  {
    if events != [] {
      var n := |events| - 1;
      assert forall k :: 0 <= k < n ==> events[..n][k] == events[k];
      SingleAudioNeverHighlights(highlight, events[..n]);
    }
  }

  /** The panel's state. `highlight` is the value last handed to
      `onHighlightChunkChange`, the highlighted chunk of the viewer; `pending`
      names the request being waited for. */
  class ChatPanel {
    var messages: seq<Message>
    var input: string
    var isLoading: bool
    var isGeneratingAudio: bool
    var isConvertingToAudio: bool
    var audioChunks: seq<string>
    var isSingleMessageAudio: bool
    var highlight: Option<int>
    ghost var pending: Option<Request>

    /** Each loading flag is set exactly while its kind of request is
        outstanding, so at most one of them is set. */
    ghost predicate Valid()
      reads this
    {
      (isLoading <==> pending == Some(Answering) || pending == Some(Summarizing)) &&
      (isGeneratingAudio <==> pending == Some(MessageAudio)) &&
      (isConvertingToAudio <==> pending == Some(DocumentAudio)) &&
      messages != []
    }

    predicate Busy()
      reads this
    {
      AnyLoading(isLoading, isGeneratingAudio, isConvertingToAudio)
    }

    constructor ()
      ensures Valid() && messages == [Greeting] && input == "" && audioChunks == []
      ensures !isLoading && !isGeneratingAudio && !isConvertingToAudio && !isSingleMessageAudio
      ensures highlight == None && pending == None
    {
      messages := [Greeting];
      input := "";
      isLoading, isGeneratingAudio, isConvertingToAudio := false, false, false;
      audioChunks := [];
      isSingleMessageAudio := false;
      highlight := None;
      pending := None;
    }

    /** At most one request is outstanding, and the panel is busy exactly
        while one is. */
    lemma {:induction false} AtMostOneRequest()
      requires Valid()
      ensures Busy() <==> pending.Some?
      ensures !(isLoading && isGeneratingAudio) && !(isLoading && isConvertingToAudio) &&
        !(isGeneratingAudio && isConvertingToAudio)
    {
      if pending.Some? {
        match pending.value
        case Answering =>
        case Summarizing =>
        case MessageAudio =>
        case DocumentAudio =>
      }
    }

    /** `addMessage`: one message at the end; the earlier ones stay. */
    method AddMessage(role: Role, content: string, id: string)
      modifies this
      ensures messages == old(messages) + [Message(id, role, content)]
      ensures input == old(input) && isLoading == old(isLoading) && isGeneratingAudio == old(isGeneratingAudio) &&
        isConvertingToAudio == old(isConvertingToAudio) && audioChunks == old(audioChunks) &&
        isSingleMessageAudio == old(isSingleMessageAudio) && highlight == old(highlight) && pending == old(pending)
    {
      messages := messages + [Message(id, role, content)];
    }

    /** Typing in the box. */
    method SetInput(text: string)
      modifies this
      ensures input == text
      ensures messages == old(messages) && isLoading == old(isLoading) && isGeneratingAudio == old(isGeneratingAudio) &&
        isConvertingToAudio == old(isConvertingToAudio) && audioChunks == old(audioChunks) &&
        isSingleMessageAudio == old(isSingleMessageAudio) && highlight == old(highlight) && pending == old(pending)
    {
      input := text;
    }

    /** `handleSendMessage` up to its `await`: refused when the box is blank
        or a request is outstanding; otherwise the question is posted, the
        box emptied and the answer awaited. */
    method Send(id: string) returns (sent: bool)
      requires Valid()
      modifies this
      ensures Valid()
      ensures sent <==> Trim(old(input)) != [] && !old(Busy())
      ensures !sent ==> unchanged(this)
      ensures sent ==>
        messages == old(messages) + [Message(id, User, old(input))] && input == "" &&
        isLoading && pending == Some(Answering) && audioChunks == [] &&
        !isGeneratingAudio && !isConvertingToAudio &&
        isSingleMessageAudio == old(isSingleMessageAudio) && highlight == old(highlight)
    {
      if Trim(input) == [] || Busy() {
        return false;
      }
      audioChunks := [];
      var question := input;
      AddMessage(User, question, id);
      input := "";
      isLoading := true;
      pending := Some(Answering);
      return true;
    }

    /** The rest of `handleSendMessage`: the answer, or the apology when the
        call throws, is posted and loading ends. */
    method AnswerArrived(answer: Option<string>, id: string)
      requires Valid() && pending == Some(Answering)
      modifies this
      ensures Valid() && pending == None && !isLoading
      ensures messages == old(messages) + [Message(id, Assistant, GetOr(answer, AnswerFailed))]
      ensures input == old(input) && audioChunks == old(audioChunks) && isGeneratingAudio == old(isGeneratingAudio) &&
        isConvertingToAudio == old(isConvertingToAudio) && isSingleMessageAudio == old(isSingleMessageAudio) &&
        highlight == old(highlight)
    {
      AddMessage(Assistant, GetOr(answer, AnswerFailed), id);
      isLoading := false;
      pending := None;
    }

    /** `handleSummarize` up to its `await`. */
    method Summarize(id: string) returns (started: bool)
      requires Valid()
      modifies this
      ensures Valid()
      ensures started <==> !old(Busy())
      ensures !started ==> unchanged(this)
      ensures started ==>
        messages == old(messages) + [Message(id, User, SummaryRequest)] && input == old(input) &&
        isLoading && pending == Some(Summarizing) && audioChunks == [] &&
        !isGeneratingAudio && !isConvertingToAudio &&
        isSingleMessageAudio == old(isSingleMessageAudio) && highlight == old(highlight)
    {
      if Busy() {
        return false;
      }
      audioChunks := [];
      AddMessage(User, SummaryRequest, id);
      isLoading := true;
      pending := Some(Summarizing);
      return true;
    }

    /** The rest of `handleSummarize`. */
    method SummaryArrived(summary: Option<string>, id: string)
      requires Valid() && pending == Some(Summarizing)
      modifies this
      ensures Valid() && pending == None && !isLoading
      ensures messages == old(messages) + [Message(id, Assistant, GetOr(summary, SummaryFailed))]
      ensures input == old(input) && audioChunks == old(audioChunks) && isGeneratingAudio == old(isGeneratingAudio) &&
        isConvertingToAudio == old(isConvertingToAudio) && isSingleMessageAudio == old(isSingleMessageAudio) &&
        highlight == old(highlight)
    {
      AddMessage(Assistant, GetOr(summary, SummaryFailed), id);
      isLoading := false;
      pending := None;
    }

    /** `handleGenerateMessageAudio` up to its `await`: the audio will be a
        single message's, and the highlight is cleared. */
    method GenerateMessageAudio() returns (started: bool)
      requires Valid()
      modifies this
      ensures Valid()
      ensures started <==> !old(Busy())
      ensures !started ==> unchanged(this)
      ensures started ==>
        messages == old(messages) && input == old(input) &&
        isGeneratingAudio && pending == Some(MessageAudio) && isSingleMessageAudio &&
        highlight == None && audioChunks == [] && !isLoading && !isConvertingToAudio
    {
      if Busy() {
        return false;
      }
      isGeneratingAudio := true;
      pending := Some(MessageAudio);
      isSingleMessageAudio := true;
      highlight := None;
      audioChunks := [];
      return true;
    }

    /** The rest of `handleGenerateMessageAudio`: `Some(Some(data))` is the
        call returning `data`, `Some(None)` returning nothing, `None`
        throwing. Audio that is there (not empty) becomes the one chunk to
        play; otherwise an apology is posted and the audio is no longer a
        single message's. */
    method MessageAudioArrived(audio: Option<Option<string>>, id: string)
      requires Valid() && pending == Some(MessageAudio)
      modifies this
      ensures Valid() && pending == None && !isGeneratingAudio
      ensures audio.Some? && audio.value.Some? && audio.value.value != "" ==>
        audioChunks == [audio.value.value] && messages == old(messages) &&
        isSingleMessageAudio == old(isSingleMessageAudio)
      ensures audio.Some? && (audio.value.None? || audio.value.value == "") ==>
        audioChunks == old(audioChunks) && messages == old(messages) + [Message(id, Assistant, NoMessageAudio)] &&
        !isSingleMessageAudio
      ensures audio.None? ==>
        audioChunks == old(audioChunks) && messages == old(messages) + [Message(id, Assistant, MessageAudioFailed)] &&
        !isSingleMessageAudio
      ensures input == old(input) && isLoading == old(isLoading) && isConvertingToAudio == old(isConvertingToAudio) &&
        highlight == old(highlight)
    {
      match audio {
        case Some(data) =>
          if data.Some? && data.value != "" {
            audioChunks := [data.value];
          } else {
            AddMessage(Assistant, NoMessageAudio, id);
            isSingleMessageAudio := false;
          }
        case None =>
          AddMessage(Assistant, MessageAudioFailed, id);
          isSingleMessageAudio := false;
      }
      isGeneratingAudio := false;
      pending := None;
    }

    /** `handleConvertToAudio` up to its `await`: the audio will be the
        document's, and a notice is posted. */
    method ConvertToAudio(id: string) returns (started: bool)
      requires Valid()
      modifies this
      ensures Valid()
      ensures started <==> !old(Busy())
      ensures !started ==> unchanged(this)
      ensures started ==>
        messages == old(messages) + [Message(id, Assistant, ConvertingNotice)] && input == old(input) &&
        isConvertingToAudio && pending == Some(DocumentAudio) && !isSingleMessageAudio &&
        audioChunks == [] && !isLoading && !isGeneratingAudio && highlight == old(highlight)
    {
      if Busy() {
        return false;
      }
      isSingleMessageAudio := false;
      isConvertingToAudio := true;
      pending := Some(DocumentAudio);
      audioChunks := [];
      AddMessage(Assistant, ConvertingNotice, id);
      return true;
    }

    /** The rest of `handleConvertToAudio`: `Some(chunks)` is the list the
        synthesis returns, `None` the call throwing. A non-empty list becomes
        the chunks to play. */
    method DocumentAudioArrived(result: Option<seq<string>>, id: string)
      requires Valid() && pending == Some(DocumentAudio)
      modifies this
      ensures Valid() && pending == None && !isConvertingToAudio
      ensures result.Some? && result.value != [] ==>
        audioChunks == result.value && messages == old(messages) + [Message(id, Assistant, AudioReady)]
      ensures result.Some? && result.value == [] ==>
        audioChunks == old(audioChunks) && messages == old(messages) + [Message(id, Assistant, NoDocumentAudio)]
      ensures result.None? ==>
        audioChunks == old(audioChunks) && messages == old(messages) + [Message(id, Assistant, DocumentAudioFailed)]
      ensures input == old(input) && isLoading == old(isLoading) && isGeneratingAudio == old(isGeneratingAudio) &&
        isSingleMessageAudio == old(isSingleMessageAudio) && highlight == old(highlight)
    {
      match result {
        case Some(chunks) =>
          if chunks != [] {
            audioChunks := chunks;
            AddMessage(Assistant, AudioReady, id);
          } else {
            AddMessage(Assistant, NoDocumentAudio, id);
          }
        case None =>
          AddMessage(Assistant, DocumentAudioFailed, id);
      }
      isConvertingToAudio := false;
      pending := None;
    }

    /** The `onChunkStart` and `onFinished` callbacks given to the player.
        A start is judged by the flag its callback captured, not by the
        panel's flag now: a document chunk that starts after "Generate
        Audio" was pressed is still highlighted. */
    method OnPlayerEvent(e: PlayerEvent)
      modifies this
      ensures highlight == HighlightAfter(old(highlight), [e])
      ensures messages == old(messages) && input == old(input) && isLoading == old(isLoading) &&
        isGeneratingAudio == old(isGeneratingAudio) && isConvertingToAudio == old(isConvertingToAudio) &&
        audioChunks == old(audioChunks) && isSingleMessageAudio == old(isSingleMessageAudio) && pending == old(pending)
    {
      match e
      case ChunkStarted(index, singleMessage) =>
        if !singleMessage {
          highlight := Some(index);
        }
      case Finished =>
        highlight := None;
    }
  }
}
