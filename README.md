# Mr.PDF in Dafny

Mr.PDF is a browser assistant for reading PDF documents. The user signs in, opens a document, and can ask questions about it, ask for a summary, or have it read aloud. While the document is read aloud, the passage being spoken is highlighted on the page, as long as every chunk's speech was synthesised: once a chunk fails, the highlight falls behind the speech (see below).

This project models the logic behind those features and proves properties of it:

- **Text assembly** (`PdfText`). The page-by-page loop builds the document's full text and records each non-blank text item with its page and its character range.
- **Chunking** (`TextChunking`). The text is split into sentences with the regular expression `[^.!?]+[.!?]*`. The sentences are packed greedily into chunks: a chunk is closed only when the next sentence would take it past 500 characters, so a chunk of two or more sentences stays within 500, while a single sentence longer than that forms a chunk of its own. Each chunk records its range in the text.
- **Speech synthesis** (`AudioSynthesis`). A text longer than 5000 characters is sent as its first 5000 characters followed by "...", so a request is at most 5003 characters long. A pool keeps at most five requests in flight and writes each answer into the slot of its chunk. The slots left empty are dropped at the end.
- **Playback** (`AudioPlayback`). The player plays the decoded chunks one after another, with pause, play and a rate change. The handler that advances to the next chunk reads the state that was current when its `playChunk` was created.
- **Highlighting** (`PdfHighlight`). It decides which text items overlap the chunk being read, gives each page its share of them, and decides which of a page's items are painted.
- **Sign-in form** (`Login`). It models the decision a submit makes against the list of registered users, and how the form's message follows submits and the switch between the two views.
- **Chat panel** (`Chat`). It covers:
  - the messages;
  - the three loading flags that keep at most one request outstanding;
  - the handlers, each split at its `await`;
  - how the player's events reach the document highlight;
  - the message the audio button follows;
  - the transcript the share button copies.

Remote calls are parameters of the model. Question answering, summarising, speech synthesis and decoding are given as their results, or as a function from the request to an optional answer (`None` when the call throws). The same holds for the sources of time (`Date.now` ids, the audio clock).

Some behaviour of the code is documented rather than corrected:

- Pressing play from the stopped state starts chunk 0. The handler attached to that chunk was created while the player was not yet playing, so playback stops after the first chunk (`PlayFromStopHaltsAfterFirstChunk`).
- `pause` records the position and then `cleanup` erases it at once, so play after pause starts over at chunk 0 (`PauseThenPlayStartsOver`).
- A document chunk can still be highlighted while a single message's audio is being generated. The `onChunkStart` that a playing chunk's handler calls was created with the panel's earlier `isSingleMessageAudio`, so a document chunk that starts after "Generate Audio" was pressed is highlighted (`Chat.ChatPanel.OnPlayerEvent`).
- After a chunk's speech fails, the highlight names the wrong chunk. The failed slot stays empty and the final filter drops it (services/geminiService.ts:143). The player numbers what is left, so its index j is the j-th successful chunk. The viewer highlights `textChunks[j]`, the j-th chunk of the whole document (components/PdfViewer.tsx:182). From the first failure on, the audio comes from a later chunk than the one highlighted (`AudioSynthesis.PayloadChunkLags`). For example, if only chunk 0 fails, index 0 plays chunk 1's speech while chunk 0's text is highlighted (`AudioSynthesis.FailedFirstChunkShiftsPayloads`).
- A rate change reaches only the chunk that is playing. The source's `onended` handler belongs to the `playChunk` of an earlier render, which captured the old `playbackRate` (hooks/useAudioPlayer.ts:55, 69-74). So the next chunk started by auto-advance plays at the old rate, while the player's rate already shows the new one (`AudioPlayback.RateChangeLostOnAdvance`).
- A text that starts with `.`, `!` or `?` shifts every chunk range by the number of those leading characters, because the regular expression never matches them (`PackingOffsetsIndexText`).

## Model

| member | source | states |
|---|---|---|
| Common.TrimSpec | services/geminiService.ts:75 | `trim` yields empty exactly when every character is whitespace; otherwise the result starts and ends with a non-whitespace character; the result is a slice of the input, and everything cut off before and after it is whitespace |
| Common.TrimIdempotent | services/geminiService.ts:75 | trimming a trimmed text changes nothing |
| Common.KeptPositionsSpec | services/geminiService.ts:143 | the array filter keeps elements at strictly increasing positions, each kept element is the one at its position, and every element that passes the test is kept |
| Common.FilterMembership | components/PdfViewer.tsx:185-187 | an element survives the array filter exactly when it is in the array and passes the test |
| TextChunking.Matches | services/geminiService.ts:66 | every match of the sentence regex starts with a non-terminator and has only terminators after its first terminator; every match but the last ends with a terminator |
| TextChunking.MatchesCoverText | services/geminiService.ts:66 | for a text that does not start with a terminator, the matches joined give back the whole text |
| TextChunking.MatchesCoverAfterLeadingTerminators | services/geminiService.ts:66 | in general the matches joined give back the text without its leading terminators |
| TextChunking.MatchesEmpty | services/geminiService.ts:66 | the regex finds nothing (`|| []`) exactly when the text consists of terminators only |
| TextChunking.ChunkText | services/geminiService.ts:65-94 | the loop's chunks are the layout of a greedy packing of the sentences: the groups joined are the sentences, no group is empty, a group of two or more sentences fits the budget, and a group is closed only when the next sentence would overflow it |
| TextChunking.Layout | services/geminiService.ts:72-91 | the chunks are built one per group of sentences |
| TextChunking.LayoutProperties | services/geminiService.ts:69-91 | one chunk per group, the first starting at 0, each starting where the previous one ends, the last ending at the total length; each chunk's text is its group's text trimmed, and its range selects exactly that group's text |
| TextChunking.PackingRepresentsGroups | services/geminiService.ts:72-84 | the loop's state (closed chunks, current chunk, start index, character index) follows the grouping of the sentences so far |
| TextChunking.GroupsCoverSentences | services/geminiService.ts:72-84 | the closed groups followed by the open one are the sentences read so far, and the open group is empty only before the first sentence |
| TextChunking.GroupsFollowGreedyRule | services/geminiService.ts:73-82 | after every sentence, both the closed groups and the open group obey the greedy rule |
| TextChunking.ClosedMeansGreedy | services/geminiService.ts:73-83 | for closed groups: none is empty, a group of two or more sentences is at most `chunkSize` long, and a group joined with the next group's first sentence is longer than `chunkSize` |
| TextChunking.FinalGroupsAreGreedy | services/geminiService.ts:72-91 | the groups after the final flush are a greedy packing of all sentences |
| TextChunking.FinalChunksAreLayout | services/geminiService.ts:85-91 | the chunks after the final flush are the layout of the final groups |
| TextChunking.PackingChunkCount | services/geminiService.ts:72-93 | there are as many chunks as groups and no more than sentences, and no chunks exactly when there are no sentences |
| TextChunking.PackingOffsetsIndexText | services/geminiService.ts:66-83 | a chunk's range, shifted by the number of leading terminators, selects its sentences from the original text; without leading terminators the shift is 0 |
| AudioSynthesis.ClampForSpeech | services/geminiService.ts:41-43 | a text of at most 5000 characters is sent unchanged; a longer one as its first 5000 characters followed by "..." |
| AudioSynthesis.ClampBounds | services/geminiService.ts:41-43 | a request is never longer than 5003 characters and begins with the text's first (up to) 5000 characters |
| AudioSynthesis.ClampIdempotent | services/geminiService.ts:41-43 | clamping a clamped text changes nothing |
| AudioSynthesis.SlotValue | services/geminiService.ts:125-128 | a slot is filled exactly when the payload is present and non-empty, and then holds that payload |
| AudioSynthesis.SuccessfulChunks | services/geminiService.ts:143 | the filtered result holds the payloads of the filled slots, one per filled slot, in slot order |
| AudioSynthesis.SuccessfulChunksInSlotOrder | services/geminiService.ts:143 | the j-th payload comes from a filled slot; those slots strictly increase; every filled slot contributes |
| AudioSynthesis.PayloadChunkLags | services/geminiService.ts:143 | the j-th payload comes from chunk j or a later one, and from chunk j itself exactly when no chunk up to j failed |
| AudioSynthesis.FailedFirstChunkShiftsPayloads | services/geminiService.ts:127-143 | when chunk 0's request fails and chunk 1's succeeds, payload 0 is chunk 1's speech |
| AudioSynthesis.AllFilled | services/geminiService.ts:143 | when every request succeeds, the result is every answer in chunk order |
| AudioSynthesis.Answers | services/geminiService.ts:106-128 | the settled slot of chunk k is the slot value of the service's answer to chunk k's clamped text |
| AudioSynthesis.SlotsSettle | services/geminiService.ts:125-128 | a request that settles writes its own slot, which was empty, and leaves every other slot as it was |
| AudioSynthesis.SynthesisPool.constructor | services/geminiService.ts:104-109 | every slot starts empty and nothing has been sent |
| AudioSynthesis.SynthesisPool.ProcessNext | services/geminiService.ts:110-124 | with chunks left, the request for the chunk at the cursor is sent and the cursor and counter advance; with none left, the promise settles once nothing is in flight; at most five requests are ever in flight |
| AudioSynthesis.SynthesisPool.Start | services/geminiService.ts:138-140 | the opening loop sends the first min(5, n) chunks in order |
| AudioSynthesis.SynthesisPool.Complete | services/geminiService.ts:125-135 | a settled request writes its own slot only, frees its place and sends the next chunk if any |
| AudioSynthesis.SynthesisPool.Collect | services/geminiService.ts:141-143 | with nothing in flight, the promise has settled exactly when there were chunks, every slot holds its request's answer, and the filtered slots are returned |
| AudioSynthesis.SlotsAreAnswers | services/geminiService.ts:106-127 | slots written by settled requests of the service on each chunk's clamped text are exactly `Answers` |
| AudioSynthesis.SynthesizeAll | services/geminiService.ts:104-145 | whatever the order in which requests settle, the result is the service's non-empty answers in chunk order; with no chunks the promise never settles |
| AudioSynthesis.GenerateFullAudioFromPdfText | services/geminiService.ts:97-146 | the full pipeline settles exactly when the text has a sentence, and yields the successful payloads of the default-budget chunks in chunk order |
| AudioSynthesis.ChunkTexts | services/geminiService.ts:99 | the texts sent are one per chunk: never more than the sentences, and none exactly when the text has no sentence |
| AudioPlayback.DecodeAll | hooks/useAudioPlayer.ts:95-98 | `Promise.all` of the decodes succeeds exactly when every payload decodes, and then yields every buffer in order |
| AudioPlayback.Player.constructor | hooks/useAudioPlayer.ts:10-22 | the hook starts stopped, unloaded, at rate 1, with no chunk and an empty remembered playlist |
| AudioPlayback.Player.Cleanup | hooks/useAudioPlayer.ts:24-32 | the live source is dropped, playing stops and the pause time is reset; nothing else changes |
| AudioPlayback.Player.PlayChunk | hooks/useAudioPlayer.ts:42-74 | past the last buffer the session ends (nothing playing, unloaded, no chunk, `onFinished`); otherwise exactly one source plays the chunk's buffer at the captured rate with a handler from the captured state, the start time is the clock's, and `onChunkStart` fires with the flag its render captured |
| AudioPlayback.Player.Pause | hooks/useAudioPlayer.ts:76-81 | with a live source the player stops and keeps its chunk and buffers, the recorded position being erased by the cleanup; without one nothing changes |
| AudioPlayback.Player.Play | hooks/useAudioPlayer.ts:83-106 | while playing, the current chunk restarts at the clock's time with an advancing handler, the argument is ignored and the loaded flag stays; otherwise a new playlist is remembered and decoded (a failed decode keeps the old buffers and starts nothing), and playback starts at chunk 0 or ends at once when there is none |
| AudioPlayback.Player.ChangeRate | hooks/useAudioPlayer.ts:108-113 | the stored rate and the live source's rate become the new rate; nothing else changes |
| AudioPlayback.Player.OnEnded | hooks/useAudioPlayer.ts:69-73 | a source whose handler captured "playing" advances to the next chunk (started at the clock's time, loaded flag kept) or ends the session; one that captured "not playing" stays ended while the player still says it plays, with the loaded flag and start time kept |
| AudioPlayback.PlayFromStopHaltsAfterFirstChunk | hooks/useAudioPlayer.ts:69-104 | starting from the stopped state, playback of several chunks stops after chunk 0 with the player still saying it plays |
| AudioPlayback.RateChangeLostOnAdvance | hooks/useAudioPlayer.ts:55-74 | after a restart, a change to rate 2.0 and the chunk's end, chunk 1 plays at rate 1.0 while the player's rate is 2.0 |
| AudioPlayback.PauseThenPlayStartsOver | hooks/useAudioPlayer.ts:76-104 | after restarting, advancing and pausing, play starts again at chunk 0 |
| AudioPlayback.LastChunkEndsSession | hooks/useAudioPlayer.ts:43-72 | when the last chunk ends under an advancing handler, `onFinished` fires and the player is stopped, unloaded and at no chunk |
| PdfText.AssembleText | hooks/usePdfProcessor.ts:21-51 | the page loop yields the full text, the list of all items and the per-page lists that the specification functions define |
| PdfText.AddPageItems | hooks/usePdfProcessor.ts:30-45 | one page's loop appends the page's kept text and records its items in both lists, with `charCount` tracking the text's length |
| PdfText.PageItemsAreKept | hooks/usePdfProcessor.ts:33-39 | a page's items are its kept entries in order (non-blank text runs), with their own text and page |
| PdfText.PageItemsBounds | hooks/usePdfProcessor.ts:34-43 | each item's range is as long as its text and lies within its page's text; the last item ends where the page's text ends; a page without items adds no text |
| PdfText.PageItemsContiguous | hooks/usePdfProcessor.ts:37-43 | a page's first item starts where the page starts, and each next item starts where the previous one ends |
| PdfText.PageItemsInPageText | hooks/usePdfProcessor.ts:37-43 | each item's range selects its text from the page's text |
| PdfText.PageItemsDisjoint | hooks/usePdfProcessor.ts:37-43 | a page's items do not overlap: an earlier item ends before a later one starts |
| PdfText.AllItemsShape | hooks/usePdfProcessor.ts:23-41 | every item has a page between 1 and the page count, non-blank text, and a range as long as its text |
| PdfText.AllItemsInFullText | hooks/usePdfProcessor.ts:23-50 | every item's range selects its exact text from the full text |
| PdfText.AllItemsOrdered | hooks/usePdfProcessor.ts:23-50 | the list of all items is ordered: an earlier item ends no later than a later one starts and is on the same or an earlier page |
| PdfText.AllItemsContiguousOnPage | hooks/usePdfProcessor.ts:37-43 | neighbouring items of the same page touch |
| PdfText.FullTextPrefix | hooks/usePdfProcessor.ts:42-50 | the full text starts with the text of the first k pages joined by "\n\n" and a separator, followed by page k+1's text |
| PdfText.ByPageKeys | hooks/usePdfProcessor.ts:23-30 | `textItemsByPage` has an entry exactly for the pages 1 to the page count |
| PdfText.ByPageIsFilter | hooks/usePdfProcessor.ts:30-41 | a page's list is exactly the items of the full list that are on that page |
| PdfText.PdfProcessor.ProcessPdf | hooks/usePdfProcessor.ts:9-67 | an unreadable document gives `null` and the error message; a readable one gives the assembled text, items and pages with no error; processing ends either way |
| PdfHighlight.OverlapsIffSharedPosition | components/PdfViewer.tsx:186 | for non-empty ranges, the overlap test holds exactly when the item and the chunk share a position of the text |
| PdfHighlight.ChunkAt | components/PdfViewer.tsx:181-183 | a chunk is named exactly when the index is not null and within the list, and then it is the chunk at that index |
| PdfHighlight.HighlightedItems | components/PdfViewer.tsx:180-188 | no more items are highlighted than there are, and each highlighted item overlaps the named chunk |
| PdfHighlight.HighlightedItemsMembership | components/PdfViewer.tsx:180-188 | nothing is highlighted without a named chunk; with one, an item is highlighted exactly when it is one of the document's items and overlaps the chunk |
| PdfHighlight.HighlightedItemsInOrder | components/PdfViewer.tsx:185-187 | the highlighted items keep the items' order |
| PdfHighlight.PageHighlights | components/PdfViewer.tsx:214 | a page is handed at most the highlighted items, all of them on that page |
| PdfHighlight.PageHighlightsMembership | components/PdfViewer.tsx:214 | a page is handed an item exactly when the item is highlighted and on that page |
| PdfHighlight.PageHighlightsPartition | components/PdfViewer.tsx:208-214 | when every highlighted item is on one of the pages, the pages together are handed each highlighted item once |
| PdfHighlight.DocumentHighlightsPartition | components/PdfViewer.tsx:180-214 | for an assembled document, the pages 1 to the page count together are handed every highlighted item once |
| PdfHighlight.IsHighlighted | components/PdfViewer.tsx:103 | an item handed to the page is painted highlighted, and with nothing handed to the page nothing is |
| PdfHighlight.ShownHighlighted | components/PdfViewer.tsx:92-103 | an item drawn on a page is painted highlighted exactly when a chunk is named and the item's range overlaps it |
| Login.FindUser | components/LoginPage.tsx:27 | there is no result exactly when no user has the email; otherwise the result is the first user with that email |
| Login.Decide | components/LoginPage.tsx:14-46 | a refusal shows one of the four messages; a sign-in names the typed email and happens only in the sign-in view; a sign-up hands over both fields and happens only in the sign-up view |
| Login.DecideSpec | components/LoginPage.tsx:14-46 | a submit is refused as unfilled exactly when a field is empty, whatever the view; sign-in succeeds exactly when the first user with the email has the given password, says "invalid password" exactly when that user has another one, and says "no account" exactly when no user has the email; sign-up succeeds exactly when no user has the email and hands over both fields, and is refused with "already exists" otherwise |
| Login.AfterSubmit | components/LoginPage.tsx:16-41 | after a submit the form shows a message exactly when the submit was refused, and that message is the refusal's; the fields and the view stay |
| Login.Toggle | components/LoginPage.tsx:101-104 | the link switches to the other view and clears the message, keeping the fields |
| Login.Register | App.tsx:82-87 | signing up appends the new account to the stored users and keeps the others |
| Login.SignUpKeepsEmailsUnique | components/LoginPage.tsx:39-44 | a sign-up that passes the check keeps the registered emails unique |
| Login.LogInIffRegistered | components/LoginPage.tsx:27-33 | with unique emails, sign-in succeeds exactly when some user has both the email and the password |
| Login.SignUpThenSignIn | App.tsx:82-87 | after signing up, signing in with the same fields succeeds, whatever the stored users were |
| Chat.LastAssistantId | components/ChatInterface.tsx:85 | the audio button's id is the id of the last assistant message, and there is none exactly when there is no assistant message or the last one has an empty id |
| Chat.LastAssistantIdSteps | components/ChatInterface.tsx:56-58 | the button starts on the greeting; a new assistant message takes it over and a user message leaves it in place |
| Chat.Blocks | components/ChatInterface.tsx:177 | one block per message, each its label, a colon, a line break and its text |
| Chat.JoinLength | components/ChatInterface.tsx:177 | the joined text ends where its last part ends, after all earlier parts and one separator behind each |
| Chat.JoinPrefix | components/ChatInterface.tsx:177 | joining the first k parts gives a prefix of joining them all |
| Chat.JoinPartAt | components/ChatInterface.tsx:177 | `join` read back by position: part i sits after the earlier parts and one separator behind each |
| Chat.JoinSeparatorAt | components/ChatInterface.tsx:177 | in `join`, every part but the last is followed by the separator |
| Chat.TranscriptBlockAt | components/ChatInterface.tsx:177 | message i's block sits in the copied text after the earlier blocks and one separator behind each |
| Chat.TranscriptSeparatorAfter | components/ChatInterface.tsx:177 | every block but the last is followed by the separator in the copied text |
| Chat.TranscriptLength | components/ChatInterface.tsx:177 | the transcript is as long as all blocks plus one separator between every two of them |
| Chat.TranscriptStartsWithFirst | components/ChatInterface.tsx:177 | the transcript starts with the first message's block |
| Chat.HighlightAfter | components/ChatInterface.tsx:77-82 | a highlight set by the player's events is the chunk of a start reported by a callback created outside single-message audio |
| Chat.HighlightAfterSpec | components/ChatInterface.tsx:77-82 | the end of playback clears the highlight; a start reported by a callback created outside single-message audio highlights that chunk, one created during it leaves the highlight as it was; starts of the latter kind alone never set one |
| Chat.ChatPanel.constructor | components/ChatInterface.tsx:56-64 | the panel opens with the greeting alone, an empty box, no flags set and nothing to play |
| Chat.ChatPanel.AtMostOneRequest | components/ChatInterface.tsx:86 | the panel is busy exactly while a request is outstanding, and no two loading flags are ever set together |
| Chat.ChatPanel.SetInput | components/ChatInterface.tsx:268 | typing replaces the box's text and changes nothing else |
| Chat.ChatPanel.AddMessage | components/ChatInterface.tsx:92-94 | one message is appended and the earlier ones stay |
| Chat.ChatPanel.Send | components/ChatInterface.tsx:96-105 | a question is sent exactly when the trimmed box is non-empty and nothing is outstanding; it is then posted, the box is emptied and the answer awaited; otherwise nothing changes |
| Chat.ChatPanel.AnswerArrived | components/ChatInterface.tsx:106-113 | the answer, or the apology when the call throws, is posted and loading ends |
| Chat.ChatPanel.Summarize | components/ChatInterface.tsx:116-121 | a summary is requested exactly when nothing is outstanding; the request is posted as a user message |
| Chat.ChatPanel.SummaryArrived | components/ChatInterface.tsx:121-128 | the summary, or the apology when the call throws, is posted and loading ends |
| Chat.ChatPanel.GenerateMessageAudio | components/ChatInterface.tsx:131-137 | message audio starts exactly when nothing is outstanding; the audio is marked as a single message's and the highlight is cleared |
| Chat.ChatPanel.MessageAudioArrived | components/ChatInterface.tsx:137-151 | present audio becomes the one chunk to play; missing audio or a throw posts its own apology and drops the single-message mark |
| Chat.ChatPanel.ConvertToAudio | components/ChatInterface.tsx:154-159 | document audio starts exactly when nothing is outstanding, and a notice is posted |
| Chat.ChatPanel.DocumentAudioArrived | components/ChatInterface.tsx:160-173 | a non-empty list becomes the chunks to play and "ready" is posted; an empty list and a throw each post their own apology |
| Chat.ChatPanel.OnPlayerEvent | components/ChatInterface.tsx:77-82 | a chunk start highlights that chunk unless the callback reporting it was created during single-message audio, whatever the panel's flag is now; the end of playback clears the highlight |

## Left out

- Character counts: JavaScript's `length` counts UTF-16 code units, while the model counts Dafny characters. Ranges agree only for text without characters outside the Basic Multilingual Plane.
- The Gemini requests for answers, summaries and speech are not modelled. They are parameters: their results, or a total function from the request text to an optional payload. Prompts, models and voices are not part of this model.
- `generateAudioFromText`'s error logging: a throw is the same as no payload.
- Time and concurrency: `await`, promise scheduling and the 100 ms polling are not modelled. The pool settles requests one at a time in any order the caller picks; `SynthesizeAll` quantifies over all such orders, with the chosen request left open.
- AudioSynthesis.SynthesisPool.ProcessNext: the polling loop at its head is never entered, because every caller first frees a place; the model does not carry it.
- AudioSynthesis.SynthesizeAll: with no chunks the source's promise never settles, so the call hangs; the model returns `None` for that case. That `None` is not the throw that `DocumentAudioArrived` takes as `None`: it is a hang. For the chat panel this means that a document without a sentence never brings `DocumentAudioArrived`: `isConvertingToAudio` stays set and every chat button stays disabled for good. The model allows that state but proves nothing about it.
- React rendering: each `useCallback` closure is assumed to be re-created between user events. A `playChunk` closure is modelled as the snapshot of `isPlaying`, `playbackRate` and the chat panel's `isSingleMessageAudio` (read by the inline `onChunkStart` it calls) stored with the source it starts.
- Player: the `AudioContext` is assumed to exist. Its creation and closing on mount and unmount, `createBufferSource`, `connect` and the sample rate are not modelled.
- AudioPlayback.Player.PlayChunk: the missing-context branch of the end test is therefore absent.
- Base64 and PCM decoding (`decode`, `decodeAudioData`) are a partial function given as a parameter.
- pdf.js: loading, page viewports, `scaleTextItem`, canvas rendering, zoom and fit-to-width are not modelled. A document is given as its pages' text-content entries; when reading it throws, it is `None`.
- PdfTextItem keeps the item's text rather than the whole pdf.js `rawItem`.
- `file` and `pageViewports` in ProcessedPdf are not modelled.
- Message ids come from `Date.now()`; they are parameters.
- The chat's scroll-into-view effect, the clipboard write with its "copied" timer, and the player controls' markup are not modelled.
- The browser's `required` and `type="email"` form validation is not modelled; only the handler's own empty-field check is.
- `localStorage` and JSON (de)serialisation: the users are a sequence. The automatic sign-in after sign-up (App.tsx:86) and the current user's storage are not part of this model.
- utils/db.ts (history), App.tsx's layout, FileUpload, HistoryModal, AudioPlayer and ResizablePanel are not part of this model.
