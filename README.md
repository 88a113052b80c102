# micro:bit serial link and text pipelines of orange3-widget, in Dafny

This project models the logic of the Orange3 add-on that talks to a BBC
micro:bit over a serial port and to a hosted chat-completion service:

- **SerialLink** (`serial_link.dfy`): the process-wide state of the
  serial module: the connection handle `_connection`, the flag
  `_is_listening` and the callback `_text_input_callback`. It also covers
  the lifecycle operations `connect`, `disconnect`, `is_connected`,
  `start_text_listening` and `stop_text_listening`. The current module and
  the older copy kept under `build/lib` have `connect`, `disconnect`,
  `is_connected` and `stop_text_listening` word for word, and
  `start_text_listening` up to its nested `listen_thread`
  (`build/lib/orangecontrib/orange3example/utils/microbit.py:16-38, 81-91,
  111-115`), so these parts are modelled once. The two listener threads
  differ and are modelled separately. A port is a class with an open flag,
  an input buffer of received, unread characters and an output log.
- **Microbit** (`microbit.dfy`): the current send paths. They reset the
  input buffer and frame with CR LF. The listener reassembles chunks until
  20 empty polls or more than 2000 ms since the last data, then normalises
  the frame and calls the callback at most once.
- **MicrobitLegacy** (`microbit_legacy.dfy`): the older send paths. They
  frame with LF only, and `send_text` does not reset the input buffer. Its
  listener delivers one stripped line per poll.
- **SmileFrown** (`smile_frown.dfy`): the firmware at the other end. It
  trims each received line, shows an icon and writes a one-line reply.
- **EndToEnd** (`end_to_end.dfy`): the host and the firmware together.
  The peer acts on exactly the text the host sent, and the host reads
  back the peer's acknowledgement.
- **Text** (`text.dfy`): Python's `str.strip()`, `str.split()`,
  `str.join`, one-character `str.replace`, the firmware's `trim()`, and the
  listener's normalisation chain.
- **Llm** (`llm.dfy`): request assembly in `LLM.get_response` and
  `LLM.get_multimodal_response`. The chat-completion call is a function
  parameter that returns a reply or the text of the exception raised.
- **OrangeTable**, **MicrobitWidget**, **ImageLlmWidget**
  (`orange_table.dfy`, `owmicrobit.dfy`, `owimagellm.dfy`): the table seen
  as variables, metas and rows of cell texts. Text extraction and send
  guards of the micro:bit widget. Input flags, the item list and the run of
  the image-and-text widget.

Time is counted in millisecond ticks read from a clock function, and the
bytes the peer sends are parameters: a reply string for the synchronous
reads, and a finite schedule of chunks, one per poll, for the listener. The
schedule is finite, so the peer always goes silent eventually, and the
listener's inner loop is proved to end within
`max(|chunks|, 1) + 20` polls.

Where the code and its own comments disagree, the model follows the code:

- The comment on `max_wait_time`
  (`orangecontrib/orange3example/utils/microbit.py:105`) calls 2.0 s the
  longest wait, but it does not cap how long a frame accumulates.
  `start_time` is reset whenever data arrives (line 119), so the limit
  measures silence since the last chunk. `SteadyPeerKeepsFrameOpen` proves
  that, when polls are at most 2000 ms apart, a peer sending a chunk at
  every poll keeps a frame open for as long as it keeps sending.
  `PromptPollsNeverCap` proves that with polls at most 100 ms apart the
  20-empty-poll rule always ends the frame first.
- `send_and_receive` has two sentinels: `"[응답 없음]"` for a line that
  strips to nothing and `"[타임아웃: 응답 없음]"` when nothing is waiting.
  There is no single "no response" value.
- `disconnect` drops the handle only when it is open. After a failed
  `connect`, the old handle stays in `_connection`, closed, because the
  assignment on line 22 never happens.

## Model

| member | source | states |
|---|---|---|
| Text.FirstLine | orangecontrib/orange3example/utils/microbit.py:56 | `readline()` takes a prefix of the input that ends at the first line feed and holds no other; with no line feed it takes everything |
| SerialLink.Link.constructor | orangecontrib/orange3example/utils/microbit.py:7-9 | at import there is no connection, the flag is down and no callback is registered |
| SerialLink.Link.IsConnected | orangecontrib/orange3example/utils/microbit.py:36-39 | true exactly when a handle exists and is open; `ConnectionLifecycle` ties it to the other operations |
| SerialLink.ConnectionLifecycle | orangecontrib/orange3example/utils/microbit.py:7-39 | `is_connected()` is false at import, true after `connect` exactly when the device opened, and false after `disconnect`; `start_text_listening` succeeds exactly when it is true |
| SerialLink.Link.Connect | orangecontrib/orange3example/utils/microbit.py:17-24 | any existing handle is closed first; a successful open installs a fresh open port on the device and returns its name; a failed open returns the error, keeps the old handle (now closed) and leaves the link disconnected; flag and callback unchanged |
| SerialLink.Link.Disconnect | orangecontrib/orange3example/utils/microbit.py:27-33 | always lowers the listening flag and leaves the link disconnected; an open handle is closed and dropped, a missing or closed one is kept as it is |
| SerialLink.DisconnectTwice | build/lib/orangecontrib/orange3example/utils/microbit.py:26-32 | two disconnects in a row leave the link disconnected and the flag down, with the callback unchanged |
| SerialLink.Link.StartListening | orangecontrib/orange3example/utils/microbit.py:85-94 | returns true exactly when the link is connected; then the callback is registered and the flag raised, otherwise both stay as they were |
| SerialLink.Link.StopListening | build/lib/orangecontrib/orange3example/utils/microbit.py:111-115 | only lowers the flag; connection and callback unchanged |
| Microbit.Framed | orangecontrib/orange3example/utils/microbit.py:74 | the wire text is the stripped text followed by exactly CR LF |
| Microbit.Exchange | orangecontrib/orange3example/utils/microbit.py:48-61 | stale input is discarded and the data written; no reply gives the timeout sentinel, a read error gives the decoding-error text, otherwise the stripped first line of the reply or the no-response sentinel, with the rest left in the buffer |
| Microbit.SendAndReceive | orangecontrib/orange3example/utils/microbit.py:42-61 | on a missing or closed link, fails with the not-connected error and leaves the port untouched; otherwise writes `message + "\r\n"` after resetting the input and returns the exchange's result |
| Microbit.SendText | orangecontrib/orange3example/utils/microbit.py:64-82 | true exactly when connected and the write does not raise; not connected leaves the port untouched; connected clears the input and appends the framed text, or nothing when the write raises |
| Microbit.SendTextWithResponse | orangecontrib/orange3example/utils/microbit.py:155-167 | a failed send gives `"[전송 실패]"`; a connected port stays open, and a raising write leaves its input cleared and output unchanged; after a send the output holds the framed text; no reply gives `"[응답 없음]"` and an empty input; a read error gives its message and leaves the reply unread; otherwise the stripped first reply line or `"[응답 없음]"`, with the rest of the reply left in the input |
| Microbit.Poll | orangecontrib/orange3example/utils/microbit.py:107-125 | one inner-loop poll: stops on the cap exactly when more than 2000 ms passed since the last data, leaving the bytes unread; otherwise reads all waiting bytes, resetting the counter and start time on data and stopping on the 20th empty poll |
| Microbit.Reassemble | orangecontrib/orange3example/utils/microbit.py:101-125 | the inner loop ends within `max(|chunks|,1)+20` polls; an idle end means 20 empty polls and a frame of everything seen; a capped end leaves that poll's chunk in the port; every earlier poll let polling continue |
| Microbit.EmptyPollsSilent | orangecontrib/orange3example/utils/microbit.py:118-123 | an empty-poll count of `m` means the last `m` polls saw nothing |
| Microbit.IdleEndIsSilence | orangecontrib/orange3example/utils/microbit.py:120-123 | an idle end means the last 20 polls of the frame were empty |
| Microbit.SeenBeforeStartsWithPending | orangecontrib/orange3example/utils/microbit.py:112-117 | a frame starts with the bytes that triggered it |
| Microbit.SeenBeforeIsConcat | orangecontrib/orange3example/utils/microbit.py:112-117 | the first `k` polls read the triggering bytes and then the peer's first `k` chunks, in order, nothing lost |
| Microbit.ElapsedSinceData | orangecontrib/orange3example/utils/microbit.py:108-121 | with polls at most 100 ms apart, the time since the last data is at most 100 ms per empty poll |
| Microbit.PromptPollsNeverCap | orangecontrib/orange3example/utils/microbit.py:103-123 | with polls at most 100 ms apart, a poll that is reached never exceeds the 2000 ms limit, so frames end on the idle rule |
| Microbit.SteadyPeerKeepsFrameOpen | orangecontrib/orange3example/utils/microbit.py:116-119 | with polls at most 2000 ms apart, a peer that sends a chunk at every poll keeps the frame open, because each chunk resets both the counter and the start time |
| Microbit.IdleFrameHoldsAll | orangecontrib/orange3example/utils/microbit.py:101-125 | an idle-ended frame from a peer whose chunks all hold data is the triggering bytes followed by all chunks, in order |
| Microbit.PromptFrameHoldsAll | orangecontrib/orange3example/utils/microbit.py:101-125 | under polls at most 100 ms apart and a peer whose chunks all hold data, a frame ends on the idle rule and holds everything the peer sent |
| Microbit.FrameFacts | orangecontrib/orange3example/utils/microbit.py:101-125 | whatever the timing, a frame starts with the bytes that triggered it; under prompt polls it is those bytes and every chunk, in order |
| Microbit.ReadFrame | orangecontrib/orange3example/utils/microbit.py:101-125 | reading one frame keeps the port open and its output unchanged and establishes `FrameRead` together with the facts of `FrameFacts` |
| Microbit.Deliver | orangecontrib/orange3example/utils/microbit.py:127-135 | the callback log grows by at most one entry, the normalised frame, and only when it is non-empty and a callback is registered |
| Microbit.ListenStep | orangecontrib/orange3example/utils/microbit.py:96-139 | runs exactly when the flag is up and the link open, and a running pass keeps the port open and its output unchanged; with nothing waiting nothing happens; otherwise one frame is read as `FrameRead` states: bounded polls, the cap hit exactly when the last poll came over 2000 ms after the last data, the frame the bytes read, and the port left empty after an idle end or holding the last poll's bytes after a capped end; the frame starts with the waiting bytes and, under prompt polls from a peer whose chunks all hold data, is everything the peer sent; it is delivered at most once, normalised and non-empty |
| MicrobitLegacy.FramedLf | build/lib/orangecontrib/orange3example/utils/microbit.py:71 | the older wire text is the stripped text followed by a single line feed |
| MicrobitLegacy.StrippedLineHasNoLineFeed | build/lib/orangecontrib/orange3example/utils/microbit.py:96 | a stripped line read by `readline()` contains no line feed |
| MicrobitLegacy.SendAndReceive | build/lib/orangecontrib/orange3example/utils/microbit.py:41-59 | as the current version, but writes `message + "\n"` |
| MicrobitLegacy.SendText | build/lib/orangecontrib/orange3example/utils/microbit.py:62-78 | true exactly when connected and the write succeeds; unread input is kept; the output grows by the LF-framed text on success |
| MicrobitLegacy.SendTextWithResponse | build/lib/orangecontrib/orange3example/utils/microbit.py:118-130 | a failed send gives `"[전송 실패]"`; a connected port stays open, and a raising write leaves input and output as they were; the line read is the first line of the stale input followed by the reply, and the rest stays in the input; nothing waiting gives `"[응답 없음]"`; a read error leaves everything waiting unread |
| MicrobitLegacy.ListenStep | build/lib/orangecontrib/orange3example/utils/microbit.py:92-102 | runs exactly when the flag is up and the link open, and a running pass keeps the port open and its output unchanged; reads one line when bytes wait and delivers it stripped, only if non-empty, leaving the rest in the input; delivered texts hold no line feed and no leading whitespace |
| MicrobitLegacy.DeliverLine | build/lib/orangecontrib/orange3example/utils/microbit.py:96-98 | the callback gets the stripped line only when it is non-empty and a callback is registered |
| SmileFrown.Dispatch | smile_frown.py:4-15 | each icon is shown exactly for its own command, anything else clears the screen, and every reply ends in a line feed |
| SmileFrown.SmileReply | smile_frown.py:4-6 | `"smile"` shows HAPPY and replies `"Received: smile - showing happy icon\n"` |
| SmileFrown.FrownReply | smile_frown.py:7-9 | `"frown"` shows SAD with its reply |
| SmileFrown.StraightReply | smile_frown.py:10-12 | `"straight"` shows ASLEEP with its reply |
| SmileFrown.DispatchEchoes | smile_frown.py:4-15 | every reply is `"Received: " + buffer + phrase + "\n"`, with the phrase naming the icon; each icon is shown for its own command only, and any other line clears the screen |
| SmileFrown.ReplyIsOneLine | smile_frown.py:4-15 | every handled line gets exactly one reply ending in its only line feed |
| SmileFrown.ReadUntilNewline | smile_frown.py:3 | `read_until(NEW_LINE)` returns the text before the first line feed, which holds none |
| SmileFrown.Peer.constructor | smile_frown.py:18 | `buffer` starts as `""`, nothing received or sent |
| SmileFrown.Peer.OnDataReceived | smile_frown.py:1-16 | consumes one line, sets `buffer` to its trimmed text, shows the dispatched icon and appends the dispatched reply |
| EndToEnd.PeerSeesSentText | smile_frown.py:3 | for a text without line feeds, the peer's `buffer` after the host's CR LF framing is exactly the host's stripped text |
| EndToEnd.HostReadsReply | orangecontrib/orange3example/utils/microbit.py:161-162 | the host's line read of a peer reply is the reply without its line feed, never the no-response sentinel |
| EndToEnd.RoundTrip | smile_frown.py:3-15 | for any text without line feeds, the peer acts on the stripped text, shows the icon of that command, and the host reads back `"Received: " + stripped text + phrase` |
| EndToEnd.SmileRoundTrip | smile_frown.py:4-6 | a text that strips to `"smile"` shows HAPPY, and the host reads back `"Received: smile - showing happy icon"` |
| EndToEnd.SmileSession | orangecontrib/orange3example/utils/microbit.py:64-82 | over a fresh connected link, `send_text` of such a text succeeds, the peer shows HAPPY, and the host reads back the acknowledgement |
| EndToEnd.WordLineNormalised | orangecontrib/orange3example/utils/microbit.py:129-133 | a word followed by CR LF normalises to the word |
| EndToEnd.ListenSession | orangecontrib/orange3example/utils/microbit.py:85-139 | on a fresh listening link with bytes waiting, one listener pass delivers the normalisation of everything the peer sent, once, if non-empty |
| EndToEnd.TwoChunkFrame | orangecontrib/orange3example/utils/microbit.py:101-135 | a word split in two chunks, the second ending in CR LF, is delivered once as the word |
| EndToEnd.HelloFrame | orangecontrib/orange3example/utils/microbit.py:112-135 | `"hel"` then `"lo\r\n"` then silence gives the callback `"hello"` once |
| Text.Strip | orangecontrib/orange3example/utils/microbit.py:74 | `str.strip()`: no whitespace at either end, empty exactly when the input is all whitespace |
| Text.StripKeepsText | orangecontrib/orange3example/utils/microbit.py:74 | stripping removes whitespace only; the non-whitespace text is kept in order |
| Text.Trim | smile_frown.py:3 | the firmware's `trim()` leaves no tab, line feed, vertical tab, form feed, carriage return or space at either end |
| Text.StripIdempotent | orangecontrib/orange3example/widgets/owmicrobit.py:192 | stripping twice equals stripping once |
| Text.RemoveChar | orangecontrib/orange3example/utils/microbit.py:131 | `replace('\r', '')` drops every carriage return and keeps every other character as often as it occurs |
| Text.RemoveCharAppend | orangecontrib/orange3example/utils/microbit.py:131 | removing a character works piece by piece, so the characters kept stay in their order |
| Text.ReplaceChar | orangecontrib/orange3example/utils/microbit.py:131 | `replace('\n', ' ')` changes exactly the line feeds, position by position |
| Text.Words | orangecontrib/orange3example/utils/microbit.py:133 | every piece of `str.split()` is non-empty and free of whitespace |
| Text.WordsKeepText | orangecontrib/orange3example/utils/microbit.py:133 | run together, the words are exactly the non-whitespace text of the input, in order |
| Text.WordsOfWord | orangecontrib/orange3example/utils/microbit.py:133 | a run without whitespace is one word |
| Text.WordsSplitAtSpace | orangecontrib/orange3example/utils/microbit.py:133 | a whitespace character always separates words: the words of `a + [c] + b` are those of `a` then those of `b` |
| Text.JoinWordsNormal | orangecontrib/orange3example/utils/microbit.py:133 | words joined by single spaces have no double space, no space at either end, no other whitespace |
| Text.Normalise | orangecontrib/orange3example/utils/microbit.py:129-133 | a normalised frame has no CR or LF, no leading or trailing space and no consecutive spaces |
| Text.NormaliseKeepsText | orangecontrib/orange3example/utils/microbit.py:129-133 | normalisation changes whitespace only: the frame's non-whitespace text is delivered complete and in order |
| Text.WordsOfJoin | orangecontrib/orange3example/utils/microbit.py:133 | splitting words joined by single spaces gives the words back |
| Text.NormalFixed | orangecontrib/orange3example/utils/microbit.py:129-133 | text already in normal form is left unchanged by normalisation |
| Text.NormaliseIdempotent | orangecontrib/orange3example/utils/microbit.py:129-133 | normalising twice equals normalising once |
| Text.NormaliseKeepsWords | orangecontrib/orange3example/utils/microbit.py:129-133 | normalisation keeps the words of the frame once carriage returns are removed |
| Llm.LLM.constructor | orangecontrib/orange3example/utils/llm.py:9-13 | a non-empty explicit key wins; otherwise the environment's `OPENAI_API_KEY` is used |
| Llm.LLM.GetResponse | orangecontrib/orange3example/utils/llm.py:15-34 | one result per item, in order; each is the stripped reply to its own request, or `"Error: "` plus its own failure |
| Llm.LLM.GetMultimodalResponse | orangecontrib/orange3example/utils/llm.py:36-84 | returns one element: the stripped reply to a request of the system prompt and one user message holding the assembled blocks, or the error text |
| Llm.BlocksSnoc | orangecontrib/orange3example/utils/llm.py:45-65 | appending an item changes the block description as one loop step does |
| Llm.AssembleIsBlocks | orangecontrib/orange3example/utils/llm.py:45-65 | the loop's content equals the block description: each image is one part, and each run of texts is one part joined by line feeds |
| Llm.AssembleNoAdjacentText | orangecontrib/orange3example/utils/llm.py:55-65 | the assembled content never has two adjacent text blocks |
| Llm.AssembleKeepsImages | orangecontrib/orange3example/utils/llm.py:46-54 | the image parts are exactly the image items, in order, as `"data:image/png;base64," + data` URLs |
| OrangeTable.StringPositions | orangecontrib/orange3example/widgets/owmicrobit.py:128-129 | every listed position is in range and holds a string variable |
| OrangeTable.StringPositionsAscending | orangecontrib/orange3example/widgets/owmicrobit.py:128-129 | positions come in domain order |
| OrangeTable.StringPositionsEmpty | orangecontrib/orange3example/widgets/owmicrobit.py:131 | there are no positions exactly when no variable is a string variable |
| OrangeTable.StringPositionListed | orangecontrib/orange3example/widgets/owmicrobit.py:128-129 | every string variable's position is listed |
| MicrobitWidget.RowTexts | orangecontrib/orange3example/widgets/owmicrobit.py:134-138 | every kept value is neither `"?"` nor empty, and at most one per string variable |
| MicrobitWidget.RowTextsMembers | orangecontrib/orange3example/widgets/owmicrobit.py:134-138 | a value is kept exactly when it survives and sits in a string cell of the row |
| MicrobitWidget.RowTextsEmpty | orangecontrib/orange3example/widgets/owmicrobit.py:135-139 | a row gives no line exactly when each of its string cells is `"?"` or empty |
| MicrobitWidget.RowLinesNonEmpty | orangecontrib/orange3example/widgets/owmicrobit.py:139-140 | every line of `text_content` is non-empty |
| MicrobitWidget.RowLinesEmpty | orangecontrib/orange3example/widgets/owmicrobit.py:139-143 | no line comes out exactly when no row keeps a value |
| MicrobitWidget.ExtractedEmpty | orangecontrib/orange3example/widgets/owmicrobit.py:128-147 | the extracted text is empty exactly when every string cell of every row is `"?"` or empty |
| MicrobitWidget.CollectRowTexts | orangecontrib/orange3example/widgets/owmicrobit.py:134-138 | the inner loop computes the kept values of the row |
| MicrobitWidget.CollectLines | orangecontrib/orange3example/widgets/owmicrobit.py:132-140 | the nested loops compute one space-joined line per row that keeps a value |
| MicrobitWidget.ExtractText | orangecontrib/orange3example/widgets/owmicrobit.py:124-147 | the text is the kept rows joined by line feeds, with the log line for no string variables or no valid text |
| MicrobitWidget.TextIsExtracted | orangecontrib/orange3example/widgets/owmicrobit.py:131-147 | each branch of the extraction leads to the same extracted text |
| MicrobitWidget.Widget.constructor | orangecontrib/orange3example/widgets/owmicrobit.py:19-72 | no data, an empty send box, auto-send on |
| MicrobitWidget.Widget.SendTextToMicrobit | orangecontrib/orange3example/widgets/owmicrobit.py:163-189 | empty text or a disconnected link only logs and leaves the port untouched; otherwise one `send_text` call, logged as sent or failed |
| MicrobitWidget.Widget.SetTextData | orangecontrib/orange3example/widgets/owmicrobit.py:109-161 | `None` clears `text_data`, and clears the box only with auto-send off; a non-table only logs; a table is kept, and its text is sent (auto-send) or put in the box; a send leaves the port open with its input cleared and the framed text written unless the write raised |
| MicrobitWidget.Widget.Present | orangecontrib/orange3example/widgets/owmicrobit.py:149-158 | non-empty text is sent with auto-send on, else placed in the box; empty text clears the box only with auto-send off; a send leaves the port open with its input cleared and the framed text written unless the write raised |
| MicrobitWidget.Widget.SendToMicrobit | orangecontrib/orange3example/widgets/owmicrobit.py:191-193 | the box text is stripped before sending; what reaches the wire is the box text framed by `send_text`, and the port stays open with its input cleared |
| ImageLlmWidget.BlankKey | orangecontrib/orange3example/widgets/owimagellm.py:155 | a blank or whitespace-only key field gives no key, so the environment key is used; otherwise the stripped field is the key |
| ImageLlmWidget.PreparedShape | orangecontrib/orange3example/widgets/owimagellm.py:187-240 | at most one image-or-error item, then at most one text item for the table; an image can only come first, no other item types |
| ImageLlmWidget.PreparedContent | orangecontrib/orange3example/widgets/owimagellm.py:189-233 | an encoded image becomes one low-detail image part before the table's text part; an encoding error shares one text part with the table's text |
| ImageLlmWidget.OutcomeOneRow | orangecontrib/orange3example/widgets/owimagellm.py:151-185 | a run sends exactly one row, shows it, and uses the "Error" column exactly when the client could not be created |
| ImageLlmWidget.Widget.constructor | orangecontrib/orange3example/widgets/owimagellm.py:29-81 | no inputs, button disabled, key field from the saved setting, default prompt |
| ImageLlmWidget.Widget.CheckInputs | orangecontrib/orange3example/widgets/owimagellm.py:144-149 | the button is enabled exactly when an image or a table is present |
| ImageLlmWidget.Widget.PrepareMultimodalData | orangecontrib/orange3example/widgets/owimagellm.py:187-240 | builds the image slot then the text slot: the string metas' rows, or `"No text data"` |
| ImageLlmWidget.Widget.Process | orangecontrib/orange3example/widgets/owimagellm.py:151-185 | saves prompt and key setting, creates the client with the blank-to-none key, and sends and shows one result table |
| ImageLlmWidget.Widget.Respond | orangecontrib/orange3example/widgets/owimagellm.py:158-176 | a failing client gives the error table; otherwise the prepared items go to the multimodal call |
| ImageLlmWidget.Widget.SetImageData | orangecontrib/orange3example/widgets/owimagellm.py:83-99 | an array is kept and runs `process` only if a table is already present; anything else clears the image; the button follows |
| ImageLlmWidget.Widget.SetTextData | orangecontrib/orange3example/widgets/owimagellm.py:101-114 | a table is kept and runs `process` only if an image is already present; anything else clears the table; the button follows |

## Left out

- `list_ports`: a passthrough to the serial library's port enumeration; not modelled.
- Real serial I/O, the 2 s settle after opening, the 50 ms and 100 ms sleeps and `flush()`: the port is an abstract buffer, and time enters only as clock readings in the listener.
- UTF-8 encoding and decoding with `errors='ignore'`: the wire carries characters, and a decode never fails or drops bytes.
- The listener's background thread and its unsynchronised use of the globals: one pass of the outer loop (`ListenStep`) is modelled sequentially. The race between foreground sends and listener reads is not modelled.
- Microbit.ListenStep: the outer loop's `except` (a port error ending the thread) is not modelled, because the abstract port never raises on read.
- Microbit.SendText: a raise from `reset_input_buffer()` is not modelled separately; a write error is modelled after the reset.
- The print statements, the widget log's Qt box, labels, layouts, `display_image` and the output signals are not modelled; logs are modelled as lists of strings.
- The `try`/`except` in `set_text_data` of the micro:bit widget is not modelled. No step of the modelled extraction can raise.
- The `except` of `prepare_multimodal_data` in the image-and-text widget (`orangecontrib/orange3example/widgets/owimagellm.py:234-238`), which would add a "Text processing error: …" text item, is not modelled. No step of the modelled table reading can raise.
- Words: its own contract states only the shape of each piece. What the pieces hold and where they split are stated by the lemmas `WordsKeepText`, `WordsSplitAtSpace` and `WordsOfWord`. They are kept out of the function's contract so that proofs using `Words` stay small.
- SendTextWithResponse: a read that raises is modelled as taking no bytes, in both copies. The source does not fix how much `readline()` consumed before raising.
- `hasattr(microbit, 'send_text')` and `if not microbit`: the module is always present in the model.
- PNG and base64 encoding of images is an opaque function parameter that returns the encoded text or an error. The OpenAI client, dotenv and the environment lookup are parameters as well.
- Llm.LLM.GetMultimodalResponse: items are always well-formed dictionaries, so a missing `type` or `data` key (caught by the method's `except`) is not modelled.
- The webcam utility and widgets, the LLM transformer widget, the older build copy of the micro:bit widget and packaging metadata are not part of this model.
