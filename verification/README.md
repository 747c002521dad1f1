# WindRPC, modelled and proved in Dafny

WindRPC turns a YAML specification into an RPC stack: a Python client, a JavaScript client and a C server
template, tied together by generated identifiers, a dispatch table and buffer sizes. This project models that
stack's algorithms and proves what they promise. `dafny verify dfyconfig.toml` checks everything.

| file | what it models |
|---|---|
| `Bytes`, `CobsTable`, `Deframe`, `Wire` | bytes and words; the COBS code table; cutting a stream at its zeros; the six-byte header |
| `PyCobs`, `PyClient`, `PyStream`, `PyRuns` | the generated Python client: codec loops, request table, receiver, whole streams, whole runs |
| `JsCobs`, `JsClient`, `JsStream`, `JsRuns` | the JavaScript client: the same, with its 4096-byte accumulator and its timers |
| `Agreement` | the two dispatchers on the same frame |
| `Nanopb`, `Server`, `Engine` | the bounded output stream; one packet as a function; the engine on real, possibly shared, buffers |
| `Status`, `Outcome` | what an error frame tells; what one packet does, in terms of the firmware's decoder, callback and encoder |
| `Protocol` | client, server and lossy, duplicating, reordering channels as one transition system; matching |
| `Staleness`, `Completion` | how old an answer may be; which answers a Python client can settle |
| `JsProtocol`, `JsStaleness` | the same composition and the same bounds with the JavaScript client, frames built by hand included |
| `Spec`, `Identifiers`, `Generator`, `Sizing` | validator, identifiers, dispatch table, buffer sizes |
| `SmartMerge`, `Callbacks` | the skeleton merge; the emitted callback skeleton |

The layout is the same throughout. A codec loop, a receiver, a handler or a validator is a method, and an object
that updates its fields is a class; each is proved equal to a function of its input or old state. What the source
promises is then proved about those functions, over all inputs and all runs. A future or promise is shared between
the pending table and its caller, so it is modelled by its position in the history of requests. Protobuf encoders,
decoders and callbacks are arbitrary functions; an encoder emits chunks, each of which fits whole or fails.

## Findings

Each of these is stated with the exact condition under which the code does meet the expectation.

- A Python client matches answers on the sequence number alone. Delivering an answer, however old, keeps every
  completed request with its own answer exactly under `Protocol.Harmless` (`Protocol.DeliveryMatchedIff`). For any
  server that answers some request in kind, all runs are safe if and only if answers are fewer than 65535 sends old
  (`Staleness.AgeBoundIff`); a concrete run goes wrong one send later (`Staleness.MisdeliveryHappens`).
- Only the timeout handler of a Python request removes the entry of a request that was given up; when the caller's task
  is cancelled instead, the entry stays (`PyRuns.UnhandledStays`). In timely runs that handle every cancellation at once
  an identifier is pending if and only if a request waits under it (`PyRuns.PendingIffWaiting`).
- The validator accepts rpc ids up to 255, although bit 7 marks events, and a client takes an answer with bit 7 for an
  event. Every answer can be settled if and only if the ids of all answered rpcs are at most 127
  (`Completion.AllAnswersSettleIff`); otherwise the request waits on (`Completion.AcceptedIdNeverCompletes`).
- JavaScript sequence numbers include 0, which events use. No frame with sequence number 0 ever touches a promise if
  and only if fewer than 65536 numbers were handed out (`JsRuns.EventsHarmlessIff`); the 65536th request can be
  resolved by an event (`JsRuns.EventResolvesRequest`). Python numbers are never 0 (`PyClient.SeqRepeats`).
- The generated `buildXxxFrame` helpers (`windrpc/client/js.py:188-206`) and `buildCobsFrame` take an identifier without
  looking whether it is pending, and the server answers such frames too. The answer, however fresh, leaves all promises
  alone if and only if its identifier is not pending (`JsProtocol.BuiltAnswerIff`). For any server that answers some
  request in kind, all runs without an event while 0 is pending are safe if and only if no frame is built under a
  pending identifier and answers are fewer than 65536 allocations old (`JsStaleness.JsAgeBoundIff`). Otherwise an answer
  that arrives at once can resolve a request for another rpc: that request, 65535 built frames and one more whose answer
  comes back (`JsStaleness.BuiltAnswerMisdelivered`).
- Rpc ids above 127 also let identifiers clash. They are distinct exactly when no event byte is also an rpc id of its
  service (`Identifiers.IdsDistinctIff`); an accepted specification with a clash is given
  (`Identifiers.ClashIsAccepted`).
- The Python generator compares the rpc type without normalising its case, the other parts upper-case it first
  (`Identifiers.PyIdMatches`, with an accepted specification that shows it: `Identifiers.LowerCaseDiffers`).
- The engine never compares PAYLOAD_LEN with the number of bytes received. The received bytes decide the reply,
  whatever the firmware, if and only if they cover the announced payload (`Server.PacketSufficesIff`).
- The server writes the status code in zigzag form while `core_spec.yml` declares a plain `int32`: a conforming
  reader recovers only code 0 (`Nanopb.StatusCodeMisread`).
- The JavaScript accumulator forgets everything at its 4097th byte instead of dropping the frame, so the tail of an
  overlong piece is still decoded and dispatched (`JsStream.ReceivedIs`): an oversized frame can resolve the promise of
  another request with a frame that nobody sent (`JsStream.TailResolvesAnother`). A frame survives if and only if its
  body has at most 4096 bytes (`JsStream.FrameSurvives`), and is dropped whole if and only if fewer than six bytes
  decode from what is held (`JsStream.DroppedWholeIff`). Every payload up to 4073 bytes survives, a zero-free frame with
  4074 is dropped whole (`JsStream.PayloadSurvives`, `JsStream.ZeroFreePayloadDropped`).
- The JavaScript `buildRawFrame` masks fields that do not fit 16 bits where Python refuses (`Wire.BuildFaithful`).
- The computed buffer size covers COBS framing for payloads up to 14527 bytes and fails first at 14528; from there it
  depends on how far the alignment rounds up, and 30465 is the last payload it covers (`Sizing.AllFramesFitIff`). The
  comment at `windrpc/server/generator.py:898` speaks of a 5-byte header; the header has 6 bytes, and the code's
  constant leaves room for it.
- Blocks that open with `/**` are never merged into an existing file, and every handler of the generated callback
  skeleton is such a block: merging that skeleton never changes an existing file (`Callbacks.CallbacksNeverMerged`),
  so a handler for a new rpc is not added (`Callbacks.MissingHandlerNotMerged`).
- The size of the engine's static buffer is passed on as 16 bits. It survives exactly up to a computed payload of 65408
  bytes (`Sizing.AnnouncedIff`); right above, every reply is refused (`Sizing.NothingAnnounced`).
- On a packet shorter than six bytes `windrpc_handle` returns -1 but leaves `bytes_written` at the received length
  (`Server.HandlerContract`).

## Preconditions

These are assumed where named, because the code does not establish them: the memory the engine reads exists, that is,
it covers 6 + PAYLOAD_LEN bytes whenever a payload is decoded (`Server.Readable`), and, where a reply is said to be a
function of the packet, the received bytes do (`Server.Covered`); the transmit buffer is as large as announced
(`Engine.Transaction.TxOk`); all ids of a specification are present, since the generator indexes them
(`Identifiers.AllPresent`); names and types of a callback skeleton contain no line break (`Callbacks.CleanServices`).
Where an answer is said to complete its request, the ids of answered rpcs are at most 127
(`Generator.SevenBitAnswering`); matching needs no such condition.

## Model

| member | source | states |
|---|---|---|
| CobsTable.DecodeBody | windrpc/client/python.py:69-125 | decoding undoes encoding for every byte sequence, runs of exactly 254 and data ending in zero included |
| CobsTable.BodyDecode | windrpc/client/python.py:69-125 | encoding undoes decoding on every well-formed body, so the code is a bijection onto well-formed bodies |
| CobsTable.BodyWellFormed | windrpc/client/python.py:69-96 | an encoded body splits exactly into code blocks and does not end in a 0xFF block |
| CobsTable.BodyZeroFree | windrpc/client/python.py:69-96 | an encoded body is non-empty and contains no zero, so the delimiter is unambiguous |
| CobsTable.BodyLength | windrpc/client/python.py:69-96 | exact overhead: one byte and one more per full 254-byte run, at most length/254 of those |
| CobsTable.ZeroFreeBodyLength | windrpc/client/python.py:69-96 | on zero-free data the bound is attained |
| CobsTable.DecodeShrinks | windrpc/client/python.py:99-125 | decoding never yields more bytes than it reads, and fewer when it reads any |
| CobsTable.ZeroFreeDecodes | windrpc/client/python.py:110-125 | every zero-free body decodes, also truncated and non-canonical ones |
| PyCobs.CobsEncode | windrpc/client/python.py:69-96 | the back-patching loop produces the code table's body and the delimiter |
| PyCobs.CobsDecode | windrpc/client/python.py:99-125 | the decoding loop, with or without delimiter, returns what the code table says and refuses exactly where a code byte is zero |
| PyCobs.OneDelimiterStripped | windrpc/client/python.py:103-104 | one trailing delimiter is taken off before decoding, and only one |
| PyCobs.RoundTrip | windrpc/client/python.py:69-125 | the two loops in sequence give back the data, with the delimiter and without it |
| JsCobs.CobsEncode | windrpc/client/templates/WindRpcClient.js:3-27 | this loop produces the same body, without delimiter |
| JsCobs.CobsDecode | windrpc/client/templates/WindRpcClient.js:29-51 | the loop stops at a zero code byte and adds no gap before one |
| JsCobs.Interoperate | windrpc/client/templates/WindRpcClient.js:3-51 | Python's encoding is the JavaScript one plus one zero; both decoders recover the data from both forms |
| JsCobs.JsDecodesBothForms | windrpc/client/templates/WindRpcClient.js:29-51 | the JavaScript decoder undoes encoding with and without delimiter |
| JsCobs.DecodersAgree | windrpc/client/templates/WindRpcClient.js:29-51 | both decoders return the same bytes wherever the Python one returns any, so on every zero-free input |
| JsCobs.DelimiterSeen | windrpc/client/templates/WindRpcClient.js:38-48 | a delimiter left on the input turns into a data byte exactly when the body before it was cut short |
| JsCobs.DecodersCompared | windrpc/client/templates/WindRpcClient.js:29-51 | on any input Python accepts the decoders agree if and only if it carries no delimiter or its body is not cut short |
| JsCobs.StopsAtZero | windrpc/client/templates/WindRpcClient.js:35-47 | nothing behind a whole body and a zero code byte is looked at |
| Wire.UnpackPack | windrpc/client/python.py:166-177 | packing succeeds exactly on fields that fit 16 bits, and unpacking gives them back |
| Wire.UnpackHeader | windrpc/client/python.py:171-177 | a frame reads back whatever bytes follow its announced payload |
| Wire.UnpackAny | windrpc/client/python.py:171-177 | six bytes are always a frame: a payload that ends early is what there is of it, excess bytes are cut off |
| Wire.UnpackBuild | windrpc/client/templates/WindRpcClient.js:95-111 | what a receiver reads of a JavaScript frame whose fields were masked |
| Wire.BuildFaithful | windrpc/client/templates/WindRpcClient.js:95-111 | a JavaScript frame reads back as asked for if and only if the rpc id and the payload length fit 16 bits |
| Wire.BuildRawFrameJs | windrpc/client/templates/WindRpcClient.js:98-110 | filling the header byte by byte and copying both parts gives the header followed by the payload |
| Deframe.CutConcat | windrpc/client/python.py:215-225 | cutting a stream can be done piecewise, carrying the leftover |
| Deframe.PiecesZeroFree | windrpc/client/python.py:218-225 | neither a cut piece nor the leftover contains a zero |
| Deframe.CutStuffed | windrpc/client/python.py:218-225 | concatenated encoded frames are cut into exactly their bodies with nothing left over |
| Deframe.CutPrefix | windrpc/client/python.py:218-225 | zero-free bytes in front lengthen the first piece and change nothing else |
| PyClient.SeqStep | windrpc/client/python.py:161-164 | the counter's update rule takes the identifier of each allocation to that of the next |
| PyClient.SeqAtIs | windrpc/client/python.py:161-164 | allocation k, counting from zero, hands out (k mod 65535) + 1 |
| PyClient.SeqRepeats | windrpc/client/python.py:161-164 | identifiers are never zero and repeat exactly at multiples of 65535 allocations |
| PyClient.SeqDistinctWithinPeriod | windrpc/client/python.py:161-164 | any two allocations fewer than 65535 apart differ |
| PyClient.SentKeepsValid | windrpc/client/python.py:247-257 | after a send the pending table still names only sent requests, each the latest under its identifier |
| PyClient.DatagramKeepsValid | windrpc/client/python.py:179-209 | so it does after any datagram |
| PyClient.PacketKeepsValid | windrpc/client/python.py:224-234 | and after any delimited piece, decodable or not |
| PyClient.CancelKeepsValid | windrpc/client/python.py:258-259 | and when a future is cancelled while its entry stays in the table |
| PyClient.ForgetKeepsValid | windrpc/client/python.py:260-261 | and when the timeout handler drops whatever its identifier maps to |
| PyClient.SettledPops | windrpc/client/python.py:189-209 | an answer frees its identifier, completes the future waiting there if one still waits, and changes nothing else |
| PyClient.CancelSettles | windrpc/client/python.py:256-262 | giving up completes that future alone and leaves the table to the handler |
| PyClient.DoneIsNotCancelled | windrpc/client/python.py:256-262 | a future that is done is not cancelled |
| PyClient.ForgetDrops | windrpc/client/python.py:260-261 | the timeout handler frees the identifier of its request, whoever holds it by then, and touches no other entry and no request |
| PyClient.DrainStep | windrpc/client/python.py:218-231 | one round of the receive loop leaves the outcome of the whole loop unchanged |
| PyClient.PacketCases | windrpc/client/python.py:224-234 | empty and undecodable pieces change nothing, any other is a datagram |
| PyClient.Client.GetNextSeqId | windrpc/client/python.py:161-164 | hands out the counter and advances it |
| PyClient.Client.SendRequest | windrpc/client/python.py:247-257 | bytes handed to the transport and the whole new state, also when packing fails |
| PyClient.Client.CancelFuture | windrpc/client/python.py:258-259 | the whole new state when a future is cancelled |
| PyClient.Client.OnTimeout | windrpc/client/python.py:260-261 | the whole new state after the timeout handler, which `ForgetDrops` describes |
| PyClient.Client.ReceiveRawDatagram | windrpc/client/python.py:179-209 | the three-way dispatch, its whole new state and the returned frame |
| PyClient.Client.ReceiveBytes | windrpc/client/python.py:211-234 | the receive loop dispatches every complete piece in order and keeps the leftover |
| PyStream.ReceivedIs | windrpc/client/python.py:211-234 | receiving is dispatching the pieces of buffer plus chunk, then keeping the leftover |
| PyStream.ReceivedConcat | windrpc/client/python.py:211-234 | two chunks one after the other are one chunk |
| PyStream.ChunkingIndependence | windrpc/client/python.py:211-234 | feeding a stream in any chunks equals feeding it at once |
| PyStream.AnyTwoSplitsAgree | windrpc/client/python.py:211-234 | any two splits give the same futures, notifications, pending table and leftover |
| PyStream.StreamDelivery | windrpc/client/python.py:211-234 | encoded frames in any chunks are dispatched as exactly those frames in order, and the buffer ends empty |
| PyStream.Resynchronise | windrpc/client/python.py:215-234 | from any state, after garbage and one delimiter, the next frames are dispatched exactly and last |
| PyStream.GarbageSpoilsOne | windrpc/client/python.py:215-234 | garbage without delimiter spoils at most the first following frame |
| PyStream.EveryPieceDecodes | windrpc/client/python.py:112-115 | the zero-code-byte error cannot arise on the stream path |
| PyRuns.SettlesAtMostOnce | windrpc/client/python.py:189-209 | over any run a settled future never changes and no request disappears |
| PyRuns.RunRx | windrpc/client/python.py:215-225 | every run keeps the receive buffer free of delimiters between steps |
| PyRuns.SentReachable | windrpc/client/python.py:247-253 | a send keeps every waiting request reachable if and only if it overwrites no waiting one |
| PyRuns.OverwriteAge | windrpc/client/python.py:253-253 | an entry that a send overwrites is a positive multiple of 65535 sends old |
| PyRuns.RunReachable | windrpc/client/python.py:236-262 | if every request settles, and every timeout handler runs, before 65535 further sends, every waiting request stays pending under its own identifier |
| PyRuns.ReachableIff | windrpc/client/python.py:236-262 | both bounds are exact: all runs within them keep every waiting request under its entry if and only if each is at most 65535 |
| PyRuns.ResponseCompletes | windrpc/client/python.py:203-207 | in every such run a response completes the waiting request with its sequence number, and no other |
| PyRuns.PromptWaits | windrpc/client/python.py:255-262 | over every run in which each cancellation is followed at once by its handler, the table names waiting requests only |
| PyRuns.PendingIffWaiting | windrpc/client/python.py:236-262 | if such a run is timely as well, an identifier is pending if and only if a request waits under it |
| PyRuns.UnhandledStays | windrpc/client/python.py:255-262 | between cancellation and handler the entry of the cancelled request is still there |
| JsClient.SeqOfIs | windrpc/client/templates/WindRpcClient.js:77-80 | allocation n, counting from one, hands out n mod 65536 |
| JsClient.SeqOfRepeats | windrpc/client/templates/WindRpcClient.js:77-80 | the wrapping counter repeats an identifier exactly at multiples of 65536 allocations |
| JsClient.SentReachable | windrpc/client/templates/WindRpcClient.js:202-216 | a send keeps every open promise reachable if and only if its identifier is not pending already |
| JsClient.ReuseAge | windrpc/client/templates/WindRpcClient.js:77-80 | a reused pending identifier is a positive multiple of 65536 allocations old |
| JsClient.DispatchedKeepsValid | windrpc/client/templates/WindRpcClient.js:180-199 | dispatching keeps the table naming open promises only, and every open promise reachable |
| JsClient.FiredKeepsValid | windrpc/client/templates/WindRpcClient.js:206-209 | so does a timer |
| JsClient.ResetSettlesAll | windrpc/client/templates/WindRpcClient.js:82-88 | after a reset nothing is pending or buffered and, without reuse, no promise is open |
| JsClient.DispatchOutcome | windrpc/client/templates/WindRpcClient.js:163-199 | a frame with a pending identifier frees it and settles that promise alone, as an error exactly on 0x0000; any other reaches the callback and changes no promise |
| JsClient.FiredRejects | windrpc/client/templates/WindRpcClient.js:206-209 | the timer of an open request rejects that promise alone and frees its identifier, no other |
| JsClient.SettledDoesNotFire | windrpc/client/templates/WindRpcClient.js:210-213 | a settled request's timer is cleared, so it changes nothing |
| JsClient.ResetRejects | windrpc/client/templates/WindRpcClient.js:82-88 | a reset rejects exactly the promises that are pending and leaves the others and the counter alone |
| JsClient.Client.GetNextSeqId | windrpc/client/templates/WindRpcClient.js:77-80 | advances the wrapping counter and hands out the new value |
| JsClient.Client.BuildRaw | windrpc/client/templates/WindRpcClient.js:95-111 | the frame and the identifier it uses up |
| JsClient.Client.BuildCobsFrame | windrpc/client/templates/WindRpcClient.js:114-121 | the encoded frame and its delimiter |
| JsClient.Client.SendRequest | windrpc/client/templates/WindRpcClient.js:202-216 | frame handed to the send function and the whole new state |
| JsClient.Client.OnTimer | windrpc/client/templates/WindRpcClient.js:206-209 | the whole new state after a timer, which `FiredRejects` describes |
| JsClient.Client.ResetAccumulator | windrpc/client/templates/WindRpcClient.js:82-88 | the loop over the entries rejects exactly the pending promises, in any order |
| JsClient.Client.DispatchFrame | windrpc/client/templates/WindRpcClient.js:163-200 | pending first, then rpc id 0x0000, then the notification callback |
| JsClient.Client.ReceiveBytes | windrpc/client/templates/WindRpcClient.js:136-161 | the byte loop with its accumulator limit |
| JsStream.ReceivedIs | windrpc/client/templates/WindRpcClient.js:136-161 | of every delimited piece the dispatcher gets what follows its last multiple of 4097 bytes |
| JsStream.ShortPiecesDelivered | windrpc/client/templates/WindRpcClient.js:136-161 | while no piece exceeds 4096 bytes the stream is cut exactly as in Python |
| JsStream.ReceivedConcat | windrpc/client/templates/WindRpcClient.js:136-161 | two chunks one after the other are one chunk |
| JsStream.ChunkingIndependence | windrpc/client/templates/WindRpcClient.js:136-161 | feeding a stream in any chunks equals feeding it at once |
| JsStream.FrameReceived | windrpc/client/templates/WindRpcClient.js:136-161 | receiving one encoded frame dispatches what its held bytes decode to |
| JsStream.FrameSurvives | windrpc/client/templates/WindRpcClient.js:136-161 | the receiver dispatches an encoded frame as itself if and only if its body has at most 4096 bytes |
| JsStream.StreamDelivery | windrpc/client/templates/WindRpcClient.js:136-161 | encoded frames whose bodies fit are dispatched as exactly those frames in order, and the accumulator ends empty |
| JsStream.Resynchronise | windrpc/client/templates/WindRpcClient.js:136-161 | from any state one delimiter empties the accumulator, and the fitting frames after it are dispatched exactly and last |
| JsStream.PayloadSurvives | windrpc/client/templates/WindRpcClient.js:136-161 | receiving any encoded frame with up to 4073 payload bytes is dispatching that frame |
| JsStream.ZeroFreePayloadDropped | windrpc/client/templates/WindRpcClient.js:136-161 | receiving a zero-free frame with 4074 payload bytes changes nothing |
| JsStream.DroppedFrameExists | windrpc/client/templates/WindRpcClient.js:136-161 | such a frame can be built, and receiving it changes nothing |
| JsStream.DroppedWholeIff | windrpc/client/templates/WindRpcClient.js:136-161 | receiving an encoded frame changes no client if and only if fewer than six bytes decode from what the accumulator holds |
| JsStream.BodyTail | windrpc/client/templates/WindRpcClient.js:11-23 | the last run of zero-free data stands unchanged at the end of its body |
| JsStream.TailReceived | windrpc/client/templates/WindRpcClient.js:154-159 | a zero-free frame of 4088 bytes is received as the frame hidden in its last eight |
| JsStream.TailResolvesAnother | windrpc/client/templates/WindRpcClient.js:154-194 | such a packed frame resolves the promise pending under another sequence number |
| JsRuns.RunAcc | windrpc/client/templates/WindRpcClient.js:136-161 | every run keeps the accumulator zero-free and within 4096 bytes |
| JsRuns.SettlesAtMostOnce | windrpc/client/templates/WindRpcClient.js:180-216 | over any run of sends, bytes, datagrams, timers and resets a promise settles at most once |
| JsRuns.TimedOutForGood | windrpc/client/templates/WindRpcClient.js:206-209 | however a run goes on, a promise whose timer fires while it is open ends as timed out |
| JsRuns.ResetForGood | windrpc/client/templates/WindRpcClient.js:82-88 | however a run goes on, a promise pending at a reset ends as rejected by it |
| JsRuns.RunBalanced | windrpc/client/templates/WindRpcClient.js:82-216 | without reuse of a pending identifier, open promises and pending entries name each other throughout |
| JsRuns.Conservation | windrpc/client/templates/WindRpcClient.js:82-216 | then sent = resolved + rejected + pending |
| JsRuns.TimelyNoReuse | windrpc/client/templates/WindRpcClient.js:202-216 | if every request settles before 65536 further allocations, no send reuses a pending identifier |
| JsRuns.TimelyConservation | windrpc/client/templates/WindRpcClient.js:82-216 | then sent = resolved + rejected + pending |
| JsRuns.TimelyIff | windrpc/client/templates/WindRpcClient.js:77-80 | settling within a bound prevents every reuse if and only if the bound is at most 65536 allocations |
| JsRuns.ReuseLosesOne | windrpc/client/templates/WindRpcClient.js:210-213 | a send that reuses a pending identifier loses exactly one promise from the table |
| JsRuns.ZeroPendingNeedsWrap | windrpc/client/templates/WindRpcClient.js:77-80 | identifier 0 is pending only after 65536 allocations |
| JsRuns.ZeroFrameIff | windrpc/client/templates/WindRpcClient.js:180-199 | a frame with sequence number 0 leaves all promises alone if and only if 0 is not pending |
| JsRuns.EventsHarmlessIff | windrpc/client/templates/WindRpcClient.js:77-80 | over all runs with at most so many allocations no such frame touches a promise, if and only if there are fewer than 65536 |
| JsRuns.EventResolvesRequest | windrpc/client/templates/WindRpcClient.js:180-194 | a run in which an event resolves request number 0 |
| Agreement.DispatchersAgree | windrpc/client/templates/WindRpcClient.js:163-200 | both dispatchers remove the same entry and settle it the same way if and only if the frame is no event under a pending identifier |
| Agreement.EventsAgree | windrpc/client/python.py:196-200 | on frames with sequence number 0 two clients in step stay in step |
| Agreement.CallbacksCompared | windrpc/client/templates/WindRpcClient.js:197-199 | Python passes on events only, JavaScript every frame that matches no request |
| Nanopb.VarintReadsBack | windrpc/server/templates/windrpc.c:107-108 | the varint form reads back from the front of any stream |
| Nanopb.StatusCodeMisread | windrpc/server/templates/windrpc.c:107-108 | an int32 reader recovers the zigzag status code if and only if it is 0 |
| Server.HandlerContract | windrpc/server/templates/windrpc.c:123-210 | return code, silence, length, echoed sequence number and rpc id of every reply |
| Server.AnswersUnpack | windrpc/client/python.py:171-177 | the client recovers both ids and the payload of every transmitted frame, and its header announces its length less six |
| Server.RespondContract | windrpc/server/templates/windrpc.c:174-209 | the same from the callback on |
| Server.AnsweredInKind | windrpc/server/templates/windrpc.c:174-209 | a request is answered under its own rpc id if and only if the callback succeeds and the response encodes in full; the payload is that encoding |
| Server.RepliesCarry | windrpc/server/templates/windrpc.c:123-210 | a reply carries the request's rpc id exactly when every stage succeeded, and else 0x0000 |
| Server.HistoryIndependence | windrpc/server/templates/windrpc.c:154-174 | a reply does not depend on what the static structs were left with |
| Server.SessionIsMemoryless | windrpc/server/templates/windrpc.c:123-210 | over any sequence of receptions each reply is a function of its own reception |
| Server.HandleReadsPacket | windrpc/server/templates/windrpc.c:137-164 | when the received bytes cover what is decoded, they alone decide the reply |
| Server.UncoveredLeaks | windrpc/server/templates/windrpc.c:141-158 | for every packet that announces more than it holds, a firmware and two continuations of the same bytes that are answered differently |
| Server.PacketSufficesIff | windrpc/server/templates/windrpc.c:141-158 | the received bytes decide the reply, whatever the firmware, if and only if they cover the announced payload |
| Server.EmptyResponse | windrpc/server/templates/windrpc.c:189-209 | an answering entry without structs is answered with the bare header |
| Server.NotifiedAnswers | windrpc/server/generator.py:797-824 | a notification goes out exactly when its data encodes within the buffer, well-formed and under sequence number 0 |
| Server.ProcessedWholeIff | windrpc/server/templates/windrpc.c:232-238 | the caller of the raw entry point gets a prefix of the reply, and all of it exactly when its buffer is large enough |
| Server.ProcessedReadsPacket | windrpc/server/templates/windrpc.c:213-241 | a covered packet is processed as if nothing lay behind it |
| Server.FoundFirst | windrpc/server/generator.py:575-581 | the scan stops at the first entry with the identifier |
| Server.HexReads | windrpc/server/templates/windrpc.c:148-148 | the four hexadecimal digits in the text of an unknown rpc id are that id |
| Outcome.ShortPacket | windrpc/server/templates/windrpc.c:131-135 | a packet without a whole header returns -1 with status INVALID_DATA_FORMAT and changes no struct |
| Outcome.UnknownRpc | windrpc/server/templates/windrpc.c:144-150 | an identifier without an entry is answered UNIMPLEMENTED and changes no struct |
| Outcome.NotDecoded | windrpc/server/templates/windrpc.c:154-164 | exactly the announced payload is decoded into a cleared struct; if that fails the callback is not called and INVALID_DATA_FORMAT goes out |
| Outcome.ClearedIsZero | windrpc/server/generator.py:512-512 | a cleared struct has the size of its type and holds zeros only |
| Outcome.CallbackAnswered | windrpc/server/templates/windrpc.c:154-209 | the callback is given the decoded request and a cleared response struct; what it leaves is what both structs hold, and the response struct it filled, encoded, is what is sent; with every other outcome of the callback and the encoder, and every missing struct or descriptor |
| Outcome.AlwaysGiven | windrpc/server/templates/windrpc.c:154-168 | these cases are all there are |
| Outcome.ResultSent | windrpc/server/templates/windrpc.c:154-209 | with all descriptors and structs there, reply, context and static structs are those of decoding, calling and encoding, in the firmware's own terms |
| Outcome.SilentIff | windrpc/server/templates/windrpc.c:176-181 | silence is owed exactly after a REQUEST_ONLY request that decoded and whose callback returned 0 |
| Outcome.ProcessedCode | windrpc/server/templates/windrpc.c:230-240 | for a packet with a header the raw entry point returns -1 exactly when something is to be sent and no header fits, else 0 |
| Outcome.NothingProcessed | windrpc/server/templates/windrpc.c:215-218 | no packet, or one without a header: -1 and no bytes |
| Outcome.NoOutputBuffer | windrpc/server/templates/windrpc.c:232-240 | without an output buffer the code is the same and no bytes are copied |
| Status.WholeReadsBack | windrpc/server/templates/windrpc.c:105-113 | a status message written in full reads back as its code and text |
| Status.PayloadWholeIff | windrpc/server/templates/windrpc.c:97-113 | the unchecked bounded writes leave the whole message, clipped to 64 bytes of text, if and only if it fits |
| Status.PayloadByRoom | windrpc/server/templates/windrpc.c:105-113 | with less room tag, length and text follow the code as far as they fit |
| Status.PayloadWithoutCode | windrpc/server/templates/windrpc.c:105-113 | where the code itself does not fit, what follows it is still written as far as it fits |
| Status.FailuresReported | windrpc/server/templates/windrpc.c:144-202 | what goes wrong is what the client is told: with room for it, the frame carries code and text of an unknown rpc id, an undecodable payload, the callback's own status or a response that does not encode |
| Engine.PbWrite | windrpc/server/templates/windrpc.c:105-113 | a bounded write fits whole or leaves the buffer alone |
| Engine.PbEncode | windrpc/server/templates/windrpc.c:197-203 | encoding into the buffer, partial bytes of a failure included, never touches the header |
| Engine.WriteStatus | windrpc/server/templates/windrpc.c:97-113 | the status payload written in place, each unchecked write skipped when it does not fit |
| Engine.SendFlatErrorResponse | windrpc/server/templates/windrpc.c:85-120 | the error frame, or -1 without room for a header |
| Engine.FlatServer.FindFlatHandler | windrpc/server/generator.py:575-581 | the scan returns the first entry with the id |
| Engine.FlatServer.DecodeRequest | windrpc/server/templates/windrpc.c:154-165 | request struct cleared, payload decoded where there is a descriptor and a struct |
| Engine.FlatServer.Handle | windrpc/server/templates/windrpc.c:123-210 | the engine on buffers that may be one and the same: return code, context, length, bytes on the wire, static structs |
| Engine.FlatServer.Finish | windrpc/server/templates/windrpc.c:167-187 | callback, application error, request-only |
| Engine.FlatServer.BuildResponse | windrpc/server/templates/windrpc.c:189-209 | the response frame over whatever the transmit buffer held, or the error frame after a partial encoding |
| Engine.FlatServer.ProcessPacket | windrpc/server/templates/windrpc.c:213-241 | return code and copied bytes are a function of the receive memory, although structs and buffer are static, and of the packet alone when it is covered |
| Engine.Notify | windrpc/server/generator.py:797-824 | the emitted notification function |
| Engine.HandleMemory | windrpc/server/templates/windrpc.c:123-210 | the wire result of one packet, in place or with a separate buffer |
| Engine.BothBufferModes | windrpc/server/templates/windrpc.c:138-209 | in-place handling equals double buffering in code, length and bytes on every path |
| Engine.ServeInPlace | windrpc/server/templates/windrpc.c:123-210 | a session on one buffer, received into and answered from in place over and over, answers each covered packet as if it were the only one |
| Protocol.AnswerShape | windrpc/server/templates/windrpc.c:123-210 | what the server sends for a request carries its sequence number and its rpc id or 0x0000 |
| Completion.ClassifiedAsProducedIff | windrpc/client/python.py:189-209 | the client takes a reply for what the server made it, response or error, if and only if a successful request's rpc id is neither 0 nor marked by bit 7 |
| Completion.UsesClassified | windrpc/server/generator.py:781-785 | of an accepted specification, event ids are classified as notifications, and request ids as responses exactly up to rpc id 127 |
| Identifiers.EventIdHasBit7 | windrpc/server/generator.py:785-785 | every emitted event id is a 16-bit number with bit 7 set |
| Protocol.PushedIsEvent | windrpc/server/generator.py:781-824 | whatever a notification function sends carries bit 7 and sequence number 0 |
| Protocol.EventLeavesRequests | windrpc/client/python.py:196-200 | an event is classified as a notification and changes no request and no entry |
| Protocol.EventSent | windrpc/server/generator.py:797-824 | an event that fits the transmit buffer goes out, and nothing else happens |
| Protocol.EventArrives | windrpc/client/python.py:197-201 | it reaches the Python callback with the identifier and the data it was emitted with, and nothing else happens |
| Protocol.StepGenuine | windrpc/client/python.py:161-262 | every step of client, server and channels keeps each frame under way what its origin says |
| Protocol.StepMatched | windrpc/client/python.py:179-209 | every step with a fresh delivery keeps each completed request matched with its own answer |
| Protocol.EntryOwner | windrpc/client/python.py:203-207 | the entry under an answer's sequence number is the answered request's, or that of one a positive multiple of 65535 sends later |
| Protocol.DeliveryMatchedIff | windrpc/client/python.py:179-209 | exactly when the delivery of an answer, however old, leaves each completed request with its own answer |
| Protocol.Matching | windrpc/client/python.py:179-262 | over every run with answers fewer than 65535 sends old, each completed request holds what the server produced for it, whatever the dispatch table |
| Completion.FreshAnswerCompletes | windrpc/client/python.py:187-207 | a fresh answer completes the waiting request, as an error exactly on 0x0000, and leaves it waiting exactly when bit 7 is set |
| Completion.MarkedAnswerIgnored | windrpc/client/python.py:196-200 | an answer with bit 7, however old, changes no request and no entry |
| Completion.MarkedRequestsGetNoResult | windrpc/client/python.py:196-207 | in no run with fresh deliveries does a request with bit 7 in its rpc id get a result |
| Completion.AllAnswersSettleIff | windrpc/server/generator.py:532-573 | every answer any firmware gives from a generated table can be settled if and only if the ids of answered rpcs are at most 127 |
| Completion.CompletionFromSpec | windrpc/server/generator.py:532-573 | then every fresh answer completes the request that waits for it |
| Completion.MarkedRequestWaits | windrpc/client/python.py:196-200 | a run in which the answer arrives, nothing is under way and the request still waits |
| Completion.AcceptedIdNeverCompletes | windrpc/utils/spec_validator.py:417-422 | that run for an accepted specification |
| Staleness.StaleAnswerMisdelivered | windrpc/client/python.py:161-164 | a run whose last answer is 65535 sends old completes a different request with it |
| Staleness.AgeBoundIff | windrpc/client/python.py:161-164 | for a server that answers some request in kind, all runs with answers from the latest `bound` sends are matched if and only if `bound` is at most 65535 |
| Staleness.MisdeliveryHappens | windrpc/client/python.py:203-207 | a concrete server and run where that happens |
| JsProtocol.MaskedWire | windrpc/client/templates/WindRpcClient.js:95-111 | whatever the server can receive of a built frame is the frame of the masked request |
| JsProtocol.JsStepFaithful | windrpc/client/templates/WindRpcClient.js:77-216 | every step of the JavaScript client, server and channels, sent and hand-built frames alike, keeps each frame under way what its origin says |
| JsProtocol.FreshEntry | windrpc/client/templates/WindRpcClient.js:180-183 | the entry under the identifier of one of the latest 65536 allocations belongs to that allocation |
| JsProtocol.YoungBuildFresh | windrpc/client/templates/WindRpcClient.js:77-80 | a frame built by hand takes no pending identifier while every open promise is fewer than 65536 allocations old |
| JsProtocol.BuiltAnswerIff | windrpc/client/templates/WindRpcClient.js:180-194 | an answer fewer than 65536 allocations old to a hand-built frame leaves all promises alone if and only if its identifier is not pending; a pending one belongs to a promise at least 65536 allocations older |
| JsProtocol.JsStepMatched | windrpc/client/templates/WindRpcClient.js:163-200 | every step within the bounds keeps each settled promise matched |
| JsProtocol.JsEventSent | windrpc/server/generator.py:797-824 | so it does in the system with the JavaScript client |
| JsProtocol.JsEventArrives | windrpc/client/templates/WindRpcClient.js:181-199 | it reaches the JavaScript callback with the identifier and the data it was emitted with, and does nothing else, if and only if identifier 0 is not pending |
| JsProtocol.JsMatching | windrpc/client/templates/WindRpcClient.js:163-216 | over every run with answers fewer than 65536 allocations old, to sent or hand-built frames, no event while identifier 0 is pending and no frame built under a pending identifier, each promise settled by a frame got what the server produced for its request |
| JsProtocol.UnderWay | windrpc/client/templates/WindRpcClient.js:163-168 | an answer under way is what the server produces for the request of its allocation, and carries that identifier |
| JsProtocol.JsAnswerSettles | windrpc/client/templates/WindRpcClient.js:180-194 | a fresh answer settles the pending promise, as an error exactly on 0x0000, bit 7 or not |
| JsStaleness.BuiltAnswerMisdelivered | windrpc/client/templates/WindRpcClient.js:77-93 | a run in which the fresh answer to a hand-built frame resolves the promise of an earlier request for another rpc |
| JsStaleness.LateAnswerMisdelivered | windrpc/client/templates/WindRpcClient.js:180-194 | a run in which an answer 65536 allocations old resolves the promise that took over its identifier |
| JsStaleness.JsAgeBoundIff | windrpc/client/templates/WindRpcClient.js:163-216 | for a server that answers some request in kind, all runs within the bounds are safe if and only if answers are at most the 65536th latest allocation and no frame is built under a pending identifier, or no answer arrives |
| JsStaleness.BuiltMisdeliveryHappens | windrpc/client/templates/WindRpcClient.js:77-93 | a concrete server and run where a hand-built frame does that |
| Spec.CheckUniqueness | windrpc/utils/spec_validator.py:160-171 | reports exactly the positions that repeat an earlier present value, so none exactly when all differ |
| Spec.ValidateRpc | windrpc/utils/spec_validator.py:414-430 | the rpc id and type rules, both directions |
| Spec.ValidateServiceId | windrpc/utils/spec_validator.py:365-376 | the service id rules, both directions |
| Spec.ValidateService | windrpc/utils/spec_validator.py:360-430 | of the id, uniqueness and type rules, all problems inside a service and no others |
| Spec.Validate | windrpc/utils/spec_validator.py:354-430 | accepts exactly when none of the id, uniqueness and type rules is broken |
| Spec.AcceptedIff | windrpc/utils/spec_validator.py:354-430 | acceptance is: some service, distinct names and present ids, ids from 1 to 255, service ids up to 6 for the core service alone, and a known type for every rpc |
| Spec.KindIff | windrpc/utils/spec_validator.py:424-430 | the type of an rpc is read without regard to case, letter by letter, and no other text is a type |
| Identifiers.OrBelowShift | windrpc/utils/spec.py:71-71 | or-ing below a shift is addition, bit by bit |
| Identifiers.IdValues | windrpc/server/generator.py:540-540 | the shifted and or-ed identifiers as numbers |
| Identifiers.CombineSplits | windrpc/utils/spec.py:64-72 | two bytes combine without loss, any other pair is refused |
| Identifiers.IdRange | windrpc/utils/spec_validator.py:365-376 | identifiers of an accepted specification are non-zero 16-bit numbers whose high byte is the service id |
| Identifiers.IdsDistinctIff | windrpc/utils/spec_validator.py:406-422 | request, subscribe and event identifiers are pairwise distinct if and only if no event byte is an rpc id of its service |
| Identifiers.SevenBitIdsDistinct | windrpc/utils/spec_validator.py:406-422 | rpc ids up to 127 suffice |
| Identifiers.ClashIsAccepted | windrpc/utils/spec_validator.py:417-422 | an accepted specification with a clash |
| Identifiers.PyIdMatches | windrpc/client/python.py:37-43 | the Python constant is the server's identifier unless a notification's type is spelled in another case and its id is below 128 |
| Identifiers.LowerCaseDiffers | windrpc/client/python.py:37-43 | an accepted specification with a `notification` in lower case, and the two identifiers |
| Identifiers.OneMoreAccepted | windrpc/utils/spec_validator.py:357-376 | the core services and one flawless user service make an accepted specification |
| Generator.GenerateFlatDispatchTable | windrpc/server/generator.py:517-573 | the emitting loops produce the table of the specification |
| Generator.TableHolds | windrpc/server/generator.py:517-573 | the table holds the core entries, one entry per rpc of every other service, and nothing else |
| Generator.SilentIffRequestOnly | windrpc/server/generator.py:542-562 | an entry of an accepted specification answers unless its rpc is REQUEST_ONLY |
| Generator.TableKeysDistinct | windrpc/server/generator.py:532-573 | the table of an accepted specification has distinct keys |
| Generator.ScanIsLookup | windrpc/server/generator.py:575-581 | the linear scan finds exactly the entry a keyed lookup would, and nothing exactly for ids without an entry |
| Generator.RpcServed | windrpc/server/generator.py:532-573 | for every rpc of an accepted specification outside the core service the engine finds the rpc's own request descriptor, silence exactly for REQUEST_ONLY, and the rpc's own response descriptor unless it is silent |
| Generator.CoreServed | windrpc/server/generator.py:517-531 | the two entries the generator spells out are those of the rpcs of the core specification |
| Generator.OnlyTheseServed | windrpc/server/generator.py:517-581 | no other identifier is found |
| Generator.SettleableIff | windrpc/server/generator.py:532-573 | no answering entry can be taken for an error or an event if and only if the ids of answered rpcs are at most 127 |
| Generator.OnlyCommonBelowSeven | windrpc/utils/spec_validator.py:374-376 | in a merged specification only the core service uses high bytes up to 6 |
| Sizing.BufferIsLeast | windrpc/server/generator.py:898-902 | the buffer size is the least multiple of 64 not below 256 and payload + 64 |
| Sizing.AnnouncedIff | windrpc/server/templates/windrpc.c:228-228 | the announced 16-bit size is the buffer's if and only if the computed payload is at most 65408 |
| Sizing.NothingAnnounced | windrpc/server/templates/windrpc.c:220-228 | for 65409 to 65472 no packet gets a reply, and the code is -1 unless none is wanted |
| Sizing.StackHoldsTwoBuffers | windrpc/server/generator.py:904-907 | the stack size is the least multiple of 256 not below 2048 and two buffers plus 1024 |
| Sizing.AllFramesFitIff | windrpc/server/generator.py:898-902 | the buffer holds every framed payload if and only if it holds the worst case |
| Sizing.SmallPayloadsFit | windrpc/server/generator.py:898-902 | it does up to 14527 bytes |
| Sizing.LastCoveredPayload | windrpc/server/generator.py:898-902 | 30465 is the last payload size it covers |
| Sizing.FirstUncoveredFrame | windrpc/server/generator.py:898-902 | a frame with 14528 payload bytes that does not fit |
| SmartMerge.KeyToken | windrpc/server/generator.py:633-659 | the loops over lines and tokens find the key token of a block, if merging considers it at all |
| SmartMerge.TextFile.WriteSmartMerge | windrpc/server/generator.py:611-678 | the file after merging, new or extended |
| SmartMerge.KeyOccurs | windrpc/server/generator.py:643-659 | the key token of a block occurs in that block |
| SmartMerge.AdditionsExactly | windrpc/server/generator.py:632-664 | a block is added if and only if its key does not occur in the old text |
| SmartMerge.KeepsExisting | windrpc/server/generator.py:666-675 | the old text stays a prefix |
| SmartMerge.KeysPresent | windrpc/server/generator.py:632-675 | every key token of a considered block occurs in the result |
| SmartMerge.UnchangedIff | windrpc/server/generator.py:666-678 | the file is left alone if and only if it mentions every key token |
| SmartMerge.MergeIdempotent | windrpc/server/generator.py:611-678 | merging a skeleton twice is merging it once, also when the first merge created the file |
| SmartMerge.SignatureKey | windrpc/server/generator.py:652-659 | the key of a bare signature is the function's name |
| SmartMerge.BareSignatureMerged | windrpc/server/generator.py:666-675 | a bare signature the file lacks is appended whole under the banner |
| SmartMerge.PlainCommentsKeepKey | windrpc/server/generator.py:642-664 | below comments that do not open with `/**` the first code line decides: the block's key is the name it declares |
| SmartMerge.KeyForms | windrpc/server/generator.py:657-657 | the tokens that count as keys |
| SmartMerge.DeclarationPassedOver | windrpc/server/generator.py:649-650 | one-line blocks that open with `struct `, `K_` or `typedef ` are passed over |
| SmartMerge.SplitJoins | windrpc/server/generator.py:630-647 | splitting loses nothing and leaves no separator in a piece |
| SmartMerge.StripTrims | windrpc/server/generator.py:634-645 | stripping takes white space off both ends, and all of it |
| SmartMerge.TokensOfWords | windrpc/server/generator.py:652-653 | words with single spaces between them are split into just those words |
| SmartMerge.CommentedSkeletonAddsNothing | windrpc/server/generator.py:638-640 | a skeleton of documented or comment-only blocks adds nothing to any existing file |
| Callbacks.EmitBlock | windrpc/server/generator.py:685-752 | appending the lines one by one and a line break gives the block and a blank line |
| Callbacks.GenerateCallbacksSkeleton | windrpc/server/generator.py:681-755 | the emitting loops over services and rpcs produce the skeleton |
| Callbacks.SkeletonDefines | windrpc/server/generator.py:699-752 | the skeleton defines the handler of every rpc of every service but the core one |
| Callbacks.SkeletonSigns | windrpc/server/generator.py:714-745 | the signature of every handler, with the parameters of its kind, stands in the skeleton on a line of its own |
| Callbacks.HandlerShape | windrpc/server/generator.py:717-753 | a handler is a documentation comment, that signature, a mark for every unused parameter, text, and a body that returns 0 |
| Callbacks.CommonLeavesNoTrace | windrpc/server/generator.py:699-702 | the core service contributes nothing to the skeleton |
| Callbacks.HandlerPassedOver | windrpc/server/generator.py:715-752 | each of the three handler forms is one block that merging passes over |
| Callbacks.BannerPassedOver | windrpc/server/generator.py:703-708 | so is the banner of a service |
| Callbacks.CallbacksNeverMerged | windrpc/server/generator.py:681-755 | merging the generated skeleton never changes an existing file, whatever it holds |
| Callbacks.MissingHandlerNotMerged | windrpc/server/generator.py:681-755 | a handler that the file lacks is in the skeleton and not in the merged file |
| Callbacks.MissingHandlerExists | windrpc/server/generator.py:681-755 | an instance with one service and one rpc |

## Left out

- asyncio and the JavaScript event loop: sends, deliveries, cancellations, timeouts and resets are steps in any order;
  exceptions thrown by transport functions and by notification callbacks are not modelled.
- nanopb and protobufjs: encoders, decoders and message types are parameters; of the output stream only the bounded
  write, the varint and the zigzag form are modelled.
- Callbacks that keep a pointer into the receive buffer or write to the buffers behind the engine's back.
- Frames that a Python caller packs with `pack_frame` under a sequence number of its own: the allocator is not involved.
- Received packets of more than 65535 bytes, which the 16-bit length fields of the engine cannot express.
- The decoding of the status payload by the JavaScript client and its logging of ping answers: neither settles anything.
- `_calculate_max_payload_size`: its result is an input of `Sizing`, not claimed to bound real message sizes.
- Spec.Validate: the validator's naming, message, field and enum checks, normalised names and the message-type rules of
  an rpc, none of which bears on identifiers; upper-casing beyond ASCII.
- Spec.ValidateService: the same checks inside a service.
- The resolution of type names to descriptors and C types: these are fields of each rpc.
- `normalize_rpc`: a relabelling of dictionary keys with no bearing on identifiers.
- Text emission other than the callback skeleton (`.proto`, `.options`, helper classes, typedefs, the notification
  skeleton, the tag and index functions), the CLI and path handling.
- The backup file of the skeleton merge and newline translation on reading; the wording of banners, comments and log
  lines in emitted C.
- `windrpc_on_ping` and `windrpc_on_get_device_info`: callbacks, hence parameters; `windrpc_strerror` texts are data.
- The C# client, whose `RpcHandler` and `Cobs` classes are not part of this model, and `tests/test_c_rpc.c`, which
  exercises an older envelope format.
