# Verification of the blocking gRPC-Web bridge

PySpark's Spark Connect client is synchronous; in a browser it runs in a Web Worker that may block but
may not fetch, while the main thread may fetch but not block. This project models the code that joins
the two, and what is built on it, in Dafny 4.11, and proves its correctness properties.

| file | what it models |
|---|---|
| `Bytes.dfy` | byte strings, concatenation, u32 layouts |
| `Marshal.dfy` | requests and response windows as bytes in the shared region; growing the region |
| `Windowing.dfy` | cutting one payload into bounded windows and joining it again |
| `Protocol.dfy` | worker and bridge as a transition system over STATE, the other control words and the region |
| `Invariant.dfy` | the inductive invariant of that system, preserved step by step |
| `Safety.dfy` | isolation, dispatch, region ownership, stale generators, over all runs |
| `Liveness.dfy` | no stuck state, a measure that falls on every step, every call returns |
| `Schedules.dfy` | stretches of runs, from one state to another |
| `Contrast.dfy` | the deadlock that the test for REQ_READY prevents, and when growing the region is safe |
| `Expiry.dfy` | waits that expire: when isolation survives, and when it does not |
| `Feasible.dfy` | a codec, set-ups and runs that meet the hypotheses |
| `Region.dfy` | the accesses to the shared memory and the window loops, on a mutable array |
| `Framing.dfy` | grpc-web frames, whole-buffer and incremental parsing |
| `Trailers.dfy` | the trailer block |
| `GrpcWeb.dfy` | bodies and streams to messages and a status |
| `Arrow.dfy` | reassembly of chunked Arrow batches |
| `EndToEnd.dfy` | messages sent by the server against messages seen by the caller, across all layers |

`dafny verify dfyconfig.toml` checks the whole project.

## How the protocol is modelled

A state holds the control words, the worker's region, the messages posted and not yet delivered, the
program counter and locals of both sides, the set of suspended generators, and three logs: what each
call asked for and was handed, and what fetch was called with. An action is a call by the user, the
resumption or the closing of a suspended generator, one step of the worker, one step of the bridge, the
delivery of a message, or the expiry of a wait. Every access to STATE is a step of its own, and so is
every byte stored in the region. The bridge takes messages only where its code awaits. A generator may be
closed at any point, also in the middle of writing the next request or between two looks at STATE, because a
garbage collector may finalise it there. `world(n, r)` is what the n-th fetch does when it is
given request r; it is any function, so the theorems hold for every server and every network.

The control words are signed 32-bit numbers. The code needs four hypotheses, and the theorems state them:

- no wait of the worker expires (`Modest`); calls may have timeouts. Isolation needs less: it holds as long
  as no call follows an expired wait (`Expiry.IsolationUntilExpiry`), which a caller can see to by making all
  calls but the last without a timeout (`Expiry.UntimedCallsAreSafe`). `Expiry.TimeoutExactlySafe` shows for
  every two calls in a row that the second is safe if and only if the first has no timeout;
- a request either fits the region, or the call is made while the bridge is at rest and no message to it is
  on its way (`Roomy`): otherwise the bridge can look at STATE before it was told of the larger region.
  `Contrast.GrowthExactlySafe` shows that this is the exact condition;
- fewer than 2^31 calls are made and the region stays below 2^31 bytes (`Modest`, `Roomy`), so that no word
  wraps around;
- every meta object encodes to at most `META_ZONE` bytes and the region is larger than `META_ZONE + 4`
  (`ValidConfig`).

`Feasible.dfy` shows that they can be met.

`seesNewRequest` says whether the bridge takes REQ_READY, while it waits for an ack, as the end of its
exchange. The code does. Isolation does not depend on it; freedom from deadlock does
(`Contrast.DeadlockWithoutTheTest`).

## Where code and documentation differ

The model follows the code.

- `_grow_data_sab` is documented as safe only when STATE is IDLE. `_write_request` calls it whatever STATE
  is; with an abandoned stream STATE is still RESP_CHUNK. STATE is not what matters: the bridge has to be at
  rest, and told of everything before (`Contrast.GrowthExactlySafe`).
- `_reset_idle_if_current` is documented to flip STATE back to IDLE on exit. The first wait of `unary` stands
  in front of the block that calls it, so when that wait expires STATE stays REQ_READY.
- `encode_trailers` writes its message verbatim. A line break in the message starts a line of its own, which
  may name a status; `GrpcWeb.EncodedStatus` says exactly when the status survives, and
  `GrpcWeb.StatusOverridden` that an error can become a success.
- A stream that is resumed after a newer request ends without a sign, as if it were complete. Its outcome
  is `Stale` here, and only `Ended` promises all chunks.
- `_raise_for_trailers` describes a missing trailer as an error. A stream without a trailer ends cleanly
  and never reaches it; only bodies of unary calls do.
- `_emitMessage` returns false when the worker abandons a payload between two of its windows. That cannot
  happen unless a wait expires there, which resets STATE to IDLE (`Safety.NoUnexpectedState`). Under the same
  condition a worker is never woken by a STATE it has no branch for, and the branch of `unary` for RESP_END
  is never taken.
- A missing trailer is described as the sign of a cut stream. For a unary call the status may then come from
  the HTTP headers, so a body cut behind its message is accepted when they say 0 (`EndToEnd.CutBodyAccepted`;
  `GrpcWeb.CutReply` has the exact condition).
- The bridge skips empty chunks of a body, so a caller is handed the non-empty chunks of its response.

## Model

| member | source | states |
|---|---|---|
| Safety.CrossRpcIsolation | pyspark_connect_web/worker/sab_channel.py:531-580 | In every run, the g-th call is booked with exactly what the user passed, and what its caller was handed is a prefix of the non-empty chunks fetched for that call; all of them at RESP_END; the whole body, status and headers for a unary call; the response's own error otherwise |
| Safety.EndedStreamIsComplete | pyspark_connect_web/worker/sab_channel.py:542-545 | A stream that ended by itself handed over every byte of its response body |
| Safety.ExactlyOnceDispatch | pyspark_connect_web/worker/bridge.js:187-191 | fetch is called with the requests of generations 1, 2, ..., n in order, each once and unchanged; only the newest may be outstanding |
| Safety.NoLostWakeup | pyspark_connect_web/worker/bridge.js:293-303 | A published request that was not dispatched has a nudge posted, also behind the announcement of a new region, or about to be posted, or the bridge is in its final block, on its way in, or waiting for an ack with nothing left to send, and so about to look at STATE |
| Schedules.PendingIsServed | pyspark_connect_web/worker/bridge.js:187-194 | From each such state with the nudge posted there is a run, without another call, in which exactly that request is dispatched next |
| Schedules.WordsStored | pyspark_connect_web/worker/bridge.js:112-126 | The words the bridge stores in front of STATE: the status of the response, or 0 with an error, and the length of what it stored, 0 at the end |
| Safety.RegionOwnership | pyspark_connect_web/worker/bridge.js:95-126 | While the bridge may read or write the region the worker is parked on the current STATE or posting its nudge; the worker writes only when STATE is IDLE, or RESP_CHUNK with the bridge waiting; the two never overlap, and the bridge never touches a region that was given up |
| Safety.NoUnexpectedState | pyspark_connect_web/worker/sab_channel.py:479-484 | No call ever fails on an unexpected STATE, and a payload of several windows is never abandoned half way |
| Safety.UnexpectedIsReported | pyspark_connect_web/worker/sab_channel.py:479-549 | A STATE the worker has no branch for would fail the call |
| Safety.StaleInert | pyspark_connect_web/worker/sab_channel.py:555-580 | Once a newer request is published, resuming or closing an older generator changes neither STATE nor the region nor any other word, at any later point of any run with fewer than 2^31 calls, expired waits and larger regions included |
| Invariant.InitInv | pyspark_connect_web/worker/bridge.js:60-64 | The initial state satisfies the protocol invariant |
| Invariant.StepInv | pyspark_connect_web/worker/bridge.js:187-304 | Every step of worker, bridge, event loop and user keeps the invariant that ties STATE, both program counters, the region and what the caller has been handed to the response being transferred |
| Invariant.StartAnnounces | pyspark_connect_web/worker/sab_channel.py:361-366 | A call leaves the region alone or replaces it while the bridge is at rest, and its request fits the region it is then written to |
| Invariant.ReadStep | pyspark_connect_web/worker/bridge.js:193-194 | What the bridge reads is exactly the pending request, and the exchange for it begins |
| Invariant.BodyStep | pyspark_connect_web/worker/bridge.js:246-282 | Reading on in the body keeps the handed-over chunks equal to the non-empty chunks before the current one |
| Invariant.WindowSeen | pyspark_connect_web/worker/sab_channel.py:435-449 | A worker woken by RESP_CHUNK decodes exactly the window the bridge meant |
| Invariant.ContextOnce | pyspark_connect_web/worker/bridge.js:141-144 | The status context goes with the first window of the first message of a response, and with no other |
| Invariant.LastStreamWindow | pyspark_connect_web/worker/sab_channel.py:550-554 | After the last window of a chunk exactly that chunk is yielded, and it is the next one of the response |
| Invariant.LastUnaryWindow | pyspark_connect_web/worker/sab_channel.py:517-527 | After the last window of a unary body the call returns the status, headers and whole body of its response |
| Invariant.ImageFits | pyspark_connect_web/worker/bridge.js:112-121 | Whatever the bridge stores for a response fits the region |
| Liveness.DeadlockFreedom | pyspark_connect_web/worker/bridge.js:166-184 | In every state satisfying the invariant with a call in progress, the worker, the bridge or the event loop can take a step; with none in progress or suspended, a closed stream included, the bridge or the event loop can until the bridge is idle and has every message |
| Liveness.BridgeComesToRest | pyspark_connect_web/worker/bridge.js:279-304 | Under every schedule in which no call is made, once the last call has returned or its stream was closed, the bridge becomes idle with every message delivered and STATE is IDLE |
| Liveness.GeneratorsAreLeft | pyspark_connect_web/worker/sab_channel.py:541-580 | A suspended generator can be closed at any time; closing the current one makes STATE IDLE and the bridge gives its exchange up; an older one that is resumed ends without a sign |
| Liveness.BusyBridgeTakesMessages | pyspark_connect_web/worker/bridge.js:311-320 | A bridge that awaits fetch, the body or an ack drops nudges and moves to an announced region, the one announced, also if that was replaced meanwhile |
| Liveness.EveryStepCounts | pyspark_connect_web/worker/sab_channel.py:487-504 | Every step but the start of a new call lowers a lexicographic measure: chunks, bytes, handshake, call set-up, bytes to store, suspended generators, messages, tidying up |
| Liveness.CallReturns | pyspark_connect_web/worker/sab_channel.py:507-567 | Under every schedule a call in progress returns control to its caller |
| Liveness.CallCompletes | pyspark_connect_web/worker/sab_channel.py:531-567 | A call that is neither closed nor superseded ends with everything its response holds, or with the error it failed with |
| Liveness.CallCanContinue | pyspark_connect_web/worker/sab_channel.py:541-565 | Until it is over, a call can be moved on without closing it or making another call |
| Contrast.AbandonedStreamWedges | pyspark_connect_web/worker/bridge.js:168-175 | Without the test for REQ_READY, any other call without a timeout, made while a stream is suspended, leads to a state in which nothing is enabled but the closing of older generators |
| Contrast.WedgedForGood | pyspark_connect_web/worker/bridge.js:168-175 | From such a state the call never gets on, whatever happens |
| Contrast.DeadlockWithoutTheTest | pyspark_connect_web/worker/bridge.js:168-175 | That stuck state is reached from the initial state by two calls that fit, the first a stream whose body is not empty |
| Contrast.GrowthCanBeMissed | pyspark_connect_web/worker/bridge.js:293-303 | From every state between two calls in which the bridge is busy or a message is on its way, for every call that exceeds the region, there is a run in which fetch is called with what the old region decodes to |
| Contrast.GrowthExactlySafe | pyspark_connect_web/worker/sab_channel.py:365-366 | A call whose body exceeds the region is dispatched as itself in all runs that follow if and only if it is made with the bridge at rest and no message on its way |
| Contrast.RegionsInTurn | pyspark_connect_web/worker/bridge.js:311-316 | Of two announcements that arrive one after the other the bridge uses the first region before the second |
| Expiry.IsolationUntilExpiry | pyspark_connect_web/worker/sab_channel.py:487-504 | In every run in which no call follows an expired wait, each call is booked as made and told only of its own response; a call whose wait expired has at most a part of it |
| Expiry.UntimedCallsAreSafe | pyspark_connect_web/worker/sab_channel.py:507-511 | That is so in every run in which all calls but the last are made without a timeout |
| Expiry.AnyWaitCanExpire | pyspark_connect_web/worker/sab_channel.py:487-529 | Every wait of a call with a timeout can expire; STATE stays REQ_READY after the first wait of a unary call and becomes IDLE after every other |
| Expiry.TimeoutCrossesCalls | pyspark_connect_web/worker/sab_channel.py:499-511 | From every state between two calls, for any two calls of either kind that fit the region, the first with a timeout, there is a run in which the second takes what was fetched for the first: its whole body or its first chunk, of any size, its end or its error |
| Expiry.TimeoutExactlySafe | pyspark_connect_web/worker/bridge.js:187-304 | For two calls in a row, where what is fetched for the first could not be true for the second, the second is told only of its own response in all runs if and only if the first has no timeout |
| Expiry.UnaryPair | pyspark_connect_web/worker/sab_channel.py:507-529 | For two unary calls, what is fetched for the first could not be true for the second exactly if they are answered differently |
| Expiry.StreamPair | pyspark_connect_web/worker/sab_channel.py:531-567 | For two streams with bodies, exactly if their first chunks that are not empty differ |
| Feasible.CodecIsValid | pyspark_connect_web/worker/sab_channel.py:352-359 | There is a codec of headers and metas to byte strings that decodes what it encoded |
| Feasible.ConfigExists | pyspark_connect_web/worker/bridge.js:59-69 | For every legal size of the region, all response bodies and either kind of bridge there is a set-up that meets the hypotheses |
| Feasible.FirstCallCanReturn | pyspark_connect_web/worker/sab_channel.py:507-529 | In every such set-up any unary call that fits has a run within the hypotheses that ends it with the outcome its response calls for |
| Marshal.RequestRoundTrip | pyspark_connect_web/worker/bridge.js:95-109 | A stored request reads back unchanged, whatever lies behind it in the region |
| Marshal.RequestImageInjective | pyspark_connect_web/worker/sab_channel.py:368-372 | Different requests have different images |
| Marshal.WindowRoundTrip | pyspark_connect_web/worker/sab_channel.py:435-449 | A stored window reads back as its meta and its payload |
| Marshal.ErrorMetaRoundTrip | pyspark_connect_web/worker/sab_channel.py:583-602 | The error detail the bridge stored is what the worker maps to an exception |
| Marshal.NoMeta | pyspark_connect_web/worker/sab_channel.py:435-449 | A region without a meta reads as the empty meta, with no further window to come |
| Marshal.SliceExact | pyspark_connect_web/worker/bridge.js:99-107 | A slice holds the elements between its ends, as far as the array goes, and counts a negative end from behind |
| Marshal.PastTheEnd | pyspark_connect_web/worker/bridge.js:77-85 | What is read behind the end of a region is zero |
| Marshal.GrownIsLeast | pyspark_connect_web/worker/sab_channel.py:405-412 | The grown capacity is the first one in the doubling sequence that is large enough |
| Windowing.WindowsJoin | pyspark_connect_web/worker/sab_channel.py:451-484 | For every payload and capacity, joining the windows gives the payload back, under the first window's meta |
| Windowing.WindowsShape | pyspark_connect_web/worker/bridge.js:132-152 | There are max(1, ceil(total / capacity)) windows; `more` is set on all but the last, the context is carried by the first only, and every window but the last is full |
| Windowing.WindowFits | pyspark_connect_web/worker/bridge.js:71-74 | A window with a meta of at most META_ZONE bytes fits the region |
| Protocol.CapacityIsLargest | pyspark_connect_web/worker/bridge.js:71-74 | The payload of a window is the largest for which there is room behind a meta of any admissible size |
| Region.Shared.PutU32 | pyspark_connect_web/worker/sab_channel.py:414-419 | Stores a u32 with its least significant byte first and leaves the rest of the region alone |
| Region.Shared.U32At | pyspark_connect_web/worker/sab_channel.py:421-428 | Reads the number whose least significant byte comes first |
| Region.Shared.PutBytes | pyspark_connect_web/worker/sab_channel.py:430-432 | Stores a byte string and leaves the rest of the region alone |
| Region.Shared.Grow | pyspark_connect_web/worker/sab_channel.py:405-412 | The doubling loop ends with the least sufficient capacity; the words stay |
| Region.Shared.WriteRequest | pyspark_connect_web/worker/sab_channel.py:349-378 | The region starts with the request's image, is replaced only if too small, and the words, cut to 32 bits, publish the request |
| Region.Shared.ReadRequest | pyspark_connect_web/worker/bridge.js:95-109 | Reads the request the region holds |
| Region.Shared.WriteWindow | pyspark_connect_web/worker/bridge.js:112-126 | Publishes a window exactly if it fits; otherwise no word changes |
| Region.Shared.ReadWindow | pyspark_connect_web/worker/sab_channel.py:435-449 | Reads the window the region and the LENGTH word hold |
| Region.SendRequest | pyspark_connect_web/worker/sab_channel.py:349-378 | A request crosses the region unchanged even when the region had to grow, and the capacity never shrinks |
| Region.EmitMessage | pyspark_connect_web/worker/bridge.js:132-152 | The emit loop publishes exactly the images of the payload's windows, in order |
| Region.ReassembleWindows | pyspark_connect_web/worker/sab_channel.py:451-484 | The reassembly loop joins the decoded windows up to the first one without `more` |
| Region.Transfer | pyspark_connect_web/worker/bridge.js:128-152 | Emitting and reassembling is the identity on payload, context and status |
| Framing.EncodeMessage | pyspark_connect_web/transport/framing.py:50-58 | An encoded message is the low byte of the flags, the length of the payload with its most significant byte first, and the payload; a payload of 2^32 bytes or more is refused |
| Framing.FrameOnTheWire | pyspark_connect_web/transport/framing.py:31-58 | A byte string has that form for a frame if and only if it is the encoding of the frame |
| Framing.FrontOnTheWire | pyspark_connect_web/transport/framing.py:73-86 | A buffer begins with a frame exactly if some part of it from its start has that form, and there is one such part |
| Framing.FlagBits | pyspark_connect_web/transport/framing.py:41-47 | Bit 0 of the flags marks a compressed frame and bit 7 a trailer, whatever the other bits are |
| Framing.ParseEncoded | pyspark_connect_web/transport/framing.py:61-87 | Encoded frames parse back to exactly those frames |
| Framing.EncodeParsed | pyspark_connect_web/transport/framing.py:61-87 | Re-encoding what was parsed rebuilds the buffer byte for byte |
| Framing.ParseUnique | pyspark_connect_web/transport/framing.py:61-87 | A buffer is the encoding of a frame list with an incomplete rest if and only if it parses to them |
| Framing.ParseMore | pyspark_connect_web/transport/grpcweb.py:408-418 | Parsing a buffer and then more bytes is parsing what was left of it with the bytes behind |
| Framing.IterFrames | pyspark_connect_web/transport/framing.py:61-87 | Yields the complete frames, each of which stands in the buffer in wire form, and reports a cut header or body |
| Framing.ByteBuffer.TakeFrame | pyspark_connect_web/transport/grpcweb.py:467-487 | Removes exactly the first part of the buffer that has the wire form of a frame, or leaves the buffer alone if there is none |
| Framing.EncodeRequests | pyspark_connect_web/transport/grpcweb.py:333-336 | The body is one frame per request in order; None exactly if one is too large |
| Framing.RequestBodyRoundTrip | pyspark_connect_web/transport/grpcweb.py:317-336 | Such a body decodes back to the request list |
| Framing.CutFrames | pyspark_connect_web/transport/framing.py:73-85 | A cut sequence of frames yields exactly the frames that lie before the cut |
| Trailers.TrailerRoundTrip | pyspark_connect_web/transport/framing.py:90-120 | For every status and message, parsing an encoded trailer gives back status and message if and only if the message is one line without white space at its ends |
| Trailers.LastStatusWins | pyspark_connect_web/transport/framing.py:112-120 | Further lines leave the status as it was exactly when the last of them to name one repeats it |
| Trailers.ParseTrailers | pyspark_connect_web/transport/framing.py:105-120 | The loop computes the line by line reading of the block, which `Trailers.BlockRead` describes |
| Trailers.BlockRead | pyspark_connect_web/transport/framing.py:112-120 | Parsing a block of headers gives exactly those headers, with names in lower case and no white space around names and values, a later one in place of an earlier one, for CR LF and bare LF, without blank lines and lines that have no colon |
| Trailers.FieldRead | pyspark_connect_web/transport/framing.py:115-119 | A line with white space around the name and the value adds exactly the lower-cased name with the value |
| Trailers.StripExact | pyspark_connect_web/transport/framing.py:115-119 | Stripping removes all white space at both ends and nothing else |
| Trailers.SpaceCharacters | pyspark_connect_web/transport/framing.py:115-119 | The characters that count as white space |
| Trailers.LowerExact | pyspark_connect_web/transport/framing.py:119 | Lower-casing turns A to Z into a to z and leaves the other characters alone |
| Trailers.EncodeTrailers | pyspark_connect_web/transport/framing.py:90-102 | The frame is an uncompressed trailer |
| Trailers.EncodedText | pyspark_connect_web/transport/framing.py:98-101 | The text of an encoded trailer, to the letter |
| Trailers.IntTextRead | pyspark_connect_web/transport/framing.py:98 | The status is written in decimal, without leading zeros |
| Trailers.LinesRoundTrip | pyspark_connect_web/transport/framing.py:101-114 | Lines without a break come apart as they were put together |
| Trailers.ValuesAreClean | pyspark_connect_web/transport/framing.py:114-120 | Every parsed value is one line without white space at its ends |
| GrpcWeb.StreamResponses | pyspark_connect_web/transport/grpcweb.py:370-449 | For every cutting of the bytes into chunks the yielded messages and the outcome are those of one pass over all bytes, and the buffer ends as the unparsed suffix |
| GrpcWeb.DecodeBody | pyspark_connect_web/transport/grpcweb.py:352-368 | A body decodes to its messages and last trailer; a compressed frame is noticed before a cut behind it |
| GrpcWeb.CompressedIsReported | pyspark_connect_web/transport/grpcweb.py:359-363 | The first frame with bit 0 set makes a body, a unary reply and a stream end as compressed, whatever comes behind it |
| GrpcWeb.TakenFor | pyspark_connect_web/transport/grpcweb.py:423-427 | A frame without bit 0 is a trailer if bit 7 is set and otherwise a message, which the class may reject |
| GrpcWeb.CompleteResponse | pyspark_connect_web/transport/grpcweb.py:443-449 | A whole response yields every message and then ends cleanly exactly when its trailer reports status 0, and otherwise with the status and message of the trailer, or with the complaint that it names none |
| GrpcWeb.CutResponse | pyspark_connect_web/transport/grpcweb.py:385-398 | A response cut anywhere yields exactly the messages that arrived whole, has no trailer, and ends cleanly, or as unavailable if the transport broke |
| GrpcWeb.BodyAndStreamAgree | pyspark_connect_web/transport/grpcweb.py:352-449 | On every byte string the whole-body decoder and the stream agree on compression, messages, trailer and status; a cut body, refused by the one, is for the other the body before the cut, and only a missing trailer is judged differently |
| GrpcWeb.WholeReply | pyspark_connect_web/transport/grpcweb.py:287-302 | A whole response to a unary call gives its first message exactly if its trailer says status 0, whatever the HTTP headers say; it is refused with the trailer's status and message, or because it names no status, has no message or one that does not decode |
| GrpcWeb.CutReply | pyspark_connect_web/transport/grpcweb.py:287-302 | A cut response gives its first message exactly if it was cut behind a message, with no partial frame, and the HTTP headers say status 0; otherwise it is refused for the cut header or body, for the missing trailer, or with the status and message of the HTTP headers |
| GrpcWeb.StatusHeader | pyspark_connect_web/transport/grpcweb.py:452-464 | A status header is seen in whichever case its name is written, and only such a header is taken for it |
| GrpcWeb.EncodedReply | pyspark_connect_web/transport/grpcweb.py:294 | An encoded error comes back as that error, with its status and message |
| GrpcWeb.EncodedStatus | pyspark_connect_web/transport/grpcweb.py:123-153 | For every message, an encoded status is reported as it was encoded, 0 as success, if and only if the last later line of the message that names grpc-status, if any, repeats it; with a clean message the error carries it too |
| GrpcWeb.StatusOverridden | pyspark_connect_web/transport/framing.py:98-102 | A second line in the message can turn any status into any other |
| Arrow.Reassemble | pyspark_connect_web/arrow/results.py:79-154 | The loop computes the result of the step-by-step assembly, faults included |
| Arrow.BytesConserved | pyspark_connect_web/arrow/results.py:91-127 | At every point the decoded buffers followed by the pending chunks are the data of all Arrow responses seen, in order |
| Arrow.OthersChangeNothing | pyspark_connect_web/arrow/results.py:91-93 | Inserting or dropping other responses changes nothing |
| Arrow.ExactAcceptance | pyspark_connect_web/arrow/results.py:91-154 | A stream is accepted with a result if and only if its chunks fall into groups that are complete by their indices and counts, start at the row they name, decode, declare no or their own number of rows, and give that result |
| Arrow.OneBatch | pyspark_connect_web/arrow/results.py:97-145 | A complete batch is refused for a wrong start offset, for not decoding, or for declaring a non-zero number of rows that is not its own, and otherwise adds its batches, its rows and the first schema |
| Arrow.WrongIndex | pyspark_connect_web/arrow/results.py:97-109 | A chunk with a wrong index is refused, at the start of a batch and inside it |
| Arrow.TotalRowsExact | pyspark_connect_web/arrow/results.py:130-137 | Every decoded batch adds its own number of rows |
| Arrow.GroupingUnique | pyspark_connect_web/arrow/results.py:120-123 | There is at most one such grouping |
| Arrow.SplitInvariance | pyspark_connect_web/arrow/results.py:97-136 | However batches are split into chunks, the result, or the fault, is the same as for whole batches |
| Arrow.StopInsideBatch | pyspark_connect_web/arrow/results.py:147-152 | A stream that stops inside a batch is refused |
| Arrow.CutStream | pyspark_connect_web/arrow/results.py:91-154 | Any part of a good stream from its start gives exactly the batches that are complete in it, or is refused as truncated if it stops inside one |
| EndToEnd.StreamNeverFabricates | pyspark_connect_web/transport/grpcweb.py:403-449 | In every run, for a response cut anywhere or whole, what a stream's caller decodes are exactly the messages of its own response that lie before the last byte handed over; the stub ends as unavailable after a failure, and otherwise, a stale stream included, cleanly if the whole trailer was not handed over or says status 0, and else with the error the trailer names |
| EndToEnd.StreamDelivered | pyspark_connect_web/transport/grpcweb.py:403-449 | Under every schedule a stream that is neither closed nor superseded ends as its response did, and its caller has exactly the messages that arrived, all that were sent if the response was whole |
| EndToEnd.BatchesNeverFabricated | pyspark_connect_web/arrow/results.py:91-154 | In every run, what a stream's caller was handed reassembles to the first batches of its own query result, those complete in it, or is refused as truncated inside a batch |
| EndToEnd.BatchesDelivered | pyspark_connect_web/arrow/results.py:91-154 | Under every schedule the batches of a whole response come out as they were sent |
| EndToEnd.UnaryDelivered | pyspark_connect_web/transport/grpcweb.py:287-302 | A unary call that returns has the status, headers and body of its own response; its caller gets the message sent exactly if the response was whole and its trailer says 0, or it was cut behind a message and the HTTP headers say 0, and otherwise the reason for the refusal |
| EndToEnd.CutBodyAccepted | pyspark_connect_web/transport/grpcweb.py:452-464 | A body cut behind its first message is accepted when the HTTP headers say status 0 |

## Left out

- Expired waits and the AbortController timer: what a call made after an expired wait is told is outside the guarantees, which fail there (see `Expiry.TimeoutExactlySafe`); what an aborted fetch reports is part of `world`.
- Growing the region while the bridge is busy or a message is on its way: outside the guarantees, which fail there (see `Contrast.GrowthExactlySafe`).
- Runs of 2^31 calls and regions of 2^31 bytes or more: outside the guarantees; the words then no longer hold the generation and the length.
- Atomics.wait, Atomics.notify and Atomics.waitAsync: modelled by their meaning, a side that waits can move once STATE has changed; setTimeout polling has the same meaning.
- The order of the SEQ and CAP words: nobody reads them; LENGTH and STATUS are stored in one step before STATE.
- Metas larger than META_ZONE and a bridge without buffers: the error paths for them are not in the transition system; `Region.Shared.WriteWindow` has the range error.
- JSON, UTF-8 and protobuf: injective encodings given as parameters; a malformed header or meta does not occur.
- The Arrow IPC decoder: a parameter, any partial function from bytes to a schema and batches with row counts; pandas conversion and time zones are not modelled.
- Lower-casing of non-ASCII trailer keys: only ASCII letters are folded.
- Metadata merging, exception classes, URL handling, monkey-patching of PySpark, service worker, kernel and site glue: input, output and deployment.
- PySpark's retry and reattach logic: not part of the repository; `GrpcWeb.Outcome` is what it is handed.
