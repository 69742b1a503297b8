# Vynkor Python SDK: a verified model of the wire stack and its two protocols

The SDK talks to the Vynkor kernel over one byte stream. This project models the four stateful parts of it and proves
what they guarantee together.

* **Frame codec** (`vynkor/framing.py`): `Framing.dfy` has the header layout, the encoder (MAC over the plaintext,
  then compression, then CRC over the wire bytes) and the decoder; `Readers.dfy` has the three readers as methods on a
  stream with a cursor; `FramingLaws.dfy` proves that the decoder accepts exactly the frames of a declarative layout,
  that packed frames are self-delimiting, and that every cut-off frame is refused. `Hkdf.dfy` is the key derivation.
* **Fragmentation and reassembly** (`vynkor/client.py`): `Splitter.dfy` cuts payloads and numbers streams;
  `Reassembly.dfy` and `ReassemblyRuns.dfy` describe what fragments and prunes do to the open sets, over whole runs;
  `Delivery.dfy` covers fragments in any order, repeated, amid any other traffic; `Client.dfy` holds the client and its
  reassembly buffers as objects updated in place; `Pipe.dfy` and `Exchange.dfy` compose all of it into one end-to-end
  theorem, `Interleaving.dfy` proves it for calls that overlap, and `WebSocket.dfy` carries receiving over to the other
  transport.
* **Confirmation gate** (`vynkor/confirmation_gate.py`): `Gate.dfy` is the gate object, `PendingIds.dfy` its id format,
  `GateRuns.dfy` its behaviour over whole traces, `GateTasks.dfy` any number of interleaved `route` tasks, and
  `GateExpiry.dfy` lazy expiry among them.
* **Message loop** (`vynkor/concurrent.py`): `Loop.dfy` is the loop task, its handler tasks and the queue between them
  as a system of steps (a step is what runs between two awaits), `LoopLedger.dfy` what holds of every run of it,
  `LoopExit.dfy` what its end leaves behind, and `LoopTasks.dfy` the loop as an object whose methods take those steps.

CRC32, HMAC-SHA256, zstd and `json.loads` are parameters. All that is used of them is that a checksum has 32 bits and
a tag 32 bytes, and, where a theorem says `Lossless`, that decompressing what was compressed gives it back. Clock
readings are parameters too, one per place where the code reads a clock. Byte strings are sequences of numbers below
256, and header fields have the widths of `struct`.

In the step systems, ghost history (what was put, what left the queue, which ids were issued, taken or expired, which
executor calls were made) is kept beside the state the code has, and the theorems are about that history.

## What the code does that its documentation does not say

* `on_action` promises that no reply is dropped (`vynkor/concurrent.py:137-139`). It fails in two ways. When the receive
  and the queue get finish in the same wait, the receive branch never looks at the queue item, and that reply is gone
  (`vynkor/concurrent.py:238-249`). And when the loop leaves on a shutdown or a disconnect while a handler is still
  running, that handler's reply goes into a queue nobody reads (`vynkor/concurrent.py:249-289`). `ReplyCanBeLost` and
  `ReplyCanBeStranded` are complete runs in which each happens. `ExitedRuns` says that a reply goes out unless one of
  the two happened to it or it has still to be put, and `LeavingIsSafeExactly` that all replies are out and stay so on
  every continuation if and only if there was no such wait and every handler had finished when the loop left.
* A caller may pass any flags to `pack_frame`. `COMPRESSED`, or `MAC_PRESENT` without a key, is misread at the other
  end; `RoundTripExactly` gives the exact condition, and `UnkeyedMacFlagEatsTheNextFrame` what the second one does. A raw
  send with FRAGMENTED is taken for a fragment; `SendReceivedExactly` gives the exact condition for whole calls.
* Stale fragment sets are dropped before the blocking read (`vynkor/client.py:393-398`), so a set can be older than 30
  seconds when its last fragment arrives and still complete (`StaleSetCompletes`). What holds is that all sets are younger
  right after the prune (`PruneKeepsInv`); `PruneDecides` says which prunes stop a delivery.
* The executor of a confirmed operation may return an error string according to `route`
  (`vynkor/confirmation_gate.py:304-307`); the code hands a returned `str` to `bytes()`, so the reply is the text of
  the resulting TypeError (`vynkor/confirmation_gate.py:357-359`). `OwnErrorReaches` says for which endings the reply
  carries the executor's own text.
* An allowlist entry `phone-1.*` also admits the caller `phone-1.`, with nothing after the dot
  (`vynkor/confirmation_gate.py:368-373`); `GlobCovers` states the exact set.

## Model

| member | source | states |
|---|---|---|
| `Exchange.Converse` | vynkor/client.py:332-404 | Two client objects on one byte stream: for any mix of fragmented sends and raw ones that leave FRAGMENTED, COMPRESSED and unkeyed MAC_PRESENT to the transport, accepted or refused, as many receives as accepted sends return exactly the frames meant, in order, as long as no prune finds the set of the call being received 30 seconds old |
| `Exchange.CallAll` | vynkor/client.py:332-383 | What a sequence of calls writes is the wire form of those calls, each fragmented one on the next stream id; over WebSocket raw ones go out uncompressed and fragmented ones are refused |
| `Exchange.ReceiveAll` | vynkor/client.py:387-404 | n receives on the object, on either transport, return, and leave behind, what n receives of the specification do |
| `Pipe.EndToEnd` | vynkor/client.py:332-404 | For any sequence of calls under one shared optional key (raw ones leaving FRAGMENTED, COMPRESSED and unkeyed MAC_PRESENT to the transport), however long it lasts, as long as no prune finds the set of the call being received 30 seconds old, the receives return the logical frames sent in order, and leave no bytes and no open set |
| `Pipe.SendReceivedExactly` | vynkor/client.py:332-404 | An accepted call arrives as the frame it meant, in as many turns as it has frames and with nothing left over, if and only if a raw one leaves FRAGMENTED, COMPRESSED and unkeyed MAC_PRESENT to the transport and, for a fragmented one, no prune between its fragments finds its set 30 seconds old |
| `Pipe.AcceptedExactly` | vynkor/client.py:340-374 | Which calls are accepted: raw ones by payload size and 16-bit flags, fragmented ones by payload size, chunk size and 65,535 chunks |
| `Pipe.FirstFrameDecides` | vynkor/client.py:392-404 | A refused frame ends the receive with its error, a whole one with that frame, and either way only stale sets are gone; a fragment goes to its set |
| `Pipe.RawsAreTimely` | vynkor/client.py:393-404 | Raw sends meet the time condition on every clock |
| `Interleaving.InterleavedSends` | vynkor/client.py:357-404 | However the awaits of any number of raw and fragmented sends fall, with at most 64 fragmented ones under way at a time, and as long as no prune finds a set then open 30 seconds old, the receives return exactly the frames meant, each payload by its last fragment, and leave no bytes and no open set |
| `Interleaving.InterleavedPipe` | vynkor/client.py:123-404 | For the first 2^32 - 1 fragmented calls of a new client and any number of raw ones, room for the calls under way and young sets at the prunes are all that takes |
| `Interleaving.IdsNeverCollide` | vynkor/client.py:376-378 | Within 2^32 - 1 fragmented calls none starts on the stream id of one still under way |
| `Interleaving.AloneWrites` | vynkor/client.py:376-383 | A fragmented send that nothing interrupts writes, await by await, what the call on the client object writes |
| `WebSocket.WebSocketPipe` | vynkor/client.py:406-422 | Over a WebSocket the receives return the raw frames posted, compressed or not, in order; text messages and bytes behind a frame make no difference |
| `WebSocket.WebSocketLikeStream` | vynkor/client.py:387-422 | Any number of receives on messages that carry legal frames, compressed, tagged, fragmented or raw, among text and with anything behind the frames, return what they return on the byte stream of those frames, and leave the same sets; only the end of the input is reported differently |
| `WebSocket.FirstMessageDecides` | vynkor/client.py:392-422 | The same of the first binary message over a WebSocket |
| `Pipe.FragmentsReceived` | vynkor/client.py:387-404 | Receiving the rest of a transfer from its k-th fragment on, with its set young at the prunes in between, ends with the joined chunks, no set, and the bytes behind it untouched, after exactly the remaining number of turns |
| `Pipe.RecvKeepsInv` | vynkor/client.py:387-404 | Whatever bytes arrive, a receive keeps every reassembly bound, never raises for a missing fragment, and delivers at most 1 MiB with FRAGMENTED cleared |
| `WebSocket.WsRecvKeepsInv` | vynkor/client.py:387-422 | The same over a WebSocket, whatever messages arrive |
| `FramingLaws.ParserExact` | vynkor/framing.py:176-255 | The decoder accepts a byte string with a result and a length exactly when that prefix is the serialization of a wire frame that legally carries the result; accepted payloads are at most 1,048,576 bytes |
| `FramingLaws.ParsedLayout` | vynkor/framing.py:187-216 | Soundness: an accepted prefix has the declared layout (magic, length bound, CRC of the wire bytes, bounded decompression, tag over the rebuilt plaintext header) |
| `FramingLaws.ParseSerialized` | vynkor/framing.py:187-216 | Completeness: whatever legally carries a frame is read as it, with any bytes behind it left alone |
| `FramingLaws.KeyedAcceptance` | vynkor/framing.py:206-215 | On a keyed connection an accepted frame has MAC_PRESENT, and its last 32 bytes are the HMAC of the whole frame as it would lie on the wire uncompressed; for an uncompressed frame, of every byte before them |
| `FramingLaws.KeyedReading` | vynkor/framing.py:206-215 | A key changes reading in one way: a frame that would be accepted without it needs a tag, and the tag must be the HMAC of the frame uncompressed; the two failures are told apart |
| `FramingLaws.Refusals` | vynkor/framing.py:191-204 | Which bytes are refused and why, read off the bytes: magic, length, missing payload, CRC of the wire bytes, failed or oversized decompression, in this order |
| `FramingLaws.PackedTag` | vynkor/framing.py:146-173 | The last 32 bytes of a keyed packed frame are the HMAC of every byte before them when it is not compressed, and compressing changes nothing about the tag |
| `FramingLaws.PackedBytes` | vynkor/framing.py:141-173 | A packed frame byte by byte: 0x56 0x52, flags word, length, target and CRC big-endian, then the payload, or its compressed form exactly when that is allowed, at least 65,536 bytes are at stake and it is shorter |
| `FramingLaws.SelfDelimiting` | vynkor/framing.py:125-184 | Reading a packed frame followed by anything gives back payload and flags (MAC_PRESENT added if keyed) and stops at the end of the frame |
| `FramingLaws.RoundTripExactly` | vynkor/framing.py:125-184 | The round trip holds if and only if the payload is within the limit and the flags are 16 bits, without COMPRESSED, and without MAC_PRESENT when there is no key |
| `FramingLaws.UnkeyedMacFlagEatsTheNextFrame` | vynkor/framing.py:143-151 | MAC_PRESENT without a key, on any payload, makes the reader take the next 32 bytes of the stream as a tag, or fail as truncated if there are fewer |
| `FramingLaws.StrictPrefixTruncated` | vynkor/framing.py:191-211 | Every strict prefix of a legal frame is refused as truncated in the part where it stops, and is used up |
| `Framing.TargetBytes` | vynkor/framing.py:100-101 | Byte by byte: the name cut at 32 bytes, zeros behind it |
| `Framing.UnpackPackHeader` | vynkor/framing.py:20-21 | The 44-byte header unpacks to the fields it was packed from |
| `Framing.PackUnpackHeader` | vynkor/framing.py:20-21 | Any 44 bytes are the packing of what they unpack to: no two headers share their bytes |
| `Framing.ParsePackedFragHeader` | vynkor/framing.py:41-49 | A packed fragment header parses back whatever chunk follows it, and the chunk is found behind it |
| `Framing.FragHeaderBytes` | vynkor/framing.py:37-42 | The ten bytes are fragment id, sequence, total and stream id, big-endian, in this order |
| `Framing.WordBits` | vynkor/framing.py:23-26 | Which bit of the flags word each flag is |
| `Readers.ReadFrame` | vynkor/framing.py:187-216 | The synchronous reader returns the payload the decoder finds ahead of the cursor, or its error, and moves the cursor as far as the decoder reads |
| `Readers.ReadFrameFromBytes` | vynkor/framing.py:219-255 | The blob reader returns flags and payload of the first frame; trailing bytes make no difference |
| `Readers.AsyncReadFrame` | vynkor/framing.py:258-296 | The stream reader, byte first and rest after, agrees with the synchronous one except that short reads are its own error |
| `Hkdf.HkdfExpand` | vynkor/framing.py:60-72 | The loop returns the first L bytes of T(1) T(2) ... of RFC 5869 section 2.3, and fails exactly when more than 255 blocks are asked for |
| `Hkdf.OkmPrefix` | vynkor/framing.py:60-72 | A shorter output is a prefix of a longer one |
| `Hkdf.OkmChain` | vynkor/framing.py:64-71 | Each 32-byte block of the output is the HMAC of the block before it, the info and its own number |
| `Hkdf.DeriveSessionKey` | vynkor/framing.py:75-79 | The session key is one HMAC block over the context string, keyed by the HMAC of the secret under the nonce |
| `Splitter.Ceiling` | vynkor/client.py:372 | The negated floor division is the ceiling: so many chunks cover the payload and one fewer do not |
| `Splitter.Partition` | vynkor/client.py:372-381 | The slices join to the payload, all but the last are full, none is oversized, and only the empty payload has an empty slice |
| `Splitter.CutIsValid` | vynkor/client.py:366-382 | An accepted call makes a transfer whose headers fit their fields and whose fragments fit in frames |
| `Splitter.FragmentParses` | vynkor/client.py:378-383 | Every fragment parses back to its header and chunk |
| `Splitter.FragmentBytes` | vynkor/client.py:378-383 | The bytes of a fragment: low half of the stream id, its number, the total, the stream id, and its chunk |
| `Splitter.StreamIdsDistinct` | vynkor/client.py:376-378 | Stream ids are never 0, and two calls share one exactly when a multiple of 2^32 - 1 calls lies between them |
| `Client.VynkorClient.SendRawWithFlags` | vynkor/client.py:332-355 | Writes one packed frame, uncompressed over WebSocket, or nothing and the error |
| `Client.VynkorClient.SendFragmented` | vynkor/client.py:357-383 | Off the WebSocket a call is accepted if and only if the payload is at most 1,048,576 bytes, the chunk size positive and with its header within that limit, and 65,535 chunks are enough; a refused call writes nothing and uses no stream id; an accepted one writes every fragment of the payload in order on the current id and moves on to the next |
| `Client.VynkorClient.PruneReassembly` | vynkor/client.py:443-452 | The deletion loop leaves exactly the sets younger than 30 seconds |
| `Client.ReassemblyBuf.Buffer` | vynkor/client.py:475-487 | Buffering one chunk in place, with the incremental byte count and the completeness test, is the specified write |
| `Client.ReassemblyBuf.Join` | vynkor/client.py:95-96 | Concatenates the fragments in sequence order, or reports a missing one |
| `Client.VynkorClient.FindOrOpen` | vynkor/client.py:464-473 | The set of the stream is found, opened, dropped on a total mismatch, or refused by the cap of 64 |
| `Client.VynkorClient.AbsorbFragment` | vynkor/client.py:454-487 | The nested objects change exactly as the value-level machine says, for its every return and raise |
| `Client.VynkorClient.RecvFrame` | vynkor/client.py:387-404 | On either transport the receive loop ends with the result, the sets and the unread input of the specification |
| `Client.VynkorClient.WsRecvFrame` | vynkor/client.py:406-422 | Skips text messages, reads the first binary one as a frame, and reports the close |
| `Reassembly.Pigeonhole` | vynkor/client.py:92-96 | A set of sequence numbers below the total has as many elements as the total exactly when it has all of them |
| `Reassembly.PruneKeepsInv` | vynkor/client.py:443-452 | Pruning keeps the bounds, and what is left is exactly what is younger than 30 seconds |
| `Reassembly.AbsorbKeepsInv` | vynkor/client.py:454-487 | After every return and every raise: at most 64 sets, keys below the total, fewer than total fragments, byte count exact and at most 1 MiB; a set judged complete misses no fragment; deliveries are within 1 MiB with FRAGMENTED and MAC_PRESENT cleared |
| `Reassembly.MemoryBound` | vynkor/client.py:77-79 | All open sets together hold at most 64 MiB |
| `ReassemblyRuns.RunKeepsInv` | vynkor/client.py:443-487 | The bounds hold on every run of fragments and prunes |
| `ReassemblyRuns.RunRefines` | vynkor/client.py:464-487 | History refinement: on every run, consistent or not, the map with its counters answers like the reference that replays everything written to each set since it was opened, last write winning, with the opening fragment's flags less FRAGMENTED and MAC_PRESENT |
| `ReassemblyRuns.ChunkElsewhere` | vynkor/client.py:464-487 | A fragment of one stream, whatever error it raises, leaves the set of every other stream as it was |
| `ReassemblyRuns.NonInterference` | vynkor/client.py:443-487 | A stream sees the outcomes of the run over its own fragments and the same prunes exactly when the cap refuses none of them, and then its set is the same too |
| `ReassemblyRuns.CapUnreached` | vynkor/client.py:464-473 | A run whose open sets and named streams number at most 64 together never meets the cap, whatever its order |
| `ReassemblyRuns.EveryStreamAlone` | vynkor/client.py:443-487 | In such a run every stream sees the outcomes, and ends with the set, of the run over its own fragments |
| `Delivery.PartialDelivery` | vynkor/client.py:454-487 | While a sequence number is missing every fragment returns None, and the set holds exactly what came |
| `Delivery.CompleteDelivery` | vynkor/client.py:454-487 | In any order and with any repetitions, the last missing fragment returns the original payload with the opening fragment's flags less FRAGMENTED and MAC_PRESENT, every other flag kept, and nothing is left |
| `Delivery.InterleavedDelivery` | vynkor/client.py:443-487 | The same amid arbitrary other traffic, as long as the cap refuses none of its fragments |
| `Delivery.DeliveryWithinCap` | vynkor/client.py:443-487 | In particular amid any traffic that names, with the sets already open, at most 64 streams |
| `Delivery.PruneDecides` | vynkor/client.py:393-404 | A prune before the last fragment lets the payload through if and only if the set is then younger than 30 seconds; how late the last fragment comes after it makes no difference |
| `Delivery.StaleSetCompletes` | vynkor/client.py:393-404 | With the receive loop's prune before each of two fragments, the second made while it waits, a set completes 30 seconds or more after it was opened |
| `PendingIds.ReadBack` | vynkor/confirmation_gate.py:383 | Decimal printing loses nothing and contains no dash |
| `PendingIds.PendingIdInjective` | vynkor/confirmation_gate.py:383 | Whatever the wall clock read, equal ids have equal sequence numbers |
| `PendingIds.PendingIdShape` | vynkor/confirmation_gate.py:383 | An id reads back as "pending-", the milliseconds, a dash and the sequence number |
| `Gate.GlobCovers` | vynkor/confirmation_gate.py:367-373 | An entry "prefix.*" admits exactly the callers "prefix." followed by anything, and not the bare prefix |
| `Gate.ListedExactly` | vynkor/confirmation_gate.py:367-376 | Some entry admits a caller if and only if the caller is listed itself or lies under the dot of a listed glob |
| `Gate.NamedExactly` | vynkor/confirmation_gate.py:409-417 | Parameters name an id exactly if they are a JSON object with that nonempty string under "pending_id"; unparsable ones and ones without it are told apart |
| `Gate.ClaimedNames` | vynkor/confirmation_gate.py:312-361 | Storing belongs to "request_" plus the operation; taking to "confirm_" plus it, for exactly the allowlisted callers whose parameters name an id; a refused confirm is told the first thing wrong with it; every other action is unknown |
| `Gate.NewGate` | vynkor/confirmation_gate.py:198-224 | Construction fails exactly as the checks say, or gives an empty gate with a 300 second time to live |
| `Gate.SetupExactly` | vynkor/confirmation_gate.py:81-92 | Which set-ups are in order, and which error each other one raises |
| `Gate.ConfirmationGate.MayConfirm` | vynkor/confirmation_gate.py:365-376 | The loop returns true if and only if the caller is listed itself or lies under the dot of a listed glob |
| `Gate.ConfirmationGate.SweepExpired` | vynkor/confirmation_gate.py:400-406 | The deletion loop leaves exactly the entries younger than the time to live |
| `Gate.ConfirmationGate.StoreRequest` | vynkor/confirmation_gate.py:380-390 | Stores the request under an id that no live entry had, after a sweep |
| `Gate.ConfirmationGate.TakePending` | vynkor/confirmation_gate.py:392-398 | Removes and returns the entry if it is live after a sweep, else changes nothing more |
| `Gate.ConfirmationGate.Route` | vynkor/confirmation_gate.py:286-361 | One call alone: entries, counter, reply and the parameters the executor got are those of the specification; no id can ever be issued twice |
| `Gate.OwnErrorReaches` | vynkor/confirmation_gate.py:343-359 | A route call whose executor fails replies with an error; it carries the executor's own text if and only if that was raised or returned in a pair, and for a bare string it carries the TypeError's |
| `Gate.OwnDataReaches` | vynkor/confirmation_gate.py:343-357 | A succeeding executor's data is what is replied: bytes as they are, alone or in a true pair, another value encoded, None as nothing; and success is replied only then |
| `Gate.RequestIsStored` | vynkor/confirmation_gate.py:316-321 | A request from anyone is stored whole under a fresh id, which is the id replied, with the time to live cut to whole seconds; nothing younger than the time to live is disturbed |
| `Gate.RefusedOrMissing` | vynkor/confirmation_gate.py:323-342 | A refused call touches nothing; a confirm whose id is not there or past its time is told so and runs nothing |
| `GateRuns.LazyRefinesExact` | vynkor/confirmation_gate.py:380-406 | Over a clock that does not run backwards, sweeping only in store and take gives the replies and executor calls of a gate whose entries end at exactly created_at + ttl |
| `GateRuns.IssuedOnce` | vynkor/confirmation_gate.py:380-390 | No id is issued twice in a run |
| `GateRuns.ConfirmExecutesExactly` | vynkor/confirmation_gate.py:312-359 | A confirm reaches the executor if and only if an earlier request issued its id, is younger than the time to live, and was not executed since; what runs are that request's parameters |
| `GateExpiry.LazyTasksRefineExact` | vynkor/confirmation_gate.py:380-406 | In every interleaving of tasks, sweeping only in store and take allows the same steps, and gives every task the same reply and the same executor calls, as a gate that never sweeps and goes by age |
| `GateTasks.LockedSections` | vynkor/confirmation_gate.py:380-398 | The locked steps of the task system are those of the gate object |
| `GateTasks.GateSafety` | vynkor/confirmation_gate.py:286-361 | In every interleaving: each executor call runs the parameters of a request, released by an allowlisted caller naming its id, taken within its time to live, and at most once per request task, per id and per confirm; every issued id is live, taken or expired, never two of them |
| `GateTasks.TakesExactly` | vynkor/confirmation_gate.py:392-398 | In every interleaving a checked confirm gets the entry if and only if its id was issued, nobody has taken it, and the request is younger than the time to live at that moment, swept or not |
| `GateTasks.RepliesAreEarned` | vynkor/confirmation_gate.py:312-361 | In every interleaving a task that has replied gave the reply its request has coming: the refusal, the id stored for it, that nothing is pending, or what its own executor ended with |
| `GateTasks.LiveEntriesLeaveTwoWays` | vynkor/confirmation_gate.py:323-342 | A step leaves a live entry alone, gives it to a task entitled to it, or expires it once it is old enough; denied, malformed or unknown confirms remove no unexpired entry |
| `GateTasks.Settled` | vynkor/confirmation_gate.py:380-406 | Taken and expired ids stay so on every continuation of a run |
| `GateTasks.ConfirmNeedsTime` | vynkor/confirmation_gate.py:400-406 | With a time to live that is not positive no executor is ever called |
| `LoopLedger.Ledger` | vynkor/concurrent.py:217-249 | At every reachable state each envelope a handler returned is in exactly one of: not yet put, waiting to be put, queued, fetched, sent, lost; and nothing else is in any of them |
| `LoopLedger.LossStep` | vynkor/concurrent.py:238-249 | A step loses the fetched envelope if it resumes from a wait in which the receive and the queue get both finished, and otherwise loses nothing |
| `LoopLedger.LossesAreDoubleWaits` | vynkor/concurrent.py:238-249 | On every run the number of lost envelopes is the number of such waits |
| `LoopLedger.SettledRuns` | vynkor/concurrent.py:217-249 | When every handler is done and nothing is on its way, every envelope was sent once or lost once, and all were sent if and only if the receive and the get never finished in the same wait |
| `LoopLedger.ReplyCanBeLost` | vynkor/concurrent.py:238-289 | A complete run, for any request and reply, that ends with the reply lost and only a Pong sent |
| `LoopLedger.SentInOrder` | vynkor/concurrent.py:225-233 | Without such waits, what was sent of a handler's envelopes, then what is fetched and queued, is exactly the prefix it has put |
| `LoopLedger.SentIsASubsequence` | vynkor/concurrent.py:225-233 | On every run a handler's envelopes are sent in the order it returned them, none twice, and nothing it did not return |
| `LoopLedger.QueueBound` | vynkor/concurrent.py:215 | The queue never holds more than 256 envelopes |
| `LoopLedger.ExitFlushes` | vynkor/concurrent.py:249-289 | The queue is empty at the step that ends the loop: whatever was put by then is sent or lost, and nothing is sent afterwards |
| `LoopLedger.InboundDispatch` | vynkor/concurrent.py:266-330 | Received envelopes are dealt with once each, in order, as their kind, accept()'s verdicts and the callbacks' ends say; the loop's own answers are exactly those owed (one ACTION_ERROR with its id per rejected request, one Pong per Ping, one ack per event whose callback returned); one handler per accepted request |
| `LoopLedger.StepDoes` | vynkor/concurrent.py:238-351 | Step by step: exactly which envelopes are attempted, which handler is spawned, and whether the loop drains, leaves or waits again; a rejected request gets its ACTION_ERROR and no handler, and a callback that raises has nothing sent |
| `LoopLedger.HandlerOutcome` | vynkor/concurrent.py:217-225 | A handler's envelopes are what it returned or, if it raised, one ACTION_ERROR with its request's id and the message |
| `LoopLedger.PanicsAreAnswered` | vynkor/concurrent.py:137-139 | On a run without such waits in which nothing is left on its way, every handler that raised has had its ACTION_ERROR sent |
| `LoopLedger.StopsExactly` | vynkor/concurrent.py:249-289 | The loop is on its way out exactly if it received a shutdown or lost the connection, and receives nothing after that |
| `LoopExit.QueueIsStranded` | vynkor/concurrent.py:249-289 | The loop leaves an empty queue behind; what is in it later is exactly what handlers put after it had left |
| `LoopExit.ExitedRuns` | vynkor/concurrent.py:217-289 | On a run that has ended, every envelope was sent if and only if the receive and the get never finished in the same wait, nothing was put after the loop had left, and nothing is left to put; each unsent one is in exactly one of these three places |
| `LoopExit.LeavingIsSafeExactly` | vynkor/concurrent.py:217-289 | Once the loop has left, no envelope goes missing on any continuation if and only if there was no such wait, nothing has been put since, and every handler had finished |
| `LoopExit.ReplyCanBeStranded` | vynkor/concurrent.py:278-289 | A complete run, for any request and reply, with no such wait, in which the loop shuts down under a running handler and its reply is never sent |
| `LoopExit.PanicsAreAnsweredExactly` | vynkor/concurrent.py:217-289 | On a run that has ended, a handler that raised has had its ACTION_ERROR sent if and only if that was put before the loop left and was not lost |
| `LoopTasks.ConcurrentLoop.Resume` | vynkor/concurrent.py:238-351 | One pass of the loop body, in place, is the Resume step of the system |
| `LoopTasks.ConcurrentLoop.CallbackEnds` | vynkor/concurrent.py:302-330 | The end of an event or message callback, in place, is its step: ack and reply, or neither |
| `LoopTasks.ConcurrentLoop.PutNext` | vynkor/concurrent.py:225-233 | put_nowait succeeds exactly while the queue has room; otherwise the task waits |
| `LoopTasks.ConcurrentLoop.Drain` | vynkor/concurrent.py:332-340 | Whatever handler tasks put meanwhile, the drain loop sends what was queued first and in order, ends with an empty queue, and only takes steps of the system |
| `LoopTasks.ConcurrentLoop.RunConcurrentLoop` | vynkor/concurrent.py:236-351 | The whole loop, in place: whatever the other tasks, the connection and the callbacks do, it takes only steps of the system, and it leaves exactly when a wait ends in a shutdown or disconnect, with an empty queue |

## Left out

- AsyncReadFrame: has no time limit on the rest of a frame (10 seconds in the source, with its own error); the clock
  inside a read is not modelled.
- SendRawWithFlags: takes every write to succeed; the exceptions of the socket and of the WebSocket are left out.
- SendFragmented: is the call without interruption, and without a failing write part-way; `Interleaving.dfy` has the
  awaits between its fragments.
- LazyRefinesExact: is about whole calls, one after another; LazyTasksRefineExact has the interleavings.
- ConfirmExecutesExactly: is about whole calls, one after another; TakesExactly has the interleavings.
- Converse: asks of raw sends that they leave the transport's flags alone; SendReceivedExactly shows that this is
  necessary call by call.
- EndToEnd: the same.
- Cancelling a receive part-way through a frame. The message loop cancels `recv()` whenever a reply wins
  (`vynkor/concurrent.py:242-247`), and bytes it had already consumed are gone; the loop model receives whole envelopes
  or nothing.
- Decoding in `recv`: refusing raw-binary frames and decoding the payload as an Envelope; in the loop model both
  show as a lost connection, which is how the loop treats them.
- The internals of CRC32, SHA-256, zstd, JSON and protobuf. No claim is made about collisions or forgery.
- Encoding of strings: target names, plugin ids and error texts are taken as already encoded, or as data.
- Negative flags words: a flags argument is a natural number.
- Rounding of clock readings, which are real numbers here.
- A reply's JSON text (`json.dumps` of id, action and time to live) and the wording of error messages: replies are data
  with those fields.
- Exceptions outside `Exception` raised by an executor or by `accept`, which the code lets through.
- Calling `with_pending_ttl` during a run: the method is modelled, the theorems about runs and interleavings hold for
  one time to live.
- Counting: `pending_count`, which counts without sweeping, `manifest_entries` and the caller-side helpers: they add
  only short case analyses.
- Connecting, registering, closing, the environment, the request helpers, `vynkor/plugin.py` and `vynkor/errors.py`.
- Fairness and liveness of the scheduler: what is proved of the loop and of the gate is safety and accounting.
- Where code is split: the method `Buffer` is the second half of `_absorb_fragment`, which the source has inline.
- The `queue` object of the loop is the sequence of what waits in it; which blocked put wakes first is left open.
