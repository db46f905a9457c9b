# Rita protocols, verified

A Dafny model of the stateful and parsing cores of Rita, the router software of a pay-per-forward
mesh network, with machine-checked properties. Each module follows one component.

| module | component |
|---|---|
| `Framing`, `Reader`, `Handshake` | the antenna forwarding wire protocol: frames, reassembly from arbitrary socket reads, the encrypted first message |
| `Streams`, `Transparency` | the two ends of a forwarding session: framing what local sockets read, dispatching what arrives, and the end-to-end theorem |
| `Abi`, `ExitAbi` | the hand-written decoders for contract data (arrays of static and of dynamic tuples, as in "Formal Specification of the Encoding" of the Solidity Contract ABI Specification) |
| `Registration`, `RegistrationRuns`, `TextBudget` | text message confirmation, the registration queue and the batch loop; the server, the chain and other servers over every interleaving; how many codes overlapping requests can get |
| `Monitoring`, `Ring` | online latency statistics, packet loss windows |
| `JsonMerge`, `Babel`, `Routes`, `Withdrawals`, `UsageData`, `WgInterface` | settings merge, reading the routing daemon, kernel routes, the withdrawal scan, usage history, interface numbering |
| `Bytes`, `Identities`, `Decimal`, `Text` | shared vocabulary |

`dafny verify dfyconfig.toml` checks everything.

## How the outside world is modelled

- A socket is a script: the list of what its successive reads (or writes) do. A script that is used up
  delivers nothing more; for writes the timeout strikes. Statements hold for every script.
- A hash map or hash set is iterated in an arbitrary order, given as a parameter or chosen with `:|`.
- JSON, the crypto box and IP address text are pairs of functions of which only the round-trip law
  `Lawful` is assumed. The contract's ABI encoder is written out as a specification.
- `Outcome` has a third case `Panic` for a slice out of range or a failed assertion. Integer arithmetic
  wraps where the release build wraps (`Low8`, `Low32`, `Low64`). A `usize` has 64 bits.
- The contract is a set of identities; identities are compared without their nickname.

## What the proofs found

- End to end, a session goes on with every stream's bytes delivered unchanged, in order and unmixed
  exactly when the reads leave good buffers and enough tries (`EndToEnd`). A buffer of 1 to 21 bytes is
  rejected, not waited for (`GoodReads`). A reader has 601 tries; each message with bytes behind it and each
  wait uses one, and bytes that come in between two waits give all of them back (`Enough`). So 601 whole
  frames in one read are all returned and 602 are all lost (`OneReadIff`).
- Whatever becomes of the connection, what has been written is the data of the first messages and nothing
  else: every stream's sockets hold first bytes of what was read for it (`AnyConnection`).
- Failed writes to the server are only logged. They leave a correct wire exactly when no frame was accepted
  in part (`PushedIff`); a frame that was cut makes the receiver take the next frame, of any stream, for its
  payload (`CutFrameMixes`).
- A complete data frame with fewer than 8 bytes of body aborts the decoder (`PanicsIff`).
- The arm of the start reader that the code calls impossible is reached by every complete plain
  message other than a close (`ImpossibleIff`).
- A stop message that arrives in the same batch as the forward message does not end the session, because
  the result of the first `process_messages` call is dropped (`StopEndsIff`). It drops the rest of that
  batch and shuts down all sockets, which stay in the table and receive nothing more (`FirstStop`).
- A queued client with an IPv4 mesh address stays queued for ever (`OldClientIsStuck`). While at most 76
  clients are missing it stops every batch (`OneBlocksAll`). Good rounds register everyone exactly when
  there is no such client (`AllRegistered`).
- A client that is queued although it is on chain stays queued for ever, exactly when the loop has not
  already picked it and its mesh address is not zero (`StaysQueuedIff`). The decoder drops clients with
  address zero (`StoredDecode`), so the loop takes them for missing again and again.
- The limit on texts has three holes. The count is read before the wait for the text message service and
  written after it, so overlapping requests exceed the budget: two get a twelfth code (`TwelveCodes`). A code
  that is delivered although the call reported an error, for instance because it took more than a second, is
  not counted, so requests that never overlap can get any number of codes (`ErrorsAreFree`). And from 246 at
  once the 8-bit count wraps to zero. The codes are bounded exactly when none of this happens without limit
  (`BudgetIff`), and then by ten plus the overlap plus the uncounted ones (`Budget`), which is reached
  (`BudgetIsTight`).
- `get_std_dev` returns the population variance, not its root (`GettersCorrect`). At the 2^32nd sample
  the count becomes zero and the mean stops being a number (`WelfordCorrect`). A recorded minimum of
  zero is forgotten at the next positive sample (`LowestIff`).
- When the loss counter overflows, the sample that did it is counted as five packets of which none was
  lost (`LossTotals`, `LossOverflowExample`).
- Two settings changes may be combined before they are applied exactly when the first has no plain
  value where the second has an object (`RegroupIff`).
- A read of the routing daemon that ends inside a word such as `ok` is taken for the answer, exactly
  when that word is a terminator by itself (`ChunksIff`, `CutWordExample`). An answer whose last read fills
  the buffer is never returned (`FullAnswerIsLost`).
- A printed route parses back exactly for the interface names in `GoodNic`: `proto` always, `src` when
  there is a source, and `scope` and `default` for subnet routes must not occur in the name (`PrintParseIff`).
- The withdrawal scan visits the boundary block of two windows twice, so its events are reported twice in
  a row (`CheckWithdrawals`).
- The identity array decoder aborts exactly when the data ends inside the padding of the last entry's
  address (`ArrayPanicsIff`). The exit array decoder aborts exactly when an announced offset leads to an
  entry with a length or an array in a last word that is cut (`ExitsPanicIff`, `ExitsAbortExample`). On
  whole words neither aborts.
- An array of identities of two words decodes to the empty list whatever length it announces
  (`ArrayIsFilter`).

Where comments and code disagree the model follows the code: usage hours are sorted ascending although
the comment says greatest to least (`althea_types/src/user_info.rs:171`), and an exit entry needs nine
words although the comment says seven.

## Model

| member | source | states |
|---|---|---|
| Framing.GetMessage | antenna_forwarding_protocol/src/lib.rs:432-492 | the appended bytes are magic, type, length and body of the message |
| Framing.MakeSerdePacket | antenna_forwarding_protocol/src/lib.rs:332-346 | header with the wrapped length, then the JSON text |
| Framing.MakeDataPacket | antenna_forwarding_protocol/src/lib.rs:462-478 | the length field is the low 32 bits of payload length plus 8 |
| Framing.MakeClosePacket | antenna_forwarding_protocol/src/lib.rs:448-461 | a body of exactly the stream id |
| Framing.ReadMessage | antenna_forwarding_protocol/src/lib.rs:494-616 | a decoded size lies between a header and the buffer; a "too small" error carries the buffer size |
| Framing.FrameRoundTrip | antenna_forwarding_protocol/src/lib.rs:432-616 | decoding undoes encoding for every message and every suffix, and consumes exactly the frame |
| Framing.DataRoundTripIff | antenna_forwarding_protocol/src/lib.rs:462-478 | a data frame survives exactly when payload length plus 8 is below 2^32 |
| Framing.TruncatedFrame | antenna_forwarding_protocol/src/lib.rs:494-560 | every strict prefix is refused, from 22 bytes on with the exact sizes, large identification frames excepted |
| Framing.PrefixFree | antenna_forwarding_protocol/src/lib.rs:432-616 | no frame is a prefix of a different message's frame |
| Framing.DecodeStable | antenna_forwarding_protocol/src/lib.rs:494-616 | a decoded message does not depend on later bytes |
| Framing.DecodesIff | antenna_forwarding_protocol/src/lib.rs:494-616 | bytes decode exactly when magic, type and a whole body of the right form are there |
| Framing.DecodedIsFrame | antenna_forwarding_protocol/src/lib.rs:494-616 | encoding a decoded close or data message gives the frame back |
| Framing.DecodeErrors | antenna_forwarding_protocol/src/lib.rs:494-616 | the error for each wrong magic, type, length or text |
| Framing.WireNumbers | antenna_forwarding_protocol/src/lib.rs:230-346 | magic, packet types, lengths and stream ids as numbers on the wire |
| Framing.PanicsIff | antenna_forwarding_protocol/src/lib.rs:494-616 | the decoder aborts exactly on a complete data frame shorter than a stream id |
| Framing.PanicExample | antenna_forwarding_protocol/src/lib.rs:576-584 | a data frame with an empty body aborts it |
| Reader.Socket.ReadTillBlock | antenna_forwarding_protocol/src/lib.rs:143-157 | takes the next read and leaves the others |
| Reader.OnePass | antenna_forwarding_protocol/src/lib.rs:744-808 | another try has a non-empty buffer, remembers its size, and resets the counter only after growth |
| Reader.ReadInternal | antenna_forwarding_protocol/src/lib.rs:726-810 | terminates by (bytes not received, tries left) and takes at least one read |
| Reader.ReadMessagesInternal | antenna_forwarding_protocol/src/lib.rs:726-810 | the recursive reader on a socket computes `ReadInternal` and leaves the unread script |
| Reader.LeavesSuffix | antenna_forwarding_protocol/src/lib.rs:726-810 | a call takes reads from the front only |
| Reader.Conservation | antenna_forwarding_protocol/src/lib.rs:713-810 | Ok returns the one-shot parse of exactly the bytes consumed; the unparsed error hands over that parse and every other byte |
| Reader.PassOnWire | antenna_forwarding_protocol/src/lib.rs:744-808 | what one pass does on any first bytes of the wire of a message list |
| Reader.Delivers | antenna_forwarding_protocol/src/lib.rs:726-810 | one call on a wire returns its next messages and leaves exactly the wire of the others, or gives up exactly for lack of tries, or met a bad read |
| Reader.SessionIff | antenna_forwarding_protocol/src/lib.rs:713-810 | repeated calls return the sent sequence exactly for the chunkings with good reads and enough tries, a condition on sizes alone; otherwise they fail |
| Reader.ShortIsEnough | antenna_forwarding_protocol/src/lib.rs:742-748 | 601 reads and messages together never run out of tries |
| Reader.PatienceIff | antenna_forwarding_protocol/src/lib.rs:720-808 | a reader waiting for the rest of a frame returns it exactly when no 601 tries in a row bring nothing, however many reads it takes |
| Reader.CallPrefix | antenna_forwarding_protocol/src/lib.rs:713-810 | whatever the reads do, a call that returns messages returns the next ones of the wire and leaves first bytes of the rest |
| Reader.OneReadIff | antenna_forwarding_protocol/src/lib.rs:720-768 | frames arriving in one read are all returned exactly when there are at most 601 |
| Handshake.GetEncryptedForwardMessage | antenna_forwarding_protocol/src/lib.rs:348-377 | the frame of nonce and sealed message |
| Handshake.EncryptedRoundTrip | antenna_forwarding_protocol/src/lib.rs:348-430 | decrypting undoes encrypting for every suffix, and the plain decoder refuses that frame |
| Handshake.EncryptedTruncated | antenna_forwarding_protocol/src/lib.rs:379-430 | both decoders wait for an incomplete encrypted frame with the exact sizes |
| Handshake.EncryptedDecodesIff | antenna_forwarding_protocol/src/lib.rs:379-430 | bytes decrypt exactly when a whole forward frame opens to the text of the message |
| Handshake.EncryptedLayout | antenna_forwarding_protocol/src/lib.rs:348-377 | type 1, length, nonce and ciphertext in their places |
| Handshake.ReadMessagesStartInternal | antenna_forwarding_protocol/src/lib.rs:635-711 | the start reader on a socket computes `ReadStart` |
| Handshake.ImpossibleIff | antenna_forwarding_protocol/src/lib.rs:700-709 | the "impossible" arm is taken exactly on a complete plain message that is not a close |
| Handshake.ImpossibleExample | antenna_forwarding_protocol/src/lib.rs:700-709 | a keepalive as first frame reaches it |
| Handshake.DoubleFailureIff | antenna_forwarding_protocol/src/lib.rs:702-705 | both errors are reported, the plain one first, exactly when neither decoder asks for more bytes |
| Handshake.CloseDelivers | antenna_forwarding_protocol/src/lib.rs:635-711 | a wire that starts with a close returns just the close exactly when it comes in time and no read leaves a piece of its header |
| Handshake.InTimeIff | antenna_forwarding_protocol/src/lib.rs:641-650 | the start reader makes eleven reads |
| Handshake.StartDelivers | antenna_forwarding_protocol/src/lib.rs:618-711 | the forward message comes first, then messages of the wire in order, leaving exactly the rest; it fails exactly when the first message is late or a read is bad, or later for lack of tries |
| Handshake.StartPrefix | antenna_forwarding_protocol/src/lib.rs:618-711 | whatever the reads do, a start reader that returns gives the forward message and the next ones of the wire |
| Handshake.StartSessionIff | antenna_forwarding_protocol/src/lib.rs:618-810 | a whole session returns the forward message and everything sent exactly for the good chunkings |
| Streams.SpinWrite | antenna_forwarding_protocol/src/lib.rs:90-138 | accepted bytes are a prefix, all of them exactly on Ok; panics exactly on empty input |
| Streams.EndAt | antenna_forwarding_protocol/src/lib.rs:90-138 | the event that ends a write, on the counts alone: all before it are blocked or partial writes that leave bytes |
| Streams.EndIsUnique | antenna_forwarding_protocol/src/lib.rs:90-138 | there is only one such event |
| Streams.WriteOutcome | antenna_forwarding_protocol/src/lib.rs:90-138 | a write goes on over blocked and partial writes until all is accepted; otherwise it has written what came before the first stopping event, whose error it returns |
| Streams.PartialWriteExample | antenna_forwarding_protocol/src/lib.rs:106-120 | a partial write is followed by the rest |
| Streams.Sink.WriteAllSpinlock | antenna_forwarding_protocol/src/lib.rs:90-138 | the partial-write loop appends what `SpinWrite` accepts |
| Streams.PushedWire | antenna_forwarding_protocol/src/lib.rs:90-138 | without failed writes a socket holds the concatenated frames |
| Streams.PushedIff | antenna_forwarding_protocol/src/lib.rs:184-191 | after any failed writes the server holds the wire of the frames that got through exactly when no frame was accepted in part |
| Streams.CutFrameMixes | antenna_forwarding_protocol/src/lib.rs:184-191 | a frame that lost its end takes the next frame, of any stream, for payload |
| Streams.Report | antenna_forwarding_protocol/src/lib.rs:182-191 | a message is framed and written, errors only logged |
| Streams.StreamTable.ProcessOne | antenna_forwarding_protocol/src/lib.rs:176-219 | one socket is read, reported, and marked for removal exactly when broken or idle |
| Streams.StreamTable.PollAll | antenna_forwarding_protocol/src/lib.rs:167-223 | the loop visits every socket once, in any map order |
| Streams.StreamTable.ProcessStreams | antenna_forwarding_protocol/src/lib.rs:167-227 | the table keeps exactly the survivors and the server receives the round's messages |
| Transparency.Forwarder.ProcessMessages | antenna_forwarding_client/src/lib.rs:154-235 | the loop over a batch computes `Dispatch`: it stops at a stop message and shuts all sockets down, and aborts on an empty payload |
| Transparency.Forwarder.HandleData | antenna_forwarding_client/src/lib.rs:185-220 | data goes to the stream's socket, or to a new one that is kept only if the first write succeeds |
| Transparency.DispatchAppend | antenna_forwarding_client/src/lib.rs:154-235 | dispatching two batches is dispatching their concatenation |
| Transparency.NoMixing | antenna_forwarding_client/src/lib.rs:154-235 | whatever the network does, a stream receives what its own messages alone would give it |
| Transparency.ReceivesSessions | antenna_forwarding_client/src/lib.rs:154-235 | on a working network each socket receives exactly one open-to-close session of its stream |
| Transparency.SendsSessions | antenna_forwarding_protocol/src/lib.rs:167-227 | over whole runs, what is sent for a stream is what its sockets gave, for every iteration order |
| Transparency.ReportsAre | antenna_forwarding_protocol/src/lib.rs:176-223 | the messages of a turn for one socket, on its read and its clock; broken and idle closes twice |
| Transparency.ClosesIff | antenna_forwarding_protocol/src/lib.rs:167-227 | over every run a socket is closed and leaves at a turn exactly when its read fails, or brings nothing while it is idle |
| Transparency.RunOrdinary | antenna_forwarding_protocol/src/lib.rs:167-227 | no run sends an empty payload, so the non-empty assertion of the writer is never reached |
| Transparency.SendRounds | antenna_forwarding_protocol/src/lib.rs:167-227 | repeated service of a changing socket table writes the frames of the whole run to the server |
| Transparency.ForwardConnections | antenna_forwarding_client/src/lib.rs:239-278 | first batch with its verdict ignored, then read, service, dispatch and look at the clock until the reads end |
| Transparency.LoopTotal | antenna_forwarding_client/src/lib.rs:239-278 | however the wire is batched and whichever local sockets are lost, no byte is lost or moved |
| Transparency.LoopIsDispatch | antenna_forwarding_client/src/lib.rs:239-278 | without local loss the loop equals one dispatch of everything |
| Transparency.EndToEnd | antenna_forwarding_client/src/lib.rs:107-278 | handshake, sending runs, any chunking and the forwarding loop together: the session goes on with each stream's bytes delivered in order exactly for the good chunkings |
| Transparency.LoopPrefix | antenna_forwarding_client/src/lib.rs:239-278 | whatever the reads, the clock and local losses do, the loop has written the data of the first k messages, for all streams the same k |
| Transparency.AnyConnection | antenna_forwarding_client/src/lib.rs:107-278 | for every connection that breaks anywhere, each stream's sockets hold first bytes of what was read for it, and all of it exactly when none of its data is behind the first k messages |
| Transparency.StopEndsIff | antenna_forwarding_client/src/lib.rs:239-278 | a stop message ends the session exactly when the loop reads it, not when it comes with the forward message |
| Transparency.ClockEndsIff | antenna_forwarding_client/src/lib.rs:239-278 | the clock ends a session exactly at a turn that has expired and whose batch has no data and no close |
| Transparency.FirstStop | antenna_forwarding_client/src/lib.rs:222-256 | such a stop drops the rest of its batch and shuts all sockets down, the loop runs on, and these sockets receive nothing more |
| Transparency.ShutSocketIsSilent | antenna_forwarding_client/src/lib.rs:222-278 | a socket that was shut down receives nothing in the rest of any session |
| Abi.ToWords | rita_client_registration/src/client_db.rs:31-33 | all words but the last have 32 bytes |
| Abi.WordsOfConcat | rita_client_registration/src/client_db.rs:31-33 | splitting undoes concatenating words of which only the last may be short |
| Abi.ParseIdentityArray | rita_client_registration/src/client_db.rs:392-479 | the indexed loop computes `ParseArray` |
| Abi.EntryParses | rita_client_registration/src/client_db.rs:313-390 | an entry decodes to its fields, a zero address is refused |
| Abi.IdentityDecodesIff | rita_client_registration/src/client_db.rs:313-390 | which three words decode, and to what |
| Abi.ArrayIsFilter | rita_client_registration/src/client_db.rs:392-479 | on whole words: the nonzero announced entries in order, or the exact error, and never a panic |
| Abi.ArrayPanicsIff | rita_client_registration/src/client_db.rs:313-479 | on arbitrary bytes the decoder aborts exactly when the address of its last entry is cut before byte 12 |
| Abi.ArrayAbortExample | rita_client_registration/src/client_db.rs:313-479 | a concrete input on which it aborts |
| Abi.StoredDecode | rita_client_registration/src/client_db.rs:313-479 | decoding the encoding of any list the contract can hold gives those with a nonzero mesh address, in order |
| Abi.IdentitiesRoundTrip | rita_client_registration/src/client_db.rs:82-96 | decoding the canonical encoding of any list of nonzero identities returns it |
| ExitAbi.ParseExitIdentity | rita_client_registration/src/client_db.rs:603-757 | the decoder with its two set-filling loops computes `ParseExit` |
| ExitAbi.CollectRegions | rita_client_registration/src/client_db.rs:729-737 | the regions of a word range, failing exactly on a short word |
| ExitAbi.CollectChains | rita_client_registration/src/client_db.rs:739-747 | the payment types of a word range, failing exactly on a short word |
| ExitAbi.ParseExitIdentityArray | rita_client_registration/src/client_db.rs:481-600 | the loop over offsets computes `ParseExits` |
| ExitAbi.ExitDecodesIff | rita_client_registration/src/client_db.rs:603-757 | when one entry decodes, and the error otherwise |
| ExitAbi.ExitsAreExact | rita_client_registration/src/client_db.rs:481-600 | on arbitrary bytes the result is, in order, exactly the announced entries that decode, or the exact error |
| ExitAbi.StoredExitsDecode | rita_client_registration/src/client_db.rs:481-757 | decoding the encoding of any list the contract can hold gives those with a nonzero mesh address, in order |
| ExitAbi.ExitPanicsIff | rita_client_registration/src/client_db.rs:603-757 | one entry aborts the decoder exactly when the data is cut in a word where it needs a length or an array element |
| ExitAbi.ExitsPanicIff | rita_client_registration/src/client_db.rs:481-757 | on arbitrary bytes the array decoder aborts exactly when an announced head word points at such an entry |
| ExitAbi.ExitsAbortExample | rita_client_registration/src/client_db.rs:481-757 | a concrete input on which it aborts |
| ExitAbi.ExitsNeverAbort | rita_client_registration/src/client_db.rs:481-757 | it aborts only on data that is not a whole number of words |
| ExitAbi.TrailingWordsIgnored | rita_client_registration/src/client_db.rs:603-757 | an entry that contains its arrays decodes the same whatever follows |
| ExitAbi.ExitRoundTrip | rita_client_registration/src/client_db.rs:122-188 | one encoded exit decodes to itself, whatever follows and in whatever order its sets were written |
| ExitAbi.ExitsRoundTrip | rita_client_registration/src/client_db.rs:481-757 | decoding the canonical encoding of any list of exits returns it in order |
| Registration.Registrar.IncrementTextsSent | rita_client_registration/src/lib.rs:68-76 | one more text for the key, as an 8-bit count, others unchanged |
| Registration.Registrar.ResetTextsSent | rita_client_registration/src/lib.rs:78-80 | the key's count is gone, others unchanged |
| Registration.Registrar.AddClientToRegQueue | rita_client_registration/src/lib.rs:86-88 | the queue gains the client modulo nickname |
| Registration.Registrar.RunRound | rita_client_registration/src/register_client_batch_loop.rs:45-106 | a turn of the loop takes exactly the batch out of the queue, only when it was encoded and reported, and keeps clients confirmed meanwhile |
| Registration.Registrar.HandleSmsRegistration | rita_client_registration/src/lib.rs:115-219 | whatever other requests do during the wait: confirmation exactly on an accepted code and then queued; each error answer exactly on its cause; the new tables, decided by the count read before the wait |
| TextBudget.ConfirmationResets | rita_client_registration/src/lib.rs:78-80 | a confirmation forgets the texts of its key and of no other |
| TextBudget.Budget | rita_client_registration/src/lib.rs:129-181 | in every run a key gets, since its last confirmation, at most ten codes, plus as many as are ever on their way at once, plus those delivered but reported as errors |
| TextBudget.BudgetAgain | rita_client_registration/src/lib.rs:129-212 | however much was spent, after a confirmation the full budget can be reached again |
| TextBudget.BudgetIsTight | rita_client_registration/src/lib.rs:129-181 | that bound is reached for every overlap and every number of errors |
| TextBudget.TwelveCodes | rita_client_registration/src/lib.rs:129-181 | two overlapping requests get a twelfth code sent |
| TextBudget.ErrorsAreFree | rita_client_registration/src/lib.rs:172-180 | requests that never overlap get any number of codes when each is delivered but reported as an error |
| TextBudget.NoBudget | rita_client_registration/src/lib.rs:68-76 | with 246 at once the count wraps and any number of codes is sent |
| TextBudget.BudgetIff | rita_client_registration/src/lib.rs:68-181 | the codes are bounded exactly when none is ever on its way, or at most 245 are at once and uncounted deliveries are limited |
| Registration.BuildBatch | rita_client_registration/src/register_client_batch_loop.rs:67-75 | the loop returns the first 76 unregistered clients |
| Registration.BatchShape | rita_client_registration/src/register_client_batch_loop.rs:67-75 | duplicate free, disjoint from the snapshot, of size min(76, all that is missing) |
| Registration.BatchOf | rita_client_registration/src/register_client_batch_loop.rs:67-75 | every set of missing clients of that size is the batch for some order of the queue |
| Registration.PickedIff | rita_client_registration/src/register_client_batch_loop.rs:67-75 | a missing client is picked whatever the order exactly when at most 76 are missing |
| Registration.EncodeClients | rita_client_registration/src/client_db.rs:82-96 | encoding fails exactly on an IPv4 address, and otherwise gives the body of the canonical array |
| RegistrationRuns.SnapshotIsDecoded | rita_client_registration/src/client_db.rs:35-49 | decoding what the contract lists, in any order, gives its clients with a nonzero mesh address |
| RegistrationRuns.RoundIsRun | rita_client_registration/src/register_client_batch_loop.rs:46-106 | an undisturbed round is a run of the system's steps and leaves the queue that the imperative round leaves |
| RegistrationRuns.RoundShrinks | rita_client_registration/src/register_client_batch_loop.rs:46-106 | a good round takes min(76, rest) of the clients that look missing out of the queue and onto the chain, or nobody when its batch holds an IPv4 address, and loses nobody |
| RegistrationRuns.AllRegistered | rita_client_registration/src/register_client_batch_loop.rs:46-106 | enough good rounds for all that look missing register everyone exactly when no queued client has an IPv4 address |
| RegistrationRuns.StaysQueuedIff | rita_client_registration/src/register_client_batch_loop.rs:66-100 | a client queued although on chain stays queued in every later state of every run exactly when its mesh address is not zero and no batch has picked it |
| RegistrationRuns.InvariantStep | rita_client_registration/src/register_client_batch_loop.rs:45-106 | every step of every actor keeps the invariant |
| RegistrationRuns.NoStepLoses | rita_client_registration/src/register_client_batch_loop.rs:45-106 | no step takes a client out of both queue and contract |
| RegistrationRuns.ConfirmedIsNeverLost | rita_client_registration/src/lib.rs:86-212 | after a confirmation every later state of every run has the client queued or on chain |
| RegistrationRuns.SubmittedShape | rita_client_registration/src/register_client_batch_loop.rs:66-92 | in every reachable state a submitted batch is new to its snapshot, duplicate free, of size 1 to 76 |
| RegistrationRuns.OldClientIsStuck | rita_client_registration/src/client_db.rs:82-96 | over every run a queued client with an IPv4 address stays queued and never reaches the contract |
| RegistrationRuns.OneBlocksAll | rita_client_registration/src/register_client_batch_loop.rs:66-100 | while at most 76 clients are missing, one such client keeps every batch from being sent |
| Monitoring.RunningLatencyStats.constructor | althea_types/src/monitoring.rs:39-54 | the fresh counters |
| Monitoring.RunningLatencyStats.Accumulate | althea_types/src/monitoring.rs:83-90 | count, mean and m2 take one Welford step |
| Monitoring.RunningLatencyStats.AddSample | althea_types/src/monitoring.rs:74-104 | the whole new state, ring and lowest value included |
| Monitoring.RunningLatencyStats.Reset | althea_types/src/monitoring.rs:152-157 | the moments are cleared, lowest value and ring are kept |
| Monitoring.WelfordStep | althea_types/src/monitoring.rs:83-90 | one update keeps m2 the sum of squared deviations from the new mean |
| Monitoring.WelfordCorrect | althea_types/src/monitoring.rs:74-104 | mean and m2 are exact for any samples since a reset, exactly below 2^32 of them |
| Monitoring.GettersCorrect | althea_types/src/monitoring.rs:60-73 | the getters are the mean and the population variance from the third sample on, and nothing before |
| Monitoring.LowestIff | althea_types/src/monitoring.rs:92-101 | across resets the lowest value is the minimum ever seen, except exactly in the zero case |
| Monitoring.LastSeen | althea_types/src/monitoring.rs:91 | the last value is the latest sample, across resets |
| Monitoring.LatencyRing | althea_types/src/monitoring.rs:102-103 | the ring is the last 100 samples, oldest first from its front |
| Monitoring.GetFirstNSetBits | althea_types/src/monitoring.rs:267-283 | the number of set bits among the top n |
| Monitoring.RunningPacketLossStats.constructor | althea_types/src/monitoring.rs:195-206 | an empty window |
| Monitoring.RunningPacketLossStats.AddSample | althea_types/src/monitoring.rs:212-240 | the whole new state through both overflow resets |
| Monitoring.LossSampled | althea_types/src/monitoring.rs:212-240 | losses never exceed packets, and every ring entry is at most 5 |
| Monitoring.LossRing | althea_types/src/monitoring.rs:238-239 | the ring is the losses of the last 60 samples, padded with zeros |
| Monitoring.LossTotals | althea_types/src/monitoring.rs:222-237 | the counters are the totals since the last overflow; the sample that overflowed the loss counter, and only such a one, counts as received |
| Monitoring.LossOverflowExample | althea_types/src/monitoring.rs:222-237 | total loss reaches that case at sample 858993460 |
| Monitoring.FiveMinuteSum | althea_types/src/monitoring.rs:248-256 | the sum over the ring is the number of packets lost in the last 60 samples |
| Monitoring.RunningPacketLossStats.GetFiveMinAverage | althea_types/src/monitoring.rs:248-256 | that sum over 300, between 0 and 1 |
| Ring.PushUnrolled | althea_types/src/monitoring.rs:102-103 | overwriting the oldest entry appends to the unrolled ring |
| JsonMerge.JsonMergeInto | settings/src/lib.rs:339-350 | the recursion over entries in any order computes `Merge` |
| JsonMerge.MergeReads | settings/src/lib.rs:339-350 | what the result reads at every path |
| JsonMerge.ChangeWins | settings/src/lib.rs:339-350 | a plain value of the change is read back |
| JsonMerge.MergeTwice | settings/src/lib.rs:339-350 | merging a change twice is merging it once |
| JsonMerge.MergeAssociates | settings/src/lib.rs:339-350 | merges regroup under the condition |
| JsonMerge.RegroupIff | settings/src/lib.rs:339-350 | merges regroup for all settings exactly under the condition |
| Babel.ReadBabelSync | babel_monitor/src/parsing.rs:17-45 | the loop over lines computes `Sync` |
| Babel.ScanMeans | babel_monitor/src/parsing.rs:17-45 | normalised text through the first terminator line, good exactly for `ok` |
| Babel.LinesAppend | babel_monitor/src/parsing.rs:22-43 | lines of text cut at a line end are not changed by what follows |
| Babel.StableAtLineEnd | babel_monitor/src/parsing.rs:17-45 | a result on text cut at a line end survives every extension |
| Babel.StableIff | babel_monitor/src/parsing.rs:17-45 | a result on any text survives an extension exactly when the text does not end in an unfinished `ok`, `bad` or `no` that the extension changes |
| Babel.ReadBabelFrom | babel_monitor/src/lib.rs:101-175 | the incremental reader on a stream computes `ReadBabel` |
| Babel.ChunksIff | babel_monitor/src/lib.rs:101-175 | reading in pieces, full reads included, equals one read of the whole exactly when no read with room left cuts a terminator word and the terminator does not come with a last full read |
| Babel.TrimNulMeans | babel_monitor/src/lib.rs:135 | only the zero bytes around the text are taken off |
| Babel.GivesUp | babel_monitor/src/lib.rs:150-155 | after 51 reads without an answer the next text times out |
| Babel.AfterHarmless | babel_monitor/src/lib.rs:117-133 | after reads without an answer an io error and invalid text each end the call with their own error |
| Babel.LineEndsAreSafe | babel_monitor/src/lib.rs:101-175 | pieces that end at line ends cut no word |
| Babel.CutWordExample | babel_monitor/src/lib.rs:101-175 | a concrete output answered wrongly |
| Babel.FullAnswerIsLost | babel_monitor/src/lib.rs:101-175 | an answer whose last read fills the buffer is never returned, however often it is tried again |
| Routes.PrintedTokens | althea_kernel_interface/src/ip_route.rs:155-194 | the printed text splits into the expected tokens |
| Routes.ReadTags | althea_kernel_interface/src/ip_route.rs:60-88 | what substring matching finds for every tag of a printed route, whatever the interface is called |
| Routes.DstReads | althea_kernel_interface/src/ip_route.rs:119-125 | destination and prefix length read back, the implicit 32 included |
| Routes.ParsedNicIsToken | althea_kernel_interface/src/ip_route.rs:90-151 | a parsed interface name is never empty and has no space |
| Routes.PrintParseIff | althea_kernel_interface/src/ip_route.rs:60-194 | parsing a printed route gives the route back exactly for the good interface names |
| Routes.ItemIff | althea_kernel_interface/src/ip_route.rs:60-71 | a tag is read as the token behind the first one that mentions it |
| Routes.RouteReads | althea_kernel_interface/src/ip_route.rs:90-151 | on every line, for both kinds of route, each field is what follows the first token that mentions its tag |
| Routes.RouteLacks | althea_kernel_interface/src/ip_route.rs:90-151 | a field whose tag no token mentions is missing |
| Routes.RouteParsesIff | althea_kernel_interface/src/ip_route.rs:90-151 | which lines parse, as which kind, and with which destination |
| Routes.KernelDefault | althea_kernel_interface/src/ip_route.rs:97-117 | a default route as the kernel lists it is read with its protocol and metric |
| Withdrawals.WindowsInside | auto_bridge/src/lib.rs:395-409 | every window lies inside the blocks to check |
| Withdrawals.ScanCounts | auto_bridge/src/lib.rs:395-409 | every block is scanned, twice exactly at positive multiples of 500 |
| Withdrawals.CheckWithdrawals | auto_bridge/src/lib.rs:442-499 | the requester's events of all blocks in block order, those of boundary blocks twice in a row |
| UsageData.ConvertFlatToMap | althea_types/src/user_info.rs:134-158 | the loop with duplicate correction computes `ToMap` |
| UsageData.ToMapIsMaximum | althea_types/src/user_info.rs:134-158 | exactly the hours that occur, each with the largest value of each kind |
| UsageData.OrderAndRepetitionIgnored | althea_types/src/user_info.rs:134-158 | reordering or repeating entries changes nothing |
| UsageData.SortByHour | althea_types/src/user_info.rs:172 | sorting keeps the entries and makes hours strictly ascending |
| UsageData.ConvertMapToFlat | althea_types/src/user_info.rs:161-174 | strictly ascending hours with exactly the entries of the map |
| UsageData.FlatRoundTrip | althea_types/src/user_info.rs:134-174 | flattening and converting back returns the map |
| UsageData.AscendingRoundTrip | althea_types/src/user_info.rs:134-174 | an ascending list survives conversion to a map and back |
| UsageData.LastSaveHour | althea_types/src/user_info.rs:104-121 | the largest hour of the three histories, 0 when there is none |
| WgInterface.NameInjective | althea_kernel_interface/src/setup_wg_if.rs:39-43 | different numbers have different names |
| WgInterface.FirstFree | althea_kernel_interface/src/setup_wg_if.rs:36-41 | the search ends, at the least number whose name is free |
| WgInterface.CreateNumbered | althea_kernel_interface/src/setup_wg_if.rs:28-58 | at most seven consecutive names are tried, and an Ok name is the one whose creation succeeded |

## Left out

- Framing.FrameRoundTrip: bodies of 2^32 bytes or more, whose length field wraps; `DataRoundTripIff` shows that they fail.
- Framing.GetMessage: not defined for forward messages, for which the source is unimplemented.
- ExitAbi.ExitsRoundTrip: encodings of 2^63 words or more, where word offsets would wrap.
- ExitAbi.ParseExitIdentity: words of more than 32 bytes, which the split into words never produces.
- Monitoring.WelfordCorrect: real numbers instead of 32-bit floats, so no rounding; a division by zero gives `None`.
- Babel.ChunksIff: more reads than the retry limit, for which `GivesUp` says what happens.
- Babel.ReadBabelFrom: no bound on the number of reads that would block, since the source does not count them.
- Withdrawals.CheckWithdrawals: chains shorter than the blocks to check, whose subtraction is up to the number library, and failing queries with their retries.
- Reader.Socket.ReadTillBlock: one read is one event of the script; that `read_to_end` gathers bytes until the socket would block, and drops them on another error, is taken from the library.
- Registration.Registrar.RunRound: clients confirmed during the waits are added at once; `RegistrationRuns` has the full interleaving.
- The registration contract: only the bulk insertion of encodable batches is modelled; it never removes clients.
- Clocks and sleeps: timeouts are the end of a script or a flag, so no statement speaks about durations; whether the session of `forward_connections` has timed out is a flag of each turn.
- End of file on a local socket is read as "nothing yet", as the source does; only the idle flag or an error closes it.
- The identification sent at check-in, DNS lookup and antenna discovery, which are I/O.
- Region and payment type tables: regions are named by their codes, 0 to 179.
- Text outside ASCII: white space and lower case are ASCII, and a read that is not valid text is an event of its own.
- `get_median`, `is_bloated`, `is_good` and the loss average since start: read-only views of state that is modelled.
- `find_babel_val`, the `parse_*_sync` scrapers, `build_interface_config_string` and the route lookups: they use the daemon's output after it has been read, and the model ends at the reader.
- Death of the registration server's process: the queue is in memory only.
- Debt keeper, payment controller, tunnel manager and exit switching are not part of this model.
- Kernel shell-outs, file and `/proc` reading, HTTP endpoints, dashboards, logging and watchdogs, which are I/O.
