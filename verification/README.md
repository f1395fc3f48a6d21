# nl-punch: a verified model

nl-punch tunnels TCP connections between two peers behind NATs. The peers meet through
a small HTTP rendezvous server, agree on an ICE path, run four QUIC sub-connections over
it, and carry each TCP connection over one or more *stripes*: streams that share its bytes
as numbered chunks. This project models the parts of it that are protocols, in Dafny, and
proves what they promise over every schedule.

## The files

| file | module | what it is |
|---|---|---|
| bytes.dfy, sums.dfy | Bytes, Sums | bytes, big-endian integers, a stream's two ends; sums over a sequence |
| codec.dfy | Codec | the stream header and the chunk format, and one reader's loop |
| sender.dfy | Sender | the loop that cuts the source into chunks; one stream's writer |
| reorder.dfy | Reorder | the reassembly loop and what it represents |
| window.dfy | ReorderWindow | exactly which arrival orders come out right under 32-bit numbers |
| pipeline.dfy | Pipeline | the whole pipe, byte by byte, as a transition system |
| flow.dfy, invariant.dfy | PipelineFlow, PipelineInvariant | what every step keeps: per stripe, then for the whole pipe |
| safety.dfy | PipelineSafety | exactness, prefix safety, the end count |
| writers.dfy | PipelineWriters | the bytes every stripe is sent, in every run |
| losses.dfy | PipelineLosses | what a dead stripe costs |
| progress.dfy | PipelineProgress | no deadlock, termination |
| loops.dfy | PipelineLoops | the transition system does what the loops of the code do |
| listener.dfy | Listener | opening a session's stripes and sending their headers |
| router.dfy | Router | stripe grouping: the critical section, and any number of handlers |
| config.dfy, routing.dfy | Configuration, Routing | validation, the dial table, and from a listener to the dialed port |
| signaling.dfy | Signaling | the rendezvous server's maps; the polling loops |
| handshake.dfy | Handshake | the offer/answer handshake with its nonce |
| acceptor.dfy, opener.dfy, packetqueue.dfy | Acceptor, Opener, PacketQueue | the session's accept fan-in and shutdown, round-robin opening, the drop-tail packet queue |

## How it is built

Code that changes things step by step is modelled by methods and classes with the same
loops, buffers and maps, each tied to a specification function (`Consume`, `ParseStripe`,
`Register`, `Apply`, `Enqueue`, ...). Concurrency is modelled by transition systems whose
steps are the atomic actions of the goroutines and whose runs are all their interleavings.
The specification functions are the steps' effects, so a fact about runs is a fact about
the loops; `PipelineLoops` and `PipelineWriters` prove that connection for the pipe: in any
run the dispatcher, each writer, each reader and the reassembler do what their loops do, and
what each hands on is what the next one gets.

The pipe is modelled at byte level. Its state holds N lanes (a writer, the bytes in
flight up to a capacity, whether the stream is alive, a reader), the unbuffered
dispatch, the fan-in channel of 8N slots and the reassembler. Any stream may die between
any two bytes, and then stays dead; the destination may fail after any number of bytes.
N ranges over 1..255, although the shipped constant is 1.

A field marked as history (which chunks were read, who took each, which arrived) is read
by no step; it only gives the invariants names for things. `PipelineInvariant.Flow` is
the invariant, and `RunFlow` proves it of every reachable state.

Sequence numbers are 32 bits wide and wrap. With more than one stripe, delivery rests on
one condition, that no chunk is received 2^32 or more ahead of the one waited for
(`Windowed`). It always holds with one stripe (`SingleStripe`) and in any run that reads
at most 2^32 chunks (`FewChunks`). For the reassembly loop that is exactly what is needed:
`ReorderWindow.WindowExact` proves that a complete arrival order comes out right, whatever
the chunks hold, if and only if no chunk arrives 2^32 or more ahead of the first one missing.
Out of that window a chunk is written in place of the one waited for, or overwrites one that
is pending under the same number, or waits under an earlier chunk's number, to be written in
its place or overwritten by it. `WrapMisplaces` is a concrete arrival.

## Where the code and its comments differ

The model follows the code.

- Dispatch is work-stealing (internal/forward/forward.go:514-541), not the round-robin of
  the comments at lines 473 and 573-577; no stripe sees every N-th number.
- A single stripe goes through the chunk format as well (line 283); lines 20-21 promise
  raw bytes. A zero-length chunk ends a stripe (lines 593-601); line 143 calls it a keepalive.
- The chunk number is that of the whole connection, not "within this stripe" (line 17).
- `Close` is said to need its drainer for blocked accept loops (internal/transport/transport.go:379);
  a blocked loop also sees its own sub-connection done (line 299), and `CloseCanReturn` uses
  only that.
- README.md:198-200 says a configuration with only one's own half works; `validate` asks for
  both roles (internal/config/config.go:111-116).
- A configuration is accepted with a listener name over 255 bytes, which no header can
  carry: `LongNameAccepted`.
- A header with a new session id and a stripe index not below its count leaves an empty
  group in the table, which stays until stripes of that session come whose index is in range
  (`EmptyGroupStays`). With a count of zero, which the header reader refuses, it would be a
  complete one (`NoCompleteGroupLeft`).
- Keys join session and role with a `|`, and clearing deletes by prefix. With a `|` in a
  session id, clearing one session can reach into another, and posting an offer for one can
  replace another's. `ClearReaches` and `PostReaches` say exactly when, for any role names.

## Model

| member | source | states |
|---|---|---|
| Codec.WriteStreamHeader | internal/forward/forward.go:83-96 | a header is written exactly when its tag has 1 to 255 bytes and the stream takes it; otherwise for a bad tag nothing is sent |
| Codec.ReadStreamHeader | internal/forward/forward.go:98-124 | reading from a stream succeeds exactly when its bytes begin with an acceptable header, and eats exactly that header |
| Codec.HeaderRoundTrip | internal/forward/forward.go:83-124 | every writable header reads back unchanged with the bytes after it untouched, unless its stripe count is zero, which is refused |
| Codec.HeaderExact | internal/forward/forward.go:98-124 | whatever the reader accepts is exactly what the writer emits for the header returned |
| Codec.HeaderTruncated | internal/forward/forward.go:98-124 | a header cut short anywhere is refused |
| Codec.HeaderBytes | internal/forward/forward.go:87-93 | on the wire a header is the tag length, the tag, the eight bytes of the session id with the most significant first, the index and the count, each at its place |
| Codec.WriteChunk | internal/forward/forward.go:150-163 | a chunk goes out whole, or, on a stream that dies, exactly as many of its bytes as the stream still took |
| Codec.ReadChunk | internal/forward/forward.go:133-148 | one whole chunk is consumed, or an error is returned when the stream ends short of one |
| Codec.ParseFrame | internal/forward/forward.go:133-163 | a written chunk is read back as itself whatever follows it |
| Codec.ParsePrefix | internal/forward/forward.go:133-148 | the beginning of a framed stream yields the first chunk exactly when it reaches the end of its frame |
| Codec.ParseExact | internal/forward/forward.go:133-163 | only a written chunk is read as a chunk |
| Codec.FrameBytes | internal/forward/forward.go:150-162 | on the wire a chunk is its length and its number, four bytes each with the most significant first, then the payload |
| Codec.ReadStripe | internal/forward/forward.go:588-607 | a reader hands on the chunks before the marker or the first error, in order, then exactly one end of stream, whose number is the marker's or zero |
| Codec.StripeRoundTrip | internal/forward/forward.go:133-163 | the reader's loop over any list of non-empty chunks and a marker returns that list and stops right after the marker |
| Codec.StripeTruncated | internal/forward/forward.go:588-607 | the same bytes cut anywhere yield exactly the chunks wholly before the cut and then an error: no partial chunk, no invented one, no false marker |
| Codec.StripeExact | internal/forward/forward.go:588-607 | a stripe that ended at a marker was that list of frames |
| Sender.CutSource | internal/forward/forward.go:542-558 | however Read splits the source over one reused buffer, the chunks sent are numbered 0, 1, 2, ... modulo 2^32, live in arrays of their own and still hold, at the end, what each Read returned; the counter is the number of bytes read |
| Sender.PayloadsExact | internal/forward/forward.go:544-558 | the payloads joined are the source's bytes, and each has 1 to 65536 of them |
| Sender.WriteChunks | internal/forward/forward.go:535-539 | a writer puts out its chunks in order; it stops at the first error, when exactly the bytes the stream took have gone out |
| Sender.WriteStripe | internal/forward/forward.go:529-567 | onto a stream that dies after any number of bytes goes exactly that much of chunks and marker |
| Sender.StripeSurvives | internal/forward/forward.go:529-607 | writer and reader of one stripe together: whenever the stream dies, the reader gets exactly the chunks that went out whole |
| Reorder.DrainPending | internal/forward/forward.go:631-642 | the inner loop writes the pending chunks that have become consecutive |
| Reorder.Reassemble | internal/forward/forward.go:613-661 | the loop over the fan-in channel, with its early returns, its end count and its final drain, does what `Consume` says |
| Reorder.ArriveKeeps | internal/forward/forward.go:624-646 | a new chunk fewer than 2^32 ahead keeps "written up to the first gap, the rest pending", or the destination fails in the middle of one chunk |
| Reorder.ReassemblyCorrect | internal/forward/forward.go:613-661 | after any arrival order of distinct chunks the output is chunks 0..m-1 for the least m not arrived, the counter is its length, and what lies above m is pending under its number |
| Reorder.OrderIrrelevant | internal/forward/forward.go:613-661 | output and pending map depend only on the set of chunks that arrived |
| Reorder.NothingLeft | internal/forward/forward.go:648-660 | between iterations the number waited for is never pending, so the final drain writes nothing |
| Reorder.AllArrived | internal/forward/forward.go:613-661 | when every chunk has arrived the output is the whole source, the counter its length and the map empty |
| Reorder.SmallInWindow | internal/forward/forward.go:614-646 | with at most 2^32 chunks the 32-bit numbers never mislead |
| ReorderWindow.WindowExact | internal/forward/forward.go:613-661 | for every order in which each of n chunks arrives once: the output is the source for every content of the chunks if and only if every chunk arrives fewer than 2^32 ahead of the first one missing |
| ReorderWindow.NearIsWindow | internal/forward/forward.go:614-646 | and that condition, on the order alone, is the one on the loop's own position: fewer than 2^32 ahead of the chunk it waits for |
| Reorder.WrapMisplaces | internal/forward/forward.go:624-646 | of 2^32 + 1 chunks the last arrives first: it is written at once, and the output is no beginning of the source |
| PipelineInvariant.StepFlow | internal/forward/forward.go:519-661 | every step of dispatcher, writers, streams, readers and reassembler keeps the invariant: each byte, chunk and end marker is accounted for |
| PipelineInvariant.RunFlow | internal/forward/forward.go:519-661 | so it holds throughout every run, whatever fails |
| PipelineInvariant.Head | internal/forward/forward.go:585-624 | what comes off the fan-in channel is the next chunk of some stripe, unaltered and never seen before, or the end of a stripe with nothing left in the channel |
| PipelineSafety.Exactness | internal/forward/forward.go:519-661 | a failure-free run that counts all N ends has written exactly the source, whatever the bytes, their split, N, the work-stealing and the interleaving; both counters are its length; nothing is pending |
| PipelineSafety.ExactWithOneStripe | internal/forward/forward.go:519-661 | with one stripe, as shipped, that holds however long the stream, with no hypothesis on the numbers |
| PipelineSafety.PrefixSafety | internal/forward/forward.go:533-661 | whatever dies and whenever, the output is a prefix of the source, on a chunk boundary unless the destination failed; the counter is the length of the whole chunks written; no chunk is written before all its predecessors arrived |
| PipelineLosses.LostForever | internal/forward/forward.go:533-661 | once a chunk is lost, because its stream died before taking its whole frame or its reader ended before parsing it, the output never goes beyond the chunks before it: not a byte of it or of a later one is written, even if the destination fails |
| PipelineLosses.FailedWriterStops | internal/forward/forward.go:533-540 | in any run a writer that had a write error never takes another chunk |
| PipelineSafety.EndCountLosesNothing | internal/forward/forward.go:585-624 | when the last end is counted the fan-in channel is empty, every reader has returned, and every chunk any reader parsed has been received, failures or not |
| PipelineWriters.SenderPartition | internal/forward/forward.go:529-558 | in every reachable state, failures or not, the chunks found in the bytes a stripe was sent are the first ones its writer took, unaltered and under their numbers, and all of them on a live stripe with nothing left to write; each chunk dispatched was taken by one writer, once, in increasing order; none is empty or over 65536 bytes |
| PipelineWriters.StripeWritten | internal/forward/forward.go:529-567 | when the sender returns, a live stream has been sent exactly the frames of its writer's chunks and last the marker numbered with the count of all chunks, a dead one a beginning of that, whatever its reader is doing |
| PipelineWriters.RunWrote | internal/forward/forward.go:529-567 | at every moment of every run what a stream has accepted is a beginning of what it is due, with what is still to be written it is all of it while the stream lives, and it covers all that was parsed or is in flight |
| PipelineWriters.WriterAsLoop | internal/forward/forward.go:529-567 | in any run a stripe has been sent what the writer's loop and the marker after it put onto a stream that takes as many bytes |
| PipelineWriters.StreamInOrder | internal/forward/forward.go:529-607 | what a reader has got and what is in flight is what the stream accepted from the writer |
| PipelineWriters.EachChunkOnce | internal/forward/forward.go:529-567 | when the sender has returned and every stream lives, the chunks make up the source, each is found on some stripe, and the stripes together carry no more chunks than there are |
| PipelineSafety.SingleStripe | internal/forward/forward.go:614-646 | with one stripe nothing is ever pending and every chunk is the one waited for, however many there are |
| PipelineSafety.FewChunks | internal/forward/forward.go:545-646 | a run that reads at most 2^32 chunks never leaves the window |
| PipelineSafety.FewBytes | internal/forward/forward.go:545-646 | nor does one whose source has at most 2^32 bytes |
| PipelineProgress.NoDeadlock | internal/forward/forward.go:526-647 | in every reachable state of a failure-free pipe that is not the end, some goroutine can move, with unbuffered dispatch, bounded streams and a bounded fan-in |
| PipelineProgress.Descends | internal/forward/forward.go:526-647 | every step makes a global measure smaller |
| PipelineProgress.RunsEnd | internal/forward/forward.go:526-647 | a failure-free run over b bytes and n stripes has at most 38b + 34n + 2 steps |
| PipelineProgress.EveryScheduleDelivers | internal/forward/forward.go:519-661 | every failure-free run that can go no further has delivered exactly the source, all goroutines done |
| PipelineProgress.CanFinish | internal/forward/forward.go:519-661 | every failure-free run can be continued to the end of the pipe |
| PipelineProgress.EveryPipeStarts | internal/forward/forward.go:519-585 | runs exist for every stripe count from 1 to 255, every capacity, source and limit |
| PipelineProgress.AnySplitAnyWriter | internal/forward/forward.go:526-558 | in every reachable state a Read may return any number of bytes up to 65536, any idle writer may be the one to take the chunk on offer, and the reassembler may go on with whatever is first in the channel |
| PipelineProgress.AnyStreamAnyTime | internal/forward/forward.go:533-607 | in every reachable state any live stream may die, a dead one fails its writer and its reader, and a reader sends while fewer than 8 items per stripe are queued, of which there are never more |
| PipelineProgress.WireBounded | internal/forward/forward.go:526-541 | in any run a stream never has more in flight than it holds |
| PipelineProgress.DeathKeepsWire | internal/forward/forward.go:588-607 | the death of a stream takes nothing that is in flight: its reader may still get all of it |
| PipelineProgress.DeadSwallows | internal/forward/forward.go:150-163 | until its writer sees the error a dead stream swallows what is written, and only that changes |
| PipelineLoops.DispatchesAsLoop | internal/forward/forward.go:542-559 | in any run the chunks, the next number and the counter are those the reading loop leaves after the same calls of Read, and it is over exactly when a call has returned an error |
| PipelineLoops.ReaderAsLoop | internal/forward/forward.go:588-607 | in any run a reader that has returned has sent exactly what the reader's loop sends on the bytes it was given, though they came one at a time |
| PipelineLoops.ReassemblesAsLoop | internal/forward/forward.go:613-661 | in any run that is over, the output, counter and map are those of the reassembly loop on the items received, and later items change nothing |
| PipelineLoops.FanInOrder | internal/forward/forward.go:585-624 | what has been received of a stripe and what of it is in the fan-in channel is, in order, what its reader has sent |
| PipelineLoops.ReceivedAll | internal/forward/forward.go:585-624 | when the last end is counted, what was received of each stripe is exactly what its reader sent, which is what the reader's loop sends on all the bytes it got, failures or not |
| Listener.OpenStripes | internal/forward/forward.go:252-281 | succeeds exactly when every stream opens and takes its header, and then what stream i was sent reads as the header with the listener's name, the drawn session id (1 for 0), index i and the count; otherwise it stops at the first failure and closes exactly the streams it had opened |
| Listener.SessionIDs | internal/forward/forward.go:252-255 | a session id is never the reserved 0 and otherwise the number drawn, so two draws give one id only if they are equal or 0 and 1 |
| Listener.OpenedConsistent | internal/forward/forward.go:252-281 | the headers of any sessions that drew different numbers, not 0 and 1, with at most 255 stripes, however incomplete and in whatever order, agree the way the router's grouping needs |
| Listener.WidestSession | internal/forward/forward.go:266-271 | the headers of a session agree with each other if and only if it has at most 255 stripes: that is all the one-byte fields carry |
| Router.AllReady | internal/forward/forward.go:430-437 | true exactly when every slot holds a stream |
| Router.AcceptRouter.Group | internal/forward/forward.go:382-391 | finds the session's group or creates it with all slots empty, and touches no other |
| Router.AcceptRouter.Enter | internal/forward/forward.go:381-402 | the critical section: the stream goes into the slot its header names, a complete group leaves the table, an index out of range changes no slot, other sessions are untouched |
| Router.RunInv | internal/forward/forward.go:362-428 | over any interleaving of handlers the table, the owners and the ready channels agree |
| Router.FiresOnce | internal/forward/forward.go:380-412 | a session has an owner exactly when all its stripes have arrived; it is the only one, holds in slot k the stream whose header said k, and dials the port of its tag; the ready channel is closed at most once |
| Router.WakesExactly | internal/forward/forward.go:404-411 | a blocked handler can go on exactly when the owner of its own session has closed the ready channel |
| Router.NobodyLeftWaiting | internal/forward/forward.go:362-427 | with nothing left to do, every handler has been through its critical section, and every handler of a fully arrived session has returned, or is the owner and has dialed |
| Router.OnlyUnrouted | internal/forward/forward.go:373-397 | a stream from a consistent sender is turned away if and only if its tag is not routed |
| Router.NoCompleteGroupLeft | internal/forward/forward.go:381-402 | for any headers at all: a critical section leaves no complete group behind if and only if the group existed or the stripe count is not zero |
| Router.EmptyGroupStays | internal/forward/forward.go:381-397 | a new session's first stripe with an index out of range leaves an empty group, which stays as it is until a stripe of that session with an index in range comes |
| Configuration.CheckPeer | internal/config/config.go:118-136 | accepts exactly the peers whose stream names, listen and dial together, are non-empty and all different; otherwise names the first that is not |
| Configuration.CheckRoles | internal/config/config.go:105-116 | accepts exactly the two roles, in whatever order the map is walked |
| Configuration.Validate | internal/config/config.go:97-138 | accepts exactly the valid configurations, and a refusal names a fault that is there and that no earlier check would have found |
| Configuration.OtherPeer | internal/config/config.go:49-60 | the roles are peer-a and peer-b, and the other of each is the other one |
| Routing.BuildDials | cmd/nl-punch/main.go:166-174 | the table holds exactly one's own Dial names and the other's Listen names, each with one's own last Dial port or else the first listener's remote port |
| Routing.DialTable | cmd/nl-punch/main.go:151-174 | peer-a's table is built from its own Dial entries and what peer-b listens on, and peer-b's from its own and what peer-a listens on: each reaches every name the other listens on, at the configured port, and no others but its own |
| Routing.CompleteRouting | cmd/nl-punch/main.go:151-174 | in a valid configuration every name the other peer listens on is routed, to one's own Dial port when declared and else to the listener's remote port; there are no other names, and one port for each |
| Routing.OrderIrrelevant | cmd/nl-punch/main.go:166-174 | reordering the lists of a valid configuration does not change the table |
| Routing.ConfiguredHeader | internal/forward/forward.go:83-124 | a header for a configured listener can be written if and only if the name has at most 255 bytes, and then it is read back with its chunks untouched and its tag is routed as configured |
| Routing.LongNameAccepted | internal/config/config.go:97-138 | a configuration is accepted with a listener whose header can never be written |
| Routing.ConfiguredSessionsDial | internal/forward/forward.go:362-412 | over every run of the router fed by the other peer's configured listeners no stream is turned away, and what is dialed is the configured port |
| Signaling.Server.PostOfferRequest | internal/signaling/server.go:65-77 | stores the offer and hides any answer of the session, and nothing else; refuses an empty id or role |
| Signaling.Server.GetOfferRequest | internal/signaling/server.go:80-93 | finds the offer stored for session and role, if any |
| Signaling.Server.PostAnswerRequest | internal/signaling/server.go:111-118 | stores the answer of the session and nothing else |
| Signaling.Server.GetAnswerRequest | internal/signaling/server.go:121-133 | finds the answer stored for the session, if any |
| Signaling.Server.ClearSession | internal/signaling/server.go:142-151 | deleting while ranging, in any order, removes exactly the keys under the session's prefix and its answer |
| Signaling.AnswerIsLatest | internal/signaling/server.go:65-151 | after any history there is an answer for a session if and only if its latest operation was the posting of that answer |
| Signaling.StepRefines | internal/signaling/server.go:65-151 | with ids free of the bar, the flat map with its deletion by prefix does what a map of maps would do |
| Signaling.OfferFound | internal/signaling/server.go:86-93 | so after any history a lookup finds what the map of maps holds |
| Signaling.Isolation | internal/signaling/server.go:65-151 | no operation on one session changes another's offers or answer |
| Signaling.ClearReaches | internal/signaling/server.go:142-151 | for any ids and roles, bars included: clearing s deletes another session's offer if and only if the other's id begins with s and a bar, or s is the other's id, a bar and a p such that the role begins with p and a bar |
| Signaling.KeysMeet | internal/signaling/server.go:70-87 | two sessions and roles share a key if and only if the longer id is the shorter, a bar and a p, and the shorter's role is p, a bar and the longer's role |
| Signaling.PostReaches | internal/signaling/server.go:65-87 | an offer posted for one session is found under another exactly in those cases, and otherwise leaves the other's offer as it is |
| Signaling.AwaitAnswerMatching | internal/signaling/client.go:158-175 | returns the first answer whose nonce is the one wanted, or the first error, skipping everything before; gives up only if there was neither |
| Signaling.AwaitOffer | internal/signaling/client.go:130-145 | returns the first offer there is, or the first error |
| Handshake.HexInjective | internal/ice/ice.go:255-263 | different random bytes make different nonces |
| Handshake.RunInv | internal/ice/ice.go:170-213 | what the server holds and what the peers hold always comes from attempts of this session |
| Handshake.NonceSafety | internal/ice/ice.go:170-213 | over any interleaving of attempts, delayed posts, give-ups and restarts, with fresh nonces: an answer accepted by a peer-a attempt was made by a peer-b attempt that read exactly that attempt's offer, so each holds the other's credentials |
| Handshake.ServerFollows | internal/signaling/server.go:65-151 | in any run the maps the peers poll are what the server makes of the requests handled so far, peer-a's offers and peer-b's answers carrying their own fields, and of everything others do |
| Handshake.HandshakeSucceeds | internal/ice/ice.go:170-213 | for any credentials and nonce there is a run in which the two peers come to hold each other's credentials |
| Handshake.AnythingMayHappen | internal/ice/ice.go:170-213 | at any moment attempts may start or be given up, the session cleared, the server restarted, and a request once sent may arrive, whatever has become of its sender |
| Handshake.PollsFind | internal/signaling/client.go:130-175 | a poll of peer-b may take up any offer there is, one of peer-a exactly the answer with its nonce |
| Handshake.StaleAnswerAccepted | internal/signaling/client.go:147-150 | if any answer is taken, or two attempts draw the same nonce, there is a run of ten steps in which peer-a accepts an answer to an offer it has replaced |
| Acceptor.CleanShutdown | internal/transport/transport.go:283-387 | over any interleaving of accept loops, callers and Close calls nothing is sent on the closed channel, it is closed at most once, by at most one Close call, and only after every loop has returned |
| Acceptor.HandedOnce | internal/transport/transport.go:296-339 | every accepted stream is handed out at most once, and then neither a loop nor the channel holds it |
| Acceptor.NoneLost | internal/transport/transport.go:296-383 | unless a sub-connection is down or Close is draining, every accepted stream is held by its loop, queued, or has been handed out |
| Acceptor.KeepsServing | internal/transport/transport.go:283-303 | in every reachable state the loop of a sub-connection that is up accepts, or waits to hand over what it accepted: a loop ends only with its sub-connection |
| Acceptor.StreamHandedOver | internal/transport/transport.go:285-339 | a stream on a sub-connection that is up can be accepted, queued and handed to a caller, after which its loop accepts again |
| Acceptor.HandedInOrder | internal/transport/transport.go:283-339 | over every run the streams of each sub-connection are handed out in the order they were accepted |
| Acceptor.LossReported | internal/transport/transport.go:286-295 | before Close the loop of a lost sub-connection puts an error into the channel whenever fewer than 64 results are queued, and returns |
| Acceptor.ClosedSilently | internal/transport/transport.go:286-295 | once Close has been called it returns without reporting |
| Acceptor.GivesUpSilently | internal/transport/transport.go:297-301 | a loop that holds a stream when its sub-connection goes down may return with it, changing nothing else |
| Acceptor.WaitingDescends | internal/transport/transport.go:372-387 | once Close has closed all sub-connections, every step by anyone else brings the loops' return nearer |
| Acceptor.WaitingMoves | internal/transport/transport.go:296-301 | and some loop can move until all have returned, without the drainer and without any caller |
| Acceptor.WaitBounded | internal/transport/transport.go:372-387 | however loops, callers, the drainer and further Close calls are scheduled, at most as many steps as there is work left, by anyone but Close calls, precede the joining of the waiting one |
| Acceptor.WaitEnds | internal/transport/transport.go:372-387 | so under every schedule the wait ends: when only Close calls can still move, the waiting one can close the channel |
| Acceptor.CloseCanReturn | internal/transport/transport.go:372-387 | in every reachable state the Close call that won can return by steps among which nobody receives, neither a caller nor the drainer |
| Opener.OpenMany | internal/transport/transport.go:318-320 | k calls in a row, over the 64-bit counter and its wrap, make the picks that `PickAt` names, leave the counter k further, and with four sub-connections choose each floor(k/4) or ceil(k/4) times |
| Opener.PickNext | internal/transport/transport.go:318-320 | calls in a row pick what the counter's start determines, across the wrap |
| Opener.DistinctIffDivides | internal/transport/transport.go:43-320 | any n picks in a row are different wherever the counter stands if and only if n divides 2^64, as 4 does |
| Opener.Balanced | internal/transport/transport.go:318-320 | over any k picks each of the four sub-connections is chosen floor(k/4) or ceil(k/4) times |
| PacketQueue.BufferedPacketConn.Drain | internal/transport/transport.go:95-114 | a datagram, whole up to the 65507 bytes UDP carries, is queued as a copy of its own, or dropped with 4096 queued; the reused buffer never shows through |
| PacketQueue.BufferedPacketConn.DrainFails | internal/transport/transport.go:101-105 | when the connection fails the datagrams already queued stay readable |
| PacketQueue.BufferedPacketConn.ReadFrom | internal/transport/transport.go:116-127 | the oldest datagram is taken and copied, cut to the caller's buffer; an error only when nothing is queued or the connection is down |
| PacketQueue.InOrder | internal/transport/transport.go:95-127 | over any run the datagrams returned, and after them those queued, are an in-order, duplicate-free subsequence of those drained; each returned one of up to 65507 bytes is unmodified but for the cut to the caller's buffer |
| PacketQueue.DroppedOnlyWhenFull | internal/transport/transport.go:108-112 | a datagram is dropped if and only if 4096 were queued when it was drained |

## Left out

- QUIC, ICE, STUN, TURN and TLS: a stream is a reliable byte queue that may die and then stays dead; a sub-connection that is down yields no more streams and its context is done.
- HTTP, JSON, the shared secret and URL handling: an endpoint is one atomic operation on the maps, as each holds the mutex for all of it.
- Time: deadlines, tickers, polling intervals, contexts and backoff. A timeout is a step that may happen at any moment, where it matters at all.
- Both directions at once: `pumpStriped` closes everything when one direction ends. Exactness is about one direction whose streams are left open until they are read.
- Liveness after a failure: dead writers can leave the dispatcher blocked, and readers stay blocked when the destination fails. Progress is claimed for failure-free runs only.
- A Read that returns no bytes and no error, in the transition system: `Sender.CutSource` has it, and there it changes nothing.
- A destination that reports an error although it took every byte: it fails at the first payload it does not take whole.
- The close of the fan-in channel by the waiting goroutine, in the transition system: the Nth end of stream comes before it. `Reorder.Reassemble` has it.
- Random collisions: different session ids and nonces are hypotheses, and `StaleAnswerAccepted` shows that the second is needed.
- Liveness of the handshake: a peer-b attempt may answer an old offer and has to be retried. Only what peer-a accepts is claimed.
- A failed local dial and the bytes pumped after a successful one, in the router: an owner's life ends with the dial.
- Listening sockets, the reconnect loop, statistics, logging, flags, the benchmark program and the certificate.
- Loading a configuration from JSON, environment expansion and the default STUN servers.
