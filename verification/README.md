# xfr, modelled and proved

xfr is a bandwidth tester. Most of it is socket plumbing, but a handful of small
stateful components carry the promises users rely on: that `-n` sends exactly the
bytes asked for, that a path-MTU probe converges and does not credit a stale reply,
that protected control frames are accepted once and in order, that progress never
goes backwards, that pauses cost no test time, that a save never leaves half a file.
This project models those components in Dafny and proves their properties for every
input, every interleaving and every network.

One file holds one module, named after the component.

| file | component |
|---|---|
| `Basics.dfy`, `Bytes.dfy`, `Utf8.dfy` | machine integers, sums, byte orders, UTF-8 with lossy decoding |
| `Budget.dfy` | the byte budget: one atomic counter, a weak compare-and-swap loop |
| `SendMachine.dfy` | any number of send loops interleaved over that counter, step by step |
| `SendTurns.dfy`, `SendLoop.dfy` | one send loop as a function of what it meets, how its turns end, and the loop on its real channels, shown to be a path of that machine |
| `PauseWait.dfy` | waiting out a pause on two watch channels |
| `ProbeSearch.dfy`, `ProbePacket.dfy`, `ProbeDriver.dfy` | the size search, the probe codec and the driver over an arbitrary network |
| `ControlCodec.dfy`, `ControlFraming.dfy` | sealing and opening by sequence number; frames and lines over chunked input |
| `SharedSocketTee.dfy` | in-place compaction of received datagrams |
| `UdpProgress.dfy`, `IntervalAccounting.dfy`, `RunClock.dfy` | progress from two channels, interval deltas, pause-aware deadlines |
| `RateLimiter.dfy` | the per-address limiter among its guards and its cleanup |
| `AtomicSave.dfy` | saving a file over a file system that can crash |

What the program cannot choose is an input. The scheduler, the other loops acting
on a shared counter, the clock, the network, the arm of a `select!` that completes,
the system calls that fail and the moment of a crash are scripts or quantified
variables, so a result holds for all of them. Objects that the program updates in
place are classes whose methods are proved against specification functions; the
results about whole runs are lemmas about those functions. The ChaCha20-Poly1305
AEAD (section 2.8 of RFC 8439) is a pair of functions known only to be correct; that
the network cannot forge is a condition on what it delivers, and
`ControlCodec.PremisesCanBeMet` shows the two together are satisfiable.

## What turned out

Where a promise holds only under a condition, the condition is proved exact or a
concrete run shows what goes wrong without it.

- A cancelled stream can break the exactness of `-n`: if it is cancelled while it
  holds a claim after another stream has already seen zero and left, its bytes go
  back to nobody (`SendMachine.CancelAfterZeroLosesBytes`). How the streams end
  guarantees that exactly the budget is sent if and only if every one of them ends
  by seeing zero: any other exit, of any one stream, admits a run that loses bytes
  (`SendMachine.SentWheneverAllSawZero`).
- A change of the cancel channel back to `false` is ignored by the write's race and
  by a pause, but ends the loop as cancelled when it comes during a pacing sleep
  (`SendTurns.PaceIsFirst`, against `SendTurns.SelectIsFirst`).
- The comment on `UdpProgressFilter` says a delayed report can never clobber a
  fresher one. It can when the denominator has saturated: two snapshots with equal
  received counts both compare at `u64::MAX`. `UdpProgress.NewestIsStoredIff` gives
  the exact condition on the source.
- Plaintext control lines are decoded chunk by chunk, so a chunk boundary inside a
  multi-byte character corrupts the text. `ControlFraming.LinesReadBack` proves the
  text is right if and only if no boundary does that. Protected frames have no such
  limit, but a message of more than 1048552 bytes is sealed and then refused by the
  reader.
- The comment in `start_control_cancel_wait` says the wait after a cancel stays
  bounded even when the user cancels while paused. It does, but a pause requested
  after the cancel suspends it again (`RunClock.PauseAfterCancelWaits`). It is
  exactly three seconds if and only if no pause since is open or took any time
  (`RunClock.ThreeSecondsIff`).
- A save in place, for a file in a directory that is not writable, passes through a
  moment with neither the old contents nor the new, where a crash can leave anything
  (`AtomicSave.FileSystem.WriteWith`, `AtomicSave.InPlaceLosesBoth`).

## Model

| member | source | states |
|---|---|---|
| `Budget.ByteBudget.CompareExchangeWeak` | src/budget.rs:51-59 | the exchange succeeds only on the expected value, and may fail spuriously; either way the value observed is returned |
| `Budget.ByteBudget.Claim` | src/budget.rs:43-61 | the retry loop grants and leaves what the claim specification says, whatever the rivals do meanwhile, and never more than wanted |
| `Budget.ClaimIsAtomic` | src/budget.rs:43-61 | however many attempts are lost, a claim amounts to one step at a value the counter really had: it grants the smaller of that value and the want and takes exactly that off |
| `Budget.ByteBudget.Refund` | src/budget.rs:65-69 | a refund adds the bytes with 64-bit wrap-around; zero bytes touch nothing |
| `Budget.ByteBudget.IsSpent` | src/budget.rs:72-74 | spent exactly when a claim made now gets nothing, however much it wants |
| `Budget.ClaimOrFull` | src/budget.rs:79-84 | without a budget the full chunk is granted, otherwise the claim |
| `Budget.RefundUnwritten` | src/budget.rs:87-91 | exactly the unwritten part of a claim goes back |
| `SendMachine.BufferSize` | src/quic.rs:454-461 | a tenth of a second at the target rate, at least one byte and at most the default buffer of 128 KiB, which is also the size without a target |
| `SendMachine.InvStep` | src/quic.rs:493-571 | inductive core, kept by every step of every stream: bytes are conserved, and while counter or claims hold any, some stream has neither seen zero nor exited, or one left for another reason than a spent budget |
| `SendMachine.BudgetConserved` | src/quic.rs:494-571 | in every reachable state counter, outstanding claims and bytes sent add up to the budget; no refund wraps or lifts the counter above it |
| `SendMachine.ExactlyTheBudgetIsSent` | src/quic.rs:493-526 | if every stream left because its claim was 0, exactly the budget was sent and counted, although streams may leave while others still hold bytes |
| `SendMachine.SentAllIffCounterEmpty` | src/quic.rs:494-571 | however the streams ended, the statistics hold the whole budget if and only if the counter is zero |
| `SendMachine.SentWheneverAllSawZero` | src/quic.rs:468-573 | the exact condition for `-n`: for any budget, buffers and list of exits, every run that ends with these exits has counted the whole budget if and only if every exit is a claim of 0 |
| `SendMachine.LosingRun` | src/quic.rs:502-571 | for any exits of which one is a cancel, a deadline or an error there is a run that ends with them and has counted less than the budget |
| `SendMachine.CancelAfterZeroLosesBytes` | src/quic.rs:504-510 | a run in which one stream sees zero, another is cancelled with its claim, and nothing is sent |
| `SendMachine.CanAlwaysFinish` | src/quic.rs:468-573 | no such system is stuck: from every state in which no stream left early, some continuation sends exactly the budget |
| `SendTurns.SelectIsFirst` | src/quic.rs:502-522 | the `select!` answers at the first wake-up by which an arm is ready, with the first such arm in the order cancel, pause (if its channel was open), deadline, write, and goes on only while there is none; all of it read off the signals sent so far, the clock and the transport |
| `SendTurns.PaceIsFirst` | src/quic.rs:539-547 | so does the pacing sleep; it cancels the loop exactly on a change of cancel, of whatever value, or its closure |
| `SendTurns.HowTurnsEnd` | src/quic.rs:468-572 | the exact end of every turn, budgeted or not: when it ends as cancelled (a cancel on at its head or seen in a pause, the race or the sleep, or a write error in the teardown), at the deadline, on a spent budget, as failed, or goes on |
| `SendTurns.WhatTurnsChange` | src/quic.rs:502-565 | a turn counts exactly the bytes its write took and the rest of its claim is back in the counter; a turn that claims nothing leaves the counter alone |
| `SendTurns.TurnHears` | src/quic.rs:468-572 | the channels a turn leaves are those it found with every signal sent up to the wake-up it ended at, and no other |
| `SendTurns.CancelledTurnEnds` | src/quic.rs:469-547 | whenever in a turn a cancel comes, at its head, in a pause, the race or the sleep: a turn that leaves it on ends the loop as cancelled |
| `SendTurns.CancelIsLast` | src/quic.rs:468-573 | in a run of the loop no turn by which the cancel is on is followed by another |
| `SendTurns.CancelEndsTheLoop` | src/quic.rs:468-573 | a cancel sent while it had a sender, and not taken back by then, ends the loop as cancelled in the turn that hears it at the latest |
| `SendTurns.TurnMovesDeadline` | src/quic.rs:474-486 | a turn that waits out a pause moves the deadline by the time of the arrivals that ended it less the time of the turn; no other turn moves it |
| `SendTurns.DeadlineMovesByPauses` | src/quic.rs:474-486 | the deadline is its start plus the pauses waited out, for any turns |
| `SendTurns.NoWriteAfterTheEnd` | src/quic.rs:488-491 | no turn starts a write once the time not spent waiting out pauses has reached a finite duration |
| `SendTurns.WritesExactlyWhen` | src/quic.rs:468-498 | a turn starts a write exactly when it meets no cancel, pause or passed deadline and is granted bytes; a timed test always writes full buffers |
| `SendLoop.Race` | src/quic.rs:502-571 | after the `select!` channels, counter, statistics and end are those of the specified race: the arm that is ready first in the source's order, its refund at the counter the script gives, its exit |
| `SendLoop.SelectArm` | src/quic.rs:502-522 | arm, channels and wake-ups taken are those of the specified `select!`, and only the channel of the arm is consumed |
| `SendLoop.Leave` | src/quic.rs:504-568 | each arm that gives up the write leaves the loop, or not, as the source does, the teardown rule near the deadline included |
| `SendLoop.Deliver` | src/quic.rs:524-550 | a completed write hands back exactly what it did not take, counts what it took, and is paced |
| `SendLoop.PaceSleep` | src/quic.rs:539-547 | a pacing sleep ends as specified, after the wake-ups specified |
| `SendLoop.ClaimAndWrite` | src/quic.rs:493-572 | a turn past the deadline check acts as specified: it stays in the claim, ends on a spent budget, or starts one write of exactly what it was granted |
| `SendLoop.OneTurn` | src/quic.rs:468-572 | one turn of the loop, with the pause waited out by `wait_while_paused_timed`, acts as the turn specification says and starts just the write it says; a turn after which the cancel is on has ended as cancelled |
| `SendLoop.SendQuicData` | src/quic.rs:463-573 | for every script of turns the loop begins exactly the turns it should and ends as the last one does, with the specified channels, deadline, counter, statistics and writes; it never returns with a cancel on and another end |
| `SendLoop.ClaimFollows` | src/budget.rs:43-61 | the exchanges of a claim, at the counter values its rivals left, are steps of the stream automaton and end with what it granted |
| `SendLoop.TurnFollows` | src/quic.rs:468-572 | every turn, at the counter values of its script, is a path of the automaton to where the turn ends |
| `SendLoop.StepsLeaveTheCounter` | src/quic.rs:493-571 | the counter a turn leaves is the one its last automaton step on it leaves, refunds included |
| `SendLoop.LoopFollows` | src/quic.rs:468-573 | so is a whole loop, with the bytes it sent |
| `SendLoop.LoopsCompose` | src/quic.rs:468-573 | paths of the automaton interleaved over one counter are a run of the shared machine |
| `SendLoop.LoopsAreAMachineRun` | src/quic.rs:444-573 | loops whose scripts agree on one counter are a run of the shared machine that ends with each stream where its loop ended |
| `SendLoop.LoopsSendTheBudget` | src/quic.rs:493-526 | send loops over one counter that all end on a spent budget have together sent exactly the budget |
| `PauseWait.Receiver.PollChanged` | src/pause.rs:33-41 | a poll consumes an unseen version, or reports closure, or is pending |
| `PauseWait.LastSendIsRead` | src/pause.rs:20-22 | of what is sent on a channel while it has a sender the last value is the one read, and it is still to be seen |
| `PauseWait.LookDecides` | src/pause.rs:32-43 | what a look at the channels decides, exactly: the wait goes on while the pause is on and open and cancel is open with none new and on; it is cancelled by a new cancel that is on, or by a closed channel with nothing new on it |
| `PauseWait.WaitEndsAtTheFirst` | src/pause.rs:32-43 | the wait ends at the first burst of arrivals that decides it, and goes on only while nothing does |
| `PauseWait.WaitReceives` | src/pause.rs:28-44 | a wait leaves on the channels what was sent before it ended, every signal of it |
| `PauseWait.EndsForAReason` | src/pause.rs:32-43 | a resumed wait left a pause that is off or without a sender, a cancelled one a cancel that is on or without a sender |
| `PauseWait.WaitWhilePaused` | src/pause.rs:28-44 | result, arrivals consumed and the state of both channels are those of the specified wait, whatever arrives and however it is bunched; the loop cannot spin, its turns being at most one more than the versions unseen at entry and sent since |
| `PauseWait.WaitWhilePausedTimed` | src/pause.rs:49-57 | the same wait, and its time is that from the call to the arrivals that ended it, zero when there was no pause |
| `ProbeSearch.LadderBracketsTheRange` | src/probe.rs:196-214 | the ladder is strictly increasing, starts at the family's minimum, ends at its maximum, and is the list of seven (six) sizes |
| `ProbeSearch.SizeSearch.NextSize` | src/probe.rs:254-278 | the object is always where its history leads; asking again without recording gives the same size |
| `ProbeSearch.SizeSearch.BinaryMidpoint` | src/probe.rs:280-287 | none without an open bracket, otherwise a size strictly inside it that leaves at most half of it, rounded up |
| `ProbeSearch.SizeSearch.Record` | src/probe.rs:291-315 | recording appends to the history and narrows the bracket as the specification does |
| `ProbeSearch.SizeSearch.ForwardMaximum` | src/probe.rs:318-320 | the result is the largest size of the history that passed |
| `ProbeSearch.RunShape` | src/probe.rs:239-321 | after any verdicts the search is climbing, has failed at once, or holds a bracket that splits everything probed |
| `ProbeSearch.NeverProbesTwice` | src/probe.rs:254-315 | no size is probed twice and none lies outside the family's range, for every verdict sequence |
| `ProbeSearch.AtMostNineteenProbes` | src/probe.rs:254-315 | at most 19 sizes over IPv4 and 18 over IPv6, for every verdict sequence |
| `ProbeSearch.MostProbesAttained` | src/probe.rs:254-315 | for every first failing rung there is a run as long as the bound for it |
| `ProbeSearch.LimitIsAttained` | src/probe.rs:196-315 | 19 and 18 cannot be improved |
| `ProbeSearch.CompleteRun` | src/probe.rs:254-320 | a finished search, whatever the verdicts: the first rung failed and there is no result; or all rungs passed; or the result passed and the next size was probed and failed |
| `ProbeSearch.ForwardMaxIsLargestPass` | src/probe.rs:296-320 | at every point the result is the largest size that has passed |
| `ProbeSearch.FindsThePathLimit` | src/probe.rs:254-320 | for every threshold path the result is the largest payload of the family's range not above the threshold, or none below the minimum |
| `ProbeSearch.EveryRunCompletes` | src/probe.rs:254-278 | every run extends to a finished one against any environment, which may answer by what it has seen |
| `ProbePacket.Encode` | src/probe.rs:90-106 | the buffer starts with the 16-byte header and keeps its padding; too small a buffer or size writes nothing |
| `ProbePacket.HeaderLayout` | src/probe.rs:100-106 | the sixteen bytes of a header one by one, numbers with the high byte first |
| `ProbePacket.DecodeIsExact` | src/probe.rs:112-140 | decoding accepts exactly the datagrams that carry a packet, and names it |
| `ProbePacket.EncodeDecode` | src/probe.rs:90-140 | an encoded packet decodes to itself with any padding, and cut short by a byte it does not decode |
| `ProbeDriver.CollectReplies` | src/probe.rs:440-478 | an echo is heard exactly when a whole one for this attempt arrives in the window, an ack exactly when one does before that |
| `ProbeDriver.WhatIsHeard` | src/probe.rs:459-474 | arrival by arrival: an echo is of kind 3, for this attempt and exactly of its size; an ack is of kind 2 and before any such echo |
| `ProbeDriver.SendProbe` | src/probe.rs:358-366 | the `expect` on encoding never fails, and the bytes handed to the socket are a whole probe of the trial size under this sequence number |
| `ProbeDriver.Try` | src/probe.rs:356-390 | one attempt hands its probe to the socket and is refused, heard and echoed exactly as the network decides |
| `ProbeDriver.ProbeSize` | src/probe.rs:350-410 | the row obeys its bounds and explains its attempts: they go on until one echoes, one is refused or three are made, and each handed the socket a probe with its own sequence number |
| `ProbeDriver.HeardCountIsExact` | src/probe.rs:382-390 | the forward count of a row is the number of its attempts that were heard, each once |
| `ProbeDriver.ProbeSizes` | src/probe.rs:338-417 | the search loop: its rows are complete and explained, and its reverse maximum is the largest of them that echoed |
| `ProbeDriver.RunProbe` | src/probe.rs:338-434 | for every network the rows are a complete search of at most 57 (54) attempts, the two maxima are the largest passing rows and the reverse one is not above the forward one; over a path of MTU `w` the forward path MTU reported is `w`, at most 9216, and none below 576 (1280), and so is the reverse one when echoes return |
| `ProbeDriver.PathMtuIsFound` | src/probe.rs:424-430 | over a network that carries exactly the datagrams of at most `w` bytes with their headers, the largest passing payload with its headers is `w` within the range of the family |
| `ProbeDriver.ReverseIsForward` | src/probe.rs:404-430 | where every probe heard of is echoed the reverse maximum is the forward one |
| `ProbeDriver.ReverseBelowForward` | src/probe.rs:404-413 | the reverse maximum exists only with a forward one and does not exceed it |
| `ProbeDriver.AnswerNamesItsProbe` | src/probe.rs:463-473 | a reply credited to an attempt answers the probe of that very attempt, never an earlier one |
| `ProbeDriver.ForwardPassIsReal` | src/probe.rs:382-410 | over a network that drops, repeats, delays, reorders and cuts, a forward pass at a size means a probe of that size, sent for that row, reached the server |
| `ProbeDriver.ReversePassIsReal` | src/probe.rs:388-410 | a reverse pass means the row's last probe reached the server and an echo of it, of its full size, reached the client |
| `Bytes.LeEight` | src/control_crypto.rs:241-245 | what eight bytes of a sequence number spell, the low one first |
| `ControlCodec.NonceIsInjective` | src/control_crypto.rs:241-245 | different sequence numbers make different nonces |
| `ControlCodec.NonceAndAad` | src/control_crypto.rs:241-252 | both begin with the sequence number, low byte first; the nonce goes on with zeros, the associated data with 0 or 1 for the direction |
| `ControlCodec.Codec.SealMessage` | src/control_crypto.rs:256-278 | sealing returns the numbered frame and advances by one, or fails and leaves the state alone; at `u64::MAX` no frame comes out |
| `ControlCodec.Codec.OpenPayload` | src/control_crypto.rs:281-316 | opening accepts only the expected number and advances by one; any rejection leaves the state alone |
| `ControlCodec.OpensExactly` | src/control_crypto.rs:281-316 | exactly which payloads open, and which of the four errors every other one gets |
| `ControlCodec.FramesAreNumbered` | src/control_crypto.rs:256-278 | over any calls the frames returned are the sealed messages under consecutive numbers |
| `ControlCodec.NoncesAreDistinct` | src/control_crypto.rs:241-278 | no two frames a sender returns carry the same nonce, and none carries that of `u64::MAX` |
| `ControlCodec.AcceptedIsPrefixOfSealed` | src/control_crypto.rs:281-316 | whatever is fed to `open`, dropped, repeated, reordered or altered, the accepted plaintexts are a prefix of the messages sealed |
| `ControlCodec.NeverReflected` | src/control_crypto.rs:247-316 | what the sender of one direction made never opens in the other, at any number |
| `ControlCodec.OpenSealed` | src/control_crypto.rs:256-316 | a frame opens at its number to its message |
| `ControlCodec.FaithfulDelivery` | src/control_crypto.rs:256-316 | delivered in order, everything sealed is accepted |
| `ControlCodec.PremisesCanBeMet` | src/control_crypto.rs:198-316 | the assumptions on the cipher and the network are satisfiable: under a cipher that labels its output every frame is genuine |
| `Utf8.RoundTrip` | src/control_crypto.rs:554 | lossy decoding of the encoding of a text is the text |
| `ControlFraming.ChunkReader.ReadExact` | src/control_crypto.rs:543-551 | exactly the next bytes are consumed, whatever the chunks, or the input ends |
| `ControlFraming.LinePartsFlat` | src/control_crypto.rs:517-539 | the parts a line is read in are the content up to and including its first newline, wherever the chunks end |
| `ControlFraming.ReadLine` | src/control_crypto.rs:513-540 | a line over 1 MiB is an error; otherwise its parts are decoded one by one and exactly it is consumed |
| `ControlFraming.ControlReader.ReadMessage` | src/control_crypto.rs:504-558 | the protected read is a function of sequence number and flat content, so chunking never matters; the plain one reads a line |
| `ControlFraming.ControlWriter.EncodeMessage` | src/control_crypto.rs:567-580 | one frame, one sequence number, or a newline-terminated line |
| `ControlFraming.FrameLayout` | src/control_crypto.rs:570-579 | four bytes of length, the high one first, and the sealed payload |
| `ControlFraming.FrameIsReadSo` | src/control_crypto.rs:541-556 | what any bytes are read as: when they are too few, when the length is over a mebibyte, and otherwise what opening the payload gives, with what is left |
| `ControlFraming.FrameReadsBack` | src/control_crypto.rs:541-580 | a frame reads back as its message and is consumed exactly if and only if the message has at most 1048552 bytes |
| `ControlFraming.FramesReadBack` | src/control_crypto.rs:504-580 | for any messages up to that size the concatenated frames read back as the messages in order, leaving exactly what follows them |
| `ControlFraming.PartsDecodeIff` | src/control_crypto.rs:528-536 | decoding a text's bytes part by part gives the text if and only if no part begins inside a character |
| `ControlFraming.LineReadsBack` | src/control_crypto.rs:513-570 | one line read from any chunking: right text and sound rest exactly when the chunks are cut at characters |
| `ControlFraming.LinesReadBack` | src/control_crypto.rs:512-570 | for any newline-free messages in any chunking all reads succeed and consume everything, and the texts are the messages if and only if no chunk boundary falls inside a character |
| `SharedSocketTee.HelloChannel.TrySend` | src/quic.rs:299-301 | a hello is queued at the end when there is room, and dropped otherwise |
| `SharedSocketTee.FiltersAreExact` | src/quic.rs:277-303 | the QUIC datagrams and hellos of a batch are just its datagrams of that lane, in order: each datagram whole, each hello with its bytes and its sender |
| `SharedSocketTee.EqualBuffersKeepAll` | src/quic.rs:277-294 | with equal-size buffers compaction drops nothing: it is the stable filter |
| `SharedSocketTee.NothingForQuic` | src/quic.rs:312-314 | and nothing is left for QUIC exactly when no datagram of the batch is its |
| `SharedSocketTee.KeptIsStable` | src/quic.rs:277-294 | with any buffers the kept datagrams come from increasing places of the batch, are QUIC datagrams, and none moves up |
| `SharedSocketTee.Tee.MoveDown` | src/quic.rs:282-292 | the datagram and its metadata arrive at the lower slot, every other slot is untouched |
| `SharedSocketTee.Tee.Handle` | src/quic.rs:278-309 | each datagram is kept, diverted or dropped by its lane, and the loop's picture of the arrays is preserved |
| `SharedSocketTee.Tee.Compact` | src/quic.rs:277-310 | after the in-place loop the first slots hold the kept datagrams and the hellos have been offered in order |
| `SharedSocketTee.Tee.TakeBatch` | src/quic.rs:271-310 | for a whole batch as the inner socket delivers it |
| `SharedSocketTee.Tee.PollRecv` | src/quic.rs:258-326 | `Ready(0)` only for an empty batch, `Ready` at the first batch with something for QUIC, yielding only after exactly 16 without; the hello channel gets exactly the bytes and senders of the hellos of every batch polled while it has room, and with equal-size buffers a reader of the slots handed over sees exactly the bytes and senders of the QUIC datagrams, whatever stale bytes are behind them and cut or not |
| `SharedSocketTee.Tee.ReadsExactly` | src/quic.rs:282-296 | the slots handed over read as the QUIC datagrams of the batch |
| `SharedSocketTee.OutcomeIsUnique` | src/quic.rs:258-326 | the answer and the number of polls are determined by what the inner socket answers |
| `UdpProgress.ProgressFilter.Apply` | src/client.rs:618-631 | a snapshot is let through and stored, or refused and nothing changes, as the history of the filter says |
| `UdpProgress.AcceptedNeverGoesBack` | src/client.rs:618-631 | whatever is applied in any order, what is let through never falls in either coordinate, so no gap repair is undone |
| `UdpProgress.LaterOneWins` | src/protocol.rs:298-304 | of two snapshots of one growing source the order keeps the later one |
| `UdpProgress.NewestIsStoredIff` | src/client.rs:618-631 | the filter holds the newest snapshot delivered for every order, loss and repetition if and only if every tie in received counts is below saturation |
| `UdpProgress.NoOverflowIsEnough` | src/protocol.rs:298-304 | denominators that fit 64 bits meet that condition |
| `UdpProgress.SaturatedTieGoesBack` | src/protocol.rs:298-304 | two snapshots of a growing source of which the late one overwrites the newest |
| `UdpProgress.Aggregate` | src/client.rs:236-246 | adding saturating, stream by stream, gives the sums of the counters cut off once |
| `UdpProgress.AggregateOnlyGetsFresher` | src/client.rs:680-693 | slots that only get fresher make an aggregate that only gets fresher, saturated or not |
| `UdpProgress.FeedbackSlots.Store` | src/udp.rs:1326-1345 | a feedback packet is stored exactly when it names its stream, the slot exists and it is as fresh; it then is the slot, and nothing else changes |
| `UdpProgress.EveryTickIsAccepted` | src/client.rs:678-701 | as long as no control report comes in between, for any packets, late, lost, repeated or forged, every non-empty aggregate is let through |
| `UdpProgress.OnlyReportsHoldTicksBack` | src/client.rs:678-701 | with control reports of any content mixed in, an aggregate is refused only when a report was let through last |
| `UdpProgress.LaterTicksAreFresher` | src/client.rs:678-701 | of any two aggregates of a run the later is at least as fresh |
| `UdpProgress.DirectionCache.Update` | src/main.rs:1064-1082 | the cache holds the filter's snapshot with the last jitter measured by an update it took |
| `UdpProgress.LastJitterIs` | src/main.rs:1064-1082 | the jitter kept is that of the last update taken in that measured one |
| `UdpProgress.JitterWasMeasured` | src/main.rs:1064-1082 | a jitter kept was measured by an update taken in |
| `UdpProgress.CacheNeverGoesBack` | src/main.rs:1064-1082 | over any queue order the cache never falls in either coordinate and never forgets a jitter |
| `UdpProgress.CacheHoldsNewest` | src/main.rs:1980-1986 | it holds the newest snapshot queued, in whatever order, when they come from one growing source |
| `IntervalAccounting.DeltasTelescope` | src/client.rs:182-186 | saturating deltas sum to the last reading less the first plus every fall |
| `IntervalAccounting.ExactIffNeverFalls` | src/client.rs:182-186 | they are exact if and only if no reading falls |
| `IntervalAccounting.UdpRecvIntervalDeltas` | src/client.rs:170-191 | per-stream deltas, their total and the baselines left behind, with streams beyond the baselines counted from zero |
| `IntervalAccounting.EachStreamHasItsOwnDeltas` | src/client.rs:170-191 | over any number of calls what is reported of a stream is the deltas of its own readings |
| `IntervalAccounting.BytesAreCountedOnce` | src/client.rs:170-191 | for a counter that only grows they sum to its last reading |
| `IntervalAccounting.TotalsTelescope` | src/client.rs:170-191 | the totals of the calls add up to the final readings of all streams plus the falls |
| `IntervalAccounting.LossRows.Process` | src/main.rs:1982-2126 | one update changes cache, baseline and last interval and prints a row as the step function says |
| `IntervalAccounting.StreamLossIsTheSum` | src/main.rs:2116-2122 | without cumulative progress the loss is the sum over the streams that report one, and none if none does |
| `IntervalAccounting.IntervalIsItsWindow` | src/main.rs:2086 | the interval of an update is the one of the configured length, in milliseconds, that its time falls in |
| `IntervalAccounting.PrintsExactlyWhen` | src/main.rs:2073-2090 | a row is printed exactly for a full update past the omitted seconds, not quiet, at or after the end of the interval printed last |
| `IntervalAccounting.PrintedLossTelescopes` | src/main.rs:2110-2115 | from any state, printed losses add up to the last printed cumulative less the baseline plus the falls between rows, so they never under-report |
| `IntervalAccounting.OmitMovesTheBaseline` | src/main.rs:2073-2078 | after an omitted row the baseline is the loss known then: what was lost in omitted seconds is never printed |
| `IntervalAccounting.PrintedLossIsBounded` | src/main.rs:1982-1986 | without 64-bit overflow they never exceed the packets expected in the meantime either |
| `IntervalAccounting.RowsAdvance` | src/main.rs:2085-2090 | rows are for strictly increasing intervals |
| `IntervalAccounting.OneRowPerWindow` | src/main.rs:2085-2090 | in milliseconds: of two rows the later is printed at or after the end of the interval the earlier fell in, so no interval has two |
| `RunClock.Clock.constructor` | src/client.rs:1307-1349 | the clocks a run starts with; the response deadline is 365 days away for a test without an end and otherwise its duration and thirty seconds |
| `RunClock.Clock.PauseRequested` | src/client.rs:1548-1565 | the first pause request is recorded; a resume extends deadline, local end and paused total by the same time |
| `RunClock.Clock.StartControlCancelWait` | src/client.rs:90-99 | the deadline becomes three seconds from now and an open pause is dropped |
| `RunClock.Clock.LocalEndReached` | src/client.rs:1595-1606 | fires exactly when enabled, and once |
| `RunClock.Clock.TickReached` | src/client.rs:1623-1663 | shows elapsed time exactly when a local clock paces progress, the local stop has not been sent and no pause is open |
| `RunClock.Clock.ResponseTimedOut` | src/client.rs:1687-1697 | fires exactly at or after the deadline with no pause recorded |
| `RunClock.LocalEndTracksPauses` | src/client.rs:1548-1565 | after any pauses, resumes and cancels the local end is its start plus the duration plus the pauses credited, which fit into the time passed |
| `RunClock.LocalStopMeasuresUnpausedTime` | src/client.rs:1595-1606 | the local stop can fire exactly when the test is timed, not stopped yet, no pause is open, and the time less the pauses that ended, read off the events, has reached the duration |
| `RunClock.ElapsedNeverDecreases` | src/client.rs:1634-1663 | elapsed times shown never decrease, and their subtraction never saturates |
| `RunClock.DeadlineMovesWithPauses` | src/client.rs:1557-1565 | without a cancel the response deadline moves by exactly the pauses credited |
| `RunClock.TimeoutBeforeCancel` | src/client.rs:1307-1349 | without a cancel the timeout can fire exactly when no pause is open and the time less the pauses that ended has passed that deadline |
| `RunClock.PauseCountsItsLength` | src/client.rs:1548-1565 | a pause that ends counts from the request that began it to its resume, however often it is asked for meanwhile |
| `RunClock.DeadlineAfterCancel` | src/client.rs:90-99 | from the last cancel on it is three seconds after it plus the pauses credited since, exactly three seconds if and only if there were none |
| `RunClock.CancelledPauseIsNotCredited` | src/client.rs:90-99 | a pause ended by a cancel moves neither the local end nor the paused total, nor does a resume after it |
| `RunClock.CancelWaitIsBounded` | src/client.rs:1498-1507 | with no pause requested after the cancel the timeout can fire exactly from three seconds after it |
| `RunClock.ThreeSecondsIff` | src/client.rs:1548-1565 | the exact condition: after a cancel the timeout can fire from exactly three seconds on if and only if, by the events since, no pause is open and those that ended took no time |
| `RunClock.OpenIffNotResumed` | src/client.rs:1553-1557 | a pause is open exactly when one was asked for and no resume followed |
| `RunClock.PauseAfterCancelWaits` | src/client.rs:1553-1557 | after a cancel, a pause that is neither resumed nor cancelled keeps the timeout from firing, however late and whatever else happens |
| `RateLimiter.Limiter.Check` | src/rate_limit.rs:41-61 | admits below the limit, counting one more and refreshing the entry, otherwise refuses with the count; a new entry is made either way and no other address is touched |
| `RateLimiter.Limiter.Release` | src/rate_limit.rs:64-68 | one off the address's count, never below zero, nothing without an entry |
| `RateLimiter.Limiter.Cleanup` | src/rate_limit.rs:76-82 | a sweep in any order removes exactly the entries without a guard whose last access is a window ago or more, and changes no other |
| `RateLimiter.AdmittedIsRemembered` | src/rate_limit.rs:41-82 | an address admitted at some time keeps its entry for a whole window after, whatever checks, drops and sweeps come in between |
| `RateLimiter.CountIsLiveGuards` | src/rate_limit.rs:41-82 | over every interleaving of checks, guard drops and per-entry cleanup steps the count is the number of live guards and at most the limit |
| `RateLimiter.CheckCountsLiveGuards` | src/rate_limit.rs:41-61 | a check is admitted exactly when fewer guards are alive than the limit, and a refusal names their number |
| `RateLimiter.ReleaseNeverSaturates` | src/rate_limit.rs:121-138 | the drop of a live guard always finds its entry with a positive count |
| `RateLimiter.CleanupIsInvisible` | src/rate_limit.rs:76-82 | every check is answered exactly as by a limiter that never cleans up |
| `AtomicSave.FileSystem.WriteInPlace` | src/persistence.rs:113-123 | a regular file is truncated first, then holds exactly the part of the contents that was written, all of it on success, with its permissions; a device receives that part; when it cannot be opened nothing changes |
| `AtomicSave.FileSystem.WriteTemporary` | src/persistence.rs:162-166 | piece by piece, a reader and a crash see nothing of it |
| `AtomicSave.FileSystem.Publish` | src/persistence.rs:159-183 | data is synced before the rename, every point is safe, permissions are kept, and each failure is reported as the source does |
| `AtomicSave.FileSystem.WriteWith` | src/persistence.rs:125-183 | outside the two in-place cases, after every effect of a save the target is wholly old or wholly new to readers and to crashes; success publishes exactly the contents with the old permissions, failure leaves everything. In those two cases disk and device are the in-place ones, and with something to lose some recorded point is not whole, so the exception is exact. The error is the first one. A successful save leaves every link of the chain its path begins as it was, and the name at the end of that chain reads exactly the contents |
| `AtomicSave.SavesExactlyWhen` | src/persistence.rs:55-183 | exactly when a save succeeds, for every disk, chain of links and set of failing calls |
| `AtomicSave.RefusedAs` | src/persistence.rs:55-88 | a directory, a read-only file, a dangling link and too long a chain of links are refused, each with its error |
| `AtomicSave.FileSystem.Do` | src/persistence.rs:113-183 | every effect is recorded and the record always ends with the disk, each entry one effect after the one before |
| `AtomicSave.PublishedIsWhole` | src/persistence.rs:167-181 | the rename of synced data is safe at every crash, and with the directory synced nothing else can survive |
| `AtomicSave.UnsyncedRenameLosesBoth` | src/persistence.rs:167-170 | without the sync a crash after the rename could leave any bytes |
| `AtomicSave.FailedSaveChangesNothing` | src/persistence.rs:142-170 | a failed save leaves every name as it was, to readers and crashes, and no temporary name unless removing it failed |
| `AtomicSave.SavedReadsBack` | src/persistence.rs:167-182 | a successful one reads back exactly, leaves no temporary name, and survives every crash once the directory is synced |
| `AtomicSave.LinksAreFollowed` | src/persistence.rs:133-140 | after the file at the end of a chain of links is replaced the chain still leads there |
| `AtomicSave.InPlaceLosesBoth` | src/persistence.rs:113-123 | in place there is a moment with neither the old nor the new contents |

## Left out

- Sockets, DNS, TLS, QUIC, Multipath TCP, `TCP_INFO`, mDNS, Pushgateway: I/O and foreign calls appear only as nondeterministic inputs.
- The cryptographic primitives and key derivation are uninterpreted, and no security claim is made beyond acceptance in order.
- The constant-time comparison of proofs, the host and port splitting and the receive-side cancel helper: easy facts that nothing here needs.
- The terminal interface, configuration, themes, update check, output formats and the server's own statistics.
- Memory ordering of atomics: the counter's operations are sequentially consistent here, as for any single atomic variable.
- `SendLoop.SendQuicData`: does not model whether and how long a write is paced, which is floating-point arithmetic on a baseline of bytes and time (the script says if and how a pacing sleep ends), nor the closing of the stream or the wait for the final acknowledgement.
- `SendLoop.SelectArm`: reads a channel's value at the wake-up that makes an arm ready; a change between that wake-up and the arm's own reading counts as arriving with it or after it.
- `PauseWait.WaitWhilePaused`: does not model which arrivals wake the waiting loop when; they come in bursts of any size, and a script that ends leaves the wait still waiting.
- `ProbeDriver.CollectReplies`: does not model the length of the reply window, which ends where its list of arrivals ends.
- `ProbeDriver.ForwardPassIsReal`: takes the server only as a responder that answers probes it received; its own code is not part of this model.
- `ControlFraming.FrameReadsBack`: does not cover messages of 2^32 bytes, whose length prefix is cut.
- The combined reader and writer of `ProtectedControl` before it is split: the same reads and writes as the halves modelled here.
- The path-MTU exchange on the control channel reads and writes raw lines and is not covered by the framing results.
- `SharedSocketTee.Tee.PollRecv`: models each buffer as a value of fixed size in an array, so borrowed slices cannot alias; with buffers of different sizes it does not promise that a cut datagram moved to a larger one reads as its bytes alone; the hello channel is not drained during one poll, and a closed channel is not distinguished from a full one.
- `UdpProgress.DirectionCache.Update`: takes jitters as given reals; how they are averaged is not modelled.
- `IntervalAccounting.UdpRecvIntervalDeltas`: does not model overflow of the 64-bit total.
- `IntervalAccounting.LossRows.Process`: treats the interval length and the elapsed seconds as exact numbers, and output of a row as never failing.
- `RunClock.LocalEndTracksPauses`: covers the TCP and UDP control loop; the QUIC one has the same pause and cancel handling and no local end.
- `RateLimiter.Limiter.Check`: models the sharded map as one map whose entry operations are atomic, as its entry guards make them, and counts as unbounded, which the limit makes exact.
- `AtomicSave.FileSystem.WriteWith`: says nothing of links when the path is reported missing as it is looked at again, where the code replaces the path itself; models one flat directory with links and devices in it, a temporary name and file that are new, and no other writer; the permission bits and the mask applied to a new file are inputs.
- The check of a destination before a test starts (`check_destination`), which repeats the inspection modelled here.
