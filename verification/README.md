# Verified model of libpaxos

A Dafny model of the Paxos core of libpaxos: the acceptor, proposer and learner state machines, the
event handlers around the proposer, and the parts they stand on (hash table, ring buffer, quorum
counter, in-memory storage, datagram codec). The main results are statements over every run of a
system of acceptors, proposers and learners whose network may lose, duplicate and reorder messages:
agreement, locked values, one total order of deliveries, validity, conservation of client values, and
delivery of a value no more often than it was submitted.

`dafny verify dfyconfig.toml` checks everything.

## How it is organised

Each role appears twice. `AcceptorSpec`, `ProposerSpec` and `LearnerSpec` say what one call does as a
function of the role's state. `Acceptor`, `Proposer`, `Learner`, `Storage`, `Timeouts` and
`EvProposer` are classes that work as the C code does (tables scanned bucket by bucket, a ring buffer,
in-place updates, loops that drain), and each method is proved to do exactly what the function says.
`Protocol` runs the functions of all roles against one network. So the system theorems hold of the
imperative code: `Refinement.HandlerIsRun` turns a whole event handler into consecutive system steps.

- `Probing`, `KHash`, `Words`, `FiniteSets`: triangular probing, 32-bit rounding and masking, and the open-addressing table, up to "any sequence of
  operations answers like a finite map".
- `CArray`, `Quorum`: the ring buffer as a FIFO queue, the quorum counter as a set.
- `AcceptorSpec`, `AcceptorHistory`, `Storage`, `Acceptor`: an acceptor's record is a function of the replies it has sent and the trims it was given.
- `ProposerSpec`, `Proposer`, `Rounds`, `ProposerHistory`: the proposer, what whole phases do, and its state told from its history of calls.
- `Timeouts`, `EvProposer`, `Clocks`: the resend drain, the handlers, and what is resent after any history.
- `LearnerSpec`, `LearnerFacts`, `LearnerHistory`, `Learner`: the quorum test against a reference that tests every ballot, holes, and a learner's history.
- `Protocol`, `Invariant`, `Preservation`, `ProposerSafety`, `Conservation`, `SystemSafety`, `Agreement`,
  `AtMostOnce`, `Refinement`: the system, its inductive invariant, and the theorems.
- `Codec`, `Wire`: the big-endian datagram format, and the messages of a run sent through it.
- `Scenarios`, `Progress`, `Limits`: building runs, runs that deliver, and runs that show what fails without a hypothesis.

## What a run is

`Protocol.IsRun` is any finite sequence of steps from the initial state: any number of acceptors and
learners, and up to ten proposers with different ids, as the ballot numbering demands. Acceptors may trim, repeat records and
report their state at any time, proposers may jump ahead, prepare an instance again, time out and resend at any time, learners may be
told at any time that a value was chosen or to go on from another instance, and the clock is an arbitrary input. Ballots are 32
bits wide in a proposer and cut to 16 bits in messages, as in the source; no bound on them is assumed. Four things are asked of
a run. For each `Limits` has a run of the code that breaks only that one and in which two learners disagree:

- Client values are not empty. A promise that reports an empty vote counts as reporting none
  (`Limits.EmptyBreaksAgreement`, `Rounds.KnownUnlessEmpty`).
- A record is repeated only while the acceptor has promised nothing above its vote. After that the repeated record
  carries the promised ballot instead of the voted one (`Limits.RepeatIsVote`, `Limits.RepeatsBreakAgreement`).
- A learner is told that a value was chosen only with an ack on which some proposer's `proposer_receive_accepted` returned 2, which is
  how the leader of `p4xos` makes such messages (`Agreement.NoticeIsChosen`, `Limits.NoticesBreakAgreement`).
- `proposer_prepare_instance` is called only for an id the proposer has moved past, and only when the instance is in phase one with a ballot
  that does not wrap or was never requested by this proposer. The leader of `p4xos` calls it with whatever id a learner asks for.
  (`Limits.ReopenIsNew`, `Limits.ReopeningBreaksAgreement`, `Limits.ReopeningAheadBreaksAgreement`).

Gap recovery by learners is not modelled.

## Where the code and its comments differ

- The comment on the learner's quorum test speaks of a quorum for the same value and ballot; the code compares ballots
  only. The model follows the code. That a majority at one ballot also agrees on the value is a theorem about runs.
- The packer writes no type tag for a client value, so `Codec.ClientValueRoundTrip` is an equivalence and not a round trip.
- The packer's length for prepare, preempted and client-value messages leaves out the value bytes it has written;
  `Codec.SentBytesSuffice` says exactly when the receiver still gets the message.

## Model

| member | source | states |
|---|---|---|
| `Agreement.LearnersAgree` | paxos/learner.c:122-183 | agreement: two learners, or one learner at two moments, never close an instance with different values, in any run, whether they hear votes or that a value was chosen, and however they are moved between instances |
| `Agreement.ChosenBindsHigher` | paxos/proposer.c:172-219 | once a majority has accepted a value at some ballot, every accept request for the instance at a higher ballot carries that value (induction over ballots) |
| `Agreement.ChosenUnique` | paxos/acceptor.c:99-124 | at most one value is ever accepted by a majority for an instance |
| `Agreement.ChosenIsLocked` | paxos/proposer.c:488-502 | across a whole run, whatever acceptors trim: after a majority accepted a value no proposer sends another one at a higher ballot |
| `Agreement.RequestsAgree` | paxos/proposer.c:369-380 | two accept requests of a run with the same instance and ballot carry the same value, whoever sent them, resends included |
| `Agreement.TotalOrder` | unit/replica_unittest.cc:48-71 | two learners that began to deliver at the same instance deliver it, the next, and so on, with the same values; one of the two sequences is a prefix of the other |
| `Agreement.DeliveriesNumbered` | paxos/learner.c:197-211 | over any run and any moves, from each point at which a learner was told where to go on it delivers consecutive instances beginning there |
| `Agreement.DeliveriesAgree` | paxos/learner.c:197-211 | any two learners deliver the same value wherever their deliveries overlap |
| `Agreement.MovedLearner` | paxos/learner.c:122-127 | a learner moved to an instance id before its first delivery delivers the ids after it, in order |
| `AtMostOnce.ChosenAtMostSubmitted` | paxos/proposer.c:221-292 | in runs that drop no open instance carrying a client value, a value is chosen in no more instances than it was submitted, over all proposers |
| `AtMostOnce.DeliveredAtMostSubmitted` | unit/replica_unittest.cc:48-71 | in such runs a learner that was told where to begin only before its first delivery delivers a value no more often than it was submitted |
| `AtMostOnce.HeldStep` | paxos/proposer.c:256-292 | a proposer keeps a client value with its instance until the value is retired there or another one is chosen there |
| `AtMostOnce.RequestHeld` | paxos/proposer.c:221-254 | a request carries a client value its proposer holds for that instance, or a value requested there before |
| `Agreement.DeliveredWasProposed` | paxos/proposer.c:113-119 | validity: every delivered value was given to some proposer by a client |
| `Agreement.ValuesConserved` | paxos/proposer.c:256-292 | at every moment of every run each submitted value is, with multiplicity, queued, attached to an open instance, or retired, and a retired value was chosen in its instance |
| `Agreement.ReportedCloseIsReal` | paxos/proposer.c:256-292 | return code 2 means a majority of distinct acceptors accepted the requested value at the instance's current ballot |
| `Agreement.NoticeIsChosen` | p4xos/src/p4xos_leader.c:108-127 | an ack that closed an instance, which the leader sends on as chosen, names an instance, ballot and value accepted by a majority |
| `Agreement.TablesDisjoint` | paxos/proposer.c:408-421 | in every reachable state no instance is in both tables, each sits under its own id at a ballot that belongs to the proposer |
| `Agreement.CounterGrows` | paxos/proposer.c:127-149 | the next-instance counter never decreases over a run |
| `Agreement.OpenedOnce` | paxos/proposer.c:138-149 | of two openings by one proposer in a run the later is for a larger instance id |
| `Agreement.ClosedIsChosenNow` | paxos/learner.c:490-518 | a learner closes an instance only with a value a majority has accepted |
| `SystemSafety.InitInv` | paxos/proposer.c:85-98 | the inductive invariant holds initially |
| `SystemSafety.StepInv` | evpaxos/evproposer.c:83-156 | every step of every role keeps the invariant |
| `SystemSafety.RunInv` | evpaxos/evproposer.c:83-156 | the invariant holds in every state of every run |
| `SystemSafety.AcceptorNext` | paxos/acceptor.c:72-150 | every acceptor step keeps the whole system's invariant, trims included |
| `SystemSafety.ProposerNext` | paxos/proposer.c:172-327 | every proposer step keeps the whole system's invariant |
| `SystemSafety.LearnerActs` | paxos/learner.c:141-211 | every learner step keeps that its stored acks are real votes and its final values chosen ones |
| `SystemSafety.NoticeOk` | paxos/learner.c:165-183 | an instance replaced on a chosen message holds only acks for the chosen ballot and value, and closes with nothing else |
| `SystemSafety.AcksChoose` | paxos/learner.c:490-518 | a majority of stored acks at one ballot, votes and chosen messages mixed, means that its value was chosen |
| `SystemSafety.CoreStep` | paxos/proposer.c:172-327 | after any proposer call every open instance still has the promises and votes it has counted, at its current ballot |
| `ProposerSafety.ReadyIsJustified` | paxos/proposer.c:221-254 | an instance with a promise quorum is safe to send: its value is the one of the highest reported vote, or there was none |
| `ProposerSafety.ReopenStep` | paxos/proposer.c:152-170 | preparing an instance again, where it may be done, keeps both tables and all requests of the proposer in order |
| `ProposerSafety.SetInstanceEmpties` | paxos/proposer.c:127-136 | an advancing set-instance-id leaves both tables empty |
| `Preservation.PromiseSent` | paxos/acceptor.c:72-97 | a granted prepare adds a promise that is true of the votes sent before |
| `Preservation.VoteSent` | paxos/acceptor.c:99-124 | a granted accept adds a vote without breaking any promise sent before |
| `Conservation.HoldingStep` | paxos/proposer.c:113-327 | one proposer call adds or removes client values only by submitting or retiring them, whatever it moves between queue and tables |
| `Conservation.ConservedStep` | paxos/proposer.c:113-327 | the balance of submitted, held and retired values is kept by every proposer step |
| `ProposerSpec.PendingSplit` | paxos/proposer.c:423-440 | the values attached to a table do not depend on the order it is walked in |
| `Refinement.HandlerIsRun` | evpaxos/evproposer.c:83-134 | an event handler is a run of the system with exactly one step per call it makes, in order; it ends with the state and messages of the handler, and the other proposers, the acceptors and the learners are unchanged |
| `Wire.MessagesSurvive` | net/message_pack.c:211-292 | with at most 65536 acceptors every message of every run, packed, cut to the computed length and unpacked, comes out unchanged |
| `Progress.ValueDelivered` | evpaxos/evproposer.c:117-126 | from every initial state, with any number of acceptors of which any quorum answers, a client value given to any proposer is delivered by any learner in some run |
| `Progress.RivalDelivered` | paxos/acceptor.c:99-124 | the same for a contested instance: a proposer with a higher ballot gets its value delivered while a lower request is out |
| `Scenarios.Choose` | paxos/proposer.c:138-254 | from any reached state a proposer with a queued value and any quorum of willing acceptors can get the value chosen in its next instance, and nothing else changes |
| `Rounds.AnyPromises` | paxos/proposer.c:172-219 | phase one for any promises at all: the ballot went up at each promise above it, exactly the distinct acceptors that promised the present ballot since it was taken are counted, the first highest vote they reported is known, the client value and everything else are as before |
| `Rounds.OutbidAnswered` | paxos/proposer.c:189-194 | every promise above the ballot of the moment, and no other, is answered by a prepare at the new ballot |
| `Rounds.TenPerOutbid` | paxos/proposer.c:388-395 | the ballot after any promises a message can carry is the first one plus ten for each promise above it |
| `Rounds.PhaseOne` | paxos/proposer.c:172-219 | when none of the promises is above the instance's ballot: it has counted exactly the distinct acceptors at its ballot and knows the first highest vote among their first promises; nothing else changes |
| `Rounds.KnownUnlessEmpty` | paxos/proposer.c:205-216 | after phase one the instance knows the highest vote among the counted promises exactly when the value of that vote is not empty |
| `Rounds.PhaseTwo` | paxos/proposer.c:256-292 | whatever acks arrive: the instance is open exactly while fewer than a quorum of distinct acceptors acked its ballot; exactly the ack that completes the quorum returns 2, and 0 is returned exactly when the instance is closed or the ack adds no acceptor |
| `Rounds.RoundCompletes` | paxos/proposer.c:172-292 | promises of a majority and acks of a majority carry the smallest open instance through; without a client value it takes the head of the queue; its client value is back at the end of the queue exactly when another value took its place |
| `Rounds.PreemptedExactly` | paxos/proposer.c:294-318 | a preempted reply has an effect exactly when it is above the ballot of an instance in phase two; that instance is then in phase one only, fresh, with its client value and a ballot ten up, and the one message is the prepare at that ballot; no other instance and no queued value changes |
| `Rounds.PreemptedRecovers` | paxos/proposer.c:294-318 | a preempted instance is carried through by promises and acks of a majority at the ballot ten up, with the client value it had |
| `ProposerHistory.OpensOneAbove` | paxos/proposer.c:138-149 | over any calls, each opening is for the instance one above the largest id opened, set by the caller or reported trimmed before, at the first ballot of the proposer |
| `ProposerHistory.NoGap` | paxos/proposer.c:138-149 | without ids set or reported trimmed, the instances opened are 1, 2, 3 and so on |
| `ProposerHistory.NextIsLargest` | paxos/proposer.c:127-149 | the counter is the largest id opened, set or reported trimmed so far |
| `ProposerHistory.StartRule` | paxos/proposer.c:138-219 | over any calls, phase one of an instance starts exactly when it is opened or prepared again, or when a promise or preempted reply above its ballot comes in; it starts fresh, ten up and with its client value, or new at the first ballot |
| `ProposerHistory.PhaseOneIsHistory` | paxos/proposer.c:172-219 | over any calls, an instance in phase one has counted exactly the acceptors that promised its ballot since it last started, and knows the first highest vote they reported |
| `ProposerHistory.PhaseTwoIsHistory` | paxos/proposer.c:256-292 | an instance in phase two has counted exactly the acceptors that accepted its ballot since its request, and they are no majority |
| `ProposerHistory.RequestRule` | paxos/proposer.c:221-254 | a request is sent for the smallest instance exactly when a majority has promised its ballot since it last started and there is a vote, a client value or a queued value |
| `ProposerHistory.PhasesExactly` | paxos/proposer.c:127-318 | an instance is in phase one from its start to its request, and in phase two from its request to a preemption or to the ack that completes a majority, unless the proposer goes past it; no other call moves it |
| `ProposerHistory.ClockIsLastPrepare` | paxos/proposer.c:397-406 | an instance in phase one has the ballot of the last prepare sent for it, and its clock runs from that call |
| `ProposerHistory.ClockIsLastAccept` | paxos/proposer.c:369-380 | an instance in phase two is the one last requested; its clock runs from the last resent request, or else from the last prepare |
| `ProposerHistory.FirstInFirstOut` | paxos/proposer.c:113-119 | over any calls the queue holds what was submitted or given back and not yet taken, in order, and the next instance without a value takes the oldest |
| `AcceptorHistory.RecordIsHistory` | paxos/acceptor.c:72-150 | after any request sequence the stored record of every untrimmed instance is determined by the replies: highest ballot granted, last vote; nothing else is stored |
| `AcceptorHistory.AnswerRule` | paxos/acceptor.c:72-124 | after any requests, a prepare or accept is answered exactly when its instance is above the largest trim asked for before; an accept is granted exactly when no higher ballot was promised or accepted before; a prepare is answered by a promise at the larger of its own and the recorded ballot |
| `AcceptorHistory.PromiseReports` | paxos/acceptor.c:72-97 | every promise reports the last vote cast for the instance, at the highest ballot granted |
| `AcceptorHistory.PreemptedReports` | paxos/acceptor.c:99-124 | a preempted reply names the ballot the acceptor is bound to, which is above the request |
| `AcceptorHistory.NoVoteBelow` | paxos/acceptor.c:99-124 | after answering at a ballot, an acceptor never votes below it in that instance |
| `AcceptorHistory.TrimmedIsSilent` | paxos/acceptor.c:138-150 | an instance at or below the largest trim asked for has no record, and nothing is said about it again |
| `AcceptorHistory.TrimSilences` | paxos/acceptor.c:72-150 | after a trim request, every later prepare or accept at or below it gets no answer |
| `AcceptorHistory.RecordsExactly` | paxos/acceptor.c:138-150 | after any requests there is a record of exactly the instances that were promised or accepted and lie above every trim asked for, and it is the record of the history |
| `AcceptorHistory.RepeatReports` | paxos/acceptor.c:126-136 | a repeat is answered exactly above every trim, when the last vote has a value, and with the record of the history |
| `AcceptorHistory.ReportIsMax` | paxos/acceptor.c:152-157 | the reported state is the largest trim ever asked for |
| `Acceptor.AcceptorRole.constructor` | paxos/acceptor.c:46-63 | a new acceptor has promised nothing |
| `Acceptor.AcceptorRole.ReceivePrepare` | paxos/acceptor.c:72-97 | over the hash table, the call answers and stores exactly what the specification says; if the record cannot be stored nothing is answered |
| `Acceptor.AcceptorRole.ReceiveAccept` | paxos/acceptor.c:99-124 | the same for accept requests |
| `Acceptor.AcceptorRole.ReceiveRepeat` | paxos/acceptor.c:126-136 | the stored record is repeated exactly when it has a value |
| `Acceptor.AcceptorRole.ReceiveTrim` | paxos/acceptor.c:138-150 | over the hash table, the specified step: only an advancing trim does anything, and exactly the records above it survive (what trims do over any requests: `AcceptorHistory.RecordsExactly`) |
| `Acceptor.AcceptorRole.CurrentState` | paxos/acceptor.c:152-157 | the reported state of the specification |
| `Storage.MemStorage.Get` | paxos/storage_mem.c:84-94 | the record stored last for the instance, if any |
| `Storage.MemStorage.Put` | paxos/storage_mem.c:96-114 | replaces exactly one record, or reports failure and changes nothing |
| `Storage.MemStorage.Trim` | paxos/storage_mem.c:116-132 | deleting while walking the table leaves exactly the records above the trim point |
| `LearnerFacts.QuorumTestExact` | paxos/learner.c:490-518 | counting only the ballot of the last stored ack is exact: an instance is open exactly while no ballot was ever held by a majority of its acks, and closes on the first that is |
| `LearnerFacts.StoredIsNewest` | paxos/learner.c:456-483 | the ack kept for an acceptor is the first one with its highest ballot |
| `LearnerFacts.OnlyNewBallot` | paxos/learner.c:524-532 | storing an ack can create a majority only at that ack's ballot |
| `LearnerFacts.QuorumCloses` | paxos/learner.c:456-518 | acks at one ballot from a quorum of acceptors, in any order and however often, close the instance with one of them |
| `LearnerFacts.FinalIsStable` | paxos/learner.c:490-518 | the final value never changes, whatever arrives later |
| `LearnerFacts.DeliversWhenClosed` | paxos/learner.c:197-211 | after any calls the current instance is delivered exactly when it is closed |
| `LearnerFacts.DeliversInOrder` | paxos/learner.c:122-211 | a learner with catch-up, or moved to an instance id, delivers exactly the consecutive instances from its start, whatever acks arrive in whatever order |
| `LearnerFacts.HolesFrom` | paxos/learner.c:213-222 | from any start without instances, over any acks and deliveries, once drained: a hole is reported exactly when a later instance is closed or the current one is below where the start had put the highest |
| `LearnerFacts.HolesExact` | paxos/learner.c:213-222 | once delivery is drained, holes are reported exactly when a later instance is closed, and the range ends at the largest closed one; only a late start at instance 0 reports a hole always |
| `LearnerHistory.InstanceIsHistory` | paxos/learner.c:141-211 | over any acks, chosen messages, deliveries and moves, the instances held are exactly those given a message since they were last delivered, each in the state those messages put a new one in; a chosen message replaces all before by an ack from acceptor 1 and one from acceptor 2 |
| `LearnerHistory.HighestIsHistory` | paxos/learner.c:122-183 | over any such calls the highest closed instance is the largest that a call left closed since the last move, or where that move put it |
| `Learner.HasQuorum` | paxos/learner.c:490-518 | the counting loop closes an instance exactly when a majority of stored acks has its last ballot, with the last of them as final value |
| `Learner.Update` | paxos/learner.c:456-483 | the early exits and the store together are the specified update |
| `Learner.LearnerRole.constructor` | paxos/learner.c:94-106 | a new learner waits for instance 1 |
| `Learner.LearnerRole.SetInstanceId` | paxos/learner.c:122-127 | moves the current instance and the highest closed one, nothing else |
| `Learner.LearnerRole.ReceiveAccepted` | paxos/learner.c:141-163 | over the hash table, the specified learner step |
| `Learner.LearnerRole.ReceiveChosen` | paxos/learner.c:165-183 | over the hash table, the specified step: a fresh instance replaces the old one and is given the message as from acceptors 1 and 2 |
| `Learner.LearnerRole.DeliverNext` | paxos/learner.c:197-211 | delivers and removes the current instance, or nothing |
| `Learner.LearnerRole.HasHoles` | paxos/learner.c:213-222 | the range between the current and the highest closed instance |
| `Proposer.ProposerRole.constructor` | paxos/proposer.c:85-98 | a new proposer has no instance and no value |
| `Proposer.ProposerRole.Propose` | paxos/proposer.c:113-119 | the value goes to the end of the queue |
| `Proposer.ProposerRole.PreparedCount` | paxos/proposer.c:121-125 | the number of instances in phase one |
| `Proposer.ProposerRole.Prepare` | paxos/proposer.c:138-149 | opens the next instance; its key was in neither table |
| `Proposer.ProposerRole.PrepareInstance` | paxos/proposer.c:152-170 | the specified step: an instance in phase one is preempted, another starts at the first ballot |
| `Proposer.ProposerRole.ReceivePromise` | paxos/proposer.c:172-219 | over table and counter, the specified step: dropped, preempted or counted (what any promises do: `Rounds.AnyPromises`) |
| `Proposer.ProposerRole.FindSmallest` | paxos/proposer.c:228-234 | the scan finds a live bucket with the smallest instance id, or the end exactly when the table is empty |
| `Proposer.ProposerRole.Accept` | paxos/proposer.c:221-254 | the specified step on the smallest open instance |
| `Proposer.ProposerRole.MoveToAccepting` | paxos/proposer.c:408-421 | the instance leaves one table and enters the other, where its key was free |
| `Proposer.ProposerRole.ReceiveAccepted` | paxos/proposer.c:256-292 | the specified step and return code; a displaced client value goes back to the queue |
| `Proposer.ProposerRole.ReceivePreempted` | paxos/proposer.c:294-318 | over both tables, the specified step: the instance goes back to phase one at its next ballot with its client value kept (exactly when: `Rounds.PreemptedExactly`) |
| `Proposer.ProposerRole.TrimInstances` | paxos/proposer.c:423-440 | deleting while walking removes exactly the instances up to the id and queues exactly their client values, in bucket order |
| `Proposer.ProposerRole.SetInstanceId` | paxos/proposer.c:127-136 | the specified step, which does nothing unless the id advances; the values given back are those of the first table in bucket order, then those of the second |
| `Proposer.ProposerRole.ReceiveAcceptorState` | paxos/proposer.c:320-327 | over both tables, the specified step, which acts only on an advancing trim point (what it does to the ids opened later: `ProposerHistory.OpensOneAbove`) |
| `Timeouts.NextTimedOut` | paxos/proposer.c:341-354 | the first bucket from the cursor whose instance is due, skipping none (what is due after any calls: `Clocks.DuePrepares` and `Clocks.DueAccepts`) |
| `Timeouts.TimeoutIterator.Prepare` | paxos/proposer.c:356-367 | the next timed-out instance's prepare, its clock restarted, the cursor left on it |
| `Timeouts.TimeoutIterator.Accept` | paxos/proposer.c:369-380 | the same for accept requests |
| `Timeouts.DrainNext` | paxos/proposer.c:341-354 | restarting the clock of the instance under the cursor leaves exactly the others still to be sent |
| `Timeouts.StuckOnPrepare` | paxos/proposer.c:341-367 | with a timeout below one second every further call, however many, gives what the first one gave, which is a message exactly when something is due: the drain does not end |
| `Timeouts.StuckOnAccept` | paxos/proposer.c:369-380 | the same for the second table |
| `EvProposer.EventProposer.DrainPrepares` | evpaxos/evproposer.c:142-146 | the loop ends, having sent each timed-out instance of phase one exactly once |
| `EvProposer.EventProposer.DrainResends` | evpaxos/evproposer.c:148-152 | the same for phase two, with the value of the last accept request |
| `EvProposer.EventProposer.CheckTimeouts` | evpaxos/evproposer.c:136-156 | exactly the due instances are resent, once each, and exactly their clocks restart |
| `Clocks.CheckAfter` | evpaxos/evproposer.c:136-156 | after any calls, a check at `now` sends the prepare of an instance in phase one exactly when no majority promised since it started and the last prepare for it was sent `limit` or more before; and the request of an instance in phase two exactly when the last resent request, or else the last prepare, was |
| `Clocks.DuePrepares` | paxos/proposer.c:341-367 | what is due in phase one after any calls, told from the calls alone |
| `Clocks.DueAccepts` | paxos/proposer.c:369-380 | the same in phase two |
| `EvProposer.ResendPreparesPath` | evpaxos/evproposer.c:142-146 | that resend is a sequence of proposer steps, one per instance |
| `EvProposer.ResendAcceptsPath` | evpaxos/evproposer.c:148-152 | the same for accept requests |
| `EvProposer.EventProposer.DrainAccepts` | evpaxos/evproposer.c:74-79 | the loop ends when no further accept request can be sent, and its messages are those of its steps |
| `EvProposer.EventProposer.Preexecute` | evpaxos/evproposer.c:60-72 | opens instances exactly up to the window, and opening gives proposer_accept nothing new to send |
| `EvProposer.EventProposer.TryAccept` | evpaxos/evproposer.c:74-81 | afterwards nothing can be accepted and the window is full |
| `EvProposer.EventProposer.HandlePromise` | evpaxos/evproposer.c:83-93 | the handler is the promise step followed by accepts until none is left and openings up to the window; it sends what these steps send, in order |
| `EvProposer.EventProposer.HandleAccepted` | evpaxos/evproposer.c:95-102 | the same after an ack, and only the ack step when it was dropped |
| `EvProposer.EventProposer.HandlePreempted` | evpaxos/evproposer.c:104-115 | the same after a preemption, and only that step when it was stale |
| `EvProposer.EventProposer.HandleClientValue` | evpaxos/evproposer.c:117-126 | the same after a submission |
| `EvProposer.EventProposer.HandleAcceptorState` | evpaxos/evproposer.c:128-134 | exactly the acceptor-state step |
| `Probing.ProbeClosedForm` | paxos/include/khash.h:201-208 | the incremental probe is key plus a triangular number, modulo the bucket count |
| `Probing.ProbesDistinct` | paxos/include/khash.h:43-52 | with a power of two buckets the first n probes of a key are pairwise different |
| `Probing.ProbesCover` | paxos/include/khash.h:43-52 | every bucket is probed within n steps |
| `Probing.ReturnsLate` | paxos/include/khash.h:204-207 | the probe does not come back to its first bucket before the whole table was visited |
| `Probing.ReturnsEventually` | paxos/include/khash.h:204-207 | and then it does come back, so the search loop ends |
| `KHash.RoundUpUnique` | paxos/include/khash.h:144 | the rounded bucket count is the smallest power of two at or above the request |
| `KHash.LoadIsRounded` | paxos/include/khash.h:271 | the load bound is 0.77 of the bucket count, rounded to the nearest integer |
| `Words.RoundsUp` | paxos/include/khash.h:144 | the shift-and-or sequence on 32-bit words rounds up to a power of two exactly for the words up to 2^31; beyond, it overflows to 0 |
| `Words.MaskIsRemainder` | paxos/include/khash.h:201-206 | masking with one less than a power-of-two bucket count is the remainder modulo the bucket count |
| `KHash.ResizeRequests` | paxos/include/khash.h:278-286 | asking for one bucket less keeps the table size, asking for one more doubles it |
| `KHash.AbsentAfterMisses` | paxos/include/khash.h:205-209 | a key is absent once its probes have missed it up to an empty bucket or through the whole table, whatever tombstones lie before |
| `KHash.RepresentsInsert` | paxos/include/khash.h:304-313 | reusing a tombstone or empty bucket keeps every other key reachable |
| `KHash.RepresentsDelete` | paxos/include/khash.h:317-323 | a tombstone keeps every other key reachable |
| `KHash.StoredKick` | paxos/include/khash.h:245-260 | swapping with an entry not yet moved loses and duplicates none of them |
| `KHash.Table.Get` | paxos/include/khash.h:198-211 | the bucket holding the key if it is in the table, else the end |
| `KHash.Table.FindSlot` | paxos/include/khash.h:287-303 | the bucket of the key if present, else a free bucket on its probe path |
| `KHash.Table.KickOut` | paxos/include/khash.h:245-260 | the kick-out chain ends with every entry in the old or the new half exactly once |
| `KHash.Table.Rehash` | paxos/include/khash.h:237-262 | the in-place rehash moves every entry and leaves none behind |
| `KHash.Table.RehashInto` | paxos/include/khash.h:220-266 | growing or shrinking included, the new arrays hold the same map without tombstones |
| `KHash.Table.Resize` | paxos/include/khash.h:212-274 | the map is unchanged; rehashed exactly when the request has room and memory is there |
| `KHash.Table.MakeRoom` | paxos/include/khash.h:278-286 | the load falls below its bound, by clearing tombstones or doubling |
| `KHash.Table.Put` | paxos/include/khash.h:275-316 | adds the key and nothing else, says whether it was new, and fails only without memory |
| `KHash.Table.Delete` | paxos/include/khash.h:317-323 | removes exactly the key of a live bucket |
| `KHash.Replay` | paxos/include/khash.h:198-323 | any sequence of lookups, stores and removals gives the answers of a finite map |
| `CArray.Ring.PushBack` | paxos/carray.c:80-89 | appends, growing when full |
| `CArray.Ring.PopFront` | paxos/carray.c:91-100 | removes the oldest element, if any |
| `CArray.Ring.Grow` | paxos/carray.c:116-129 | the contents and their order survive the move |
| `CArray.Ring.At` | paxos/carray.c:131-135 | the i-th oldest element |
| `CArray.Replay` | paxos/carray.c:80-129 | any sequence of pushes and pops pops in first-in first-out order, from any capacity |
| `Quorum.Counter.constructor` | paxos/quorum.c:35-42 | nobody counted |
| `Quorum.Counter.Clear` | paxos/quorum.c:44-49 | nobody counted |
| `Quorum.Counter.Add` | paxos/quorum.c:57-66 | counts each id once and says whether it was new |
| `Quorum.Counter.Reached` | paxos/quorum.c:68-72 | true exactly when more than half of the acceptors were counted |
| `Quorum.Replay` | paxos/quorum.c:35-72 | any sequence of additions, clears and tests answers as the set of counted ids that a proposer instance keeps |
| `Quorum.MajoritiesMeet` | paxos/paxos.c:52-56 | two quorums share an acceptor |
| `Types.QuorumSize` | paxos/paxos.c:52-56 | the size of a smallest majority |
| `Codec.RoundTrip` | net/message_pack.c:211-292 | unpacking a packed message of any type but client value gives it back, and no byte beyond its end was written |
| `Codec.WireLayout` | net/message_pack.c:69-87 | in the five messages with the common layout tag, instance, ballots, acceptor id, length and value bytes stand in network byte order at their fixed offsets |
| `Codec.MessageLayout` | net/message_pack.c:69-255 | the bytes of every message type: its tag, 0 to 7 in the order of the enumeration, and its fields at their fixed offsets; a client value has length and bytes and leaves the tag bytes as they were |
| `Codec.ClientValueRoundTrip` | net/message_pack.c:201-209 | a packed client value comes back exactly when the buffer already held its tag |
| `Codec.SentBytesSuffice` | net/message_pack.c:211-255 | the bytes put on the wire give the receiver the message exactly when the value bytes left out of the length fit the slack (10 for prepare and preempted, 20 for a client value) and a client value finds its tag in the buffer |
| `Codec.PackValue` | net/message_pack.c:37-42 | the bytes written in place are the specified ones, and no others change |
| `Codec.PackMessage` | net/message_pack.c:211-255 | the in-place packer writes the specified buffer and returns the specified length |
| `Codec.UnpackValue` | net/message_pack.c:56-67 | the value read is the specified one; a non-positive length gives none |
| `Codec.UnpackMessage` | net/message_pack.c:257-292 | the in-place unpacker returns the specified message, and nothing for an unknown tag |
| `Limits.OutgrownIsDeaf` | paxos/proposer.c:172-192 | an open instance drops every promise a message can carry exactly when its ballot no longer fits 16 bits |
| `Limits.OutgrownStalls` | paxos/proposer.c:388-395 | in every run an instance whose ballot outgrew 16 bits is in phase one, counts nothing and never sends a request |
| `Limits.OutgrownStays` | paxos/proposer.c:388-406 | and its ballot never changes again, unless the instance is prepared again |
| `Limits.RepeatIsVote` | paxos/acceptor.c:126-136 | in every reachable state a repeated record is a cast vote exactly when nothing higher was promised since |
| `Limits.RepeatsBreakAgreement` | paxos/acceptor.c:126-136 | a run that breaks only the hypothesis on repeats, in which a learner fed votes and a learner fed repeats close one instance with different values |
| `Limits.EmptyBreaksAgreement` | paxos/proposer.c:205-216 | a run that breaks only the hypothesis on values, in which two learners close one instance with the empty value and with another |
| `Limits.DropChoosesTwice` | paxos/proposer.c:127-136 | a run in which a value submitted once is chosen in two instances because the first was dropped |
| `Limits.ReopenIsNew` | paxos/proposer.c:152-170 | in every reachable state preparing an instance again gives it a ballot of the proposer above all its requests exactly when it is in phase one with a ballot that does not wrap, or was never requested |
| `Limits.ReopeningBreaksAgreement` | paxos/proposer.c:152-170 | a run that breaks only the hypothesis on preparing again, for a closed instance, in which two learners close it with different values |
| `Limits.ReopeningAheadBreaksAgreement` | paxos/proposer.c:138-170 | the same for an instance ahead of the counter, which the proposer then opens a second time at the same ballot |
| `Limits.NoticesBreakAgreement` | paxos/learner.c:165-183 | a run that breaks only the hypothesis on chosen messages, in which a learner fed votes and a learner fed such a message disagree |
| `Limits.ChosenClosesThree` | paxos/learner.c:165-183 | one chosen message closes an instance of a new learner exactly when there are three acceptors |
| `Limits.LateStartHole` | paxos/learner.c:122-163 | without catch-up, after set-instance-id and over any calls, once drained: a hole is reported exactly when a later instance is closed or the learner is still below that id |
| `Limits.LateStartFirstAck` | paxos/learner.c:141-163 | so already after a first ack for an earlier instance, with nothing closed |

## Left out

- Learner gap recovery (gap prepare, promise, accept and preempted handling): not modelled; the run theorems say nothing about learners that use it.
- Proposer.ProposerRole.PrepareInstance: requires an id in phase one, or one the proposer has moved past and does not have in phase two; for other ids an assertion of the source fails then or later, when the id is 0, opened, or moved to the second table.
- LearnerFacts.HolesFrom: covers acks and deliveries; a chosen message can replace a closed instance by an open one when there are not three acceptors, and holes are not stated after that.
- EvProposer.EventProposer.CheckTimeouts: requires a timeout of at least one second or that nothing is due, because otherwise the drain loop does not end (`Timeouts.StuckOnPrepare`, `Timeouts.StuckOnAccept`). The same holds for its two loops.
- EvProposer.EventProposer.HandlePromise: requires an acceptor id in range, which the source uses unchecked as an array index; the same holds for HandleAccepted and for ProposerRole.ReceivePromise and ReceiveAccepted.
- Proposer.ProposerRole.Prepare: requires that the 32-bit instance counter does not wrap; the source asserts a positive instance id. The handlers that open instances require the same.
- Codec.UnpackMessage: requires a buffer that holds all the bytes it reads; the source does not know the buffer's length.
- KHash.Table.Resize: computes bucket counts on unbounded integers; `Words` relates the 32-bit forms to these, and says for which words they agree.
- Refinement.HandlerIsRun: assumes that submitted values are not empty, as runs do, and that no instance is prepared again, which no handler does.
- 32-bit wrap-around of bucket counts, ring sizes, instance ids and the learner's current instance: these are unbounded integers here. Ballots are modelled modulo 2^32 and truncated to 16 bits in messages.
- Memory: tables keep instances by value where the source keeps references, so leaks, frees and the read of an instance id after `learner_delete_instance` do not appear. Allocation can fail only when a table grows in the acceptor's storage.
- A quorum counter inside a proposer instance is the set of counted ids; that the counter behaves as this set is `Quorum.Replay`.
- Bucket flags are an enumeration and not packed two-bit words.
- `kh_clear`, `kh_destroy`, `carray_foreach` and the free functions: no modelled operation calls them.
- A missing value and an empty one are one thing in messages, as they are on the wire.
- The size of a message struct (26 bytes) assumes 64-bit addresses and the packed layout.
- LMDB and RocksDB storage, msgpack, sockets, the event loop, configuration, logging, the ballot-0 sequencer and the DPDK programs: not modelled, except for when the `p4xos` leader calls the learner and proposer. Time is an input.
- Liveness of the whole system beyond `Rounds.RoundCompletes`, `Rounds.PreemptedRecovers` and the runs of `Progress`: not stated; the source promises none under loss.
