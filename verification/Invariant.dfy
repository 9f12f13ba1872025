/** The inductive invariant of the system. */
module Invariant {
  import opened Types
  import opened Protocol
  import opened Quorum
  import A = AcceptorSpec
  import P = ProposerSpec
  import L = LearnerSpec

  function AcceptMsg(i: nat, b: nat, v: Value): Message {
    Accept(Fields(i, b, b, 0, v))
  }

  function VoteMsg(i: nat, b: nat, a: nat, v: Value): Message {
    Accepted(Fields(i, b, b, a, v))
  }

  // ---------- Chosen values ----------

  ghost predicate AllVoted(net: set<Message>, q: set<nat>, i: nat, b: nat, v: Value) {
    forall a :: a in q ==> VoteMsg(i, b, a, v) in net
  }

  /** A majority of acceptors has accepted `v` for instance `i` at ballot `b`. */
  ghost predicate ChosenAt(net: set<Message>, n: nat, i: nat, b: nat, v: Value) {
    exists q :: Majority(q, n) && AllVoted(net, q, i, b, v)
  }

  ghost predicate Chosen(net: set<Message>, n: nat, i: nat, v: Value) {
    exists b :: ChosenAt(net, n, i, b, v)
  }

  // ---------- What the messages ever sent say ----------

  /** Acceptor `a` promised ballot `b` and reported a vote no higher than `vb`. */
  ghost predicate HasPromise(net: set<Message>, i: nat, b: nat, a: nat, vb: nat) {
    exists f :: Promise(f) in net && f.iid == i && f.ballot == b && f.aid == a && f.valueBallot <= vb
  }

  ghost predicate AllPromised(net: set<Message>, q: set<nat>, i: nat, b: nat, vb: nat) {
    forall a :: a in q ==> HasPromise(net, i, b, a, vb)
  }

  /** Why proposing `v` at `b` is safe: a majority promised, and `v` is the value of their highest vote. */
  ghost predicate JustifiedBy(net: set<Message>, n: nat, i: nat, b: nat, v: Value, q: set<nat>, vb: nat) {
    Majority(q, n) && AllPromised(net, q, i, b, vb) && vb < b && (0 < vb ==> AcceptMsg(i, vb, v) in net)
  }

  ghost predicate Justified(net: set<Message>, n: nat, i: nat, b: nat, v: Value) {
    exists q, vb :: JustifiedBy(net, n, i, b, v, q, vb)
  }

  ghost predicate AcceptsOk(net: set<Message>, n: nat) {
    forall f :: Accept(f) in net ==>
      f == Fields(f.iid, f.ballot, f.ballot, 0, f.value) && MAX_PROPOSERS <= f.ballot && f.value != []
      && Justified(net, n, f.iid, f.ballot, f.value)
  }

  /** Any two accept requests for one instance and ballot carry the same value. */
  ghost predicate AcceptsUnique(net: set<Message>) {
    forall f, g :: Accept(f) in net && Accept(g) in net && f.iid == g.iid && f.ballot == g.ballot ==> f.value == g.value
  }

  ghost predicate VotesOk(net: set<Message>, n: nat) {
    forall f :: Accepted(f) in net ==> f.valueBallot == f.ballot && f.aid < n && AcceptMsg(f.iid, f.ballot, f.value) in net
  }

  ghost predicate PromisesOk(net: set<Message>, n: nat) {
    forall f :: Promise(f) in net ==>
      && f.aid < n && f.valueBallot <= f.ballot && (f.valueBallot == 0 <==> f.value == [])
      && (0 < f.valueBallot ==> VoteMsg(f.iid, f.valueBallot, f.aid, f.value) in net)
  }

  /** A promise at `b` reports the acceptor's highest vote below `b`, then and for ever. */
  ghost predicate PromisesKept(net: set<Message>) {
    forall f, g :: Promise(f) in net && Accepted(g) in net && f.iid == g.iid && f.aid == g.aid && g.ballot < f.ballot
      ==> g.ballot <= f.valueBallot
  }

  /** A ballot as a message carries it, in 16 bits. */
  predicate BallotFits(m: Message) {
    m.Prepare? || m.Promise? || m.Accept? || m.Accepted? || m.Preempted? ==> m.f.ballot < 0x1_0000
  }

  ghost predicate AllFit(net: set<Message>) {
    forall m :: m in net ==> BallotFits(m)
  }

  ghost predicate NetInv(net: set<Message>, n: nat) {
    AllFit(net) && AcceptsOk(net, n) && AcceptsUnique(net) && VotesOk(net, n) && PromisesOk(net, n) && PromisesKept(net)
  }

  // ---------- Acceptors ----------

  ghost predicate RecordOk(a: nat, i: nat, r: Fields, net: set<Message>) {
    && r.iid == i && r.aid == a && r.valueBallot <= r.ballot < 0x1_0000 && (r.valueBallot == 0 <==> r.value == [])
    && (0 < r.valueBallot ==> VoteMsg(i, r.valueBallot, a, r.value) in net)
  }

  ghost predicate RecordsOk(a: nat, s: A.State, net: set<Message>) {
    forall i :: i in s.records ==> s.trim < i && RecordOk(a, i, s.records[i], net)
  }

  ghost predicate Remembers(s: A.State, i: nat, promised: nat, voted: nat) {
    i <= s.trim || (i in s.records && promised <= s.records[i].ballot && voted <= s.records[i].valueBallot)
  }

  /** The record of an untrimmed instance is at least as high as everything the acceptor ever sent about it. */
  ghost predicate HistoryOk(a: nat, s: A.State, net: set<Message>) {
    && (forall f :: Promise(f) in net && f.aid == a ==> Remembers(s, f.iid, f.ballot, 0))
    && (forall f :: Accepted(f) in net && f.aid == a ==> Remembers(s, f.iid, f.ballot, f.ballot))
  }

  ghost predicate AcceptorInv(a: nat, s: A.State, net: set<Message>) {
    s.id == a && RecordsOk(a, s, net) && HistoryOk(a, s, net)
  }

  // ---------- Proposers ----------

  /** Ballots carry the proposer's id and stay within their 32 bits. */
  ghost predicate InstanceOk(s: P.State, n: nat, i: nat, inst: P.Instance) {
    && inst.iid == i && 0 < i <= s.next
    && inst.ballot % MAX_PROPOSERS == s.id && MAX_PROPOSERS <= inst.ballot < 0x1_0000_0000
    && (forall a :: a in inst.acks ==> a < n)
  }

  /** The two tables are disjoint and hold only opened instances under their own ids. */
  ghost predicate TablesOk(s: P.State, n: nat) {
    && s.preparing.Keys !! s.accepting.Keys
    && (forall i :: i in s.preparing ==> InstanceOk(s, n, i, s.preparing[i]))
    && (forall i :: i in s.accepting ==> InstanceOk(s, n, i, s.accepting[i]))
  }

  /** Where an accept request already sent by this proposer stands relative to its tables. */
  ghost predicate Past(s: P.State, f: Fields) {
    && f.iid <= s.next
    && (f.iid in s.preparing ==> f.ballot < s.preparing[f.iid].ballot)
    && (f.iid in s.accepting ==> f.ballot <= s.accepting[f.iid].ballot)
  }

  ghost predicate SentOk(s: P.State, net: set<Message>) {
    forall f :: Accept(f) in net && f.ballot % MAX_PROPOSERS == s.id ==> Past(s, f)
  }

  /** A preparing instance has counted only promises for its current ballot and kept the highest reported vote. */
  ghost predicate PreparingInstance(inst: P.Instance, net: set<Message>) {
    && AllPromised(net, inst.acks, inst.iid, inst.ballot, inst.valueBallot)
    && (if inst.promised.None? then inst.valueBallot == 0
        else inst.promised.value != [] && 0 < inst.valueBallot < inst.ballot
             && AcceptMsg(inst.iid, inst.valueBallot, inst.promised.value) in net)
  }

  /** An accepting instance has sent its request and counted only votes for exactly that request. */
  ghost predicate AcceptingInstance(inst: P.Instance, net: set<Message>) {
    && P.HasSomeValue(inst)
    && AcceptMsg(inst.iid, inst.ballot, P.AcceptValue(inst)) in net
    && AllVoted(net, inst.acks, inst.iid, inst.ballot, P.AcceptValue(inst))
  }

  ghost predicate PhasesOk(s: P.State, net: set<Message>) {
    && (forall i :: i in s.preparing ==> PreparingInstance(s.preparing[i], net))
    && (forall i :: i in s.accepting ==> AcceptingInstance(s.accepting[i], net))
  }

  ghost function RetiredValues(retired: seq<(nat, Value)>): multiset<Value> {
    if retired == [] then multiset{}
    else RetiredValues(retired[..|retired| - 1]) + multiset{retired[|retired| - 1].1}
  }

  /** Every value a client gave is queued, attached to one instance, or retired. */
  ghost predicate Conserved(h: ProposerHost) {
    h.proposed == multiset(h.state.queue) + P.Pending(h.state.preparing) + P.Pending(h.state.accepting) + RetiredValues(h.retired)
  }

  /** A value is retired only when it was chosen in the instance it was attached to. */
  ghost predicate RetiredChosen(h: ProposerHost, net: set<Message>, n: nat) {
    forall r :: r in h.retired ==> Chosen(net, n, r.0, r.1)
  }

  /** An ack on which an instance was reported closed names a ballot and value accepted by a majority. */
  ghost predicate NoticesChosen(h: ProposerHost, net: set<Message>, n: nat) {
    forall f :: f in h.notices ==> ChosenAt(net, n, f.iid, f.ballot, f.value)
  }

  ghost predicate ProposerInv(p: nat, h: ProposerHost, net: set<Message>, n: nat) {
    && h.state.id == p < MAX_PROPOSERS && h.state.acceptors == n
    && TablesOk(h.state, n)
    && SentOk(h.state, net)
    && PhasesOk(h.state, net)
    && Conserved(h)
    && [] !in h.proposed
    && RetiredChosen(h, net, n)
    && NoticesChosen(h, net, n)
  }

  // ---------- Learners ----------

  /** A stored ack is a vote, or stands for a value chosen at its ballot. */
  ghost predicate AckOk(f: Fields, i: nat, a: nat, net: set<Message>, n: nat) {
    f.iid == i && f.aid == a && (Accepted(f) in net || ChosenAt(net, n, i, f.ballot, f.value))
  }

  ghost predicate AcksOk(inst: L.Instance, i: nat, net: set<Message>, n: nat) {
    && |inst.acks| == n
    && (forall a :: 0 <= a < n && inst.acks[a].Some? ==> AckOk(inst.acks[a].value, i, a, net, n))
  }

  ghost predicate LearnerInstance(inst: L.Instance, i: nat, net: set<Message>, n: nat) {
    && AcksOk(inst, i, net, n)
    && (inst.iid == i || (inst.iid == 0 && inst.final.None?))
    && (inst.final.Some? ==> inst.final.value.iid == i && Chosen(net, n, i, inst.final.value.value))
  }

  ghost predicate LogOk(log: seq<Fields>, net: set<Message>, n: nat) {
    forall k :: 0 <= k < |log| ==> Chosen(net, n, log[k].iid, log[k].value)
  }

  /** Deliveries `from` up to `to` are for consecutive instances beginning with `first`. */
  ghost predicate Segment(log: seq<Fields>, from: nat, to: nat, first: nat) {
    to <= |log| && forall x :: from <= x < to ==> log[x].iid == first + x - from
  }

  type Starts = seq<(nat, nat)>

  /** How much had been delivered when start `i` came to its end. */
  function EndOf(log: seq<Fields>, starts: Starts, i: nat): nat {
    if i + 1 < |starts| then starts[i + 1].0 else |log|
  }

  function LastStart(starts: Starts): (nat, nat)
    requires starts != []
  {
    starts[|starts| - 1]
  }

  /** From each start on, deliveries are for consecutive instances beginning with the one it names. */
  ghost predicate Numbered(log: seq<Fields>, starts: Starts) {
    && starts != [] && starts[0] == (0, 1)
    && (forall i :: 0 <= i < |starts| ==>
          starts[i].0 <= EndOf(log, starts, i) && Segment(log, starts[i].0, EndOf(log, starts, i), starts[i].1))
  }

  ghost predicate LogInOrder(h: LearnerHost) {
    && h.starts != [] && Numbered(h.log, h.starts)
    && h.state.current == LastStart(h.starts).1 + |h.log| - LastStart(h.starts).0
    && (h.catchUp ==> !h.state.lateStart)
  }

  ghost predicate LearnerInv(h: LearnerHost, net: set<Message>, n: nat) {
    && h.state.acceptors == n
    && (forall i :: i in h.state.instances ==> LearnerInstance(h.state.instances[i], i, net, n))
    && LogOk(h.log, net, n)
    && LogInOrder(h)
  }

  // ---------- The system ----------

  /** Every value an accept request carries was given to some proposer by a client. */
  ghost predicate Valid(s: System) {
    forall f :: Accept(f) in s.net ==> exists p :: p in s.proposers && f.value in s.proposers[p].proposed
  }

  ghost predicate Inv(s: System) {
    var n := |s.acceptors|;
    && NetInv(s.net, n)
    && (forall a :: 0 <= a < n ==> AcceptorInv(a, s.acceptors[a], s.net))
    && (forall p :: p in s.proposers ==> ProposerInv(p, s.proposers[p], s.net, n))
    && (forall l :: 0 <= l < |s.learners| ==> LearnerInv(s.learners[l], s.net, n))
    && Valid(s)
  }
}
