/** The whole system: acceptors, proposers and learners over a network that may lose,
    duplicate and reorder messages. A message once sent stays available for ever;
    losing it means never delivering it. */
module Protocol {
  import opened Types
  import A = AcceptorSpec
  import P = ProposerSpec
  import L = LearnerSpec

  /** A proposer with what its clients gave it, the (instance, value) pairs it has used up, and the acks on which it
      reported an instance closed: those the leader sends on as chosen. */
  datatype ProposerHost = ProposerHost(
    state: P.State, proposed: multiset<Value>, retired: seq<(nat, Value)>, notices: seq<Fields>)

  /** A learner, started with or without catch-up, and everything it has delivered. Each time it is told where to
      go on, `starts` records how much it had delivered by then and the instance it goes on from. */
  datatype LearnerHost = LearnerHost(state: L.State, catchUp: bool, log: seq<Fields>, starts: seq<(nat, nat)>)

  /** Proposers are keyed by their ids, so ids are distinct. */
  datatype System = System(
    acceptors: seq<A.State>, proposers: map<nat, ProposerHost>, learners: seq<LearnerHost>, net: set<Message>)

  datatype AcceptorAction = OnPrepare(f: Fields) | OnAccept(f: Fields) | OnTrim(iid: nat) | OnRepeat(iid: nat) | Report

  datatype LearnerAction = Learn(f: Fields) | LearnChosen(f: Fields) | Deliver | Move(iid: nat)

  datatype Action =
    | AtAcceptor(a: nat, aa: AcceptorAction)
    | AtProposer(p: nat, pa: P.Action)
    | AtLearner(l: nat, la: LearnerAction)

  ghost predicate Init(s: System) {
    && (forall a :: 0 <= a < |s.acceptors| ==> s.acceptors[a] == A.Initial(a))
    && (forall p :: p in s.proposers ==>
          p < MAX_PROPOSERS && s.proposers[p] == ProposerHost(P.Initial(p, |s.acceptors|), multiset{}, [], []))
    && (forall l :: 0 <= l < |s.learners| ==>
          var h := s.learners[l]; h.state == L.Initial(|s.acceptors|, h.catchUp) && h.log == [] && h.starts == [(0, 1)])
    && s.net == {}
  }

  // ---------- Acceptor steps ----------

  ghost predicate AcceptorEnabled(act: AcceptorAction, net: set<Message>) {
    match act
    case OnPrepare(f) => Prepare(f) in net
    case OnAccept(f) => Accept(f) in net
    case OnTrim(_) => true
    case OnRepeat(_) => true
    case Report => true
  }

  ghost function AcceptorStep(s: A.State, act: AcceptorAction): (A.State, set<Message>) {
    match act
    case OnPrepare(f) => var (s', m) := A.ReceivePrepare(s, f); (s', P.Optional(m))
    case OnAccept(f) => var (s', m) := A.ReceiveAccept(s, f); (s', P.Optional(m))
    case OnTrim(iid) => (A.ReceiveTrim(s, iid), {})
    case OnRepeat(iid) => (s, P.Optional(A.ReceiveRepeat(s, iid)))
    case Report => (s, {A.CurrentState(s)})
  }

  // ---------- Proposer steps ----------

  /** The value a proposer frees for good when an ack closes one of its instances. */
  ghost function NewlyRetired(s: P.State, act: P.Action): seq<(nat, Value)> {
    if act.OnAccepted? && P.ReceiveAccepted(s, act.f).1 == 2 && P.Retired(s.accepting[act.f.iid]) != []
    then [(act.f.iid, s.accepting[act.f.iid].value.value)]
    else []
  }

  ghost function NewNotices(s: P.State, act: P.Action): seq<Fields> {
    if act.OnAccepted? && P.ReceiveAccepted(s, act.f).1 == 2 then [act.f] else []
  }

  ghost function ProposerStep(h: ProposerHost, act: P.Action, net: set<Message>): (ProposerHost, set<Message>)
    requires P.Enabled(h.state, act, net)
  {
    var (s', sent) := P.Step(h.state, act, net);
    (ProposerHost(s',
                  if act.Submit? then h.proposed + multiset{act.v} else h.proposed,
                  h.retired + NewlyRetired(h.state, act),
                  h.notices + NewNotices(h.state, act)),
     sent)
  }

  // ---------- Learner steps ----------

  ghost predicate LearnerEnabled(act: LearnerAction, net: set<Message>) {
    act.Learn? ==> Accepted(act.f) in net
  }

  ghost function LearnerStep(h: LearnerHost, act: LearnerAction): LearnerHost {
    match act
    case Learn(f) =>
      h.(state := L.ReceiveAccepted(h.state, f),
         starts := if h.state.lateStart then h.starts + [(|h.log|, f.iid)] else h.starts)
    case LearnChosen(f) => h.(state := L.ReceiveChosen(h.state, f))
    case Deliver =>
      var (s', out) := L.DeliverNext(h.state);
      h.(state := s', log := if out.Some? then h.log + [out.value] else h.log)
    case Move(iid) => h.(state := L.SetInstanceId(h.state, iid), starts := h.starts + [(|h.log|, iid + 1)])
  }

  // ---------- Steps and runs of the system ----------

  /** What the code does. */
  ghost predicate Raw(s: System, act: Action, s': System) {
    match act
    case AtAcceptor(a, aa) =>
      && a < |s.acceptors|
      && AcceptorEnabled(aa, s.net)
      && var (st, sent) := AcceptorStep(s.acceptors[a], aa);
      s' == s.(acceptors := s.acceptors[a := st], net := s.net + sent)
    case AtProposer(p, pa) =>
      && p in s.proposers
      && P.Enabled(s.proposers[p].state, pa, s.net)
      && var (h, sent) := ProposerStep(s.proposers[p], pa, s.net);
      s' == s.(proposers := s.proposers[p := h], net := s.net + sent)
    case AtLearner(l, la) =>
      && l < |s.learners|
      && LearnerEnabled(la, s.net)
      && s' == s.(learners := s.learners[l := LearnerStep(s.learners[l], la)])
  }

  /** What is asked of a run beyond the code: client values are not empty; a record is repeated only while nothing
      higher than its vote was promised; a learner is told that a value was chosen only with an ack on which a proposer
      reported the instance closed; and an instance is prepared again only when that gives it a ballot not used yet. */
  datatype Hypothesis = NonEmptyValues | RepeatedVotes | RealNotices | FreshBallots

  ghost predicate Meets(h: Hypothesis, s: System, act: Action) {
    match h
    case NonEmptyValues => act.AtProposer? && act.pa.Submit? ==> act.pa.v != []
    case RepeatedVotes =>
      act.AtAcceptor? && act.aa.OnRepeat? && act.a < |s.acceptors| ==> RepeatsVote(s.acceptors[act.a], act.aa.iid)
    case RealNotices => act.AtLearner? && act.la.LearnChosen? ==> IsNoticed(s, act.la.f)
    case FreshBallots =>
      act.AtProposer? && act.pa.Reopen? && act.p in s.proposers ==> MayReopen(s.proposers[act.p].state, act.pa.iid, s.net)
  }

  ghost predicate IsNoticed(s: System, f: Fields) {
    exists p :: p in s.proposers && f in s.proposers[p].notices
  }

  /** No accept request for `iid` was sent under the ballots of proposer `p`. */
  ghost predicate NeverRequested(p: nat, iid: nat, net: set<Message>) {
    forall f :: Accept(f) in net && f.iid == iid ==> f.ballot % MAX_PROPOSERS != p
  }

  /** The instance is in phase one and its next ballot does not wrap, or no request was ever sent for it. */
  ghost predicate HasNewBallot(s: P.State, iid: nat, net: set<Message>) {
    if iid in s.preparing then s.preparing[iid].ballot + MAX_PROPOSERS < 0x1_0000_0000 else NeverRequested(s.id, iid, net)
  }

  /** When proposer_prepare_instance may be called: moreover the proposer will not open the instance itself. */
  ghost predicate MayReopen(s: P.State, iid: nat, net: set<Message>) {
    HasNewBallot(s, iid, net) && 0 < iid <= s.next
  }

  ghost predicate RepeatsVote(s: A.State, iid: nat) {
    A.ReceiveRepeat(s, iid).Some? ==> s.records[iid].ballot == s.records[iid].valueBallot
  }

  /** Every hypothesis but `d` is met. */
  ghost predicate MeetsBut(d: Option<Hypothesis>, s: System, act: Action) {
    && (d != Some(NonEmptyValues) ==> Meets(NonEmptyValues, s, act))
    && (d != Some(RepeatedVotes) ==> Meets(RepeatedVotes, s, act))
    && (d != Some(RealNotices) ==> Meets(RealNotices, s, act))
    && (d != Some(FreshBallots) ==> Meets(FreshBallots, s, act))
  }

  ghost predicate Next(s: System, act: Action, s': System) {
    Raw(s, act, s') && MeetsBut(None, s, act)
  }

  ghost predicate IsStep(s: System, s': System) {
    exists act :: Next(s, act, s')
  }

  /** A run: any number of steps, of any roles in any order, from an initial state. */
  ghost predicate IsRun(run: seq<System>) {
    && 0 < |run| && Init(run[0])
    && forall i :: 0 <= i < |run| - 1 ==> IsStep(run[i], run[i + 1])
  }

  // ---------- Runs that drop one hypothesis ----------

  ghost predicate IsStepBut(d: Option<Hypothesis>, s: System, s': System) {
    exists act :: Raw(s, act, s') && MeetsBut(d, s, act)
  }

  /** A run of the code in which every hypothesis but `d` is met. */
  ghost predicate IsRunBut(d: Option<Hypothesis>, run: seq<System>) {
    && 0 < |run| && Init(run[0])
    && forall i :: 0 <= i < |run| - 1 ==> IsStepBut(d, run[i], run[i + 1])
  }
}
