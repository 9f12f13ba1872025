/** Where the guarantees stop: what the run hypotheses exclude, and what happens without them. */
module Limits {
  import opened FiniteSets
  import opened Types
  import opened Protocol
  import opened Invariant
  import opened SystemSafety
  import opened Preservation
  import opened ProposerSafety
  import opened Scenarios
  import opened Agreement
  import Quorum
  import A = AcceptorSpec
  import P = ProposerSpec
  import L = LearnerSpec
  import LF = LearnerFacts

  // ---------- Ballots beyond 16 bits ----------

  lemma FreshId(ids: set<nat>) returns (a: nat)
    ensures a !in ids
  {
    if Below(|ids| + 1) <= ids {
      SubsetSize(Below(|ids| + 1), ids);
      assert false;
    }
    a :| a in Below(|ids| + 1) && a !in ids;
  }

  /** A promise that fits a message is dropped, whatever it says. */
  ghost predicate DropsAllPromises(s: P.State, i: nat) {
    forall f: Fields, now: int :: f.iid == i && f.ballot < 0x1_0000 ==> P.ReceivePromise(s, f, now) == (s, None)
  }

  /** An open instance ignores every promise a message can carry exactly when its ballot has outgrown 16 bits: the
      ballot is sent truncated but compared in full. */
  lemma OutgrownIsDeaf(s: P.State, i: nat)
    requires i in s.preparing
    ensures DropsAllPromises(s, i) <==> 0x1_0000 <= s.preparing[i].ballot
  {
    var inst := s.preparing[i];
    if inst.ballot < 0x1_0000 {
      var a := FreshId(inst.acks);
      var f := Fields(i, inst.ballot, 0, a, []);
      var s' := P.ReceivePromise(s, f, 0).0;
      assert s'.preparing[i].acks == inst.acks + {a};
      assert a in s'.preparing[i].acks;
    }
  }

  /** So in a run such an instance never gets a promise or a vote counted: it stays open and harmless. Its proposer
      opens no request at a ballot that some other proposer's truncated ballot could collide with. */
  lemma OutgrownStalls(run: seq<System>, k: nat, p: nat, i: nat)
    requires IsRun(run) && k < |run| && p in run[k].proposers
    ensures var s := run[k].proposers[p].state;
            && (i in s.accepting ==> s.accepting[i].ballot < 0x1_0000)
            && (i in s.preparing && 0x1_0000 <= s.preparing[i].ballot ==>
                  && s.preparing[i].acks == {}
                  && forall f: Fields, now: int :: Promise(f) in run[k].net && f.iid == i ==> P.ReceivePromise(s, f, now) == (s, None))
  {
    hide IsRun, AcceptorInv, LearnerInv, AcceptsOk, AcceptsUnique, VotesOk, PromisesOk, PromisesKept, SentOk, Conserved, RetiredChosen;
    RunInv(run, k);
    var net, n, s := run[k].net, |run[k].acceptors|, run[k].proposers[p].state;
    assert ProposerInv(p, run[k].proposers[p], net, n);
    if i in s.accepting {
      assert AcceptingInstance(s.accepting[i], net);
      RequestedFits(s.accepting[i], net);
    }
    if i in s.preparing && 0x1_0000 <= s.preparing[i].ballot {
      assert PreparingInstance(s.preparing[i], net) && InstanceOk(s, n, i, s.preparing[i]);
      if s.preparing[i].acks != {} {
        CountedFits(s.preparing[i], net);
      }
      forall f: Fields, now: int | Promise(f) in net && f.iid == i ensures P.ReceivePromise(s, f, now) == (s, None) {
        RequestFits(net, Promise(f));
      }
    }
  }

  /** And its ballot never changes again, unless proposer_prepare_instance is called on it. */
  lemma OutgrownStays(run: seq<System>, k: nat, act: Action, p: nat, i: nat)
    requires IsRun(run) && k < |run| - 1 && Next(run[k], act, run[k + 1]) && p in run[k].proposers
    requires i in run[k].proposers[p].state.preparing && 0x1_0000 <= run[k].proposers[p].state.preparing[i].ballot
    requires !(act.AtProposer? && act.p == p && act.pa.Reopen? && act.pa.iid == i)
    ensures p in run[k + 1].proposers
    ensures var s, s' := run[k].proposers[p].state, run[k + 1].proposers[p].state;
            i in s'.preparing ==> s'.preparing[i].ballot == s.preparing[i].ballot
  {
    hide AcceptorInv, LearnerInv, NetInv, SentOk, PhasesOk, Conserved, RetiredChosen, NoticesChosen, AcceptorStep, LearnerStep, MeetsBut;
    if act.AtProposer? && act.p == p {
      RunInv(run, k);
      var s, net := run[k].proposers[p].state, run[k].net;
      assert ProposerInv(p, run[k].proposers[p], net, |run[k].acceptors|);
      assert InstanceOk(s, |run[k].acceptors|, i, s.preparing[i]);
      OutgrownStalls(run, k, p, i);
      hide IsRun, Inv, InstanceOk;
      KeepsBallot(s, act.pa, net, i);
    }
  }

  lemma KeepsBallot(s: P.State, act: P.Action, net: set<Message>, i: nat)
    requires P.Enabled(s, act, net) && i in s.preparing && i <= s.next && i !in s.accepting && !(act.Reopen? && act.iid == i)
    requires forall f: Fields, now: int :: Promise(f) in net && f.iid == i ==> P.ReceivePromise(s, f, now) == (s, None)
    ensures var s' := P.Step(s, act, net).0; i in s'.preparing ==> s'.preparing[i].ballot == s.preparing[i].ballot
  {
    hide P.NextBallot, P.IsReturned;
  }

  // ---------- Repeated records ----------

  /** In every reachable state a repeated record is a vote that was really cast exactly when the acceptor
      has promised nothing higher since. */
  lemma RepeatIsVote(run: seq<System>, k: nat, a: nat, i: nat)
    requires IsRun(run) && k < |run| && a < |run[k].acceptors| && A.ReceiveRepeat(run[k].acceptors[a], i).Some?
    ensures var s := run[k].acceptors[a];
            A.ReceiveRepeat(s, i).value in run[k].net <==> s.records[i].ballot == s.records[i].valueBallot
  {
    hide IsRun, AcceptsOk, AcceptsUnique, PromisesOk, PromisesKept, ProposerInv, LearnerInv, HistoryOk;
    RunInv(run, k);
    var s, net := run[k].acceptors[a], run[k].net;
    assert AcceptorInv(a, s, net);
    assert RecordOk(a, i, s.records[i], net);
  }

  /** Three acceptors, proposers 0 and 1, two learners. */
  function Three(): System {
    var h := (p: nat) => ProposerHost(P.Initial(p, 3), multiset{}, [], []);
    var l := LearnerHost(L.Initial(3, true), true, [], [(0, 1)]);
    System([A.Initial(0), A.Initial(1), A.Initial(2)], map[0 := h(0), 1 := h(1)], [l, l], {})
  }

  function Holding(a: nat, rec: Fields): A.State {
    A.State(a, 0, map[1 := rec])
  }

  lemma ThreeReached(d: Option<Hypothesis>)
    ensures Init(Three()) && Reaches(d, Three(), Three())
  {
    ReachesInit(d, Three());
  }

  /** Proposer 0 asks for `v` at ballot 10 and only acceptor 1 votes; proposer 1 gets `w` chosen at ballot 11
      by acceptors 0 and 2. */
  ghost predicate Contested(s: System, v: Value, w: Value) {
    && |s.acceptors| == 3 && |s.learners| == 2 && s.learners == Three().learners && 0 in s.proposers
    && s.acceptors[0] == Holding(0, Fields(1, 11, 11, 0, w))
    && s.acceptors[1] == Holding(1, Fields(1, 10, 10, 1, v))
    && s.acceptors[2] == Holding(2, Fields(1, 11, 11, 2, w))
    && s.proposers[0].state == P.State(0, 3, [], 0, 1, map[], map[1 := P.Instance(1, 10, Some(v), None, 0, {}, 0)])
    && Accept(Fields(1, 10, 10, 0, v)) in s.net
    && Accepted(Fields(1, 11, 11, 0, w)) in s.net && Accepted(Fields(1, 11, 11, 2, w)) in s.net
  }

  /** The state after the first request, with only acceptor 1 having voted. */
  ghost predicate AskedFirst(s: System, v: Value) {
    && |s.acceptors| == 3 && s.learners == Three().learners && Accept(Fields(1, 10, 10, 0, v)) in s.net
    && s.acceptors[0] == A.Initial(0) && s.acceptors[1] == Holding(1, Fields(1, 10, 10, 1, v))
    && s.acceptors[2] == Holding(2, Fields(1, 10, 0, 2, []))
    && s.proposers == map[0 := Asked(Submitted(Three().proposers[0], v), 1, 10), 1 := Three().proposers[1]]
  }

  lemma FirstAsks(d: Option<Hypothesis>, v: Value) returns (s: System)
    requires v != []
    ensures Reaches(d, Three(), s) && AskedFirst(s, v)
  {
    ThreeReached(d);
    hide Reaches, Init;
    var s1 := Submit(d, Three(), Three(), 0, v);
    var s2 := Ask(d, Three(), s1, 0, 1, [1, 2]);
    assert s2.acceptors[1] == Promised(A.Initial(1), 1, 10) && s2.acceptors[2] == Promised(A.Initial(2), 1, 10);
    s := Vote(d, Three(), s2, Fields(1, 10, 10, 0, v), [1]);
    assert map[1 := Fields(1, 10, 0, 1, [])][1 := Fields(1, 10, 10, 1, v)] == map[1 := Fields(1, 10, 10, 1, v)];
  }

  function Resubmitted(s: System, w: Value): System
    requires 1 in s.proposers
  {
    s.(proposers := s.proposers[1 := Submitted(s.proposers[1], w)])
  }

  lemma RivalCanAsk(s: System, v: Value, w: Value)
    requires AskedFirst(s, v)
    ensures CanAsk(Resubmitted(s, w), 1, 1, [0, 2]) && Resubmitted(s, w).proposers[1].state.queue[0] == w
  {
  }

  lemma IsContested(s: System, v: Value, w: Value, s': System)
    requires AskedFirst(s, v) && CanAsk(Resubmitted(s, w), 1, 1, [0, 2]) && HasChosen(Resubmitted(s, w), s', 1, 1, [0, 2])
    requires Resubmitted(s, w).proposers[1].state.queue[0] == w
    ensures Contested(s', v, w)
  {
    hide CanAsk, PromiseOf;
    assert map[1 := Fields(1, 10, 0, 2, [])][1 := Fields(1, 11, 11, 2, w)] == map[1 := Fields(1, 11, 11, 2, w)];
    assert [0, 2][0] == 0 && [0, 2][1] == 2;
    assert s'.proposers[0] == Asked(Submitted(Three().proposers[0], v), 1, 10);
    assert ([] + [v])[1..] == [];
  }

  lemma ThenContested(d: Option<Hypothesis>, v: Value, w: Value) returns (s: System)
    requires v != [] && w != []
    ensures Reaches(d, Three(), s) && Contested(s, v, w)
  {
    var s1 := FirstAsks(d, v);
    RivalCanAsk(s1, v, w);
    hide Reaches, Init, CanAsk, AskedFirst, Contested, HasChosen, Three;
    var s2 := Submit(d, Three(), s1, 1, w);
    s := Choose(d, Three(), s2, 1, 1, [0, 2]);
    IsContested(s1, v, w, s);
  }

  /** A learner of three acceptors after one ack. */
  function AfterOne(f: Fields): L.Instance
    requires f.aid < 3
  {
    var none: Option<Fields> := None;
    L.Instance(1, f.ballot, [none, none, none][f.aid := Some(f)], None)
  }

  lemma OneAck(f: Fields)
    requires f.iid == 1 && f.aid < 3
    ensures LF.Feed(3, [f]) == L.Update(L.NewInstance(3), f) == AfterOne(f) && L.Count(AfterOne(f).acks, f.ballot) == 1
  {
    var none: Option<Fields> := None;
    var first := L.NewInstance(3).(iid := 1, lastBallot := f.ballot);
    assert first.acks == [none, none, none];
    CountThree(none, none, none, f.ballot);
    var acks := first.acks[f.aid := Some(f)];
    assert acks == [acks[0], acks[1], acks[2]];
    CountThree(acks[0], acks[1], acks[2], f.ballot);
    assert [f][..0] == [];
  }

  /** Two acks for one ballot from acceptors `f.aid < g.aid` of three: the second is the final value. */
  lemma TwoAcksClose(f: Fields, g: Fields)
    requires f.iid == g.iid == 1 && f.aid < g.aid < 3 && f.ballot == g.ballot
    ensures LF.Feed(3, [f, g]).final == Some(g)
  {
    OneAck(f);
    var one := AfterOne(f);
    var acks := one.acks[g.aid := Some(g)];
    LF.CountUpdate(one.acks, g.aid, Some(g), f.ballot);
    LF.LastHolder(acks, f.ballot, g.aid);
    LF.OneMore(3, [f, g]);
    assert [f, g][..1] == [f];
    hide L.Count, L.LastIndex, LF.Feed;
    assert L.Test(one) == one;
    assert L.Update(one, g) == one.(acks := acks);
  }

  lemma CountThree(x: Option<Fields>, y: Option<Fields>, z: Option<Fields>, b: nat)
    ensures L.Count([x, y, z], b) == LF.One(x, b) + LF.One(y, b) + LF.One(z, b)
  {
    assert [x, y, z][..2] == [x, y] && [x, y][..1] == [x] && [x][..0] == [];
    assert L.Count([], b) == 0;
    assert L.Count([x], b) == LF.One(x, b);
    assert L.Count([x, y], b) == LF.One(x, b) + LF.One(y, b);
  }

  /** Preempted, proposer 0 comes back at ballot 20, which acceptors 0 and 1 promise; their records now carry
      ballot 20 with the votes of ballots 11 and 10. */
  lemma ThenPromised(d: Option<Hypothesis>, s: System, v: Value, w: Value) returns (s': System)
    requires Reaches(d, Three(), s) && Contested(s, v, w)
    ensures Reaches(d, Three(), s') && s'.learners == s.learners && s.net <= s'.net && |s'.acceptors| == 3
    ensures s'.acceptors[0] == Holding(0, Fields(1, 20, 11, 0, w)) && s'.acceptors[1] == Holding(1, Fields(1, 20, 10, 1, v))
  {
    hide Reaches;
    var stale := Fields(1, 11, 0, 2, []);
    var s1 := AcceptorMoves(d, Three(), s, 2, OnAccept(Fields(1, 10, 10, 0, v)));
    assert A.ReceiveAccept(s.acceptors[2], Fields(1, 10, 10, 0, v)).1 == Some(Preempted(stale));
    assert Preempted(stale) in s1.net;
    var s2 := ProposerMoves(d, Three(), s1, 0, P.OnPreempted(stale, 0));
    assert P.ReceivePreempted(s.proposers[0].state, stale, 0).1 == Some(Prepare(Request(1, 20)));
    assert Prepare(Request(1, 20)) in s2.net;
    var s3 := AcceptorMoves(d, Three(), s2, 0, OnPrepare(Request(1, 20)));
    s' := AcceptorMoves(d, Three(), s3, 1, OnPrepare(Request(1, 20)));
    Raised(0, Fields(1, 11, 11, 0, w));
    Raised(1, Fields(1, 10, 10, 1, v));
  }

  lemma Raised(a: nat, rec: Fields)
    requires rec.iid == 1 && rec.aid == a && rec.ballot <= 20
    ensures Promised(Holding(a, rec), 1, 20) == Holding(a, rec.(ballot := 20))
  {
    assert map[1 := rec][1 := rec.(ballot := 20)] == map[1 := rec.(ballot := 20)];
  }

  lemma LearnTwo(d: Option<Hypothesis>, s: System, l: nat, f: Fields, g: Fields) returns (s': System)
    requires Reaches(d, Three(), s) && l < |s.learners| && s.learners[l] == Three().learners[0]
    requires Accepted(f) in s.net && Accepted(g) in s.net && f.iid == g.iid == 1 && f.aid < g.aid < 3 && f.ballot == g.ballot
    ensures Reaches(d, Three(), s') && HasLearned(s, s', l, [f, g]) && Closed(s', l, 1, g.value)
  {
    hide Reaches;
    s' := Teach(d, Three(), s, l, [f, g]);
    TwoAcksClose(f, g);
    LF.FeedsOne(3, true, 1, [f, g]);
  }

  /** Without the hypothesis on repeats agreement fails: in this run the first learner hears the votes and closes
      with `w`, the second hears the repeated records of acceptors 0 and 1 and closes with `v`. */
  lemma RepeatsBreakAgreement(v: Value, w: Value) returns (run: seq<System>)
    requires v != [] && w != [] && v != w
    ensures IsRunBut(Some(RepeatedVotes), run)
    ensures Closed(run[|run| - 1], 0, 1, w) && Closed(run[|run| - 1], 1, 1, v)
  {
    var d: Option<Hypothesis> := Some(RepeatedVotes);
    var s1 := ThenContested(d, v, w);
    hide Reaches, Three;
    var s2 := ThenPromised(d, s1, v, w);
    var s3 := AcceptorMoves(d, Three(), s2, 0, OnRepeat(1));
    var s4 := AcceptorMoves(d, Three(), s3, 1, OnRepeat(1));
    assert Accepted(Fields(1, 20, 11, 0, w)) in s4.net && Accepted(Fields(1, 20, 10, 1, v)) in s4.net;
    TwoLearners();
    var s5 := LearnTwo(d, s4, 0, Fields(1, 11, 11, 0, w), Fields(1, 11, 11, 2, w));
    var s6 := LearnTwo(d, s5, 1, Fields(1, 20, 11, 0, w), Fields(1, 20, 10, 1, v));
    assert s6.learners[0] == s5.learners[0];
    run := RunOf(d, s6);
  }

  lemma TwoLearners()
    ensures |Three().learners| == 2 && Three().learners[0] == Three().learners[1]
  {
  }

  lemma RunOf(d: Option<Hypothesis>, s: System) returns (run: seq<System>)
    requires Reaches(d, Three(), s)
    ensures IsRunBut(d, run) && run[|run| - 1] == s
  {
    run :| IsRunBut(d, run) && run[0] == Three() && run[|run| - 1] == s;
  }

  // ---------- Empty client values ----------

  lemma EmptyChosen(d: Option<Hypothesis>) returns (s: System)
    requires d == Some(NonEmptyValues)
    ensures Reaches(d, Three(), s) && |s.acceptors| == 3 && s.learners == Three().learners && 1 in s.proposers
    ensures s.acceptors[0] == Holding(0, Fields(1, 10, 10, 0, [])) && s.acceptors[1] == Holding(1, Fields(1, 10, 10, 1, []))
    ensures s.proposers[1] == Three().proposers[1]
    ensures Accepted(Fields(1, 10, 10, 0, [])) in s.net && Accepted(Fields(1, 10, 10, 1, [])) in s.net
  {
    ThreeReached(d);
    hide Reaches, Init;
    var s1 := Submit(d, Three(), Three(), 0, []);
    s := Choose(d, Three(), s1, 0, 1, [0, 1]);
    assert [0, 1][0] == 0 && [0, 1][1] == 1;
  }

  /** Without the hypothesis on values agreement fails: an empty value is chosen and learned at ballot 10, the
      promises that report it count as reporting nothing, and at ballot 11 `w` is chosen and learned. */
  lemma EmptyBreaksAgreement(w: Value) returns (run: seq<System>)
    requires w != []
    ensures IsRunBut(Some(NonEmptyValues), run)
    ensures Closed(run[|run| - 1], 0, 1, []) && Closed(run[|run| - 1], 1, 1, w)
  {
    var d: Option<Hypothesis> := Some(NonEmptyValues);
    var s1 := EmptyChosen(d);
    hide Reaches, Init, PromiseOf;
    var s2 := Submit(d, Three(), s1, 1, w);
    assert ([] + [w])[0] == w;
    var s3 := Choose(d, Three(), s2, 1, 1, [0, 1]);
    assert [0, 1][0] == 0 && [0, 1][1] == 1;
    var s4 := LearnTwo(d, s3, 0, Fields(1, 10, 10, 0, []), Fields(1, 10, 10, 1, []));
    var s5 := LearnTwo(d, s4, 1, Fields(1, 11, 11, 0, w), Fields(1, 11, 11, 1, w));
    assert s5.learners[0] == s4.learners[0];
    run := RunOf(d, s5);
  }

  // ---------- Dropped instances ----------

  lemma ChosenByTwo(s: System, i: nat, b: nat, v: Value)
    requires |s.acceptors| == 3 && VoteMsg(i, b, 0, v) in s.net && VoteMsg(i, b, 1, v) in s.net
    ensures Chosen(s.net, 3, i, v)
  {
    assert Quorum.Majority({0, 1}, 3);
    assert AllVoted(s.net, {0, 1}, i, b, v);
    assert ChosenAt(s.net, 3, i, b, v);
  }

  /** Proposer 0 of `Three` after its value was chosen in instance 1 and before it hears a vote. */
  function Waiting(v: Value, next: nat): P.State {
    P.State(0, 3, [], 0, next, map[], map[1 := P.Instance(1, 10, Some(v), None, 0, {}, 0)])
  }

  lemma WaitingPends(v: Value)
    ensures P.IsReturned(Waiting(v, 1), 2, [v])
    ensures P.After(Waiting(v, 1).preparing, 2) == map[] && P.After(Waiting(v, 1).accepting, 2) == map[]
  {
    var s := Waiting(v, 1);
    assert P.UpTo(s.preparing, 2) == map[] && P.UpTo(s.accepting, 2) == s.accepting;
    assert P.Pending(map[]) == multiset{};
    P.PendingSplit(s.accepting, 1);
    assert s.accepting - {1} == map[];
  }

  lemma SkipWaiting(h: ProposerHost, v: Value, net: set<Message>)
    requires h.state == Waiting(v, 1)
    ensures P.Enabled(h.state, P.SetInstance(2, [v]), net)
    ensures ProposerStep(h, P.SetInstance(2, [v]), net) == (h.(state := P.State(0, 3, [v], 0, 2, map[], map[])), {})
  {
    WaitingPends(v);
    hide P.IsReturned, P.After;
    assert [] + [v] == [v] && h.retired + [] == h.retired && h.notices + [] == h.notices;
  }

  lemma WaitingReached(d: Option<Hypothesis>, v: Value) returns (s: System)
    requires v != []
    ensures Reaches(d, Three(), s) && |s.acceptors| == 3 && s.proposers.Keys == {0, 1} && ChosenOnce(s, v, Waiting(v, 1))
    ensures s.proposers[0] == ProposerHost(Waiting(v, 1), multiset{v}, [], []) && s.proposers[1] == Three().proposers[1]
    ensures s.acceptors[0] == Holding(0, Fields(1, 10, 10, 0, v)) && s.acceptors[1] == Holding(1, Fields(1, 10, 10, 1, v))
    ensures VoteMsg(1, 10, 0, v) in s.net && VoteMsg(1, 10, 1, v) in s.net
    ensures Promise(Fields(1, 10, 0, 0, [])) in s.net && Promise(Fields(1, 10, 0, 1, [])) in s.net
  {
    ThreeReached(d);
    hide Reaches, Init;
    var s1 := Submit(d, Three(), Three(), 0, v);
    assert ([] + [v])[0] == v && ([] + [v])[1..] == [] && multiset{} + multiset{v} == multiset{v};
    s := Choose(d, Three(), s1, 0, 1, [0, 1]);
    assert [0, 1][0] == 0 && [0, 1][1] == 1;
  }

  lemma DroppedReached(v: Value) returns (s: System)
    requires v != []
    ensures Reaches(None, Three(), s) && |s.acceptors| == 3 && s.proposers.Keys == {0, 1}
    ensures s.proposers[0] == ProposerHost(P.State(0, 3, [v], 0, 2, map[], map[]), multiset{v}, [], [])
    ensures s.proposers[1] == Three().proposers[1]
    ensures s.acceptors[0] == Holding(0, Fields(1, 10, 10, 0, v)) && s.acceptors[1] == Holding(1, Fields(1, 10, 10, 1, v))
    ensures VoteMsg(1, 10, 0, v) in s.net && VoteMsg(1, 10, 1, v) in s.net
  {
    var s1 := WaitingReached(None, v);
    hide Reaches, ProposerStep, P.Enabled, Three, Waiting;
    SkipWaiting(s1.proposers[0], v, s1.net);
    s := ProposerMoves(None, Three(), s1, 0, P.SetInstance(2, [v]));
  }

  /** Dropping an instance that carries a client value can get the value chosen twice: submitted once, it is chosen
      in instance 1, dropped by an advancing set-instance-id before the votes are heard, and chosen again in 3. */
  lemma DropChoosesTwice(v: Value) returns (run: seq<System>)
    requires v != []
    ensures IsRun(run)
    ensures var s := run[|run| - 1];
            && |s.acceptors| == 3 && Chosen(s.net, 3, 1, v) && Chosen(s.net, 3, 3, v)
            && s.proposers.Keys == {0, 1} && s.proposers[0].proposed == multiset{v} && s.proposers[1].proposed == multiset{}
  {
    var s1 := DroppedReached(v);
    OtherIdle();
    hide Reaches, Chosen, Three;
    var s2 := Choose(None, Three(), s1, 0, 3, [0, 1]);
    assert [0, 1][0] == 0 && [0, 1][1] == 1;
    ChosenByTwo(s2, 1, 10, v);
    ChosenByTwo(s2, 3, 10, v);
    run := ReachedByRun(Three(), s2);
  }

  lemma OtherIdle()
    ensures 1 in Three().proposers && Three().proposers[1].proposed == multiset{}
  {
  }

  // ---------- Notices that a value was chosen ----------

  lemma LearnNotice(d: Option<Hypothesis>, s: System, l: nat, f: Fields) returns (s': System)
    requires Reaches(d, Three(), s) && l < |s.learners| && s.learners[l] == Three().learners[0] && f.iid == 1
    requires d == Some(RealNotices)
    ensures Reaches(d, Three(), s') && s' == s.(learners := s'.learners) && |s'.learners| == |s.learners|
    ensures (forall j :: 0 <= j < |s.learners| && j != l ==> s'.learners[j] == s.learners[j]) && Closed(s', l, 1, f.value)
  {
    hide Reaches;
    var g, h := f.(aid := 1), f.(aid := 2);
    OneAck(g);
    TwoAcksClose(g, h);
    LF.OneMore(3, [g, h]);
    assert [g, h][..1] == [g];
    hide L.Update, L.Test, LF.Feed;
    s' := LearnerMoves(d, Three(), s, l, LearnChosen(f));
  }

  /** A learner told that a value was chosen when it was not: acceptors 0 and 2 have accepted `w`, which the first learner
      hears from them, and the second is sent the vote of acceptor 1 for `v`, on which no proposer closed the instance. */
  lemma NoticesBreakAgreement(v: Value, w: Value) returns (run: seq<System>)
    requires v != [] && w != [] && v != w
    ensures IsRunBut(Some(RealNotices), run)
    ensures Closed(run[|run| - 1], 0, 1, w) && Closed(run[|run| - 1], 1, 1, v)
  {
    var d: Option<Hypothesis> := Some(RealNotices);
    var s1 := ThenContested(d, v, w);
    hide Reaches, Three;
    TwoLearners();
    var s2 := LearnTwo(d, s1, 0, Fields(1, 11, 11, 0, w), Fields(1, 11, 11, 2, w));
    var s3 := LearnNotice(d, s2, 1, Fields(1, 10, 10, 1, v));
    assert s3.learners[0] == s2.learners[0];
    run := RunOf(d, s3);
  }

  /** learner_receive_chosen closes an instance on one message exactly with three acceptors. */
  lemma ChosenClosesThree(n: nat, catchUp: bool, ack: Fields)
    ensures LF.ClosedHere(L.ReceiveChosen(L.Initial(n, catchUp), ack), ack.iid) <==> n == 3 && 0 < ack.iid
  {
    var f, g := ack.(aid := 1), ack.(aid := 2);
    var inst := L.NewInstance(n).(iid := ack.iid, lastBallot := ack.ballot);
    LF.CountNone(inst.acks, ack.ballot);
    var one := L.Update(L.NewInstance(n), f);
    if n < 2 {
      assert one == inst && L.Update(one, g) == inst;
    } else {
      LF.CountUpdate(inst.acks, 1, Some(f), ack.ballot);
      assert one == inst.(acks := inst.acks[1 := Some(f)]);
      if n == 2 {
        assert L.Update(one, g) == one;
      } else {
        LF.CountUpdate(one.acks, 2, Some(g), ack.ballot);
        assert L.Update(one, g) == one.(acks := one.acks[2 := Some(g)]);
      }
    }
  }

  // ---------- Preparing an instance again ----------

  /** The ballot an instance was given is the proposer's, within 32 bits, and above all its requests for the instance. */
  ghost predicate IsNew(s: P.State, iid: nat, net: set<Message>)
    requires iid in s.preparing
  {
    var b := s.preparing[iid].ballot;
    && b % MAX_PROPOSERS == s.id && MAX_PROPOSERS <= b < 0x1_0000_0000
    && forall f :: Accept(f) in net && f.iid == iid && f.ballot % MAX_PROPOSERS == s.id ==> f.ballot < b
  }

  /** In every reachable state proposer_prepare_instance gives an instance a new ballot exactly when it is in phase one
      with a ballot that does not wrap, or was never requested by this proposer. */
  lemma ReopenIsNew(run: seq<System>, k: nat, p: nat, iid: nat, now: int)
    requires IsRun(run) && k < |run| && p in run[k].proposers
    ensures var s, net := run[k].proposers[p].state, run[k].net;
            IsNew(P.PrepareInstance(s, iid, now).0, iid, net) <==> HasNewBallot(s, iid, net)
  {
    hide IsRun, AcceptorInv, LearnerInv, PhasesOk, Conserved, RetiredChosen, NoticesChosen;
    RunInv(run, k);
    var s, net, n := run[k].proposers[p].state, run[k].net, |run[k].acceptors|;
    assert ProposerInv(p, run[k].proposers[p], net, n);
    hide Inv;
    NewExactly(s, iid, now, net, n);
  }

  lemma NewExactly(s: P.State, iid: nat, now: int, net: set<Message>, n: nat)
    requires TablesOk(s, n) && SentOk(s, net) && NetInv(net, n) && s.id < MAX_PROPOSERS
    ensures IsNew(P.PrepareInstance(s, iid, now).0, iid, net) <==> HasNewBallot(s, iid, net)
  {
    hide Justified, AcceptsUnique, VotesOk, PromisesOk, PromisesKept, AllFit, P.NextBallot;
    if iid in s.preparing {
      var b := s.preparing[iid].ballot;
      assert InstanceOk(s, n, iid, s.preparing[iid]);
      forall f | Accept(f) in net && f.iid == iid && f.ballot % MAX_PROPOSERS == s.id ensures f.ballot < b {
        assert Past(s, f);
      }
      hide TablesOk, SentOk, NetInv;
      PreemptedBallot(s.id, b);
    } else {
      FirstBallot(s.id, 0);
      forall f | Accept(f) in net && f.iid == iid && f.ballot % MAX_PROPOSERS == s.id
        ensures P.NextBallot(s.id, 0) <= f.ballot
      {
        assert MAX_PROPOSERS <= f.ballot;
        FirstBallot(s.id, f.ballot);
      }
      hide TablesOk, SentOk, NetInv;
    }
  }

  /** The next ballot is larger and of the same proposer exactly when it does not wrap. */
  lemma PreemptedBallot(id: nat, b: nat)
    requires id < MAX_PROPOSERS && MAX_PROPOSERS <= b < 0x1_0000_0000 && b % MAX_PROPOSERS == id
    ensures var c := P.NextBallot(id, b);
            if b + MAX_PROPOSERS < 0x1_0000_0000 then b < c < 0x1_0000_0000 && c % MAX_PROPOSERS == id else c < MAX_PROPOSERS
  {
    var d := b + MAX_PROPOSERS;
    if d < 0x1_0000_0000 {
      assert P.NextBallot(id, b) == d;
      SameResidue(b);
    } else {
      assert P.NextBallot(id, b) == d - 0x1_0000_0000;
    }
  }

  lemma SameResidue(b: nat)
    ensures (b + MAX_PROPOSERS) % MAX_PROPOSERS == b % MAX_PROPOSERS
  {
  }

  /** The first ballot is the smallest of the proposer. */
  lemma FirstBallot(id: nat, b: nat)
    ensures id < MAX_PROPOSERS ==>
              var c := P.NextBallot(id, 0);
              c == MAX_PROPOSERS + id && c % MAX_PROPOSERS == id && (b % MAX_PROPOSERS == id && MAX_PROPOSERS <= b ==> c <= b)
  {
  }

  function Idle(queue: seq<Value>, next: nat): P.State {
    P.State(0, 3, queue, 0, next, map[], map[])
  }

  lemma HearsVotes(h: ProposerHost, v: Value, next: nat, net: set<Message>)
    requires h.state == Waiting(v, next) && VoteMsg(1, 10, 0, v) in net && VoteMsg(1, 10, 1, v) in net
    ensures var h1 := ProposerStep(h, P.OnAccepted(Fields(1, 10, 10, 0, v)), net).0;
            h1.state == Waiting(v, next).(accepting := map[1 := P.Instance(1, 10, Some(v), None, 0, {0}, 0)])
            && ProposerStep(h1, P.OnAccepted(Fields(1, 10, 10, 1, v)), net).0.state == Idle([], next)
  {
    var inst := P.Instance(1, 10, Some(v), None, 0, {}, 0);
    assert |{0}| == 1 && |{0, 1}| == 2 && {} + {0} == {0} && {0} + {1} == {0, 1};
    assert map[1 := inst][1 := inst.(acks := {0})] == map[1 := inst.(acks := {0})];
    assert map[1 := inst.(acks := {0})] - {1} == map[];
    var queue: seq<Value> := [];
    assert queue + [] == [];
  }

  /** `v` is chosen in instance 1 at ballot 10, whose promises are still on the network; proposer 0 is in state `st`. */
  ghost predicate ChosenOnce(s: System, v: Value, st: P.State) {
    && |s.acceptors| == 3 && s.learners == Three().learners && 0 in s.proposers && s.proposers[0].state == st
    && s.acceptors[0] == Holding(0, Fields(1, 10, 10, 0, v)) && s.acceptors[1] == Holding(1, Fields(1, 10, 10, 1, v))
    && VoteMsg(1, 10, 0, v) in s.net && VoteMsg(1, 10, 1, v) in s.net
    && Promise(Fields(1, 10, 0, 0, [])) in s.net && Promise(Fields(1, 10, 0, 1, [])) in s.net
  }

  /** The proposer hears the votes, closes the instance, and is given `w`. */
  lemma CloseAndSubmit(d: Option<Hypothesis>, s: System, v: Value, w: Value, next: nat) returns (s': System)
    requires Reaches(d, Three(), s) && ChosenOnce(s, v, Waiting(v, next)) && w != []
    ensures Reaches(d, Three(), s') && ChosenOnce(s', v, Idle([w], next))
  {
    hide Reaches, ProposerStep, Three;
    HearsVotes(s.proposers[0], v, next, s.net);
    var s1 := ProposerMoves(d, Three(), s, 0, P.OnAccepted(Fields(1, 10, 10, 0, v)));
    var s2 := ProposerMoves(d, Three(), s1, 0, P.OnAccepted(Fields(1, 10, 10, 1, v)));
    HostOnMore(s1.proposers[0], P.OnAccepted(Fields(1, 10, 10, 1, v)), s.net, s1.net);
    s' := Submit(d, Three(), s2, 0, w);
    assert [] + [w] == [w];
  }

  lemma HostOnMore(h: ProposerHost, act: P.Action, net: set<Message>, net': set<Message>)
    requires P.Enabled(h.state, act, net) && net <= net'
    ensures P.Enabled(h.state, act, net') && ProposerStep(h, act, net') == ProposerStep(h, act, net)
  {
    P.StepOnMore(h.state, act, net, net');
  }

  /** The proposer in phase one of instance 1 again, at the same ballot. */
  function Again(w: Value, acks: set<nat>): P.State {
    P.State(0, 3, [w], 0, 1, map[1 := P.Instance(1, 10, None, None, 0, acks, 0)], map[])
  }

  lemma OldPromises(h: ProposerHost, w: Value, net: set<Message>)
    requires h.state == Again(w, {}) && Promise(Fields(1, 10, 0, 0, [])) in net && Promise(Fields(1, 10, 0, 1, [])) in net
    ensures var h1 := ProposerStep(h, P.OnPromise(Fields(1, 10, 0, 0, []), 0), net).0;
            var h2 := ProposerStep(h1, P.OnPromise(Fields(1, 10, 0, 1, []), 0), net).0;
            h1.state == Again(w, {0}) && h2.state == Again(w, {0, 1})
  {
    var inst := P.Instance(1, 10, None, None, 0, {}, 0);
    assert {} + {0} == {0} && {0} + {1} == {0, 1};
    assert map[1 := inst][1 := inst.(acks := {0})] == map[1 := inst.(acks := {0})];
    assert map[1 := inst.(acks := {0})][1 := inst.(acks := {0, 1})] == map[1 := inst.(acks := {0, 1})];
  }

  lemma AsksAgain(h: ProposerHost, w: Value, net: set<Message>)
    requires h.state == Again(w, {0, 1})
    ensures P.Enabled(h.state, P.TryAccept(Some(1)), net)
    ensures ProposerStep(h, P.TryAccept(Some(1)), net).1 == {Accept(Fields(1, 10, 10, 0, w))}
  {
    assert |{0, 1}| == 2;
  }

  lemma SecondRequest(d: Option<Hypothesis>, s: System, v: Value, w: Value) returns (s': System)
    requires Reaches(d, Three(), s) && ChosenOnce(s, v, Again(w, {}))
    ensures Reaches(d, Three(), s') && s'.acceptors == s.acceptors && s'.learners == s.learners && s.net <= s'.net
    ensures Accept(Fields(1, 10, 10, 0, w)) in s'.net
  {
    var f, g := Fields(1, 10, 0, 0, []), Fields(1, 10, 0, 1, []);
    hide Reaches, ProposerStep, Three, Again;
    OldPromises(s.proposers[0], w, s.net);
    var s1 := ProposerMoves(d, Three(), s, 0, P.OnPromise(f, 0));
    var s2 := ProposerMoves(d, Three(), s1, 0, P.OnPromise(g, 0));
    HostOnMore(s1.proposers[0], P.OnPromise(g, 0), s.net, s1.net);
    AsksAgain(s2.proposers[0], w, s2.net);
    s' := ProposerMoves(d, Three(), s2, 0, P.TryAccept(Some(1)));
  }

  /** From there the old promises count, `w` is requested at the same ballot, the acceptors that voted for `v` vote for
      it too, and two learners disagree. */
  lemma SecondRound(d: Option<Hypothesis>, s: System, v: Value, w: Value) returns (run: seq<System>)
    requires Reaches(d, Three(), s) && ChosenOnce(s, v, Again(w, {}))
    ensures IsRunBut(d, run) && Closed(run[|run| - 1], 0, 1, v) && Closed(run[|run| - 1], 1, 1, w)
  {
    var f := Fields(1, 10, 10, 0, w);
    var s1 := SecondRequest(d, s, v, w);
    TwoLearners();
    hide Reaches, Three;
    var s2 := Vote(d, Three(), s1, f, [0, 1]);
    assert [0, 1][0] == 0 && [0, 1][1] == 1;
    var s3 := LearnTwo(d, s2, 0, Fields(1, 10, 10, 0, v), Fields(1, 10, 10, 1, v));
    var s4 := LearnTwo(d, s3, 1, Fields(1, 10, 10, 0, w), Fields(1, 10, 10, 1, w));
    assert s4.learners[0] == s3.learners[0];
    run := RunOf(d, s4);
  }

  lemma ReopensAt(h: ProposerHost, w: Value, net: set<Message>)
    requires h.state == Idle([w], 1)
    ensures ProposerStep(h, P.Reopen(1, 0), net).0.state == Again(w, {})
  {
    assert map[][1 := P.NewInstance(1, 10, 0)] == Again(w, {}).preparing;
  }

  /** Preparing a closed instance again breaks agreement: it gets the ballot at which `v` was chosen. */
  lemma ReopeningBreaksAgreement(v: Value, w: Value) returns (run: seq<System>)
    requires v != [] && w != [] && v != w
    ensures IsRunBut(Some(FreshBallots), run)
    ensures Closed(run[|run| - 1], 0, 1, v) && Closed(run[|run| - 1], 1, 1, w)
  {
    var d: Option<Hypothesis> := Some(FreshBallots);
    var s1 := WaitingReached(d, v);
    hide Reaches, ProposerStep, Three, Again;
    var s2 := CloseAndSubmit(d, s1, v, w, 1);
    ReopensAt(s2.proposers[0], w, s2.net);
    var s3 := ProposerMoves(d, Three(), s2, 0, P.Reopen(1, 0));
    run := SecondRound(d, s3, v, w);
  }

  // The other half of the condition: an id the proposer has yet to open.

  lemma OpensAhead(h: ProposerHost, net: set<Message>)
    requires h == Three().proposers[0]
    ensures ProposerStep(h, P.Reopen(1, 0), net) == (AheadHost([], {}), {Prepare(Request(1, 10))})
  {
    assert h.retired + [] == h.retired && h.notices + [] == h.notices;
    assert map[][1 := P.NewInstance(1, 10, 0)] == map[1 := P.Instance(1, 10, None, None, 0, {}, 0)];
  }

  /** Proposer 0 with instance 1 in phase one although its counter is still 0. */
  function AheadHost(queue: seq<Value>, acks: set<nat>): ProposerHost {
    ProposerHost(P.State(0, 3, queue, 0, 0, map[1 := P.Instance(1, 10, None, None, 0, acks, 0)], map[]), multiset(queue), [], [])
  }

  lemma AsksAhead(v: Value, net: set<Message>)
    ensures P.Enabled(AheadHost([v], {0, 1}).state, P.TryAccept(Some(1)), net)
    ensures ProposerStep(AheadHost([v], {0, 1}), P.TryAccept(Some(1)), net)
         == (ProposerHost(Waiting(v, 0), multiset([v]), [], []), {Accept(Fields(1, 10, 10, 0, v))})
  {
    var h := AheadHost([v], {0, 1});
    assert |{0, 1}| == 2 && [v][1..] == [];
    assert h.retired + [] == h.retired && h.notices + [] == h.notices && h.state.preparing - {1} == map[];
  }

  lemma AheadCollected(d: Option<Hypothesis>) returns (s: System)
    requires d == Some(FreshBallots)
    ensures Reaches(d, Three(), s) && |s.acceptors| == 3 && s.learners == Three().learners
    ensures 0 in s.proposers && s.proposers[0] == AheadHost([], {0, 1})
    ensures s.acceptors[0] == Holding(0, Fields(1, 10, 0, 0, [])) && s.acceptors[1] == Holding(1, Fields(1, 10, 0, 1, []))
    ensures Promise(Fields(1, 10, 0, 0, [])) in s.net && Promise(Fields(1, 10, 0, 1, [])) in s.net
  {
    ThreeReached(d);
    hide Reaches, Init, ProposerStep;
    OpensAhead(Three().proposers[0], {});
    var s1 := ProposerMoves(d, Three(), Three(), 0, P.Reopen(1, 0));
    assert s1.proposers[0] == AheadHost([], {});
    s := Collect(d, Three(), s1, 0, 1, 10, [0, 1]);
    assert [0, 1][0] == 0 && [0, 1][1] == 1 && {} + Members([0, 1]) == {0, 1};
    assert map[1 := P.Instance(1, 10, None, None, 0, {}, 0)][1 := P.Instance(1, 10, None, None, 0, {0, 1}, 0)]
        == map[1 := P.Instance(1, 10, None, None, 0, {0, 1}, 0)];
  }

  lemma AheadAsked(d: Option<Hypothesis>, v: Value) returns (s: System)
    requires d == Some(FreshBallots) && v != []
    ensures Reaches(d, Three(), s) && |s.acceptors| == 3 && s.learners == Three().learners
    ensures 0 in s.proposers && s.proposers[0].state == Waiting(v, 0) && Accept(Fields(1, 10, 10, 0, v)) in s.net
    ensures s.acceptors[0] == Holding(0, Fields(1, 10, 0, 0, [])) && s.acceptors[1] == Holding(1, Fields(1, 10, 0, 1, []))
    ensures Promise(Fields(1, 10, 0, 0, [])) in s.net && Promise(Fields(1, 10, 0, 1, [])) in s.net
  {
    var s1 := AheadCollected(d);
    hide Reaches, ProposerStep, Three;
    var s2 := Submit(d, Three(), s1, 0, v);
    assert [] + [v] == [v] && multiset{} + multiset{v} == multiset([v]);
    assert s2.proposers[0] == AheadHost([v], {0, 1});
    AsksAhead(v, s2.net);
    hide P.Enabled, AheadHost;
    s := ProposerMoves(d, Three(), s2, 0, P.TryAccept(Some(1)));
  }

  lemma AheadChosen(d: Option<Hypothesis>, v: Value) returns (s: System)
    requires d == Some(FreshBallots) && v != []
    ensures Reaches(d, Three(), s) && ChosenOnce(s, v, Waiting(v, 0))
  {
    var s1 := AheadAsked(d, v);
    hide Reaches, Three, Waiting;
    s := Vote(d, Three(), s1, Fields(1, 10, 10, 0, v), [0, 1]);
    assert [0, 1][0] == 0 && [0, 1][1] == 1;
    Revoted(0, v);
    Revoted(1, v);
  }

  lemma Revoted(a: nat, v: Value)
    ensures A.Store(Holding(a, Fields(1, 10, 0, a, [])), Fields(1, 10, 10, a, v)) == Holding(a, Fields(1, 10, 10, a, v))
  {
    assert map[1 := Fields(1, 10, 0, a, [])][1 := Fields(1, 10, 10, a, v)] == map[1 := Fields(1, 10, 10, a, v)];
  }

  lemma OpensNext(h: ProposerHost, w: Value, net: set<Message>)
    requires h.state == Idle([w], 0)
    ensures ProposerStep(h, P.Open(0), net).0.state == Again(w, {})
  {
    assert map[][1 := P.NewInstance(1, 10, 0)] == Again(w, {}).preparing;
  }

  /** So does preparing an instance ahead of the counter, although its ballot is new: once it is closed, proposer_prepare
      opens the instance a second time at that ballot. */
  lemma ReopeningAheadBreaksAgreement(v: Value, w: Value) returns (run: seq<System>)
    requires v != [] && w != [] && v != w
    ensures IsRunBut(Some(FreshBallots), run)
    ensures Closed(run[|run| - 1], 0, 1, v) && Closed(run[|run| - 1], 1, 1, w)
  {
    var d: Option<Hypothesis> := Some(FreshBallots);
    var s1 := AheadChosen(d, v);
    hide Reaches, ProposerStep, Three, Again;
    var s2 := CloseAndSubmit(d, s1, v, w, 0);
    OpensNext(s2.proposers[0], w, s2.net);
    var s3 := ProposerMoves(d, Three(), s2, 0, P.Open(0));
    run := SecondRound(d, s3, v, w);
  }

  // ---------- A late learner ----------

  /** Without catch-up, a learner moved to `iid` reports holes that are not there: over any calls, once drained, exactly
      when a later instance is closed or it is still below `iid`, to where the first ack has taken it back. */
  lemma LateStartHole(n: nat, iid: nat, calls: seq<LF.Call>)
    requires L.DeliverNext(LF.RunFrom(L.SetInstanceId(L.Initial(n, false), iid), calls)).1.None?
    ensures var s := LF.RunFrom(L.SetInstanceId(L.Initial(n, false), iid), calls);
            L.HasHoles(s).Some? <==> s.current < iid || exists i: nat :: LF.ClosedHere(s, i) && s.current < i
  {
    LF.HolesFrom(L.SetInstanceId(L.Initial(n, false), iid), calls);
  }

  /** Already after the first ack, with nothing closed, exactly when that ack is for an earlier instance. */
  lemma LateStartFirstAck(n: nat, iid: nat, ack: Fields)
    requires 2 <= n
    ensures var s := L.ReceiveAccepted(L.SetInstanceId(L.Initial(n, false), iid), ack);
            && (L.HasHoles(s).Some? <==> ack.iid < iid)
            && (forall i: nat :: !LF.ClosedHere(s, i))
  {
    var inst := L.NewInstance(n);
    LF.NewOpen(n);
    LF.StepOpen(inst, ack);
    forall b: nat ensures L.Count(LF.StoreAck(inst.acks, ack), b) <= 1 {
      LF.CountNone(inst.acks, b);
      if L.Storable(inst.acks, ack) {
        LF.CountUpdate(inst.acks, ack.aid, Some(ack), b);
      }
    }
  }
}
