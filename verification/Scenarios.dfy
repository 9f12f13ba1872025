/** Building runs: what a proposer, a set of acceptors and a learner can be made to do from a state already reached. */
module Scenarios {
  import opened Types
  import opened Protocol
  import A = AcceptorSpec
  import P = ProposerSpec
  import L = LearnerSpec
  import LF = LearnerFacts

  /** A run from `o` that may break hypothesis `d`, and no other, leads to `s`. */
  ghost predicate Reaches(d: Option<Hypothesis>, o: System, s: System) {
    exists run :: IsRunBut(d, run) && run[0] == o && run[|run| - 1] == s
  }

  /** With no hypothesis dropped these are the runs the theorems speak of. */
  lemma ReachedByRun(o: System, s: System) returns (run: seq<System>)
    requires Reaches(None, o, s)
    ensures IsRun(run) && run[0] == o && run[|run| - 1] == s
  {
    run :| IsRunBut(None, run) && run[0] == o && run[|run| - 1] == s;
    forall i | 0 <= i < |run| - 1 ensures IsStep(run[i], run[i + 1]) {
      assert IsStepBut(None, run[i], run[i + 1]);
      StepMeetsAll(run[i], run[i + 1]);
    }
  }

  lemma StepMeetsAll(s: System, s': System)
    requires IsStepBut(None, s, s')
    ensures IsStep(s, s')
  {
    hide Raw, MeetsBut;
    var act :| Raw(s, act, s') && MeetsBut(None, s, act);
    assert Next(s, act, s');
  }

  lemma ReachesInit(d: Option<Hypothesis>, o: System)
    requires Init(o)
    ensures Reaches(d, o, o)
  {
    assert IsRunBut(d, [o]);
  }

  lemma Advance(d: Option<Hypothesis>, o: System, s: System, act: Action, s': System)
    requires Reaches(d, o, s) && Raw(s, act, s') && MeetsBut(d, s, act)
    ensures Reaches(d, o, s')
  {
    hide Raw, MeetsBut, Init;
    var run :| IsRunBut(d, run) && run[0] == o && run[|run| - 1] == s;
    var run' := run + [s'];
    assert IsStepBut(d, s, s');
    forall i | 0 <= i < |run'| - 1 ensures IsStepBut(d, run'[i], run'[i + 1]) {
      if i < |run| - 1 {
        assert IsStepBut(d, run[i], run[i + 1]);
      }
    }
    assert IsRunBut(d, run');
  }

  // ---------- Single steps ----------

  lemma AcceptorMoves(d: Option<Hypothesis>, o: System, s: System, a: nat, act: AcceptorAction) returns (s': System)
    requires Reaches(d, o, s) && a < |s.acceptors| && AcceptorEnabled(act, s.net)
    requires act.OnRepeat? && d != Some(RepeatedVotes) ==> RepeatsVote(s.acceptors[a], act.iid)
    ensures Reaches(d, o, s')
    ensures var (st, sent) := AcceptorStep(s.acceptors[a], act);
            s' == s.(acceptors := s.acceptors[a := st], net := s.net + sent)
  {
    hide Reaches, AcceptorStep, AcceptorEnabled, RepeatsVote, MayReopen, IsNoticed;
    var (st, sent) := AcceptorStep(s.acceptors[a], act);
    s' := s.(acceptors := s.acceptors[a := st], net := s.net + sent);
    Advance(d, o, s, AtAcceptor(a, act), s');
  }

  lemma ProposerMoves(d: Option<Hypothesis>, o: System, s: System, p: nat, act: P.Action) returns (s': System)
    requires Reaches(d, o, s) && p in s.proposers && P.Enabled(s.proposers[p].state, act, s.net)
    requires act.Submit? && d != Some(NonEmptyValues) ==> act.v != []
    requires act.Reopen? && d != Some(FreshBallots) ==> MayReopen(s.proposers[p].state, act.iid, s.net)
    ensures Reaches(d, o, s')
    ensures var (h, sent) := ProposerStep(s.proposers[p], act, s.net);
            s' == s.(proposers := s.proposers[p := h], net := s.net + sent)
  {
    hide Reaches, ProposerStep, P.Enabled, MayReopen, IsNoticed;
    var (h, sent) := ProposerStep(s.proposers[p], act, s.net);
    s' := s.(proposers := s.proposers[p := h], net := s.net + sent);
    Advance(d, o, s, AtProposer(p, act), s');
  }

  lemma LearnerMoves(d: Option<Hypothesis>, o: System, s: System, l: nat, act: LearnerAction) returns (s': System)
    requires Reaches(d, o, s) && l < |s.learners| && LearnerEnabled(act, s.net)
    requires act.LearnChosen? && d != Some(RealNotices) ==> IsNoticed(s, act.f)
    ensures Reaches(d, o, s') && s' == s.(learners := s.learners[l := LearnerStep(s.learners[l], act)])
  {
    hide Reaches, LearnerStep, LearnerEnabled, MayReopen, IsNoticed;
    s' := s.(learners := s.learners[l := LearnerStep(s.learners[l], act)]);
    Advance(d, o, s, AtLearner(l, act), s');
  }

  // ---------- Phase one ----------

  predicate Distinct(q: seq<nat>) {
    forall x, y :: 0 <= x < y < |q| ==> q[x] != q[y]
  }

  ghost function Members(q: seq<nat>): set<nat> {
    set x | x in q
  }

  lemma {:induction false} DistinctSize(q: seq<nat>)
    requires Distinct(q)
    ensures |Members(q)| == |q|
  {
    if q != [] {
      var k := |q| - 1;
      DistinctSize(q[..k]);
      assert Members(q) == Members(q[..k]) + {q[k]};
    }
  }

  /** An acceptor that will promise `b` for instance `i` and report no vote the proposer adopts. */
  predicate Willing(acc: A.State, a: nat, i: nat, b: nat) {
    acc.id == a && acc.trim < i && (i in acc.records ==> acc.records[i].ballot <= b && acc.records[i].value == [])
  }

  function Request(i: nat, b: nat): Fields {
    Fields(i, b, 0, 0, [])
  }

  function Promised(acc: A.State, i: nat, b: nat): A.State {
    A.ReceivePrepare(acc, Request(i, b)).0
  }

  /** The promise that answers. */
  function PromiseOf(acc: A.State, a: nat, i: nat, b: nat): Fields {
    A.Record(acc, i).(aid := a, iid := i, ballot := b)
  }

  ghost predicate CanCollect(s: System, p: nat, i: nat, b: nat, q: seq<nat>) {
    && p in s.proposers && Distinct(q) && b < 0x1_0000 && Prepare(Request(i, b)) in s.net
    && var st := s.proposers[p].state;
    && i in st.preparing && st.preparing[i].iid == i && st.preparing[i].ballot == b
    && (forall x :: 0 <= x < |q| ==> q[x] < |s.acceptors| && q[x] !in st.preparing[i].acks && Willing(s.acceptors[q[x]], q[x], i, b))
  }

  function WithAcks(h: ProposerHost, i: nat, acks: set<nat>): ProposerHost
    requires i in h.state.preparing
  {
    h.(state := h.state.(preparing := h.state.preparing[i := h.state.preparing[i].(acks := acks)]))
  }

  /** From `s` to `s'` the acceptors `q` have promised, the proposer has heard them, and nothing else has changed. */
  ghost predicate Collected(s: System, s': System, p: nat, i: nat, b: nat, q: seq<nat>)
    requires p in s.proposers && i in s.proposers[p].state.preparing
  {
    && s'.learners == s.learners && s.net <= s'.net && |s'.acceptors| == |s.acceptors|
    && (forall a :: 0 <= a < |s.acceptors| ==>
          s'.acceptors[a] == if a in q then Promised(s.acceptors[a], i, b) else s.acceptors[a])
    && (forall x :: 0 <= x < |q| && q[x] < |s.acceptors| ==> Promise(PromiseOf(s.acceptors[q[x]], q[x], i, b)) in s'.net)
    && s'.proposers == s.proposers[p := WithAcks(s.proposers[p], i, s.proposers[p].state.preparing[i].acks + Members(q))]
  }

  lemma CollectOne(d: Option<Hypothesis>, o: System, s: System, p: nat, i: nat, b: nat, a: nat) returns (s': System)
    requires Reaches(d, o, s) && CanCollect(s, p, i, b, [a])
    ensures Reaches(d, o, s') && Collected(s, s', p, i, b, [a])
  {
    hide Reaches;
    var q := [a];
    assert q[0] == a;
    var acc := s.acceptors[a];
    var s1 := AcceptorMoves(d, o, s, a, OnPrepare(Request(i, b)));
    var f := PromiseOf(acc, a, i, b);
    assert A.ReceivePrepare(acc, Request(i, b)).1 == Some(Promise(f)) && f.value == [];
    assert Promise(f) in s1.net;
    s' := ProposerMoves(d, o, s1, p, P.OnPromise(f, 0));
    Heard(s.proposers[p], i, f, s1.net);
    assert Members([a]) == {a};
  }

  lemma Heard(h: ProposerHost, i: nat, f: Fields, net: set<Message>)
    requires i in h.state.preparing && f.iid == i && f.ballot == h.state.preparing[i].ballot && f.value == []
    requires f.aid !in h.state.preparing[i].acks && Promise(f) in net
    ensures ProposerStep(h, P.OnPromise(f, 0), net) == (WithAcks(h, i, h.state.preparing[i].acks + {f.aid}), {})
  {
    assert h.retired + [] == h.retired && h.notices + [] == h.notices;
  }

  lemma {:induction false} Collect(d: Option<Hypothesis>, o: System, s: System, p: nat, i: nat, b: nat, q: seq<nat>) returns (s': System)
    requires Reaches(d, o, s) && CanCollect(s, p, i, b, q)
    ensures Reaches(d, o, s') && Collected(s, s', p, i, b, q)
    decreases |q|
  {
    hide Reaches;
    if q == [] {
      s' := s;
      SameHost(s, p, i);
    } else {
      var k := |q| - 1;
      var mid := Collect(d, o, s, p, i, b, q[..k]);
      LastToCollect(s, mid, p, i, b, q);
      s' := CollectOne(d, o, mid, p, i, b, q[k]);
      hide CanCollect;
      CollectedMore(s, mid, s', p, i, b, q);
    }
  }

  lemma SameHost(s: System, p: nat, i: nat)
    requires p in s.proposers && i in s.proposers[p].state.preparing
    ensures s.proposers == s.proposers[p := WithAcks(s.proposers[p], i, s.proposers[p].state.preparing[i].acks + Members([]))]
  {
    var h := s.proposers[p];
    assert h.state.preparing[i].acks + Members([]) == h.state.preparing[i].acks;
    assert h.state.preparing[i := h.state.preparing[i]] == h.state.preparing;
  }

  lemma LastToCollect(s: System, mid: System, p: nat, i: nat, b: nat, q: seq<nat>)
    requires q != [] && CanCollect(s, p, i, b, q) && Collected(s, mid, p, i, b, q[..|q| - 1])
    ensures CanCollect(mid, p, i, b, [q[|q| - 1]])
  {
    var k := |q| - 1;
    assert q[k] !in q[..k];
    assert q[k] !in Members(q[..k]);
  }

  lemma CollectedMore(s: System, mid: System, s': System, p: nat, i: nat, b: nat, q: seq<nat>)
    requires q != [] && p in s.proposers && i in s.proposers[p].state.preparing && Distinct(q) && q[|q| - 1] < |s.acceptors|
    requires Collected(s, mid, p, i, b, q[..|q| - 1]) && Collected(mid, s', p, i, b, [q[|q| - 1]])
    ensures Collected(s, s', p, i, b, q)
  {
    hide Promised, PromiseOf;
    var k, h := |q| - 1, s.proposers[p];
    var acks := h.state.preparing[i].acks;
    assert acks + Members(q[..k]) + Members([q[k]]) == acks + Members(q);
    forall a | 0 <= a < |s.acceptors|
      ensures s'.acceptors[a] == if a in q then Promised(s.acceptors[a], i, b) else s.acceptors[a]
    {
      assert a in q <==> a in q[..k] || a in [q[k]];
      assert q[k] !in q[..k];
    }
    forall x | 0 <= x < |q| && q[x] < |s.acceptors| ensures Promise(PromiseOf(s.acceptors[q[x]], q[x], i, b)) in s'.net {
      if x < k {
        assert q[..k][x] == q[x];
      } else {
        assert [q[k]][0] == q[k] && q[k] !in q[..k] && mid.acceptors[q[k]] == s.acceptors[q[k]];
      }
    }
    MapTwice(s.proposers, p, mid.proposers[p], s'.proposers[p]);
    MapTwice(h.state.preparing, i, mid.proposers[p].state.preparing[i], s'.proposers[p].state.preparing[i]);
  }

  lemma MapTwice<V>(m: map<nat, V>, k: nat, x: V, y: V)
    ensures m[k := x][k := y] == m[k := y]
  {
  }

  // ---------- The accept request ----------

  function Ballot(p: nat): nat {
    MAX_PROPOSERS + p
  }

  /** The first client value in the queue takes the next instance. */
  function Asked(h: ProposerHost, i: nat, b: nat): ProposerHost
    requires h.state.queue != []
  {
    var inst := P.Instance(i, b, Some(h.state.queue[0]), None, 0, {}, 0);
    h.(state := h.state.(next := i, queue := h.state.queue[1..], accepting := h.state.accepting[i := inst]))
  }

  function AcceptRequest(i: nat, b: nat, v: Value): Fields {
    Fields(i, b, b, 0, v)
  }

  ghost predicate CanAsk(s: System, p: nat, i: nat, q: seq<nat>) {
    && p in s.proposers && p < MAX_PROPOSERS && Distinct(q) && QuorumSize(|s.acceptors|) <= |q|
    && (forall x :: 0 <= x < |q| ==> q[x] < |s.acceptors| && Willing(s.acceptors[q[x]], q[x], i, Ballot(p)))
    && var st := s.proposers[p].state;
    st.id == p && st.acceptors == |s.acceptors| && st.preparing == map[] && st.queue != [] && i == st.next + 1
  }

  /** From `s` to `s'` proposer `p` has taken its next client value through phase one with the promises of `q`. */
  ghost predicate HasAsked(s: System, s': System, p: nat, i: nat, q: seq<nat>)
    requires p in s.proposers && s.proposers[p].state.queue != []
  {
    && s'.learners == s.learners && s.net <= s'.net && |s'.acceptors| == |s.acceptors|
    && (forall a :: 0 <= a < |s.acceptors| ==>
          s'.acceptors[a] == if a in q then Promised(s.acceptors[a], i, Ballot(p)) else s.acceptors[a])
    && (forall x :: 0 <= x < |q| && q[x] < |s.acceptors| ==> Promise(PromiseOf(s.acceptors[q[x]], q[x], i, Ballot(p))) in s'.net)
    && s'.proposers == s.proposers[p := Asked(s.proposers[p], i, Ballot(p))]
    && Accept(AcceptRequest(i, Ballot(p), s.proposers[p].state.queue[0])) in s'.net
  }

  function Opened(h: ProposerHost, i: nat, b: nat): ProposerHost {
    h.(state := h.state.(next := i, preparing := map[i := P.NewInstance(i, b, 0)]))
  }

  lemma OpenHost(h: ProposerHost, p: nat, i: nat, net: set<Message>)
    requires p < MAX_PROPOSERS && h.state.id == p && h.state.preparing == map[] && i == h.state.next + 1
    ensures ProposerStep(h, P.Open(0), net) == (Opened(h, i, Ballot(p)), {Prepare(Request(i, Ballot(p)))})
  {
    assert h.retired + [] == h.retired && h.notices + [] == h.notices;
    assert h.state.preparing[i := P.NewInstance(i, Ballot(p), 0)] == map[i := P.NewInstance(i, Ballot(p), 0)];
  }

  lemma AskHost(h0: ProposerHost, h: ProposerHost, i: nat, b: nat, acks: set<nat>, net: set<Message>)
    requires h0.state.preparing == map[] && h0.state.queue != [] && b < 0x1_0000
    requires h == WithAcks(Opened(h0, i, b), i, acks) && QuorumSize(h.state.acceptors) <= |acks|
    ensures P.Enabled(h.state, P.TryAccept(Some(i)), net)
    ensures ProposerStep(h, P.TryAccept(Some(i)), net) == (Asked(h0, i, b), {Accept(AcceptRequest(i, b, h0.state.queue[0]))})
  {
    hide QuorumSize;
    assert h.retired + [] == h.retired && h.notices + [] == h.notices;
    assert h.state.preparing - {i} == map[];
  }

  lemma Ask(d: Option<Hypothesis>, o: System, s: System, p: nat, i: nat, q: seq<nat>) returns (s': System)
    requires Reaches(d, o, s) && CanAsk(s, p, i, q)
    ensures Reaches(d, o, s') && HasAsked(s, s', p, i, q)
  {
    hide Reaches, ProposerStep, Promised, Collected;
    var h, b := s.proposers[p], Ballot(p);
    var s1 := ProposerMoves(d, o, s, p, P.Open(0));
    OpenHost(h, p, i, s.net);
    assert s1.proposers[p] == Opened(h, i, b);
    assert Members(q) == {} + Members(q);
    var s2 := Collect(d, o, s1, p, i, b, q);
    AfterCollect(s, s1, s2, p, i, q);
    DistinctSize(q);
    AskHost(h, s2.proposers[p], i, b, Members(q), s2.net);
    hide WithAcks, Opened, Willing, P.Enabled;
    s' := ProposerMoves(d, o, s2, p, P.TryAccept(Some(i)));
    MapTwice(s.proposers, p, s2.proposers[p], s'.proposers[p]);
  }

  lemma AfterCollect(s: System, s1: System, s2: System, p: nat, i: nat, q: seq<nat>)
    requires CanAsk(s, p, i, q) && s1.acceptors == s.acceptors && s1.learners == s.learners && s.net <= s1.net
    requires s1.proposers == s.proposers[p := Opened(s.proposers[p], i, Ballot(p))]
    requires Collected(s1, s2, p, i, Ballot(p), q)
    ensures s2.learners == s.learners && s.net <= s2.net && |s2.acceptors| == |s.acceptors|
    ensures forall a :: 0 <= a < |s.acceptors| ==>
              s2.acceptors[a] == if a in q then Promised(s.acceptors[a], i, Ballot(p)) else s.acceptors[a]
    ensures forall x :: 0 <= x < |q| && q[x] < |s.acceptors| ==> Promise(PromiseOf(s.acceptors[q[x]], q[x], i, Ballot(p))) in s2.net
    ensures s2.proposers == s.proposers[p := WithAcks(Opened(s.proposers[p], i, Ballot(p)), i, Members(q))]
  {
    hide Promised, Willing;
    assert {} + Members(q) == Members(q);
    MapTwice(s.proposers, p, s1.proposers[p], s2.proposers[p]);
  }

  // ---------- Votes ----------

  function VoteOf(f: Fields, a: nat): Fields {
    Fields(f.iid, f.ballot, f.ballot, a, f.value)
  }

  /** An acceptor that will accept the request `f`. */
  predicate Grants(acc: A.State, a: nat, f: Fields) {
    acc.id == a && acc.trim < f.iid && A.Grants(acc, f)
  }

  ghost predicate HasVoted(s: System, s': System, f: Fields, q: seq<nat>) {
    && s'.learners == s.learners && s'.proposers == s.proposers && s.net <= s'.net && |s'.acceptors| == |s.acceptors|
    && (forall a :: 0 <= a < |s.acceptors| ==>
          s'.acceptors[a] == if a in q then A.Store(s.acceptors[a], VoteOf(f, a)) else s.acceptors[a])
    && (forall x :: 0 <= x < |q| ==> Accepted(VoteOf(f, q[x])) in s'.net)
  }

  lemma {:induction false} Vote(d: Option<Hypothesis>, o: System, s: System, f: Fields, q: seq<nat>) returns (s': System)
    requires Reaches(d, o, s) && Accept(f) in s.net && Distinct(q)
    requires forall x :: 0 <= x < |q| ==> q[x] < |s.acceptors| && Grants(s.acceptors[q[x]], q[x], f)
    ensures Reaches(d, o, s') && HasVoted(s, s', f, q)
    decreases |q|
  {
    hide Reaches;
    if q == [] {
      s' := s;
    } else {
      var k := |q| - 1;
      var mid := Vote(d, o, s, f, q[..k]);
      assert q[k] !in q[..k];
      assert Grants(mid.acceptors[q[k]], q[k], f);
      s' := AcceptorMoves(d, o, mid, q[k], OnAccept(f));
      assert A.ReceiveAccept(mid.acceptors[q[k]], f) == (A.Store(s.acceptors[q[k]], VoteOf(f, q[k])), Some(Accepted(VoteOf(f, q[k]))));
      hide Grants, A.Store, VoteOf;
      VotedMore(s, mid, s', f, q);
    }
  }

  lemma VotedMore(s: System, mid: System, s': System, f: Fields, q: seq<nat>)
    requires q != [] && Distinct(q) && HasVoted(s, mid, f, q[..|q| - 1])
    requires var a := q[|q| - 1]; a < |s.acceptors| && s'.acceptors == mid.acceptors[a := A.Store(s.acceptors[a], VoteOf(f, a))]
    requires s'.learners == mid.learners && s'.proposers == mid.proposers && mid.net <= s'.net
    requires Accepted(VoteOf(f, q[|q| - 1])) in s'.net
    ensures HasVoted(s, s', f, q)
  {
    hide A.Store, VoteOf;
    var k := |q| - 1;
    forall a | 0 <= a < |s.acceptors|
      ensures s'.acceptors[a] == if a in q then A.Store(s.acceptors[a], VoteOf(f, a)) else s.acceptors[a]
    {
      assert a in q <==> a in q[..k] || a == q[k];
    }
    forall x | 0 <= x < |q| ensures Accepted(VoteOf(f, q[x])) in s'.net {
      if x < k {
        assert q[..k][x] == q[x];
      }
    }
  }

  // ---------- A value chosen ----------

  ghost predicate HasChosen(s: System, s': System, p: nat, i: nat, q: seq<nat>)
    requires p in s.proposers && s.proposers[p].state.queue != []
  {
    var f := AcceptRequest(i, Ballot(p), s.proposers[p].state.queue[0]);
    && s'.learners == s.learners && s.net <= s'.net && |s'.acceptors| == |s.acceptors|
    && s'.proposers == s.proposers[p := Asked(s.proposers[p], i, Ballot(p))]
    && (forall a :: 0 <= a < |s.acceptors| ==>
          s'.acceptors[a] == if a in q then A.Store(s.acceptors[a], VoteOf(f, a)) else s.acceptors[a])
    && (forall x :: 0 <= x < |q| && q[x] < |s.acceptors| ==> Promise(PromiseOf(s.acceptors[q[x]], q[x], i, Ballot(p))) in s'.net)
    && Accept(f) in s'.net && (forall x :: 0 <= x < |q| ==> Accepted(VoteOf(f, q[x])) in s'.net)
  }

  /** A proposer with a client value and any quorum of willing acceptors can get the value chosen. */
  lemma Choose(d: Option<Hypothesis>, o: System, s: System, p: nat, i: nat, q: seq<nat>) returns (s': System)
    requires Reaches(d, o, s) && CanAsk(s, p, i, q)
    ensures Reaches(d, o, s') && HasChosen(s, s', p, i, q)
  {
    hide Reaches, Asked;
    var f := AcceptRequest(i, Ballot(p), s.proposers[p].state.queue[0]);
    var mid := Ask(d, o, s, p, i, q);
    forall x | 0 <= x < |q| ensures Grants(mid.acceptors[q[x]], q[x], f) {
      PromisedGrants(s.acceptors[q[x]], q[x], i, Ballot(p), f);
    }
    s' := Vote(d, o, mid, f, q);
    forall a | 0 <= a < |s.acceptors|
      ensures s'.acceptors[a] == if a in q then A.Store(s.acceptors[a], VoteOf(f, a)) else s.acceptors[a]
    {
      if a in q {
        var x :| 0 <= x < |q| && q[x] == a;
        PromisedGrants(s.acceptors[a], a, i, Ballot(p), f);
      }
    }
  }

  lemma PromisedGrants(acc: A.State, a: nat, i: nat, b: nat, f: Fields)
    requires Willing(acc, a, i, b) && f.iid == i && f.ballot == b
    ensures Grants(Promised(acc, i, b), a, f)
    ensures A.Store(Promised(acc, i, b), VoteOf(f, a)) == A.Store(acc, VoteOf(f, a))
  {
    var rec := A.Record(acc, i).(aid := a, iid := i, ballot := b);
    assert acc.records[i := rec][i := VoteOf(f, a)] == acc.records[i := VoteOf(f, a)];
  }

  function Submitted(h: ProposerHost, v: Value): ProposerHost {
    h.(state := P.Propose(h.state, v), proposed := h.proposed + multiset{v})
  }

  lemma Submit(d: Option<Hypothesis>, o: System, s: System, p: nat, v: Value) returns (s': System)
    requires Reaches(d, o, s) && p in s.proposers && (d != Some(NonEmptyValues) ==> v != [])
    ensures Reaches(d, o, s') && s' == s.(proposers := s.proposers[p := Submitted(s.proposers[p], v)])
  {
    hide Reaches;
    s' := ProposerMoves(d, o, s, p, P.Submit(v));
    assert s.proposers[p].retired + [] == s.proposers[p].retired && s.proposers[p].notices + [] == s.proposers[p].notices;
    assert s.net + {} == s.net;
  }

  // ---------- Learning ----------

  ghost predicate HasLearned(s: System, s': System, l: nat, msgs: seq<Fields>)
    requires l < |s.learners|
  {
    && s'.acceptors == s.acceptors && s'.proposers == s.proposers && s'.net == s.net && |s'.learners| == |s.learners|
    && (forall j :: 0 <= j < |s.learners| && j != l ==> s'.learners[j] == s.learners[j])
    && s'.learners[l].state == LF.RunFrom(s.learners[l].state, LF.Receives(msgs)) && s'.learners[l].log == s.learners[l].log
    && s'.learners[l].catchUp == s.learners[l].catchUp
  }

  lemma {:induction false} Teach(d: Option<Hypothesis>, o: System, s: System, l: nat, msgs: seq<Fields>) returns (s': System)
    requires Reaches(d, o, s) && l < |s.learners| && forall f :: f in msgs ==> Accepted(f) in s.net
    ensures Reaches(d, o, s') && HasLearned(s, s', l, msgs)
    decreases |msgs|
  {
    hide Reaches, L.ReceiveAccepted;
    if msgs == [] {
      s' := s;
    } else {
      var k := |msgs| - 1;
      var mid := Teach(d, o, s, l, msgs[..k]);
      s' := LearnerMoves(d, o, mid, l, Learn(msgs[k]));
      assert LF.Receives(msgs)[..k] == LF.Receives(msgs[..k]);
    }
  }

  /** The votes of `q` for the request `f`. */
  function VotesOf(f: Fields, q: seq<nat>): (msgs: seq<Fields>)
    ensures |msgs| == |q|
  {
    seq(|q|, x requires 0 <= x < |q| => VoteOf(f, q[x]))
  }

  /** A new learner that hears the votes of a quorum closes the instance with their value. */
  lemma TeachVotes(d: Option<Hypothesis>, o: System, s: System, l: nat, f: Fields, q: seq<nat>) returns (s': System)
    requires Reaches(d, o, s) && l < |s.learners| && 0 < f.iid && Distinct(q) && QuorumSize(|s.acceptors|) <= |q|
    requires s.learners[l].state == L.Initial(|s.acceptors|, s.learners[l].catchUp)
    requires forall x :: 0 <= x < |q| ==> q[x] < |s.acceptors| && Accepted(VoteOf(f, q[x])) in s.net
    ensures Reaches(d, o, s') && HasLearned(s, s', l, VotesOf(f, q))
    ensures var h := s'.learners[l];
            && f.iid in h.state.instances && h.state.current == (if h.catchUp then 1 else f.iid) && !h.state.lateStart
            && var final := h.state.instances[f.iid].final;
            final.Some? && final.value.iid == f.iid && final.value.value == f.value
  {
    hide Reaches, L.Initial;
    var n, msgs := |s.acceptors|, VotesOf(f, q);
    s' := Teach(d, o, s, l, msgs);
    DistinctSize(q);
    forall a | a in Members(q) ensures a < n && exists x :: 0 <= x < |msgs| && msgs[x].aid == a {
      var x :| 0 <= x < |q| && q[x] == a;
      assert msgs[x].aid == a;
    }
    LF.QuorumCloses(n, msgs, f.ballot, Members(q));
    LF.FeedsOne(n, s.learners[l].catchUp, f.iid, msgs);
    hide LF.Feed, LF.RunFrom, LF.Receives;
    var final := LF.Feed(n, msgs).final.value;
    var x :| 0 <= x < |msgs| && msgs[x] == final;
  }
}
