/** The invariant holds in every state of every run. */
module SystemSafety {
  import opened Types
  import opened Protocol
  import opened Invariant
  import opened Preservation
  import opened ProposerSafety
  import opened Conservation
  import opened Quorum
  import A = AcceptorSpec
  import P = ProposerSpec
  import L = LearnerSpec
  import LF = LearnerFacts

  // ---------- Proposer steps ----------

  /** The value proposer_accept sends is non-empty and comes from a client of this proposer or from an earlier request. */
  lemma SentValue(p: nat, h: ProposerHost, k: nat, net: set<Message>, n: nat)
    requires ProposerInv(p, h, net, n) && k in h.state.preparing
    requires P.HasSomeValue(P.WithValue(h.state.preparing[k], h.state.queue))
    ensures var v := P.AcceptValue(P.WithValue(h.state.preparing[k], h.state.queue));
            v != [] && (v in h.proposed || exists b :: AcceptMsg(k, b, v) in net)
  {
    hide SentOk, TablesOk, RetiredChosen, P.Pending, RetiredValues;
    var s := h.state;
    var inst := s.preparing[k];
    assert PreparingInstance(inst, net);
    assert inst.iid == k by { KeyIsIid(s, n, k); }
    if inst.promised.None? {
      if inst.value.Some? {
        AttachedIsPending(s.preparing, k);
      } else {
        assert s.queue[0] in multiset(s.queue);
      }
    }
  }

  lemma KeyIsIid(s: P.State, n: nat, k: nat)
    requires TablesOk(s, n) && k in s.preparing
    ensures s.preparing[k].iid == k
  {
    assert InstanceOk(s, n, k, s.preparing[k]);
  }

  lemma PromiseCore(s: P.State, f: Fields, now: int, net: set<Message>, n: nat)
    requires Core(s, net, n) && NetInv(net, n) && Promise(f) in net
    ensures Core(P.ReceivePromise(s, f, now).0, net, n)
  {
    hide NetInv;
    var (s', m) := P.ReceivePromise(s, f, now);
    if f.iid in s.preparing {
      var inst := s.preparing[f.iid];
      assert InstanceOk(s, n, f.iid, inst);
      if inst.ballot < f.ballot {
        assert f.ballot < 0x1_0000 by {
          NetFits(net, n);
          assert BallotFits(Promise(f));
        }
        forall g | Accept(g) in net && g.iid == f.iid && g.ballot % MAX_PROPOSERS == s.id ensures g.ballot <= inst.ballot {
          assert Past(s, g);
        }
        hide PhasesOk, TablesOk, P.NextBallot;
        PreemptStep(s, f.iid, inst, now, net, n);
      } else if s' != s {
        AddPromiseStep(s, f, net, n);
      }
    }
  }

  lemma AcceptedCore(s: P.State, f: Fields, net: set<Message>, n: nat)
    requires Core(s, net, n) && NetInv(net, n) && Accepted(f) in net
    ensures Core(P.ReceiveAccepted(s, f).0, net, n)
    ensures P.ReceiveAccepted(s, f).1 == 2 ==>
              var inst := s.accepting[f.iid];
              P.HasSomeValue(inst) && ChosenAt(net, n, f.iid, inst.ballot, P.AcceptValue(inst))
  {
    hide NetInv, PhasesOk, TablesOk, SentOk, AcceptingInstance, ChosenAt;
    var (s', code) := P.ReceiveAccepted(s, f);
    if code != 0 {
      CountVoteStep(s, f, net, n);
      var inst := s.accepting[f.iid].(acks := s.accepting[f.iid].acks + {f.aid});
      if code == 2 {
        ClosedIsChosen(s, inst, net, n);
        AcceptingHasValue(inst, net);
        Shrink(s, s', net, n);
      }
    }
  }

  lemma AcceptingHasValue(inst: P.Instance, net: set<Message>)
    requires AcceptingInstance(inst, net)
    ensures P.HasSomeValue(inst)
  {
  }

  lemma PreemptedCore(s: P.State, f: Fields, now: int, net: set<Message>, n: nat)
    requires Core(s, net, n) && NetInv(net, n) && Preempted(f) in net
    ensures Core(P.ReceivePreempted(s, f, now).0, net, n)
  {
    hide Core, NetInv, P.NextBallot;
    var (s', m) := P.ReceivePreempted(s, f, now);
    if m.Some? {
      NetFits(net, n);
      assert BallotFits(Preempted(f));
      PreemptedStep(s, f, now, net, n);
    }
  }

  lemma SetInstanceCore(s: P.State, iid: nat, returned: seq<Value>, net: set<Message>, n: nat)
    requires Core(s, net, n)
    ensures Core(P.SetInstanceId(s, iid, returned), net, n)
    ensures Core(P.ReceiveAcceptorState(s, iid, returned), net, n)
  {
    hide Core;
    Shrink(s, P.SetInstanceId(s, iid, returned), net, n);
    Shrink(s, P.ReceiveAcceptorState(s, iid, returned), net, n);
  }

  /** A message a proposer may send: a prepare, or an accept request under its own ballots whose value
      comes from its clients or from an earlier request. */
  ghost predicate MaySend(p: nat, proposed: multiset<Value>, m: Message, net: set<Message>) {
    m.Prepare?
    || (m.Accept? && m.f.ballot % MAX_PROPOSERS == p
        && (m.f.value in proposed || exists i, b :: AcceptMsg(i, b, m.f.value) in net))
  }

  lemma TryAcceptCore(p: nat, h: ProposerHost, k: Option<nat>, net: set<Message>, n: nat)
    requires ProposerInv(p, h, net, n) && NetInv(net, n) && P.IsSmallestOrNone(h.state.preparing, k)
    ensures var (s', m) := P.AcceptNext(h.state, k);
            Core(s', net + P.Optional(m), n) && NetInv(net + P.Optional(m), n)
            && (m.Some? ==> MaySend(p, h.proposed, m.value, net))
  {
    hide NetInv;
    var s := h.state;
    var (s', m) := P.AcceptNext(s, k);
    assert net + {} == net;
    if m.Some? {
      var inst := P.WithValue(s.preparing[k.value], s.queue);
      SentValue(p, h, k.value, net, n);
      hide TablesOk, SentOk, PhasesOk, Conserved, RetiredChosen;
      TryAcceptStep(s, k.value, inst, net, n);
      Shrink(s.(preparing := s'.preparing, accepting := s'.accepting), s', net + {m.value}, n);
    }
  }

  /** A step keeps the proposer's tables and the network in order and sends only what it may. */
  ghost predicate StepOk(p: nat, proposed: multiset<Value>, s: P.State, act: P.Action, net: set<Message>, n: nat)
    requires P.Enabled(s, act, net)
  {
    var (s', sent) := P.Step(s, act, net);
    Core(s', net + sent, n) && NetInv(net + sent, n) && forall m :: m in sent ==> MaySend(p, proposed, m, net)
  }

  ghost predicate SendsPrepare(act: P.Action) {
    act.Open? || act.OnPromise? || act.OnPreempted? || act.ResendPrepare? || act.Reopen?
  }

  lemma OnlyPrepares(s: P.State, act: P.Action, net: set<Message>)
    requires P.Enabled(s, act, net) && SendsPrepare(act)
    ensures var sent := P.Step(s, act, net).1; |sent| <= 1 && forall m :: m in sent ==> m.Prepare? && BallotFits(m)
  {
  }

  lemma PrepareActions(p: nat, proposed: multiset<Value>, s: P.State, act: P.Action, net: set<Message>, n: nat)
    requires Core(s, net, n) && NetInv(net, n) && P.Enabled(s, act, net) && SendsPrepare(act)
    requires act.Reopen? ==> MayReopen(s, act.iid, net)
    ensures StepOk(p, proposed, s, act, net, n)
  {
    hide NetInv, Core, BallotFits, MayReopen, P.ReceivePromise, P.ReceivePreempted, P.OpenInstance, P.PrepareInstance;
    OnlyPrepares(s, act, net);
    NetFits(net, n);
    match act {
      case Open(now) => OpenStep(s, now, net, n);
      case OnPromise(f, now) => PromiseCore(s, f, now, net, n);
      case OnPreempted(f, now) => PreemptedCore(s, f, now, net, n);
      case ResendPrepare(iid, now) => RestartStep(s, iid, now, net, n);
      case Reopen(iid, now) => ReopenStep(s, iid, now, net, n);
    }
    var (s', sent) := P.Step(s, act, net);
    PrepareSent(s', sent, net, n);
  }

  lemma QuietActions(p: nat, proposed: multiset<Value>, s: P.State, act: P.Action, net: set<Message>, n: nat)
    requires Core(s, net, n) && NetInv(net, n) && P.Enabled(s, act, net)
    requires act.Submit? || act.OnAccepted? || act.SetInstance? || act.OnAcceptorState?
    ensures StepOk(p, proposed, s, act, net, n)
  {
    hide NetInv, Core, P.ReceiveAccepted, P.SetInstanceId;
    assert net + {} == net;
    match act
    case Submit(v) => Shrink(s, P.Propose(s, v), net, n);
    case OnAccepted(f) => AcceptedCore(s, f, net, n);
    case SetInstance(iid, returned) => SetInstanceCore(s, iid, returned, net, n);
    case OnAcceptorState(_, trimIid, returned) => SetInstanceCore(s, trimIid, returned, net, n);
  }

  lemma ResendAction(p: nat, h: ProposerHost, iid: nat, now: int, net: set<Message>, n: nat)
    requires ProposerInv(p, h, net, n) && NetInv(net, n) && P.Enabled(h.state, P.ResendAccept(iid, now), net)
    ensures StepOk(p, h.proposed, h.state, P.ResendAccept(iid, now), net, n)
  {
    hide NetInv, ProposerInv, MaySend, P.ToAccept;
    NetFits(net, n);
    SentByOwner(p, h, iid, net, n);
    RestartedOk(p, h, iid, now, net, n);
    assert net + {P.ToAccept(h.state.accepting[iid])} == net;
  }

  lemma RestartedOk(p: nat, h: ProposerHost, iid: nat, now: int, net: set<Message>, n: nat)
    requires ProposerInv(p, h, net, n) && AllFit(net) && iid in h.state.accepting
    ensures Core(P.RestartAccepting(h.state, iid, now), net, n)
  {
    hide TablesOk, SentOk, PhasesOk, Conserved, RetiredChosen;
    RestartStep(h.state, iid, now, net, n);
  }

  /** The Core part for every action. */
  lemma CoreStep(p: nat, h: ProposerHost, act: P.Action, net: set<Message>, n: nat)
    requires ProposerInv(p, h, net, n) && NetInv(net, n) && P.Enabled(h.state, act, net)
    requires act.Reopen? ==> MayReopen(h.state, act.iid, net)
    ensures StepOk(p, h.proposed, h.state, act, net, n)
  {
    assert Core(h.state, net, n);
    hide NetInv, Core, ProposerInv, P.Step, StepOk;
    if SendsPrepare(act) {
      PrepareActions(p, h.proposed, h.state, act, net, n);
    } else if act.TryAccept? {
      TryAcceptAction(p, h, act, net, n);
    } else if act.ResendAccept? {
      ResendAction(p, h, act.iid, act.now, net, n);
    } else {
      QuietActions(p, h.proposed, h.state, act, net, n);
    }
  }

  lemma TryAcceptAction(p: nat, h: ProposerHost, act: P.Action, net: set<Message>, n: nat)
    requires ProposerInv(p, h, net, n) && NetInv(net, n) && P.Enabled(h.state, act, net) && act.TryAccept?
    ensures StepOk(p, h.proposed, h.state, act, net, n)
  {
    hide NetInv, ProposerInv, Core, P.AcceptNext, MaySend;
    TryAcceptCore(p, h, act.k, net, n);
  }

  lemma SentByOwner(p: nat, h: ProposerHost, iid: nat, net: set<Message>, n: nat)
    requires ProposerInv(p, h, net, n) && AllFit(net) && iid in h.state.accepting && P.HasSomeValue(h.state.accepting[iid])
    ensures P.ToAccept(h.state.accepting[iid]) in net && MaySend(p, h.proposed, P.ToAccept(h.state.accepting[iid]), net)
  {
    var inst := h.state.accepting[iid];
    assert InstanceOk(h.state, n, iid, inst) && AcceptingInstance(inst, net);
    RequestedFits(inst, net);
    hide TablesOk, SentOk, PhasesOk, Conserved, RetiredChosen, AllVoted;
    assert P.ToAccept(inst) == AcceptMsg(iid, inst.ballot, P.AcceptValue(inst));
  }

  lemma PrepareSent(s: P.State, sent: set<Message>, net: set<Message>, n: nat)
    requires Core(s, net, n) && NetInv(net, n) && |sent| <= 1 && forall m :: m in sent ==> m.Prepare? && BallotFits(m)
    ensures Core(s, net + sent, n) && NetInv(net + sent, n)
  {
    hide NetInv;
    if sent == {} {
      assert net + sent == net;
    } else {
      var m :| m in sent;
      assert sent == {m} by {
        assert |sent - {m}| == 0;
      }
      HarmlessSent(net, m, n);
    }
    hide Past, TablesOk, PhasesOk;
    CoreGrows(s, net, net + sent, n);
  }

  lemma ProposerActs(p: nat, h: ProposerHost, act: P.Action, net: set<Message>, n: nat)
    requires ProposerInv(p, h, net, n) && NetInv(net, n) && P.Enabled(h.state, act, net)
    requires (act.Submit? ==> act.v != []) && (act.Reopen? ==> MayReopen(h.state, act.iid, net))
    ensures var (h', sent) := ProposerStep(h, act, net); ProposerInv(p, h', net + sent, n) && NetInv(net + sent, n)
    ensures forall m :: m in ProposerStep(h, act, net).1 ==> MaySend(p, h.proposed, m, net)
    ensures h.proposed <= ProposerStep(h, act, net).0.proposed
  {
    CoreStep(p, h, act, net, n);
    ConservedStep(h, act, net, n);
    var (h', sent) := ProposerStep(h, act, net);
    assert RetiredChosen(h', net + sent, n) by {
      RetiredStep(p, h, act, net, n);
      RetiredGrows(h', net, net + sent, n);
    }
    assert NoticesChosen(h', net + sent, n) by {
      NoticeStep(p, h, act, net, n);
      NoticesGrow(h', net, net + sent, n);
    }
    assert [] !in h'.proposed;
    assert h'.state.id == h.state.id by { SameId(h.state, act, net); }
  }

  lemma SameId(s: P.State, act: P.Action, net: set<Message>)
    requires P.Enabled(s, act, net)
    ensures P.Step(s, act, net).0.id == s.id
  {
  }

  lemma RetiredStep(p: nat, h: ProposerHost, act: P.Action, net: set<Message>, n: nat)
    requires ProposerInv(p, h, net, n) && NetInv(net, n) && P.Enabled(h.state, act, net)
    ensures RetiredChosen(ProposerStep(h, act, net).0, net, n)
  {
    hide Chosen, ChosenAt, NetInv, Conserved, TablesOk, PhasesOk, SentOk;
    var r := NewlyRetired(h.state, act);
    if r != [] {
      AcceptedCore(h.state, act.f, net, n);
      ChosenSome(net, n, r[0].0, h.state.accepting[act.f.iid].ballot, r[0].1);
    }
  }

  /** The ack that closes an instance carries the ballot and value that were chosen. */
  lemma NoticeStep(p: nat, h: ProposerHost, act: P.Action, net: set<Message>, n: nat)
    requires ProposerInv(p, h, net, n) && NetInv(net, n) && P.Enabled(h.state, act, net)
    ensures NoticesChosen(ProposerStep(h, act, net).0, net, n)
  {
    hide ChosenAt, NetInv, Conserved, TablesOk, PhasesOk, SentOk, RetiredChosen;
    if NewNotices(h.state, act) != [] {
      AcceptedCore(h.state, act.f, net, n);
      VoteIsForRequest(h.state, act.f, net, n);
    }
  }

  lemma ChosenSome(net: set<Message>, n: nat, i: nat, b: nat, v: Value)
    requires ChosenAt(net, n, i, b, v)
    ensures Chosen(net, n, i, v)
  {
  }

  // ---------- Learner steps ----------

  /** A majority of stored acks for one ballot means its value is chosen. */
  lemma AcksChoose(inst: L.Instance, i: nat, b: nat, net: set<Message>, n: nat)
    requires NetInv(net, n) && AcksOk(inst, i, net, n) && L.MajorityAt(inst.acks, b)
    ensures var f := inst.acks[L.LastIndex(inst.acks, b)]; f.Some? && f.value.iid == i && Chosen(net, n, i, f.value.value)
  {
    hide NetInv, ChosenAt, L.LastIndex;
    var j := L.LastIndex(inst.acks, b);
    assert AckOk(inst.acks[j].value, i, j, net, n);
    var v := inst.acks[j].value.value;
    var q := LF.Holders(inst.acks, b);
    LF.HoldersCount(inst.acks, b);
    assert Majority(q, n);
    forall a | a in q ensures inst.acks[a].value == Fields(i, b, inst.acks[a].value.valueBallot, a, v) {
      SameValue(inst.acks[a].value, a, inst.acks[j].value, j, i, net, n);
    }
    if a :| a in q && Accepted(inst.acks[a].value) !in net {
      assert AckOk(inst.acks[a].value, i, a, net, n);
    } else {
      VotesChoose(inst, i, b, v, q, net, n);
    }
    ChosenSome(net, n, i, b, v);
  }

  lemma VotesChoose(inst: L.Instance, i: nat, b: nat, v: Value, q: set<nat>, net: set<Message>, n: nat)
    requires NetInv(net, n) && AcksOk(inst, i, net, n) && Majority(q, n)
    requires forall a :: a in q ==> a < n && inst.acks[a].Some? && Accepted(inst.acks[a].value) in net
                                    && inst.acks[a].value == Fields(i, b, inst.acks[a].value.valueBallot, a, v)
    ensures ChosenAt(net, n, i, b, v)
  {
    hide AcceptsOk, AcceptsUnique, PromisesOk, PromisesKept;
    assert AllVoted(net, q, i, b, v);
  }

  /** Two acks for one ballot carry one value, that of the request. */
  lemma SameValue(f: Fields, a: nat, g: Fields, j: nat, i: nat, net: set<Message>, n: nat)
    requires NetInv(net, n) && AckOk(f, i, a, net, n) && AckOk(g, i, j, net, n) && f.ballot == g.ballot
    ensures f.value == g.value
  {
    AckRequested(f, a, i, net, n);
    AckRequested(g, j, i, net, n);
    hide AcceptsOk, VotesOk, PromisesOk, PromisesKept, ChosenAt;
  }

  lemma AckRequested(f: Fields, a: nat, i: nat, net: set<Message>, n: nat)
    requires NetInv(net, n) && AckOk(f, i, a, net, n)
    ensures AcceptMsg(i, f.ballot, f.value) in net
  {
    hide AcceptsOk, AcceptsUnique, PromisesOk, PromisesKept, ChosenAt;
    if Accepted(f) !in net {
      ChosenWasRequested(net, n, i, f.ballot, f.value);
    }
  }

  lemma TestOk(inst: L.Instance, i: nat, net: set<Message>, n: nat)
    requires NetInv(net, n) && LearnerInstance(inst, i, net, n) && inst.iid == i
    ensures LearnerInstance(L.Test(inst), i, net, n)
  {
    hide NetInv, Chosen, L.LastIndex, L.Count;
    if inst.final.None? && L.MajorityAt(inst.acks, inst.lastBallot) {
      AcksChoose(inst, i, inst.lastBallot, net, n);
    }
  }

  lemma UpdateOk(inst: L.Instance, f: Fields, net: set<Message>, n: nat)
    requires NetInv(net, n) && LearnerInstance(inst, f.iid, net, n) && AckOk(f, f.iid, f.aid, net, n)
    ensures LearnerInstance(L.Update(inst, f), f.iid, net, n) && L.Update(inst, f).iid == f.iid
    ensures LearnerInstance(L.Test(L.Update(inst, f)), f.iid, net, n)
  {
    hide NetInv, Chosen, ChosenAt, L.Test;
    var inst0 := if inst.iid == 0 then inst.(iid := f.iid, lastBallot := f.ballot) else inst;
    TestOk(inst0, f.iid, net, n);
    TestKeeps(inst0);
    TestOk(L.Update(inst, f), f.iid, net, n);
  }

  /** A chosen value given twice, as learner_receive_chosen does. */
  lemma NoticeOk(f: Fields, net: set<Message>, n: nat)
    requires NetInv(net, n) && ChosenAt(net, n, f.iid, f.ballot, f.value)
    ensures LearnerInstance(L.Test(L.Update(L.Update(L.NewInstance(n), f.(aid := 1)), f.(aid := 2))), f.iid, net, n)
  {
    hide NetInv, Chosen, ChosenAt, L.Test, L.Update;
    UpdateOk(L.NewInstance(n), f.(aid := 1), net, n);
    UpdateOk(L.Update(L.NewInstance(n), f.(aid := 1)), f.(aid := 2), net, n);
  }

  lemma TestKeeps(inst: L.Instance)
    ensures L.Test(inst).iid == inst.iid && L.Test(inst).acks == inst.acks
  {
  }

  lemma LearnerActs(h: LearnerHost, act: LearnerAction, net: set<Message>, n: nat)
    requires NetInv(net, n) && LearnerInv(h, net, n) && LearnerEnabled(act, net)
    requires act.LearnChosen? ==> ChosenAt(net, n, act.f.iid, act.f.ballot, act.f.value)
    ensures LearnerInv(LearnerStep(h, act), net, n)
  {
    hide NetInv, Chosen, ChosenAt, L.Test, L.Update, Numbered;
    var s, h' := h.state, LearnerStep(h, act);
    match act
    case Learn(f) =>
      if s.lateStart || s.current <= f.iid {
        var inst := L.InstanceOf(s, f.iid);
        assert LearnerInstance(inst, f.iid, net, n);
        UpdateOk(inst, f, net, n);
      }
      if s.lateStart {
        StartAdded(h.log, h.starts, f.iid);
      }
    case LearnChosen(f) =>
      NoticeOk(f, net, n);
    case Deliver =>
      if s.current in s.instances {
        var inst := s.instances[s.current];
        assert LearnerInstance(inst, s.current, net, n);
        DeliverOk(inst, s.current, net, n);
        if L.Test(inst).final.Some? {
          Delivered(h.log, h.starts, L.Test(inst).final.value);
        }
      }
    case Move(iid) =>
      StartAdded(h.log, h.starts, iid + 1);
  }

  lemma StartAdded(log: seq<Fields>, starts: Starts, first: nat)
    requires Numbered(log, starts)
    ensures Numbered(log, starts + [(|log|, first)])
  {
    var starts' := starts + [(|log|, first)];
    forall i | 0 <= i < |starts'|
      ensures starts'[i].0 <= EndOf(log, starts', i) && Segment(log, starts'[i].0, EndOf(log, starts', i), starts'[i].1)
    {
      if i < |starts| {
        assert Segment(log, starts[i].0, EndOf(log, starts, i), starts[i].1);
      }
    }
  }

  lemma Delivered(log: seq<Fields>, starts: Starts, f: Fields)
    requires Numbered(log, starts) && f.iid == LastStart(starts).1 + |log| - LastStart(starts).0
    ensures Numbered(log + [f], starts)
  {
    var log' := log + [f];
    forall i | 0 <= i < |starts|
      ensures starts[i].0 <= EndOf(log', starts, i) && Segment(log', starts[i].0, EndOf(log', starts, i), starts[i].1)
    {
      assert starts[i].0 <= EndOf(log, starts, i) && Segment(log, starts[i].0, EndOf(log, starts, i), starts[i].1);
    }
  }

  lemma DeliverOk(inst: L.Instance, i: nat, net: set<Message>, n: nat)
    requires NetInv(net, n) && LearnerInstance(inst, i, net, n)
    ensures var f := L.Test(inst).final; f.Some? ==> f.value.iid == i && Chosen(net, n, i, f.value.value)
  {
    hide NetInv, Chosen, L.LastIndex, L.Count;
    if inst.final.None? && L.MajorityAt(inst.acks, inst.lastBallot) {
      AcksChoose(inst, i, inst.lastBallot, net, n);
    }
  }

  // ---------- The system ----------

  lemma InitInv(s: System)
    requires Init(s)
    ensures Inv(s)
  {
    forall p | p in s.proposers ensures ProposerInv(p, s.proposers[p], s.net, |s.acceptors|) {
      var h := s.proposers[p];
      assert P.Pending(h.state.preparing) == multiset{} && P.Pending(h.state.accepting) == multiset{};
    }
  }

  lemma AcceptorNext(s: System, a: nat, aa: AcceptorAction, s': System)
    requires Inv(s) && Next(s, AtAcceptor(a, aa), s')
    ensures Inv(s')
  {
    hide NetInv, AcceptorInv, ProposerInv, LearnerInv, AcceptorStep;
    var n := |s.acceptors|;
    AcceptorActs(a, s.acceptors[a], aa, s.net, n);
    forall c | 0 <= c < n ensures AcceptorInv(c, s'.acceptors[c], s'.net) {
      if c != a {
        AcceptorStable(c, s.acceptors[c], s.net, s'.net);
      }
    }
    forall p | p in s.proposers ensures ProposerInv(p, s.proposers[p], s'.net, n) {
      ProposerStable(p, s.proposers[p], s.net, s'.net, n);
    }
    forall l | 0 <= l < |s.learners| ensures LearnerInv(s.learners[l], s'.net, n) {
      LearnerStable(s.learners[l], s.net, s'.net, n);
    }
  }

  lemma ProposerNext(s: System, p: nat, pa: P.Action, s': System)
    requires Inv(s) && Next(s, AtProposer(p, pa), s')
    ensures Inv(s')
  {
    hide NetInv, AcceptorInv, ProposerInv, LearnerInv, ProposerStep, P.Enabled, MaySend;
    var n, h := |s.acceptors|, s.proposers[p];
    ProposerActs(p, h, pa, s.net, n);
    var (h', sent) := ProposerStep(h, pa, s.net);
    SentOnly(p, h.proposed, s.net, sent);
    forall a | 0 <= a < n ensures AcceptorInv(a, s.acceptors[a], s'.net) {
      AcceptorStable(a, s.acceptors[a], s.net, s'.net);
    }
    forall r | r in s'.proposers ensures ProposerInv(r, s'.proposers[r], s'.net, n) {
      if r != p {
        ProposerStable(r, s.proposers[r], s.net, s'.net, n);
      }
    }
    forall l | 0 <= l < |s.learners| ensures LearnerInv(s.learners[l], s'.net, n) {
      LearnerStable(s.learners[l], s.net, s'.net, n);
    }
    ValidNext(s, p, h', sent, s');
  }

  /** What a proposer sends: no promises or votes, and accept requests only under its own ballots. */
  lemma SentOnly(p: nat, proposed: multiset<Value>, net: set<Message>, sent: set<Message>)
    requires forall m :: m in sent ==> MaySend(p, proposed, m, net)
    ensures forall f :: Promise(f) in net + sent ==> Promise(f) in net
    ensures forall f :: Accepted(f) in net + sent ==> Accepted(f) in net
    ensures forall f :: Accept(f) in net + sent ==> Accept(f) in net || f.ballot % MAX_PROPOSERS == p
  {
  }

  lemma ValidNext(s: System, p: nat, h: ProposerHost, sent: set<Message>, s': System)
    requires Invariant.Valid(s) && p in s.proposers && s.proposers[p].proposed <= h.proposed
    requires s' == s.(proposers := s.proposers[p := h], net := s.net + sent)
    requires forall m :: m in sent ==> MaySend(p, s.proposers[p].proposed, m, s.net)
    ensures Invariant.Valid(s')
  {
    forall f | Accept(f) in s'.net ensures exists r :: r in s'.proposers && f.value in s'.proposers[r].proposed {
      if Accept(f) in sent && f.value in s.proposers[p].proposed {
        assert f.value in s'.proposers[p].proposed;
      } else {
        var r :| r in s.proposers && f.value in s.proposers[r].proposed by {
          if Accept(f) !in s.net {
            assert MaySend(p, s.proposers[p].proposed, Accept(f), s.net);
            var i, b :| AcceptMsg(i, b, f.value) in s.net;
          }
        }
        assert r in s'.proposers && f.value in s'.proposers[r].proposed;
      }
    }
  }

  lemma LearnerNext(s: System, l: nat, la: LearnerAction, s': System)
    requires Inv(s) && Next(s, AtLearner(l, la), s')
    ensures Inv(s')
  {
    hide NetInv, AcceptorInv, LearnerInv, LearnerStep, TablesOk, SentOk, PhasesOk, Conserved, RetiredChosen, ChosenAt;
    if la.LearnChosen? {
      var p :| p in s.proposers && la.f in s.proposers[p].notices;
      assert ProposerInv(p, s.proposers[p], s.net, |s.acceptors|);
    }
    LearnerActs(s.learners[l], la, s.net, |s.acceptors|);
  }

  /** Every step keeps the invariant. */
  lemma StepInv(s: System, s': System)
    requires Inv(s) && IsStep(s, s')
    ensures Inv(s') && s.net <= s'.net && |s'.acceptors| == |s.acceptors|
  {
    var act :| Next(s, act, s');
    match act
    case AtAcceptor(a, aa) => AcceptorNext(s, a, aa, s');
    case AtProposer(p, pa) => ProposerNext(s, p, pa, s');
    case AtLearner(l, la) => LearnerNext(s, l, la, s');
  }

  /** The invariant holds throughout every run. */
  lemma {:induction false} RunInv(run: seq<System>, k: nat)
    requires IsRun(run) && k < |run|
    ensures Inv(run[k])
  {
    hide Init, IsStep, Inv;
    if k == 0 {
      InitInv(run[0]);
    } else {
      RunInv(run, k - 1);
      assert IsStep(run[k - 1], run[k - 1 + 1]);
      StepInv(run[k - 1], run[k]);
    }
  }

  /** Messages accumulate along a run. */
  lemma {:induction false} RunGrows(run: seq<System>, j: nat, k: nat)
    requires IsRun(run) && j <= k < |run|
    ensures run[j].net <= run[k].net && |run[j].acceptors| == |run[k].acceptors|
    decreases k
  {
    hide Init, IsStep, Inv;
    if j < k {
      RunGrows(run, j, k - 1);
      RunInv(run, k - 1);
      assert IsStep(run[k - 1], run[k - 1 + 1]);
      StepInv(run[k - 1], run[k]);
    }
  }
}
