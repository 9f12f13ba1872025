/** A client value is chosen in no more instances than it was submitted, as long as no proposer drops an instance
    that carries one. */
module AtMostOnce {
  import opened FiniteSets
  import opened Types
  import opened Protocol
  import opened Invariant
  import opened Preservation
  import opened ProposerSafety
  import opened Conservation
  import opened SystemSafety
  import opened Agreement
  import A = AcceptorSpec
  import P = ProposerSpec

  // ---------- Runs that drop no client value ----------

  ghost predicate NothingAttached(s: P.State) {
    P.Pending(s.preparing) == multiset{} && P.Pending(s.accepting) == multiset{}
  }

  /** The call does not skip past an open instance that carries a client value. */
  ghost predicate Keeps(s: P.State, act: P.Action) {
    match act
    case SetInstance(iid, _) => s.next < iid ==> NothingAttached(s)
    case OnAcceptorState(_, trimIid, _) => s.maxTrim < trimIid && s.next < trimIid ==> NothingAttached(s)
    case _ => true
  }

  ghost predicate IsKeepingStep(s: System, s': System) {
    exists act :: Next(s, act, s') && (act.AtProposer? ==> Keeps(s.proposers[act.p].state, act.pa))
  }

  ghost predicate IsKeepingRun(run: seq<System>) {
    && 0 < |run| && Init(run[0])
    && forall i :: 0 <= i < |run| - 1 ==> IsKeepingStep(run[i], run[i + 1])
  }

  lemma KeepingIsRun(run: seq<System>)
    requires IsKeepingRun(run)
    ensures IsRun(run)
  {
    hide Init;
    forall i | 0 <= i < |run| - 1 ensures IsStep(run[i], run[i + 1]) {
      assert IsKeepingStep(run[i], run[i + 1]);
      KeepingIsStep(run[i], run[i + 1]);
    }
  }

  lemma KeepingIsStep(s: System, s': System)
    requires IsKeepingStep(s, s')
    ensures IsStep(s, s')
  {
    hide Next, Keeps;
  }

  // ---------- Whose value a request carries ----------

  predicate InTable(m: P.Instances, i: nat, v: Value) {
    i in m && m[i].value == Some(v)
  }

  /** The proposer has attached the client value `v` to instance `i`, or has retired it there. */
  predicate HeldBy(h: ProposerHost, i: nat, v: Value) {
    InTable(h.state.preparing, i, v) || InTable(h.state.accepting, i, v) || (i, v) in h.retired
  }

  ghost predicate Held(proposers: map<nat, ProposerHost>, i: nat, v: Value) {
    exists p :: p in proposers && HeldBy(proposers[p], i, v)
  }

  ghost predicate Displaced(net: set<Message>, n: nat, i: nat, v: Value) {
    exists w :: w != v && Chosen(net, n, i, w)
  }

  /** Every requested value is held for that instance by the proposer it was submitted to, or lost to another. */
  ghost predicate AllHeld(s: System) {
    forall f :: Accept(f) in s.net ==> Held(s.proposers, f.iid, f.value) || Displaced(s.net, |s.acceptors|, f.iid, f.value)
  }

  lemma DisplacedGrows(net: set<Message>, net': set<Message>, n: nat, i: nat, v: Value)
    requires net <= net' && Displaced(net, n, i, v)
    ensures Displaced(net', n, i, v)
  {
    hide Chosen;
    var w :| w != v && Chosen(net, n, i, w);
    ChosenGrows(net, net', n, i, w);
  }

  // ---------- One proposer step ----------

  lemma AttachedPends(m: P.Instances, i: nat, v: Value)
    requires InTable(m, i, v)
    ensures P.Pending(m) != multiset{}
  {
    hide P.Pending;
    P.PendingSplit(m, i);
    assert v in P.Carried(m[i]) + P.Pending(m - {i});
  }

  /** Closing an instance either retires its client value there or shows that another value was chosen. */
  lemma CloseHolds(p: nat, h: ProposerHost, f: Fields, net: set<Message>, n: nat, v: Value)
    requires ProposerInv(p, h, net, n) && NetInv(net, n) && Accepted(f) in net
    requires P.ReceiveAccepted(h.state, f).1 == 2 && h.state.accepting[f.iid].value == Some(v)
    ensures (f.iid, v) in NewlyRetired(h.state, P.OnAccepted(f)) || Displaced(net, n, f.iid, v)
  {
    hide NetInv, TablesOk, SentOk, PhasesOk, Conserved, RetiredChosen, ChosenAt;
    AcceptedCore(h.state, f, net, n);
    var inst := h.state.accepting[f.iid];
    ChosenSome(net, n, f.iid, inst.ballot, P.AcceptValue(inst));
    hide Chosen;
    if P.GivenBack(inst) != [] {
      assert P.AcceptValue(inst) != v;
    } else {
      assert P.Retired(inst) == [v];
    }
  }

  /** What a proposer holds it keeps, unless another value is chosen there. */
  lemma HeldStep(p: nat, h: ProposerHost, act: P.Action, net: set<Message>, n: nat, i: nat, v: Value)
    requires ProposerInv(p, h, net, n) && NetInv(net, n) && P.Enabled(h.state, act, net) && Keeps(h.state, act) && HeldBy(h, i, v)
    ensures HeldBy(ProposerStep(h, act, net).0, i, v) || Displaced(net, n, i, v)
  {
    hide ProposerInv, NetInv, Displaced, P.NextBallot, P.IsReturned, NothingAttached;
    var h' := ProposerStep(h, act, net).0;
    if (i, v) in h.retired {
      assert (i, v) in h'.retired;
    } else {
      match act
      case Open(now) => NotYetOpen(p, h, net, n, i);
      case OnAccepted(f) =>
        if f.iid == i && P.ReceiveAccepted(h.state, f).1 == 2 && h.state.accepting[i].value == Some(v) {
          CloseHolds(p, h, f, net, n, v);
        }
        TableOf(p, h, net, n, i);
      case SetInstance(iid, returned) => Unattached(h.state, i, v);
      case OnAcceptorState(_, _, _) => Unattached(h.state, i, v);
      case _ => TableOf(p, h, net, n, i);
    }
  }

  lemma Unattached(s: P.State, i: nat, v: Value)
    ensures NothingAttached(s) ==> !InTable(s.preparing, i, v) && !InTable(s.accepting, i, v)
  {
    hide P.Pending;
    if InTable(s.preparing, i, v) {
      AttachedPends(s.preparing, i, v);
    }
    if InTable(s.accepting, i, v) {
      AttachedPends(s.accepting, i, v);
    }
  }

  lemma NotYetOpen(p: nat, h: ProposerHost, net: set<Message>, n: nat, i: nat)
    requires ProposerInv(p, h, net, n)
    ensures i in h.state.preparing || i in h.state.accepting ==> i <= h.state.next
  {
    if h.state.next < i {
      NotOpened(h.state, n, i);
    }
  }

  lemma TableOf(p: nat, h: ProposerHost, net: set<Message>, n: nat, i: nat)
    requires ProposerInv(p, h, net, n)
    ensures !(i in h.state.preparing && i in h.state.accepting)
  {
  }

  /** A new request carries a value its proposer holds there, or one that was requested there before. */
  lemma RequestHeld(p: nat, h: ProposerHost, act: P.Action, net: set<Message>, n: nat, f: Fields)
    requires ProposerInv(p, h, net, n) && NetInv(net, n) && P.Enabled(h.state, act, net) && Accept(f) in P.Step(h.state, act, net).1
    ensures HeldBy(ProposerStep(h, act, net).0, f.iid, f.value) || exists g :: Accept(g) in net && g.iid == f.iid && g.value == f.value
  {
    hide TablesOk, SentOk, Conserved, RetiredChosen, NetInv, AllPromised, AllVoted;
    match act
    case TryAccept(k) =>
      var inst := h.state.preparing[k.value];
      assert PreparingInstance(inst, net);
      KeyIsIid(h.state, n, k.value);
      if inst.promised.Some? {
        assert Accept(Fields(k.value, inst.valueBallot, inst.valueBallot, 0, f.value)) in net;
      }
    case ResendAccept(iid, now) =>
      var inst := h.state.accepting[iid];
      assert AcceptingInstance(inst, net);
      assert AcceptMsg(inst.iid, inst.ballot, P.AcceptValue(inst)) in net;
    case _ =>
  }

  // ---------- The invariant ----------

  lemma ProposerHeld(s: System, p: nat, pa: P.Action, s': System)
    requires Inv(s) && Next(s, AtProposer(p, pa), s') && Keeps(s.proposers[p].state, pa) && AllHeld(s)
    ensures AllHeld(s')
  {
    hide NetInv, AcceptorInv, ProposerInv, LearnerInv, ProposerStep, P.Enabled, P.Step, Keeps, HeldBy, Displaced;
    var n, h := |s.acceptors|, s.proposers[p];
    assert ProposerInv(p, h, s.net, n);
    forall f | Accept(f) in s'.net
      ensures Held(s'.proposers, f.iid, f.value) || Displaced(s'.net, n, f.iid, f.value)
    {
      if Accept(f) in s.net {
        OldRequest(s, p, pa, s', f.iid, f.value);
      } else {
        SentByStep(h, pa, s.net);
        RequestHeld(p, h, pa, s.net, n, f);
        if !HeldBy(s'.proposers[p], f.iid, f.value) {
          var g :| Accept(g) in s.net && g.iid == f.iid && g.value == f.value;
          OldRequest(s, p, pa, s', f.iid, f.value);
        }
      }
    }
  }

  lemma SentByStep(h: ProposerHost, act: P.Action, net: set<Message>)
    requires P.Enabled(h.state, act, net)
    ensures ProposerStep(h, act, net).1 == P.Step(h.state, act, net).1
  {
  }

  lemma OldRequest(s: System, p: nat, pa: P.Action, s': System, i: nat, v: Value)
    requires Inv(s) && Next(s, AtProposer(p, pa), s') && Keeps(s.proposers[p].state, pa)
    requires Held(s.proposers, i, v) || Displaced(s.net, |s.acceptors|, i, v)
    ensures Held(s'.proposers, i, v) || Displaced(s'.net, |s.acceptors|, i, v)
  {
    hide NetInv, AcceptorInv, ProposerInv, LearnerInv, ProposerStep, P.Enabled, P.Step, Keeps, HeldBy, Displaced;
    var n := |s.acceptors|;
    if Displaced(s.net, n, i, v) {
      DisplacedGrows(s.net, s'.net, n, i, v);
    } else {
      var r :| r in s.proposers && HeldBy(s.proposers[r], i, v);
      assert ProposerInv(r, s.proposers[r], s.net, n);
      if r == p {
        HeldStep(p, s.proposers[p], pa, s.net, n, i, v);
      }
      assert HeldBy(s'.proposers[r], i, v);
    }
  }

  lemma HeldOnNext(s: System, s': System)
    requires Inv(s) && IsKeepingStep(s, s') && AllHeld(s)
    ensures AllHeld(s')
  {
    hide NetInv, AcceptorInv, ProposerInv, LearnerInv, ProposerStep, LearnerStep, P.Enabled, Displaced, Held;
    var act :| Next(s, act, s') && (act.AtProposer? ==> Keeps(s.proposers[act.p].state, act.pa));
    match act
    case AtProposer(p, pa) => ProposerHeld(s, p, pa, s');
    case AtLearner(l, la) =>
    case AtAcceptor(a, aa) =>
      NoRequestSent(s.acceptors[a], aa);
      hide AcceptorStep;
      forall f | Accept(f) in s'.net ensures Held(s'.proposers, f.iid, f.value) || Displaced(s'.net, |s.acceptors|, f.iid, f.value) {
        assert Accept(f) in s.net;
        if Displaced(s.net, |s.acceptors|, f.iid, f.value) {
          DisplacedGrows(s.net, s'.net, |s.acceptors|, f.iid, f.value);
        }
      }
  }

  lemma NoRequestSent(s: A.State, aa: AcceptorAction)
    ensures forall m :: m in AcceptorStep(s, aa).1 ==> !m.Accept?
  {
  }

  lemma {:induction false} RunHeld(run: seq<System>, k: nat)
    requires IsKeepingRun(run) && k < |run|
    ensures AllHeld(run[k])
  {
    hide Inv, IsKeepingStep, AllHeld;
    if k == 0 {
      NoRequests(run[0]);
    } else {
      RunHeld(run, k - 1);
      KeepingIsRun(run);
      RunInv(run, k - 1);
      assert IsKeepingStep(run[k - 1], run[k - 1 + 1]);
      HeldOnNext(run[k - 1], run[k]);
    }
  }

  lemma NoRequests(s: System)
    requires Init(s)
    ensures AllHeld(s)
  {
  }

  // ---------- Counting ----------

  /** How often `v` was submitted, over all proposers. */
  ghost function TimesSubmitted(m: map<nat, ProposerHost>, v: Value): nat
    decreases |m|
  {
    if m == map[] then 0
    else
      P.MapShrinks(m, P.Pick(m));
      m[P.Pick(m)].proposed[v] + TimesSubmitted(m - {P.Pick(m)}, v)
  }

  ghost function Attached(m: P.Instances, v: Value): set<nat> {
    set i | i in m && InTable(m, i, v)
  }

  ghost function RetiredIn(retired: seq<(nat, Value)>, v: Value): set<nat> {
    set r | r in retired && r.1 == v :: r.0
  }

  lemma AttachedSplit(m: P.Instances, k: nat, v: Value)
    requires k in m
    ensures |Attached(m, v)| <= |Attached(m - {k}, v)| + P.Carried(m[k])[v]
  {
    assert Attached(m, v) == Attached(m - {k}, v) + if InTable(m, k, v) then {k} else {};
  }

  lemma {:induction false} AttachedCount(m: P.Instances, v: Value)
    ensures |Attached(m, v)| <= P.Pending(m)[v]
    decreases |m|
  {
    if m == map[] {
      assert Attached(m, v) == {};
    } else {
      var k := P.Pick(m);
      P.MapShrinks(m, k);
      AttachedCount(m - {k}, v);
      P.PendingSplit(m, k);
      AttachedSplit(m, k, v);
      hide P.Pending, Attached, P.Carried;
      assert (P.Carried(m[k]) + P.Pending(m - {k}))[v] == P.Carried(m[k])[v] + P.Pending(m - {k})[v];
    }
  }

  lemma RetiredSplit(retired: seq<(nat, Value)>, v: Value)
    requires retired != []
    ensures var k := |retired| - 1; |RetiredIn(retired, v)| <= |RetiredIn(retired[..k], v)| + if retired[k].1 == v then 1 else 0
  {
    var k := |retired| - 1;
    var last, before := retired[k], RetiredIn(retired[..k], v);
    assert retired == retired[..k] + [last];
    assert RetiredIn(retired, v) == before + if last.1 == v then {last.0} else {};
  }

  lemma {:induction false} RetiredCount(retired: seq<(nat, Value)>, v: Value)
    ensures |RetiredIn(retired, v)| <= RetiredValues(retired)[v]
  {
    if retired == [] {
      assert RetiredIn(retired, v) == {};
    } else {
      var k := |retired| - 1;
      RetiredCount(retired[..k], v);
      RetiredSplit(retired, v);
    }
  }

  /** A proposer holds a value in no more instances than it was given it. */
  lemma HeldCount(h: ProposerHost, v: Value, ids: set<nat>)
    requires Conserved(h) && forall i :: i in ids ==> HeldBy(h, i, v)
    ensures |ids| <= h.proposed[v]
  {
    var a, b, c := Attached(h.state.preparing, v), Attached(h.state.accepting, v), RetiredIn(h.retired, v);
    forall i | i in ids ensures i in a + b + c {
      if (i, v) in h.retired {
        assert (i, v).0 in c;
      }
    }
    AttachedCount(h.state.preparing, v);
    AttachedCount(h.state.accepting, v);
    RetiredCount(h.retired, v);
    hide P.Pending, RetiredValues, Attached, RetiredIn;
    SubsetSize(ids, a + b + c);
  }

  lemma NoHost(m: map<nat, ProposerHost>, i: nat, v: Value)
    ensures m == map[] ==> !Held(m, i, v)
  {
  }

  lemma {:induction false} HeldTotal(m: map<nat, ProposerHost>, v: Value, ids: set<nat>)
    requires (forall p :: p in m ==> Conserved(m[p])) && forall i :: i in ids ==> Held(m, i, v)
    ensures |ids| <= TimesSubmitted(m, v)
    decreases |m|
  {
    hide Conserved, HeldBy;
    if m == map[] {
      forall i: nat ensures i !in ids {
        NoHost(m, i, v);
      }
      assert ids == {};
    } else {
      var p := P.Pick(m);
      P.MapShrinks(m, p);
      var mine := set i | i in ids && HeldBy(m[p], i, v);
      HeldCount(m[p], v, mine);
      var rest := ids - mine;
      forall i | i in rest ensures Held(m - {p}, i, v) {
        var r :| r in m && HeldBy(m[r], i, v);
        assert r != p && r in m - {p} && HeldBy((m - {p})[r], i, v);
      }
      HeldTotal(m - {p}, v, rest);
      assert ids == mine + rest;
    }
  }

  // ---------- The theorem ----------

  lemma ChosenIsHeld(s: System, i: nat, v: Value)
    requires Inv(s) && AllHeld(s) && Chosen(s.net, |s.acceptors|, i, v)
    ensures Held(s.proposers, i, v)
  {
    InvNet(s);
    hide Inv, NetInv, ChosenAt, Held;
    var n := |s.acceptors|;
    var b: nat :| ChosenAt(s.net, n, i, b, v);
    ChosenWasRequested(s.net, n, i, b, v);
    assert Accept(Fields(i, b, b, 0, v)) in s.net;
    if Displaced(s.net, n, i, v) {
      var w :| w != v && Chosen(s.net, n, i, w);
      ChosenUnique(s.net, n, i, v, w);
      assert false;
    }
  }

  /** In runs that drop no client value, the instances in which `v` is chosen are no more than the times it was
      submitted, over all proposers. */
  lemma ChosenAtMostSubmitted(run: seq<System>, k: nat, v: Value, ids: set<nat>)
    requires IsKeepingRun(run) && k < |run| && forall i :: i in ids ==> Chosen(run[k].net, |run[k].acceptors|, i, v)
    ensures |ids| <= TimesSubmitted(run[k].proposers, v)
  {
    RunHeld(run, k);
    KeepingIsRun(run);
    RunInv(run, k);
    var s := run[k];
    hide IsKeepingRun, IsRun, AllHeld;
    forall i | i in ids ensures Held(s.proposers, i, v) {
      ChosenIsHeld(s, i, v);
    }
    hide NetInv, AcceptorInv, LearnerInv, TablesOk, SentOk, PhasesOk, RetiredChosen, Held, Chosen;
    forall p | p in s.proposers ensures Conserved(s.proposers[p]) {
      assert ProposerInv(p, s.proposers[p], s.net, |s.acceptors|);
    }
    HeldTotal(s.proposers, v, ids);
  }

  /** The deliveries of `v` in a log. */
  ghost function DeliveredAt(log: seq<Fields>, v: Value): set<nat> {
    set x: nat | x < |log| && log[x].value == v
  }

  ghost function Shifted(xs: set<nat>, first: nat): set<nat> {
    set x | x in xs :: first + x
  }

  lemma {:induction false} ShiftSize(xs: set<nat>, first: nat)
    ensures |Shifted(xs, first)| == |xs|
  {
    if xs != {} {
      var y :| y in xs;
      var rest := xs - {y};
      ShiftSize(rest, first);
      assert first + y !in Shifted(rest, first);
      forall i: nat ensures i in Shifted(xs, first) <==> i in Shifted(rest, first) + {first + y} {
        if i in Shifted(xs, first) && i != first + y {
          var x :| x in xs && i == first + x;
          assert x in rest;
        }
      }
      assert Shifted(xs, first) == Shifted(rest, first) + {first + y};
    }
  }

  lemma DeliveryChosen(run: seq<System>, k: nat, l: nat, x: nat)
    requires IsRun(run) && k < |run| && l < |run[k].learners| && x < |run[k].learners[l].log|
    ensures var f := run[k].learners[l].log[x]; Chosen(run[k].net, |run[k].acceptors|, f.iid, f.value)
  {
    hide IsRun, Chosen, Inv;
    RunInv(run, k);
    var f := run[k].learners[l].log[x];
    assert Closed(run[k], l, f.iid, f.value);
    ClosedIsChosenNow(run[k], l, f.iid, f.value);
  }

  /** So a learner told where to begin before it delivered anything delivers `v` at most as often as it was submitted. */
  lemma DeliveredAtMostSubmitted(run: seq<System>, k: nat, l: nat, first: nat, v: Value)
    requires IsKeepingRun(run) && k < |run| && l < |run[k].learners| && StartsAt(run[k].learners[l], first)
    ensures |DeliveredAt(run[k].learners[l].log, v)| <= TimesSubmitted(run[k].proposers, v)
  {
    KeepingIsRun(run);
    hide IsKeepingRun, IsRun, Chosen, TimesSubmitted, StartsAt;
    SingleSegment(run, k, l, first);
    var log := run[k].learners[l].log;
    var xs := DeliveredAt(log, v);
    var ids := Shifted(xs, first);
    forall i | i in ids ensures Chosen(run[k].net, |run[k].acceptors|, i, v) {
      var x :| x in xs && i == first + x;
      DeliveryChosen(run, k, l, x);
    }
    ShiftSize(xs, first);
    hide Shifted, Segment, DeliveredAt;
    ChosenAtMostSubmitted(run, k, v, ids);
  }
}
