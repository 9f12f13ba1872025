/** No client value is lost or duplicated: each is queued, attached to one instance, or retired. */
module Conservation {
  import opened Types
  import opened Protocol
  import opened Invariant
  import opened ProposerSafety
  import P = ProposerSpec

  /** What a proposer holds of its clients' values. */
  ghost function Holding(s: P.State): multiset<Value> {
    multiset(s.queue) + P.Pending(s.preparing) + P.Pending(s.accepting)
  }

  lemma AttachedIsPending(m: P.Instances, k: nat)
    requires k in m && m[k].value.Some?
    ensures m[k].value.value in P.Pending(m)
  {
    P.PendingSplit(m, k);
  }

  /** Replacing an instance by one carrying the same value changes nothing. */
  lemma SameCarried(m: P.Instances, k: nat, inst: P.Instance)
    requires k in m && inst.value == m[k].value
    ensures P.Pending(m[k := inst]) == P.Pending(m)
  {
    hide P.Pending;
    P.PendingUpdate(m, k, inst);
    Cancel(P.Pending(m[k := inst]), P.Pending(m), P.Carried(inst));
  }

  lemma Cancel(a: multiset<Value>, b: multiset<Value>, c: multiset<Value>)
    requires a + c == b + c
    ensures a == b
  {
    forall x ensures a[x] == b[x] {
      assert (a + c)[x] == (b + c)[x];
    }
  }

  lemma QueuePop(q: seq<Value>)
    requires q != []
    ensures multiset(q) == multiset{q[0]} + multiset(q[1..])
  {
    assert q == [q[0]] + q[1..];
  }

  /** proposer_accept: the queued value it pops becomes attached to the instance it moves. */
  lemma HoldingTryAccept(s: P.State, k: Option<nat>)
    requires k.Some? ==> k.value in s.preparing && k.value !in s.accepting
    ensures Holding(P.AcceptNext(s, k).0) == Holding(s)
  {
    hide P.Pending, P.Carried;
    var (s', m) := P.AcceptNext(s, k);
    if m.Some? {
      var old_ := s.preparing[k.value];
      var inst := P.WithValue(old_, s.queue).(acks := {});
      P.PendingRemove(s.preparing, k.value);
      P.PendingUpdate(s.accepting, k.value, inst);
      assert multiset(s'.queue) + P.Carried(inst) == multiset(s.queue) + P.Carried(old_) by {
        PopCarried(old_, s.queue);
      }
      Rearrange(multiset(s'.queue), P.Pending(s'.preparing), P.Pending(s.accepting), P.Carried(inst),
                multiset(s.queue), P.Carried(old_));
    }
  }

  lemma PopCarried(inst: P.Instance, q: seq<Value>)
    ensures multiset(P.AfterPop(inst, q)) + P.Carried(P.WithValue(inst, q).(acks := {})) == multiset(q) + P.Carried(inst)
  {
    if q != [] {
      QueuePop(q);
    }
  }

  lemma Rearrange(q': multiset<Value>, rest: multiset<Value>, acc: multiset<Value>, c': multiset<Value>,
                  q: multiset<Value>, c: multiset<Value>)
    requires q' + c' == q + c
    ensures q' + rest + (acc + c') == q + (rest + c) + acc
  {
    assert q' + rest + (acc + c') == (q' + c') + (rest + acc);
    assert (q + c) + (rest + acc) == q + (rest + c) + acc;
  }

  /** proposer_receive_accepted: closing gives the value back or retires it. */
  lemma HoldingAccepted(s: P.State, f: Fields)
    ensures Holding(P.ReceiveAccepted(s, f).0) + RetiredValues(NewlyRetired(s, P.OnAccepted(f))) == Holding(s)
  {
    hide P.Pending;
    var (s', code) := P.ReceiveAccepted(s, f);
    var act := P.OnAccepted(f);
    assert RetiredValues([]) == multiset{};
    if code == 1 {
      SameCarried(s.accepting, f.iid, s'.accepting[f.iid]);
      assert NewlyRetired(s, act) == [];
    } else if code == 2 {
      var inst := s.accepting[f.iid];
      P.PendingRemove(s.accepting, f.iid);
      var r := NewlyRetired(s, act);
      assert multiset(P.GivenBack(inst)) + RetiredValues(r) == P.Carried(inst) by {
        assert r != [] ==> r[..0] == [];
      }
      var q, g, prep, acc := multiset(s.queue), multiset(P.GivenBack(inst)), P.Pending(s.preparing), P.Pending(s'.accepting);
      assert multiset(s'.queue) == q + g;
      assert (q + g) + prep + acc + RetiredValues(r) == q + prep + (acc + (g + RetiredValues(r)));
    } else {
      assert NewlyRetired(s, act) == [];
    }
  }

  lemma HoldingPreempted(s: P.State, f: Fields, now: int)
    requires s.preparing.Keys !! s.accepting.Keys
    ensures Holding(P.ReceivePreempted(s, f, now).0) == Holding(s)
  {
    hide P.Pending;
    var (s', m) := P.ReceivePreempted(s, f, now);
    if m.Some? {
      var inst := s.accepting[f.iid];
      P.PendingRemove(s.accepting, f.iid);
      P.PendingUpdate(s.preparing, f.iid, P.Preempt(s.id, inst, now));
      var q, prep, acc, c := multiset(s.queue), P.Pending(s.preparing), P.Pending(s'.accepting), P.Carried(inst);
      assert q + (prep + c) + acc == q + prep + (acc + c);
    }
  }

  lemma HoldingPromise(s: P.State, f: Fields, now: int)
    ensures Holding(P.ReceivePromise(s, f, now).0) == Holding(s)
  {
    hide P.Pending;
    var (s', _) := P.ReceivePromise(s, f, now);
    if s' != s {
      SameCarried(s.preparing, f.iid, s'.preparing[f.iid]);
    }
  }

  lemma HoldingSetInstance(s: P.State, iid: nat, returned: seq<Value>, n: nat)
    requires TablesOk(s, n) && (s.next < iid ==> P.IsReturned(s, iid, returned))
    ensures Holding(P.SetInstanceId(s, iid, returned)) == Holding(s)
  {
    if s.next < iid {
      SetInstanceEmpties(s, iid, returned, n);
      var s' := P.SetInstanceId(s, iid, returned);
      assert P.Pending(s'.preparing) == multiset{} && P.Pending(s'.accepting) == multiset{};
      assert multiset(s'.queue) == multiset(s.queue) + multiset(returned);
    }
  }

  lemma HoldingSubmit(s: P.State, v: Value)
    ensures Holding(P.Propose(s, v)) == Holding(s) + multiset{v}
  {
    var q, prep, acc := multiset(s.queue), P.Pending(s.preparing), P.Pending(s.accepting);
    assert multiset(s.queue + [v]) == q + multiset{v};
    assert (q + multiset{v}) + prep + acc == q + prep + acc + multiset{v};
  }

  lemma HoldingOpen(s: P.State, now: int, n: nat)
    requires TablesOk(s, n)
    ensures Holding(P.OpenInstance(s, now).0) == Holding(s)
  {
    NotOpened(s, n, s.next + 1);
    hide TablesOk, P.Pending, P.NextBallot;
    var inst, prep := P.NewInstance(s.next + 1, P.NextBallot(s.id, 0), now), P.Pending(s.preparing);
    P.PendingUpdate(s.preparing, s.next + 1, inst);
    assert prep + P.Carried(inst) == prep;
  }

  lemma HoldingAcceptorState(s: P.State, trimIid: nat, returned: seq<Value>, n: nat)
    requires TablesOk(s, n) && (s.maxTrim < trimIid && s.next < trimIid ==> P.IsReturned(s, trimIid, returned))
    ensures Holding(P.ReceiveAcceptorState(s, trimIid, returned)) == Holding(s)
  {
    hide P.Pending, P.IsReturned, P.SetInstanceId;
    if s.maxTrim < trimIid {
      SameTables(s, trimIid, returned, n);
      HoldingSetInstance(s.(maxTrim := trimIid), trimIid, returned, n);
    }
  }

  /** The trim point is no part of what a proposer holds. */
  lemma SameTables(s: P.State, iid: nat, returned: seq<Value>, n: nat)
    requires TablesOk(s, n)
    ensures var s' := s.(maxTrim := iid);
            TablesOk(s', n) && Holding(s') == Holding(s) && (P.IsReturned(s, iid, returned) ==> P.IsReturned(s', iid, returned))
  {
    assert forall i, inst :: InstanceOk(s, n, i, inst) ==> InstanceOk(s.(maxTrim := iid), n, i, inst);
  }

  lemma HoldingRestart(s: P.State, iid: nat, now: int)
    ensures iid in s.preparing ==> Holding(P.RestartPreparing(s, iid, now)) == Holding(s)
    ensures iid in s.accepting ==> Holding(P.RestartAccepting(s, iid, now)) == Holding(s)
  {
    if iid in s.preparing {
      SameCarried(s.preparing, iid, s.preparing[iid].(createdAt := now));
    }
    if iid in s.accepting {
      SameCarried(s.accepting, iid, s.accepting[iid].(createdAt := now));
    }
  }

  lemma HoldingReopen(s: P.State, iid: nat, now: int)
    ensures Holding(P.PrepareInstance(s, iid, now).0) == Holding(s)
  {
    hide P.Pending, P.NextBallot;
    var s' := P.PrepareInstance(s, iid, now).0;
    if iid in s.preparing {
      SameCarried(s.preparing, iid, s'.preparing[iid]);
    } else {
      P.PendingUpdate(s.preparing, iid, s'.preparing[iid]);
    }
  }

  lemma HoldingStep(s: P.State, act: P.Action, net: set<Message>, n: nat)
    requires TablesOk(s, n) && P.Enabled(s, act, net)
    ensures Holding(P.Step(s, act, net).0) + RetiredValues(NewlyRetired(s, act))
         == Holding(s) + (if act.Submit? then multiset{act.v} else multiset{})
  {
    hide Holding, RetiredValues, P.Pending, P.OpenInstance, P.ReceivePromise, P.AcceptNext, P.ReceivePreempted, P.PrepareInstance;
    NothingRetired();
    match act
    case Submit(v) => HoldingSubmit(s, v);
    case Open(now) => HoldingOpen(s, now, n);
    case OnPromise(f, now) => HoldingPromise(s, f, now);
    case TryAccept(k) => HoldingTryAccept(s, k);
    case OnAccepted(f) => HoldingAccepted(s, f);
    case OnPreempted(f, now) => HoldingPreempted(s, f, now);
    case SetInstance(iid, returned) => HoldingSetInstance(s, iid, returned, n);
    case OnAcceptorState(_, trimIid, returned) => HoldingAcceptorState(s, trimIid, returned, n);
    case ResendPrepare(iid, now) => HoldingRestart(s, iid, now);
    case ResendAccept(iid, now) => HoldingRestart(s, iid, now);
    case Reopen(iid, now) => HoldingReopen(s, iid, now);
  }

  lemma NothingRetired()
    ensures RetiredValues([]) == multiset{}
  {
  }

  lemma RetiredAppend(r: seq<(nat, Value)>, x: seq<(nat, Value)>)
    requires |x| <= 1
    ensures RetiredValues(r + x) == RetiredValues(r) + RetiredValues(x)
  {
    if x == [] {
      assert r + x == r;
    } else {
      assert (r + x)[..|r|] == r && x[..0] == [];
    }
  }

  /** Conservation is kept by every step. */
  lemma ConservedStep(h: ProposerHost, act: P.Action, net: set<Message>, n: nat)
    requires Conserved(h) && TablesOk(h.state, n) && P.Enabled(h.state, act, net)
    ensures Conserved(ProposerStep(h, act, net).0)
  {
    hide P.Pending, RetiredValues, TablesOk, P.Enabled;
    var s, r := h.state, NewlyRetired(h.state, act);
    HoldingStep(s, act, net, n);
    RetiredAppend(h.retired, r);
    var a, b, c, d := Holding(P.Step(s, act, net).0), RetiredValues(r), Holding(s), RetiredValues(h.retired);
    var v := if act.Submit? then multiset{act.v} else multiset{};
    assert a + (d + b) == (a + b) + d;
    assert (c + v) + d == (c + d) + v;
  }
}
