/** Every step of a proposer keeps its part of the invariant and sends only justified accept requests. */
module ProposerSafety {
  import opened Types
  import opened Protocol
  import opened Invariant
  import opened Preservation
  import opened Quorum
  import P = ProposerSpec

  /** The part of the invariant about a proposer's tables. */
  ghost predicate Core(s: P.State, net: set<Message>, n: nat) {
    s.id < MAX_PROPOSERS && s.acceptors == n && TablesOk(s, n) && SentOk(s, net) && PhasesOk(s, net)
  }

  // ---------- Changing one table entry ----------

  lemma PutPreparing(s: P.State, k: nat, inst: P.Instance, net: set<Message>, n: nat)
    requires Core(s, net, n) && k !in s.accepting
    requires InstanceOk(s, n, k, inst) && PreparingInstance(inst, net)
    requires forall f :: Accept(f) in net && f.iid == k && f.ballot % MAX_PROPOSERS == s.id ==> f.ballot < inst.ballot
    ensures Core(s.(preparing := s.preparing[k := inst]), net, n)
  {
    hide InstanceOk, PreparingInstance, AcceptingInstance;
    var s' := s.(preparing := s.preparing[k := inst]);
    assert s'.preparing.Keys == s.preparing.Keys + {k};
    assert TablesOk(s', n) by {
      forall i | i in s'.preparing ensures InstanceOk(s', n, i, s'.preparing[i]) {
        SameOk(s, s', n, i, s'.preparing[i]);
      }
      forall i | i in s'.accepting ensures InstanceOk(s', n, i, s'.accepting[i]) {
        SameOk(s, s', n, i, s'.accepting[i]);
      }
    }
    forall f | Accept(f) in net && f.ballot % MAX_PROPOSERS == s.id ensures Past(s', f) {
      assert Past(s, f);
    }
  }

  /** An instance stays well-formed when the proposer's id is the same and its counter has not gone back. */
  lemma SameOk(s: P.State, s': P.State, n: nat, i: nat, inst: P.Instance)
    requires s.id == s'.id && s.next <= s'.next
    ensures InstanceOk(s, n, i, inst) ==> InstanceOk(s', n, i, inst)
  {
  }

  lemma PutAccepting(s: P.State, k: nat, inst: P.Instance, net: set<Message>, n: nat)
    requires Core(s, net, n) && k !in s.preparing
    requires InstanceOk(s, n, k, inst) && AcceptingInstance(inst, net)
    requires forall f :: Accept(f) in net && f.iid == k && f.ballot % MAX_PROPOSERS == s.id ==> f.ballot <= inst.ballot
    ensures Core(s.(accepting := s.accepting[k := inst]), net, n)
  {
    hide InstanceOk, PreparingInstance, AcceptingInstance;
    var s' := s.(accepting := s.accepting[k := inst]);
    assert s'.accepting.Keys == s.accepting.Keys + {k};
    assert TablesOk(s', n) by {
      forall i | i in s'.preparing ensures InstanceOk(s', n, i, s'.preparing[i]) {
        SameOk(s, s', n, i, s'.preparing[i]);
      }
      forall i | i in s'.accepting ensures InstanceOk(s', n, i, s'.accepting[i]) {
        SameOk(s, s', n, i, s'.accepting[i]);
      }
    }
    forall f | Accept(f) in net && f.ballot % MAX_PROPOSERS == s.id ensures Past(s', f) {
      assert Past(s, f);
    }
  }

  lemma Shrink(s: P.State, s': P.State, net: set<Message>, n: nat)
    requires Core(s, net, n) && s'.id == s.id && s'.acceptors == s.acceptors && s.next <= s'.next
    requires forall i :: i in s'.preparing ==> i in s.preparing && s'.preparing[i] == s.preparing[i]
    requires forall i :: i in s'.accepting ==> i in s.accepting && s'.accepting[i] == s.accepting[i]
    ensures Core(s', net, n)
  {
    hide PreparingInstance, AcceptingInstance;
    forall f | Accept(f) in net && f.ballot % MAX_PROPOSERS == s.id ensures Past(s', f) {
      assert Past(s, f);
    }
  }

  /** Accept requests added under other ballots, or already past, are harmless. */
  lemma CoreGrows(s: P.State, net: set<Message>, net': set<Message>, n: nat)
    requires Core(s, net, n) && net <= net'
    requires forall f :: Accept(f) in net' && f.ballot % MAX_PROPOSERS == s.id ==> Accept(f) in net || Past(s, f)
    ensures Core(s, net', n)
  {
    hide PhasesOk, TablesOk, Past;
    PhasesGrow(s, net, net');
  }

  // ---------- The steps ----------

  lemma NextBallotFacts(id: nat, b: nat)
    requires id < MAX_PROPOSERS && b + MAX_PROPOSERS < 0x1_0000_0000 && (0 < b ==> b % MAX_PROPOSERS == id)
    ensures var c := P.NextBallot(id, b); b < c < 0x1_0000_0000 && MAX_PROPOSERS <= c && c % MAX_PROPOSERS == id
  {
  }

  lemma OpenStep(s: P.State, now: int, net: set<Message>, n: nat)
    requires Core(s, net, n)
    ensures Core(P.OpenInstance(s, now).0, net, n)
  {
    hide TablesOk, PhasesOk;
    NextBallotFacts(s.id, 0);
    var s1 := s.(next := s.next + 1);
    Shrink(s, s1, net, n);
    var inst := P.NewInstance(s.next + 1, P.NextBallot(s.id, 0), now);
    assert inst.iid !in s.accepting by { NotOpened(s, n, inst.iid); }
    forall f | Accept(f) in net && f.ballot % MAX_PROPOSERS == s.id ensures f.iid != inst.iid {
      assert Past(s, f);
    }
    PutPreparing(s1, inst.iid, inst, net, n);
  }

  /** Instance ids above the counter are in neither table. */
  lemma NotOpened(s: P.State, n: nat, i: nat)
    requires TablesOk(s, n) && s.next < i
    ensures i !in s.preparing && i !in s.accepting
  {
    assert i in s.preparing ==> InstanceOk(s, n, i, s.preparing[i]);
    assert i in s.accepting ==> InstanceOk(s, n, i, s.accepting[i]);
  }

  lemma PreemptStep(s: P.State, k: nat, inst: P.Instance, now: int, net: set<Message>, n: nat)
    requires Core(s, net, n) && k !in s.accepting && InstanceOk(s, n, k, inst)
    requires inst.ballot + MAX_PROPOSERS < 0x1_0000_0000
    requires forall f :: Accept(f) in net && f.iid == k && f.ballot % MAX_PROPOSERS == s.id ==> f.ballot <= inst.ballot
    ensures Core(s.(preparing := s.preparing[k := P.Preempt(s.id, inst, now)]), net, n)
  {
    hide TablesOk, PhasesOk, SentOk, P.NextBallot;
    NextBallotFacts(s.id, inst.ballot);
    PutPreparing(s, k, P.Preempt(s.id, inst, now), net, n);
  }

  /** For an instance in phase two this proposer has sent a request. */
  lemma AcceptingRequested(s: P.State, k: nat, net: set<Message>, n: nat)
    requires Core(s, net, n)
    ensures k in s.accepting ==> !NeverRequested(s.id, k, net)
  {
    if k in s.accepting {
      var inst := s.accepting[k];
      assert AcceptingInstance(inst, net) && InstanceOk(s, n, k, inst);
      assert Accept(Fields(k, inst.ballot, inst.ballot, 0, P.AcceptValue(inst))) in net;
    }
  }

  /** proposer_prepare_instance, where it may be called. */
  lemma ReopenStep(s: P.State, k: nat, now: int, net: set<Message>, n: nat)
    requires Core(s, net, n) && MayReopen(s, k, net)
    ensures Core(P.PrepareInstance(s, k, now).0, net, n)
  {
    hide P.NextBallot;
    if k in s.preparing {
      var inst := s.preparing[k];
      assert InstanceOk(s, n, k, inst);
      forall f | Accept(f) in net && f.iid == k && f.ballot % MAX_PROPOSERS == s.id ensures f.ballot <= inst.ballot {
        assert Past(s, f);
      }
      hide TablesOk, PhasesOk, SentOk;
      PreemptStep(s, k, inst, now, net, n);
    } else {
      NextBallotFacts(s.id, 0);
      AcceptingRequested(s, k, net, n);
      hide TablesOk, PhasesOk, SentOk;
      PutPreparing(s, k, P.NewInstance(k, P.NextBallot(s.id, 0), now), net, n);
    }
  }

  /** A promise for the current ballot reports a vote strictly below it. */
  lemma PromiseBelow(s: P.State, f: Fields, net: set<Message>, n: nat)
    requires Core(s, net, n) && NetInv(net, n) && Promise(f) in net
    requires f.iid in s.preparing && f.ballot == s.preparing[f.iid].ballot
    ensures f.valueBallot < f.ballot
    ensures 0 < f.valueBallot ==> AcceptMsg(f.iid, f.valueBallot, f.value) in net
  {
    hide Justified, PhasesOk;
    if 0 < f.valueBallot {
      var vote := Fields(f.iid, f.valueBallot, f.valueBallot, f.aid, f.value);
      assert Accepted(vote) in net;
      var req := Fields(f.iid, f.valueBallot, f.valueBallot, 0, f.value);
      assert Accept(req) in net;
      assert InstanceOk(s, n, f.iid, s.preparing[f.iid]);
      assert f.valueBallot == f.ballot ==> Past(s, req);
    }
  }

  lemma AddPromiseStep(s: P.State, f: Fields, net: set<Message>, n: nat)
    requires Core(s, net, n) && NetInv(net, n) && Promise(f) in net
    requires f.iid in s.preparing && f.ballot == s.preparing[f.iid].ballot
    ensures Core(s.(preparing := s.preparing[f.iid := P.AddPromise(s.preparing[f.iid], f)]), net, n)
  {
    hide Justified, AcceptsOk, AcceptsUnique, VotesOk, PromisesKept;
    var k, inst := f.iid, s.preparing[f.iid];
    var inst' := P.AddPromise(inst, f);
    PromiseBelow(s, f, net, n);
    assert PreparingInstance(inst, net) && InstanceOk(s, n, k, inst);
    assert AllPromised(net, inst'.acks, k, inst'.ballot, inst'.valueBallot) by {
      forall a | a in inst'.acks ensures HasPromise(net, k, inst'.ballot, a, inst'.valueBallot) {
        assert a in inst.acks ==> HasPromise(net, k, inst.ballot, a, inst.valueBallot);
      }
    }
    forall g | Accept(g) in net && g.iid == k && g.ballot % MAX_PROPOSERS == s.id ensures g.ballot < inst'.ballot {
      assert Past(s, g);
    }
    hide PreparingInstance, PhasesOk, TablesOk, SentOk;
    PutPreparing(s, k, inst', net, n);
  }

  // ---------- Sending an accept request ----------

  /** A request that is justified and new for its instance and ballot keeps the network invariant. */
  lemma AcceptSent(net: set<Message>, i: nat, b: nat, v: Value, n: nat)
    requires NetInv(net, n) && MAX_PROPOSERS <= b < 0x1_0000 && v != [] && Justified(net, n, i, b, v)
    requires forall f :: Accept(f) in net && f.iid == i && f.ballot == b ==> f.value == v
    ensures NetInv(net + {AcceptMsg(i, b, v)}, n)
  {
    hide Justified;
    var net' := net + {AcceptMsg(i, b, v)};
    assert AcceptsOk(net', n) by {
      forall f | Accept(f) in net' ensures Justified(net', n, f.iid, f.ballot, f.value) {
        JustifiedGrows(net, net', n, f.iid, f.ballot, f.value);
      }
    }
  }

  /** The instance proposer_accept moves: its promises come from a majority, so its value is justified. */
  lemma ReadyIsJustified(s: P.State, k: nat, inst: P.Instance, net: set<Message>, n: nat)
    requires Core(s, net, n) && k in s.preparing && P.Reached(s.preparing[k], n)
    requires inst == s.preparing[k].(value := inst.value) && P.HasSomeValue(inst)
    ensures Justified(net, n, k, inst.ballot, P.AcceptValue(inst))
  {
    var ready := s.preparing[k];
    assert PreparingInstance(ready, net) && InstanceOk(s, n, k, ready);
    hide AllPromised;
    assert Majority(ready.acks, n);
    assert JustifiedBy(net, n, k, inst.ballot, P.AcceptValue(inst), ready.acks, inst.valueBallot);
  }

  /** An instance that has counted a promise has a ballot that fits a message: promises carry 16 bits, and only an
      equal ballot is counted. */
  lemma CountedFits(inst: P.Instance, net: set<Message>)
    requires AllFit(net) && PreparingInstance(inst, net) && inst.acks != {}
    ensures inst.ballot < 0x1_0000
  {
    var a :| a in inst.acks;
    assert HasPromise(net, inst.iid, inst.ballot, a, inst.valueBallot);
    var f :| Promise(f) in net && f.iid == inst.iid && f.ballot == inst.ballot && f.aid == a;
    assert BallotFits(Promise(f));
  }

  /** So has an instance whose request was sent. */
  lemma RequestedFits(inst: P.Instance, net: set<Message>)
    requires AllFit(net) && AcceptingInstance(inst, net)
    ensures inst.ballot < 0x1_0000
  {
    assert BallotFits(AcceptMsg(inst.iid, inst.ballot, P.AcceptValue(inst)));
  }

  lemma TryAcceptStep(s: P.State, k: nat, inst: P.Instance, net: set<Message>, n: nat)
    requires Core(s, net, n) && NetInv(net, n) && k in s.preparing && P.Reached(s.preparing[k], n)
    requires inst == s.preparing[k].(value := inst.value) && P.HasSomeValue(inst) && P.AcceptValue(inst) != []
    ensures NetInv(net + {P.ToAccept(inst)}, n)
    ensures Core(s.(preparing := s.preparing - {k}, accepting := s.accepting[k := inst.(acks := {})]), net + {P.ToAccept(inst)}, n)
    ensures P.ToAccept(inst) == AcceptMsg(k, inst.ballot, P.AcceptValue(inst)) && inst.ballot % MAX_PROPOSERS == s.id
  {
    hide Justified, NetInv, PhasesOk;
    var b, v := inst.ballot, P.AcceptValue(inst);
    var net' := net + {AcceptMsg(k, b, v)};
    assert InstanceOk(s, n, k, s.preparing[k]);
    assert b < 0x1_0000 by {
      assert AllFit(net) by { NetFits(net, n); }
      assert PreparingInstance(s.preparing[k], net) by { PhaseOf(s, k, net); }
      CountedFits(s.preparing[k], net);
    }
    forall f | Accept(f) in net && f.iid == k && f.ballot % MAX_PROPOSERS == s.id ensures f.ballot < b {
      assert Past(s, f);
    }
    ReadyIsJustified(s, k, inst, net, n);
    AcceptSent(net, k, b, v, n);
    var s1 := s.(preparing := s.preparing - {k});
    Shrink(s, s1, net, n);
    CoreGrows(s1, net, net', n);
    PutAccepting(s1, k, inst.(acks := {}), net', n);
  }

  lemma PhaseOf(s: P.State, k: nat, net: set<Message>)
    requires PhasesOk(s, net)
    ensures k in s.preparing ==> PreparingInstance(s.preparing[k], net)
    ensures k in s.accepting ==> AcceptingInstance(s.accepting[k], net)
  {
  }

  // ---------- Phase two ----------

  /** A vote for the current request of an accepting instance is a vote for its value. */
  lemma VoteIsForRequest(s: P.State, f: Fields, net: set<Message>, n: nat)
    requires Core(s, net, n) && NetInv(net, n) && Accepted(f) in net
    requires f.iid in s.accepting && f.ballot == s.accepting[f.iid].ballot
    ensures var inst := s.accepting[f.iid];
            P.HasSomeValue(inst) && f.aid < n && Accepted(f) == VoteMsg(f.iid, inst.ballot, f.aid, P.AcceptValue(inst))
  {
    hide Justified, AllVoted, PromisesOk, PromisesKept, SentOk;
    var inst := s.accepting[f.iid];
    assert AcceptingInstance(inst, net) && InstanceOk(s, n, f.iid, inst);
    assert AcceptMsg(f.iid, f.ballot, f.value) in net;
    assert AcceptMsg(f.iid, f.ballot, P.AcceptValue(inst)) in net;
  }

  lemma CountVoteStep(s: P.State, f: Fields, net: set<Message>, n: nat)
    requires Core(s, net, n) && NetInv(net, n) && Accepted(f) in net
    requires f.iid in s.accepting && f.ballot == s.accepting[f.iid].ballot
    ensures var inst := s.accepting[f.iid].(acks := s.accepting[f.iid].acks + {f.aid});
            Core(s.(accepting := s.accepting[f.iid := inst]), net, n) && AcceptingInstance(inst, net) && InstanceOk(s, n, f.iid, inst)
  {
    hide Justified, NetInv;
    VoteIsForRequest(s, f, net, n);
    var inst := s.accepting[f.iid];
    var inst' := inst.(acks := inst.acks + {f.aid});
    assert AcceptingInstance(inst, net) && InstanceOk(s, n, f.iid, inst);
    assert AcceptingInstance(inst', net);
    forall g | Accept(g) in net && g.iid == f.iid && g.ballot % MAX_PROPOSERS == s.id ensures g.ballot <= inst'.ballot {
      assert Past(s, g);
    }
    hide AcceptingInstance, PhasesOk, TablesOk, SentOk;
    PutAccepting(s, f.iid, inst', net, n);
  }

  /** When the counter reaches a majority, the value was really chosen at the current ballot. */
  lemma ClosedIsChosen(s: P.State, inst: P.Instance, net: set<Message>, n: nat)
    requires InstanceOk(s, n, inst.iid, inst) && AcceptingInstance(inst, net) && P.Reached(inst, n)
    ensures ChosenAt(net, n, inst.iid, inst.ballot, P.AcceptValue(inst))
  {
    assert Majority(inst.acks, n);
  }

  lemma PreemptedStep(s: P.State, f: Fields, now: int, net: set<Message>, n: nat)
    requires Core(s, net, n) && f.iid in s.accepting
    requires s.accepting[f.iid].ballot < 0x1_0000
    ensures var inst := P.Preempt(s.id, s.accepting[f.iid], now);
            Core(s.(accepting := s.accepting - {f.iid}, preparing := s.preparing[f.iid := inst]), net, n)
  {
    var inst := s.accepting[f.iid];
    assert InstanceOk(s, n, f.iid, inst);
    forall g | Accept(g) in net && g.iid == f.iid && g.ballot % MAX_PROPOSERS == s.id ensures g.ballot <= inst.ballot {
      assert Past(s, g);
    }
    var s1 := s.(accepting := s.accepting - {f.iid});
    Shrink(s, s1, net, n);
    hide Core, P.NextBallot;
    PreemptStep(s1, f.iid, inst, now, net, n);
  }

  /** Restarting a clock changes nothing the invariant speaks of. */
  lemma RestartStep(s: P.State, i: nat, now: int, net: set<Message>, n: nat)
    requires Core(s, net, n) && AllFit(net)
    ensures i in s.preparing ==> Core(P.RestartPreparing(s, i, now), net, n)
    ensures i in s.accepting ==> Core(P.RestartAccepting(s, i, now), net, n) && P.HasSomeValue(s.accepting[i])
                                 && P.ToAccept(s.accepting[i]) in net
  {
    if i in s.preparing {
      var inst := s.preparing[i].(createdAt := now);
      assert PreparingInstance(s.preparing[i], net) && InstanceOk(s, n, i, s.preparing[i]);
      assert PreparingInstance(inst, net) && InstanceOk(s, n, i, inst);
      forall g | Accept(g) in net && g.iid == i && g.ballot % MAX_PROPOSERS == s.id ensures g.ballot < inst.ballot {
        assert Past(s, g);
      }
      PutPreparing(s, i, inst, net, n);
    }
    if i in s.accepting {
      var inst := s.accepting[i].(createdAt := now);
      assert AcceptingInstance(s.accepting[i], net) && InstanceOk(s, n, i, s.accepting[i]);
      RequestedFits(s.accepting[i], net);
      assert AcceptingInstance(inst, net) && InstanceOk(s, n, i, inst);
      forall g | Accept(g) in net && g.iid == i && g.ballot % MAX_PROPOSERS == s.id ensures g.ballot <= inst.ballot {
        assert Past(s, g);
      }
      PutAccepting(s, i, inst, net, n);
    }
  }

  /** Setting the instance id forward closes every open instance. */
  lemma SetInstanceEmpties(s: P.State, iid: nat, returned: seq<Value>, n: nat)
    requires TablesOk(s, n) && s.next < iid
    ensures var s' := P.SetInstanceId(s, iid, returned); s'.preparing == map[] && s'.accepting == map[] && s'.next == iid
    ensures P.UpTo(s.preparing, iid) == s.preparing && P.UpTo(s.accepting, iid) == s.accepting
  {
    assert forall i :: i in s.preparing ==> InstanceOk(s, n, i, s.preparing[i]);
    assert forall i :: i in s.accepting ==> InstanceOk(s, n, i, s.accepting[i]);
  }
}
