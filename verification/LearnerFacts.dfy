/** When a learner closes an instance, and when it reports holes. */
module LearnerFacts {
  import opened FiniteSets
  import opened Types
  import opened LearnerSpec

  // ---------- Counting stored acks ----------

  function One(ack: Option<Fields>, b: nat): nat {
    if Holds(ack, b) then 1 else 0
  }

  lemma {:induction false} CountUpdate(acks: seq<Option<Fields>>, a: nat, ack: Option<Fields>, b: nat)
    requires a < |acks|
    ensures Count(acks[a := ack], b) + One(acks[a], b) == Count(acks, b) + One(ack, b)
  {
    var k := |acks| - 1;
    var after := acks[a := ack];
    if a == k {
      assert after[..k] == acks[..k];
    } else {
      assert after[..k] == acks[..k][a := ack];
      CountUpdate(acks[..k], a, ack, b);
    }
  }

  lemma {:induction false} CountNone(acks: seq<Option<Fields>>, b: nat)
    requires forall a :: 0 <= a < |acks| ==> acks[a].None?
    ensures Count(acks, b) == 0
  {
    if acks != [] {
      CountNone(acks[..|acks| - 1], b);
    }
  }

  /** The acceptors whose stored ack is for `ballot`. */
  ghost function Holders(acks: seq<Option<Fields>>, ballot: nat): set<nat> {
    set a: nat | a < |acks| && Holds(acks[a], ballot)
  }

  lemma {:induction false} HoldersCount(acks: seq<Option<Fields>>, ballot: nat)
    ensures |Holders(acks, ballot)| == Count(acks, ballot)
  {
    if acks != [] {
      var k := |acks| - 1;
      HoldersCount(acks[..k], ballot);
      var before := Holders(acks[..k], ballot);
      assert Holders(acks, ballot) == if Holds(acks[k], ballot) then before + {k} else before;
    }
  }

  /** The last index is that of the last ack for the ballot. */
  lemma {:induction false} LastHolder(acks: seq<Option<Fields>>, b: nat, j: nat)
    requires j < |acks| && Holds(acks[j], b) && forall k :: j < k < |acks| ==> !Holds(acks[k], b)
    ensures 0 < Count(acks, b) && LastIndex(acks, b) == j
  {
    var k := |acks| - 1;
    if j < k {
      LastHolder(acks[..k], b, j);
    }
  }

  ghost predicate NoMajority(acks: seq<Option<Fields>>) {
    forall b: nat :: !MajorityAt(acks, b)
  }

  /** Storing one ack can create a majority only at that ack's ballot. */
  lemma OnlyNewBallot(acks: seq<Option<Fields>>, ack: Fields)
    requires ack.aid < |acks| && NoMajority(acks)
    ensures !MajorityAt(acks[ack.aid := Some(ack)], ack.ballot) ==> NoMajority(acks[ack.aid := Some(ack)])
  {
    var after := acks[ack.aid := Some(ack)];
    forall b: nat | b != ack.ballot ensures !MajorityAt(after, b) {
      CountUpdate(acks, ack.aid, Some(ack), b);
      assert !MajorityAt(acks, b);
    }
  }

  // ---------- The reference: store every ack that is newer, test every ballot ----------

  function StoreAck(acks: seq<Option<Fields>>, ack: Fields): (r: seq<Option<Fields>>)
    ensures |r| == |acks|
  {
    if Storable(acks, ack) then acks[ack.aid := Some(ack)] else acks
  }

  function StoreAll(acceptors: nat, msgs: seq<Fields>): (r: seq<Option<Fields>>)
    ensures |r| == acceptors
  {
    if msgs == [] then seq(acceptors, _ => None)
    else StoreAck(StoreAll(acceptors, msgs[..|msgs| - 1]), msgs[|msgs| - 1])
  }

  /** The stored ack of an acceptor is the first of those with its highest ballot. */
  lemma {:induction false} StoredIsNewest(acceptors: nat, msgs: seq<Fields>, a: nat)
    requires a < acceptors
    ensures var ack := StoreAll(acceptors, msgs)[a];
            && (ack.None? ==> forall j :: 0 <= j < |msgs| ==> msgs[j].aid != a)
            && (ack.Some? ==> exists i :: 0 <= i < |msgs| && msgs[i] == ack.value && IsNewest(msgs, a, i))
  {
    if msgs != [] {
      var n := |msgs| - 1;
      var before := msgs[..n];
      StoredIsNewest(acceptors, before, a);
      var stored := StoreAll(acceptors, before);
      if msgs[n].aid == a && Storable(stored, msgs[n]) {
        if stored[a].Some? {
          var i :| 0 <= i < n && before[i] == stored[a].value && IsNewest(before, a, i);
        }
        assert IsNewest(msgs, a, n);
      } else if stored[a].Some? {
        var i :| 0 <= i < n && before[i] == stored[a].value && IsNewest(before, a, i);
        assert IsNewest(msgs, a, i);
      }
    }
  }

  ghost predicate IsNewest(msgs: seq<Fields>, a: nat, i: nat)
    requires i < |msgs|
  {
    && msgs[i].aid == a
    && forall j :: 0 <= j < |msgs| && msgs[j].aid == a ==>
         msgs[j].ballot <= msgs[i].ballot && (j < i ==> msgs[j].ballot < msgs[i].ballot)
  }

  /** The learner's instance after the same acks. */
  function Feed(acceptors: nat, msgs: seq<Fields>): Instance {
    if msgs == [] then NewInstance(acceptors)
    else Test(Update(Feed(acceptors, msgs[..|msgs| - 1]), msgs[|msgs| - 1]))
  }

  /** The instance first reached a majority with its k-th ack, at ballot `b`, and `f` is one of those acks. */
  ghost predicate FirstMajority(acceptors: nat, msgs: seq<Fields>, k: nat, b: nat, f: Option<Fields>) {
    && k <= |msgs|
    && MajorityAt(StoreAll(acceptors, msgs[..k]), b)
    && f in StoreAll(acceptors, msgs[..k]) && Holds(f, b)
    && forall j :: 0 <= j < k ==> NoMajority(StoreAll(acceptors, msgs[..j]))
  }

  ghost predicate NeverMajority(acceptors: nat, msgs: seq<Fields>) {
    forall j :: 0 <= j <= |msgs| ==> NoMajority(StoreAll(acceptors, msgs[..j]))
  }

  lemma StepOpen(inst: Instance, ack: Fields)
    requires inst.final.None? && NoMajority(inst.acks)
    ensures var inst' := Test(Update(inst, ack));
            && inst'.acks == StoreAck(inst.acks, ack)
            && (if inst'.final.Some? then MajorityAt(inst'.acks, ack.ballot) && inst'.final in inst'.acks && Holds(inst'.final, ack.ballot)
                else NoMajority(inst'.acks))
  {
    var inst0 := if inst.iid == 0 then inst.(iid := ack.iid, lastBallot := ack.ballot) else inst;
    assert !MajorityAt(inst.acks, inst0.lastBallot);
    if Storable(inst.acks, ack) {
      OnlyNewBallot(inst.acks, ack);
    } else {
      assert !MajorityAt(inst.acks, Update(inst, ack).lastBallot);
    }
  }

  /** Testing only the last stored ballot is exact: an instance is open exactly while no ballot has ever been
      held by a majority of its stored acks, and it closes on the first one that is. */
  lemma {:induction false} QuorumTestExact(acceptors: nat, msgs: seq<Fields>)
    ensures Feed(acceptors, msgs).final.None? ==>
              NeverMajority(acceptors, msgs) && Feed(acceptors, msgs).acks == StoreAll(acceptors, msgs)
    ensures Feed(acceptors, msgs).final.Some? ==>
              exists k: nat, b: nat :: FirstMajority(acceptors, msgs, k, b, Feed(acceptors, msgs).final)
  {
    if msgs == [] {
      forall b: nat ensures !MajorityAt(StoreAll(acceptors, []), b) {
        CountNone(StoreAll(acceptors, []), b);
      }
      assert msgs[..0] == [];
    } else {
      var n := |msgs| - 1;
      var before := msgs[..n];
      var inst := Feed(acceptors, before);
      QuorumTestExact(acceptors, before);
      hide StoreAll, NoMajority;
      if inst.final.Some? {
        var k: nat, b: nat :| FirstMajority(acceptors, before, k, b, inst.final);
        assert forall j :: 0 <= j <= k ==> before[..j] == msgs[..j];
        assert FirstMajority(acceptors, msgs, k, b, Feed(acceptors, msgs).final);
      } else {
        StepFrom(acceptors, msgs);
      }
    }
  }

  lemma StepFrom(acceptors: nat, msgs: seq<Fields>)
    requires msgs != []
    requires var before := msgs[..|msgs| - 1];
             && Feed(acceptors, before).final.None? && NeverMajority(acceptors, before)
             && Feed(acceptors, before).acks == StoreAll(acceptors, before)
    ensures Feed(acceptors, msgs).final.None? ==>
              NeverMajority(acceptors, msgs) && Feed(acceptors, msgs).acks == StoreAll(acceptors, msgs)
    ensures Feed(acceptors, msgs).final.Some? ==>
              exists k: nat, b: nat :: FirstMajority(acceptors, msgs, k, b, Feed(acceptors, msgs).final)
  {
    hide StoreAll, StoreAck, Feed, Update, Test, NoMajority, MajorityAt, Holds;
    var n := |msgs| - 1;
    var before := msgs[..n];
    assert before[..n] == before;
    assert NoMajority(StoreAll(acceptors, before[..n]));
    StepOpen(Feed(acceptors, before), msgs[n]);
    OneMore(acceptors, msgs);
    assert forall j :: 0 <= j <= n ==> before[..j] == msgs[..j];
    assert msgs[..n + 1] == msgs;
    if Feed(acceptors, msgs).final.Some? {
      assert FirstMajority(acceptors, msgs, n + 1, msgs[n].ballot, Feed(acceptors, msgs).final);
    }
  }

  lemma OneMore(acceptors: nat, msgs: seq<Fields>)
    requires msgs != []
    ensures var before, f := msgs[..|msgs| - 1], msgs[|msgs| - 1];
            && StoreAll(acceptors, msgs) == StoreAck(StoreAll(acceptors, before), f)
            && Feed(acceptors, msgs) == Test(Update(Feed(acceptors, before), f))
  {
  }

  /** Once closed, the final value never changes. */
  lemma {:induction false} FinalIsStable(acceptors: nat, msgs: seq<Fields>, k: nat)
    requires k <= |msgs| && Feed(acceptors, msgs[..k]).final.Some?
    ensures Feed(acceptors, msgs).final == Feed(acceptors, msgs[..k]).final
  {
    if k == |msgs| {
      assert msgs[..k] == msgs;
    } else {
      var before := msgs[..|msgs| - 1];
      assert before[..k] == msgs[..k];
      FinalIsStable(acceptors, before, k);
    }
  }

  /** Acks at one ballot from a quorum of acceptors, in any order, close the instance with one of them. */
  lemma QuorumCloses(acceptors: nat, msgs: seq<Fields>, b: nat, q: set<nat>)
    requires forall x :: 0 <= x < |msgs| ==> msgs[x].ballot == b
    requires QuorumSize(acceptors) <= |q| && forall a :: a in q ==> a < acceptors && exists x :: 0 <= x < |msgs| && msgs[x].aid == a
    ensures Feed(acceptors, msgs).final.Some? && Feed(acceptors, msgs).final.value in msgs
  {
    var stored := StoreAll(acceptors, msgs);
    forall a | a in q ensures a in Holders(stored, b) {
      StoredIsNewest(acceptors, msgs, a);
    }
    SubsetSize(q, Holders(stored, b));
    HoldersCount(stored, b);
    QuorumTestExact(acceptors, msgs);
    assert msgs[..|msgs|] == msgs;
    assert MajorityAt(stored, b);
    hide Feed, StoreAll, MajorityAt, Holders;
    var final := Feed(acceptors, msgs).final;
    assert final.Some?;
    var k: nat, c: nat :| FirstMajority(acceptors, msgs, k, c, final);
    var a: nat :| a < acceptors && StoreAll(acceptors, msgs[..k])[a] == final;
    StoredIsNewest(acceptors, msgs[..k], a);
  }

  // ---------- Holes ----------

  datatype Call = Receive(ack: Fields) | Deliver

  function Apply(s: State, c: Call): State {
    match c
    case Receive(ack) => ReceiveAccepted(s, ack)
    case Deliver => DeliverNext(s).0
  }

  function RunFrom(s: State, calls: seq<Call>): State {
    if calls == [] then s else Apply(RunFrom(s, calls[..|calls| - 1]), calls[|calls| - 1])
  }

  function Receives(msgs: seq<Fields>): (calls: seq<Call>)
    ensures |calls| == |msgs|
  {
    seq(|msgs|, x requires 0 <= x < |msgs| => Receive(msgs[x]))
  }

  /** A new learner given acks for one instance keeps exactly that instance. */
  lemma {:induction false} FeedsOne(acceptors: nat, catchUp: bool, i: nat, msgs: seq<Fields>)
    requires 0 < i && msgs != [] && forall x :: 0 <= x < |msgs| ==> msgs[x].iid == i
    ensures var s := RunFrom(Initial(acceptors, catchUp), Receives(msgs));
            && s.instances == map[i := Feed(acceptors, msgs)] && s.acceptors == acceptors
            && !s.lateStart && s.current == if catchUp then 1 else i
  {
    var k, start := |msgs| - 1, Initial(acceptors, catchUp);
    assert Receives(msgs)[..k] == Receives(msgs[..k]) && Receives(msgs)[k] == Receive(msgs[k]);
    LastReceived(start, msgs);
    OneMore(acceptors, msgs);
    if k == 0 {
      assert msgs[..0] == [];
      FirstAck(acceptors, catchUp, msgs[0]);
    } else {
      hide Feed, RunFrom, Receives;
      FeedsOne(acceptors, catchUp, i, msgs[..k]);
      NextAck(RunFrom(start, Receives(msgs[..k])), i, msgs[k]);
    }
  }

  lemma LastReceived(s: State, msgs: seq<Fields>)
    requires msgs != []
    ensures RunFrom(s, Receives(msgs)) == ReceiveAccepted(RunFrom(s, Receives(msgs[..|msgs| - 1])), msgs[|msgs| - 1])
  {
    var k := |msgs| - 1;
    assert Receives(msgs)[..k] == Receives(msgs[..k]);
  }

  lemma FirstAck(acceptors: nat, catchUp: bool, f: Fields)
    requires 0 < f.iid
    ensures var s := ReceiveAccepted(Initial(acceptors, catchUp), f);
            && s.instances == map[f.iid := Test(Update(NewInstance(acceptors), f))] && s.acceptors == acceptors
            && !s.lateStart && s.current == if catchUp then 1 else f.iid
  {
    hide Update, Test;
  }

  lemma NextAck(s: State, i: nat, f: Fields)
    requires !s.lateStart && s.current <= i && f.iid == i && i in s.instances && s.instances == map[i := s.instances[i]]
    ensures var s' := ReceiveAccepted(s, f);
            && s'.instances == map[i := Test(Update(s.instances[i], f))] && s'.acceptors == s.acceptors
            && !s'.lateStart && s'.current == s.current
  {
    hide Update, Test;
    var inst := Test(Update(s.instances[i], f));
    assert s.instances[i := inst] == map[i := inst];
  }

  /** How a learner may start: as created, or, with catch-up on, moved to an instance id before the first ack. */
  ghost predicate Starts(s: State) {
    || (exists n, catchUp :: s == Initial(n, catchUp))
    || (exists n, iid :: s == SetInstanceId(Initial(n, true), iid))
  }

  ghost predicate ClosedHere(s: State, i: nat) {
    i in s.instances && s.instances[i].final.Some?
  }

  ghost predicate InstancesOk(s: State) {
    forall i :: i in s.instances ==>
      s.current <= i && s.instances[i].iid == i && (s.instances[i].final.None? ==> NoMajority(s.instances[i].acks))
  }

  /** From a learner whose `highest` was `h0` at the start: `highest` is still `h0`, or is the largest closed instance,
      or is at or below the current one. */
  ghost predicate HighestOk(s: State, h0: nat) {
    && (forall i: nat :: ClosedHere(s, i) ==> i <= s.highest)
    && h0 <= s.highest
    && (s.highest == h0 || s.highest <= s.current || ClosedHere(s, s.highest))
    && (s.lateStart ==> s.instances == map[] && s.highest == h0)
  }

  lemma ReceiveKeeps(s: State, ack: Fields, h0: nat)
    requires InstancesOk(s) && HighestOk(s, h0)
    ensures InstancesOk(ReceiveAccepted(s, ack)) && HighestOk(ReceiveAccepted(s, ack), h0)
  {
    hide NoMajority, Update, Test;
    var s1 := if s.lateStart then s.(lateStart := false, current := ack.iid) else s;
    if s1.current <= ack.iid {
      var inst := InstanceOf(s1, ack.iid);
      NewOpen(s1.acceptors);
      UpdateIid(inst, ack);
      if inst.final.None? {
        StepOpen(inst, ack);
      }
      var s' := ReceiveAccepted(s, ack);
      assert forall i :: i in s1.instances && i != ack.iid ==> s'.instances[i] == s1.instances[i];
      assert ClosedHere(s1, s1.highest) ==> ClosedHere(s', s1.highest);
      assert forall i: nat :: ClosedHere(s', i) && i != ack.iid ==> ClosedHere(s1, i);
    }
  }

  lemma NewOpen(acceptors: nat)
    ensures NoMajority(NewInstance(acceptors).acks)
  {
    forall b: nat ensures !MajorityAt(NewInstance(acceptors).acks, b) {
      CountNone(NewInstance(acceptors).acks, b);
    }
  }

  lemma UpdateIid(inst: Instance, ack: Fields)
    ensures Test(Update(inst, ack)).iid == if inst.iid == 0 then ack.iid else inst.iid
    ensures inst.final.Some? ==> Test(Update(inst, ack)).final == inst.final
  {
  }

  lemma DeliverKeeps(s: State, h0: nat)
    requires InstancesOk(s) && HighestOk(s, h0)
    ensures InstancesOk(DeliverNext(s).0) && HighestOk(DeliverNext(s).0, h0)
  {
    var s' := DeliverNext(s).0;
    assert forall i: nat :: ClosedHere(s', i) ==> ClosedHere(s, i);
    assert ClosedHere(s, s.highest) && s.highest != s.current ==> ClosedHere(s', s.highest);
  }

  lemma {:induction false} RunKeeps(s: State, calls: seq<Call>)
    requires s.instances == map[]
    ensures InstancesOk(RunFrom(s, calls)) && HighestOk(RunFrom(s, calls), s.highest)
  {
    if calls != [] {
      var before, c := calls[..|calls| - 1], calls[|calls| - 1];
      RunKeeps(s, before);
      match c
      case Receive(ack) => ReceiveKeeps(RunFrom(s, before), ack, s.highest);
      case Deliver => DeliverKeeps(RunFrom(s, before), s.highest);
    }
  }

  /** The current instance is delivered exactly when it is closed, and with its final value. */
  lemma DeliversWhenClosed(start: State, calls: seq<Call>)
    requires start.instances == map[]
    ensures var s := RunFrom(start, calls);
            && (DeliverNext(s).1.Some? <==> ClosedHere(s, s.current))
            && (ClosedHere(s, s.current) ==> DeliverNext(s).1 == s.instances[s.current].final
                                             && DeliverNext(s).0.current == s.current + 1
                                             && DeliverNext(s).0.instances == s.instances - {s.current})
  {
    RunKeeps(start, calls);
    var s := RunFrom(start, calls);
    if s.current in s.instances && s.instances[s.current].final.None? {
      assert !MajorityAt(s.instances[s.current].acks, s.instances[s.current].lastBallot);
    }
  }

  // ---------- Order of deliveries ----------

  function Deliveries(s: State, calls: seq<Call>): seq<Fields> {
    if calls == [] then []
    else
      var before := calls[..|calls| - 1];
      var out := DeliverNext(RunFrom(s, before)).1;
      Deliveries(s, before) + if calls[|calls| - 1].Deliver? && out.Some? then [out.value] else []
  }

  ghost predicate OwnAcks(inst: Instance, i: nat) {
    && (forall a :: 0 <= a < |inst.acks| && inst.acks[a].Some? ==> inst.acks[a].value.iid == i)
    && (inst.final.Some? ==> inst.final.value.iid == i)
  }

  ghost predicate AllOwn(s: State) {
    forall i :: i in s.instances ==> OwnAcks(s.instances[i], i)
  }

  lemma TestOwn(inst: Instance, i: nat)
    requires OwnAcks(inst, i)
    ensures OwnAcks(Test(inst), i)
  {
  }

  lemma UpdateOwn(inst: Instance, ack: Fields)
    requires OwnAcks(inst, ack.iid)
    ensures OwnAcks(Test(Update(inst, ack)), ack.iid)
  {
    hide MajorityAt, LastIndex;
    TestOwn(if inst.iid == 0 then inst.(iid := ack.iid, lastBallot := ack.ballot) else inst, ack.iid);
    TestOwn(Update(inst, ack), ack.iid);
  }

  /** A learner told where to start, or started with catch-up, delivers exactly the consecutive instances from there,
      whatever arrives in whatever order. */
  lemma {:induction false} DeliversInOrder(start: State, calls: seq<Call>)
    requires !start.lateStart && start.instances == map[]
    ensures var s, out := RunFrom(start, calls), Deliveries(start, calls);
            && !s.lateStart && AllOwn(s) && s.current == start.current + |out|
            && forall x :: 0 <= x < |out| ==> out[x].iid == start.current + x
  {
    if calls != [] {
      var before, c := calls[..|calls| - 1], calls[|calls| - 1];
      DeliversInOrder(start, before);
      var s := RunFrom(start, before);
      hide Update, Test, OwnAcks;
      match c
      case Receive(ack) =>
        NewOwn(s.acceptors, ack.iid);
        UpdateOwn(InstanceOf(s, ack.iid), ack);
      case Deliver =>
        if s.current in s.instances {
          TestOwn(s.instances[s.current], s.current);
          OwnFinal(Test(s.instances[s.current]), s.current);
        }
    }
  }

  lemma NewOwn(acceptors: nat, i: nat)
    ensures OwnAcks(NewInstance(acceptors), i)
  {
  }

  lemma OwnFinal(inst: Instance, i: nat)
    requires OwnAcks(inst, i)
    ensures inst.final.Some? ==> inst.final.value.iid == i
  {
  }

  /** From any start without instances, once delivery is drained: a hole is reported exactly when a later instance is
      closed or the current one is still below the `highest` of the start, and the reported range goes from the current
      instance to the largest closed one, or to that `highest`. */
  lemma HolesFrom(start: State, calls: seq<Call>)
    requires start.instances == map[] && DeliverNext(RunFrom(start, calls)).1.None?
    ensures var s := RunFrom(start, calls);
            && (HasHoles(s).Some? <==> s.current < start.highest || exists i: nat :: ClosedHere(s, i) && s.current < i)
            && (HasHoles(s).Some? ==>
                  && HasHoles(s).value.0 == s.current
                  && (HasHoles(s).value.1 == start.highest || ClosedHere(s, HasHoles(s).value.1))
                  && (forall i: nat :: ClosedHere(s, i) ==> i <= HasHoles(s).value.1))
  {
    RunKeeps(start, calls);
    var s := RunFrom(start, calls);
    hide RunFrom, NoMajority;
    if s.current < s.highest && start.highest <= s.current {
      assert ClosedHere(s, s.highest);
    }
  }

  lemma {:induction false} CurrentGrows(start: State, calls: seq<Call>)
    requires !start.lateStart
    ensures start.current <= RunFrom(start, calls).current && !RunFrom(start, calls).lateStart
  {
    if calls != [] {
      CurrentGrows(start, calls[..|calls| - 1]);
    }
  }

  /** So, except for a learner without catch-up that was moved, holes are reported exactly when a later instance is
      closed, and the range goes from the current instance to the largest closed one. The one exception is a learner without
      catch-up whose first ack was for instance 0, which no proposer opens: until it has delivered that, it always reports one. */
  lemma HolesExact(start: State, calls: seq<Call>)
    requires Starts(start) && DeliverNext(RunFrom(start, calls)).1.None?
    ensures var s := RunFrom(start, calls);
            0 < s.current ==>
              && (HasHoles(s).Some? <==> exists i: nat :: ClosedHere(s, i) && s.current < i)
              && (HasHoles(s).Some? ==> HasHoles(s).value.0 == s.current && ClosedHere(s, HasHoles(s).value.1)
                                        && forall i: nat :: ClosedHere(s, i) ==> i <= HasHoles(s).value.1)
    ensures var s := RunFrom(start, calls); s.current == 0 ==> HasHoles(s).Some?
  {
    HolesFrom(start, calls);
    if !start.lateStart {
      CurrentGrows(start, calls);
    }
    hide RunFrom;
  }
}
