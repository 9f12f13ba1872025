/** The learner (paxos/learner.c), without its gap recovery. */
module Learner {
  import opened Types
  import opened KHash
  import Spec = LearnerSpec

  /** instance_has_quorum: count the acks that agree with the last stored one. */
  method HasQuorum(inst: Spec.Instance) returns (inst': Spec.Instance, yes: bool)
    ensures inst' == Spec.Test(inst) && (yes <==> inst'.final.Some?)
  {
    inst' := inst;
    if inst.final.Some? {
      return inst, true;
    }
    var i, count, validIndex := 0, 0, 0;
    while i < |inst.acks|
      invariant 0 <= i <= |inst.acks|
      invariant count == Spec.Count(inst.acks[..i], inst.lastBallot)
      invariant 0 < count ==> validIndex == Spec.LastIndex(inst.acks[..i], inst.lastBallot)
    {
      assert inst.acks[..i + 1][..i] == inst.acks[..i];
      var ack := inst.acks[i];
      if ack.Some? && ack.value.ballot == inst.lastBallot {
        count := count + 1;
        validIndex := i;
      }
      i := i + 1;
    }
    assert inst.acks[..i] == inst.acks;
    yes := QuorumSize(|inst.acks|) <= count;
    if yes {
      inst' := inst.(final := inst.acks[validIndex]);
    }
  }

  /** instance_update with instance_add_accept */
  method Update(inst: Spec.Instance, ack: Fields) returns (inst': Spec.Instance)
    ensures inst' == Spec.Update(inst, ack)
  {
    inst' := inst;
    if inst'.iid == 0 {
      inst' := inst'.(iid := ack.iid, lastBallot := ack.ballot);
    }
    var closed;
    inst', closed := HasQuorum(inst');
    if closed || |inst'.acks| <= ack.aid {
      return;
    }
    var prev := inst'.acks[ack.aid];
    if prev.Some? && ack.ballot <= prev.value.ballot {
      return;
    }
    inst' := inst'.(acks := inst'.acks[ack.aid := Some(ack)], lastBallot := ack.ballot);
  }

  class LearnerRole {
    const acceptors: nat
    var lateStart: bool
    var currentIid: nat
    var highestIidClosed: nat
    const instances: Table<Spec.Instance>
    ghost var Repr: set<object>

    ghost predicate Valid()
      reads this, Repr
      ensures Valid() ==> this in Repr && instances in Repr
    {
      && this in Repr
      && instances in Repr && instances.Repr <= Repr && this !in instances.Repr
      && instances.Valid()
      && (forall k :: k in instances.Map ==> instances.Map[k].iid == k)
    }

    ghost function State(): Spec.State
      requires Valid()
      reads this, Repr
    {
      Spec.State(acceptors, lateStart, currentIid, highestIidClosed, instances.Map)
    }

    /** learner_new */
    constructor (acceptors: nat, catchUp: bool)
      ensures Valid() && fresh(Repr) && State() == Spec.Initial(acceptors, catchUp)
    {
      this.acceptors := acceptors;
      currentIid := 1;
      highestIidClosed := 1;
      lateStart := !catchUp;
      instances := new Table<Spec.Instance>();
      new;
      Repr := {this} + instances.Repr;
    }

    /** learner_set_instance_id */
    method SetInstanceId(iid: nat)
      requires Valid()
      modifies this`currentIid, this`highestIidClosed
      ensures Valid() && State() == Spec.SetInstanceId(old(State()), iid)
    {
      hide Table.Valid;
      currentIid := iid + 1;
      highestIidClosed := iid;
    }

    /** learner_get_instance_or_create */
    method GetOrCreate(iid: nat) returns (k: nat, inst: Spec.Instance)
      requires Valid()
      modifies Repr
      ensures instances.Valid() && instances.Repr <= Repr && this in Repr && instances in Repr && this !in instances.Repr
      ensures fresh(Repr - old(Repr)) && unchanged(this`lateStart, this`currentIid, this`highestIidClosed)
      ensures inst == Spec.InstanceOf(old(State()), iid)
      ensures iid in instances.Map && instances.Map == old(instances.Map)[iid := instances.Map[iid]]
      ensures k < instances.nBuckets && instances.flags[k] == Live && instances.keys[k] == iid
    {
      hide Table.Valid;
      k := instances.Get(iid);
      if k == instances.nBuckets {
        var rv;
        k, rv := instances.Put(iid, true);
        Repr := Repr + instances.Repr;
        inst := Spec.NewInstance(acceptors);
      } else {
        inst := instances.vals[k];
      }
    }

    /** learner_receive_accepted */
    method ReceiveAccepted(ack: Fields)
      requires Valid()
      modifies Repr
      ensures Valid() && fresh(Repr - old(Repr))
      ensures State() == Spec.ReceiveAccepted(old(State()), ack)
    {
      hide Table.Valid, Spec.Update, Spec.Test;
      if lateStart {
        lateStart := false;
        currentIid := ack.iid;
      }
      if ack.iid < currentIid {
        return;
      }
      hide Valid;
      Learn(ack);
    }

    /** The part of learner_receive_accepted for an instance not yet delivered. */
    method Learn(ack: Fields)
      requires Valid() && !lateStart && currentIid <= ack.iid
      modifies Repr
      ensures Valid() && fresh(Repr - old(Repr))
      ensures State() == Spec.ReceiveAccepted(old(State()), ack)
    {
      hide Table.Valid, Spec.Update, Spec.Test;
      var inst := StoreAck(ack);
      if inst.final.Some? && highestIidClosed < inst.iid {
        highestIidClosed := inst.iid;
      }
    }

    /** Look the instance up, update it, test it, and write it back. */
    method StoreAck(ack: Fields) returns (inst: Spec.Instance)
      requires Valid()
      modifies Repr
      ensures Valid() && fresh(Repr - old(Repr))
      ensures inst == Spec.Test(Spec.Update(Spec.InstanceOf(old(State()), ack.iid), ack))
      ensures State() == old(State()).(instances := old(State()).instances[ack.iid := inst])
    {
      hide Table.Valid, Spec.Update, Spec.Test;
      ghost var m := instances.Map;
      IidKept(Spec.InstanceOf(State(), ack.iid), ack);
      var k;
      k, inst := GetOrCreate(ack.iid);
      inst := Update(inst, ack);
      var closed;
      inst, closed := HasQuorum(inst);
      Overwrite(m, ack.iid, instances.Map[ack.iid], inst);
      instances.Assign(k, inst);
    }

    static lemma IidKept(inst: Spec.Instance, ack: Fields)
      ensures Spec.Test(Spec.Update(inst, ack)).iid == if inst.iid == 0 then ack.iid else inst.iid
    {
    }

    /** learner_receive_chosen */
    method ReceiveChosen(ack: Fields)
      requires Valid()
      modifies Repr
      ensures Valid() && fresh(Repr - old(Repr))
      ensures State() == Spec.ReceiveChosen(old(State()), ack)
    {
      hide Table.Valid, Spec.Update, Spec.Test;
      if ack.iid < currentIid {
        return;
      }
      var inst := Update(Spec.NewInstance(acceptors), ack.(aid := 1));
      inst := Update(inst, ack.(aid := 2));
      var closed;
      inst, closed := HasQuorum(inst);
      NoticeIid(acceptors, ack);
      var rv := instances.Enter(ack.iid, inst, true);
      Repr := Repr + instances.Repr;
      if closed && highestIidClosed < inst.iid {
        highestIidClosed := inst.iid;
      }
    }

    static lemma NoticeIid(n: nat, ack: Fields)
      ensures Spec.Test(Spec.Update(Spec.Update(Spec.NewInstance(n), ack.(aid := 1)), ack.(aid := 2))).iid == ack.iid
    {
      hide Spec.MajorityAt, Spec.LastIndex;
    }

    /** learner_deliver_next; the id of the delivered instance is kept aside before the instance is freed. */
    method DeliverNext() returns (out: Option<Fields>)
      requires Valid()
      modifies Repr
      ensures Valid() && Repr == old(Repr)
      ensures (State(), out) == Spec.DeliverNext(old(State()))
    {
      hide Table.Valid, Spec.Test;
      var k := instances.Get(currentIid);
      if k == instances.nBuckets {
        return None;
      }
      var inst, closed := HasQuorum(instances.vals[k]);
      if !closed {
        return None;
      }
      instances.Delete(k);
      currentIid := currentIid + 1;
      out := inst.final;
    }

    /** learner_has_holes */
    method HasHoles() returns (range: Option<(nat, nat)>)
      requires Valid()
      ensures range == Spec.HasHoles(State())
    {
      range := if currentIid < highestIidClosed then Some((currentIid, highestIidClosed)) else None;
    }
  }
}
