/** The proposer (paxos/proposer.c) over two hash tables and a ring buffer. */
module Proposer {
  import opened Types
  import opened KHash
  import opened CArray
  import opened Spec = ProposerSpec

  /** Every instance sits under its own id, above 0. */
  ghost predicate KeyedByIid(m: Instances, next: nat) {
    forall k :: k in m ==> m[k].iid == k && 0 < k <= next
  }

  /** Every instance in phase two has a value to send. */
  ghost predicate AllReady(m: Instances) {
    forall k :: k in m ==> HasSomeValue(m[k])
  }

  lemma KeyedAfterRemove(m: Instances, other: Instances, k: nat, next: nat)
    requires m.Keys !! other.Keys && KeyedByIid(m, next)
    ensures (m - {k}).Keys !! other.Keys && other.Keys !! (m - {k}).Keys && KeyedByIid(m - {k}, next) && (AllReady(m) ==> AllReady(m - {k}))
  {
  }

  lemma KeyedAfterTrim(m: Instances, other: Instances, iid: nat, next: nat)
    requires m.Keys !! other.Keys && KeyedByIid(m, next)
    ensures After(m, iid).Keys !! other.Keys && KeyedByIid(After(m, iid), next) && (AllReady(m) ==> AllReady(After(m, iid)))
  {
  }

  // ---------- The order in which a walk over a table meets client values ----------

  /** The client value a trim at `iid` gives back at bucket `k` of a table that keeps `m` at the buckets `loc`. */
  ghost function ValueAt(m: Instances, loc: map<nat, nat>, iid: nat, k: nat): seq<Value>
    requires m.Keys == loc.Keys
  {
    if exists x :: x in loc && loc[x] == k then
      var x :| x in loc && loc[x] == k;
      if m[x].iid <= iid && m[x].value.Some? then [m[x].value.value] else []
    else []
  }

  /** What it gives back before bucket `k`, in bucket order. */
  ghost function InBucketOrder(m: Instances, loc: map<nat, nat>, iid: nat, k: nat): seq<Value>
    requires m.Keys == loc.Keys
  {
    if k == 0 then [] else InBucketOrder(m, loc, iid, k - 1) + ValueAt(m, loc, iid, k - 1)
  }

  lemma ValueAtKey(m: Instances, loc: map<nat, nat>, iid: nat, k: nat, key: nat)
    requires m.Keys == loc.Keys && forall x :: x in loc && loc[x] == k ==> x == key
    ensures ValueAt(m, loc, iid, k) ==
              if key in loc && loc[key] == k && m[key].iid <= iid && m[key].value.Some? then [m[key].value.value] else []
  {
  }

  /** A walk up to bucket `k` that trims at `iid` has left `cur` of `m`. */
  ghost predicate Trimmed(cur: Instances, curLoc: map<nat, nat>, m: Instances, loc: map<nat, nat>, iid: nat, k: nat, returned: seq<Value>) {
    && m.Keys == loc.Keys
    && cur == m - Passed(UpTo(m, iid).Keys, loc, k)
    && curLoc == loc - Passed(UpTo(m, iid).Keys, loc, k)
    && multiset(returned) == Pending(Restrict(m, Passed(UpTo(m, iid).Keys, loc, k)))
    && returned == InBucketOrder(m, loc, iid, k)
  }

  lemma TrimmedStep(cur: Instances, curLoc: map<nat, nat>, m: Instances, loc: map<nat, nat>, iid: nat, k: nat, returned: seq<Value>,
                    key: nat, dead: bool, gave: seq<Value>)
    requires Trimmed(cur, curLoc, m, loc, iid, k, returned) && forall x :: x in loc && loc[x] == k ==> x == key
    requires dead <==> key in loc && loc[key] == k && m[key].iid <= iid
    requires gave == if dead && m[key].value.Some? then [m[key].value.value] else []
    ensures Trimmed(if dead then cur - {key} else cur, if dead then curLoc - {key} else curLoc, m, loc, iid, k + 1, returned + gave)
  {
    hide Passed, Restrict, Pending;
    var drop := UpTo(m, iid).Keys;
    PassedStep(m, drop, loc, k, key);
    PassedStep(loc, drop, loc, k, key);
    ValueAtKey(m, loc, iid, k, key);
    hide ValueAt;
    if dead {
      PendingUpdate(Restrict(m, Passed(drop, loc, k)), key, m[key]);
      assert multiset(gave) == Carried(m[key]);
    }
    assert multiset(returned + gave) == multiset(returned) + multiset(gave);
  }

  class ProposerRole {
    const id: nat
    const acceptors: nat
    const values: Ring<Value>
    var maxTrimIid: nat
    var nextPrepareIid: nat
    const prepareInstances: Table<Instance>
    const acceptInstances: Table<Instance>
    ghost var Repr: set<object>

    /** The parts are valid and share no memory. */
    ghost predicate Separated()
      reads this, Repr
    {
      && this in Repr && values in Repr && prepareInstances in Repr && acceptInstances in Repr
      && values.cells in Repr && prepareInstances.Repr <= Repr && acceptInstances.Repr <= Repr
      && prepareInstances.Repr !! acceptInstances.Repr
      && {this, values, values.cells} !! prepareInstances.Repr
      && {this, values, values.cells} !! acceptInstances.Repr
      && values.Valid() && prepareInstances.Valid() && acceptInstances.Valid()
    }

    ghost predicate Valid()
      reads this, Repr
      ensures Valid() ==> this in Repr && values in Repr && values.cells in Repr && values.Valid()
      ensures Valid() ==> prepareInstances in Repr && acceptInstances in Repr
    {
      && Separated()
      && prepareInstances.Map.Keys !! acceptInstances.Map.Keys
      && KeyedByIid(prepareInstances.Map, nextPrepareIid)
      && KeyedByIid(acceptInstances.Map, nextPrepareIid)
      && AllReady(acceptInstances.Map)
    }

    ghost function State(): (s: Spec.State)
      requires Valid()
      reads this, Repr
      ensures s.id == id && s.acceptors == acceptors && s.queue == values.Contents()
      ensures s.maxTrim == maxTrimIid && s.next == nextPrepareIid
      ensures s.preparing == prepareInstances.Map && s.accepting == acceptInstances.Map
      ensures s.preparing.Keys !! s.accepting.Keys && KeyedByIid(s.preparing, s.next) && KeyedByIid(s.accepting, s.next)
      ensures AllReady(s.accepting)
    {
      Spec.State(id, acceptors, values.Contents(), maxTrimIid, nextPrepareIid, prepareInstances.Map, acceptInstances.Map)
    }

    /** The allocations of proposer_new. */
    static method NewParts() returns (v: Ring<Value>, p: Table<Instance>, a: Table<Instance>)
      ensures fresh(v) && fresh(v.cells) && fresh(p.Repr) && fresh(a.Repr)
      ensures p.Repr !! a.Repr && {v, v.cells} !! p.Repr && {v, v.cells} !! a.Repr
      ensures v.Valid() && p.Valid() && a.Valid()
      ensures v.Contents() == [] && p.Map == map[] && a.Map == map[]
    {
      hide Table.Valid, Ring.Valid, Ring.Contents;
      v := new Ring<Value>(128);
      p := new Table<Instance>();
      a := new Table<Instance>();
    }

    /** proposer_new */
    constructor (id: nat, acceptors: nat)
      ensures Valid() && fresh(Repr) && State() == Spec.Initial(id, acceptors)
    {
      hide Table.Valid, Ring.Valid, Ring.Contents;
      this.id := id;
      this.acceptors := acceptors;
      maxTrimIid := 0;
      nextPrepareIid := 0;
      var v, p, a := NewParts();
      values, prepareInstances, acceptInstances := v, p, a;
      Repr := {this, v, v.cells} + p.Repr + a.Repr;
    }

    // ---------- Changes of one part ----------

    /** kh_put and assignment of the value; the source asserts that the key is new. */
    method InsertPreparing(inst: Instance)
      requires Valid() && 0 < inst.iid <= nextPrepareIid
      requires inst.iid !in prepareInstances.Map && inst.iid !in acceptInstances.Map
      modifies Repr
      ensures Valid() && fresh(Repr - old(Repr))
      ensures State() == old(State()).(preparing := old(State()).preparing[inst.iid := inst])
    {
      hide Table.Valid, Ring.Valid, Ring.Contents;
      var rv := prepareInstances.Enter(inst.iid, inst, true);
      assert 0 < rv;
      Repr := Repr + prepareInstances.Repr;
    }

    method InsertAccepting(inst: Instance)
      requires Valid() && 0 < inst.iid <= nextPrepareIid && HasSomeValue(inst)
      requires inst.iid !in prepareInstances.Map && inst.iid !in acceptInstances.Map
      modifies Repr
      ensures Valid() && fresh(Repr - old(Repr))
      ensures State() == old(State()).(accepting := old(State()).accepting[inst.iid := inst])
    {
      hide Table.Valid, Ring.Valid, Ring.Contents;
      var rv := acceptInstances.Enter(inst.iid, inst, true);
      assert 0 < rv;
      Repr := Repr + acceptInstances.Repr;
    }

    /** An update of the instance in bucket `k`, which the source makes by reference. */
    method SetPreparing(k: nat, inst: Instance)
      requires Valid() && k < prepareInstances.nBuckets
      requires prepareInstances.flags[k] == Live && prepareInstances.keys[k] == inst.iid && inst.iid in prepareInstances.Map
      modifies Repr
      ensures Valid() && Repr == old(Repr)
      ensures State() == old(State()).(preparing := old(State()).preparing[inst.iid := inst])
      ensures prepareInstances.nBuckets == old(prepareInstances.nBuckets) && prepareInstances.Loc == old(prepareInstances.Loc)
      ensures acceptInstances.nBuckets == old(acceptInstances.nBuckets)
    {
      hide Table.Valid, Ring.Valid, Ring.Contents;
      prepareInstances.Assign(k, inst);
    }

    method SetAccepting(k: nat, inst: Instance)
      requires Valid() && k < acceptInstances.nBuckets
      requires acceptInstances.flags[k] == Live && acceptInstances.keys[k] == inst.iid && inst.iid in acceptInstances.Map
      requires HasSomeValue(inst)
      modifies Repr
      ensures Valid() && Repr == old(Repr)
      ensures acceptInstances.nBuckets == old(acceptInstances.nBuckets) && acceptInstances.Loc == old(acceptInstances.Loc)
      ensures prepareInstances.nBuckets == old(prepareInstances.nBuckets)
      ensures State() == old(State()).(accepting := old(State()).accepting[inst.iid := inst])
    {
      hide Table.Valid, Ring.Valid, Ring.Contents;
      acceptInstances.Assign(k, inst);
    }

    method RemovePreparing(k: nat, iid: nat)
      requires Valid() && k < prepareInstances.nBuckets && prepareInstances.flags[k] == Live && prepareInstances.keys[k] == iid
      modifies Repr
      ensures Valid() && Repr == old(Repr)
      ensures State() == old(State()).(preparing := old(State()).preparing - {iid})
    {
      hide Table.Valid, Ring.Valid, Ring.Contents, KeyedByIid, AllReady;
      KeyedAfterRemove(prepareInstances.Map, acceptInstances.Map, iid, nextPrepareIid);
      prepareInstances.Delete(k);
    }

    method RemoveAccepting(k: nat, iid: nat)
      requires Valid() && k < acceptInstances.nBuckets && acceptInstances.flags[k] == Live && acceptInstances.keys[k] == iid
      modifies Repr
      ensures Valid() && Repr == old(Repr)
      ensures State() == old(State()).(accepting := old(State()).accepting - {iid})
    {
      hide Table.Valid, Ring.Valid, Ring.Contents, KeyedByIid, AllReady;
      KeyedAfterRemove(acceptInstances.Map, prepareInstances.Map, iid, nextPrepareIid);
      acceptInstances.Delete(k);
      assert Separated();
    }

    method PushValue(v: Value)
      requires Valid()
      modifies values, values.cells, this`Repr
      ensures Valid() && fresh(Repr - old(Repr)) && old(Repr) <= Repr
      ensures State() == old(State()).(queue := old(State()).queue + [v])
    {
      hide Table.Valid, Ring.Valid, Ring.Contents;
      values.PushBack(v);
      Repr := Repr + {values.cells};
    }

    method PopValue() returns (v: Option<Value>)
      requires Valid()
      modifies values
      ensures Valid()
      ensures v == if old(State()).queue == [] then None else Some(old(State()).queue[0])
      ensures State() == old(State()).(queue := if old(State()).queue == [] then [] else old(State()).queue[1..])
    {
      hide Table.Valid, Ring.Valid, Ring.Contents;
      v := values.PopFront();
    }

    // ---------- The interface ----------

    /** proposer_propose */
    method Propose(v: Value)
      requires Valid()
      modifies Repr
      ensures Valid() && fresh(Repr - old(Repr))
      ensures State() == Spec.Propose(old(State()), v)
    {
      hide ProposerRole.Valid, ProposerRole.State;
      PushValue(v);
    }

    /** proposer_prepared_count */
    method PreparedCount() returns (n: nat)
      requires Valid()
      ensures n == |State().preparing|
    {
      n := prepareInstances.size;
    }

    method SetNext(iid: nat)
      requires Valid() && nextPrepareIid <= iid
      modifies this`nextPrepareIid
      ensures Valid() && State() == old(State()).(next := iid)
    {
      hide Table.Valid, Ring.Valid, Ring.Contents;
      nextPrepareIid := iid;
    }

    /** proposer_prepare; the next id must not wrap to 0, as the source asserts. */
    method Prepare(now: int) returns (out: Message)
      requires Valid() && nextPrepareIid < 0xFFFF_FFFF
      modifies Repr
      ensures Valid() && fresh(Repr - old(Repr))
      ensures (State(), out) == Spec.OpenInstance(old(State()), now)
    {
      hide ProposerRole.Valid, ProposerRole.State, NextBallot;
      SetNext(nextPrepareIid + 1);
      var inst := NewInstance(nextPrepareIid, NextBallot(id, 0), now);
      InsertPreparing(inst);
      out := ToPrepare(inst);
    }

    /** proposer_receive_promise */
    method ReceivePromise(ack: Fields, now: int) returns (out: Option<Message>)
      requires Valid() && ack.aid < acceptors
      modifies Repr
      ensures Valid() && Repr == old(Repr)
      ensures (State(), out) == Spec.ReceivePromise(old(State()), ack, now)
    {
      hide ProposerRole.State, NextBallot, Table.Valid, Ring.Valid, Ring.Contents;
      var k := prepareInstances.Get(ack.iid);
      hide ProposerRole.Valid;
      if k == prepareInstances.nBuckets {
        return None;
      }
      var inst := prepareInstances.vals[k];
      if ack.ballot < inst.ballot {
        return None;
      }
      if inst.ballot < ack.ballot {
        inst := Preempt(id, inst, now);
        SetPreparing(k, inst);
        return Some(ToPrepare(inst));
      }
      if ack.aid in inst.acks {
        return None;
      }
      inst := inst.(acks := inst.acks + {ack.aid});
      if ack.value != [] {
        if inst.valueBallot < ack.valueBallot {
          inst := inst.(valueBallot := ack.valueBallot, promised := Some(ack.value));
        }
      }
      SetPreparing(k, inst);
      out := None;
    }

    /** The loop of proposer_accept: the bucket of the smallest open instance, or kh_end. */
    static method FindSmallest(h: Table<Instance>) returns (x: nat)
      requires h.Valid()
      ensures x <= h.nBuckets
      ensures x == h.nBuckets ==> h.Map == map[]
      ensures x < h.nBuckets ==> h.flags[x] == Live && h.keys[x] in h.Map && h.vals[x] == h.Map[h.keys[x]]
                                 && IsSmallest(h.Map, h.keys[x])
    {
      hide Table.Valid;
      x := h.nBuckets;
      var k := 0;
      while k != h.nBuckets
        invariant 0 <= k <= h.nBuckets && x <= h.nBuckets
        invariant x < h.nBuckets ==> x < k && h.flags[x] == Live
        invariant forall i :: 0 <= i < k && h.flags[i] == Live ==> x < h.nBuckets && h.vals[x].iid <= h.vals[i].iid
      {
        if h.flags[k] == Live {
          if x == h.nBuckets || h.vals[k].iid < h.vals[x].iid {
            x := k;
          }
        }
        k := k + 1;
      }
      SmallestBucket(h, x);
    }

    /** A bucket smallest among the live ones holds the smallest instance. */
    static lemma SmallestBucket(h: Table<Instance>, x: nat)
      requires h.Valid() && x <= h.nBuckets && (x < h.nBuckets ==> h.flags[x] == Live)
      requires forall i :: 0 <= i < h.nBuckets && h.flags[i] == Live ==> x < h.nBuckets && h.vals[x].iid <= h.vals[i].iid
      ensures x == h.nBuckets ==> h.Map == map[]
      ensures x < h.nBuckets ==> h.keys[x] in h.Map && h.vals[x] == h.Map[h.keys[x]] && IsSmallest(h.Map, h.keys[x])
    {
      hide Table.Valid;
      h.Bucketwise();
      forall j | j in h.Map ensures x < h.nBuckets && h.Map[h.keys[x]].iid <= h.Map[j].iid {
        assert h.flags[h.Loc[j]] == Live;
      }
    }

    /** proposer_accept; the ghost result is the smallest open instance. */
    method Accept() returns (out: Option<Message>, ghost k: Option<nat>)
      requires Valid()
      modifies Repr
      ensures Valid() && fresh(Repr - old(Repr))
      ensures IsSmallestOrNone(old(State()).preparing, k)
      ensures (State(), out) == Spec.AcceptNext(old(State()), k)
    {
      hide ProposerRole.State, Table.Valid, Ring.Valid, Ring.Contents;
      var x := FindSmallest(prepareInstances);
      hide ProposerRole.Valid, KeyedByIid;
      if x == prepareInstances.nBuckets {
        return None, None;
      }
      k := Some(prepareInstances.keys[x]);
      var inst := prepareInstances.vals[x];
      if |inst.acks| < QuorumSize(acceptors) {
        return None, k;
      }
      out := AcceptAt(x);
    }

    /** The part of proposer_accept after its instance was found to have a quorum of promises. */
    method AcceptAt(x: nat) returns (out: Option<Message>)
      requires Valid() && x < prepareInstances.nBuckets && prepareInstances.flags[x] == Live
      requires prepareInstances.keys[x] in prepareInstances.Map && prepareInstances.vals[x] == prepareInstances.Map[prepareInstances.keys[x]]
      requires Reached(prepareInstances.vals[x], acceptors)
      modifies Repr
      ensures Valid() && fresh(Repr - old(Repr))
      ensures (State(), out) == Spec.AcceptNext(old(State()), Some(old(prepareInstances.keys[x])))
    {
      hide ProposerRole.State, Table.Valid, Ring.Valid, Ring.Contents;
      var inst := prepareInstances.vals[x];
      assert inst.iid == prepareInstances.keys[x];
      hide ProposerRole.Valid, KeyedByIid;
      if inst.value.None? {
        var v := TakeValue(x);
        inst := inst.(value := v);
      }
      if inst.value.None? && inst.promised.None? {
        return None;
      }
      MoveToAccepting(x, inst);
      out := Some(ToAccept(inst));
    }

    /** PopValue leaves the tables alone. */
    method TakeValue(x: nat) returns (v: Option<Value>)
      requires Valid() && x < prepareInstances.nBuckets && prepareInstances.flags[x] == Live
      modifies values
      ensures Valid() && Repr == old(Repr)
      ensures v == if old(State()).queue == [] then None else Some(old(State()).queue[0])
      ensures State() == old(State()).(queue := if old(State()).queue == [] then [] else old(State()).queue[1..])
      ensures unchanged(prepareInstances) && prepareInstances.flags[x] == Live && prepareInstances.keys[x] == old(prepareInstances.keys[x])
    {
      hide ProposerRole.State, Table.Valid, Ring.Valid, Ring.Contents;
      v := PopValue();
    }

    /** proposer_move_instance towards phase two; the source asserts that the instance is in the first table
        and not in the second. */
    method MoveToAccepting(x: nat, inst: Instance)
      requires Valid() && x < prepareInstances.nBuckets && prepareInstances.flags[x] == Live
      requires prepareInstances.keys[x] == inst.iid && inst.iid in prepareInstances.Map && HasSomeValue(inst)
      modifies Repr
      ensures Valid() && fresh(Repr - old(Repr))
      ensures State() == old(State()).(preparing := old(State()).preparing - {inst.iid},
                                       accepting := old(State()).accepting[inst.iid := inst.(acks := {})])
    {
      hide ProposerRole.State, Table.Valid, Ring.Valid, Ring.Contents;
      assert 0 < inst.iid <= nextPrepareIid && inst.iid !in acceptInstances.Map;
      hide ProposerRole.Valid, KeyedByIid;
      RemovePreparing(x, inst.iid);
      InsertAccepting(inst.(acks := {}));
    }

    /** proposer_receive_accepted */
    method ReceiveAccepted(ack: Fields) returns (code: nat)
      requires Valid() && ack.aid < acceptors
      modifies Repr
      ensures Valid() && fresh(Repr - old(Repr))
      ensures (State(), code) == Spec.ReceiveAccepted(old(State()), ack)
    {
      hide ProposerRole.State, Table.Valid, Ring.Valid, Ring.Contents;
      var k := acceptInstances.Get(ack.iid);
      hide ProposerRole.Valid, KeyedByIid;
      if k == acceptInstances.nBuckets {
        return 0;
      }
      var inst := acceptInstances.vals[k];
      if ack.ballot != inst.ballot || ack.aid in inst.acks {
        return 0;
      }
      IidOfKey(ack.iid);
      var counted := inst.(acks := inst.acks + {ack.aid});
      if |counted.acks| < QuorumSize(acceptors) {
        SetAccepting(k, counted);
        return 1;
      }
      CloseInstance(k, inst);
      code := 2;
    }

    /** The end of an instance: give back a client value that lost to a promised one, and free the rest. */
    method CloseInstance(k: nat, inst: Instance)
      requires Valid() && k < acceptInstances.nBuckets && acceptInstances.flags[k] == Live && acceptInstances.keys[k] == inst.iid
      modifies Repr
      ensures Valid() && fresh(Repr - old(Repr))
      ensures State() == old(State()).(queue := old(State()).queue + GivenBack(inst), accepting := old(State()).accepting - {inst.iid})
    {
      hide ProposerRole.State, ProposerRole.Valid, KeyedByIid;
      RemoveAccepting(k, inst.iid);
      if inst.promised.Some? && inst.value.Some? && inst.value != inst.promised {
        PushValue(inst.value.value);
      } else {
        assert State().queue + [] == State().queue;
      }
    }

    lemma IidOfKey(iid: nat)
      requires Valid()
      ensures iid in acceptInstances.Map ==> acceptInstances.Map[iid].iid == iid && 0 < iid <= nextPrepareIid
      ensures iid in acceptInstances.Map ==> iid !in prepareInstances.Map && HasSomeValue(acceptInstances.Map[iid])
    {
      hide Table.Valid, Ring.Valid, Ring.Contents;
    }

    /** proposer_receive_preempted */
    method ReceivePreempted(ack: Fields, now: int) returns (out: Option<Message>)
      requires Valid()
      modifies Repr
      ensures Valid() && fresh(Repr - old(Repr))
      ensures (State(), out) == Spec.ReceivePreempted(old(State()), ack, now)
    {
      hide ProposerRole.State, Table.Valid, Ring.Valid, Ring.Contents, NextBallot;
      var k := acceptInstances.Get(ack.iid);
      hide ProposerRole.Valid, KeyedByIid;
      if k == acceptInstances.nBuckets {
        return None;
      }
      var inst := acceptInstances.vals[k];
      if ack.ballot <= inst.ballot {
        return None;
      }
      IidOfKey(ack.iid);
      RemoveAccepting(k, ack.iid);
      inst := Preempt(id, inst, now);
      InsertPreparing(inst);
      out := Some(ToPrepare(inst));
    }

    /** proposer_prepare_instance, for an id in phase one or one the proposer has moved past. */
    method PrepareInstance(iid: nat, now: int) returns (out: Message)
      requires Valid() && (iid in prepareInstances.Map || (0 < iid <= nextPrepareIid && iid !in acceptInstances.Map))
      modifies Repr
      ensures Valid() && fresh(Repr - old(Repr))
      ensures (State(), out) == Spec.PrepareInstance(old(State()), iid, now)
    {
      hide ProposerRole.State, Table.Valid, Ring.Valid, Ring.Contents, NextBallot;
      var k := prepareInstances.Get(iid);
      hide ProposerRole.Valid, KeyedByIid;
      var inst;
      if k == prepareInstances.nBuckets {
        inst := NewInstance(iid, NextBallot(id, 0), now);
        InsertPreparing(inst);
      } else {
        IidOfPreparing(iid);
        inst := Preempt(id, prepareInstances.vals[k], now);
        SetPreparing(k, inst);
      }
      out := ToPrepare(inst);
    }

    lemma IidOfPreparing(iid: nat)
      requires Valid() && iid in prepareInstances.Map
      ensures prepareInstances.Map[iid].iid == iid
    {
    }

    /** One round of proposer_trim_instances. */
    static method TrimBucket(h: Table<Instance>, k: nat, iid: nat, values: Ring<Value>) returns (ghost gave: seq<Value>)
      requires h.Valid() && values.Valid() && {values, values.cells} !! h.Repr && k < h.nBuckets
      modifies h.Repr, values, values.cells
      ensures h.Valid() && h.Repr == old(h.Repr) && values.Valid() && (values.cells == old(values.cells) || fresh(values.cells))
      ensures h.nBuckets == old(h.nBuckets)
      ensures var dead := old(h.flags[k]) == Live && old(h.vals[k]).iid <= iid;
              && h.Map == (if dead then old(h.Map) - {old(h.keys[k])} else old(h.Map))
              && h.Loc == (if dead then old(h.Loc) - {old(h.keys[k])} else old(h.Loc))
              && values.Contents() == old(values.Contents()) + gave
              && gave == if dead && old(h.vals[k]).value.Some? then [old(h.vals[k]).value.value] else []
    {
      hide Table.Valid, Ring.Valid, Ring.Contents;
      gave := [];
      assert values.Contents() + gave == values.Contents();
      if h.flags[k] == Live {
        var inst := h.vals[k];
        if inst.iid <= iid {
          if inst.value.Some? {
            values.PushBack(inst.value.value);
            gave := [inst.value.value];
          }
          h.Delete(k);
        }
      }
    }

    /** Before bucket `k`, a trim at `iid` has removed what it removes, and given back the values in bucket order. */
    ghost static predicate Trimming(h: Table<Instance>, m: Instances, loc: map<nat, nat>, iid: nat, k: nat, returned: seq<Value>)
      reads h
    {
      Trimmed(h.Map, h.Loc, m, loc, iid, k, returned)
    }

    static method TrimNext(h: Table<Instance>, k: nat, iid: nat, values: Ring<Value>,
                           ghost m: Instances, ghost loc: map<nat, nat>, ghost returned0: seq<Value>)
      returns (ghost returned: seq<Value>)
      requires h.Valid() && values.Valid() && {values, values.cells} !! h.Repr && k < h.nBuckets
      requires Trimming(h, m, loc, iid, k, returned0)
      modifies h.Repr, values, values.cells
      ensures h.Valid() && h.Repr == old(h.Repr) && values.Valid() && (values.cells == old(values.cells) || fresh(values.cells))
      ensures h.nBuckets == old(h.nBuckets)
      ensures Trimming(h, m, loc, iid, k + 1, returned0 + returned)
      ensures values.Contents() == old(values.Contents()) + returned
    {
      hide Table.Valid, Ring.Valid, Ring.Contents, Passed, Restrict, Pending, InBucketOrder;
      ghost var key, drop := h.keys[k], UpTo(m, iid).Keys;
      h.WalkFacts(m, loc, drop, k);
      ghost var cur, curLoc, dead := h.Map, h.Loc, h.flags[k] == Live && h.vals[k].iid <= iid;
      returned := TrimBucket(h, k, iid, values);
      TrimmedStep(cur, curLoc, m, loc, iid, k, returned0, key, dead, returned);
    }

    /** proposer_trim_instances: drop every instance up to `iid`, giving its client value back to the queue. */
    static method TrimInstances(h: Table<Instance>, iid: nat, values: Ring<Value>) returns (ghost returned: seq<Value>)
      requires h.Valid() && values.Valid() && {values, values.cells} !! h.Repr
      modifies h.Repr, values, values.cells
      ensures h.Valid() && h.Repr == old(h.Repr) && values.Valid() && (values.cells == old(values.cells) || fresh(values.cells))
      ensures h.Map == After(old(h.Map), iid)
      ensures values.Contents() == old(values.Contents()) + returned
      ensures multiset(returned) == Pending(UpTo(old(h.Map), iid))
      ensures old(h.Map).Keys == old(h.Loc).Keys && returned == InBucketOrder(old(h.Map), old(h.Loc), iid, old(h.nBuckets))
    {
      hide Table.Valid, Ring.Valid, Ring.Contents, Trimming;
      ghost var m, loc := h.Map, h.Loc;
      h.Bucketwise();
      TrimStarts(h, iid);
      returned := [];
      assert values.Contents() + returned == values.Contents();
      var k := 0;
      while k != h.nBuckets
        invariant 0 <= k <= h.nBuckets == old(h.nBuckets)
        invariant h.Valid() && h.Repr == old(h.Repr)
        invariant values.Valid() && (values.cells == old(values.cells) || fresh(values.cells)) && {values, values.cells} !! h.Repr
        invariant Trimming(h, m, loc, iid, k, returned)
        invariant values.Contents() == old(values.Contents()) + returned
      {
        ghost var gave := TrimNext(h, k, iid, values, m, loc, returned);
        ConcatAssoc(old(values.Contents()), returned, gave);
        returned := returned + gave;
        k := k + 1;
      }
      TrimEnds(h, m, loc, iid, returned);
    }

    static lemma TrimStarts(h: Table<Instance>, iid: nat)
      requires h.Map.Keys == h.Loc.Keys
      ensures Trimming(h, h.Map, h.Loc, iid, 0, [])
    {
      PassedNone(h.Map, UpTo(h.Map, iid).Keys, h.Loc);
      PassedNone(h.Loc, UpTo(h.Map, iid).Keys, h.Loc);
      assert Pending(map[]) == multiset{};
    }

    static lemma TrimEnds(h: Table<Instance>, m: Instances, loc: map<nat, nat>, iid: nat, returned: seq<Value>)
      requires Trimming(h, m, loc, iid, h.nBuckets, returned) && forall x :: x in loc ==> loc[x] < h.nBuckets
      ensures h.Map == After(m, iid) && multiset(returned) == Pending(UpTo(m, iid))
      ensures m.Keys == loc.Keys && returned == InBucketOrder(m, loc, iid, h.nBuckets)
    {
      var drop := UpTo(m, iid).Keys;
      PassedAll(drop, loc, h.nBuckets);
      assert m - drop == After(m, iid) && Restrict(m, drop) == UpTo(m, iid);
    }

    static lemma ConcatAssoc<T>(a: seq<T>, b: seq<T>, c: seq<T>)
      ensures a + (b + c) == a + b + c
    {
    }

    /** proposer_set_instance_id; the ghost result is what trimming gave back. */
    method SetInstanceId(iid: nat) returns (ghost returned: seq<Value>)
      requires Valid()
      modifies Repr
      ensures Valid() && fresh(Repr - old(Repr))
      ensures old(nextPrepareIid) < iid ==> IsReturned(old(State()), iid, returned)
      ensures var p, a := prepareInstances, acceptInstances;
              && old(p.Map).Keys == old(p.Loc).Keys && old(a.Map).Keys == old(a.Loc).Keys
              && (old(nextPrepareIid) < iid ==>
                    returned == InBucketOrder(old(p.Map), old(p.Loc), iid, old(p.nBuckets))
                                + InBucketOrder(old(a.Map), old(a.Loc), iid, old(a.nBuckets)))
      ensures State() == Spec.SetInstanceId(old(State()), iid, returned)
    {
      hide ProposerRole.State, ProposerRole.Valid, KeyedByIid, After, UpTo, Pending, InBucketOrder;
      LocKeys();
      if iid <= nextPrepareIid {
        return [];
      }
      SetNext(iid);
      ghost var fromPreparing := TrimPreparing(iid);
      ghost var fromAccepting := TrimAccepting(iid);
      returned := fromPreparing + fromAccepting;
      ConcatAssoc(old(State()).queue, fromPreparing, fromAccepting);
    }

    lemma LocKeys()
      requires Valid()
      ensures prepareInstances.Map.Keys == prepareInstances.Loc.Keys && acceptInstances.Map.Keys == acceptInstances.Loc.Keys
    {
      hide Table.Valid, Ring.Valid, Ring.Contents;
      prepareInstances.Bucketwise();
      acceptInstances.Bucketwise();
    }

    method TrimPreparing(iid: nat) returns (ghost returned: seq<Value>)
      requires Valid()
      modifies Repr
      ensures Valid() && fresh(Repr - old(Repr)) && nextPrepareIid == old(nextPrepareIid)
      ensures multiset(returned) == Pending(UpTo(old(State()).preparing, iid))
      ensures acceptInstances.Loc == old(acceptInstances.Loc) && acceptInstances.nBuckets == old(acceptInstances.nBuckets)
      ensures var h := prepareInstances; old(h.Map).Keys == old(h.Loc).Keys && returned == InBucketOrder(old(h.Map), old(h.Loc), iid, old(h.nBuckets))
      ensures State() == old(State()).(queue := old(State()).queue + returned, preparing := After(old(State()).preparing, iid))
    {
      hide Table.Valid, Ring.Valid, Ring.Contents, UpTo, After, Pending, KeyedByIid, AllReady, InBucketOrder;
      KeyedAfterTrim(prepareInstances.Map, acceptInstances.Map, iid, nextPrepareIid);
      returned := TrimInstances(prepareInstances, iid, values);
      Repr := Repr + {values.cells};
    }

    method TrimAccepting(iid: nat) returns (ghost returned: seq<Value>)
      requires Valid()
      modifies Repr
      ensures Valid() && fresh(Repr - old(Repr)) && nextPrepareIid == old(nextPrepareIid)
      ensures multiset(returned) == Pending(UpTo(old(State()).accepting, iid))
      ensures var h := acceptInstances; old(h.Map).Keys == old(h.Loc).Keys && returned == InBucketOrder(old(h.Map), old(h.Loc), iid, old(h.nBuckets))
      ensures State() == old(State()).(queue := old(State()).queue + returned, accepting := After(old(State()).accepting, iid))
    {
      hide Table.Valid, Ring.Valid, Ring.Contents, UpTo, After, Pending, KeyedByIid, AllReady, InBucketOrder;
      KeyedAfterTrim(acceptInstances.Map, prepareInstances.Map, iid, nextPrepareIid);
      returned := TrimInstances(acceptInstances, iid, values);
      Repr := Repr + {values.cells};
    }

    /** proposer_receive_acceptor_state */
    method ReceiveAcceptorState(trimIid: nat) returns (ghost returned: seq<Value>)
      requires Valid()
      modifies Repr
      ensures Valid() && fresh(Repr - old(Repr))
      ensures old(maxTrimIid) < trimIid && old(nextPrepareIid) < trimIid ==> IsReturned(old(State()), trimIid, returned)
      ensures var p, a := prepareInstances, acceptInstances;
              && old(p.Map).Keys == old(p.Loc).Keys && old(a.Map).Keys == old(a.Loc).Keys
              && (old(maxTrimIid) < trimIid && old(nextPrepareIid) < trimIid ==>
                    returned == InBucketOrder(old(p.Map), old(p.Loc), trimIid, old(p.nBuckets))
                                + InBucketOrder(old(a.Map), old(a.Loc), trimIid, old(a.nBuckets)))
      ensures State() == Spec.ReceiveAcceptorState(old(State()), trimIid, returned)
    {
      hide ProposerRole.State, ProposerRole.Valid, KeyedByIid, After, UpTo, Pending, InBucketOrder;
      LocKeys();
      if trimIid <= maxTrimIid {
        return [];
      }
      SetMaxTrim(trimIid);
      returned := SetInstanceId(trimIid);
    }

    method SetMaxTrim(trimIid: nat)
      requires Valid()
      modifies this`maxTrimIid
      ensures Valid() && State() == old(State()).(maxTrim := trimIid)
    {
      hide Table.Valid, Ring.Valid, Ring.Contents;
      maxTrimIid := trimIid;
    }
  }
}
