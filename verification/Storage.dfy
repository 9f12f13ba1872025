/** The in-memory record store of an acceptor (paxos/storage_mem.c). */
module Storage {
  import opened Types
  import opened KHash
  import AcceptorSpec

  class MemStorage {
    var trimIid: nat
    const records: Table<Fields>
    ghost var Repr: set<object>

    ghost predicate Valid()
      reads this, Repr
      ensures Valid() ==> this in Repr && records in Repr
      ensures Valid() ==> forall k :: k in records.Map ==> records.Map[k].iid == k
    {
      && this in Repr
      && records in Repr && records.Repr <= Repr && this !in records.Repr
      && records.Valid()
      && (forall k :: k in records.Map ==> records.Map[k].iid == k)
    }

    /** mem_storage_new */
    constructor ()
      ensures Valid() && fresh(Repr) && records.Map == map[] && trimIid == 0
    {
      trimIid := 0;
      records := new Table<Fields>();
      new;
      Repr := {this} + records.Repr;
    }

    /** mem_storage_get */
    method Get(iid: nat) returns (r: Option<Fields>)
      requires Valid()
      ensures r == if iid in records.Map then Some(records.Map[iid]) else None
    {
      var k := records.Get(iid);
      if k == records.nBuckets {
        return None;
      }
      r := Some(records.vals[k]);
    }

    /** mem_storage_put: 0, or -1 when the table cannot grow. */
    method Put(acc: Fields, memory: bool) returns (rc: int)
      requires Valid()
      modifies Repr
      ensures Valid() && fresh(Repr - old(Repr)) && trimIid == old(trimIid)
      ensures rc == 0 || (rc == -1 && !memory)
      ensures records.Map == if rc == 0 then old(records.Map)[acc.iid := acc] else old(records.Map)
    {
      hide Table.Valid;
      var rv := records.Enter(acc.iid, acc, memory);
      Repr := Repr + records.Repr;
      rc := if rv == -1 then -1 else 0;
    }

    /** One round of the loop in mem_storage_trim. */
    method TrimBucket(k: nat, iid: nat)
      requires Valid() && k < records.nBuckets
      modifies Repr
      ensures Valid() && Repr == old(Repr) && trimIid == old(trimIid)
      ensures records.nBuckets == old(records.nBuckets) && records.keys == old(records.keys)
      ensures records.keys[k] == old(records.keys[k])
      ensures var dead := old(records.flags[k]) == Live && old(records.vals[k]).iid <= iid;
              && records.Map == (if dead then old(records.Map) - {records.keys[k]} else old(records.Map))
              && records.Loc == (if dead then old(records.Loc) - {records.keys[k]} else old(records.Loc))
    {
      hide Table.Valid;
      if records.flags[k] == Live {
        var acc := records.vals[k];
        if acc.iid <= iid {
          records.Delete(k);
        }
      }
    }

    /** mem_storage_trim: drop every record up to `iid`. */
    method Trim(iid: nat)
      requires Valid()
      modifies Repr
      ensures Valid() && Repr == old(Repr) && trimIid == iid
      ensures records.Map == AcceptorSpec.Above(old(records.Map), iid)
    {
      hide Table.Valid, Passed, AcceptorSpec.Above;
      ghost var m, loc := records.Map, records.Loc;
      ghost var drop := set x | x in m && m[x].iid <= iid;
      records.Bucketwise();
      PassedNone(m, drop, loc);
      PassedNone(loc, drop, loc);
      var k := 0;
      while k != records.nBuckets
        invariant 0 <= k <= records.nBuckets == old(records.nBuckets)
        invariant Valid() && Repr == old(Repr)
        invariant records.Map == m - Passed(drop, loc, k)
        invariant records.Loc == loc - Passed(drop, loc, k)
      {
        ghost var key := records.keys[k];
        records.WalkFacts(m, loc, drop, k);
        PassedStep(m, drop, loc, k, key);
        PassedStep(loc, drop, loc, k, key);
        TrimBucket(k, iid);
        k := k + 1;
      }
      PassedAll(drop, loc, k);
      KeptIsAbove(m, drop, iid);
      SetTrim(iid);
    }

    /** The last assignment of mem_storage_trim. */
    method SetTrim(iid: nat)
      requires Valid()
      modifies this`trimIid
      ensures Valid() && trimIid == iid
    {
      hide Table.Valid;
      trimIid := iid;
    }

    static lemma KeptIsAbove(m: map<nat, Fields>, drop: set<nat>, iid: nat)
      requires drop == set x | x in m && m[x].iid <= iid
      ensures m - drop == AcceptorSpec.Above(m, iid)
    {
    }
  }
}
