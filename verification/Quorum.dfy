/** The counter of distinct acknowledgements (paxos/quorum.c). */
module Quorum {
  import opened FiniteSets
  import opened Types

  /** Ids marked in the flag array. */
  ghost function Marked(ids: seq<int>): (r: set<nat>) {
    set i: nat | i < |ids| && ids[i] != 0
  }

  class Counter {
    var count: nat
    var quorum: nat
    var acceptors: nat
    var acceptorIds: array<int>

    ghost predicate Valid()
      reads this, acceptorIds
    {
      && acceptorIds.Length == acceptors
      && quorum == QuorumSize(acceptors)
      && count == |Seen()|
    }

    /** The acceptors counted since the last clear. */
    ghost function Seen(): set<nat>
      reads this, acceptorIds
    {
      Marked(acceptorIds[..])
    }

    /** quorum_init */
    constructor (n: nat)
      ensures Valid() && fresh(acceptorIds) && acceptors == n && Seen() == {}
    {
      acceptors := n;
      quorum := QuorumSize(n);
      count := 0;
      acceptorIds := new int[n](_ => 0);
    }

    /** quorum_clear */
    method Clear()
      requires Valid()
      modifies this`count, acceptorIds
      ensures Valid() && Seen() == {}
    {
      count := 0;
      for i := 0 to acceptors
        invariant count == 0
        invariant forall j :: 0 <= j < i ==> acceptorIds[j] == 0
      {
        acceptorIds[i] := 0;
      }
    }

    /** quorum_add: true exactly when the id is new. */
    method Add(id: nat) returns (added: bool)
      requires Valid() && id < acceptors
      modifies this`count, acceptorIds
      ensures Valid() && Seen() == old(Seen()) + {id}
      ensures added <==> id !in old(Seen())
    {
      ghost var was := acceptorIds[..];
      added := acceptorIds[id] == 0;
      if added {
        count := count + 1;
        acceptorIds[id] := 1;
        assert acceptorIds[..] == was[id := 1];
      }
      assert Seen() == Marked(was) + {id};
    }

    /** quorum_reached: the acknowledgements come from a majority of distinct acceptors. */
    method Reached() returns (yes: bool)
      requires Valid()
      ensures yes <==> acceptors < 2 * |Seen()|
    {
      yes := quorum <= count;
    }
  }

  // ---------- Any sequence of calls ----------

  datatype Op = Count(id: nat) | Reset | Ask

  datatype Answer = Added(isNew: bool) | Done | Quorum(yes: bool)

  /** The counter as a set of ids, which is how an instance of a proposer keeps it. */
  function OnSet(acks: set<nat>, n: nat, op: Op): (set<nat>, Answer) {
    match op
    case Count(id) => (acks + {id}, Added(id !in acks))
    case Reset => ({}, Done)
    case Ask => (acks, Quorum(QuorumSize(n) <= |acks|))
  }

  function RunOnSet(n: nat, ops: seq<Op>): (r: (set<nat>, seq<Answer>))
    ensures |r.1| == |ops|
  {
    if ops == [] then ({}, [])
    else
      var (acks, answers) := RunOnSet(n, ops[..|ops| - 1]);
      var (acks', answer) := OnSet(acks, n, ops[|ops| - 1]);
      (acks', answers + [answer])
  }

  /** Any sequence of additions, clears and tests on the flag array answers as on the set. */
  method Replay(n: nat, ops: seq<Op>) returns (answers: seq<Answer>)
    requires forall i :: 0 <= i < |ops| && ops[i].Count? ==> ops[i].id < n
    ensures answers == RunOnSet(n, ops).1
  {
    var c := new Counter(n);
    answers := [];
    for i := 0 to |ops|
      invariant c.Valid() && fresh(c) && fresh(c.acceptorIds) && c.acceptors == n
      invariant (c.Seen(), answers) == RunOnSet(n, ops[..i])
    {
      assert ops[..i + 1][..i] == ops[..i];
      match ops[i] {
        case Count(id) =>
          var isNew := c.Add(id);
          answers := answers + [Added(isNew)];
        case Reset =>
          c.Clear();
          answers := answers + [Done];
        case Ask =>
          var yes := c.Reached();
          answers := answers + [Quorum(yes)];
      }
    }
    assert ops[..|ops|] == ops;
  }

  // ---------- Majorities ----------

  ghost predicate Majority(ids: set<nat>, acceptors: nat) {
    (forall a :: a in ids ==> a < acceptors) && acceptors < 2 * |ids|
  }

  /** Two majorities of the same acceptors share one. */
  lemma MajoritiesMeet(a: set<nat>, b: set<nat>, acceptors: nat) returns (x: nat)
    requires Majority(a, acceptors) && Majority(b, acceptors)
    ensures x in a && x in b
  {
    if a * b == {} {
      assert |a + b| == |a| + |b|;
      SubsetSize(a + b, Below(acceptors));
      assert false;
    }
    x :| x in a * b;
  }
}
