/** The timeout iterator of a proposer (paxos/proposer.c, lines 329-380). */
module Timeouts {
  import opened Types
  import opened KHash
  import opened CArray
  import opened Proposer
  import opened Spec = ProposerSpec

  /** An instance to be sent again: no quorum yet, and its clock has run out. */
  predicate Due(inst: Instance, now: int, limit: int, acceptors: nat) {
    !Reached(inst, acceptors) && limit <= now - inst.createdAt
  }

  ghost function DueIds(m: Instances, now: int, limit: int, acceptors: nat): set<nat> {
    set k | k in m && Due(m[k], now, limit, acceptors)
  }

  /** The table after the clocks of `ids` were restarted. */
  ghost function Restarted(m: Instances, ids: set<nat>, now: int): Instances {
    map k | k in m :: if k in ids then m[k].(createdAt := now) else m[k]
  }

  /** next_timedout: from bucket `k`, the first live bucket that is due, or kh_end. */
  method NextTimedOut(h: Table<Instance>, k0: nat, now: int, limit: int, acceptors: nat) returns (k: nat)
    requires h.Valid() && k0 <= h.nBuckets
    ensures k0 <= k <= h.nBuckets
    ensures forall i :: k0 <= i < k && h.flags[i] == Live ==> !Due(h.vals[i], now, limit, acceptors)
    ensures k < h.nBuckets ==> h.flags[k] == Live && Due(h.vals[k], now, limit, acceptors)
  {
    hide Table.Valid;
    k := k0;
    while k != h.nBuckets
      invariant k0 <= k <= h.nBuckets
      invariant forall i :: k0 <= i < k && h.flags[i] == Live ==> !Due(h.vals[i], now, limit, acceptors)
    {
      if h.flags[k] == Live {
        var inst := h.vals[k];
        if |inst.acks| < QuorumSize(acceptors) && limit <= now - inst.createdAt {
          return;
        }
      }
      k := k + 1;
    }
  }

  // ---------- Draining, on values ----------

  /** In the middle of a drain: `sent` were sent, everything due before bucket `k` among them. */
  ghost predicate Draining(m0: Instances, m: Instances, loc: map<nat, nat>, k: nat, sent: set<nat>, now: int, limit: int, n: nat) {
    && m.Keys == loc.Keys
    && sent <= DueIds(m0, now, limit, n)
    && m == Restarted(m0, sent, now)
    && forall x :: x in DueIds(m0, now, limit, n) && x !in sent ==> x in loc && k <= loc[x]
  }

  lemma DrainStarts(m: Instances, loc: map<nat, nat>, now: int, limit: int, n: nat)
    requires m.Keys == loc.Keys
    ensures Draining(m, m, loc, 0, {}, now, limit, n)
  {
  }

  /** When a drain comes to its end: the timeout is at least one second, or nothing is due. */
  ghost predicate Drainable(m: Instances, now: int, limit: int, n: nat) {
    1 <= limit || DueIds(m, now, limit, n) == {}
  }

  /** What is due now is due from the start and not sent yet, in a drain that ends. */
  lemma StillDue(m0: Instances, m: Instances, loc: map<nat, nat>, k: nat, sent: set<nat>, now: int, limit: int, n: nat, x: nat)
    requires Draining(m0, m, loc, k, sent, now, limit, n) && x in m
    ensures x !in sent ==> (Due(m[x], now, limit, n) <==> x in DueIds(m0, now, limit, n))
    ensures Drainable(m0, now, limit, n) && Due(m[x], now, limit, n) ==> x !in sent && m[x] == m0[x]
  {
  }

  lemma DrainNext(m0: Instances, m: Instances, loc: map<nat, nat>, k: nat, k': nat, sent: set<nat>, now: int, limit: int, n: nat, x: nat)
    requires Draining(m0, m, loc, k, sent, now, limit, n) && k <= k' && Drainable(m0, now, limit, n)
    requires forall y :: y in m && k <= loc[y] < k' ==> !Due(m[y], now, limit, n)
    requires x in m && loc[x] == k' && Due(m[x], now, limit, n)
    ensures Draining(m0, m[x := m[x].(createdAt := now)], loc, k', sent + {x}, now, limit, n)
    ensures x !in sent && x in DueIds(m0, now, limit, n)
  {
    StillDue(m0, m, loc, k, sent, now, limit, n, x);
    forall y | y in DueIds(m0, now, limit, n) && y !in sent ensures k' <= loc[y] {
      StillDue(m0, m, loc, k, sent, now, limit, n, y);
    }
  }

  lemma DrainEnds(m0: Instances, m: Instances, loc: map<nat, nat>, k: nat, sent: set<nat>, now: int, limit: int, n: nat, end: nat)
    requires Draining(m0, m, loc, k, sent, now, limit, n)
    requires forall y :: y in m && k <= loc[y] < end ==> !Due(m[y], now, limit, n)
    requires forall y :: y in loc ==> loc[y] < end
    ensures sent == DueIds(m0, now, limit, n) && m == Restarted(m0, DueIds(m0, now, limit, n), now)
  {
    forall y | y in DueIds(m0, now, limit, n) ensures y in sent {
      if y !in sent {
        StillDue(m0, m, loc, k, sent, now, limit, n, y);
      }
    }
  }

  // ---------- The iterator ----------

  class TimeoutIterator {
    var pi: nat
    var ai: nat
    const timeout: int
    const proposer: ProposerRole

    ghost predicate Valid()
      reads this, proposer, proposer.Repr
    {
      && proposer.Valid() && this !in proposer.Repr
      && pi <= proposer.prepareInstances.nBuckets
      && ai <= proposer.acceptInstances.nBuckets
    }

    /** proposer_timeout_iterator */
    constructor (p: ProposerRole, now: int)
      requires p.Valid()
      ensures Valid() && proposer == p && timeout == now && pi == 0 && ai == 0
    {
      pi, ai := 0, 0;
      timeout := now;
      proposer := p;
    }

    /** timeout_iterator_prepare; the ghost result is the id of the instance sent again. The cursor stays on it. */
    method Prepare(limit: int) returns (out: Option<Message>, ghost x: nat)
      requires Valid()
      modifies this`pi, proposer.Repr
      ensures Valid() && proposer.Repr == old(proposer.Repr) && old(pi) <= pi
      ensures proposer.prepareInstances.nBuckets == old(proposer.prepareInstances.nBuckets)
      ensures proposer.prepareInstances.Loc == old(proposer.prepareInstances.Loc)
      ensures var m, loc := old(proposer.State()).preparing, proposer.prepareInstances.Loc;
              && loc.Keys == m.Keys
              && (forall y :: y in m && old(pi) <= loc[y] < pi ==> !Due(m[y], timeout, limit, proposer.acceptors))
              && (out.None? ==> pi == proposer.prepareInstances.nBuckets && proposer.State() == old(proposer.State()))
              && (out.Some? ==> x in m && loc[x] == pi && Due(m[x], timeout, limit, proposer.acceptors)
                                && out == Some(ToPrepare(m[x]))
                                && proposer.State() == RestartPreparing(old(proposer.State()), x, timeout))
    {
      hide Table.Valid, Ring.Valid, Ring.Contents, Due, ProposerRole.State;
      var h := proposer.prepareInstances;
      h.Bucketwise();
      pi := NextTimedOut(h, pi, timeout, limit, proposer.acceptors);
      if pi == h.nBuckets {
        return None, 0;
      }
      x := h.keys[pi];
      var inst := h.vals[pi];
      assert inst.iid == x;
      hide ProposerRole.Valid, KeyedByIid;
      proposer.SetPreparing(pi, inst.(createdAt := timeout));
      out := Some(ToPrepare(inst));
    }

    /** timeout_iterator_accept */
    method Accept(limit: int) returns (out: Option<Message>, ghost x: nat)
      requires Valid()
      modifies this`ai, proposer.Repr
      ensures Valid() && proposer.Repr == old(proposer.Repr) && old(ai) <= ai
      ensures proposer.acceptInstances.nBuckets == old(proposer.acceptInstances.nBuckets)
      ensures proposer.acceptInstances.Loc == old(proposer.acceptInstances.Loc)
      ensures var m, loc := old(proposer.State()).accepting, proposer.acceptInstances.Loc;
              && loc.Keys == m.Keys
              && (forall y :: y in m && old(ai) <= loc[y] < ai ==> !Due(m[y], timeout, limit, proposer.acceptors))
              && (out.None? ==> ai == proposer.acceptInstances.nBuckets && proposer.State() == old(proposer.State()))
              && (out.Some? ==> x in m && loc[x] == ai && Due(m[x], timeout, limit, proposer.acceptors)
                                && HasSomeValue(m[x]) && out == Some(ToAccept(m[x]))
                                && proposer.State() == RestartAccepting(old(proposer.State()), x, timeout))
    {
      hide Table.Valid, Ring.Valid, Ring.Contents, Due, ProposerRole.State;
      var h := proposer.acceptInstances;
      h.Bucketwise();
      ai := NextTimedOut(h, ai, timeout, limit, proposer.acceptors);
      if ai == h.nBuckets {
        return None, 0;
      }
      x := h.keys[ai];
      var inst := h.vals[ai];
      assert inst.iid == x && HasSomeValue(inst);
      hide ProposerRole.Valid, KeyedByIid;
      proposer.SetAccepting(ai, inst.(createdAt := timeout));
      out := Some(ToAccept(inst));
    }
  }

  // ---------- A drain that does not end ----------

  /** The instance under the cursor is due. */
  ghost predicate Under(m: Instances, loc: map<nat, nat>, k: nat, x: nat, now: int, limit: int, n: nat) {
    x in m && x in loc && loc[x] == k && Due(m[x], now, limit, n)
  }

  ghost predicate OneToOne(loc: map<nat, nat>, end: nat) {
    (forall x :: x in loc ==> loc[x] < end) && forall x, y :: x in loc && y in loc && loc[x] == loc[y] ==> x == y
  }

  lemma RestartedUnder(m: Instances, loc: map<nat, nat>, k: nat, x: nat, now: int, limit: int, n: nat)
    requires Under(m, loc, k, x, now, limit, n) && limit <= 0
    ensures Under(m[x := m[x].(createdAt := now)], loc, k, x, now, limit, n)
  {
  }

  /** A call that starts on a due instance stops on it. */
  lemma StopsThere(m: Instances, loc: map<nat, nat>, k: nat, k': nat, x: nat, y: nat, now: int, limit: int, n: nat, end: nat)
    requires Under(m, loc, k, x, now, limit, n) && k <= k' && OneToOne(loc, end) && m.Keys == loc.Keys
    requires forall z :: z in m && k <= loc[z] < k' ==> !Due(m[z], now, limit, n)
    ensures k' == k < end && (y in m && loc[y] == k' ==> y == x)
  {
  }

  lemma BucketsOf(p: ProposerRole)
    requires p.Valid()
    ensures OneToOne(p.prepareInstances.Loc, p.prepareInstances.nBuckets)
    ensures OneToOne(p.acceptInstances.Loc, p.acceptInstances.nBuckets)
  {
    hide Table.Valid, OneToOne;
    TableOneToOne(p.prepareInstances);
    TableOneToOne(p.acceptInstances);
  }

  lemma TableOneToOne(h: Table<Instance>)
    requires h.Valid()
    ensures OneToOne(h.Loc, h.nBuckets)
  {
    hide Table.Valid;
    h.Bucketwise();
    forall x, y | x in h.Loc && y in h.Loc && h.Loc[x] == h.Loc[y] ensures x == y {
      assert h.keys[h.Loc[x]] == x && h.keys[h.Loc[y]] == y;
    }
  }

  /** The cursor is on the instance `x`, which is due and whose prepare `out` is, or at the end of the table. */
  ghost predicate Parked(iter: TimeoutIterator, limit: int, x: nat, out: Option<Message>)
    requires iter.Valid()
    reads iter, iter.proposer, iter.proposer.Repr, iter.proposer.prepareInstances
  {
    var p := iter.proposer;
    && (out.None? <==> iter.pi == p.prepareInstances.nBuckets)
    && (out.Some? ==> Under(p.State().preparing, p.prepareInstances.Loc, iter.pi, x, iter.timeout, limit, p.acceptors)
                      && out.value == ToPrepare(p.State().preparing[x]))
  }

  /** The first call gives a message exactly when the drain does not end. */
  method First(iter: TimeoutIterator, limit: int) returns (out: Option<Message>, ghost x: nat)
    requires iter.Valid() && iter.pi == 0 && limit <= 0
    modifies iter`pi, iter.proposer.Repr
    ensures iter.Valid() && iter.proposer.Repr == old(iter.proposer.Repr) && Parked(iter, limit, x, out)
    ensures out.Some? <==> !Drainable(old(iter.proposer.State()).preparing, iter.timeout, limit, iter.proposer.acceptors)
  {
    ghost var p, m := iter.proposer, iter.proposer.State().preparing;
    BucketsOf(p);
    hide ProposerRole.Valid, ProposerRole.State, Table.Valid, KeyedByIid, AllReady, Due, OneToOne, Drainable, Under;
    out, x := iter.Prepare(limit);
    FirstFound(m, p.prepareInstances.Loc, iter.pi, p.prepareInstances.nBuckets, out.Some?, x, iter.timeout, limit, p.acceptors);
  }

  /** One more call gives the same again. */
  method Again(iter: TimeoutIterator, limit: int, ghost x: nat, ghost before: Option<Message>) returns (out: Option<Message>)
    requires iter.Valid() && limit <= 0 && Parked(iter, limit, x, before)
    modifies iter`pi, iter.proposer.Repr
    ensures iter.Valid() && iter.proposer.Repr == old(iter.proposer.Repr) && Parked(iter, limit, x, out) && out == before
  {
    ghost var p, m, loc, k := iter.proposer, iter.proposer.State().preparing, iter.proposer.prepareInstances.Loc, iter.pi;
    BucketsOf(p);
    hide ProposerRole.Valid, ProposerRole.State, Table.Valid, KeyedByIid, AllReady, Due, OneToOne;
    ghost var end := p.prepareInstances.nBuckets;
    ghost var y;
    out, y := iter.Prepare(limit);
    if k != end {
      StopsThere(m, loc, k, iter.pi, x, y, iter.timeout, limit, p.acceptors, end);
      RestartedUnder(m, loc, k, x, iter.timeout, limit, p.acceptors);
    } else {
      AtEnd(loc, end, y);
    }
  }

  lemma AtEnd(loc: map<nat, nat>, end: nat, y: nat)
    requires OneToOne(loc, end)
    ensures y in loc ==> loc[y] != end
  {
  }

  /** With a timeout below one second every further call of timeout_iterator_prepare, however many, gives what the
      first one gave: the restarted clock of an instance has run out again. */
  method StuckOnPrepare(iter: TimeoutIterator, limit: int, calls: nat) returns (outs: seq<Option<Message>>)
    requires iter.Valid() && iter.pi == 0 && limit <= 0
    modifies iter`pi, iter.proposer.Repr
    ensures iter.Valid() && |outs| == calls + 1 && forall i :: 0 <= i <= calls ==> outs[i] == outs[0]
    ensures outs[0].Some? <==> !Drainable(old(iter.proposer.State()).preparing, iter.timeout, limit, iter.proposer.acceptors)
  {
    hide ProposerRole.Valid, ProposerRole.State, KeyedByIid, AllReady, Drainable, Parked;
    var out;
    ghost var x;
    out, x := First(iter, limit);
    outs := [out];
    while |outs| < calls + 1
      invariant iter.Valid() && 1 <= |outs| <= calls + 1 && iter.proposer.Repr == old(iter.proposer.Repr)
      invariant forall i :: 0 <= i < |outs| ==> outs[i] == out
      invariant Parked(iter, limit, x, out)
    {
      var again := Again(iter, limit, x, out);
      outs := outs + [again];
    }
  }

  lemma FirstFound(m: Instances, loc: map<nat, nat>, k: nat, end: nat, found: bool, x: nat, now: int, limit: int, n: nat)
    requires loc.Keys == m.Keys && OneToOne(loc, end) && limit <= 0
    requires forall y :: y in m && loc[y] < k ==> !Due(m[y], now, limit, n)
    requires if found then x in m && loc[x] == k && Due(m[x], now, limit, n) else k == end
    ensures found <==> !Drainable(m, now, limit, n)
    ensures found ==> k < end && Under(m[x := m[x].(createdAt := now)], loc, k, x, now, limit, n)
  {
    if found {
      assert x in DueIds(m, now, limit, n);
      RestartedUnder(m, loc, k, x, now, limit, n);
    }
  }

  /** The same on the second table, whose instances all have a value to send. */
  ghost predicate ParkedOnAccept(iter: TimeoutIterator, limit: int, x: nat, out: Option<Message>)
    requires iter.Valid()
    reads iter, iter.proposer, iter.proposer.Repr, iter.proposer.acceptInstances
  {
    var p := iter.proposer;
    && (out.None? <==> iter.ai == p.acceptInstances.nBuckets)
    && (out.Some? ==> Under(p.State().accepting, p.acceptInstances.Loc, iter.ai, x, iter.timeout, limit, p.acceptors)
                      && HasSomeValue(p.State().accepting[x]) && out.value == ToAccept(p.State().accepting[x]))
  }

  method FirstAccept(iter: TimeoutIterator, limit: int) returns (out: Option<Message>, ghost x: nat)
    requires iter.Valid() && iter.ai == 0 && limit <= 0
    modifies iter`ai, iter.proposer.Repr
    ensures iter.Valid() && iter.proposer.Repr == old(iter.proposer.Repr) && ParkedOnAccept(iter, limit, x, out)
    ensures out.Some? <==> !Drainable(old(iter.proposer.State()).accepting, iter.timeout, limit, iter.proposer.acceptors)
  {
    ghost var p, m := iter.proposer, iter.proposer.State().accepting;
    BucketsOf(p);
    hide ProposerRole.Valid, ProposerRole.State, Table.Valid, KeyedByIid, AllReady, Due, OneToOne, Drainable, Under, ToAccept, HasSomeValue;
    out, x := iter.Accept(limit);
    if out.Some? {
      SameRequest(m[x], iter.timeout);
    }
    FirstFound(m, p.acceptInstances.Loc, iter.ai, p.acceptInstances.nBuckets, out.Some?, x, iter.timeout, limit, p.acceptors);
  }

  /** A restarted clock does not change the request. */
  lemma SameRequest(inst: Instance, now: int)
    requires HasSomeValue(inst)
    ensures HasSomeValue(inst.(createdAt := now)) && ToAccept(inst.(createdAt := now)) == ToAccept(inst)
  {
  }

  method AcceptAgain(iter: TimeoutIterator, limit: int, ghost x: nat, ghost before: Option<Message>) returns (out: Option<Message>)
    requires iter.Valid() && limit <= 0 && ParkedOnAccept(iter, limit, x, before)
    modifies iter`ai, iter.proposer.Repr
    ensures iter.Valid() && iter.proposer.Repr == old(iter.proposer.Repr) && ParkedOnAccept(iter, limit, x, out) && out == before
  {
    ghost var p, m, loc, k := iter.proposer, iter.proposer.State().accepting, iter.proposer.acceptInstances.Loc, iter.ai;
    BucketsOf(p);
    hide ProposerRole.Valid, ProposerRole.State, Table.Valid, KeyedByIid, AllReady, Due, OneToOne, ToAccept, HasSomeValue;
    ghost var end := p.acceptInstances.nBuckets;
    ghost var y;
    out, y := iter.Accept(limit);
    if k != end {
      StopsThere(m, loc, k, iter.ai, x, y, iter.timeout, limit, p.acceptors, end);
      RestartedUnder(m, loc, k, x, iter.timeout, limit, p.acceptors);
      SameRequest(m[x], iter.timeout);
    } else {
      AtEnd(loc, end, y);
    }
  }

  /** The same for timeout_iterator_accept. */
  method StuckOnAccept(iter: TimeoutIterator, limit: int, calls: nat) returns (outs: seq<Option<Message>>)
    requires iter.Valid() && iter.ai == 0 && limit <= 0
    modifies iter`ai, iter.proposer.Repr
    ensures iter.Valid() && |outs| == calls + 1 && forall i :: 0 <= i <= calls ==> outs[i] == outs[0]
    ensures outs[0].Some? <==> !Drainable(old(iter.proposer.State()).accepting, iter.timeout, limit, iter.proposer.acceptors)
  {
    hide ProposerRole.Valid, ProposerRole.State, KeyedByIid, AllReady, Drainable, ParkedOnAccept;
    var out;
    ghost var x;
    out, x := FirstAccept(iter, limit);
    outs := [out];
    while |outs| < calls + 1
      invariant iter.Valid() && 1 <= |outs| <= calls + 1 && iter.proposer.Repr == old(iter.proposer.Repr)
      invariant forall i :: 0 <= i < |outs| ==> outs[i] == out
      invariant ParkedOnAccept(iter, limit, x, out)
    {
      var again := AcceptAgain(iter, limit, x, out);
      outs := outs + [again];
    }
  }
}
