/** Which instances evproposer_check_timeouts sends again, told from a proposer's history of calls
    (evpaxos/evproposer.c and paxos/proposer.c). */
module Clocks {
  import opened Types
  import opened ProposerSpec
  import opened Rounds
  import opened ProposerHistory
  import opened Proposer
  import opened Timeouts
  import opened EvProposer

  /** Instance `i` is in phase one, no majority has promised its ballot since it last started, and the last prepare for
      it was sent `limit` or more before `now`. */
  ghost predicate PrepareOverdue(t: Trace, i: nat, now: int, limit: int)
    requires IsTrace(t)
  {
    var k := |t.acts|;
    && i in t.states[k].preparing
    && |Heard(PromisesSince(t, k, i), t.states[k].preparing[i].ballot)| < QuorumSize(t.acceptors)
    && exists j: nat :: IsLastPrepare(t, k, i, j) && ClockOf(t.acts[j]) + limit <= now
  }

  /** Instance `i` is in phase two, and its last request was sent again, or else its last prepare was sent, `limit` or
      more before `now`. */
  ghost predicate AcceptOverdue(t: Trace, i: nat, now: int, limit: int)
    requires IsTrace(t)
  {
    var k := |t.acts|;
    && i in t.states[k].accepting
    && exists j: nat, clock: int :: IsLastAccept(t, k, i, j) && IsAcceptClock(t, i, j, clock) && clock + limit <= now
  }

  lemma OneLastPrepare(t: Trace, k: nat, i: nat, j: nat, j': nat)
    requires IsTrace(t) && k <= |t.acts| && IsLastPrepare(t, k, i, j) && IsLastPrepare(t, k, i, j')
    ensures j == j'
  {
  }

  lemma OneAcceptClock(t: Trace, k: nat, i: nat, j: nat, clock: int, j': nat, clock': int)
    requires IsTrace(t) && k <= |t.acts| && IsLastAccept(t, k, i, j) && IsLastAccept(t, k, i, j')
    requires IsAcceptClock(t, i, j, clock) && IsAcceptClock(t, i, j', clock')
    ensures clock == clock'
  {
    assert j == j';
    hide IsLastPrepare;
    if !t.acts[j].ResendAccept? {
      var p: nat :| IsLastPrepare(t, j, i, p) && clock == ClockOf(t.acts[p]);
      var p': nat :| IsLastPrepare(t, j', i, p') && clock' == ClockOf(t.acts[p']);
      OneLastPrepare(t, j, i, p, p');
    }
  }

  /** What is due is what the history calls overdue, in phase one. */
  lemma DuePrepares(t: Trace, i: nat, now: int, limit: int)
    requires IsTrace(t)
    ensures i in DueIds(t.states[|t.acts|].preparing, now, limit, t.acceptors) <==> PrepareOverdue(t, i, now, limit)
  {
    var k := |t.acts|;
    if i in t.states[k].preparing {
      PhaseOneIsHistory(t, k, i);
      var j := ClockIsLastPrepare(t, k, i);
      hide Heard, KnowsHighest, IsLastPrepare, IsTrace, QuorumSize;
      forall j': nat | IsLastPrepare(t, k, i, j') ensures j' == j {
        OneLastPrepare(t, k, i, j, j');
      }
    }
  }

  /** And in phase two. */
  lemma DueAccepts(t: Trace, i: nat, now: int, limit: int)
    requires IsTrace(t)
    ensures i in DueIds(t.states[|t.acts|].accepting, now, limit, t.acceptors) <==> AcceptOverdue(t, i, now, limit)
  {
    var k := |t.acts|;
    if i in t.states[k].accepting {
      PhaseTwoIsHistory(t, k, i);
      var j := ClockIsLastAccept(t, k, i);
      var clock := t.states[k].accepting[i].createdAt;
      hide Heard, IsLastAccept, IsAcceptClock, IsTrace, QuorumSize, IsRequestOf;
      forall j': nat, clock': int | IsLastAccept(t, k, i, j') && IsAcceptClock(t, i, j', clock') ensures clock' == clock {
        OneAcceptClock(t, k, i, j, clock, j', clock');
      }
    }
  }

  /** After any history of calls, a check of the timeouts sends exactly what is overdue: the prepare of each instance in
      phase one, and the request of each in phase two, at its ballot. */
  method CheckAfter(e: EventProposer, now: int, limit: int, ghost t: Trace)
    returns (prepares: seq<Message>, accepts: seq<Message>, ghost pids: seq<nat>, ghost aids: seq<nat>)
    requires e.Valid() && IsTrace(t) && e.state.State() == t.states[|t.acts|]
    requires Drainable(e.state.State().preparing, now, limit, e.state.acceptors)
    requires Drainable(e.state.State().accepting, now, limit, e.state.acceptors)
    modifies e.state.Repr
    ensures e.Valid() && NoDuplicates(pids) && NoDuplicates(aids) && |prepares| == |pids| && |accepts| == |aids|
    ensures forall i :: i in pids <==> PrepareOverdue(t, i, now, limit)
    ensures forall i :: i in aids <==> AcceptOverdue(t, i, now, limit)
    ensures forall x :: 0 <= x < |pids| ==>
              pids[x] in t.states[|t.acts|].preparing
              && prepares[x] == Prepare(Fields(pids[x], Wire16(t.states[|t.acts|].preparing[pids[x]].ballot), 0, 0, []))
    ensures forall x :: 0 <= x < |aids| ==>
              aids[x] in t.states[|t.acts|].accepting && IsRequestOf(t.states[|t.acts|].accepting[aids[x]], aids[x], {accepts[x]})
  {
    hide ProposerRole.Valid, ProposerRole.State, AllReady, KeyedByIid, DueIds, Drainable, PrepareOverdue, AcceptOverdue, IsTrace;
    AlwaysKept(t, |t.acts|);
    prepares, accepts, pids, aids := e.CheckTimeouts(now, limit);
    forall i: nat ensures i in pids <==> PrepareOverdue(t, i, now, limit) {
      DuePrepares(t, i, now, limit);
      assert i in pids <==> i in Elements(pids);
    }
    forall i: nat ensures i in aids <==> AcceptOverdue(t, i, now, limit) {
      DueAccepts(t, i, now, limit);
      assert i in aids <==> i in Elements(aids);
    }
  }
}
