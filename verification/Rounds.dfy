/** What a whole phase does to a proposer, as a function of the messages it was given (paxos/proposer.c). */
module Rounds {
  import opened FiniteSets
  import opened Types
  import opened ProposerSpec

  // ---------- Phase one ----------

  function PromiseAll(s: State, fs: seq<Fields>, now: int): State {
    if fs == [] then s else ReceivePromise(PromiseAll(s, fs[..|fs| - 1], now), fs[|fs| - 1], now).0
  }

  /** The acceptors heard at ballot `b`. */
  ghost function Heard(fs: seq<Fields>, b: nat): set<nat> {
    set i | 0 <= i < |fs| && fs[i].ballot == b :: fs[i].aid
  }

  lemma HeardOneMore(fs: seq<Fields>, b: nat)
    requires fs != []
    ensures var f, before := fs[|fs| - 1], Heard(fs[..|fs| - 1], b);
            Heard(fs, b) == if f.ballot == b then before + {f.aid} else before
  {
    var n := |fs| - 1;
    var f, before := fs[n], Heard(fs[..n], b);
    forall a | a in before ensures a in Heard(fs, b) {
      var i :| 0 <= i < n && fs[..n][i].ballot == b && fs[..n][i].aid == a;
      assert fs[i].ballot == b && fs[i].aid == a;
    }
    forall a | a in Heard(fs, b) ensures a in before || (f.ballot == b && a == f.aid) {
      var i :| 0 <= i < |fs| && fs[i].ballot == b && fs[i].aid == a;
      if i < n {
        assert fs[..n][i].ballot == b && fs[..n][i].aid == a;
      }
    }
    if f.ballot == b {
      assert f.aid in Heard(fs, b);
    }
  }

  /** Promise `i` is the first of its acceptor at ballot `b`; only these count. */
  ghost predicate Counts(fs: seq<Fields>, b: nat, i: nat) {
    && i < |fs| && fs[i].ballot == b
    && forall j :: 0 <= j < i && fs[j].ballot == b ==> fs[j].aid != fs[i].aid
  }

  lemma CountsPrefix(fs: seq<Fields>, b: nat, n: nat)
    requires n <= |fs|
    ensures forall i: nat :: i < n ==> (Counts(fs[..n], b, i) <==> Counts(fs, b, i))
  {
  }

  /** The promise at the end counts exactly when its acceptor was not heard before. */
  lemma LastCounts(fs: seq<Fields>, b: nat)
    requires fs != []
    ensures var n := |fs| - 1; Counts(fs, b, n) <==> fs[n].ballot == b && fs[n].aid !in Heard(fs[..n], b)
  {
    var n := |fs| - 1;
    if fs[n].ballot == b && fs[n].aid in Heard(fs[..n], b) {
      var i :| 0 <= i < n && fs[..n][i].ballot == b && fs[..n][i].aid == fs[n].aid;
      assert fs[i].aid == fs[n].aid;
    } else if fs[n].ballot == b {
      forall j | 0 <= j < n && fs[j].ballot == b ensures fs[j].aid != fs[n].aid {
        assert fs[..n][j].ballot == b && fs[..n][j].aid == fs[j].aid;
      }
    }
  }

  /** Promise `i` reports a vote. */
  predicate Reports(f: Fields) {
    f.value != [] && 0 < f.valueBallot
  }

  /** What is known is the vote of promise `i`, and no earlier one reported as high a ballot. */
  ghost predicate IsKnown(inst: Instance, fs: seq<Fields>, b: nat, i: nat) {
    && Counts(fs, b, i) && Reports(fs[i]) && Some(fs[i].value) == inst.promised && fs[i].valueBallot == inst.valueBallot
    && forall j: nat :: j < i && Counts(fs, b, j) && Reports(fs[j]) ==> fs[j].valueBallot < fs[i].valueBallot
  }

  /** What is known is the first reported vote with the highest ballot, or nothing if no vote was reported. */
  ghost predicate KnowsHighest(inst: Instance, fs: seq<Fields>, b: nat) {
    && (forall i: nat :: Counts(fs, b, i) && Reports(fs[i]) ==> inst.promised.Some? && fs[i].valueBallot <= inst.valueBallot)
    && (if inst.promised.None? then inst.valueBallot == 0 else exists i: nat :: IsKnown(inst, fs, b, i))
  }

  /** An instance that has just been opened or preempted. */
  predicate IsFresh(inst: Instance) {
    inst.acks == {} && inst.promised.None? && inst.valueBallot == 0
  }

  ghost predicate AfterPromises(inst: Instance, inst': Instance, fs: seq<Fields>) {
    && inst' == inst.(acks := Heard(fs, inst.ballot), promised := inst'.promised, valueBallot := inst'.valueBallot)
    && KnowsHighest(inst', fs, inst.ballot)
  }

  lemma CountsInRange(fs: seq<Fields>, b: nat, i: nat)
    requires Counts(fs, b, i)
    ensures i < |fs| && fs[i].ballot == b
  {
  }

  /** The vote known from all but the last promise is one of all promises. */
  lemma StillReported(inst: Instance, fs: seq<Fields>, b: nat) returns (i: nat)
    requires fs != [] && KnowsHighest(inst, fs[..|fs| - 1], b) && inst.promised.Some?
    ensures IsKnown(inst, fs, b, i)
  {
    var n := |fs| - 1;
    i :| IsKnown(inst, fs[..n], b, i);
    CountsPrefix(fs, b, n);
    CountsInRange(fs[..n], b, i);
    hide Counts;
    forall j: nat | j < i && Counts(fs, b, j) && Reports(fs[j]) ensures fs[j].valueBallot < fs[i].valueBallot {
      assert Counts(fs[..n], b, j);
    }
  }

  lemma EarlierBelow(inst: Instance, fs: seq<Fields>, b: nat, i: nat)
    requires fs != [] && KnowsHighest(inst, fs[..|fs| - 1], b) && i < |fs| - 1 && Counts(fs, b, i) && Reports(fs[i])
    ensures inst.promised.Some? && fs[i].valueBallot <= inst.valueBallot
  {
    var n := |fs| - 1;
    CountsPrefix(fs, b, n);
    assert Counts(fs[..n], b, i);
  }

  lemma NotCounted(inst: Instance, fs: seq<Fields>, b: nat)
    requires fs != [] && KnowsHighest(inst, fs[..|fs| - 1], b) && !Counts(fs, b, |fs| - 1)
    ensures KnowsHighest(inst, fs, b)
  {
    if inst.promised.Some? {
      var i := StillReported(inst, fs, b);
    }
    forall i: nat | Counts(fs, b, i) && Reports(fs[i])
      ensures inst.promised.Some? && fs[i].valueBallot <= inst.valueBallot
    {
      EarlierBelow(inst, fs, b, i);
    }
  }

  lemma Counted(inst: Instance, fs: seq<Fields>, b: nat)
    requires fs != [] && KnowsHighest(inst, fs[..|fs| - 1], b) && Counts(fs, b, |fs| - 1)
    ensures KnowsHighest(AddPromise(inst, fs[|fs| - 1]), fs, b)
  {
    var n := |fs| - 1;
    var after := AddPromise(inst, fs[n]);
    if after.promised.Some? && !(Reports(fs[n]) && inst.valueBallot < fs[n].valueBallot) {
      var i := StillReported(inst, fs, b);
      assert IsKnown(after, fs, b, i);
    }
    hide Counts;
    forall i: nat | Counts(fs, b, i) && Reports(fs[i])
      ensures after.promised.Some? && fs[i].valueBallot <= after.valueBallot
    {
      CountsInRange(fs, b, i);
      if i < n {
        EarlierBelow(inst, fs, b, i);
      }
    }
    if Reports(fs[n]) && inst.valueBallot < fs[n].valueBallot {
      assert IsKnown(after, fs, b, n);
    }
  }

  /** One more promise, at the instance's ballot or below. */
  lemma OnePromise(inst: Instance, before: Instance, fs: seq<Fields>)
    requires fs != [] && fs[|fs| - 1].ballot <= inst.ballot && AfterPromises(inst, before, fs[..|fs| - 1])
    ensures var f := fs[|fs| - 1];
            AfterPromises(inst, if f.ballot < inst.ballot || f.aid in before.acks then before else AddPromise(before, f), fs)
  {
    HeardOneMore(fs, inst.ballot);
    LastCounts(fs, inst.ballot);
    hide KnowsHighest, Counts, Heard;
    if Counts(fs, inst.ballot, |fs| - 1) {
      Counted(before, fs, inst.ballot);
    } else {
      NotCounted(before, fs, inst.ballot);
    }
  }

  /** Where phase one of an instance stands: its ballot, and how many of the promises came before it took that ballot. */
  datatype Attempt = Attempt(ballot: nat, since: nat)

  /** A promise above the ballot costs the instance its ballot: it goes ten up, in 32 bits, and starts again. */
  function AttemptAfter(id: nat, ballot: nat, fs: seq<Fields>): (a: Attempt)
    ensures a.since <= |fs|
  {
    if fs == [] then Attempt(ballot, 0)
    else
      var n := |fs| - 1;
      var a := AttemptAfter(id, ballot, fs[..n]);
      if a.ballot < fs[n].ballot then Attempt(if a.ballot == 0 then (id + 10) % 0x1_0000_0000 else (a.ballot + 10) % 0x1_0000_0000, n + 1)
      else a
  }

  /** How many of the promises were above the ballot when they came. */
  function Outbids(id: nat, ballot: nat, fs: seq<Fields>): nat {
    if fs == [] then 0
    else
      var n := |fs| - 1;
      Outbids(id, ballot, fs[..n]) + if AttemptAfter(id, ballot, fs[..n]).ballot < fs[n].ballot then 1 else 0
  }

  /** Messages carry 16 bits of a ballot, so no ballot wraps: each promise above the ballot adds exactly ten. */
  lemma {:induction false} TenPerOutbid(id: nat, ballot: nat, fs: seq<Fields>)
    requires 0 < ballot && forall i :: 0 <= i < |fs| ==> fs[i].ballot < 0x1_0000
    ensures AttemptAfter(id, ballot, fs).ballot == ballot + 10 * Outbids(id, ballot, fs)
  {
    if fs != [] {
      TenPerOutbid(id, ballot, fs[..|fs| - 1]);
    }
  }

  lemma {:induction false} NeverOutbid(id: nat, ballot: nat, fs: seq<Fields>)
    requires forall i :: 0 <= i < |fs| ==> fs[i].ballot <= ballot
    ensures AttemptAfter(id, ballot, fs) == Attempt(ballot, 0)
  {
    if fs != [] {
      NeverOutbid(id, ballot, fs[..|fs| - 1]);
    }
  }

  /** The instance at the start of an attempt, which took its ballot at clock `now` unless it is the first. */
  function AtStart(inst: Instance, a: Attempt, now: int): Instance {
    inst.(ballot := a.ballot, createdAt := if a.since == 0 then inst.createdAt else now)
  }

  /** Phase one, whatever promises arrive for a fresh instance. Its ballot went up at each promise above it, it has
      counted exactly the distinct acceptors that promised the ballot since it took it, and it knows the highest vote
      they reported; its client value and everything else are as before. */
  lemma {:induction false} AnyPromises(s: State, iid: nat, fs: seq<Fields>, now: int)
    requires iid in s.preparing && IsFresh(s.preparing[iid])
    requires forall i :: 0 <= i < |fs| ==> fs[i].iid == iid
    ensures var s', a := PromiseAll(s, fs, now), AttemptAfter(s.id, s.preparing[iid].ballot, fs);
            && iid in s'.preparing && s' == s.(preparing := s.preparing[iid := s'.preparing[iid]])
            && AfterPromises(AtStart(s.preparing[iid], a, now), s'.preparing[iid], fs[a.since..])
  {
    hide KnowsHighest, Heard, AddPromise, AfterPromises;
    var inst := s.preparing[iid];
    if fs == [] {
      assert s.preparing[iid := inst] == s.preparing;
      NothingHeard(AtStart(inst, Attempt(inst.ballot, 0), now));
    } else {
      var n := |fs| - 1;
      AnyPromises(s, iid, fs[..n], now);
      SameBallot(AtStart(inst, AttemptAfter(s.id, inst.ballot, fs[..n]), now), PromiseAll(s, fs[..n], now).preparing[iid],
                 fs[..n][AttemptAfter(s.id, inst.ballot, fs[..n]).since..]);
      OneOfAny(s.id, inst, PromiseAll(s, fs[..n], now).preparing[iid], fs, now);
    }
  }

  lemma SameBallot(inst: Instance, inst': Instance, fs: seq<Fields>)
    requires AfterPromises(inst, inst', fs)
    ensures inst' == inst.(acks := inst'.acks, promised := inst'.promised, valueBallot := inst'.valueBallot)
  {
  }

  /** One more promise, whatever its ballot. */
  lemma OneOfAny(id: nat, inst: Instance, before: Instance, fs: seq<Fields>, now: int)
    requires fs != []
    requires var before', a := fs[..|fs| - 1], AttemptAfter(id, inst.ballot, fs[..|fs| - 1]);
             IsFresh(inst) && AfterPromises(AtStart(inst, a, now), before, before'[a.since..])
    ensures var f, a := fs[|fs| - 1], AttemptAfter(id, inst.ballot, fs);
            && AfterPromises(AtStart(inst, a, now),
                 if before.ballot < f.ballot then Preempt(id, before, now)
                 else if f.ballot < before.ballot || f.aid in before.acks then before else AddPromise(before, f), fs[a.since..])
  {
    var n := |fs| - 1;
    SameBallot(AtStart(inst, AttemptAfter(id, inst.ballot, fs[..n]), now), before, fs[..n][AttemptAfter(id, inst.ballot, fs[..n]).since..]);
    var a, a' := AttemptAfter(id, inst.ballot, fs[..n]), AttemptAfter(id, inst.ballot, fs);
    assert a' == if a.ballot < fs[n].ballot then Attempt(NextBallot(id, a.ballot), n + 1) else a;
    hide KnowsHighest, Heard, AddPromise, AttemptAfter, NextBallot;
    if a.ballot < fs[n].ballot {
      assert fs[n + 1..] == [];
      NothingHeard(Preempt(id, before, now));
    } else {
      assert fs[..n][a.since..] == fs[a.since..][..n - a.since];
      hide AfterPromises;
      OnePromise(AtStart(inst, a, now), before, fs[a.since..]);
    }
  }

  lemma NothingHeard(inst: Instance)
    requires IsFresh(inst)
    ensures AfterPromises(inst, inst, [])
  {
    assert Heard([], inst.ballot) == {};
  }

  /** Every promise above the ballot, and no other, is answered with a prepare at the new ballot. */
  lemma OutbidAnswered(s: State, iid: nat, fs: seq<Fields>, now: int, k: nat)
    requires iid in s.preparing && IsFresh(s.preparing[iid]) && k < |fs|
    requires forall i :: 0 <= i < |fs| ==> fs[i].iid == iid
    ensures var inst := s.preparing[iid];
            ReceivePromise(PromiseAll(s, fs[..k], now), fs[k], now).1
            == if AttemptAfter(s.id, inst.ballot, fs[..k]).ballot < fs[k].ballot
               then Some(Prepare(Fields(inst.iid, Wire16(AttemptAfter(s.id, inst.ballot, fs[..k + 1]).ballot), 0, 0, [])))
               else None
  {
    assert fs[..k + 1][..k] == fs[..k];
    var a := AttemptAfter(s.id, s.preparing[iid].ballot, fs[..k]);
    assert a.ballot < fs[k].ballot ==> AttemptAfter(s.id, s.preparing[iid].ballot, fs[..k + 1]).ballot == NextBallot(s.id, a.ballot);
    hide KnowsHighest, Heard, AfterPromises, PromiseAll, AttemptAfter, NextBallot, Wire16, AddPromise;
    AnyPromises(s, iid, fs[..k], now);
    SameBallot(AtStart(s.preparing[iid], a, now), PromiseAll(s, fs[..k], now).preparing[iid], fs[..k][a.since..]);
  }

  /** When none of the promises is above the ballot, all of them are for the one attempt. */
  lemma PhaseOne(s: State, iid: nat, fs: seq<Fields>, now: int)
    requires iid in s.preparing && IsFresh(s.preparing[iid])
    requires forall i :: 0 <= i < |fs| ==> fs[i].iid == iid && fs[i].ballot <= s.preparing[iid].ballot
    ensures var s' := PromiseAll(s, fs, now);
            && iid in s'.preparing && s' == s.(preparing := s.preparing[iid := s'.preparing[iid]])
            && AfterPromises(s.preparing[iid], s'.preparing[iid], fs)
  {
    AnyPromises(s, iid, fs, now);
    NeverOutbid(s.id, s.preparing[iid].ballot, fs);
    assert fs[0..] == fs;
  }

  /** Promise `i` counts and reports the highest ballot of all that count, whatever its value; promises that report
      the same ballot report the same value. */
  ghost predicate IsHighestReport(fs: seq<Fields>, b: nat, i: nat) {
    && Counts(fs, b, i) && 0 < fs[i].valueBallot
    && forall j: nat :: Counts(fs, b, j) ==>
         fs[j].valueBallot <= fs[i].valueBallot && (fs[j].valueBallot == fs[i].valueBallot ==> fs[j].value == fs[i].value)
  }

  /** After phase one the instance knows the highest vote reported to it exactly when that vote's value is not empty. */
  lemma KnownUnlessEmpty(s: State, iid: nat, fs: seq<Fields>, now: int, i: nat)
    requires iid in s.preparing && IsFresh(s.preparing[iid]) && IsHighestReport(fs, s.preparing[iid].ballot, i)
    requires forall j :: 0 <= j < |fs| ==> fs[j].iid == iid && fs[j].ballot <= s.preparing[iid].ballot
    ensures var s' := PromiseAll(s, fs, now);
            iid in s'.preparing
            && (s'.preparing[iid].promised == Some(fs[i].value) && s'.preparing[iid].valueBallot == fs[i].valueBallot <==> fs[i].value != [])
  {
    PhaseOne(s, iid, fs, now);
    var b, inst := s.preparing[iid].ballot, PromiseAll(s, fs, now).preparing[iid];
    hide Counts, PromiseAll;
    assert KnowsHighest(inst, fs, b);
    if inst.promised.Some? {
      var j: nat :| IsKnown(inst, fs, b, j);
    }
  }

  // ---------- Phase two ----------

  function AcceptAll(s: State, fs: seq<Fields>): State {
    if fs == [] then s else ReceiveAccepted(AcceptAll(s, fs[..|fs| - 1]), fs[|fs| - 1]).0
  }

  /** The proposer after the acks `fs` for the instance `iid` of `s`. */
  ghost function AfterAcks(s: State, iid: nat, fs: seq<Fields>): State
    requires iid in s.accepting
  {
    var inst := s.accepting[iid];
    if |Heard(fs, inst.ballot)| < QuorumSize(s.acceptors)
    then s.(accepting := s.accepting[iid := inst.(acks := Heard(fs, inst.ballot))])
    else s.(accepting := s.accepting - {iid}, queue := s.queue + GivenBack(inst))
  }

  lemma HeardGrows(fs: seq<Fields>, b: nat)
    requires fs != []
    ensures |Heard(fs[..|fs| - 1], b)| <= |Heard(fs, b)|
  {
    HeardOneMore(fs, b);
    hide Heard;
    SubsetSize(Heard(fs[..|fs| - 1], b), Heard(fs, b));
  }

  /** Phase two: the instance stays open with the distinct acceptors counted until they are a quorum. The ack that
      completes the quorum, and no other, is reported as closing; a displaced client value then goes back to the queue.
      An ack is reported as dropped exactly when the instance is closed or its acceptor adds nothing. */
  lemma {:induction false} PhaseTwo(s: State, iid: nat, fs: seq<Fields>)
    requires iid in s.accepting && s.accepting[iid].acks == {}
    requires forall i :: 0 <= i < |fs| ==> fs[i].iid == iid
    ensures AcceptAll(s, fs) == AfterAcks(s, iid, fs)
    ensures fs != [] ==>
              var before, b := fs[..|fs| - 1], s.accepting[iid].ballot;
              (ReceiveAccepted(AcceptAll(s, before), fs[|fs| - 1]).1 == 2
               <==> |Heard(before, b)| < QuorumSize(s.acceptors) <= |Heard(fs, b)|)
              && (ReceiveAccepted(AcceptAll(s, before), fs[|fs| - 1]).1 == 0
                  <==> QuorumSize(s.acceptors) <= |Heard(before, b)| || Heard(before, b) == Heard(fs, b))
  {
    var b := s.accepting[iid].ballot;
    if fs == [] {
      assert Heard(fs, b) == {};
      assert s.accepting[iid := s.accepting[iid]] == s.accepting;
    } else {
      var n := |fs| - 1;
      PhaseTwo(s, iid, fs[..n]);
      HeardOneMore(fs, b);
      HeardGrows(fs, b);
      hide Heard, GivenBack;
      LastAck(s, iid, fs);
    }
  }

  lemma LastAck(s: State, iid: nat, fs: seq<Fields>)
    requires iid in s.accepting && fs != [] && fs[|fs| - 1].iid == iid
    requires var f, b := fs[|fs| - 1], s.accepting[iid].ballot;
             var before := Heard(fs[..|fs| - 1], b);
             Heard(fs, b) == (if f.ballot == b then before + {f.aid} else before) && |before| <= |Heard(fs, b)|
    ensures var f, mid := fs[|fs| - 1], AfterAcks(s, iid, fs[..|fs| - 1]);
            var b := s.accepting[iid].ballot;
            && ReceiveAccepted(mid, f).0 == AfterAcks(s, iid, fs)
            && (ReceiveAccepted(mid, f).1 == 2 <==> |Heard(fs[..|fs| - 1], b)| < QuorumSize(s.acceptors) <= |Heard(fs, b)|)
            && (ReceiveAccepted(mid, f).1 == 0
                <==> QuorumSize(s.acceptors) <= |Heard(fs[..|fs| - 1], b)| || Heard(fs[..|fs| - 1], b) == Heard(fs, b))
  {
    hide Heard, GivenBack;
    var inst, f := s.accepting[iid], fs[|fs| - 1];
    var before, after := Heard(fs[..|fs| - 1], inst.ballot), Heard(fs, inst.ballot);
    if |before| < QuorumSize(s.acceptors) {
      if f.ballot == inst.ballot && f.aid in before {
        assert after == before;
      }
      var mid := s.accepting[iid := inst.(acks := before)];
      assert mid - {iid} == s.accepting - {iid};
      assert mid[iid := inst.(acks := after)] == s.accepting[iid := inst.(acks := after)];
      assert GivenBack(inst.(acks := before)) == GivenBack(inst) by { SameGivenBack(inst, before); }
    }
  }

  lemma SameGivenBack(inst: Instance, acks: set<nat>)
    ensures GivenBack(inst.(acks := acks)) == GivenBack(inst)
  {
  }

  // ---------- A whole round ----------

  /** The promises of a majority, then the acks of a majority, take the smallest open instance through. An instance
      without a client value takes the head of the queue. The accept request carries the highest reported vote, or else
      the client's value, and the instance ends in neither table, with the client's value back at the end of the queue
      exactly when another value took its place. */
  lemma RoundCompletes(s: State, iid: nat, promises: seq<Fields>, acks: seq<Fields>, now: int)
    requires IsSmallest(s.preparing, iid) && iid !in s.accepting && IsFresh(s.preparing[iid])
    requires forall i :: 0 <= i < |promises| ==> promises[i].iid == iid && promises[i].ballot <= s.preparing[iid].ballot
    requires forall i :: 0 <= i < |acks| ==> acks[i].iid == iid
    requires QuorumSize(s.acceptors) <= |Heard(promises, s.preparing[iid].ballot)|
    requires QuorumSize(s.acceptors) <= |Heard(acks, s.preparing[iid].ballot)|
    ensures var inst, ready := s.preparing[iid], PromiseAll(s, promises, now);
            && IsSmallest(ready.preparing, iid)
            && var vote, takes := ready.preparing[iid].promised, inst.value.None? && s.queue != [];
            && var own, rest := if takes then Some(s.queue[0]) else inst.value, if takes then s.queue[1..] else s.queue;
            && var (sent, request) := AcceptNext(ready, Some(iid));
            && (request.None? <==> vote.None? && own.None?)
            && (request.Some? ==>
                  && var v := if vote.Some? then vote.value else own.value;
                  && request == Some(Accept(Fields(inst.iid, Wire16(inst.ballot), Wire16(inst.ballot), 0, v)))
                  && AcceptAll(sent, acks) ==
                       s.(preparing := s.preparing - {iid},
                          queue := rest + if vote.Some? && own.Some? && own != vote then [own.value] else []))
  {
    PhaseOne(s, iid, promises, now);
    var inst, ready := s.preparing[iid], PromiseAll(s, promises, now);
    var inst' := ready.preparing[iid];
    hide Heard, KnowsHighest, PromiseAll, AcceptAll, AcceptNext, QuorumSize, IsSmallest;
    PromisesKeepSmallest(s, iid, inst');
    Request(s, iid, ready, inst');
    if AcceptNext(ready, Some(iid)).1.Some? {
      PhaseTwo(AcceptNext(ready, Some(iid)).0, iid, acks);
    }
  }

  lemma PromisesKeepSmallest(s: State, iid: nat, inst: Instance)
    requires IsSmallest(s.preparing, iid) && inst.iid == s.preparing[iid].iid
    ensures IsSmallest(s.preparing[iid := inst], iid)
  {
  }

  /** What proposer_accept makes of an instance with a quorum. */
  lemma Request(s: State, iid: nat, ready: State, inst: Instance)
    requires iid in s.preparing && iid !in s.accepting && QuorumSize(s.acceptors) <= |inst.acks|
    requires ready == s.(preparing := s.preparing[iid := inst]) && inst.value == s.preparing[iid].value
    ensures var own := WithValue(inst, s.queue);
            var (sent, request) := AcceptNext(ready, Some(iid));
            if !HasSomeValue(own) then request.None?
            else
              && request == Some(ToAccept(own)) && iid in sent.accepting && sent.accepting[iid] == own.(acks := {})
              && sent.(accepting := sent.accepting - {iid}) == s.(preparing := s.preparing - {iid}, queue := AfterPop(inst, s.queue))
  {
    hide QuorumSize;
    assert ready.preparing - {iid} == s.preparing - {iid};
    assert s.accepting[iid := WithValue(inst, s.queue).(acks := {})] - {iid} == s.accepting;
  }

  // ---------- Preemption ----------

  /** The tables agree on every instance but `iid`. */
  ghost predicate SameElsewhere(m: Instances, m': Instances, iid: nat) {
    forall i: nat :: i != iid ==> (i in m <==> i in m') && (i in m ==> m'[i] == m[i])
  }

  /** A preempted reply has an effect exactly when it is above the ballot of an instance in phase two. That instance is
      then back in phase one and not in phase two, fresh, with its client value and a ballot ten up, and the one message
      sent is the prepare at that ballot. */
  lemma PreemptedExactly(s: State, f: Fields, now: int)
    ensures var (s', m) := ReceivePreempted(s, f, now);
            && (m.Some? <==> f.iid in s.accepting && s.accepting[f.iid].ballot < f.ballot)
            && (m.None? ==> s' == s)
            && (m.Some? ==>
                  && var inst := s.accepting[f.iid];
                  && var ballot := (10 + if inst.ballot == 0 then s.id else inst.ballot) % 0x1_0000_0000;
                  && f.iid !in s'.accepting && f.iid in s'.preparing && IsFresh(s'.preparing[f.iid])
                  && s'.preparing[f.iid].value == inst.value && s'.preparing[f.iid].iid == inst.iid
                  && s'.preparing[f.iid].ballot == ballot && s'.preparing[f.iid].createdAt == now
                  && m == Some(Prepare(Fields(inst.iid, ballot % 0x1_0000, 0, 0, [])))
                  && SameElsewhere(s.preparing, s'.preparing, f.iid) && SameElsewhere(s.accepting, s'.accepting, f.iid)
                  && s' == s.(preparing := s'.preparing, accepting := s'.accepting))
  {
  }

  lemma BackInPhaseOne(s: State, f: Fields, now: int)
    requires f.iid in s.accepting && s.accepting[f.iid].iid == f.iid && 0 < s.accepting[f.iid].ballot < f.ballot < 0x1_0000
    requires forall j :: j in s.preparing ==> f.iid <= s.preparing[j].iid
    ensures var s' := ReceivePreempted(s, f, now).0;
            && IsSmallest(s'.preparing, f.iid) && f.iid !in s'.accepting && IsFresh(s'.preparing[f.iid])
            && s'.preparing[f.iid].iid == f.iid && s'.preparing[f.iid].value == s.accepting[f.iid].value
            && s'.preparing[f.iid].ballot == s.accepting[f.iid].ballot + 10
            && s'.preparing - {f.iid} == s.preparing - {f.iid}
            && s' == s.(preparing := s'.preparing, accepting := s.accepting - {f.iid})
  {
    var s' := ReceivePreempted(s, f, now).0;
    assert s'.preparing - {f.iid} == s.preparing - {f.iid};
  }

  /** A preempted instance is not lost: the promises and the acks of a majority at the ballot ten up take it through, with
      the client value it had. */
  lemma PreemptedRecovers(s: State, f: Fields, promises: seq<Fields>, acks: seq<Fields>, now: int)
    requires f.iid in s.accepting && s.accepting[f.iid].iid == f.iid && 0 < s.accepting[f.iid].ballot < f.ballot < 0x1_0000
    requires forall j :: j in s.preparing ==> f.iid <= s.preparing[j].iid
    requires forall i :: 0 <= i < |promises| ==> promises[i].iid == f.iid && promises[i].ballot <= s.accepting[f.iid].ballot + 10
    requires forall i :: 0 <= i < |acks| ==> acks[i].iid == f.iid
    requires QuorumSize(s.acceptors) <= |Heard(promises, s.accepting[f.iid].ballot + 10)|
    requires QuorumSize(s.acceptors) <= |Heard(acks, s.accepting[f.iid].ballot + 10)|
    ensures var inst, b := s.accepting[f.iid], s.accepting[f.iid].ballot + 10;
            && var takes := inst.value.None? && s.queue != [];
            && var own, rest := if takes then Some(s.queue[0]) else inst.value, if takes then s.queue[1..] else s.queue;
            && var ready := PromiseAll(ReceivePreempted(s, f, now).0, promises, now);
            && IsSmallest(ready.preparing, f.iid)
            && var vote := ready.preparing[f.iid].promised;
            && var (sent, request) := AcceptNext(ready, Some(f.iid));
            && (request.None? <==> vote.None? && own.None?)
            && (request.Some? ==>
                  && request.value == Accept(Fields(f.iid, Wire16(b), Wire16(b), 0, if vote.Some? then vote.value else own.value))
                  && AcceptAll(sent, acks) ==
                       s.(preparing := s.preparing - {f.iid}, accepting := s.accepting - {f.iid},
                          queue := rest + if vote.Some? && own.Some? && own != vote then [own.value] else []))
  {
    hide ReceivePreempted, PromiseAll, AcceptAll, AcceptNext, Heard, QuorumSize, IsSmallest;
    BackInPhaseOne(s, f, now);
    RoundCompletes(ReceivePreempted(s, f, now).0, f.iid, promises, acks, now);
  }
}
