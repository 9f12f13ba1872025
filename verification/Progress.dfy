/** Runs that get somewhere: what is proved of deliveries is not empty. */
module Progress {
  import opened Types
  import opened Protocol
  import opened Scenarios
  import A = AcceptorSpec
  import L = LearnerSpec

  /** A quorum of the acceptors of `s`, each once, in some order. */
  predicate IsQuorum(s: System, q: seq<nat>) {
    Distinct(q) && QuorumSize(|s.acceptors|) <= |q| && forall x :: 0 <= x < |q| ==> q[x] < |s.acceptors|
  }

  ghost predicate HasDelivered(o: System, s: System, l: nat, v: Value) {
    && l < |s.learners| == |o.learners| && |s.learners[l].log| == 1
    && s.learners[l].log[0].iid == 1 && s.learners[l].log[0].value == v
  }

  lemma LearnAndDeliver(o: System, s: System, l: nat, f: Fields, q: seq<nat>) returns (s': System)
    requires Reaches(None, o, s) && l < |s.learners| && f.iid == 1 && IsQuorum(s, q)
    requires s.learners[l].state == L.Initial(|s.acceptors|, s.learners[l].catchUp) && s.learners[l].log == []
    requires forall x :: 0 <= x < |q| ==> Accepted(VoteOf(f, q[x])) in s.net
    ensures Reaches(None, o, s') && HasDelivered(s, s', l, f.value) && s'.net == s.net && s'.acceptors == s.acceptors
  {
    hide Reaches, L.Initial;
    var mid := TeachVotes(None, o, s, l, f, q);
    s' := LearnerMoves(None, o, mid, l, Deliver);
    assert L.DeliverNext(mid.learners[l].state).1 == mid.learners[l].state.instances[1].final;
  }

  /** From every initial state, a client value given to any proposer is delivered by any learner in some run in which
      only the acceptors of one quorum ever answer: any number of acceptors, any quorum of them, in any order. */
  lemma ValueDelivered(o: System, p: nat, v: Value, q: seq<nat>, l: nat) returns (run: seq<System>)
    requires Init(o) && p in o.proposers && v != [] && l < |o.learners| && IsQuorum(o, q)
    ensures IsRun(run) && run[0] == o && HasDelivered(o, run[|run| - 1], l, v)
    ensures var s := run[|run| - 1];
            |s.acceptors| == |o.acceptors| && forall a :: 0 <= a < |o.acceptors| && a !in q ==> s.acceptors[a] == o.acceptors[a]
  {
    ReachesInit(None, o);
    var s1 := Submit(None, o, o, p, v);
    hide Reaches;
    var s2 := Choose(None, o, s1, p, 1, q);
    var s3 := LearnAndDeliver(o, s2, l, AcceptRequest(1, Ballot(p), v), q);
    run := ReachedByRun(o, s3);
  }

  lemma FirstAsks(o: System, p: nat, p': nat, v: Value, q: seq<nat>) returns (s: System)
    requires Init(o) && p in o.proposers && p' in o.proposers && p < p' && v != [] && IsQuorum(o, q)
    ensures Reaches(None, o, s) && s.learners == o.learners && |s.acceptors| == |o.acceptors|
    ensures p' in s.proposers && s.proposers[p'] == o.proposers[p'] && Accept(AcceptRequest(1, Ballot(p), v)) in s.net
    ensures forall a :: 0 <= a < |s.acceptors| ==> Willing(s.acceptors[a], a, 1, Ballot(p'))
  {
    ReachesInit(None, o);
    hide Reaches;
    var s1 := Submit(None, o, o, p, v);
    s := Ask(None, o, s1, p, 1, q);
    forall a | 0 <= a < |s.acceptors| ensures Willing(s.acceptors[a], a, 1, Ballot(p')) {
      StillWilling(a, Ballot(p), Ballot(p'));
    }
  }

  lemma StillWilling(a: nat, b: nat, c: nat)
    requires b <= c
    ensures Willing(A.Initial(a), a, 1, c) && Willing(Promised(A.Initial(a), 1, b), a, 1, c)
  {
  }

  /** A contested instance: one proposer has its request out at its ballot when another, with a higher one, takes the
      same instance through any quorum and has its own value delivered. */
  lemma RivalDelivered(o: System, p: nat, p': nat, v: Value, w: Value, q: seq<nat>, q': seq<nat>, l: nat) returns (run: seq<System>)
    requires Init(o) && p in o.proposers && p' in o.proposers && p < p' && v != [] && w != [] && l < |o.learners|
    requires IsQuorum(o, q) && IsQuorum(o, q')
    ensures IsRun(run) && run[0] == o && HasDelivered(o, run[|run| - 1], l, w)
    ensures Accept(AcceptRequest(1, Ballot(p), v)) in run[|run| - 1].net && Accept(AcceptRequest(1, Ballot(p'), w)) in run[|run| - 1].net
  {
    var s1 := FirstAsks(o, p, p', v, q);
    hide Reaches, Willing;
    var s2 := Submit(None, o, s1, p', w);
    var s3 := Choose(None, o, s2, p', 1, q');
    var s4 := LearnAndDeliver(o, s3, l, AcceptRequest(1, Ballot(p'), w), q');
    run := ReachedByRun(o, s4);
  }
}
