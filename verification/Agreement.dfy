/** What the protocol is for, stated over all runs. */
module Agreement {
  import opened Types
  import opened Protocol
  import opened Invariant
  import opened Preservation
  import opened SystemSafety
  import opened Quorum
  import P = ProposerSpec
  import L = LearnerSpec

  // ---------- One instance at one moment ----------

  /** Once a majority has accepted `v` at `b`, every request at a higher ballot carries `v`. */
  lemma {:induction false} ChosenBindsHigher(net: set<Message>, n: nat, i: nat, b: nat, v: Value, b': nat, v': Value)
    requires NetInv(net, n) && ChosenAt(net, n, i, b, v) && AcceptMsg(i, b', v') in net && b < b'
    ensures v' == v
    decreases b'
  {
    hide PromisesOk, AcceptsUnique;
    var voters :| Majority(voters, n) && AllVoted(net, voters, i, b, v);
    assert Justified(net, n, i, b', v');
    var promisers, vb :| JustifiedBy(net, n, i, b', v', promisers, vb);
    var a := MajoritiesMeet(voters, promisers, n);
    assert HasPromise(net, i, b', a, vb);
    var f :| Promise(f) in net && f.iid == i && f.ballot == b' && f.aid == a && f.valueBallot <= vb;
    var vote := Fields(i, b, b, a, v);
    assert Accepted(vote) in net;
    assert b <= f.valueBallot && AcceptMsg(i, b, v) in net;
    if vb == b {
      SameRequest(net, n, i, b, v, v');
    } else {
      ChosenBindsHigher(net, n, i, b, v, vb, v');
    }
  }

  lemma SameRequest(net: set<Message>, n: nat, i: nat, b: nat, v: Value, v': Value)
    requires NetInv(net, n) && AcceptMsg(i, b, v) in net && AcceptMsg(i, b, v') in net
    ensures v' == v
  {
  }

  /** At most one value is ever chosen for an instance. */
  lemma ChosenUnique(net: set<Message>, n: nat, i: nat, v: Value, v': Value)
    requires NetInv(net, n) && Chosen(net, n, i, v) && Chosen(net, n, i, v')
    ensures v == v'
  {
    hide NetInv, ChosenAt;
    var b: nat :| ChosenAt(net, n, i, b, v);
    var b': nat :| ChosenAt(net, n, i, b', v');
    ChosenWasRequested(net, n, i, b, v);
    ChosenWasRequested(net, n, i, b', v');
    if b < b' {
      ChosenBindsHigher(net, n, i, b, v, b', v');
    } else if b' < b {
      ChosenBindsHigher(net, n, i, b', v', b, v);
    } else {
      SameRequest(net, n, i, b, v, v');
    }
  }

  // ---------- Over runs ----------

  /** Learner `l` has closed instance `i` with value `v`, and may have delivered it already. */
  ghost predicate Closed(s: System, l: nat, i: nat, v: Value) {
    && l < |s.learners|
    && var h := s.learners[l];
    || (i in h.state.instances && h.state.instances[i].final.Some? && h.state.instances[i].final.value.value == v)
    || (exists x :: 0 <= x < |h.log| && h.log[x].iid == i && h.log[x].value == v)
  }

  lemma ClosedIsChosenNow(s: System, l: nat, i: nat, v: Value)
    requires Inv(s) && Closed(s, l, i, v)
    ensures Chosen(s.net, |s.acceptors|, i, v)
  {
    hide NetInv, AcceptorInv, ProposerInv, Chosen;
    assert LearnerInv(s.learners[l], s.net, |s.acceptors|);
    var h := s.learners[l];
    if x :| 0 <= x < |h.log| && h.log[x].iid == i && h.log[x].value == v {
    } else {
      assert LearnerInstance(h.state.instances[i], i, s.net, |s.acceptors|);
    }
  }

  /** Agreement: whoever closes an instance, and whenever, closes it with the same value. */
  lemma LearnersAgree(run: seq<System>, j: nat, k: nat, l: nat, l': nat, i: nat, v: Value, v': Value)
    requires IsRun(run) && j <= k < |run|
    requires Closed(run[j], l, i, v) && Closed(run[k], l', i, v')
    ensures v == v'
  {
    hide IsRun, Closed, Inv, Chosen;
    RunInv(run, j);
    RunInv(run, k);
    RunGrows(run, j, k);
    ClosedIsChosenNow(run[j], l, i, v);
    ClosedIsChosenNow(run[k], l', i, v');
    ChosenGrows(run[j].net, run[k].net, |run[k].acceptors|, i, v);
    assert NetInv(run[k].net, |run[k].acceptors|) by { InvNet(run[k]); }
    ChosenUnique(run[k].net, |run[k].acceptors|, i, v, v');
  }

  lemma InvNet(s: System)
    requires Inv(s)
    ensures NetInv(s.net, |s.acceptors|)
  {
  }

  /** Once a majority has accepted `v` at ballot `b`, no proposer ever sends another value at a higher ballot,
      no matter what acceptors trim. */
  lemma ChosenIsLocked(run: seq<System>, j: nat, k: nat, i: nat, b: nat, v: Value, f: Fields)
    requires IsRun(run) && j < |run| && k < |run| && ChosenAt(run[j].net, |run[j].acceptors|, i, b, v)
    requires Accept(f) in run[k].net && f.iid == i && b < f.ballot
    ensures f.value == v
  {
    hide IsRun, Inv;
    var m := if j < k then k else j;
    RunInv(run, m);
    RunGrows(run, j, m);
    RunGrows(run, k, m);
    InvNet(run[m]);
    var q :| Majority(q, |run[j].acceptors|) && AllVoted(run[j].net, q, i, b, v);
    assert AllVoted(run[m].net, q, i, b, v);
    RequestForm(run[m].net, |run[m].acceptors|, f);
    hide NetInv;
    ChosenBindsHigher(run[m].net, |run[m].acceptors|, i, b, v, f.ballot, f.value);
  }

  lemma RequestForm(net: set<Message>, n: nat, f: Fields)
    requires NetInv(net, n) && Accept(f) in net
    ensures Accept(f) == AcceptMsg(f.iid, f.ballot, f.value)
  {
  }

  /** Two accept requests of a run with the same instance and ballot carry the same value, resends included. */
  lemma RequestsAgree(run: seq<System>, j: nat, k: nat, f: Fields, g: Fields)
    requires IsRun(run) && j <= k < |run| && Accept(f) in run[j].net && Accept(g) in run[k].net
    requires f.iid == g.iid && f.ballot == g.ballot
    ensures f.value == g.value
  {
    hide IsRun, Inv;
    RunInv(run, k);
    RunGrows(run, j, k);
    InvNet(run[k]);
  }

  // ---------- Total order and validity ----------

  /** What an application sees of a delivery. */
  ghost function Delivered(log: seq<Fields>): seq<(nat, Value)> {
    seq(|log|, x requires 0 <= x < |log| => (log[x].iid, log[x].value))
  }

  /** Whatever a learner was told and whenever, from each start on it delivers consecutive instances, beginning with
      the one the start names: 1 when it was created, `iid + 1` when it was moved to `iid`, or, without catch-up, the
      instance of the first ack it heard. */
  lemma DeliveriesNumbered(run: seq<System>, k: nat, l: nat)
    requires IsRun(run) && k < |run| && l < |run[k].learners|
    ensures Numbered(run[k].learners[l].log, run[k].learners[l].starts)
  {
    hide IsRun, NetInv, AcceptorInv, ProposerInv, Numbered;
    RunInv(run, k);
    assert LearnerInv(run[k].learners[l], run[k].net, |run[k].acceptors|);
  }

  /** Any two learners deliver the same value wherever their deliveries overlap, however they were moved. */
  lemma DeliveriesAgree(run: seq<System>, j: nat, k: nat, l: nat, l': nat, x: nat, x': nat)
    requires IsRun(run) && j <= k < |run| && l < |run[j].learners| && l' < |run[k].learners|
    requires x < |run[j].learners[l].log| && x' < |run[k].learners[l'].log|
    requires run[j].learners[l].log[x].iid == run[k].learners[l'].log[x'].iid
    ensures run[j].learners[l].log[x].value == run[k].learners[l'].log[x'].value
  {
    hide IsRun;
    var f, f' := run[j].learners[l].log[x], run[k].learners[l'].log[x'];
    assert Closed(run[j], l, f.iid, f.value) && Closed(run[k], l', f'.iid, f'.value);
    LearnersAgree(run, j, k, l, l', f.iid, f.value, f'.value);
  }

  /** Two learners that began to deliver at the same instance deliver the same values in the same order: `first`,
      `first + 1`, ..., one of the two sequences being a prefix of the other. */
  lemma TotalOrder(run: seq<System>, j: nat, k: nat, l: nat, l': nat, first: nat)
    requires IsRun(run) && j <= k < |run| && l < |run[j].learners| && l' < |run[k].learners|
    requires StartsAt(run[j].learners[l], first) && StartsAt(run[k].learners[l'], first)
    ensures var d, d' := Delivered(run[j].learners[l].log), Delivered(run[k].learners[l'].log);
            (forall x :: 0 <= x < |d| ==> d[x].0 == first + x) && (forall x :: 0 <= x < |d'| ==> d'[x].0 == first + x)
            && (d <= d' || d' <= d)
  {
    hide IsRun;
    var log, log' := run[j].learners[l].log, run[k].learners[l'].log;
    SingleSegment(run, j, l, first);
    SingleSegment(run, k, l', first);
    forall x | 0 <= x < |log| && x < |log'| ensures log[x].value == log'[x].value {
      DeliveriesAgree(run, j, k, l, l', x, x);
    }
  }

  /** The learner was last told where to go on before it delivered anything: by its creation, a move, or a first ack. */
  ghost predicate StartsAt(h: LearnerHost, first: nat) {
    h.starts != [] && LastStart(h.starts) == (0, first)
  }

  lemma SingleSegment(run: seq<System>, k: nat, l: nat, first: nat)
    requires IsRun(run) && k < |run| && l < |run[k].learners| && StartsAt(run[k].learners[l], first)
    ensures Segment(run[k].learners[l].log, 0, |run[k].learners[l].log|, first)
  {
    hide IsRun;
    DeliveriesNumbered(run, k, l);
    var h := run[k].learners[l];
    var i := |h.starts| - 1;
    assert Segment(h.log, h.starts[i].0, EndOf(h.log, h.starts, i), h.starts[i].1);
  }

  /** A learner moved to `iid` before it delivered anything, and not told again since, has delivered
      `iid + 1`, `iid + 2`, ... */
  lemma MovedLearner(run: seq<System>, j: nat, k: nat, l: nat, iid: nat)
    requires IsRun(run) && j < k < |run| && Next(run[j], AtLearner(l, Move(iid)), run[j + 1])
    requires run[j].learners[l].log == [] && l < |run[k].learners|
    requires run[k].learners[l].starts == run[j + 1].learners[l].starts
    ensures forall x :: 0 <= x < |run[k].learners[l].log| ==> run[k].learners[l].log[x].iid == iid + 1 + x
  {
    hide IsRun;
    assert StartsAt(run[k].learners[l], iid + 1);
    SingleSegment(run, k, l, iid + 1);
  }

  /** Every delivered value was given to some proposer by a client. */
  lemma DeliveredWasProposed(run: seq<System>, k: nat, l: nat, x: nat)
    requires IsRun(run) && k < |run| && l < |run[k].learners| && x < |run[k].learners[l].log|
    ensures exists p :: p in run[k].proposers && run[k].learners[l].log[x].value in run[k].proposers[p].proposed
  {
    hide IsRun, NetInv, AcceptorInv, ProposerInv, LearnerInv, ChosenAt;
    RunInv(run, k);
    var s, f := run[k], run[k].learners[l].log[x];
    assert Closed(s, l, f.iid, f.value);
    ClosedIsChosenNow(s, l, f.iid, f.value);
    var b: nat :| ChosenAt(s.net, |s.acceptors|, f.iid, b, f.value);
    ChosenWasRequested(s.net, |s.acceptors|, f.iid, b, f.value);
    assert Accept(Fields(f.iid, b, b, 0, f.value)) in s.net;
  }

  // ---------- Proposers ----------

  /** At every moment each value given to a proposer is queued, attached to one open instance, or retired;
      and it is retired only when it was chosen in the instance it was attached to. */
  lemma ValuesConserved(run: seq<System>, k: nat, p: nat)
    requires IsRun(run) && k < |run| && p in run[k].proposers
    ensures var h := run[k].proposers[p];
            && h.proposed == multiset(h.state.queue) + P.Pending(h.state.preparing) + P.Pending(h.state.accepting)
                             + RetiredValues(h.retired)
            && forall r :: r in h.retired ==> Chosen(run[k].net, |run[k].acceptors|, r.0, r.1)
  {
    hide IsRun, NetInv, AcceptorInv, LearnerInv, Chosen;
    RunInv(run, k);
    assert ProposerInv(p, run[k].proposers[p], run[k].net, |run[k].acceptors|);
  }

  /** When proposer_receive_accepted reports an instance closed, a majority of distinct acceptors has accepted
      exactly the value it requested, at its current ballot. */
  lemma ReportedCloseIsReal(run: seq<System>, k: nat, p: nat, f: Fields)
    requires IsRun(run) && k < |run| && p in run[k].proposers && Accepted(f) in run[k].net
    requires P.ReceiveAccepted(run[k].proposers[p].state, f).1 == 2
    ensures var inst := run[k].proposers[p].state.accepting[f.iid];
            P.HasSomeValue(inst) && ChosenAt(run[k].net, |run[k].acceptors|, f.iid, inst.ballot, P.AcceptValue(inst))
  {
    hide IsRun, NetInv, AcceptorInv, LearnerInv, ChosenAt, TablesOk, SentOk, PhasesOk, Conserved, RetiredChosen;
    RunInv(run, k);
    assert ProposerInv(p, run[k].proposers[p], run[k].net, |run[k].acceptors|);
    AcceptedCore(run[k].proposers[p].state, f, run[k].net, |run[k].acceptors|);
  }

  /** An ack on which a proposer has reported an instance closed, and which the leader sends on as chosen, names an
      instance, ballot and value that a majority has accepted. */
  lemma NoticeIsChosen(run: seq<System>, k: nat, p: nat, f: Fields)
    requires IsRun(run) && k < |run| && p in run[k].proposers && f in run[k].proposers[p].notices
    ensures ChosenAt(run[k].net, |run[k].acceptors|, f.iid, f.ballot, f.value)
  {
    hide IsRun, NetInv, AcceptorInv, LearnerInv, ChosenAt, TablesOk, SentOk, PhasesOk, Conserved, RetiredChosen;
    RunInv(run, k);
    assert ProposerInv(p, run[k].proposers[p], run[k].net, |run[k].acceptors|);
  }

  /** The two tables of a proposer never share an instance, hold every instance under its own id, and only
      ids it has opened, at ballots that are its own. */
  lemma TablesDisjoint(run: seq<System>, k: nat, p: nat)
    requires IsRun(run) && k < |run| && p in run[k].proposers
    ensures TablesOk(run[k].proposers[p].state, |run[k].acceptors|) && run[k].proposers[p].state.id == p
  {
    hide IsRun, NetInv, AcceptorInv, LearnerInv, TablesOk, SentOk, PhasesOk, Conserved, RetiredChosen;
    RunInv(run, k);
    assert ProposerInv(p, run[k].proposers[p], run[k].net, |run[k].acceptors|);
  }

  lemma {:induction false} CounterGrows(run: seq<System>, j: nat, k: nat, p: nat)
    requires IsRun(run) && j <= k < |run| && p in run[j].proposers
    ensures p in run[k].proposers && run[j].proposers[p].state.next <= run[k].proposers[p].state.next
    decreases k
  {
    hide Init, IsStep;
    if j < k {
      CounterGrows(run, j, k - 1, p);
      assert IsStep(run[k - 1], run[k - 1 + 1]);
      CounterStep(run[k - 1], run[k], p);
    }
  }

  lemma CounterStep(s: System, s': System, p: nat)
    requires IsStep(s, s') && p in s.proposers
    ensures p in s'.proposers && s.proposers[p].state.next <= s'.proposers[p].state.next
  {
    hide P.Enabled, P.AcceptNext, P.ReceivePromise, P.ReceivePreempted, P.ReceiveAccepted, AcceptorStep, LearnerStep;
    var act :| Next(s, act, s');
    if act.AtProposer? && act.p == p {
      NextKept(s.proposers[p].state, act.pa, s.net);
    }
  }

  lemma NextKept(s: P.State, act: P.Action, net: set<Message>)
    requires P.Enabled(s, act, net)
    ensures s.next <= P.Step(s, act, net).0.next
    ensures act.Open? ==> P.Step(s, act, net).0.next == s.next + 1
  {
  }

  /** The instance id a proposer opens next. */
  function NextOpened(s: System, p: nat): nat
    requires p in s.proposers
  {
    P.OpenInstance(s.proposers[p].state, 0).1.f.iid
  }

  /** No instance id is opened twice by a proposer: of two openings the later is for a larger id. */
  lemma OpenedOnce(run: seq<System>, j: nat, k: nat, p: nat, now: int, now': int)
    requires IsRun(run) && j < k < |run| - 1
    requires Next(run[j], AtProposer(p, P.Open(now)), run[j + 1]) && Next(run[k], AtProposer(p, P.Open(now')), run[k + 1])
    ensures NextOpened(run[j], p) < NextOpened(run[k], p)
    ensures P.OpenInstance(run[j].proposers[p].state, now).1.f.iid == NextOpened(run[j], p)
    ensures P.OpenInstance(run[k].proposers[p].state, now').1.f.iid == NextOpened(run[k], p)
  {
    CounterGrows(run, j + 1, k, p);
    NextKept(run[j].proposers[p].state, P.Open(now), run[j].net);
  }
}
