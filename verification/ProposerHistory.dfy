/** A proposer over a whole history of calls: what it holds follows from the calls it was given and the messages it sent
    (paxos/proposer.c). */
module ProposerHistory {
  import opened Types
  import opened ProposerSpec
  import opened Rounds

  /** A proposer's calls, its states in between, and the messages it could be given. */
  datatype Trace = Trace(id: nat, acceptors: nat, net: set<Message>, states: seq<State>, acts: seq<Action>)

  ghost predicate Took(t: Trace, k: nat) {
    && k < |t.acts| && |t.states| == |t.acts| + 1
    && Enabled(t.states[k], t.acts[k], t.net) && t.states[k + 1] == Step(t.states[k], t.acts[k], t.net).0
  }

  ghost predicate IsTrace(t: Trace) {
    && |t.states| == |t.acts| + 1 && t.states[0] == Initial(t.id, t.acceptors)
    && forall k: nat :: k < |t.acts| ==> Took(t, k)
  }

  /** The messages call `k` sent. */
  ghost function Sent(t: Trace, k: nat): set<Message>
    requires Took(t, k)
  {
    Step(t.states[k], t.acts[k], t.net).1
  }

  ghost predicate SendsPrepare(sent: set<Message>, i: nat) {
    exists m :: m in sent && m.Prepare? && m.f.iid == i
  }

  ghost predicate SendsAccept(sent: set<Message>, i: nat) {
    exists m :: m in sent && m.Accept? && m.f.iid == i
  }

  function ClockOf(act: Action): int {
    match act
    case Open(now) => now
    case OnPromise(_, now) => now
    case OnPreempted(_, now) => now
    case ResendPrepare(_, now) => now
    case ResendAccept(_, now) => now
    case Reopen(_, now) => now
    case _ => 0
  }

  // ---------- What every reached state keeps ----------

  ghost predicate Keyed(m: Instances) {
    forall k :: k in m ==> m[k].iid == k
  }

  ghost predicate Kept(s: State, id: nat, acceptors: nat) {
    Keyed(s.preparing) && Keyed(s.accepting) && s.maxTrim <= s.next && s.id == id && s.acceptors == acceptors
  }

  lemma StepKeeps(s: State, act: Action, net: set<Message>)
    requires Enabled(s, act, net) && Kept(s, s.id, s.acceptors)
    ensures Kept(Step(s, act, net).0, s.id, s.acceptors)
  {
  }

  lemma {:induction false} AlwaysKept(t: Trace, k: nat)
    requires IsTrace(t) && k <= |t.acts|
    ensures Kept(t.states[k], t.id, t.acceptors)
  {
    if k != 0 {
      AlwaysKept(t, k - 1);
      assert Took(t, k - 1);
      StepKeeps(t.states[k - 1], t.acts[k - 1], t.net);
    }
  }

  // ---------- Instance ids ----------

  /** Call `k` opens the instance `i`, or names it as one to go past: an instance set by the caller or a trim reported
      by an acceptor. */
  ghost predicate Names(t: Trace, k: nat, i: nat)
    requires Took(t, k)
  {
    match t.acts[k]
    case Open(_) => SendsPrepare(Sent(t, k), i)
    case SetInstance(iid, _) => i == iid
    case OnAcceptorState(_, trimIid, _) => i == trimIid
    case _ => false
  }

  /** The largest id opened or named before call `k`, 0 if there was none. */
  ghost predicate IsLargestNamed(t: Trace, k: nat, i: nat)
    requires IsTrace(t) && k <= |t.acts|
  {
    && (i == 0 || exists j: nat :: j < k && Names(t, j, i))
    && forall j: nat, i': nat :: j < k && Names(t, j, i') ==> i' <= i
  }

  /** The prepare at the first ballot of the proposer `id`. */
  function FirstPrepare(id: nat, i: nat): Message {
    Prepare(Fields(i, (id + 10) % 0x1_0000, 0, 0, []))
  }

  lemma FirstBallot(id: nat)
    ensures Wire16(NextBallot(id, 0)) == (id + 10) % 0x1_0000
  {
    var x := id + 10;
    var r := x % 0x1_0000_0000;
    assert x == (x / 0x1_0000_0000 * 0x1_0000 + r / 0x1_0000) * 0x1_0000 + r % 0x1_0000;
  }

  /** How a call moves the proposer's counter. */
  ghost predicate Moves(s: State, act: Action, s': State, sent: set<Message>) {
    match act
    case Open(_) => s'.next == s.next + 1 && sent == {FirstPrepare(s.id, s.next + 1)}
    case SetInstance(iid, _) => s'.next == if s.next < iid then iid else s.next
    case OnAcceptorState(_, trimIid, _) => s'.next == if s.next < trimIid then trimIid else s.next
    case _ => s'.next == s.next
  }

  lemma NextStep(s: State, act: Action, net: set<Message>)
    requires Enabled(s, act, net) && Kept(s, s.id, s.acceptors)
    ensures Moves(s, act, Step(s, act, net).0, Step(s, act, net).1)
  {
    FirstBallot(s.id);
    hide NextBallot, Wire16;
  }

  lemma {:induction false} NextIsLargest(t: Trace, k: nat)
    requires IsTrace(t) && k <= |t.acts|
    ensures IsLargestNamed(t, k, t.states[k].next)
  {
    if k != 0 {
      var n := k - 1;
      NextIsLargest(t, n);
      AlwaysKept(t, n);
      assert Took(t, n);
      NextStep(t.states[n], t.acts[n], t.net);
      hide Step, Enabled;
      LargestOneMore(t, n);
    }
  }

  lemma LargestOneMore(t: Trace, n: nat)
    requires IsTrace(t) && n < |t.acts| && Took(t, n) && IsLargestNamed(t, n, t.states[n].next)
    requires Moves(t.states[n], t.acts[n], t.states[n + 1], Sent(t, n))
    ensures IsLargestNamed(t, n + 1, t.states[n + 1].next)
  {
    var next, next' := t.states[n].next, t.states[n + 1].next;
    hide Took, Sent, IsTrace;
    assert forall i: nat :: Names(t, n, i) ==> i <= next';
    assert next' != next ==> Names(t, n, next');
  }

  /** Each call of proposer_prepare opens the instance one above the largest id opened, set or reported trimmed before. */
  lemma OpensOneAbove(t: Trace, k: nat, largest: nat)
    requires IsTrace(t) && k < |t.acts| && t.acts[k].Open? && IsLargestNamed(t, k, largest)
    ensures Took(t, k) && Sent(t, k) == {FirstPrepare(t.id, largest + 1)}
  {
    assert Took(t, k);
    AlwaysKept(t, k);
    NextIsLargest(t, k);
    NextStep(t.states[k], t.acts[k], t.net);
  }

  /** How many of the calls open an instance. */
  function Opens(acts: seq<Action>): nat {
    if acts == [] then 0 else Opens(acts[..|acts| - 1]) + if acts[|acts| - 1].Open? then 1 else 0
  }

  lemma {:induction false} NextCounts(t: Trace, k: nat)
    requires IsTrace(t) && k <= |t.acts| && forall j :: 0 <= j < k ==> !t.acts[j].SetInstance? && !t.acts[j].OnAcceptorState?
    ensures t.states[k].next == Opens(t.acts[..k])
  {
    if k != 0 {
      NextCounts(t, k - 1);
      AlwaysKept(t, k - 1);
      assert Took(t, k - 1);
      assert t.acts[..k][..k - 1] == t.acts[..k - 1];
      NextStep(t.states[k - 1], t.acts[k - 1], t.net);
    }
  }

  /** Without such jumps the instances opened are 1, 2, 3 and so on, with no gap. */
  lemma NoGap(t: Trace, k: nat)
    requires IsTrace(t) && k < |t.acts| && t.acts[k].Open?
    requires forall j :: 0 <= j < k ==> !t.acts[j].SetInstance? && !t.acts[j].OnAcceptorState?
    ensures Took(t, k) && Sent(t, k) == {FirstPrepare(t.id, Opens(t.acts[..k]) + 1)}
  {
    assert Took(t, k);
    AlwaysKept(t, k);
    NextCounts(t, k);
    NextStep(t.states[k], t.acts[k], t.net);
  }

  // ---------- Instances in phase one ----------

  /** The call starts phase one of instance `i`, for the first time or again. */
  ghost predicate Starts(act: Action, sent: set<Message>, i: nat) {
    SendsPrepare(sent, i) && !act.ResendPrepare?
  }

  /** The promises for instance `i` given since its phase one last started. */
  ghost function PromisesSince(t: Trace, k: nat, i: nat): seq<Fields>
    requires IsTrace(t) && k <= |t.acts|
  {
    if k == 0 then []
    else
      assert Took(t, k - 1);
      var act := t.acts[k - 1];
      if Starts(act, Sent(t, k - 1), i) then []
      else PromisesSince(t, k - 1, i) + if act.OnPromise? && act.f.iid == i then [act.f] else []
  }

  /** The last call that sent a prepare for instance `i`. */
  ghost predicate IsLastPrepare(t: Trace, k: nat, i: nat, j: nat)
    requires IsTrace(t) && k <= |t.acts|
  {
    && j < k && SendsPrepare(Sent(t, j), i)
    && forall j': nat :: j < j' < k ==> !SendsPrepare(Sent(t, j'), i)
  }

  /** The same instance but for its clock. */
  predicate SameButClock(inst: Instance, inst': Instance) {
    inst' == inst.(createdAt := inst'.createdAt)
  }

  /** What a call makes of an instance that is in phase one after it. */
  ghost predicate PhaseOneStep(s: State, act: Action, s': State, sent: set<Message>, i: nat)
    requires i in s'.preparing
  {
    var inst' := s'.preparing[i];
    && (SendsPrepare(sent, i) ==> inst'.createdAt == ClockOf(act) && Prepare(Fields(i, Wire16(inst'.ballot), 0, 0, [])) in sent)
    && if Starts(act, sent, i) then IsFresh(inst')
       else
         && i in s.preparing && var inst := s.preparing[i];
         && (!SendsPrepare(sent, i) ==> inst'.createdAt == inst.createdAt)
         && if act.OnPromise? && act.f.iid == i
            then act.f.ballot <= inst.ballot && inst' == (if act.f.ballot < inst.ballot || act.f.aid in inst.acks then inst else AddPromise(inst, act.f))
            else SameButClock(inst, inst')
  }

  lemma PreparingStep(s: State, act: Action, net: set<Message>, i: nat)
    requires Enabled(s, act, net) && Kept(s, s.id, s.acceptors) && i in Step(s, act, net).0.preparing
    ensures PhaseOneStep(s, act, Step(s, act, net).0, Step(s, act, net).1, i)
  {
    hide NextBallot, Wire16;
  }

  /** What phase one of an instance knows, after the promises `fs`. */
  ghost predicate HasCounted(inst: Instance, fs: seq<Fields>) {
    inst.acks == Heard(fs, inst.ballot) && KnowsHighest(inst, fs, inst.ballot)
  }

  lemma CountedOneMore(inst: Instance, fs: seq<Fields>, f: Fields)
    requires HasCounted(inst, fs) && f.ballot <= inst.ballot
    ensures HasCounted(if f.ballot < inst.ballot || f.aid in inst.acks then inst else AddPromise(inst, f), fs + [f])
  {
    assert (fs + [f])[..|fs|] == fs;
    hide Heard, KnowsHighest;
    OnePromise(inst, inst, fs + [f]);
  }

  lemma CountedNothing(inst: Instance)
    requires IsFresh(inst)
    ensures HasCounted(inst, [])
  {
    NothingHeard(inst);
  }

  lemma CountedSame(inst: Instance, inst': Instance, fs: seq<Fields>)
    requires HasCounted(inst, fs) && SameButClock(inst, inst')
    ensures HasCounted(inst', fs)
  {
    if inst.promised.Some? {
      var i: nat :| IsKnown(inst, fs, inst.ballot, i);
      assert IsKnown(inst', fs, inst'.ballot, i);
    }
  }

  lemma CountedStep(s: State, act: Action, s': State, sent: set<Message>, i: nat, fs: seq<Fields>)
    requires i in s'.preparing && PhaseOneStep(s, act, s', sent, i)
    requires i in s.preparing ==> HasCounted(s.preparing[i], fs)
    ensures HasCounted(s'.preparing[i],
              if Starts(act, sent, i) then [] else fs + if act.OnPromise? && act.f.iid == i then [act.f] else [])
  {
    hide HasCounted, AddPromise, SendsPrepare;
    if Starts(act, sent, i) {
      CountedNothing(s'.preparing[i]);
    } else if act.OnPromise? && act.f.iid == i {
      CountedOneMore(s.preparing[i], fs, act.f);
    } else {
      assert fs + [] == fs;
      CountedSame(s.preparing[i], s'.preparing[i], fs);
    }
  }

  /** Phase one follows from the history: an instance in it has counted exactly the acceptors that promised its ballot
      since it last started, and knows the highest vote they reported. */
  lemma {:induction false} PhaseOneIsHistory(t: Trace, k: nat, i: nat)
    requires IsTrace(t) && k <= |t.acts| && i in t.states[k].preparing
    ensures HasCounted(t.states[k].preparing[i], PromisesSince(t, k, i))
  {
    if k != 0 {
      var n := k - 1;
      assert Took(t, n);
      AlwaysKept(t, n);
      PreparingStep(t.states[n], t.acts[n], t.net, i);
      hide HasCounted, PhaseOneStep, Step, Enabled, Starts;
      if i in t.states[n].preparing {
        PhaseOneIsHistory(t, n, i);
      }
      CountedStep(t.states[n], t.acts[n], t.states[k], Sent(t, n), i, PromisesSince(t, n, i));
    }
  }

  /** Its ballot is that of the last prepare sent for it, and its clock runs from then. */
  lemma {:induction false} ClockIsLastPrepare(t: Trace, k: nat, i: nat) returns (j: nat)
    requires IsTrace(t) && k <= |t.acts| && i in t.states[k].preparing
    ensures IsLastPrepare(t, k, i, j)
    ensures t.states[k].preparing[i].createdAt == ClockOf(t.acts[j])
    ensures Prepare(Fields(i, Wire16(t.states[k].preparing[i].ballot), 0, 0, [])) in Sent(t, j)
  {
    var n := k - 1;
    assert Took(t, n);
    AlwaysKept(t, n);
    PreparingStep(t.states[n], t.acts[n], t.net, i);
    hide AddPromise, Step, Enabled, SendsPrepare;
    if SendsPrepare(Sent(t, n), i) {
      j := n;
    } else {
      j := ClockIsLastPrepare(t, n, i);
    }
  }

  /** When a call starts phase one of instance `i`: it opens the instance, or is given a ballot above the instance's own. */
  predicate MustStart(s: State, act: Action, i: nat) {
    match act
    case Open(_) => i == s.next + 1
    case Reopen(iid, _) => i == iid
    case OnPromise(f, _) => f.iid == i && i in s.preparing && s.preparing[i].ballot < f.ballot
    case OnPreempted(f, _) => f.iid == i && i in s.accepting && s.accepting[i].ballot < f.ballot
    case _ => false
  }

  /** The instance that starts again, if it is not a new one. */
  function Earlier(s: State, act: Action, i: nat): Option<Instance> {
    if act.OnPreempted? && i in s.accepting then Some(s.accepting[i])
    else if (act.OnPromise? || act.Reopen?) && i in s.preparing then Some(s.preparing[i])
    else None
  }

  /** An instance that starts again keeps its client value and has a ballot ten up; a new one has no value and the
      proposer's first ballot. Both are fresh. */
  predicate IsStart(id: nat, earlier: Option<Instance>, inst: Instance) {
    && IsFresh(inst) && inst.value == (if earlier.Some? then earlier.value.value else None)
    && inst.ballot == (10 + if earlier.Some? && 0 < earlier.value.ballot then earlier.value.ballot else id) % 0x1_0000_0000
  }

  lemma StartStep(s: State, act: Action, net: set<Message>, i: nat)
    requires Enabled(s, act, net) && Kept(s, s.id, s.acceptors)
    ensures var (s', sent) := Step(s, act, net);
            && (Starts(act, sent, i) <==> MustStart(s, act, i))
            && (Starts(act, sent, i) ==> i in s'.preparing && IsStart(s.id, Earlier(s, act, i), s'.preparing[i]))
  {
    hide Wire16, QuorumSize;
  }

  /** Phase one starts exactly then, and so. */
  lemma StartRule(t: Trace, k: nat, i: nat)
    requires IsTrace(t) && k < |t.acts|
    ensures Took(t, k)
    ensures var s, act := t.states[k], t.acts[k];
            && (Starts(act, Sent(t, k), i) <==> MustStart(s, act, i))
            && (Starts(act, Sent(t, k), i) ==>
                  i in t.states[k + 1].preparing && IsStart(t.id, Earlier(s, act, i), t.states[k + 1].preparing[i]))
  {
    assert Took(t, k);
    AlwaysKept(t, k);
    StartStep(t.states[k], t.acts[k], t.net, i);
    hide Step, Enabled, Starts, MustStart, IsStart;
  }

  // ---------- Instances in phase two ----------

  /** The call moves instance `i` to phase two. */
  ghost predicate Requests(act: Action, sent: set<Message>, i: nat) {
    SendsAccept(sent, i) && act.TryAccept?
  }

  /** The acks for instance `i` given since it last moved to phase two. */
  ghost function AcksSince(t: Trace, k: nat, i: nat): seq<Fields>
    requires IsTrace(t) && k <= |t.acts|
  {
    if k == 0 then []
    else
      assert Took(t, k - 1);
      var act := t.acts[k - 1];
      if Requests(act, Sent(t, k - 1), i) then []
      else AcksSince(t, k - 1, i) + if act.OnAccepted? && act.f.iid == i then [act.f] else []
  }

  /** The last call that sent an accept request for instance `i`. */
  ghost predicate IsLastAccept(t: Trace, k: nat, i: nat, j: nat)
    requires IsTrace(t) && k <= |t.acts|
  {
    && j < k && SendsAccept(Sent(t, j), i)
    && forall j': nat :: j < j' < k ==> !SendsAccept(Sent(t, j'), i)
  }

  predicate HasAcks(inst: Instance, acks: set<nat>, acceptors: nat) {
    inst.acks == acks && |acks| < QuorumSize(acceptors)
  }

  /** The accept request of an instance is sent: at its ballot, with the vote it knows or else the client's value. */
  ghost predicate IsRequestOf(inst: Instance, i: nat, sent: set<Message>) {
    && (inst.promised.Some? || inst.value.Some?)
    && var v := if inst.promised.Some? then inst.promised.value else inst.value.value;
    && Accept(Fields(i, Wire16(inst.ballot), Wire16(inst.ballot), 0, v)) in sent
  }

  /** What a call makes of an instance that is in phase two after it. */
  ghost predicate PhaseTwoStep(s: State, act: Action, s': State, sent: set<Message>, i: nat)
    requires i in s'.accepting
  {
    var inst' := s'.accepting[i];
    && (SendsAccept(sent, i) ==> IsRequestOf(inst', i, sent))
    && if Requests(act, sent, i)
       then i in s.preparing && SameButClock(s.preparing[i].(acks := {}, value := inst'.value), inst') && inst'.createdAt == s.preparing[i].createdAt
       else
         && i in s.accepting && var inst := s.accepting[i];
         && (inst'.createdAt == if SendsAccept(sent, i) then ClockOf(act) else inst.createdAt)
         && if act.OnAccepted? && act.f.iid == i
            then && var acks := if act.f.ballot == inst.ballot then inst.acks + {act.f.aid} else inst.acks;
                 && inst' == inst.(acks := acks) && (acks == inst.acks || |acks| < QuorumSize(s.acceptors))
            else SameButClock(inst, inst')
  }

  lemma AcceptingStep(s: State, act: Action, net: set<Message>, i: nat)
    requires Enabled(s, act, net) && Kept(s, s.id, s.acceptors) && i in Step(s, act, net).0.accepting
    ensures PhaseTwoStep(s, act, Step(s, act, net).0, Step(s, act, net).1, i)
  {
    hide NextBallot, Wire16, QuorumSize;
    if act.OnAccepted? && i in s.accepting && act.f.aid in s.accepting[i].acks {
      assert s.accepting[i].acks + {act.f.aid} == s.accepting[i].acks;
    }
  }

  lemma AckedStep(s: State, act: Action, s': State, sent: set<Message>, i: nat, fs: seq<Fields>)
    requires i in s'.accepting && PhaseTwoStep(s, act, s', sent, i)
    requires i in s.accepting ==> HasAcks(s.accepting[i], Heard(fs, s.accepting[i].ballot), s.acceptors)
    ensures var fs' := if Requests(act, sent, i) then [] else fs + if act.OnAccepted? && act.f.iid == i then [act.f] else [];
            HasAcks(s'.accepting[i], Heard(fs', s'.accepting[i].ballot), s.acceptors)
  {
    hide SendsAccept, IsRequestOf;
    var b := s'.accepting[i].ballot;
    if Requests(act, sent, i) {
      assert Heard([], b) == {};
    } else if act.OnAccepted? && act.f.iid == i {
      assert (fs + [act.f])[..|fs|] == fs;
      HeardOneMore(fs + [act.f], b);
    } else {
      assert fs + [] == fs;
    }
  }

  /** Phase two follows from the history: an instance in it has counted exactly the acceptors that accepted its ballot
      since its request, and they are no majority yet. */
  lemma {:induction false} PhaseTwoIsHistory(t: Trace, k: nat, i: nat)
    requires IsTrace(t) && k <= |t.acts| && i in t.states[k].accepting
    ensures HasAcks(t.states[k].accepting[i], Heard(AcksSince(t, k, i), t.states[k].accepting[i].ballot), t.acceptors)
  {
    if k != 0 {
      var n := k - 1;
      assert Took(t, n);
      AlwaysKept(t, n);
      AcceptingStep(t.states[n], t.acts[n], t.net, i);
      hide HasAcks, PhaseTwoStep, Step, Enabled, Requests, Heard;
      if i in t.states[n].accepting {
        PhaseTwoIsHistory(t, n, i);
      }
      AckedStep(t.states[n], t.acts[n], t.states[k], Sent(t, n), i, AcksSince(t, n, i));
    }
  }

  /** The clock of an instance whose last accept request was sent by call `j`: a request sent again restarts it, the
      first request leaves it where the last prepare set it. */
  ghost predicate IsAcceptClock(t: Trace, i: nat, j: nat, clock: int)
    requires IsTrace(t) && j < |t.acts|
  {
    if t.acts[j].ResendAccept? then clock == ClockOf(t.acts[j])
    else exists p: nat :: IsLastPrepare(t, j, i, p) && clock == ClockOf(t.acts[p])
  }

  /** An instance in phase two is the one the last accept request was for. */
  lemma {:induction false} ClockIsLastAccept(t: Trace, k: nat, i: nat) returns (j: nat)
    requires IsTrace(t) && k <= |t.acts| && i in t.states[k].accepting
    ensures IsLastAccept(t, k, i, j) && IsRequestOf(t.states[k].accepting[i], i, Sent(t, j))
    ensures IsAcceptClock(t, i, j, t.states[k].accepting[i].createdAt)
  {
    hide Step, Enabled, SendsAccept, IsRequestOf, Took, AddPromise;
    var n := k - 1;
    AcceptingAt(t, n, i);
    if SendsAccept(Sent(t, n), i) {
      j := n;
      OnlyAccepts(t, n, i);
      if t.acts[n].TryAccept? {
        var p := ClockIsLastPrepare(t, n, i);
      }
    } else {
      j := ClockIsLastAccept(t, n, i);
      SameRequest(t.states[n].accepting[i], t.states[k].accepting[i], i, Sent(t, j));
    }
  }

  lemma AcceptingAt(t: Trace, n: nat, i: nat)
    requires IsTrace(t) && n < |t.acts| && i in t.states[n + 1].accepting
    ensures Took(t, n) && PhaseTwoStep(t.states[n], t.acts[n], t.states[n + 1], Sent(t, n), i)
  {
    assert Took(t, n);
    AlwaysKept(t, n);
    AcceptingStep(t.states[n], t.acts[n], t.net, i);
  }

  lemma SameRequest(inst: Instance, inst': Instance, i: nat, sent: set<Message>)
    requires IsRequestOf(inst, i, sent) && inst' == inst.(acks := inst'.acks, createdAt := inst'.createdAt)
    ensures IsRequestOf(inst', i, sent)
  {
  }

  lemma OnlyAccepts(t: Trace, n: nat, i: nat)
    requires Took(t, n) && SendsAccept(Sent(t, n), i)
    ensures t.acts[n].TryAccept? || t.acts[n].ResendAccept?
  {
  }

  // ---------- Where an instance is ----------

  /** The call makes the proposer go past instance `i`: it names an id above all before, and `i` is not above it. */
  predicate GoesPast(s: State, act: Action, i: nat) {
    match act
    case SetInstance(iid, _) => s.next < iid && i <= iid
    case OnAcceptorState(_, trimIid, _) => s.next < trimIid && i <= trimIid
    case _ => false
  }

  lemma PhasesStep(s: State, act: Action, net: set<Message>, i: nat)
    requires Enabled(s, act, net) && Kept(s, s.id, s.acceptors)
    ensures var (s', sent) := Step(s, act, net);
            && (i in s'.preparing <==> Starts(act, sent, i) || (i in s.preparing && !Requests(act, sent, i) && !GoesPast(s, act, i)))
            && (i in s'.accepting <==>
                  Requests(act, sent, i)
                  || (&& i in s.accepting && !GoesPast(s, act, i) && !(act.OnPreempted? && SendsPrepare(sent, i))
                      && !(act.OnAccepted? && act.f.iid == i && ReceiveAccepted(s, act.f).1 == 2)))
  {
    hide NextBallot, Wire16, QuorumSize;
  }

  lemma ClosesAtMajority(s: State, f: Fields, fs: seq<Fields>)
    requires f.iid in s.accepting && HasAcks(s.accepting[f.iid], Heard(fs, s.accepting[f.iid].ballot), s.acceptors)
    ensures ReceiveAccepted(s, f).1 == 2 <==> QuorumSize(s.acceptors) <= |Heard(fs + [f], s.accepting[f.iid].ballot)|
  {
    var inst := s.accepting[f.iid];
    assert (fs + [f])[..|fs|] == fs;
    HeardOneMore(fs + [f], inst.ballot);
    hide Heard, QuorumSize;
    if f.aid in inst.acks {
      assert inst.acks + {f.aid} == inst.acks;
    }
  }

  /** An instance is in phase one from the call that starts it to the one that sends its request or goes past it, and in
      phase two from its request to a preemption, to the ack that completes a majority, or to a call that goes past it. */
  lemma PhasesExactly(t: Trace, k: nat, i: nat)
    requires IsTrace(t) && k < |t.acts|
    ensures Took(t, k)
    ensures var s, s', act, sent := t.states[k], t.states[k + 1], t.acts[k], Sent(t, k);
            && (i in s'.preparing <==> Starts(act, sent, i) || (i in s.preparing && !Requests(act, sent, i) && !GoesPast(s, act, i)))
            && (i in s'.accepting <==>
                  Requests(act, sent, i)
                  || (&& i in s.accepting && !GoesPast(s, act, i) && !(act.OnPreempted? && SendsPrepare(sent, i))
                      && !(act.OnAccepted? && act.f.iid == i
                           && QuorumSize(t.acceptors) <= |Heard(AcksSince(t, k, i) + [act.f], s.accepting[i].ballot)|)))
  {
    assert Took(t, k);
    AlwaysKept(t, k);
    var s, act := t.states[k], t.acts[k];
    PhasesStep(s, act, t.net, i);
    hide Step, Enabled, Heard, Requests, Starts, SendsPrepare;
    if i in s.accepting && act.OnAccepted? && act.f.iid == i {
      PhaseTwoIsHistory(t, k, i);
      ClosesAtMajority(s, act.f, AcksSince(t, k, i));
    }
  }

  /** A request is sent for the smallest instance in phase one, exactly when a majority has promised its ballot since it
      last started and there is a value: a vote they reported, the client's value, or one that waits in the queue. */
  lemma RequestRule(t: Trace, k: nat, i: nat)
    requires IsTrace(t) && k < |t.acts| && t.acts[k] == TryAccept(Some(i))
    ensures Took(t, k) && IsSmallest(t.states[k].preparing, i)
    ensures var s := t.states[k]; var inst := s.preparing[i];
            SendsAccept(Sent(t, k), i) <==>
              && QuorumSize(t.acceptors) <= |Heard(PromisesSince(t, k, i), inst.ballot)|
              && (inst.promised.Some? || inst.value.Some? || s.queue != [])
  {
    assert Took(t, k);
    AlwaysKept(t, k);
    PhaseOneIsHistory(t, k, i);
    RequestStep(t.states[k], i);
    hide Heard, KnowsHighest, AcceptNext, QuorumSize, SendsAccept;
  }

  lemma RequestStep(s: State, i: nat)
    requires i in s.preparing && s.preparing[i].iid == i
    ensures SendsAccept(Optional(AcceptNext(s, Some(i)).1), i) <==>
              && QuorumSize(s.acceptors) <= |s.preparing[i].acks|
              && (s.preparing[i].promised.Some? || s.preparing[i].value.Some? || s.queue != [])
  {
  }

  // ---------- The queue ----------

  /** The call attaches the head of the queue to the instance it moves to phase two. */
  predicate Takes(s: State, act: Action, s': State) {
    && act.TryAccept? && act.k.Some? && act.k.value in s.preparing && act.k.value !in s'.preparing
    && s.preparing[act.k.value].value.None? && s.queue != []
  }

  /** What the call puts at the end of the queue: a new client value, the client value of an instance that closed on
      another one, or those of the instances the proposer goes past. */
  function Puts(s: State, act: Action, s': State): seq<Value> {
    match act
    case Submit(v) => [v]
    case OnAccepted(f) =>
      if f.iid in s.accepting && f.iid !in s'.accepting then
        var inst := s.accepting[f.iid];
        if inst.value.Some? && inst.promised.Some? && inst.promised != inst.value then [inst.value.value] else []
      else []
    case SetInstance(iid, returned) => if s.next < iid then returned else []
    case OnAcceptorState(_, trimIid, returned) => if s.next < trimIid then returned else []
    case _ => []
  }

  /** Everything put in the queue, in order. */
  function AllPut(t: Trace, k: nat): seq<Value>
    requires k < |t.states| && k <= |t.acts|
  {
    if k == 0 then [] else AllPut(t, k - 1) + Puts(t.states[k - 1], t.acts[k - 1], t.states[k])
  }

  /** How many values were taken from it. */
  function Taken(t: Trace, k: nat): nat
    requires k < |t.states| && k <= |t.acts|
  {
    if k == 0 then 0 else Taken(t, k - 1) + if Takes(t.states[k - 1], t.acts[k - 1], t.states[k]) then 1 else 0
  }

  lemma QueueStep(s: State, act: Action, net: set<Message>)
    requires Enabled(s, act, net) && Kept(s, s.id, s.acceptors)
    ensures var s' := Step(s, act, net).0;
            && s'.queue == (if Takes(s, act, s') then s.queue[1..] else s.queue) + Puts(s, act, s')
            && (Takes(s, act, s') ==> act.k.value in s'.accepting && s'.accepting[act.k.value].value == Some(s.queue[0]))
  {
    hide NextBallot, Wire16, QuorumSize;
  }

  lemma QueueAt(t: Trace, k: nat)
    requires IsTrace(t) && k < |t.acts|
    ensures var s, act, s' := t.states[k], t.acts[k], t.states[k + 1];
            && s'.queue == (if Takes(s, act, s') then s.queue[1..] else s.queue) + Puts(s, act, s')
            && (Takes(s, act, s') ==> act.k.value in s'.accepting && s'.accepting[act.k.value].value == Some(s.queue[0]))
  {
    AlwaysKept(t, k);
    assert Took(t, k);
    QueueStep(t.states[k], t.acts[k], t.net);
  }

  /** The queue is first in, first out: it holds what was put in it and not yet taken, and the next instance without a
      value takes the oldest of it. */
  lemma {:induction false} FirstInFirstOut(t: Trace, k: nat)
    requires IsTrace(t) && k <= |t.acts|
    ensures Taken(t, k) <= |AllPut(t, k)| && t.states[k].queue == AllPut(t, k)[Taken(t, k)..]
    ensures k < |t.acts| && Takes(t.states[k], t.acts[k], t.states[k + 1]) ==>
              && t.acts[k].k.value in t.states[k + 1].accepting && Taken(t, k) < |AllPut(t, k)|
              && t.states[k + 1].accepting[t.acts[k].k.value].value == Some(AllPut(t, k)[Taken(t, k)])
  {
    hide Step, Enabled, Puts, Took;
    if k != 0 {
      FirstInFirstOut(t, k - 1);
      QueueAt(t, k - 1);
    }
    if k < |t.acts| {
      QueueAt(t, k);
    }
  }
}
