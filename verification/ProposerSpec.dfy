/** What a proposer does with each call, as a function of its state (paxos/proposer.c). */
module ProposerSpec {
  import opened Types

  /** An instance in progress. `acks` is the set of ids its quorum counter has seen. */
  datatype Instance = Instance(
    iid: nat, ballot: nat, value: Option<Value>, promised: Option<Value>, valueBallot: nat, acks: set<nat>, createdAt: int)

  type Instances = map<nat, Instance>

  datatype State = State(
    id: nat, acceptors: nat, queue: seq<Value>, maxTrim: nat, next: nat, preparing: Instances, accepting: Instances)

  function Initial(id: nat, acceptors: nat): State {
    State(id, acceptors, [], 0, 0, map[], map[])
  }

  predicate Reached(inst: Instance, acceptors: nat) {
    QuorumSize(acceptors) <= |inst.acks|
  }

  /** proposer_next_ballot, in 32-bit arithmetic */
  function NextBallot(id: nat, b: nat): nat {
    (MAX_PROPOSERS + (if 0 < b then b else id)) % 0x1_0000_0000
  }

  function NewInstance(iid: nat, ballot: nat, now: int): Instance {
    Instance(iid, ballot, None, None, 0, {}, now)
  }

  function ToPrepare(inst: Instance): Message {
    Prepare(Fields(inst.iid, Wire16(inst.ballot), 0, 0, []))
  }

  predicate HasSomeValue(inst: Instance) {
    inst.value.Some? || inst.promised.Some?
  }

  /** The value an accept request carries: a promised value takes precedence. */
  function AcceptValue(inst: Instance): Value
    requires HasSomeValue(inst)
  {
    if inst.promised.Some? then inst.promised.value else inst.value.value
  }

  /** instance_to_accept */
  function ToAccept(inst: Instance): Message
    requires HasSomeValue(inst)
  {
    Accept(Fields(inst.iid, Wire16(inst.ballot), Wire16(inst.ballot), 0, AcceptValue(inst)))
  }

  /** proposer_preempt */
  function Preempt(id: nat, inst: Instance, now: int): Instance {
    inst.(ballot := NextBallot(id, inst.ballot), valueBallot := 0, promised := None, acks := {}, createdAt := now)
  }

  /** proposer_propose */
  function Propose(s: State, v: Value): State {
    s.(queue := s.queue + [v])
  }

  /** proposer_prepare */
  function OpenInstance(s: State, now: int): (State, Message) {
    var inst := NewInstance(s.next + 1, NextBallot(s.id, 0), now);
    (s.(next := s.next + 1, preparing := s.preparing[inst.iid := inst]), ToPrepare(inst))
  }

  /** proposer_prepare_instance: an instance not in phase one gets the proposer's first ballot, whatever became of it. */
  function PrepareInstance(s: State, iid: nat, now: int): (State, Message) {
    var inst := if iid in s.preparing then Preempt(s.id, s.preparing[iid], now) else NewInstance(iid, NextBallot(s.id, 0), now);
    (s.(preparing := s.preparing[iid := inst]), ToPrepare(inst))
  }

  /** The effect of a promise for the current ballot from an acceptor not heard before. */
  function AddPromise(inst: Instance, ack: Fields): Instance {
    var inst' := inst.(acks := inst.acks + {ack.aid});
    if ack.value != [] && inst.valueBallot < ack.valueBallot
    then inst'.(valueBallot := ack.valueBallot, promised := Some(ack.value))
    else inst'
  }

  /** proposer_receive_promise */
  function ReceivePromise(s: State, ack: Fields, now: int): (State, Option<Message>) {
    if ack.iid !in s.preparing then (s, None)
    else
      var inst := s.preparing[ack.iid];
      if ack.ballot < inst.ballot then (s, None)
      else if inst.ballot < ack.ballot then
        var inst' := Preempt(s.id, inst, now);
        (s.(preparing := s.preparing[ack.iid := inst']), Some(ToPrepare(inst')))
      else if ack.aid in inst.acks then (s, None)
      else (s.(preparing := s.preparing[ack.iid := AddPromise(inst, ack)]), None)
  }

  ghost predicate IsSmallest(m: Instances, k: nat) {
    k in m && forall j :: j in m ==> m[k].iid <= m[j].iid
  }

  /** The instance proposer_accept works on, after it has been given a queued value. */
  function WithValue(inst: Instance, queue: seq<Value>): Instance {
    if inst.value.None? && queue != [] then inst.(value := Some(queue[0])) else inst
  }

  function AfterPop(inst: Instance, queue: seq<Value>): seq<Value> {
    if inst.value.None? && queue != [] then queue[1..] else queue
  }

  /** proposer_accept, with `k` the smallest open instance (None when there is none). */
  function AcceptNext(s: State, k: Option<nat>): (State, Option<Message>)
    requires k.Some? ==> k.value in s.preparing
  {
    if k.None? || !Reached(s.preparing[k.value], s.acceptors) then (s, None)
    else
      var inst := WithValue(s.preparing[k.value], s.queue);
      if !HasSomeValue(inst) then (s, None)
      else
        (s.(queue := AfterPop(s.preparing[k.value], s.queue),
            preparing := s.preparing - {k.value},
            accepting := s.accepting[k.value := inst.(acks := {})]),
         Some(ToAccept(inst)))
  }

  ghost predicate IsSmallestOrNone(m: Instances, k: Option<nat>) {
    if k.Some? then IsSmallest(m, k.value) else m == map[]
  }

  /** The client value given back when an instance closes on someone else's value. */
  function GivenBack(inst: Instance): seq<Value> {
    if inst.promised.Some? && inst.value.Some? && inst.value != inst.promised then [inst.value.value] else []
  }

  /** The client value an instance uses up when it closes. */
  function Retired(inst: Instance): seq<Value> {
    if inst.value.Some? && GivenBack(inst) == [] then [inst.value.value] else []
  }

  /** proposer_receive_accepted: 0 dropped, 1 counted, 2 closed. */
  function ReceiveAccepted(s: State, ack: Fields): (State, nat) {
    if ack.iid !in s.accepting || s.accepting[ack.iid].ballot != ack.ballot || ack.aid in s.accepting[ack.iid].acks then (s, 0)
    else
      var inst := s.accepting[ack.iid];
      var inst' := inst.(acks := inst.acks + {ack.aid});
      if Reached(inst', s.acceptors) then
        (s.(queue := s.queue + GivenBack(inst), accepting := s.accepting - {ack.iid}), 2)
      else (s.(accepting := s.accepting[ack.iid := inst']), 1)
  }

  /** proposer_receive_preempted */
  function ReceivePreempted(s: State, ack: Fields, now: int): (State, Option<Message>) {
    if ack.iid !in s.accepting || ack.ballot <= s.accepting[ack.iid].ballot then (s, None)
    else
      var inst := Preempt(s.id, s.accepting[ack.iid], now);
      (s.(accepting := s.accepting - {ack.iid}, preparing := s.preparing[ack.iid := inst]), Some(ToPrepare(inst)))
  }

  function After(m: Instances, iid: nat): Instances {
    map k | k in m && iid < m[k].iid :: m[k]
  }

  function UpTo(m: Instances, iid: nat): Instances {
    map k | k in m && m[k].iid <= iid :: m[k]
  }

  /** proposer_set_instance_id; `returned` are the client values of the dropped instances, in table order. */
  function SetInstanceId(s: State, iid: nat, returned: seq<Value>): State {
    if iid <= s.next then s
    else s.(next := iid, queue := s.queue + returned, preparing := After(s.preparing, iid), accepting := After(s.accepting, iid))
  }

  /** `returned` is what trimming at `iid` gives back. */
  ghost predicate IsReturned(s: State, iid: nat, returned: seq<Value>) {
    multiset(returned) == Pending(UpTo(s.preparing, iid)) + Pending(UpTo(s.accepting, iid))
  }

  /** proposer_receive_acceptor_state */
  function ReceiveAcceptorState(s: State, trimIid: nat, returned: seq<Value>): State {
    if trimIid <= s.maxTrim then s else SetInstanceId(s.(maxTrim := trimIid), trimIid, returned)
  }

  /** A timed-out instance is sent again and its clock restarts. */
  function RestartPreparing(s: State, iid: nat, now: int): State
    requires iid in s.preparing
  {
    s.(preparing := s.preparing[iid := s.preparing[iid].(createdAt := now)])
  }

  function RestartAccepting(s: State, iid: nat, now: int): State
    requires iid in s.accepting
  {
    s.(accepting := s.accepting[iid := s.accepting[iid].(createdAt := now)])
  }

  // ---------- One step of a proposer ----------

  /** The calls of the proposer interface; `now` is the clock. */
  datatype Action =
    | Submit(v: Value)
    | Open(now: int)
    | OnPromise(f: Fields, now: int)
    | TryAccept(k: Option<nat>)
    | OnAccepted(f: Fields)
    | OnPreempted(f: Fields, now: int)
    | SetInstance(iid: nat, returned: seq<Value>)
    | OnAcceptorState(aid: nat, trimIid: nat, returned: seq<Value>)
    | ResendPrepare(iid: nat, now: int)
    | ResendAccept(iid: nat, now: int)
    | Reopen(iid: nat, now: int)

  function Optional(m: Option<Message>): set<Message> {
    if m.Some? then {m.value} else {}
  }

  /** What a call may be given: a message from the network, the smallest open instance, the values it trims. */
  ghost predicate Enabled(s: State, act: Action, net: set<Message>) {
    match act
    case Submit(_) => true
    case Open(_) => true
    case OnPromise(f, _) => Promise(f) in net
    case TryAccept(k) => IsSmallestOrNone(s.preparing, k)
    case OnAccepted(f) => Accepted(f) in net
    case OnPreempted(f, _) => Preempted(f) in net
    case SetInstance(iid, returned) => s.next < iid ==> IsReturned(s, iid, returned)
    case OnAcceptorState(aid, trimIid, returned) =>
      Message.AcceptorState(aid, trimIid) in net && (s.maxTrim < trimIid && s.next < trimIid ==> IsReturned(s, trimIid, returned))
    case ResendPrepare(iid, _) => iid in s.preparing
    case ResendAccept(iid, _) => iid in s.accepting && HasSomeValue(s.accepting[iid])
    case Reopen(_, _) => true
  }

  /** The new state and the messages sent. */
  ghost function Step(s: State, act: Action, net: set<Message>): (State, set<Message>)
    requires Enabled(s, act, net)
  {
    match act
    case Submit(v) => (Propose(s, v), {})
    case Open(now) => var (s', m) := OpenInstance(s, now); (s', {m})
    case OnPromise(f, now) => var (s', m) := ReceivePromise(s, f, now); (s', Optional(m))
    case TryAccept(k) => var (s', m) := AcceptNext(s, k); (s', Optional(m))
    case OnAccepted(f) => (ReceiveAccepted(s, f).0, {})
    case OnPreempted(f, now) => var (s', m) := ReceivePreempted(s, f, now); (s', Optional(m))
    case SetInstance(iid, returned) => (SetInstanceId(s, iid, returned), {})
    case OnAcceptorState(_, trimIid, returned) => (ReceiveAcceptorState(s, trimIid, returned), {})
    case ResendPrepare(iid, now) => (RestartPreparing(s, iid, now), {ToPrepare(s.preparing[iid])})
    case ResendAccept(iid, now) => (RestartAccepting(s, iid, now), {ToAccept(s.accepting[iid])})
    case Reopen(iid, now) => var (s', m) := PrepareInstance(s, iid, now); (s', {m})
  }

  /** A step does not depend on what else is on the network. */
  lemma StepOnMore(s: State, act: Action, net: set<Message>, net': set<Message>)
    requires Enabled(s, act, net) && net <= net'
    ensures Enabled(s, act, net') && Step(s, act, net') == Step(s, act, net)
  {
  }

  // ---------- Client values attached to instances ----------

  function Carried(inst: Instance): multiset<Value> {
    if inst.value.Some? then multiset{inst.value.value} else multiset{}
  }

  lemma MapShrinks<K, V>(m: map<K, V>, k: K)
    requires k in m
    ensures |m - {k}| == |m| - 1
  {
    assert (m - {k}).Keys == m.Keys - {k};
  }

  ghost function Pick<V>(m: map<nat, V>): (k: nat)
    requires m != map[]
    ensures k in m
  {
    var k :| k in m; k
  }

  /** All client values attached to the instances of a table. */
  ghost function Pending(m: Instances): multiset<Value>
    decreases |m|
  {
    if m == map[] then multiset{}
    else
      MapShrinks(m, Pick(m));
      Carried(m[Pick(m)]) + Pending(m - {Pick(m)})
  }

  /** The sum does not depend on the order of the entries. */
  lemma {:induction false} PendingSplit(m: Instances, k: nat)
    requires k in m
    ensures Pending(m) == Carried(m[k]) + Pending(m - {k})
    decreases |m|
  {
    hide Carried;
    var j := Pick(m);
    if j != k {
      var a, b, rest := Carried(m[j]), Carried(m[k]), Pending(m - {j} - {k});
      MapShrinks(m, j);
      MapShrinks(m, k);
      PendingSplit(m - {j}, k);
      PendingSplit(m - {k}, j);
      assert m - {j} - {k} == m - {k} - {j};
      assert a + (b + rest) == b + (a + rest);
    }
  }

  lemma PendingUpdate(m: Instances, k: nat, inst: Instance)
    ensures k in m ==> Pending(m[k := inst]) + Carried(m[k]) == Pending(m) + Carried(inst)
    ensures k !in m ==> Pending(m[k := inst]) == Pending(m) + Carried(inst)
  {
    hide Carried, Pending;
    PendingSplit(m[k := inst], k);
    assert m[k := inst] - {k} == m - {k};
    if k in m {
      PendingSplit(m, k);
      var a, b, rest := Carried(m[k]), Carried(inst), Pending(m - {k});
      assert (b + rest) + a == (a + rest) + b;
    } else {
      assert m - {k} == m;
      var b, rest := Carried(inst), Pending(m);
      assert b + rest == rest + b;
    }
  }

  lemma PendingRemove(m: Instances, k: nat)
    requires k in m
    ensures Pending(m - {k}) + Carried(m[k]) == Pending(m)
  {
    hide Carried, Pending;
    PendingSplit(m, k);
    var a, rest := Carried(m[k]), Pending(m - {k});
    assert a + rest == rest + a;
  }
}
