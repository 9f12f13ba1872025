/** What a learner does with each call, as a function of its state (paxos/learner.c). */
module LearnerSpec {
  import opened Types

  datatype Instance = Instance(iid: nat, lastBallot: nat, acks: seq<Option<Fields>>, final: Option<Fields>)

  datatype State = State(acceptors: nat, lateStart: bool, current: nat, highest: nat, instances: map<nat, Instance>)

  function Initial(acceptors: nat, catchUp: bool): State {
    State(acceptors, !catchUp, 1, 1, map[])
  }

  function NewInstance(acceptors: nat): Instance {
    Instance(0, 0, seq(acceptors, _ => None), None)
  }

  predicate Holds(ack: Option<Fields>, ballot: nat) {
    ack.Some? && ack.value.ballot == ballot
  }

  /** Number of stored acks for `ballot`. */
  function Count(acks: seq<Option<Fields>>, ballot: nat): (n: nat)
    ensures n <= |acks|
  {
    if acks == [] then 0
    else
      var k := |acks| - 1;
      Count(acks[..k], ballot) + if Holds(acks[k], ballot) then 1 else 0
  }

  /** Index of the last stored ack for `ballot`. */
  function LastIndex(acks: seq<Option<Fields>>, ballot: nat): (i: nat)
    requires 0 < Count(acks, ballot)
    ensures i < |acks| && Holds(acks[i], ballot)
  {
    var k := |acks| - 1;
    if Holds(acks[k], ballot) then k else LastIndex(acks[..k], ballot)
  }

  predicate MajorityAt(acks: seq<Option<Fields>>, ballot: nat) {
    QuorumSize(|acks|) <= Count(acks, ballot)
  }

  /** instance_has_quorum: only the ballot of the last stored ack is counted; success fixes the final value. */
  function Test(inst: Instance): Instance {
    if inst.final.None? && MajorityAt(inst.acks, inst.lastBallot)
    then inst.(final := inst.acks[LastIndex(inst.acks, inst.lastBallot)])
    else inst
  }

  /** The rule under which an ack is stored. */
  predicate Storable(acks: seq<Option<Fields>>, ack: Fields) {
    ack.aid < |acks| && (acks[ack.aid].Some? ==> acks[ack.aid].value.ballot < ack.ballot)
  }

  /** instance_update */
  function Update(inst: Instance, ack: Fields): Instance {
    var inst1 := Test(if inst.iid == 0 then inst.(iid := ack.iid, lastBallot := ack.ballot) else inst);
    if inst1.final.Some? || !Storable(inst1.acks, ack) then inst1
    else inst1.(acks := inst1.acks[ack.aid := Some(ack)], lastBallot := ack.ballot)
  }

  function InstanceOf(s: State, iid: nat): Instance {
    if iid in s.instances then s.instances[iid] else NewInstance(s.acceptors)
  }

  /** learner_receive_accepted */
  function ReceiveAccepted(s: State, ack: Fields): State {
    var s1 := if s.lateStart then s.(lateStart := false, current := ack.iid) else s;
    if ack.iid < s1.current then s1
    else
      var inst := Test(Update(InstanceOf(s1, ack.iid), ack));
      s1.(instances := s1.instances[ack.iid := inst],
          highest := if inst.final.Some? && s1.highest < inst.iid then inst.iid else s1.highest)
  }

  /** learner_receive_chosen: a fresh instance is given the message twice, as if from acceptors 1 and 2. */
  function ReceiveChosen(s: State, ack: Fields): State {
    if ack.iid < s.current then s
    else
      var inst := Test(Update(Update(NewInstance(s.acceptors), ack.(aid := 1)), ack.(aid := 2)));
      s.(instances := s.instances[ack.iid := inst],
         highest := if inst.final.Some? && s.highest < inst.iid then inst.iid else s.highest)
  }

  /** learner_deliver_next */
  function DeliverNext(s: State): (State, Option<Fields>) {
    if s.current !in s.instances then (s, None)
    else
      var inst := Test(s.instances[s.current]);
      if inst.final.None? then (s, None)
      else (s.(instances := s.instances - {s.current}, current := s.current + 1), inst.final)
  }

  /** learner_has_holes */
  function HasHoles(s: State): Option<(nat, nat)> {
    if s.current < s.highest then Some((s.current, s.highest)) else None
  }

  /** learner_set_instance_id */
  function SetInstanceId(s: State, iid: nat): State {
    s.(current := iid + 1, highest := iid)
  }
}
