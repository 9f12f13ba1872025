/** What an acceptor does with each request, as a function of its state
    (paxos/acceptor.c over paxos/storage_mem.c). */
module AcceptorSpec {
  import opened Types

  datatype State = State(id: nat, trim: nat, records: map<nat, Fields>)

  const NO_RECORD := Fields(0, 0, 0, 0, [])

  function Initial(id: nat): State {
    State(id, 0, map[])
  }

  function Record(s: State, iid: nat): Fields {
    if iid in s.records then s.records[iid] else NO_RECORD
  }

  /** A request is granted when no higher ballot is on record. */
  predicate Grants(s: State, req: Fields) {
    req.iid !in s.records || s.records[req.iid].ballot <= req.ballot
  }

  function Store(s: State, rec: Fields): State {
    s.(records := s.records[rec.iid := rec])
  }

  /** acceptor_receive_prepare: the answer is a promise even when a higher ballot is on record. */
  function ReceivePrepare(s: State, req: Fields): (State, Option<Message>) {
    if req.iid <= s.trim then (s, None)
    else if Grants(s, req) then
      var rec := Record(s, req.iid).(aid := s.id, iid := req.iid, ballot := req.ballot);
      (Store(s, rec), Some(Promise(rec)))
    else (s, Some(Promise(s.records[req.iid])))
  }

  /** acceptor_receive_accept */
  function ReceiveAccept(s: State, req: Fields): (State, Option<Message>) {
    if req.iid <= s.trim then (s, None)
    else if Grants(s, req) then
      var rec := Fields(req.iid, req.ballot, req.ballot, s.id, req.value);
      (Store(s, rec), Some(Accepted(rec)))
    else
      var rec := s.records[req.iid];
      (s, Some(Preempted(Fields(rec.iid, rec.ballot, 0, s.id, []))))
  }

  function Above(records: map<nat, Fields>, iid: nat): map<nat, Fields> {
    map k | k in records && iid < records[k].iid :: records[k]
  }

  /** acceptor_receive_trim */
  function ReceiveTrim(s: State, iid: nat): State {
    if iid <= s.trim then s else s.(trim := iid, records := Above(s.records, iid))
  }

  /** acceptor_set_current_state */
  function CurrentState(s: State): Message {
    Message.AcceptorState(s.id, s.trim)
  }

  /** acceptor_receive_repeat: the stored record, if it carries a value. */
  function ReceiveRepeat(s: State, iid: nat): Option<Message> {
    if iid in s.records && s.records[iid].value != [] then Some(Accepted(s.records[iid])) else None
  }
}
