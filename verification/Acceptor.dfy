/** The acceptor (paxos/acceptor.c). */
module Acceptor {
  import opened Types
  import opened Storage
  import Spec = AcceptorSpec

  class AcceptorRole {
    const id: nat
    var trimIid: nat
    const store: MemStorage
    ghost var Repr: set<object>

    ghost predicate Valid()
      reads this, Repr
      ensures Valid() ==> this in Repr
    {
      && this in Repr
      && store in Repr && store.Repr <= Repr && this !in store.Repr
      && store.Valid()
      && store.trimIid == trimIid
    }

    ghost function State(): Spec.State
      requires Valid()
      reads this, Repr
    {
      Spec.State(id, trimIid, store.records.Map)
    }

    /** acceptor_new */
    constructor (id: nat)
      ensures Valid() && fresh(Repr) && State() == Spec.Initial(id)
    {
      this.id := id;
      trimIid := 0;
      store := new MemStorage();
      new;
      Repr := {this} + store.Repr;
    }

    /** acceptor_receive_prepare: without memory the request may be dropped, but nothing else changes. */
    method ReceivePrepare(req: Fields, memory: bool) returns (out: Option<Message>)
      requires Valid()
      modifies Repr
      ensures Valid() && fresh(Repr - old(Repr))
      ensures (State(), out) == Spec.ReceivePrepare(old(State()), req) || (!memory && out == None && State() == old(State()))
    {
      hide MemStorage.Valid;
      if req.iid <= trimIid {
        return None;
      }
      var found := store.Get(req.iid);
      var acc := if found.Some? then found.value else Spec.NO_RECORD;
      if found.None? || acc.ballot <= req.ballot {
        acc := acc.(aid := id, iid := req.iid, ballot := req.ballot);
        var rc := store.Put(acc, memory);
        Repr := Repr + store.Repr;
        if rc != 0 {
          return None;
        }
      }
      out := Some(Promise(acc));
    }

    /** acceptor_receive_accept */
    method ReceiveAccept(req: Fields, memory: bool) returns (out: Option<Message>)
      requires Valid()
      modifies Repr
      ensures Valid() && fresh(Repr - old(Repr))
      ensures (State(), out) == Spec.ReceiveAccept(old(State()), req) || (!memory && out == None && State() == old(State()))
    {
      hide MemStorage.Valid;
      if req.iid <= trimIid {
        return None;
      }
      var found := store.Get(req.iid);
      if found.None? || found.value.ballot <= req.ballot {
        var acc := Fields(req.iid, req.ballot, req.ballot, id, req.value);
        var rc := store.Put(acc, memory);
        Repr := Repr + store.Repr;
        if rc != 0 {
          return None;
        }
        out := Some(Accepted(acc));
      } else {
        out := Some(Preempted(Fields(found.value.iid, found.value.ballot, 0, id, [])));
      }
    }

    /** acceptor_receive_repeat */
    method ReceiveRepeat(iid: nat) returns (out: Option<Message>)
      requires Valid()
      ensures out == Spec.ReceiveRepeat(State(), iid)
    {
      var found := store.Get(iid);
      out := if found.Some? && found.value.value != [] then Some(Accepted(found.value)) else None;
    }

    /** acceptor_set_current_state */
    method CurrentState() returns (out: Message)
      requires Valid()
      ensures out == Spec.CurrentState(State())
    {
      out := Message.AcceptorState(id, trimIid);
    }

    /** acceptor_receive_trim */
    method ReceiveTrim(iid: nat) returns (trimmed: bool)
      requires Valid()
      modifies Repr
      ensures Valid() && Repr == old(Repr)
      ensures State() == Spec.ReceiveTrim(old(State()), iid)
      ensures trimmed <==> old(trimIid) < iid
    {
      if iid <= trimIid {
        return false;
      }
      trimIid := iid;
      store.Trim(iid);
      trimmed := true;
    }
  }
}
