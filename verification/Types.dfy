/** Values, messages and constants shared by all roles
    (paxos/include/paxos.h and paxos/include/paxos_types.h). */
module Types {

  type byte = x: int | 0 <= x < 256

  type Value = seq<byte>

  datatype Option<+T> = None | Some(value: T)

  const MAX_PROPOSERS := 10

  /** The five message structs with this one layout: prepare, promise, accept, accepted and preempted.
      Acceptors also store it as their record of an instance. */
  datatype Fields = Fields(iid: nat, ballot: nat, valueBallot: nat, aid: nat, value: Value)

  datatype Message =
    | Prepare(f: Fields)
    | Promise(f: Fields)
    | Accept(f: Fields)
    | Accepted(f: Fields)
    | Preempted(f: Fields)
    | Repeat(from: nat, to: nat)
    | Trim(iid: nat)
    | AcceptorState(aid: nat, trimIid: nat)
    | ClientValue(value: Value)

  /** Ballots are 32 bits wide in a proposer but 16 bits wide in every message. */
  function Wire16(x: nat): (r: nat)
    ensures r < 0x1_0000
    ensures x < 0x1_0000 ==> r == x
  {
    x % 0x1_0000
  }

  /** paxos_quorum: the size of a smallest majority. */
  function QuorumSize(acceptors: nat): (q: nat)
    ensures 2 * (q - 1) <= acceptors < 2 * q
  {
    acceptors / 2 + 1
  }
}
