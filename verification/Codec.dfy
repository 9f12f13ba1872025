/** The fixed-offset big-endian datagram codec (net/message_pack.c). */
module Codec {
  import opened Types

  const IID_OFFSET := 2
  const BALLOT_OFFSET := 6
  const VALUE_BALLOT_OFFSET := 8
  const AID_OFFSET := 10
  const VALUE_OFFSET := 12
  const TO_OFFSET := 6
  const CLIENT_VALUE_OFFSET := 2

  /** sizeof(paxos_message): a 4-byte tag and a 22-byte union, packed, with 8-byte pointers. */
  const SIZEOF_MESSAGE := 26

  // ---------- Integers and values in a buffer ----------

  function Put16(s: seq<byte>, v: nat, at: nat): (r: seq<byte>)
    requires at + 2 <= |s| && v < 0x1_0000
    ensures |r| == |s|
  {
    s[at := v / 0x100][at + 1 := v % 0x100]
  }

  function Put32(s: seq<byte>, v: nat, at: nat): (r: seq<byte>)
    requires at + 4 <= |s| && v < 0x1_0000_0000
    ensures |r| == |s|
  {
    Put16(Put16(s, v / 0x1_0000, at), v % 0x1_0000, at + 2)
  }

  function Get16(s: seq<byte>, at: nat): (v: nat)
    requires at + 2 <= |s|
    ensures v < 0x1_0000
  {
    s[at] as int * 0x100 + s[at + 1] as int
  }

  function Get32(s: seq<byte>, at: nat): (v: nat)
    requires at + 4 <= |s|
    ensures v < 0x1_0000_0000
  {
    Get16(s, at) * 0x1_0000 + Get16(s, at + 2)
  }

  function PutBytes(s: seq<byte>, v: Value, at: nat): (r: seq<byte>)
    requires at + |v| <= |s|
    ensures |r| == |s|
  {
    s[..at] + v + s[at + |v|..]
  }

  /** pack_value: length, then bytes. */
  function PutValue(s: seq<byte>, v: Value, at: nat): (r: seq<byte>)
    requires at + 4 + |v| <= |s| && |v| < 0x8000_0000
    ensures |r| == |s|
  {
    PutBytes(Put32(s, |v|, at), v, at + 4)
  }

  /** The length field read as a signed int. */
  function ValueLength(s: seq<byte>, at: nat): nat
    requires at + 4 <= |s|
  {
    if Get32(s, at) < 0x8000_0000 then Get32(s, at) else 0
  }

  /** The buffer holds all the bytes unpack_value reads. */
  predicate HasValue(s: seq<byte>, at: nat) {
    at + 4 <= |s| && at + 4 + ValueLength(s, at) <= |s|
  }

  /** unpack_value: no value when the length, read as a signed int, is not positive. */
  function GetValue(s: seq<byte>, at: nat): Value
    requires HasValue(s, at)
  {
    s[at + 4..at + 4 + ValueLength(s, at)]
  }

  // ---------- Messages ----------

  function Tag(m: Message): nat {
    match m
    case Prepare(_) => 0
    case Promise(_) => 1
    case Accept(_) => 2
    case Accepted(_) => 3
    case Preempted(_) => 4
    case Repeat(_, _) => 5
    case Trim(_) => 6
    case AcceptorState(_, _) => 7
    case ClientValue(_) => 8
  }

  predicate FieldsFit(f: Fields) {
    f.iid < 0x1_0000_0000 && f.ballot < 0x1_0000 && f.valueBallot < 0x1_0000 && f.aid < 0x1_0000 && |f.value| < 0x8000_0000
  }

  /** The field widths of the C structs. */
  predicate Fits(m: Message) {
    match m
    case Prepare(f) => FieldsFit(f)
    case Promise(f) => FieldsFit(f)
    case Accept(f) => FieldsFit(f)
    case Accepted(f) => FieldsFit(f)
    case Preempted(f) => FieldsFit(f)
    case Repeat(from, to) => from < 0x1_0000_0000 && to < 0x1_0000_0000
    case Trim(iid) => iid < 0x1_0000_0000
    case AcceptorState(aid, trimIid) => aid < 0x1_0000_0000 && trimIid < 0x1_0000_0000
    case ClientValue(v) => |v| < 0x8000_0000
  }

  /** Bytes the packer writes into. */
  function Needed(m: Message): nat {
    match m
    case Prepare(f) => 16 + |f.value|
    case Promise(f) => 16 + |f.value|
    case Accept(f) => 16 + |f.value|
    case Accepted(f) => 16 + |f.value|
    case Preempted(f) => 16 + |f.value|
    case Repeat(_, _) => 10
    case Trim(_) => 6
    case AcceptorState(_, _) => 10
    case ClientValue(v) => 6 + |v|
  }

  function PackFields(s: seq<byte>, tag: nat, f: Fields): (r: seq<byte>)
    requires tag < 0x1_0000 && FieldsFit(f) && 16 + |f.value| <= |s|
    ensures |r| == |s|
  {
    var s := Put16(s, tag, 0);
    var s := Put32(s, f.iid, IID_OFFSET);
    var s := Put16(s, f.ballot, BALLOT_OFFSET);
    var s := Put16(s, f.valueBallot, VALUE_BALLOT_OFFSET);
    var s := Put16(s, f.aid, AID_OFFSET);
    PutValue(s, f.value, VALUE_OFFSET)
  }

  function PackPair(s: seq<byte>, tag: nat, x: nat, y: nat): (r: seq<byte>)
    requires tag < 0x1_0000 && x < 0x1_0000_0000 && y < 0x1_0000_0000 && 10 <= |s|
    ensures |r| == |s|
  {
    Put32(Put32(Put16(s, tag, 0), x, IID_OFFSET), y, TO_OFFSET)
  }

  /** The buffer after pack_paxos_message; a client value gets no tag. */
  function Pack(s: seq<byte>, m: Message): (r: seq<byte>)
    requires Fits(m) && Needed(m) <= |s|
    ensures |r| == |s|
  {
    match m
    case Prepare(f) => PackFields(s, 0, f)
    case Promise(f) => PackFields(s, 1, f)
    case Accept(f) => PackFields(s, 2, f)
    case Accepted(f) => PackFields(s, 3, f)
    case Preempted(f) => PackFields(s, 4, f)
    case Repeat(from, to) => PackPair(s, 5, from, to)
    case Trim(iid) => Put32(Put16(s, 6, 0), iid, IID_OFFSET)
    case AcceptorState(aid, trimIid) => PackPair(s, 7, aid, trimIid)
    case ClientValue(v) => PutValue(s, v, CLIENT_VALUE_OFFSET)
  }

  /** The length pack_paxos_message returns: what is put on the wire. */
  function MessageLength(m: Message): nat {
    match m
    case Promise(f) => SIZEOF_MESSAGE + |f.value|
    case Accept(f) => SIZEOF_MESSAGE + |f.value|
    case Accepted(f) => SIZEOF_MESSAGE + |f.value|
    case _ => SIZEOF_MESSAGE
  }

  /** The buffer holds all the bytes unpack_paxos_message reads. */
  predicate Readable(s: seq<byte>) {
    && 2 <= |s|
    && var tag := Get16(s, 0);
    && (tag <= 4 ==> HasValue(s, VALUE_OFFSET))
    && (tag == 5 || tag == 7 ==> 10 <= |s|)
    && (tag == 6 ==> 6 <= |s|)
    && (tag == 8 ==> HasValue(s, CLIENT_VALUE_OFFSET))
  }

  function UnpackFields(s: seq<byte>): Fields
    requires HasValue(s, VALUE_OFFSET)
  {
    Fields(Get32(s, IID_OFFSET), Get16(s, BALLOT_OFFSET), Get16(s, VALUE_BALLOT_OFFSET), Get16(s, AID_OFFSET), GetValue(s, VALUE_OFFSET))
  }

  /** unpack_paxos_message; None for an unknown tag. */
  function Unpack(s: seq<byte>): Option<Message>
    requires Readable(s)
  {
    match Get16(s, 0)
    case 0 => Some(Prepare(UnpackFields(s)))
    case 1 => Some(Promise(UnpackFields(s)))
    case 2 => Some(Accept(UnpackFields(s)))
    case 3 => Some(Accepted(UnpackFields(s)))
    case 4 => Some(Preempted(UnpackFields(s)))
    case 5 => Some(Repeat(Get32(s, IID_OFFSET), Get32(s, TO_OFFSET)))
    case 6 => Some(Trim(Get32(s, IID_OFFSET)))
    case 7 => Some(Message.AcceptorState(Get32(s, IID_OFFSET), Get32(s, TO_OFFSET)))
    case 8 => Some(ClientValue(GetValue(s, CLIENT_VALUE_OFFSET)))
    case _ => None
  }

  // ---------- Reading back what was written ----------

  /** From byte `k` on nothing was written. */
  ghost predicate SameFrom(r: seq<byte>, s: seq<byte>, k: nat) {
    |r| == |s| && forall i :: k <= i < |s| ==> r[i] == s[i]
  }

  lemma FieldsRoundTrip(s: seq<byte>, tag: nat, f: Fields)
    requires tag < 0x1_0000 && FieldsFit(f) && 16 + |f.value| <= |s|
    ensures var r := PackFields(s, tag, f);
            Get16(r, 0) == tag && HasValue(r, VALUE_OFFSET) && UnpackFields(r) == f && SameFrom(r, s, 16 + |f.value|)
  {
    var r := PackFields(s, tag, f);
    assert r[16..16 + |f.value|] == f.value;
  }

  lemma PairRoundTrip(s: seq<byte>, tag: nat, x: nat, y: nat)
    requires tag < 0x1_0000 && x < 0x1_0000_0000 && y < 0x1_0000_0000 && 10 <= |s|
    ensures var r := PackPair(s, tag, x, y);
            Get16(r, 0) == tag && Get32(r, IID_OFFSET) == x && Get32(r, TO_OFFSET) == y && SameFrom(r, s, 10)
  {
  }

  /** Round trip: for every message but a client value, unpacking the packed buffer gives the message back,
      and no byte beyond its end was written. */
  lemma RoundTrip(s: seq<byte>, m: Message)
    requires Fits(m) && Needed(m) <= |s| && !m.ClientValue?
    ensures Readable(Pack(s, m)) && Unpack(Pack(s, m)) == Some(m) && SameFrom(Pack(s, m), s, Needed(m))
  {
    hide PackFields, PackPair, UnpackFields, HasValue;
    match m
    case Prepare(f) => FieldsRoundTrip(s, 0, f);
    case Promise(f) => FieldsRoundTrip(s, 1, f);
    case Accept(f) => FieldsRoundTrip(s, 2, f);
    case Accepted(f) => FieldsRoundTrip(s, 3, f);
    case Preempted(f) => FieldsRoundTrip(s, 4, f);
    case Repeat(from, to) => PairRoundTrip(s, 5, from, to);
    case Trim(iid) =>
    case AcceptorState(aid, trimIid) => PairRoundTrip(s, 7, aid, trimIid);
  }

  /** Network byte order: most significant byte first. */
  ghost predicate BigEndian32(r: seq<byte>, at: nat, v: nat) {
    && at + 4 <= |r|
    && v == r[at] as int * 0x100_0000 + r[at + 1] as int * 0x1_0000 + r[at + 2] as int * 0x100 + r[at + 3] as int
  }

  ghost predicate BigEndian16(r: seq<byte>, at: nat, v: nat) {
    at + 2 <= |r| && v == r[at] as int * 0x100 + r[at + 1] as int
  }

  /** The five message structs with the common layout: tag, fields at fixed offsets, value last. */
  ghost predicate FieldsOnWire(r: seq<byte>, tag: nat, f: Fields) {
    && BigEndian16(r, 0, tag) && BigEndian32(r, 2, f.iid) && BigEndian16(r, 6, f.ballot)
    && BigEndian16(r, 8, f.valueBallot) && BigEndian16(r, 10, f.aid)
    && BigEndian32(r, 12, |f.value|) && 16 + |f.value| <= |r| && r[16..16 + |f.value|] == f.value
  }

  /** The bytes of each message type. */
  ghost predicate OnWire(r: seq<byte>, m: Message) {
    match m
    case Prepare(f) => FieldsOnWire(r, 0, f)
    case Promise(f) => FieldsOnWire(r, 1, f)
    case Accept(f) => FieldsOnWire(r, 2, f)
    case Accepted(f) => FieldsOnWire(r, 3, f)
    case Preempted(f) => FieldsOnWire(r, 4, f)
    case Repeat(from, to) => BigEndian16(r, 0, 5) && BigEndian32(r, 2, from) && BigEndian32(r, 6, to)
    case Trim(iid) => BigEndian16(r, 0, 6) && BigEndian32(r, 2, iid)
    case AcceptorState(aid, trimIid) => BigEndian16(r, 0, 7) && BigEndian32(r, 2, aid) && BigEndian32(r, 6, trimIid)
    case ClientValue(v) => BigEndian32(r, 2, |v|) && 6 + |v| <= |r| && r[6..6 + |v|] == v
  }

  lemma WireLayout(s: seq<byte>, tag: nat, f: Fields)
    requires tag < 0x1_0000 && FieldsFit(f) && 16 + |f.value| <= |s|
    ensures FieldsOnWire(PackFields(s, tag, f), tag, f)
  {
    var r := PackFields(s, tag, f);
    FieldsRoundTrip(s, tag, f);
    hide PackFields;
    assert |GetValue(r, VALUE_OFFSET)| == |f.value|;
    assert Get32(r, VALUE_OFFSET) < 0x8000_0000;
  }

  /** The bytes on the wire are those, in network byte order; a client value leaves the tag bytes as they were. */
  lemma MessageLayout(s: seq<byte>, m: Message)
    requires Fits(m) && Needed(m) <= |s|
    ensures OnWire(Pack(s, m), m) && (m.ClientValue? ==> Pack(s, m)[..2] == s[..2])
  {
    hide PackFields, FieldsOnWire;
    match m
    case Prepare(f) => WireLayout(s, 0, f);
    case Promise(f) => WireLayout(s, 1, f);
    case Accept(f) => WireLayout(s, 2, f);
    case Accepted(f) => WireLayout(s, 3, f);
    case Preempted(f) => WireLayout(s, 4, f);
    case Repeat(from, to) => PairRoundTrip(s, 5, from, to);
    case Trim(iid) =>
    case AcceptorState(aid, trimIid) => PairRoundTrip(s, 7, aid, trimIid);
    case ClientValue(v) => ClientValueLayout(s, v);
  }

  lemma ClientValueLayout(s: seq<byte>, v: Value)
    requires Fits(ClientValue(v)) && Needed(ClientValue(v)) <= |s|
    ensures var r := Pack(s, ClientValue(v)); OnWire(r, ClientValue(v)) && r[..2] == s[..2]
  {
    var r := Pack(s, ClientValue(v));
    assert r[6..6 + |v|] == v;
    assert r[2..6] == Put32(s, |v|, 2)[2..6];
    assert r[2] == r[2..6][0] && r[3] == r[2..6][1] && r[4] == r[2..6][2] && r[5] == r[2..6][3];
  }

  /** A client value is packed without a tag, so it comes back exactly when the buffer already held one. */
  lemma ClientValueRoundTrip(s: seq<byte>, v: Value)
    requires Fits(ClientValue(v)) && Needed(ClientValue(v)) <= |s|
    ensures var r := Pack(s, ClientValue(v));
            Readable(r) && Unpack(r) == Some(ClientValue(v)) <==> Get16(s, 0) == Tag(ClientValue(v))
  {
    var r := Pack(s, ClientValue(v));
    assert Get16(r, 0) == Get16(s, 0);
    assert r[6..6 + |v|] == v;
  }

  // ---------- What arrives is only the first MessageLength bytes ----------

  lemma GetPrefix(s: seq<byte>, k: nat, at: nat)
    requires at + 2 <= k <= |s|
    ensures Get16(s[..k], at) == Get16(s, at)
    ensures at + 4 <= k ==> Get32(s[..k], at) == Get32(s, at) && ValueLength(s[..k], at) == ValueLength(s, at)
  {
  }

  /** A value survives in the first `k` bytes exactly when it ends there. */
  lemma ValuePrefix(s: seq<byte>, k: nat, at: nat)
    requires HasValue(s, at) && at + 4 <= k <= |s|
    ensures HasValue(s[..k], at) <==> at + 4 + |GetValue(s, at)| <= k
    ensures HasValue(s[..k], at) ==> GetValue(s[..k], at) == GetValue(s, at)
  {
    GetPrefix(s, k, at);
  }

  lemma FieldsPrefix(s: seq<byte>, k: nat)
    requires HasValue(s, VALUE_OFFSET) && 16 <= k <= |s|
    ensures HasValue(s[..k], VALUE_OFFSET) <==> 16 + |UnpackFields(s).value| <= k
    ensures HasValue(s[..k], VALUE_OFFSET) ==> UnpackFields(s[..k]) == UnpackFields(s)
  {
    hide Get16, Get32, HasValue, GetValue;
    GetPrefix(s, k, IID_OFFSET);
    GetPrefix(s, k, BALLOT_OFFSET);
    GetPrefix(s, k, VALUE_BALLOT_OFFSET);
    GetPrefix(s, k, AID_OFFSET);
    ValuePrefix(s, k, VALUE_OFFSET);
  }

  /** What a receiver makes of the first `k` bytes of a packed message with the common layout. */
  lemma FieldsSuffice(r: seq<byte>, m: Message, k: nat)
    requires Readable(r) && Unpack(r) == Some(m) && Tag(m) <= 4 && 16 <= k <= |r|
    ensures Readable(r[..k]) && Unpack(r[..k]) == Some(m) <==> 16 + |m.f.value| <= k
  {
    hide Get16, Get32, HasValue, UnpackFields;
    GetPrefix(r, k, 0);
    FieldsPrefix(r, k);
  }

  lemma PairSuffices(r: seq<byte>, m: Message, k: nat)
    requires Readable(r) && Unpack(r) == Some(m) && 5 <= Tag(m) <= 7 && 10 <= k <= |r|
    ensures Readable(r[..k]) && Unpack(r[..k]) == Some(m)
  {
    hide Get16, Get32, HasValue, UnpackFields;
    GetPrefix(r, k, 0);
    GetPrefix(r, k, IID_OFFSET);
    GetPrefix(r, k, TO_OFFSET);
  }

  /** The same for a client value, whose tag is whatever the buffer held. */
  lemma ClientValueSuffices(s: seq<byte>, v: Value, k: nat)
    requires Fits(ClientValue(v)) && Needed(ClientValue(v)) <= |s| && 6 <= k <= |s|
    ensures var sent := Pack(s, ClientValue(v))[..k];
            Readable(sent) && Unpack(sent) == Some(ClientValue(v)) <==> Get16(s, 0) == Tag(ClientValue(v)) && 6 + |v| <= k
  {
    var r := Pack(s, ClientValue(v));
    PackedClientValue(s, v);
    GetPrefix(r, k, 0);
    ValuePrefix(r, k, CLIENT_VALUE_OFFSET);
    hide Pack, PutValue, Get16, Get32, HasValue, GetValue;
  }

  lemma PackedClientValue(s: seq<byte>, v: Value)
    requires Fits(ClientValue(v)) && Needed(ClientValue(v)) <= |s|
    ensures var r := Pack(s, ClientValue(v));
            Get16(r, 0) == Get16(s, 0) && HasValue(r, CLIENT_VALUE_OFFSET) && GetValue(r, CLIENT_VALUE_OFFSET) == v
  {
    var r := Pack(s, ClientValue(v));
    assert r[6..6 + |v|] == v;
  }

  /** What a sender can check before packing: the value bytes its computed length leaves out fit the slack of the
      struct size, and for a client value the buffer already holds the tag. */
  predicate Carries(s: seq<byte>, m: Message)
    requires 2 <= |s|
  {
    match m
    case Prepare(f) => |f.value| <= 10
    case Preempted(f) => |f.value| <= 10
    case ClientValue(v) => Get16(s, 0) == 8 && |v| <= 20
    case _ => true
  }

  /** The bytes sent give the receiver the message exactly when `Carries` holds. */
  lemma SentBytesSuffice(s: seq<byte>, m: Message)
    requires Fits(m) && Needed(m) <= |s| && MessageLength(m) <= |s|
    ensures var sent := Pack(s, m)[..MessageLength(m)];
            Readable(sent) && Unpack(sent) == Some(m) <==> Carries(s, m)
  {
    if m.ClientValue? {
      ClientValueSuffices(s, m.value, MessageLength(m));
    } else {
      RoundTrip(s, m);
      hide Pack, Unpack, Readable;
      if Tag(m) <= 4 {
        FieldsSuffice(Pack(s, m), m, MessageLength(m));
      } else {
        PairSuffices(Pack(s, m), m, MessageLength(m));
      }
    }
  }

  // ---------- In place ----------

  /** pack_uint16 */
  method PackUint16(p: array<byte>, value: nat, offset: nat)
    requires offset + 2 <= p.Length && value < 0x1_0000
    modifies p
    ensures p[..] == Put16(old(p[..]), value, offset)
  {
    p[offset] := value / 0x100;
    p[offset + 1] := value % 0x100;
  }

  /** pack_uint32 */
  method PackUint32(p: array<byte>, value: nat, offset: nat)
    requires offset + 4 <= p.Length && value < 0x1_0000_0000
    modifies p
    ensures p[..] == Put32(old(p[..]), value, offset)
  {
    PackUint16(p, value / 0x1_0000, offset);
    PackUint16(p, value % 0x1_0000, offset + 2);
  }

  /** pack_value */
  method PackValue(p: array<byte>, v: Value, offset: nat)
    requires offset + 4 + |v| <= p.Length && |v| < 0x8000_0000
    modifies p
    ensures p[..] == PutValue(old(p[..]), v, offset)
  {
    hide Put32, PutBytes;
    PackUint32(p, |v|, offset);
    CopyBytes(p, v, offset + 4);
  }

  /** memcpy into the buffer */
  method CopyBytes(p: array<byte>, v: Value, at: nat)
    requires at + |v| <= p.Length
    modifies p
    ensures p[..] == PutBytes(old(p[..]), v, at)
  {
    ghost var s := p[..];
    var i := 0;
    while i < |v|
      invariant 0 <= i <= |v|
      invariant forall j :: 0 <= j < i ==> p[at + j] == v[j]
      invariant forall j :: 0 <= j < p.Length && !(at <= j < at + i) ==> p[j] == s[j]
    {
      p[at + i] := v[i];
      i := i + 1;
    }
    WholeBuffer(p[..], s, v, at);
  }

  lemma WholeBuffer(r: seq<byte>, s: seq<byte>, v: Value, at: nat)
    requires |r| == |s| && at + |v| <= |s|
    requires forall j :: 0 <= j < |v| ==> r[at + j] == v[j]
    requires forall j :: 0 <= j < |s| && !(at <= j < at + |v|) ==> r[j] == s[j]
    ensures r == PutBytes(s, v, at)
  {
    var t := PutBytes(s, v, at);
    forall j | 0 <= j < |s| ensures r[j] == t[j] {
      if at <= j < at + |v| {
        assert r[at + (j - at)] == v[j - at];
      }
    }
  }

  method PackFieldsInto(p: array<byte>, tag: nat, f: Fields)
    requires tag < 0x1_0000 && FieldsFit(f) && 16 + |f.value| <= p.Length
    modifies p
    ensures p[..] == PackFields(old(p[..]), tag, f)
  {
    hide Put16, Put32, PutValue;
    PackUint16(p, tag, 0);
    PackUint32(p, f.iid, IID_OFFSET);
    PackUint16(p, f.ballot, BALLOT_OFFSET);
    PackUint16(p, f.valueBallot, VALUE_BALLOT_OFFSET);
    PackUint16(p, f.aid, AID_OFFSET);
    PackValue(p, f.value, VALUE_OFFSET);
  }

  method PackPairInto(p: array<byte>, tag: nat, x: nat, y: nat)
    requires tag < 0x1_0000 && x < 0x1_0000_0000 && y < 0x1_0000_0000 && 10 <= p.Length
    modifies p
    ensures p[..] == PackPair(old(p[..]), tag, x, y)
  {
    hide Put16, Put32;
    PackUint16(p, tag, 0);
    PackUint32(p, x, IID_OFFSET);
    PackUint32(p, y, TO_OFFSET);
  }

  /** pack_paxos_message */
  method PackMessage(p: array<byte>, m: Message) returns (msglen: nat)
    requires Fits(m) && Needed(m) <= p.Length
    modifies p
    ensures p[..] == Pack(old(p[..]), m) && msglen == MessageLength(m)
  {
    hide PackFields, PackPair, Put16, Put32, PutValue;
    msglen := SIZEOF_MESSAGE;
    match m
    case Prepare(f) => PackFieldsInto(p, 0, f);
    case Promise(f) => PackFieldsInto(p, 1, f); msglen := SIZEOF_MESSAGE + |f.value|;
    case Accept(f) => PackFieldsInto(p, 2, f); msglen := SIZEOF_MESSAGE + |f.value|;
    case Accepted(f) => PackFieldsInto(p, 3, f); msglen := SIZEOF_MESSAGE + |f.value|;
    case Preempted(f) => PackFieldsInto(p, 4, f);
    case Repeat(from, to) => PackPairInto(p, 5, from, to);
    case Trim(iid) => PackUint16(p, 6, 0); PackUint32(p, iid, IID_OFFSET);
    case AcceptorState(aid, trimIid) => PackPairInto(p, 7, aid, trimIid);
    case ClientValue(v) => PackValue(p, v, CLIENT_VALUE_OFFSET);
  }

  /** unpack_uint16 */
  method UnpackUint16(p: array<byte>, offset: nat) returns (value: nat)
    requires offset + 2 <= p.Length
    ensures value == Get16(p[..], offset)
  {
    value := p[offset] as int * 0x100 + p[offset + 1] as int;
  }

  /** unpack_uint32 */
  method UnpackUint32(p: array<byte>, offset: nat) returns (value: nat)
    requires offset + 4 <= p.Length
    ensures value == Get32(p[..], offset)
  {
    var high := UnpackUint16(p, offset);
    var low := UnpackUint16(p, offset + 2);
    value := high * 0x1_0000 + low;
  }

  /** unpack_value */
  method UnpackValue(p: array<byte>, offset: nat) returns (v: Value)
    requires HasValue(p[..], offset)
    ensures v == GetValue(p[..], offset)
  {
    var len := UnpackUint32(p, offset);
    v := [];
    if 0 < len < 0x8000_0000 {
      var i := 0;
      while i < len
        invariant 0 <= i <= len
        invariant v == p[..][offset + 4..offset + 4 + i]
      {
        v := v + [p[offset + 4 + i]];
        i := i + 1;
      }
    }
  }

  method UnpackFieldsFrom(p: array<byte>) returns (f: Fields)
    requires HasValue(p[..], VALUE_OFFSET)
    ensures f == UnpackFields(p[..])
  {
    var iid := UnpackUint32(p, IID_OFFSET);
    var ballot := UnpackUint16(p, BALLOT_OFFSET);
    var valueBallot := UnpackUint16(p, VALUE_BALLOT_OFFSET);
    var aid := UnpackUint16(p, AID_OFFSET);
    var value := UnpackValue(p, VALUE_OFFSET);
    f := Fields(iid, ballot, valueBallot, aid, value);
  }

  /** unpack_paxos_message */
  method UnpackMessage(p: array<byte>) returns (m: Option<Message>)
    requires Readable(p[..])
    ensures m == Unpack(p[..])
  {
    hide HasValue, UnpackFields, GetValue;
    var tag := UnpackUint16(p, 0);
    if tag <= 4 {
      var f := UnpackFieldsFrom(p);
      return Some(match tag
                  case 0 => Prepare(f)
                  case 1 => Promise(f)
                  case 2 => Accept(f)
                  case 3 => Accepted(f)
                  case _ => Preempted(f));
    }
    if tag == 5 || tag == 7 {
      var x := UnpackUint32(p, IID_OFFSET);
      var y := UnpackUint32(p, TO_OFFSET);
      return Some(if tag == 5 then Repeat(x, y) else Message.AcceptorState(x, y));
    }
    if tag == 6 {
      var iid := UnpackUint32(p, IID_OFFSET);
      return Some(Trim(iid));
    }
    if tag == 8 {
      var v := UnpackValue(p, CLIENT_VALUE_OFFSET);
      return Some(ClientValue(v));
    }
    m := None;
  }
}
