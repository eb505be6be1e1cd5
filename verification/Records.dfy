/** The fixed-layout records of the delivery ABI, decoded from and encoded to bytes.
    None of these C structures has padding, so the byte counts below are exact. */
module Records {
  import opened Machine
  import opened Bytes

  const VALIDATOR_SIZE: nat := 48
  const ENDPOINT_SIZE: nat := 32
  const ASSOCIATION_SIZE: nat := 16
  const LEADER_SIZE: nat := 32
  const EVENT_SIZE: nat := 64

  datatype Validator = Validator(structSize: u32, reserved0: u32, identity: seq<u8>, reserved1: seq<u8>)

  datatype Endpoint = Endpoint(
    structSize: u32, family: u8, transport: u8, role: u8, reserved0: u8,
    port: u16, reserved1: u16, address: seq<u8>, reserved2: seq<u8>)

  datatype Association = Association(structSize: u32, validatorIndex: u32, endpointIndex: u32, reserved0: u32)

  datatype Leader = Leader(structSize: u32, validatorIndex: u32, firstSlot: u64, lastSlot: u64, reserved0: u64)

  datatype Event = Event(
    structSize: u32, eventClass: u32, eventCode: u32, diagnostic: i32,
    requestId: u64, attemptId: u64, sequence: u64, time: u64, reserved0: u64, reserved1: u64)

  const ZERO_EVENT := Event(0, 0, 0, 0, 0, 0, 0, 0, 0, 0)

  function DecodeValidator(bytes: seq<u8>): (v: Validator)
    ensures |v.identity| == 32 && |v.reserved1| == 8
  {
    var b := Window(bytes, 0, VALIDATOR_SIZE);
    Validator(U32At(b, 0), U32At(b, 4), b[8..40], b[40..48])
  }

  function DecodeEndpoint(bytes: seq<u8>): (e: Endpoint)
    ensures |e.address| == 16 && |e.reserved2| == 4
  {
    var b := Window(bytes, 0, ENDPOINT_SIZE);
    Endpoint(U32At(b, 0), b[4], b[5], b[6], b[7], U16At(b, 8), U16At(b, 10), b[12..28], b[28..32])
  }

  function DecodeAssociation(bytes: seq<u8>): Association
  {
    var b := Window(bytes, 0, ASSOCIATION_SIZE);
    Association(U32At(b, 0), U32At(b, 4), U32At(b, 8), U32At(b, 12))
  }

  function DecodeLeader(bytes: seq<u8>): Leader
  {
    var b := Window(bytes, 0, LEADER_SIZE);
    Leader(U32At(b, 0), U32At(b, 4), U64At(b, 8), U64At(b, 16), U64At(b, 24))
  }

  // ---------- the layouts, for all field values ----------

  /** Consecutive fields of a record are its consecutive slices. */
  lemma FourParts(a: seq<u8>, b: seq<u8>, c: seq<u8>, d: seq<u8>)
    ensures
      var all, i, j := a + b + c + d, |a| + |b|, |a| + |b| + |c|;
      all[0..|a|] == a && all[|a|..i] == b && all[i..j] == c && all[j..j + |d|] == d
  {
  }

  lemma FiveParts(a: seq<u8>, b: seq<u8>, c: seq<u8>, d: seq<u8>, e: seq<u8>)
    requires |a| == 4 && |b| == 4 && |c| == 8 && |d| == 8 && |e| == 8
    ensures
      var all := a + b + c + d + e;
      && all[0..4] == a && all[4..8] == b && all[8..16] == c && all[16..24] == d && all[24..32] == e
  {
  }

  lemma SixParts(a: seq<u8>, b: seq<u8>, c: seq<u8>, d: seq<u8>, e: seq<u8>, f: seq<u8>)
    requires |a| == 4 && |b| == 4 && |c| == 2 && |d| == 2 && |e| == 16 && |f| == 4
    ensures
      var all := a + b + c + d + e + f;
      && all[0..4] == a && all[4] == b[0] && all[5] == b[1] && all[6] == b[2] && all[7] == b[3]
      && all[8..10] == c && all[10..12] == d && all[12..28] == e && all[28..32] == f
  {
  }

  lemma ValidatorLayout(size: u32, reserved0: u32, identity: seq<u8>, reserved1: seq<u8>)
    requires |identity| == 32 && |reserved1| == 8
    ensures
      var b := Le(size, 4) + Le(reserved0, 4) + identity + reserved1;
      |b| == VALIDATOR_SIZE && DecodeValidator(b) == Validator(size, reserved0, identity, reserved1)
  {
    LeU32(size);
    LeU32(reserved0);
    hide Le, Value;
    WholeWindow(Le(size, 4) + Le(reserved0, 4) + identity + reserved1);
    FourParts(Le(size, 4), Le(reserved0, 4), identity, reserved1);
  }

  lemma EndpointLayout(size: u32, family: u8, transport: u8, role: u8, reserved0: u8, port: u16, reserved1: u16,
                       address: seq<u8>, reserved2: seq<u8>)
    requires |address| == 16 && |reserved2| == 4
    ensures
      var b := Le(size, 4) + [family, transport, role, reserved0] + Le(port, 2) + Le(reserved1, 2) + address + reserved2;
      && |b| == ENDPOINT_SIZE
      && DecodeEndpoint(b)
         == Endpoint(size, family, transport, role, reserved0, port, reserved1, address, reserved2)
  {
    LeU32(size);
    assert Pow256(2) == 0x1_0000;
    LeValue(port, 2);
    LeValue(reserved1, 2);
    hide Le, Value, Pow256;
    var flags := [family, transport, role, reserved0];
    WholeWindow(Le(size, 4) + flags + Le(port, 2) + Le(reserved1, 2) + address + reserved2);
    SixParts(Le(size, 4), flags, Le(port, 2), Le(reserved1, 2), address, reserved2);
  }

  lemma AssociationLayout(size: u32, validator: u32, endpoint: u32, reserved0: u32)
    ensures
      var b := Le(size, 4) + Le(validator, 4) + Le(endpoint, 4) + Le(reserved0, 4);
      |b| == ASSOCIATION_SIZE && DecodeAssociation(b) == Association(size, validator, endpoint, reserved0)
  {
    LeU32(size);
    LeU32(validator);
    LeU32(endpoint);
    LeU32(reserved0);
    hide Le, Value;
    WholeWindow(Le(size, 4) + Le(validator, 4) + Le(endpoint, 4) + Le(reserved0, 4));
    FourParts(Le(size, 4), Le(validator, 4), Le(endpoint, 4), Le(reserved0, 4));
  }

  lemma LeaderLayout(size: u32, validator: u32, first: u64, last: u64, reserved0: u64)
    ensures
      var b := Le(size, 4) + Le(validator, 4) + Le(first, 8) + Le(last, 8) + Le(reserved0, 8);
      |b| == LEADER_SIZE && DecodeLeader(b) == Leader(size, validator, first, last, reserved0)
  {
    LeU32(size);
    LeU32(validator);
    LeU64(first);
    LeU64(last);
    LeU64(reserved0);
    hide Le, Value;
    WholeWindow(Le(size, 4) + Le(validator, 4) + Le(first, 8) + Le(last, 8) + Le(reserved0, 8));
    FiveParts(Le(size, 4), Le(validator, 4), Le(first, 8), Le(last, 8), Le(reserved0, 8));
  }

  /** Overwriting the leading `struct_size` field of a record. */
  function WithSize(b: seq<u8>, size: u32): (r: seq<u8>)
    ensures |b| >= 4 ==> |r| == |b|
  {
    Le(size, 4) + if |b| < 4 then [] else b[4..]
  }

  /** Normalising `struct_size` in the bytes changes that field of the record and no other. */
  lemma WithSizeFields(b: seq<u8>, size: u32)
    requires |b| >= 4
    ensures U32At(WithSize(b, size), 0) == size
    ensures forall i :: 4 <= i < |b| ==> WithSize(b, size)[i] == b[i]
    ensures forall i, j :: 4 <= i <= j <= |b| ==> WithSize(b, size)[i..j] == b[i..j]
  {
    LeU32(size);
    assert WithSize(b, size)[0..4] == Le(size, 4);
  }

  lemma ResizedValidator(b: seq<u8>, size: u32)
    requires |b| == VALIDATOR_SIZE
    ensures DecodeValidator(WithSize(b, size)) == DecodeValidator(b).(structSize := size)
  {
    WithSizeFields(b, size);
    WholeWindow(b);
    WholeWindow(WithSize(b, size));
  }

  lemma ResizedEndpoint(b: seq<u8>, size: u32)
    requires |b| == ENDPOINT_SIZE
    ensures DecodeEndpoint(WithSize(b, size)) == DecodeEndpoint(b).(structSize := size)
  {
    WithSizeFields(b, size);
    WholeWindow(b);
    WholeWindow(WithSize(b, size));
  }

  lemma ResizedAssociation(b: seq<u8>, size: u32)
    requires |b| == ASSOCIATION_SIZE
    ensures DecodeAssociation(WithSize(b, size)) == DecodeAssociation(b).(structSize := size)
  {
    WithSizeFields(b, size);
    WholeWindow(b);
    WholeWindow(WithSize(b, size));
  }

  lemma ResizedLeader(b: seq<u8>, size: u32)
    requires |b| == LEADER_SIZE
    ensures DecodeLeader(WithSize(b, size)) == DecodeLeader(b).(structSize := size)
  {
    WithSizeFields(b, size);
    WholeWindow(b);
    WholeWindow(WithSize(b, size));
  }

  /** Two's complement, as the signed diagnostic code is stored. */
  function FromI32(d: i32): u32 {
    if d < 0 then d + 0x1_0000_0000 else d
  }

  function ToI32(n: u32): i32 {
    if n >= 0x8000_0000 then n - 0x1_0000_0000 else n
  }

  function EncodeHeader(e: Event): (b: seq<u8>)
    ensures |b| == 16
  {
    Le(e.structSize, 4) + Le(e.eventClass, 4) + Le(e.eventCode, 4) + Le(FromI32(e.diagnostic), 4)
  }

  function EncodeIds(e: Event): (b: seq<u8>)
    ensures |b| == 24
  {
    Le(e.requestId, 8) + Le(e.attemptId, 8) + Le(e.sequence, 8)
  }

  function EncodeTail(e: Event): (b: seq<u8>)
    ensures |b| == 24
  {
    Le(e.time, 8) + Le(e.reserved0, 8) + Le(e.reserved1, 8)
  }

  function EncodeEvent(e: Event): (b: seq<u8>)
    ensures |b| == EVENT_SIZE
  {
    EncodeHeader(e) + EncodeIds(e) + EncodeTail(e)
  }

  function DecodeEvent(b: seq<u8>): Event
    requires |b| == EVENT_SIZE
  {
    var h := b[..16];
    var p := b[16..40];
    var q := b[40..];
    Event(U32At(h, 0), U32At(h, 4), U32At(h, 8), ToI32(U32At(h, 12)),
          U64At(p, 0), U64At(p, 8), U64At(p, 16), U64At(q, 0), U64At(q, 8), U64At(q, 16))
  }

  /** A caller that reads back the 64 bytes it was given sees the queued event. */
  lemma EventRoundTrip(e: Event)
    ensures DecodeEvent(EncodeEvent(e)) == e
  {
    var b := EncodeEvent(e);
    LeU32(e.structSize); LeU32(e.eventClass); LeU32(e.eventCode); LeU32(FromI32(e.diagnostic));
    LeU64(e.requestId); LeU64(e.attemptId); LeU64(e.sequence);
    LeU64(e.time); LeU64(e.reserved0); LeU64(e.reserved1);
    assert b[..16] == EncodeHeader(e) && b[16..40] == EncodeIds(e) && b[40..] == EncodeTail(e);
    HeaderParts(e);
    IdsParts(e);
    TailParts(e);
  }

  /** Where each field of a handed-out event stands; the signed code is in two's complement. */
  lemma EventLayout(e: Event)
    ensures
      var b := EncodeEvent(e);
      && |b| == 64
      && U32At(b, 0) == e.structSize && U32At(b, 4) == e.eventClass && U32At(b, 8) == e.eventCode
      && U32At(b, 12) == (e.diagnostic + 0x1_0000_0000) % 0x1_0000_0000
      && U64At(b, 16) == e.requestId && U64At(b, 24) == e.attemptId && U64At(b, 32) == e.sequence
      && U64At(b, 40) == e.time && U64At(b, 48) == e.reserved0 && U64At(b, 56) == e.reserved1
  {
    LeU32(e.structSize); LeU32(e.eventClass); LeU32(e.eventCode); LeU32(FromI32(e.diagnostic));
    LeU64(e.requestId); LeU64(e.attemptId); LeU64(e.sequence);
    LeU64(e.time); LeU64(e.reserved0); LeU64(e.reserved1);
    HeaderParts(e);
    IdsParts(e);
    TailParts(e);
    hide Le, Value;
    ThirdsOf(EncodeHeader(e), EncodeIds(e), EncodeTail(e));
  }

  /** The slices of the three parts of an event are slices of the whole. */
  lemma ThirdsOf(h: seq<u8>, p: seq<u8>, q: seq<u8>)
    requires |h| == 16 && |p| == 24 && |q| == 24
    ensures
      var b := h + p + q;
      && b[0..4] == h[0..4] && b[4..8] == h[4..8] && b[8..12] == h[8..12] && b[12..16] == h[12..16]
      && b[16..24] == p[0..8] && b[24..32] == p[8..16] && b[32..40] == p[16..24]
      && b[40..48] == q[0..8] && b[48..56] == q[8..16] && b[56..64] == q[16..24]
  {
  }

  lemma HeaderParts(e: Event)
    ensures
      var h := EncodeHeader(e);
      && h[0..4] == Le(e.structSize, 4) && h[4..8] == Le(e.eventClass, 4)
      && h[8..12] == Le(e.eventCode, 4) && h[12..16] == Le(FromI32(e.diagnostic), 4)
  {
  }

  lemma IdsParts(e: Event)
    ensures
      var p := EncodeIds(e);
      p[0..8] == Le(e.requestId, 8) && p[8..16] == Le(e.attemptId, 8) && p[16..24] == Le(e.sequence, 8)
  {
  }

  lemma TailParts(e: Event)
    ensures
      var p := EncodeTail(e);
      p[0..8] == Le(e.time, 8) && p[8..16] == Le(e.reserved0, 8) && p[16..24] == Le(e.reserved1, 8)
  {
  }
}
