/** The Protocol Buffers wire encoding, as the library the GeoIP parser calls reads it. */
module Protowire {
  import opened Bytes

  const VARINT_TYPE := 0
  const FIXED64_TYPE := 1
  const BYTES_TYPE := 2
  const START_GROUP_TYPE := 3
  const END_GROUP_TYPE := 4
  const FIXED32_TYPE := 5
  const MAX_INT32 := 0x7FFF_FFFF
  const RECURSION_LIMIT := 10000

  /** A value and the number of bytes it took. */
  datatype Consumed<+T> = Got(value: T, n: nat) | Bad

  /** A varint of at most `left` bytes; of the tenth only the lowest bit fits in 64. */
  function VarintWithin(b: seq<byte>, left: nat): (c: Consumed<nat>)
    ensures c.Got? ==> 1 <= c.n <= |b|
  {
    if |b| == 0 || left == 0 then Bad
    else if left == 1 then
      if b[0] < 2 then Got(b[0], 1) else Bad
    else if b[0] < 128 then Got(b[0], 1)
    else
      match VarintWithin(b[1..], left - 1)
      case Bad => Bad
      case Got(v, n) => Got(b[0] - 128 + 128 * v, n + 1)
  }

  function ConsumeVarint(b: seq<byte>): (c: Consumed<nat>)
    ensures c.Got? ==> 1 <= c.n <= |b|
  {
    VarintWithin(b, 10)
  }

  datatype Tag = Tag(field: nat, wt: nat)

  /** A field number must lie between 1 and the largest 32-bit integer. */
  function ConsumeTag(b: seq<byte>): (c: Consumed<Tag>)
    ensures c.Got? ==> 1 <= c.n <= |b|
  {
    match ConsumeVarint(b)
    case Bad => Bad
    case Got(v, n) => if v / 8 > MAX_INT32 || v / 8 < 1 then Bad else Got(Tag(v / 8, v % 8), n)
  }

  function ConsumeBytes(b: seq<byte>): (c: Consumed<seq<byte>>)
    ensures c.Got? ==> 1 <= c.n <= |b| && |c.value| < c.n
  {
    match ConsumeVarint(b)
    case Bad => Bad
    case Got(m, n) => if m > |b| - n then Bad else Got(b[n..n + m], n + m)
  }

  /** The length of a field's value, after its tag. Groups nest, within limits. */
  function ConsumeFieldValue(field: nat, wt: nat, b: seq<byte>, depth: int): (n: Option<nat>)
    ensures n.Some? ==> 1 <= n.value <= |b|
    decreases |b|, 1
  {
    if wt == VARINT_TYPE then
      var c := ConsumeVarint(b);
      if c.Got? then Some(c.n) else None
    else if wt == FIXED32_TYPE then if |b| < 4 then None else Some(4)
    else if wt == FIXED64_TYPE then if |b| < 8 then None else Some(8)
    else if wt == BYTES_TYPE then
      var c := ConsumeBytes(b);
      if c.Got? then Some(c.n) else None
    else if wt == START_GROUP_TYPE then if depth < 0 then None else ConsumeGroup(field, b, depth)
    else None
  }

  /** The fields of a group up to its end tag, which must carry the same number. */
  function ConsumeGroup(field: nat, b: seq<byte>, depth: int): (n: Option<nat>)
    ensures n.Some? ==> 1 <= n.value <= |b|
    decreases |b|, 0
  {
    match ConsumeTag(b)
    case Bad => None
    case Got(tag, n) =>
      if tag.wt == END_GROUP_TYPE then if tag.field == field then Some(n) else None
      else
        match ConsumeFieldValue(tag.field, tag.wt, b[n..], depth - 1)
        case None => None
        case Some(m) =>
          match ConsumeGroup(field, b[n + m..], depth)
          case None => None
          case Some(k) => Some(n + m + k)
  }

  // The encoder.

  function AppendVarint(v: nat): (b: seq<byte>)
    ensures |b| >= 1
  {
    if v < 128 then [v] else [v % 128 + 128] + AppendVarint(v / 128)
  }

  /** The first number a varint of `left` bytes cannot carry. */
  function VarintLimit(left: nat): nat {
    if left == 0 then 0 else if left == 1 then 2 else 128 * VarintLimit(left - 1)
  }

  lemma TenBytesCarry64Bits()
    ensures VarintLimit(10) == 0x1_0000_0000_0000_0000
  {
    assert VarintLimit(3) == 128 * VarintLimit(2);
    assert VarintLimit(5) == 128 * (128 * VarintLimit(3));
    assert VarintLimit(7) == 128 * (128 * VarintLimit(5));
    assert VarintLimit(9) == 128 * (128 * VarintLimit(7));
  }

  lemma {:induction false} VarintWithinRoundTrip(v: nat, left: nat, rest: seq<byte>)
    requires v < VarintLimit(left)
    ensures VarintWithin(AppendVarint(v) + rest, left) == Got(v, |AppendVarint(v)|)
    decreases left
  {
    if v >= 128 {
      VarintWithinRoundTrip(v / 128, left - 1, rest);
      assert (AppendVarint(v) + rest)[1..] == AppendVarint(v / 128) + rest;
    }
  }

  /** Every 64-bit number survives the encoding, whatever follows it. */
  lemma VarintRoundTrip(v: nat, rest: seq<byte>)
    requires v < 0x1_0000_0000_0000_0000
    ensures ConsumeVarint(AppendVarint(v) + rest) == Got(v, |AppendVarint(v)|)
  {
    TenBytesCarry64Bits();
    VarintWithinRoundTrip(v, 10, rest);
  }

  function AppendBytes(v: seq<byte>): seq<byte> {
    AppendVarint(|v|) + v
  }

  lemma BytesRoundTrip(v: seq<byte>, rest: seq<byte>)
    requires |v| < 0x1_0000_0000_0000_0000
    ensures ConsumeBytes(AppendBytes(v) + rest) == Got(v, |AppendBytes(v)|)
    ensures (AppendBytes(v) + rest)[|AppendBytes(v)|..] == rest
  {
    var b := AppendBytes(v) + rest;
    Assoc(AppendVarint(|v|), v, rest);
    VarintRoundTrip(|v|, v + rest);
    assert b[|AppendVarint(|v|)|..|AppendBytes(v)|] == v;
  }

  function AppendTag(field: nat, wt: nat): seq<byte>
    requires wt < 8
  {
    AppendVarint(8 * field + wt)
  }

  lemma TagRoundTrip(field: nat, wt: nat, rest: seq<byte>)
    requires 1 <= field <= MAX_INT32 && wt < 8
    ensures ConsumeTag(AppendTag(field, wt) + rest) == Got(Tag(field, wt), |AppendTag(field, wt)|)
    ensures (AppendTag(field, wt) + rest)[|AppendTag(field, wt)|..] == rest
  {
    VarintRoundTrip(8 * field + wt, rest);
  }

  /** A tag and a byte string, as fields of messages are written. */
  function BytesField(field: nat, v: seq<byte>): seq<byte> {
    AppendTag(field, BYTES_TYPE) + AppendBytes(v)
  }

  function VarintField(field: nat, v: nat): seq<byte> {
    AppendTag(field, VARINT_TYPE) + AppendVarint(v)
  }

  // What the decoder takes, exactly.

  lemma {:induction false} VarintWithinFits(b: seq<byte>, left: nat)
    ensures VarintWithin(b, left).Got? ==>
              VarintWithin(b, left).value < VarintLimit(left) && VarintWithin(b, left).n <= left
    decreases left
  {
    if |b| > 0 && left > 1 {
      VarintWithinFits(b[1..], left - 1);
      LimitAtLeast(left);
    }
  }

  lemma {:induction false} LimitAtLeast(left: nat)
    requires left > 1
    ensures VarintLimit(left) >= 256
  {
    if left > 2 {
      LimitAtLeast(left - 1);
    }
  }

  /** A varint takes at most ten bytes and never more than 64 bits. */
  lemma VarintFits(b: seq<byte>)
    ensures ConsumeVarint(b).Got? ==> ConsumeVarint(b).value < 0x1_0000_0000_0000_0000 && ConsumeVarint(b).n <= 10
  {
    TenBytesCarry64Bits();
    VarintWithinFits(b, 10);
  }

  /** A tag is a varint of at least 8 and below 2^34: its last three bits are the wire type. */
  lemma TagExactly(b: seq<byte>)
    ensures ConsumeTag(b).Got? <==> ConsumeVarint(b).Got? && 8 <= ConsumeVarint(b).value < 0x4_0000_0000
    ensures ConsumeTag(b).Got? ==>
              var tag := ConsumeTag(b).value;
              && ConsumeVarint(b) == Got(8 * tag.field + tag.wt, ConsumeTag(b).n)
              && 1 <= tag.field <= 0x7FFF_FFFF && tag.wt < 8
  {
  }

  // Fields the GeoIP parser does not know, groups within groups included.

  datatype Payload = Number(v: nat) | Word32(b: seq<byte>) | Word64(b: seq<byte>) | Octets(b: seq<byte>)
                   | Group(fields: Fields)

  datatype Fields = Nothing | More(number: nat, value: Payload, rest: Fields)

  /** The wire types of the Protocol Buffers encoding. */
  function WireType(v: Payload): (wt: nat)
    ensures wt < 8 && wt != 4
  {
    match v
    case Number(_) => 0
    case Word64(_) => 1
    case Octets(_) => 2
    case Group(_) => 3
    case Word32(_) => 5
  }

  predicate LegalNumber(number: nat) {
    1 <= number <= 0x7FFF_FFFF
  }

  predicate LegalValue(v: Payload) {
    match v
    case Number(n) => n < 0x1_0000_0000_0000_0000
    case Word64(b) => |b| == 8
    case Octets(b) => |b| < 0x1_0000_0000_0000_0000
    case Group(fields) => LegalFields(fields)
    case Word32(b) => |b| == 4
  }

  predicate LegalFields(fs: Fields) {
    fs.More? ==> LegalNumber(fs.number) && LegalValue(fs.value) && LegalFields(fs.rest)
  }

  /** How deep groups nest. */
  function Depth(v: Payload): nat {
    if v.Group? then 1 + DepthOf(v.fields) else 0
  }

  function DepthOf(fs: Fields): nat {
    match fs
    case Nothing => 0
    case More(_, v, rest) => if Depth(v) <= DepthOf(rest) then DepthOf(rest) else Depth(v)
  }

  function EncodedValue(number: nat, v: Payload): seq<byte>
    decreases v, 0
  {
    match v
    case Number(n) => AppendVarint(n)
    case Word64(b) => b
    case Octets(b) => AppendBytes(b)
    case Group(fields) => EncodedFields(fields) + AppendTag(number, 4)
    case Word32(b) => b
  }

  function EncodedFields(fs: Fields): seq<byte>
    decreases fs, 0
  {
    match fs
    case Nothing => []
    case More(number, v, rest) => EncodedField(number, v) + EncodedFields(rest)
  }

  function EncodedField(number: nat, v: Payload): seq<byte>
    decreases v, 1
  {
    AppendTag(number, WireType(v)) + EncodedValue(number, v)
  }

  /** Whatever a field holds, exactly its value is passed over; but groups must not nest too deep. */
  lemma {:induction false} ValueSkipped(number: nat, v: Payload, rest: seq<byte>, depth: int)
    requires LegalNumber(number) && LegalValue(v)
    ensures ConsumeFieldValue(number, WireType(v), EncodedValue(number, v) + rest, depth)
            == if v.Group? && Depth(v) > depth + 1 then None else Some(|EncodedValue(number, v)|)
    decreases v
  {
    hide ConsumeVarint, ConsumeBytes, ConsumeTag, ConsumeGroup, AppendVarint, AppendBytes, AppendTag;
    match v
    case Number(n) => VarintRoundTrip(n, rest);
    case Octets(b) => BytesRoundTrip(b, rest);
    case Group(fields) =>
      if depth >= 0 {
        GroupSkipped(number, fields, rest, depth);
      }
    case _ =>
  }

  lemma {:induction false} GroupSkipped(number: nat, fs: Fields, rest: seq<byte>, depth: nat)
    requires LegalNumber(number) && LegalFields(fs)
    ensures var b := EncodedFields(fs) + AppendTag(number, 4);
            ConsumeGroup(number, b + rest, depth) == if DepthOf(fs) > depth then None else Some(|b|)
    decreases fs
  {
    hide ConsumeTag, ConsumeVarint, ConsumeFieldValue, AppendTag, EncodedValue, EncodedField, LegalValue, WireType;
    var end := AppendTag(number, 4);
    match fs
    case Nothing =>
      assert EncodedFields(fs) + end + rest == end + rest;
      TagRoundTrip(number, 4, rest);
    case More(n, v, more) =>
      var tag, value, tail := AppendTag(n, WireType(v)), EncodedValue(n, v), (EncodedFields(more) + end) + rest;
      var b := EncodedFields(fs) + end + rest;
      FieldIs(n, v);
      Regroup(tag, value, EncodedFields(more), end, rest);
      TagRoundTrip(n, WireType(v), value + tail);
      ValueSkipped(n, v, tail, depth - 1);
      Behind(tag, value, tail);
      GroupSkipped(number, more, rest, depth);
  }

  lemma Behind(a: seq<byte>, b: seq<byte>, c: seq<byte>)
    ensures (a + (b + c))[|a|..] == b + c && (a + (b + c))[|a| + |b|..] == c
    ensures |a + (b + c)| == |a| + |b| + |c|
  {
  }

  lemma FieldIs(number: nat, v: Payload)
    ensures EncodedField(number, v) == AppendTag(number, WireType(v)) + EncodedValue(number, v)
  {
  }

  lemma Regroup(a: seq<byte>, b: seq<byte>, c: seq<byte>, d: seq<byte>, e: seq<byte>)
    ensures ((a + b) + c) + d + e == a + (b + ((c + d) + e))
  {
  }

  /** At the top: groups may nest 10001 deep. */
  lemma FieldSkipped(number: nat, v: Payload, rest: seq<byte>)
    requires LegalNumber(number) && LegalValue(v)
    ensures ConsumeFieldValue(number, WireType(v), EncodedValue(number, v) + rest, RECURSION_LIMIT)
            == if Depth(v) > 10001 then None else Some(|EncodedValue(number, v)|)
  {
    ValueSkipped(number, v, rest, RECURSION_LIMIT);
  }
}
