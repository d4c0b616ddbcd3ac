/** The GeoIP file: a list of entries, each a country and its CIDRs, in nested Protocol Buffers fields. */
module GeoIp {
  import opened Bytes
  import opened Netip
  import opened Protowire

  /** What the parser takes from the standard library: lower-casing and trimming of names. */
  datatype Text = Text(lower: seq<byte> -> seq<byte>, trim: seq<byte> -> seq<byte>)

  /** A `uint64` converted to `int`. */
  function ToInt64(v: nat): int {
    if v < 0x8000_0000_0000_0000 then v else v - 0x1_0000_0000_0000_0000
  }

  // One CIDR.

  /** The values `parseGeoCIDR` has gathered. */
  datatype CidrFields = CidrFields(ip: seq<byte>, bits: int)

  /** What one turn of the loop does after a tag: the new values and how far it gets. A value that does not
      parse only leaves the `switch`: the loop goes on right behind the tag. */
  function CidrValue(tag: Tag, rest: seq<byte>, f: CidrFields): (r: (CidrFields, nat))
    ensures r.1 <= |rest|
  {
    if tag.wt == BYTES_TYPE then
      match ConsumeBytes(rest)
      case Bad => (f, 0)
      case Got(v, n) => (if tag.field == 1 then f.(ip := v) else f, n)
    else if tag.wt == VARINT_TYPE then
      match ConsumeVarint(rest)
      case Bad => (f, 0)
      case Got(v, n) => (if tag.field == 2 then f.(bits := ToInt64(v)) else f, n)
    else
      match ConsumeFieldValue(tag.field, tag.wt, rest, RECURSION_LIMIT)
      case None => (f, 0)
      case Some(n) => (f, n)
  }

  function ScanCidr(data: seq<byte>, f: CidrFields): CidrFields
    decreases |data|
  {
    if data == [] then f
    else
      match ConsumeTag(data)
      case Bad => f
      case Got(tag, n) =>
        var (g, m) := CidrValue(tag, data[n..], f);
        ScanCidr(data[n + m..], g)
  }

  function PrefixOf(f: CidrFields): Option<Prefix> {
    if f.ip == [] || f.bits < 0 then None
    else
      match AddrFromSlice(f.ip)
      case None => None
      case Some(addr) =>
        if f.bits > addr.BitLen() then None else Some(Prefix(addr.Unmap(), f.bits))
  }

  function CidrOf(data: seq<byte>): Option<Prefix> {
    PrefixOf(ScanCidr(data, CidrFields([], -1)))
  }

  method ParseGeoCIDR(data: seq<byte>) returns (p: Option<Prefix>)
    ensures p == CidrOf(data)
  {
    hide ConsumeTag, ConsumeBytes, ConsumeVarint, ConsumeFieldValue;
    var f := CidrFields([], -1);
    var off := 0;
    while off < |data|
      invariant off <= |data|
      invariant ScanCidr(data[off..], f) == ScanCidr(data, CidrFields([], -1))
    {
      var tag := ConsumeTag(data[off..]);
      if tag.Bad? {
        break;
      }
      ghost var here, before := data[off..], f;
      off := off + tag.n;
      assert here[tag.n..] == data[off..];
      var m := 0;
      match tag.value.wt {
        case 2 =>
          var v := ConsumeBytes(data[off..]);
          if v.Got? {
            m := v.n;
            if tag.value.field == 1 {
              f := f.(ip := v.value);
            }
          }
        case 0 =>
          var v := ConsumeVarint(data[off..]);
          if v.Got? {
            m := v.n;
            if tag.value.field == 2 {
              f := f.(bits := ToInt64(v.value));
            }
          }
        case _ =>
          var n := ConsumeFieldValue(tag.value.field, tag.value.wt, data[off..], RECURSION_LIMIT);
          if n.Some? {
            m := n.value;
          }
      }
      assert (f, m) == CidrValue(tag.value, data[off..], before);
      assert here[tag.n + m..] == data[off + m..];
      off := off + m;
    }
    p := PrefixOf(f);
  }

  // What `break` does not do: a bad value does not end the loop.

  predicate ValueParses(tag: Tag, rest: seq<byte>) {
    if tag.wt == BYTES_TYPE then ConsumeBytes(rest).Got?
    else if tag.wt == VARINT_TYPE then ConsumeVarint(rest).Got?
    else ConsumeFieldValue(tag.field, tag.wt, rest, RECURSION_LIMIT).Some?
  }

  /** Where a scan that does stop at the first bad value ends: with what fields, and with what behind the tag of
      that value, if there is one. */
  datatype Stop = Stop(fields: CidrFields, left: Option<seq<byte>>)

  function StoppingScan(data: seq<byte>, f: CidrFields): Stop
    decreases |data|
  {
    if data == [] then Stop(f, None)
    else
      match ConsumeTag(data)
      case Bad => Stop(f, None)
      case Got(tag, n) =>
        if !ValueParses(tag, data[n..]) then Stop(f, Some(data[n..]))
        else
          var (g, m) := CidrValue(tag, data[n..], f);
          StoppingScan(data[n + m..], g)
  }

  predicate AllValuesParse(data: seq<byte>) {
    StoppingScan(data, CidrFields([], -1)).left.None?
  }

  /** The parser `break` suggests: it refuses a CIDR with a bad value. */
  function StrictCidrOf(data: seq<byte>): Option<Prefix> {
    if AllValuesParse(data) then PrefixOf(StoppingScan(data, CidrFields([], -1)).fields) else None
  }

  /** Whatever the tag, a value that does not parse is read again, from right behind the tag. */
  lemma BadValueIsReadAgain(data: seq<byte>, f: CidrFields)
    requires data != [] && ConsumeTag(data).Got? && !ValueParses(ConsumeTag(data).value, data[ConsumeTag(data).n..])
    ensures ScanCidr(data, f) == ScanCidr(data[ConsumeTag(data).n..], f)
  {
    hide ConsumeTag, ConsumeBytes, ConsumeVarint, ConsumeFieldValue;
  }

  /** The scan is the stopping scan, started anew behind the tag of every bad value. */
  lemma {:induction false} ScanGoesOn(data: seq<byte>, f: CidrFields)
    ensures var s := StoppingScan(data, f);
            ScanCidr(data, f) == if s.left.None? then s.fields else ScanCidr(s.left.value, s.fields)
    decreases |data|
  {
    hide ConsumeTag, ConsumeBytes, ConsumeVarint, ConsumeFieldValue;
    if data != [] && ConsumeTag(data).Got? {
      var tag, n := ConsumeTag(data).value, ConsumeTag(data).n;
      if ValueParses(tag, data[n..]) {
        var (g, m) := CidrValue(tag, data[n..], f);
        ScanGoesOn(data[n + m..], g);
      }
    }
  }

  /** Where every value parses the two agree. Where one does not, the strict parser refuses, and this one goes on
      behind its tag with the values it has: a CIDR the strict parser finds is always found. */
  lemma StrictAgrees(data: seq<byte>)
    ensures var s := StoppingScan(data, CidrFields([], -1));
            if AllValuesParse(data) then CidrOf(data) == StrictCidrOf(data)
            else StrictCidrOf(data) == None && CidrOf(data) == PrefixOf(ScanCidr(s.left.value, s.fields))
    ensures StrictCidrOf(data).Some? ==> CidrOf(data) == StrictCidrOf(data)
  {
    ScanGoesOn(data, CidrFields([], -1));
  }

  // Length-delimited fields: what the two outer loops look at.

  datatype Blob = Blob(field: nat, value: seq<byte>)

  /** One turn of either loop: the end, a field to skip, or a length-delimited field, and how long it is. */
  datatype Turn = Halt | Skip(n: nat) | Found(blob: Blob, n: nat)

  function NextTurn(data: seq<byte>): (t: Turn)
    ensures !t.Halt? ==> 1 <= t.n <= |data|
  {
    match ConsumeTag(data)
    case Bad => Halt
    case Got(tag, n) =>
      if tag.wt != BYTES_TYPE then
        match ConsumeFieldValue(tag.field, tag.wt, data[n..], RECURSION_LIMIT)
        case None => Halt
        case Some(m) => Skip(n + m)
      else
        match ConsumeBytes(data[n..])
        case Bad => Halt
        case Got(v, m) => Found(Blob(tag.field, v), n + m)
  }

  /** The length-delimited fields up to the first thing that does not parse; other fields are skipped. */
  function Blobs(data: seq<byte>): seq<Blob>
    decreases |data|
  {
    if data == [] then []
    else
      match NextTurn(data)
      case Halt => []
      case Skip(n) => Blobs(data[n..])
      case Found(blob, n) => [blob] + Blobs(data[n..])
  }

  lemma TurnsOn(data: seq<byte>, off: nat)
    requires off < |data|
    ensures var t := NextTurn(data[off..]);
            match t {
              case Halt => Blobs(data[off..]) == []
              case Skip(n) => Blobs(data[off..]) == Blobs(data[off + n..])
              case Found(blob, n) => Blobs(data[off..]) == [blob] + Blobs(data[off + n..])
            }
  {
    var t := NextTurn(data[off..]);
    if !t.Halt? {
      assert data[off..][t.n..] == data[off + t.n..];
    }
  }

  // One entry.

  datatype Entry = Entry(country: seq<byte>, prefixes: seq<Prefix>)

  function ReadField(text: Text, e: Entry, b: Blob): Entry {
    if b.field == 1 then e.(country := text.lower(b.value))
    else if b.field == 2 && CidrOf(b.value).Some? then e.(prefixes := e.prefixes + [CidrOf(b.value).value])
    else e
  }

  function ReadFields(text: Text, e: Entry, blobs: seq<Blob>): Entry
    decreases |blobs|
  {
    if blobs == [] then e else ReadFields(text, ReadField(text, e, blobs[0]), blobs[1..])
  }

  lemma ReadFieldsCons(text: Text, e: Entry, b: Blob, rest: seq<Blob>)
    ensures ReadFields(text, e, [b] + rest) == ReadFields(text, ReadField(text, e, b), rest)
  {
    assert ([b] + rest)[1..] == rest;
  }

  function EntryOf(text: Text, data: seq<byte>): Entry {
    ReadFields(text, Entry([], []), Blobs(data))
  }

  method ParseGeoEntry(text: Text, data: seq<byte>) returns (e: Entry)
    ensures e == EntryOf(text, data)
  {
    hide NextTurn;
    e := Entry([], []);
    var off := 0;
    ghost var left := Blobs(data);
    assert data[0..] == data;
    while off < |data|
      invariant off <= |data| && left == Blobs(data[off..])
      invariant ReadFields(text, e, left) == EntryOf(text, data)
    {
      var turn;
      turn, left := TakeTurn(data, off, left);
      if turn.Halt? {
        break;
      }
      off := off + turn.n;
      if turn.Found? {
        ReadFieldsCons(text, e, turn.blob, left);
        match turn.blob.field {
          case 1 =>
            e := e.(country := text.lower(turn.blob.value));
          case 2 =>
            var p := ParseGeoCIDR(turn.blob.value);
            if p.Some? {
              e := e.(prefixes := e.prefixes + [p.value]);
            }
          case _ =>
        }
      }
    }
  }

  // The file.

  type Countries = map<seq<byte>, seq<Prefix>>

  function Listed(m: Countries, country: seq<byte>): seq<Prefix> {
    if country in m then m[country] else []
  }

  /** Entries without a country are dropped; entries of the same country are merged. */
  function AddEntry(m: Countries, e: Entry): Countries {
    if e.country == [] then m else m[e.country := Listed(m, e.country) + e.prefixes]
  }

  function AddEntries(text: Text, m: Countries, blobs: seq<Blob>): Countries
    decreases |blobs|
  {
    if blobs == [] then m
    else AddEntries(text, AddEntry(m, EntryOf(text, blobs[0].value)), blobs[1..])
  }

  lemma AddEntriesCons(text: Text, m: Countries, b: Blob, rest: seq<Blob>)
    ensures AddEntries(text, m, [b] + rest) == AddEntries(text, AddEntry(m, EntryOf(text, b.value)), rest)
  {
    assert ([b] + rest)[1..] == rest;
  }

  function Loaded(text: Text, data: seq<byte>): Countries {
    AddEntries(text, map[], Blobs(data))
  }

  /** `LoadGeoIP` on the contents of the file: every length-delimited field counts as an entry. */
  method LoadGeoIP(text: Text, data: seq<byte>) returns (countries: Countries)
    ensures countries == Loaded(text, data)
  {
    hide NextTurn;
    countries := map[];
    var off := 0;
    ghost var left := Blobs(data);
    assert data[0..] == data;
    while off < |data|
      invariant off <= |data| && left == Blobs(data[off..])
      invariant AddEntries(text, countries, left) == Loaded(text, data)
    {
      var turn;
      turn, left := TakeTurn(data, off, left);
      if turn.Halt? {
        break;
      }
      off := off + turn.n;
      if turn.Found? {
        countries := LoadEntry(text, countries, turn.blob, left);
      }
    }
    assert data[|data|..] == [];
  }

  /** One turn of either loop; `left` is what is still to be found. */
  method TakeTurn(data: seq<byte>, off: nat, ghost left: seq<Blob>) returns (turn: Turn, ghost now: seq<Blob>)
    requires off < |data| && left == Blobs(data[off..])
    ensures turn.Halt? ==> left == now == []
    ensures !turn.Halt? ==> 1 <= turn.n <= |data| - off && now == Blobs(data[off + turn.n..])
    ensures turn.Skip? ==> left == now
    ensures turn.Found? ==> left == [turn.blob] + now
  {
    hide NextTurn;
    TurnsOn(data, off);
    turn := NextTurn(data[off..]);
    now := if turn.Halt? then [] else Blobs(data[off + turn.n..]);
  }

  method LoadEntry(text: Text, m: Countries, blob: Blob, ghost rest: seq<Blob>) returns (now: Countries)
    ensures AddEntries(text, now, rest) == AddEntries(text, m, [blob] + rest)
  {
    AddEntriesCons(text, m, blob, rest);
    var e := ParseGeoEntry(text, blob.value);
    now := if e.country == [] then m else m[e.country := Listed(m, e.country) + e.prefixes];
  }

  /** `ContainsCountry`, a search through the prefixes of one country. */
  method ContainsCountry(text: Text, countries: Countries, ip: Addr, country: seq<byte>) returns (found: bool)
    ensures found <==> Covered(text, countries, ip, country)
  {
    var key := text.lower(text.trim(country));
    if key !in countries {
      return false;
    }
    var ps := countries[key];
    for i := 0 to |ps|
      invariant forall j :: 0 <= j < i ==> !ps[j].Contains(ip.Unmap())
    {
      if ps[i].Contains(ip.Unmap()) {
        return true;
      }
    }
    return false;
  }

  predicate Covered(text: Text, countries: Countries, ip: Addr, country: seq<byte>) {
    exists p :: p in Listed(countries, text.lower(text.trim(country))) && p.Contains(ip.Unmap())
  }

  // What a file says, and how it is written.

  /** An address of 4 or 16 bytes, and a prefix length in range for it. An IPv4-mapped address counts as the
      IPv4 address it maps, with the length as it stands. */
  datatype Cidr = Cidr(ip: seq<byte>, bits: nat) {
    function Raw(): Addr {
      if |ip| == 4 then V4(Value(ip)) else if |ip| == 16 then V6(Value(ip), false) else Zero
    }

    function Meaning(): Prefix {
      Prefix(Raw().Unmap(), bits)
    }

    predicate Legal() {
      !Raw().Zero? && bits <= Raw().BitLen()
    }

    function Encoded(): seq<byte> {
      BytesField(1, ip) + VarintField(2, bits)
    }
  }

  /** A CIDR holds its own address exactly unless it is mapped and longer than 32 bits, as every natural mapped one
      is: then it holds nothing. */
  lemma MappedHoldsNothing(c: Cidr, ip: Addr)
    requires c.Legal()
    ensures c.Meaning().Contains(c.Raw().Unmap()) <==> !(c.Raw().Is4In6() && c.bits > 32)
    ensures c.Raw().Is4In6() && c.bits > 32 ==> !c.Meaning().Contains(ip)
    ensures c.Raw().Is4In6() && c.bits >= 96 ==>
              Prefix(c.Raw().Unmap(), c.bits - 96).Contains(c.Raw().Unmap())
  {
  }

  lemma ShortVarint(v: nat)
    requires v < 0x4000
    ensures |AppendVarint(v)| <= 2
  {
    if v >= 128 {
      assert |AppendVarint(v / 128)| == 1;
    }
  }

  lemma CidrIsShort(c: Cidr)
    requires c.Legal()
    ensures |c.Encoded()| <= 24
  {
    ShortVarint(c.bits);
    ShortVarint(|c.ip|);
    ShortVarint(10);
    ShortVarint(16);
  }

  /** For one: a length that overruns the data is taken for a tag, and whatever follows still counts. */
  lemma OverrunIsReadAgain(rest: seq<byte>, f: CidrFields)
    requires |rest| < 0x7F
    ensures var data := [0x0A, 0x7F] + rest;
            ScanCidr(data, f) == ScanCidr(rest, f) && StoppingScan(data, f) == Stop(f, Some([0x7F] + rest))
  {
    hide ConsumeFieldValue, ScanCidr;
    var data, again := [0x0A, 0x7F] + rest, [0x7F] + rest;
    assert data[1..] == again && again[1..] == rest;
    assert ConsumeTag(data) == Got(Tag(1, 2), 1) && ConsumeTag(again) == Got(Tag(15, 7), 1);
    assert ConsumeBytes(again) == Bad;
    BadValueIsReadAgain(data, f);
    NoSuchType(15, 7, rest);
    BadValueIsReadAgain(again, f);
  }

  /** So a strict parser refuses two bytes of garbage in front of a CIDR, and this one finds it. */
  lemma GarbageIsPassedOver(c: Cidr)
    requires c.Legal()
    ensures var data := [0x0A, 0x7F] + c.Encoded();
            StrictCidrOf(data) == None && CidrOf(data) == Some(c.Meaning())
  {
    hide ScanCidr, StoppingScan, PrefixOf, Cidr.Encoded, Cidr.Meaning, AddrFromSlice;
    CidrIsShort(c);
    OverrunIsReadAgain(c.Encoded(), CidrFields([], -1));
    CidrDecodes(c);
  }

  lemma NoSuchType(field: nat, wt: nat, b: seq<byte>)
    requires wt > 5
    ensures ConsumeFieldValue(field, wt, b, RECURSION_LIMIT).None?
  {
  }

  predicate LegalCidrs(cidrs: seq<Cidr>) {
    forall i :: 0 <= i < |cidrs| ==> cidrs[i].Legal()
  }

  datatype Country = Country(name: seq<byte>, cidrs: seq<Cidr>) {
    predicate Legal() {
      |Encoded()| < 0x1_0000_0000_0000_0000 && LegalCidrs(cidrs)
    }

    function Encoded(): seq<byte> {
      BytesField(1, name) + EncodedCidrs(cidrs)
    }
  }

  function EncodedCidrs(cidrs: seq<Cidr>): seq<byte> {
    if cidrs == [] then [] else BytesField(2, cidrs[0].Encoded()) + EncodedCidrs(cidrs[1..])
  }

  function EncodedList(list: seq<Country>): seq<byte> {
    if list == [] then [] else BytesField(1, list[0].Encoded()) + EncodedList(list[1..])
  }

  predicate LegalList(list: seq<Country>) {
    forall i :: 0 <= i < |list| ==> list[i].Legal()
  }

  lemma BytesFieldFound(field: nat, v: seq<byte>, rest: seq<byte>)
    requires 1 <= field <= MAX_INT32 && |v| < 0x1_0000_0000_0000_0000
    ensures Blobs(BytesField(field, v) + rest) == [Blob(field, v)] + Blobs(rest)
  {
    var tag, value := AppendTag(field, BYTES_TYPE), AppendBytes(v);
    var data := BytesField(field, v) + rest;
    Assoc(tag, value, rest);
    TagRoundTrip(field, BYTES_TYPE, value + rest);
    BytesRoundTrip(v, rest);
    assert data[|tag|..][|value|..] == data[|tag| + |value|..];
  }

  /** A field of either kind puts its value where it belongs, whatever was there before and whatever follows. */
  lemma IpScanned(ip: seq<byte>, rest: seq<byte>, f: CidrFields)
    requires |ip| < 0x1_0000_0000_0000_0000
    ensures ScanCidr(BytesField(1, ip) + rest, f) == ScanCidr(rest, f.(ip := ip))
  {
    hide ConsumeTag, ConsumeBytes, ConsumeVarint, ConsumeFieldValue;
    var tag, value := AppendTag(1, BYTES_TYPE), AppendBytes(ip);
    var data := BytesField(1, ip) + rest;
    Assoc(tag, value, rest);
    TagRoundTrip(1, BYTES_TYPE, value + rest);
    BytesRoundTrip(ip, rest);
    assert data[|tag|..][|value|..] == data[|tag| + |value|..];
  }

  lemma BitsScanned(bits: nat, rest: seq<byte>, f: CidrFields)
    requires bits < 0x1_0000_0000_0000_0000
    ensures ScanCidr(VarintField(2, bits) + rest, f) == ScanCidr(rest, f.(bits := ToInt64(bits)))
  {
    hide ConsumeTag, ConsumeBytes, ConsumeVarint, ConsumeFieldValue;
    var tag, value := AppendTag(2, VARINT_TYPE), AppendVarint(bits);
    var data := VarintField(2, bits) + rest;
    Assoc(tag, value, rest);
    TagRoundTrip(2, VARINT_TYPE, value + rest);
    VarintRoundTrip(bits, rest);
    assert data[|tag|..][|value|..] == data[|tag| + |value|..];
    assert (value + rest)[|value|..] == rest;
  }

  /** Fields of any kind that a CIDR does not know are passed over. */
  lemma UnknownPassedOver(number: nat, v: Payload, rest: seq<byte>, f: CidrFields)
    requires LegalNumber(number) && LegalValue(v) && Depth(v) <= 10001
    requires !(number == 1 && v.Octets?) && !(number == 2 && v.Number?)
    ensures ScanCidr(EncodedField(number, v) + rest, f) == ScanCidr(rest, f)
  {
    hide ConsumeTag, ConsumeBytes, ConsumeVarint, ConsumeFieldValue, LegalValue, AppendVarint, AppendBytes;
    var tag, value := AppendTag(number, WireType(v)), EncodedValue(number, v);
    var data := EncodedField(number, v) + rest;
    Assoc(tag, value, rest);
    TagRoundTrip(number, WireType(v), value + rest);
    FieldSkipped(number, v, rest);
    if v.Octets? {
      OctetsRead(number, v, rest);
    }
    if v.Number? {
      NumberRead(number, v, rest);
    }
    assert data[|tag|..] == value + rest && data[|tag| + |value|..] == rest;
  }

  lemma OctetsRead(number: nat, v: Payload, rest: seq<byte>)
    requires v.Octets? && LegalValue(v)
    ensures ConsumeBytes(EncodedValue(number, v) + rest) == Got(v.b, |EncodedValue(number, v)|)
  {
    BytesRoundTrip(v.b, rest);
  }

  lemma NumberRead(number: nat, v: Payload, rest: seq<byte>)
    requires v.Number? && LegalValue(v)
    ensures ConsumeVarint(EncodedValue(number, v) + rest) == Got(v.v, |EncodedValue(number, v)|)
  {
    VarintRoundTrip(v.v, rest);
  }

  /** And so are, in an entry and in the file, all fields that are not length-delimited. */
  lemma OthersPassedOver(number: nat, v: Payload, rest: seq<byte>)
    requires LegalNumber(number) && LegalValue(v) && Depth(v) <= 10001
    ensures Blobs(EncodedField(number, v) + rest) == (if v.Octets? then [Blob(number, v.b)] else []) + Blobs(rest)
  {
    hide ConsumeTag, ConsumeBytes, ConsumeVarint, ConsumeFieldValue, LegalValue, AppendVarint, AppendBytes;
    var tag, value := AppendTag(number, WireType(v)), EncodedValue(number, v);
    var data := EncodedField(number, v) + rest;
    Assoc(tag, value, rest);
    TagRoundTrip(number, WireType(v), value + rest);
    FieldSkipped(number, v, rest);
    if v.Octets? {
      OctetsRead(number, v, rest);
    }
    assert data[|tag|..] == value + rest && data[|tag| + |value|..] == rest;
    assert [] + Blobs(rest) == Blobs(rest);
  }

  /** A legal CIDR is read back, with its fields in either order. */
  lemma CidrDecodes(c: Cidr)
    requires c.Legal()
    ensures CidrOf(c.Encoded()) == Some(c.Meaning())
    ensures CidrOf(VarintField(2, c.bits) + BytesField(1, c.ip)) == Some(c.Meaning())
  {
    FieldsScanned(c);
  }

  lemma FieldsScanned(c: Cidr)
    requires |c.ip| < 0x1_0000_0000_0000_0000 && c.bits < 0x1_0000_0000_0000_0000
    ensures CidrOf(c.Encoded()) == PrefixOf(CidrFields(c.ip, ToInt64(c.bits)))
    ensures CidrOf(VarintField(2, c.bits) + BytesField(1, c.ip)) == PrefixOf(CidrFields(c.ip, ToInt64(c.bits)))
    ensures CidrOf(BytesField(1, c.ip)) == CidrOf(VarintField(2, c.bits)) == None
  {
    hide BytesField, VarintField, PrefixOf;
    var f, ip, bits := CidrFields([], -1), BytesField(1, c.ip), VarintField(2, c.bits);
    assert ip + [] == ip && bits + [] == bits;
    IpScanned(c.ip, bits, f);
    BitsScanned(c.bits, [], f.(ip := c.ip));
    BitsScanned(c.bits, ip, f);
    IpScanned(c.ip, [], f.(bits := ToInt64(c.bits)));
    IpScanned(c.ip, [], f);
    BitsScanned(c.bits, [], f);
    NoFields(c);
  }

  lemma NoFields(c: Cidr)
    ensures PrefixOf(CidrFields(c.ip, -1)) == None && PrefixOf(CidrFields([], ToInt64(c.bits))) == None
  {
  }

  /** No other address and length are: a CIDR whose address has not 4 or 16 bytes, whose length is too large for it or
      negative as an `int`, or that lacks one of the two fields, is refused. */
  lemma IllegalRefused(c: Cidr)
    requires |c.ip| < 0x1_0000_0000_0000_0000 && c.bits < 0x1_0000_0000_0000_0000
    ensures CidrOf(c.Encoded()).Some? <==> c.Legal()
    ensures CidrOf(BytesField(1, c.ip)) == CidrOf(VarintField(2, c.bits)) == None
  {
    hide BytesField, VarintField;
    FieldsScanned(c);
  }

  function PrefixesOf(cidrs: seq<Cidr>): seq<Prefix> {
    seq(|cidrs|, i requires 0 <= i < |cidrs| => cidrs[i].Meaning())
  }

  function CidrBlobs(cidrs: seq<Cidr>): seq<Blob> {
    if cidrs == [] then [] else [Blob(2, cidrs[0].Encoded())] + CidrBlobs(cidrs[1..])
  }

  lemma {:induction false} CidrsSplit(cidrs: seq<Cidr>)
    requires |EncodedCidrs(cidrs)| < 0x1_0000_0000_0000_0000
    ensures Blobs(EncodedCidrs(cidrs)) == CidrBlobs(cidrs)
  {
    if cidrs != [] {
      BytesFieldFound(2, cidrs[0].Encoded(), EncodedCidrs(cidrs[1..]));
      CidrsSplit(cidrs[1..]);
    }
  }

  lemma {:induction false} CidrsDecode(text: Text, e: Entry, cidrs: seq<Cidr>)
    requires LegalCidrs(cidrs)
    ensures ReadFields(text, e, CidrBlobs(cidrs)) == e.(prefixes := e.prefixes + PrefixesOf(cidrs))
    decreases |cidrs|
  {
    hide CidrOf;
    if cidrs == [] {
      assert e.prefixes + PrefixesOf([]) == e.prefixes;
    } else {
      var c, rest := cidrs[0], cidrs[1..];
      var now := e.(prefixes := e.prefixes + [c.Meaning()]);
      CidrDecodes(c);
      ReadFieldsCons(text, e, Blob(2, c.Encoded()), CidrBlobs(rest));
      CidrsDecode(text, now, rest);
      assert PrefixesOf(cidrs) == [c.Meaning()] + PrefixesOf(rest);
      assert now.prefixes + PrefixesOf(rest) == e.prefixes + PrefixesOf(cidrs);
    }
  }

  /** An encoded entry is read back as its lower-cased country and all of its CIDRs, in order. */
  lemma EntryDecodes(text: Text, c: Country)
    requires c.Legal()
    ensures EntryOf(text, c.Encoded()) == Entry(text.lower(c.name), PrefixesOf(c.cidrs))
  {
    BytesFieldFound(1, c.name, EncodedCidrs(c.cidrs));
    CidrsSplit(c.cidrs);
    ReadFieldsCons(text, Entry([], []), Blob(1, c.name), CidrBlobs(c.cidrs));
    CidrsDecode(text, Entry(text.lower(c.name), []), c.cidrs);
    assert [] + PrefixesOf(c.cidrs) == PrefixesOf(c.cidrs);
  }

  /** All prefixes of the entries of one country, in file order. */
  function Gathered(text: Text, list: seq<Country>, key: seq<byte>): seq<Prefix> {
    if list == [] then []
    else (if text.lower(list[0].name) == key then PrefixesOf(list[0].cidrs) else []) + Gathered(text, list[1..], key)
  }

  function ListBlobs(list: seq<Country>): seq<Blob> {
    if list == [] then [] else [Blob(1, list[0].Encoded())] + ListBlobs(list[1..])
  }

  lemma {:induction false} ListSplits(list: seq<Country>)
    requires LegalList(list)
    ensures Blobs(EncodedList(list)) == ListBlobs(list)
  {
    if list != [] {
      assert list[0].Legal();
      BytesFieldFound(1, list[0].Encoded(), EncodedList(list[1..]));
      ListSplits(list[1..]);
    }
  }

  lemma AddEntryListed(m: Countries, e: Entry, key: seq<byte>)
    requires key != []
    ensures Listed(AddEntry(m, e), key) == Listed(m, key) + if e.country == key then e.prefixes else []
  {
    assert Listed(m, key) + [] == Listed(m, key);
  }

  lemma {:induction false} ListDecodes(text: Text, m: Countries, list: seq<Country>, key: seq<byte>)
    requires LegalList(list) && key != []
    ensures Listed(AddEntries(text, m, ListBlobs(list)), key) == Listed(m, key) + Gathered(text, list, key)
    decreases |list|
  {
    hide EntryOf, BytesField, EncodedCidrs, PrefixesOf, AddEntry, Listed;
    if list == [] {
      assert Listed(m, key) + [] == Listed(m, key);
    } else {
      var c, rest := list[0], list[1..];
      var mine := if text.lower(c.name) == key then PrefixesOf(c.cidrs) else [];
      EntryDecodes(text, c);
      var e := Entry(text.lower(c.name), PrefixesOf(c.cidrs));
      AddEntryListed(m, e, key);
      calc {
        Listed(AddEntries(text, m, ListBlobs(list)), key);
        { AddEntriesCons(text, m, Blob(1, c.Encoded()), ListBlobs(rest)); }
        Listed(AddEntries(text, AddEntry(m, e), ListBlobs(rest)), key);
        { ListDecodes(text, AddEntry(m, e), rest, key); }
        (Listed(m, key) + mine) + Gathered(text, rest, key);
        Listed(m, key) + (mine + Gathered(text, rest, key));
        Listed(m, key) + Gathered(text, list, key);
      }
    }
  }

  /** Some CIDR of an entry of the same country, up to case, holds the address. */
  ghost predicate Says(text: Text, list: seq<Country>, ip: Addr, key: seq<byte>) {
    exists c, cidr :: c in list && cidr in c.cidrs && text.lower(c.name) == key && cidr.Meaning().Contains(ip)
  }

  lemma {:induction false} GatheredSays(text: Text, list: seq<Country>, ip: Addr, key: seq<byte>)
    ensures (exists p :: p in Gathered(text, list, key) && p.Contains(ip)) <==> Says(text, list, ip, key)
  {
    if list != [] {
      var c, rest := list[0], list[1..];
      GatheredSays(text, rest, ip, key);
      assert list == [c] + rest;
      var mine := if text.lower(c.name) == key then PrefixesOf(c.cidrs) else [];
      assert Gathered(text, list, key) == mine + Gathered(text, rest, key);
      forall cidr | cidr in c.cidrs && text.lower(c.name) == key
        ensures cidr.Meaning() in mine
      {
        var i :| 0 <= i < |c.cidrs| && c.cidrs[i] == cidr;
        assert mine[i] == cidr.Meaning();
      }
      forall p | p in mine
        ensures exists cidr :: cidr in c.cidrs && p == cidr.Meaning()
      {
        var i :| 0 <= i < |mine| && mine[i] == p;
        assert c.cidrs[i] in c.cidrs;
      }
    }
  }

  lemma {:induction false} NoNameless(text: Text, m: Countries, blobs: seq<Blob>)
    requires [] !in m
    ensures [] !in AddEntries(text, m, blobs)
    decreases |blobs|
  {
    if blobs != [] {
      NoNameless(text, AddEntry(m, EntryOf(text, blobs[0].value)), blobs[1..]);
    }
  }

  /** For every encoded list: an address is in a country exactly when the name is not blank and some CIDR of
      some entry of that country says so, names compared without case and surrounding space. */
  lemma LoadedFileMeansItsList(text: Text, list: seq<Country>, ip: Addr, country: seq<byte>)
    requires LegalList(list)
    ensures var key := text.lower(text.trim(country));
            Covered(text, Loaded(text, EncodedList(list)), ip, country) <==>
              key != [] && Says(text, list, ip.Unmap(), key)
  {
    var key := text.lower(text.trim(country));
    if key == [] {
      NoNameless(text, map[], Blobs(EncodedList(list)));
    } else {
      ListSplits(list);
      ListDecodes(text, map[], list, key);
      assert [] + Gathered(text, list, key) == Gathered(text, list, key);
      GatheredSays(text, list, ip.Unmap(), key);
    }
  }
}
