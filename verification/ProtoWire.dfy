/** The Protocol Buffers wire format ("Base 128 Varints", "Message Structure"), as the
    append and consume helpers of Go's protowire package implement it. */
module ProtoWire {
  import opened Wrappers

  type byte = x: int | 0 <= x < 256

  type Bytes = seq<byte>

  const TWO64: nat := 0x1_0000_0000_0000_0000

  const MAX_FIELD: nat := 0x1fff_ffff
  const MAX_INT32: nat := 0x7fff_ffff

  const VARINT: nat := 0
  const FIXED64: nat := 1
  const LEN: nat := 2
  const SGROUP: nat := 3
  const EGROUP: nat := 4
  const FIXED32: nat := 5

  // --- Varints ------------------------------------------------------------------

  function AppendVarint(v: nat): (b: Bytes)
    ensures b != []
  {
    if v < 128 then [v] else [v % 128 + 128] + AppendVarint(v / 128)
  }

  datatype Consumed<T> = Consumed(value: T, size: nat)

  /** At most ten bytes, seven bits each, the tenth at most 1; `place` is the byte's position. */
  function ConsumeVarintAt(b: Bytes, place: nat): (r: Option<Consumed<nat>>)
    requires place <= 9
    ensures r.Some? ==> 0 < r.value.size <= |b|
    decreases |b|
  {
    if b == [] then None
    else if place == 9 then (if b[0] < 2 then Some(Consumed(b[0], 1)) else None)
    else if b[0] < 128 then Some(Consumed(b[0], 1))
    else
      match ConsumeVarintAt(b[1..], place + 1)
      case None => None
      case Some(rest) => Some(Consumed(b[0] - 128 + 128 * rest.value, rest.size + 1))
  }

  function ConsumeVarint(b: Bytes): Option<Consumed<nat>> {
    ConsumeVarintAt(b, 0)
  }

  /** 2 to the power 7 (9 - place) times 2: what still fits from the given byte on. */
  function Room(place: nat): (r: nat)
    requires place <= 9
    ensures r >= 2
    decreases 9 - place
  {
    if place == 9 then 2 else 128 * Room(place + 1)
  }

  lemma {:induction false} VarintRoundTripAt(v: nat, rest: Bytes, place: nat)
    requires place <= 9 && v < Room(place)
    ensures ConsumeVarintAt(AppendVarint(v) + rest, place) == Some(Consumed(v, |AppendVarint(v)|))
    decreases v
  {
    var b := AppendVarint(v) + rest;
    if v >= 128 && place < 9 {
      assert b[1..] == AppendVarint(v / 128) + rest;
      VarintRoundTripAt(v / 128, rest, place + 1);
    }
  }

  /** Every 64-bit value survives the varint round trip, whatever follows it. */
  lemma VarintRoundTrip(v: nat, rest: Bytes)
    requires v < TWO64
    ensures ConsumeVarint(AppendVarint(v) + rest) == Some(Consumed(v, |AppendVarint(v)|))
  {
    RoomForAll();
    VarintRoundTripAt(v, rest, 0);
  }

  lemma {:induction false} VarintPrefixAt(b: Bytes, more: Bytes, place: nat)
    requires place <= 9 && ConsumeVarintAt(b, place).Some?
    ensures ConsumeVarintAt(b + more, place) == ConsumeVarintAt(b, place)
    decreases |b|
  {
    if place < 9 && b[0] >= 128 {
      assert (b + more)[1..] == b[1..] + more;
      VarintPrefixAt(b[1..], more, place + 1);
    }
  }

  // --- Tags and values -------------------------------------------------------------

  datatype Tag = Tag(num: nat, typ: nat)

  function AppendTag(num: nat, typ: nat): Bytes {
    AppendVarint(num * 8 + typ % 8)
  }

  function ConsumeTag(b: Bytes): (r: Option<Consumed<Tag>>)
    ensures r.Some? ==> 0 < r.value.size <= |b| && r.value.value.num >= 1
  {
    match ConsumeVarint(b)
    case None => None
    case Some(v) =>
      var num := v.value / 8;
      if num > MAX_INT32 || num < 1 then None else Some(Consumed(Tag(num, v.value % 8), v.size))
  }

  function AppendBytes(v: Bytes): Bytes {
    AppendVarint(|v|) + v
  }

  function ConsumeBytes(b: Bytes): (r: Option<Consumed<Bytes>>)
    ensures r.Some? ==> 0 < r.value.size <= |b|
  {
    match ConsumeVarint(b)
    case None => None
    case Some(m) =>
      if m.value > |b| - m.size then None
      else Some(Consumed(b[m.size..m.size + m.value], m.size + m.value))
  }

  /** A field's value: what the wire carries for it. */
  datatype Value = Varint(n: nat) | Fixed64(raw: Bytes) | Len(raw: Bytes) | Group(raw: Bytes) | Fixed32(raw: Bytes)

  /** How many levels of nested groups are followed. */
  const GROUP_LEVELS: nat := 10001

  function ConsumeValue(num: nat, typ: nat, b: Bytes, depth: nat): (r: Option<Consumed<Value>>)
    ensures r.Some? ==> r.value.size <= |b|
    decreases depth, |b|, 1
  {
    if typ == VARINT then
      match ConsumeVarint(b)
      case None => None
      case Some(v) => Some(Consumed(Varint(v.value), v.size))
    else if typ == FIXED64 then
      if |b| < 8 then None else Some(Consumed(Fixed64(b[..8]), 8))
    else if typ == LEN then
      match ConsumeBytes(b)
      case None => None
      case Some(v) => Some(Consumed(Len(v.value), v.size))
    else if typ == FIXED32 then
      if |b| < 4 then None else Some(Consumed(Fixed32(b[..4]), 4))
    else if typ == SGROUP && depth > 0 then
      match GroupSize(num, b, depth)
      case None => None
      case Some(n) => Some(Consumed(Group(b[..n]), n))
    else None
  }

  /** What a group's contents are made of: fields, and the end tag. */
  datatype Field = End(num: nat) | Plain(num: nat, value: Value)

  function ConsumeField(b: Bytes, depth: nat): (r: Option<Consumed<Field>>)
    ensures r.Some? ==> 0 < r.value.size <= |b|
    decreases depth, |b|, 0
  {
    match ConsumeTag(b)
    case None => None
    case Some(t) =>
      if t.value.typ == EGROUP then Some(Consumed(End(t.value.num), t.size))
      else
        match ConsumeValue(t.value.num, t.value.typ, b[t.size..], depth)
        case None => None
        case Some(v) => Some(Consumed(Plain(t.value.num, v.value), t.size + v.size))
  }

  /** The size of a group up to and including its matching end tag. */
  function GroupSize(num: nat, b: Bytes, depth: nat): (n: Option<nat>)
    requires depth > 0
    ensures n.Some? ==> n.value <= |b|
    decreases depth, |b|, 0
  {
    match ConsumeField(b, depth - 1)
    case None => None
    case Some(f) =>
      match f.value
      case End(end) => if end == num then Some(f.size) else None
      case Plain(_, _) =>
        match GroupSize(num, b[f.size..], depth)
        case None => None
        case Some(n) => Some(f.size + n)
  }

  lemma VarintPrefix(b: Bytes, more: Bytes)
    requires ConsumeVarint(b).Some?
    ensures ConsumeVarint(b + more) == ConsumeVarint(b)
  {
    VarintPrefixAt(b, more, 0);
  }

  lemma {:induction false} ValuePrefix(num: nat, typ: nat, b: Bytes, more: Bytes, depth: nat)
    requires ConsumeValue(num, typ, b, depth).Some?
    ensures ConsumeValue(num, typ, b + more, depth) == ConsumeValue(num, typ, b, depth)
    decreases depth, |b|, 1
  {
    if typ == VARINT {
      VarintPrefix(b, more);
    } else if typ == FIXED64 {
      assert (b + more)[..8] == b[..8];
    } else if typ == LEN {
      VarintPrefix(b, more);
      var m := ConsumeVarint(b).value;
      assert (b + more)[m.size..m.size + m.value] == b[m.size..m.size + m.value];
    } else if typ == FIXED32 {
      assert (b + more)[..4] == b[..4];
    } else {
      GroupPrefix(num, b, more, depth);
      var n := GroupSize(num, b, depth).value;
      assert (b + more)[..n] == b[..n];
    }
  }

  lemma {:induction false} GroupPrefix(num: nat, b: Bytes, more: Bytes, depth: nat)
    requires depth > 0 && GroupSize(num, b, depth).Some?
    ensures GroupSize(num, b + more, depth) == GroupSize(num, b, depth)
    decreases depth, |b|, 0
  {
    FieldPrefix(b, more, depth - 1);
    var f := ConsumeField(b, depth - 1).value;
    if f.value.Plain? {
      assert (b + more)[f.size..] == b[f.size..] + more;
      GroupPrefix(num, b[f.size..], more, depth);
    }
  }

  lemma {:induction false} FieldPrefix(b: Bytes, more: Bytes, depth: nat)
    requires ConsumeField(b, depth).Some?
    ensures ConsumeField(b + more, depth) == ConsumeField(b, depth)
    decreases depth, |b|, 0
  {
    VarintPrefix(b, more);
    var t := ConsumeTag(b).value;
    if t.value.typ != EGROUP {
      assert (b + more)[t.size..] == b[t.size..] + more;
      ValuePrefix(t.value.num, t.value.typ, b[t.size..], more, depth);
    }
  }

  // --- Messages ----------------------------------------------------------------------

  datatype Record = Record(num: nat, value: Value)

  /** One record from the front of the bytes; a stray end tag is not one. */
  function ConsumeRecord(b: Bytes): (r: Option<Consumed<Record>>)
    ensures r.Some? ==> 0 < r.value.size <= |b|
  {
    match ConsumeField(b, GROUP_LEVELS)
    case None => None
    case Some(f) =>
      match f.value
      case End(_) => None
      case Plain(num, value) => Some(Consumed(Record(num, value), f.size))
  }

  type Parser = Bytes -> Option<Consumed<Record>>

  /** Records one after the other, up to the end or the first malformed one. */
  function ParseAll(parse: Parser, b: Bytes): seq<Record>
    decreases |b|
  {
    match parse(b)
    case None => []
    case Some(r) => if 0 < r.size <= |b| then [r.value] + ParseAll(parse, b[r.size..]) else []
  }

  /** The whole of the bytes is records. */
  predicate ParsesWhole(parse: Parser, b: Bytes)
    decreases |b|
  {
    b == [] || (parse(b).Some? && 0 < parse(b).value.size <= |b| && ParsesWhole(parse, b[parse(b).value.size..]))
  }

  function Records(b: Bytes): seq<Record> {
    ParseAll(ConsumeRecord, b)
  }

  predicate WellFormed(b: Bytes) {
    ParsesWhole(ConsumeRecord, b)
  }

  lemma {:induction false} ParseAllOfAppend(parse: Parser, m: Bytes, more: Bytes)
    requires ParsesWhole(parse, m) && parse([]).None?
    requires forall x, y: Bytes :: parse(x).Some? ==> parse(x + y) == parse(x)
    ensures ParseAll(parse, m + more) == ParseAll(parse, m) + ParseAll(parse, more)
    ensures ParsesWhole(parse, m + more) <==> ParsesWhole(parse, more)
    decreases |m|
  {
    if m == [] {
      assert m + more == more;
    } else {
      var n := parse(m).value.size;
      assert parse(m + more) == parse(m);
      assert (m + more)[n..] == m[n..] + more;
      ParseAllOfAppend(parse, m[n..], more);
    }
  }

  /** Appending to a well-formed message appends to its records. */
  lemma RecordsOfAppend(m: Bytes, more: Bytes)
    requires WellFormed(m)
    ensures Records(m + more) == Records(m) + Records(more)
    ensures WellFormed(m + more) <==> WellFormed(more)
  {
    forall x, y: Bytes | ConsumeRecord(x).Some? ensures ConsumeRecord(x + y) == ConsumeRecord(x) {
      RecordPrefix(x, y);
    }
    ParseAllOfAppend(ConsumeRecord, m, more);
  }

  lemma RecordPrefix(b: Bytes, more: Bytes)
    requires ConsumeRecord(b).Some?
    ensures ConsumeRecord(b + more) == ConsumeRecord(b)
  {
    FieldPrefix(b, more, GROUP_LEVELS);
  }

  /** Bytes that are one record and nothing more. */
  lemma OneRecord(b: Bytes, r: Record)
    requires b != [] && ConsumeRecord(b) == Some(Consumed(r, |b|))
    ensures Records(b) == [r] && WellFormed(b)
  {
    assert ConsumeRecord([]).None?;
    ParseOne(ConsumeRecord, b, r);
  }

  lemma ParseOne(parse: Parser, b: Bytes, r: Record)
    requires b != [] && parse(b) == Some(Consumed(r, |b|)) && parse([]).None?
    ensures ParseAll(parse, b) == [r] && ParsesWhole(parse, b)
  {
    assert b[|b|..] == [];
  }

  // --- Fields -------------------------------------------------------------------------

  function AppendBytesField(b: Bytes, num: nat, v: Bytes): Bytes {
    b + AppendTag(num, LEN) + AppendBytes(v)
  }

  function AppendVarintField(b: Bytes, num: nat, v: nat): Bytes {
    b + AppendTag(num, VARINT) + AppendVarint(v)
  }

  predicate IsField(num: nat) {
    1 <= num <= MAX_FIELD
  }

  lemma TagRoundTrip(num: nat, typ: nat, rest: Bytes)
    requires IsField(num) && typ < 8
    ensures ConsumeTag(AppendTag(num, typ) + rest) == Some(Consumed(Tag(num, typ), |AppendTag(num, typ)|))
  {
    VarintRoundTrip(num * 8 + typ, rest);
  }

  /** A bytes field reads back as one record with the same payload. */
  lemma BytesFieldIsRecord(num: nat, v: Bytes)
    requires IsField(num) && |v| < TWO64
    ensures var f := AppendBytesField([], num, v);
            Records(f) == [Record(num, Len(v))] && WellFormed(f)
  {
    var f := AppendBytesField([], num, v);
    var tag, len := AppendTag(num, LEN), AppendVarint(|v|);
    assert f == tag + (len + v);
    TagRoundTrip(num, LEN, len + v);
    assert f[|tag|..] == len + v;
    VarintRoundTrip(|v|, v);
    assert (len + v)[|len|..|len| + |v|] == v;
    assert ConsumeBytes(len + v) == Some(Consumed(v, |len| + |v|));
    assert ConsumeValue(num, LEN, len + v, GROUP_LEVELS) == Some(Consumed(Len(v), |len| + |v|));
    assert ConsumeField(f, GROUP_LEVELS) == Some(Consumed(Plain(num, Len(v)), |f|));
    OneRecord(f, Record(num, Len(v)));
  }

  lemma VarintFieldIsRecord(num: nat, v: nat)
    requires IsField(num) && v < TWO64
    ensures var f := AppendVarintField([], num, v);
            Records(f) == [Record(num, Varint(v))] && WellFormed(f)
  {
    var f := AppendVarintField([], num, v);
    var tag, n := AppendTag(num, VARINT), AppendVarint(v);
    assert f == tag + n;
    TagRoundTrip(num, VARINT, n);
    assert f[|tag|..] == n;
    assert n + [] == n;
    VarintRoundTrip(v, []);
    assert ConsumeValue(num, VARINT, n, GROUP_LEVELS) == Some(Consumed(Varint(v), |n|));
    assert ConsumeField(f, GROUP_LEVELS) == Some(Consumed(Plain(num, Varint(v)), |f|));
    OneRecord(f, Record(num, Varint(v)));
  }

  /** Records of the fixed-width types: eight or four bytes, whatever they are. */
  lemma FixedFieldsAreRecords(num: nat, raw: Bytes)
    requires IsField(num)
    ensures |raw| == 8 ==>
              Records(AppendTag(num, 1) + raw) == [Record(num, Fixed64(raw))] && WellFormed(AppendTag(num, 1) + raw)
    ensures |raw| == 4 ==>
              Records(AppendTag(num, 5) + raw) == [Record(num, Fixed32(raw))] && WellFormed(AppendTag(num, 5) + raw)
  {
    if |raw| == 8 {
      assert raw[..8] == raw;
      FixedFieldIsRecord(num, 1, raw, Fixed64(raw));
    }
    if |raw| == 4 {
      assert raw[..4] == raw;
      FixedFieldIsRecord(num, 5, raw, Fixed32(raw));
    }
  }

  lemma FixedFieldIsRecord(num: nat, typ: nat, raw: Bytes, value: Value)
    requires IsField(num) && typ < 8 && typ != EGROUP
    requires ConsumeValue(num, typ, raw, GROUP_LEVELS) == Some(Consumed(value, |raw|))
    ensures Records(AppendTag(num, typ) + raw) == [Record(num, value)] && WellFormed(AppendTag(num, typ) + raw)
  {
    var tag := AppendTag(num, typ);
    var f := tag + raw;
    TagRoundTrip(num, typ, raw);
    assert f[|tag|..] == raw;
    assert ConsumeField(f, GROUP_LEVELS) == Some(Consumed(Plain(num, value), |f|));
    OneRecord(f, Record(num, value));
  }

  /** Too few bytes for its type make no record. */
  lemma CutFixedFieldIsNone(num: nat, raw: Bytes)
    requires IsField(num)
    ensures |raw| < 8 ==> Records(AppendTag(num, 1) + raw) == []
    ensures |raw| < 4 ==> Records(AppendTag(num, 5) + raw) == []
  {
    if |raw| < 8 {
      CutFieldIsNone(num, 1, raw);
    }
    if |raw| < 4 {
      CutFieldIsNone(num, 5, raw);
    }
  }

  lemma CutFieldIsNone(num: nat, typ: nat, raw: Bytes)
    requires IsField(num) && typ < 8 && typ != EGROUP && ConsumeValue(num, typ, raw, GROUP_LEVELS).None?
    ensures Records(AppendTag(num, typ) + raw) == []
  {
    var tag := AppendTag(num, typ);
    var f := tag + raw;
    TagRoundTrip(num, typ, raw);
    assert f[|tag|..] == raw;
    assert ConsumeField(f, GROUP_LEVELS).None?;
    assert ConsumeRecord(f).None?;
  }

  // --- Limits --------------------------------------------------------------------------------

  lemma {:induction false} VarintFitsAt(b: Bytes, place: nat)
    requires place <= 9 && ConsumeVarintAt(b, place).Some?
    ensures ConsumeVarintAt(b, place).value.value < Room(place)
    decreases |b|
  {
    if place < 9 {
      assert Room(place) == 128 * Room(place + 1);
      if b[0] >= 128 {
        VarintFitsAt(b[1..], place + 1);
      }
    }
  }

  /** Whatever the bytes, a varint that is read fits in 64 bits, and a tag in the field numbers of 31 bits
      and the eight wire types. */
  lemma ReadsFit(b: Bytes)
    ensures ConsumeVarint(b).Some? ==> ConsumeVarint(b).value.value < 0x1_0000_0000_0000_0000
    ensures ConsumeTag(b).Some? ==>
              1 <= ConsumeTag(b).value.value.num <= 0x7fff_ffff && ConsumeTag(b).value.value.typ < 8
  {
    if ConsumeVarint(b).Some? {
      VarintFitsAt(b, 0);
      RoomForAll();
    }
  }

  lemma RoomForAll()
    ensures Room(0) == TWO64
  {
    assert Room(9) == 2 && Room(8) == 256 && Room(7) == 0x8000 && Room(6) == 0x40_0000;
    assert Room(5) == 0x2000_0000 && Room(4) == 0x10_0000_0000 && Room(3) == 0x800_0000_0000;
    assert Room(2) == 0x4_0000_0000_0000 && Room(1) == 0x200_0000_0000_0000;
  }

  /** Fields one after the other, none of them an end tag. */
  predicate IsContents(m: Bytes, depth: nat)
    decreases |m|
  {
    m == []
    || (&& ConsumeField(m, depth).Some? && ConsumeField(m, depth).value.value.Plain?
        && IsContents(m[ConsumeField(m, depth).value.size..], depth))
  }

  lemma EndTagField(end: nat, depth: nat)
    requires IsField(end)
    ensures ConsumeField(AppendTag(end, 4), depth) == Some(Consumed(End(end), |AppendTag(end, 4)|))
  {
    TagRoundTrip(end, 4, []);
    assert AppendTag(end, 4) + [] == AppendTag(end, 4);
  }

  lemma GroupStep(num: nat, m: Bytes, tail: Bytes, f: Consumed<Field>, depth: nat)
    requires depth > 0 && ConsumeField(m, depth - 1) == Some(f) && 0 < f.size <= |m| && f.value.Plain?
    ensures GroupSize(num, m + tail, depth) ==
            match GroupSize(num, m[f.size..] + tail, depth)
            case None => None
            case Some(n) => Some(f.size + n)
  {
    FieldPrefix(m, tail, depth - 1);
    assert (m + tail)[f.size..] == m[f.size..] + tail;
  }

  lemma ContentsStep(m: Bytes, depth: nat) returns (f: Consumed<Field>)
    requires IsContents(m, depth) && m != []
    ensures ConsumeField(m, depth) == Some(f) && 0 < f.size <= |m| && f.value.Plain?
    ensures IsContents(m[f.size..], depth)
  {
    f := ConsumeField(m, depth).value;
  }

  lemma {:induction false} GroupAfterContents(num: nat, m: Bytes, tail: Bytes, depth: nat)
    requires depth > 0 && IsContents(m, depth - 1)
    ensures GroupSize(num, m + tail, depth) ==
            match GroupSize(num, tail, depth)
            case None => None
            case Some(n) => Some(|m| + n)
    decreases |m|
  {
    if m == [] {
      assert m + tail == tail;
    } else {
      var f := ContentsStep(m, depth - 1);
      GroupStep(num, m, tail, f, depth);
      GroupAfterContents(num, m[f.size..], tail, depth);
    }
  }

  /** A group reaches to the end tag after its contents, and is one only if that end tag has its own
      field number. */
  lemma GroupEndsAtItsTag(num: nat, m: Bytes, end: nat, depth: nat)
    requires depth > 0 && IsField(end) && IsContents(m, depth - 1)
    ensures GroupSize(num, m + AppendTag(end, 4), depth) ==
            if end == num then Some(|m| + |AppendTag(end, 4)|) else None
  {
    EndTagField(end, depth - 1);
    GroupAfterContents(num, m, AppendTag(end, 4), depth);
  }

  // --- The specification's own words ---------------------------------------------------------

  /** The number that the low seven bits of the bytes spell, least significant group first. */
  function Groups(b: Bytes): nat {
    if b == [] then 0 else b[0] % 128 + 128 * Groups(b[1..])
  }

  /** "Base 128 Varints": seven bits a byte, least significant first, the high bit on every byte but the
      last, and no needless byte. */
  lemma {:induction false} VarintIsBase128(v: nat)
    ensures var b := AppendVarint(v);
            && Groups(b) == v
            && (forall i :: 0 <= i < |b| - 1 ==> b[i] >= 128) && b[|b| - 1] < 128
            && (|b| > 1 ==> b[|b| - 1] != 0)
    decreases v
  {
    if v >= 128 {
      VarintIsBase128(v / 128);
      var rest := AppendVarint(v / 128);
      assert AppendVarint(v)[1..] == rest;
      assert forall i :: 0 < i < |AppendVarint(v)| ==> AppendVarint(v)[i] == rest[i - 1];
    }
  }

  /** The examples of the encoding's specification: 150 in field 1, and a string in field 2. */
  lemma SpecificationExamples()
    ensures AppendVarintField([], 1, 150) == [0x08, 0x96, 0x01]
    ensures AppendBytesField([], 2, [0x74, 0x65, 0x73, 0x74, 0x69, 0x6e, 0x67]) ==
            [0x12, 0x07, 0x74, 0x65, 0x73, 0x74, 0x69, 0x6e, 0x67]
  {
    assert AppendVarint(150) == [150] + AppendVarint(1);
    assert AppendTag(1, VARINT) == [8] && AppendTag(2, LEN) == [18] && AppendVarint(7) == [7];
  }

  lemma Reassociate(m: Bytes, a: Bytes, b: Bytes)
    ensures m + a + b == m + ([] + a + b)
  {
  }

  /** Appending a bytes field to a well-formed message adds exactly that record at its end. */
  lemma AppendedBytesField(m: Bytes, num: nat, v: Bytes)
    requires WellFormed(m) && IsField(num) && |v| < TWO64
    ensures WellFormed(AppendBytesField(m, num, v))
    ensures Records(AppendBytesField(m, num, v)) == Records(m) + [Record(num, Len(v))]
  {
    var f := AppendBytesField([], num, v);
    Reassociate(m, AppendTag(num, LEN), AppendBytes(v));
    BytesFieldIsRecord(num, v);
    RecordsOfAppend(m, f);
  }

  lemma AppendedVarintField(m: Bytes, num: nat, v: nat)
    requires WellFormed(m) && IsField(num) && v < TWO64
    ensures WellFormed(AppendVarintField(m, num, v))
    ensures Records(AppendVarintField(m, num, v)) == Records(m) + [Record(num, Varint(v))]
  {
    var f := AppendVarintField([], num, v);
    Reassociate(m, AppendTag(num, VARINT), AppendVarint(v));
    VarintFieldIsRecord(num, v);
    RecordsOfAppend(m, f);
  }

  // --- Last one wins --------------------------------------------------------------------

  /** The last length-delimited value of a field. */
  function LastBytes(rs: seq<Record>, want: nat): Option<Bytes> {
    if rs == [] then None
    else
      var r := rs[|rs| - 1];
      if r.num == want && r.value.Len? then Some(r.value.raw) else LastBytes(rs[..|rs| - 1], want)
  }

  /** The last varint value of a field. */
  function LastVarint(rs: seq<Record>, want: nat): Option<nat> {
    if rs == [] then None
    else
      var r := rs[|rs| - 1];
      if r.num == want && r.value.Varint? then Some(r.value.n) else LastVarint(rs[..|rs| - 1], want)
  }
}
