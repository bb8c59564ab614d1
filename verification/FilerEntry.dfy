/** The hand-encoded SeaweedFS filer messages: the field scan and the quota rewrite
    (images/controller/internal/backend/seaweedfs/quota.go) and the identity files
    (images/controller/internal/backend/seaweedfs/iam.go).
    A field's payload is shorter than 2^64 bytes, as every Go slice is. */
module FilerEntry {
  import opened Wrappers
  import opened ProtoWire

  const FIELD_DIR_BUCKETS: nat := 5
  const FIELD_DIRECTORY: nat := 1
  const FIELD_NAME: nat := 2
  const FIELD_RESP_ENTRY: nat := 1
  const FIELD_REQ_ENTRY: nat := 2
  const FIELD_ENTRY_NAME: nat := 1
  const FIELD_ENTRY_ATTRIBUTES: nat := 4
  const FIELD_ENTRY_CONTENT: nat := 9
  const FIELD_ENTRY_QUOTA: nat := 11
  const FIELD_ATTR_FILE_SIZE: nat := 1
  const FIELD_ATTR_MTIME: nat := 2
  const FIELD_ATTR_FILE_MODE: nat := 3
  const FIELD_ATTR_CRTIME: nat := 6

  // --- The scan ----------------------------------------------------------------------

  /** The scan stops at a malformed record, with the records before it. */
  lemma ScanStop(before: seq<Record>, b: Bytes)
    requires b == [] || ConsumeTag(b).None?
             || ConsumeValue(ConsumeTag(b).value.value.num, ConsumeTag(b).value.value.typ,
                 b[ConsumeTag(b).value.size..], GROUP_LEVELS).None?
    ensures before + Records(b) == before
  {
    assert Records(b) == [];
  }

  lemma FieldOfParts(b: Bytes, t: Consumed<Tag>, v: Consumed<Value>, depth: nat)
    requires ConsumeTag(b) == Some(t) && ConsumeValue(t.value.num, t.value.typ, b[t.size..], depth) == Some(v)
    ensures ConsumeField(b, depth) == Some(Consumed(Plain(t.value.num, v.value), t.size + v.size))
  {
    assert t.value.typ != EGROUP;
  }

  /** One turn of the scan: the record at the front joins those already seen. */
  lemma ScanStep(before: seq<Record>, b: Bytes, t: Consumed<Tag>, v: Consumed<Value>)
    requires ConsumeTag(b) == Some(t) && ConsumeValue(t.value.num, t.value.typ, b[t.size..], GROUP_LEVELS) == Some(v)
    ensures before + Records(b) == (before + [Record(t.value.num, v.value)]) + Records(b[t.size..][v.size..])
  {
    var r := Record(t.value.num, v.value);
    FieldOfParts(b, t, v, GROUP_LEVELS);
    assert ConsumeRecord(b) == Some(Consumed(r, t.size + v.size));
    var rest := b[t.size + v.size..];
    assert b[t.size..][v.size..] == rest;
    assert Records(b) == [r] + Records(rest);
  }

  lemma LastBytesOfAppend(rs: seq<Record>, r: Record, want: nat)
    ensures LastBytes(rs + [r], want) == if r.num == want && r.value.Len? then Some(r.value.raw)
            else LastBytes(rs, want)
    ensures LastVarint(rs + [r], want) == if r.num == want && r.value.Varint? then Some(r.value.n)
            else LastVarint(rs, want)
  {
    assert (rs + [r])[..|rs|] == rs;
  }

  /** The scan ends on arbitrary bytes, and on all of them it returns the last length-delimited
      value of the field among the records before the first malformed one. */
  method LastBytesField(bytes: Bytes, want: nat) returns (result: Option<Bytes>)
    ensures result == LastBytes(Records(bytes), want)
  {
    var b := bytes;
    result := None;
    ghost var before: seq<Record> := [];
    while |b| > 0
      invariant Records(bytes) == before + Records(b)
      invariant result == LastBytes(before, want)
      decreases |b|
    {
      var tag := ConsumeTag(b);
      if tag.None? {
        ScanStop(before, b);
        return;
      }
      var num, typ := tag.value.value.num, tag.value.value.typ;
      var rest := b[tag.value.size..];
      if typ == LEN {
        var v := ConsumeBytes(rest);
        if v.None? {
          ScanStop(before, b);
          return;
        }
        ScanStep(before, b, tag.value, Consumed(Len(v.value.value), v.value.size));
        LastBytesOfAppend(before, Record(num, Len(v.value.value)), want);
        before := before + [Record(num, Len(v.value.value))];
        if num == want {
          result := Some(v.value.value);
        }
        b := rest[v.value.size..];
        continue;
      }
      var v := ConsumeValue(num, typ, rest, GROUP_LEVELS);
      if v.None? {
        ScanStop(before, b);
        return;
      }
      ScanStep(before, b, tag.value, v.value);
      LastBytesOfAppend(before, Record(num, v.value.value), want);
      before := before + [Record(num, v.value.value)];
      b := rest[v.value.size..];
    }
    ScanStop(before, b);
  }

  /** Scanning after an append returns the appended string, and leaves every other field's answer
      unchanged. */
  lemma ScanAfterAppend(m: Bytes, num: nat, v: Bytes, other: nat)
    requires WellFormed(m) && IsField(num) && |v| < TWO64 && other != num
    ensures LastBytes(Records(AppendBytesField(m, num, v)), num) == Some(v)
    ensures LastBytes(Records(AppendBytesField(m, num, v)), other) == LastBytes(Records(m), other)
    ensures LastVarint(Records(AppendBytesField(m, num, v)), other) == LastVarint(Records(m), other)
    ensures WellFormed(AppendBytesField(m, num, v))
  {
    AppendedBytesField(m, num, v);
    LastBytesOfAppend(Records(m), Record(num, Len(v)), num);
    LastBytesOfAppend(Records(m), Record(num, Len(v)), other);
  }

  // --- The quota -----------------------------------------------------------------------

  type int64 = x: int | -0x8000_0000_0000_0000 <= x < 0x8000_0000_0000_0000

  function ToUint64(q: int64): nat {
    if q < 0 then q + TWO64 else q
  }

  function ToInt64(u: nat): int64
    requires u < TWO64
  {
    if u < 0x8000_0000_0000_0000 then u else u - TWO64
  }

  function WithQuota(entry: Bytes, quota: int64): Bytes {
    AppendVarintField(entry, FIELD_ENTRY_QUOTA, ToUint64(quota))
  }

  function WithQuotas(entry: Bytes, quotas: seq<int64>): Bytes {
    if quotas == [] then entry else WithQuota(WithQuotas(entry, quotas[..|quotas| - 1]), quotas[|quotas| - 1])
  }

  /** The entry's records other than its quota, in order. */
  function Others(rs: seq<Record>): seq<Record> {
    if rs == [] then []
    else
      var r := rs[|rs| - 1];
      Others(rs[..|rs| - 1]) + if r.num == FIELD_ENTRY_QUOTA then [] else [r]
  }

  /** What a reader of the entry sees as its quota. */
  function QuotaOf(entry: Bytes): Option<int64> {
    match LastVarint(Records(entry), FIELD_ENTRY_QUOTA)
    case None => None
    case Some(u) => if u < TWO64 then Some(ToInt64(u)) else None
  }

  /** A rewrite keeps every other record of the entry, in order, and the entry then reads back
      exactly the 64-bit quota written, negative values included. */
  lemma QuotaRewrite(entry: Bytes, quota: int64)
    requires WellFormed(entry)
    ensures WellFormed(WithQuota(entry, quota)) && entry <= WithQuota(entry, quota)
    ensures Others(Records(WithQuota(entry, quota))) == Others(Records(entry))
    ensures QuotaOf(WithQuota(entry, quota)) == Some(quota)
    ensures Records(WithQuota(entry, quota)) ==
            Records(entry) + [Record(11, Varint(if quota >= 0 then quota else quota + 0x1_0000_0000_0000_0000))]
  {
    var u := ToUint64(quota);
    AppendedVarintField(entry, FIELD_ENTRY_QUOTA, u);
    var r := Record(FIELD_ENTRY_QUOTA, Varint(u));
    LastBytesOfAppend(Records(entry), r, FIELD_ENTRY_QUOTA);
    assert (Records(entry) + [r])[..|Records(entry)|] == Records(entry);
  }

  /** Any number of rewrites reads back the last one and keeps all else. */
  lemma {:induction false} QuotaRewritesReadBackLast(entry: Bytes, quotas: seq<int64>)
    requires WellFormed(entry)
    ensures WellFormed(WithQuotas(entry, quotas))
    ensures Others(Records(WithQuotas(entry, quotas))) == Others(Records(entry))
    ensures QuotaOf(WithQuotas(entry, quotas)) == if quotas == [] then QuotaOf(entry) else Some(quotas[|quotas| - 1])
  {
    if quotas != [] {
      var front := quotas[..|quotas| - 1];
      QuotaRewritesReadBackLast(entry, front);
      QuotaRewrite(WithQuotas(entry, front), quotas[|quotas| - 1]);
    }
  }

  // --- The filer --------------------------------------------------------------------------

  const DEFAULT_BUCKETS_DIR: Bytes := [47, 98, 117, 99, 107, 101, 116, 115] // "/buckets"

  function FieldOr(m: Bytes, field: nat): Bytes {
    match LastBytes(Records(m), field)
    case None => []
    case Some(v) => v
  }

  function Request(dir: Bytes, entry: Bytes): Bytes {
    AppendBytesField(AppendBytesField([], FIELD_DIRECTORY, dir), FIELD_REQ_ENTRY, entry)
  }

  /** Directory and entry of a create or update request decode to what was put in. */
  lemma RequestRoundTrip(dir: Bytes, entry: Bytes)
    requires |dir| < TWO64 && |entry| < TWO64
    ensures FieldOr(Request(dir, entry), FIELD_DIRECTORY) == dir
    ensures FieldOr(Request(dir, entry), FIELD_REQ_ENTRY) == entry
  {
    var m := AppendBytesField([], FIELD_DIRECTORY, dir);
    ScanAfterAppend([], FIELD_DIRECTORY, dir, FIELD_REQ_ENTRY);
    ScanAfterAppend(m, FIELD_REQ_ENTRY, entry, FIELD_DIRECTORY);
  }

  datatype Key = Key(dir: Bytes, name: Bytes)

  function Stored(entries: map<Key, Bytes>, request: Bytes): map<Key, Bytes> {
    var entry := FieldOr(request, FIELD_REQ_ENTRY);
    entries[Key(FieldOr(request, FIELD_DIRECTORY), FieldOr(entry, FIELD_ENTRY_NAME)) := entry]
  }

  /** The filer: entries by directory and name. It decodes a request by the protocol's own rule,
      last one wins, and files an entry under the name inside it. */
  class Filer {
    var entries: map<Key, Bytes>

    /** Whether a write takes effect and whether its success is reported are independent: an answer
        can be lost, and an accepted write can fail to persist. */
    method Store(request: Bytes, took: bool, answered: bool) returns (ok: bool)
      modifies this
      ensures ok == answered
      ensures entries == if took then Stored(old(entries), request) else old(entries)
    {
      if took {
        var entry := FieldOr(request, FIELD_REQ_ENTRY);
        entries := entries[Key(FieldOr(request, FIELD_DIRECTORY), FieldOr(entry, FIELD_ENTRY_NAME)) := entry];
      }
      return answered;
    }

    /** The lookup response holds the entry as its last field 1, after whatever else the server
        puts in front. */
    method Lookup(request: Bytes, front: Bytes) returns (response: Option<Bytes>)
      ensures var k := Key(FieldOr(request, FIELD_DIRECTORY), FieldOr(request, FIELD_NAME));
              response == if k in entries then Some(AppendBytesField(front, FIELD_RESP_ENTRY, entries[k])) else None
    {
      var k := Key(FieldOr(request, FIELD_DIRECTORY), FieldOr(request, FIELD_NAME));
      response := if k in entries then Some(AppendBytesField(front, FIELD_RESP_ENTRY, entries[k])) else None;
    }
  }

  /** `entries` files every entry under its own name, as well-formed messages. */
  ghost predicate FiledByName(entries: map<Key, Bytes>) {
    forall k :: k in entries ==>
      WellFormed(entries[k]) && |entries[k]| + 16 < TWO64 && |k.dir| < TWO64 && |k.name| < TWO64
          && FieldOr(entries[k], FIELD_ENTRY_NAME) == k.name
  }

  lemma QuotaFieldIsShort(entry: Bytes, quota: int64)
    ensures |WithQuota(entry, quota)| <= |entry| + 16
  {
    VarintSize(ToUint64(quota));
    assert |AppendTag(FIELD_ENTRY_QUOTA, VARINT)| == 1;
  }

  lemma VarintSize(v: nat)
    requires v < TWO64
    ensures |AppendVarint(v)| <= 10
  {
    VarintRoundTrip(v, []);
    assert AppendVarint(v) + [] == AppendVarint(v);
    VarintSizeAt(v, 0);
  }

  lemma {:induction false} VarintSizeAt(v: nat, place: nat)
    requires place <= 9 && ConsumeVarintAt(AppendVarint(v), place).Some?
    ensures place + |AppendVarint(v)| <= 10
    decreases v
  {
    if v >= 128 {
      assert AppendVarint(v)[1..] == AppendVarint(v / 128);
      VarintSizeAt(v / 128, place + 1);
    }
  }

  function BucketKey(config: Bytes, bucket: Bytes): Key {
    var reported := FieldOr(config, FIELD_DIR_BUCKETS);
    Key(if reported == [] then DEFAULT_BUCKETS_DIR else reported, bucket)
  }

  /** The bucket's directory is the one the filer reports, in its last field 5, or /buckets when it
      reports none. */
  lemma BucketKeyIs(config: Bytes, bucket: Bytes)
    ensures BucketKey(config, bucket).name == bucket
    ensures LastBytes(Records(config), 5).Some? && LastBytes(Records(config), 5).value != [] ==>
              BucketKey(config, bucket).dir == LastBytes(Records(config), 5).value
    ensures LastBytes(Records(config), 5) in {None, Some([])} ==>
              BucketKey(config, bucket).dir == ['/' as int, 'b' as int, 'u' as int, 'c' as int, 'k' as int, 'e' as int,
                                                't' as int, 's' as int]
  {
  }

  /** Setting a bucket's quota changes that bucket's entry by the quota alone and no other entry. An
      unknown bucket is reported, and so is a failure of any of the three calls: configuration (`None`
      is a failed call), lookup and update. */
  method SetBucketQuota(filer: Filer, config: Option<Bytes>, bucket: Bytes, quota: int64, front: Bytes,
                        lookupOk: bool, took: bool, answered: bool) returns (ok: bool)
    requires FiledByName(filer.entries) && WellFormed(front)
    requires config.Some? ==> |FieldOr(config.value, FIELD_DIR_BUCKETS)| < TWO64
    requires |bucket| < TWO64
    modifies filer
    ensures ok ==> config.Some? && lookupOk && answered && BucketKey(config.value, bucket) in old(filer.entries)
    ensures config.Some? && lookupOk && BucketKey(config.value, bucket) in old(filer.entries) ==>
              var k := BucketKey(config.value, bucket);
              && ok == answered
              && filer.entries == if took then old(filer.entries)[k := WithQuota(old(filer.entries)[k], quota)]
                                  else old(filer.entries)
    ensures config.None? || !lookupOk || BucketKey(config.value, bucket) !in old(filer.entries) ==>
              filer.entries == old(filer.entries)
  {
    if config.None? {
      return false;
    }
    var dirField := LastBytesField(config.value, FIELD_DIR_BUCKETS);
    var dirBuckets := if dirField.Some? then dirField.value else [];
    if dirBuckets == [] {
      dirBuckets := DEFAULT_BUCKETS_DIR;
    }
    var lookupReq := AppendBytesField([], FIELD_DIRECTORY, dirBuckets);
    lookupReq := AppendBytesField(lookupReq, FIELD_NAME, bucket);
    RequestRoundTrip(dirBuckets, bucket);
    if !lookupOk {
      return false;
    }
    var lookupResp := filer.Lookup(lookupReq, front);
    if lookupResp.None? {
      return false;
    }
    ghost var k := Key(dirBuckets, bucket);
    ScanAfterAppend(front, FIELD_RESP_ENTRY, filer.entries[k], FIELD_NAME);
    var found := LastBytesField(lookupResp.value, FIELD_RESP_ENTRY);
    if found.None? {
      return false;
    }
    var entry := AppendVarintField(found.value, FIELD_ENTRY_QUOTA, ToUint64(quota));
    QuotaFieldIsShort(found.value, quota);
    QuotaKeepsName(found.value, quota);
    var updReq := AppendBytesField([], FIELD_DIRECTORY, dirBuckets);
    updReq := AppendBytesField(updReq, FIELD_REQ_ENTRY, entry);
    RequestRoundTrip(dirBuckets, entry);
    ok := filer.Store(updReq, took, answered);
  }

  lemma QuotaKeepsName(entry: Bytes, quota: int64)
    requires WellFormed(entry)
    ensures FieldOr(WithQuota(entry, quota), FIELD_ENTRY_NAME) == FieldOr(entry, FIELD_ENTRY_NAME)
  {
    AppendedVarintField(entry, FIELD_ENTRY_QUOTA, ToUint64(quota));
    LastBytesOfAppend(Records(entry), Record(FIELD_ENTRY_QUOTA, Varint(ToUint64(quota))), FIELD_ENTRY_NAME);
  }

  // --- Identity files ------------------------------------------------------------------------

  /** An entry as writeIdentity builds it: name, nested attributes, inline content. */
  function IdentityAttributes(payload: Bytes, now: nat): Bytes {
    AppendVarintField(
      AppendVarintField(
        AppendVarintField(
          AppendVarintField([], FIELD_ATTR_FILE_SIZE, |payload|),
          FIELD_ATTR_MTIME, now),
        FIELD_ATTR_FILE_MODE, 420),
      FIELD_ATTR_CRTIME, now)
  }

  function IdentityEntry(name: Bytes, payload: Bytes, now: nat): Bytes {
    AppendBytesField(
      AppendBytesField(
        AppendBytesField([], FIELD_ENTRY_NAME, name),
        FIELD_ENTRY_ATTRIBUTES, IdentityAttributes(payload, now)),
      FIELD_ENTRY_CONTENT, payload)
  }

  lemma AttributesRoundTrip(payload: Bytes, now: nat)
    requires |payload| < TWO64 && now < TWO64
    ensures var rs := Records(IdentityAttributes(payload, now));
            rs == [Record(FIELD_ATTR_FILE_SIZE, Varint(|payload|)), Record(FIELD_ATTR_MTIME, Varint(now)),
                   Record(FIELD_ATTR_FILE_MODE, Varint(420)), Record(FIELD_ATTR_CRTIME, Varint(now))]
  {
    var a := AppendVarintField([], FIELD_ATTR_FILE_SIZE, |payload|);
    AppendedVarintField([], FIELD_ATTR_FILE_SIZE, |payload|);
    var b := AppendVarintField(a, FIELD_ATTR_MTIME, now);
    AppendedVarintField(a, FIELD_ATTR_MTIME, now);
    var c := AppendVarintField(b, FIELD_ATTR_FILE_MODE, 420);
    AppendedVarintField(b, FIELD_ATTR_FILE_MODE, 420);
    AppendedVarintField(c, FIELD_ATTR_CRTIME, now);
  }

  /** The nested request decodes back to the exact name, attributes and payload. */
  lemma IdentityRequestRoundTrip(dir: Bytes, name: Bytes, payload: Bytes, now: nat)
    requires |dir| < TWO64 && |name| < TWO64 && |payload| < TWO64 && now < TWO64
    requires |IdentityAttributes(payload, now)| < TWO64 && |IdentityEntry(name, payload, now)| < TWO64
    ensures var entry := FieldOr(Request(dir, IdentityEntry(name, payload, now)), FIELD_REQ_ENTRY);
            && FieldOr(Request(dir, entry), FIELD_DIRECTORY) == dir
            && FieldOr(entry, FIELD_ENTRY_NAME) == name
            && LastBytes(Records(entry), FIELD_ENTRY_CONTENT) == Some(payload)
            && LastVarint(Records(FieldOr(entry, FIELD_ENTRY_ATTRIBUTES)), FIELD_ATTR_FILE_SIZE) == Some(|payload|)
            && LastVarint(Records(FieldOr(entry, FIELD_ENTRY_ATTRIBUTES)), FIELD_ATTR_MTIME) == Some(now)
            && Records(FieldOr(entry, 4)) ==
               [Record(1, Varint(|payload|)), Record(2, Varint(now)), Record(3, Varint(0x1a4)), Record(6, Varint(now))]
  {
    var attrs := IdentityAttributes(payload, now);
    var e1 := AppendBytesField([], FIELD_ENTRY_NAME, name);
    var e2 := AppendBytesField(e1, FIELD_ENTRY_ATTRIBUTES, attrs);
    var e3 := AppendBytesField(e2, FIELD_ENTRY_CONTENT, payload);
    RequestRoundTrip(dir, e3);
    ScanAfterAppend([], FIELD_ENTRY_NAME, name, FIELD_ENTRY_CONTENT);
    ScanAfterAppend(e1, FIELD_ENTRY_ATTRIBUTES, attrs, FIELD_ENTRY_NAME);
    ScanAfterAppend(e2, FIELD_ENTRY_CONTENT, payload, FIELD_ENTRY_NAME);
    ScanAfterAppend(e2, FIELD_ENTRY_CONTENT, payload, FIELD_ENTRY_ATTRIBUTES);
    AttributesRoundTrip(payload, now);
    AttributesRead(payload, now);
  }

  lemma AttributesRead(payload: Bytes, now: nat)
    ensures var rs := [Record(FIELD_ATTR_FILE_SIZE, Varint(|payload|)), Record(FIELD_ATTR_MTIME, Varint(now)),
                       Record(FIELD_ATTR_FILE_MODE, Varint(420)), Record(FIELD_ATTR_CRTIME, Varint(now))];
            LastVarint(rs, FIELD_ATTR_FILE_SIZE) == Some(|payload|) && LastVarint(rs, FIELD_ATTR_MTIME) == Some(now)
  {
    var r1, r2 := Record(FIELD_ATTR_FILE_SIZE, Varint(|payload|)), Record(FIELD_ATTR_MTIME, Varint(now));
    var r3, r4 := Record(FIELD_ATTR_FILE_MODE, Varint(420)), Record(FIELD_ATTR_CRTIME, Varint(now));
    LastBytesOfAppend([r1, r2, r3], r4, FIELD_ATTR_FILE_SIZE);
    LastBytesOfAppend([r1, r2], r3, FIELD_ATTR_FILE_SIZE);
    LastBytesOfAppend([r1], r2, FIELD_ATTR_FILE_SIZE);
    LastBytesOfAppend([r1, r2, r3], r4, FIELD_ATTR_MTIME);
    LastBytesOfAppend([r1, r2], r3, FIELD_ATTR_MTIME);
    assert [r1] + [r2] == [r1, r2] && [r1, r2] + [r3] == [r1, r2, r3] && [r1, r2, r3] + [r4] == [r1, r2, r3, r4];
  }

  const IAM_IDENTITIES_DIR: Bytes :=
    [47, 101, 116, 99, 47, 105, 97, 109, 47, 105, 100, 101, 110, 116, 105, 116, 105, 101, 115] // "/etc/iam/identities"

  predicate IsSpaceByte(b: byte) {
    9 <= b <= 13 || b == 32
  }

  /** The inline content of an identity file, or None when there is nothing usable in it. */
  function ContentOf(entry: Option<Bytes>): Option<Bytes> {
    if entry.None? then None
    else
      match LastBytes(Records(entry.value), FIELD_ENTRY_CONTENT)
      case None => None
      case Some(data) => if forall i :: 0 <= i < |data| ==> IsSpaceByte(data[i]) then None else Some(data)
  }

  function Filed(entries: map<Key, Bytes>, k: Key): Option<Bytes> {
    if k in entries then Some(entries[k]) else None
  }

  datatype ReadError = CallFailed | NotAnIdentity

  method LookupIdentityEntry(filer: Filer, file: Bytes, front: Bytes, callOk: bool)
    returns (entry: Result<Option<Bytes>, ReadError>)
    requires FiledByName(filer.entries) && WellFormed(front) && |file| < TWO64
    ensures entry == if callOk then Ok(Filed(filer.entries, Key(IAM_IDENTITIES_DIR, file))) else Err(CallFailed)
  {
    var req := AppendBytesField([], FIELD_DIRECTORY, IAM_IDENTITIES_DIR);
    req := AppendBytesField(req, FIELD_NAME, file);
    RequestRoundTrip(IAM_IDENTITIES_DIR, file);
    if !callOk {
      return Err(CallFailed);
    }
    var resp := filer.Lookup(req, front);
    if resp.None? {
      return Ok(None);
    }
    ghost var k := Key(IAM_IDENTITIES_DIR, file);
    ScanAfterAppend(front, FIELD_RESP_ENTRY, filer.entries[k], FIELD_NAME);
    var found := LastBytesField(resp.value, FIELD_RESP_ENTRY);
    return Ok(found);
  }

  /** An identity is only ever absent when there is no entry, no content field, or nothing but white space
      in it; content that is no identity is an error, never absence. */
  lemma ReadAbsentIff<T>(decode: Bytes -> Option<T>, entry: Option<Bytes>)
    ensures ReadAs(decode, entry) == Ok(None) <==>
            || entry.None?
            || LastBytes(Records(entry.value), 9).None?
            || var data := LastBytes(Records(entry.value), 9).value;
               forall i :: 0 <= i < |data| ==> data[i] in {9, 10, 11, 12, 13, 32}
    ensures ReadAs(decode, entry).Err? <==>
            && entry.Some?
            && LastBytes(Records(entry.value), 9).Some?
            && var data := LastBytes(Records(entry.value), 9).value;
               (exists i :: 0 <= i < |data| && data[i] !in {9, 10, 11, 12, 13, 32}) && decode(data).None?
    ensures ReadAs(decode, entry).Ok? && ReadAs(decode, entry).value.Some? ==>
              && entry.Some? && LastBytes(Records(entry.value), 9).Some?
              && ReadAs(decode, entry).value == decode(LastBytes(Records(entry.value), 9).value)
  {
  }

  /** What an identity file reads as: absent when there is no usable content, an error when the content
      is no identity. `decode` is the strict JSON decoder. */
  function ReadAs<T>(decode: Bytes -> Option<T>, entry: Option<Bytes>): Result<Option<T>, ReadError> {
    match ContentOf(entry)
    case None => Ok(None)
    case Some(data) => if decode(data).None? then Err(NotAnIdentity) else Ok(decode(data))
  }

  method ReadIdentity<T>(filer: Filer, decode: Bytes -> Option<T>, file: Bytes, front: Bytes, callOk: bool)
    returns (id: Result<Option<T>, ReadError>)
    requires FiledByName(filer.entries) && WellFormed(front) && |file| < TWO64
    ensures id == if callOk then ReadAs(decode, Filed(filer.entries, Key(IAM_IDENTITIES_DIR, file)))
                  else Err(CallFailed)
  {
    var entry := LookupIdentityEntry(filer, file, front, callOk);
    if entry.Err? {
      return Err(entry.error);
    }
    if entry.value.None? {
      return Ok(None);
    }
    var content := LastBytesField(entry.value.value, FIELD_ENTRY_CONTENT);
    var data := if content.Some? then content.value else [];
    var blank := IsBlank(data);
    if blank {
      return Ok(None);
    }
    var decoded := decode(data);
    if decoded.None? {
      return Err(NotAnIdentity);
    }
    return Ok(decoded);
  }

  /** `len(bytes.TrimSpace(data)) == 0`. */
  method IsBlank(data: Bytes) returns (blank: bool)
    ensures blank <==> forall i :: 0 <= i < |data| ==> IsSpaceByte(data[i])
  {
    for i := 0 to |data|
      invariant forall j :: 0 <= j < i ==> IsSpaceByte(data[j])
    {
      if !IsSpaceByte(data[i]) {
        return false;
      }
    }
    return true;
  }

  /** Writing an identity file touches that file alone, and success is claimed only for an identity that
      reads back as the one written, whether or not the filer's answer is to be believed; a write that
      took effect and whose calls all succeed is not reported as lost. */
  method WriteIdentity<T(==)>(filer: Filer, decode: Bytes -> Option<T>, id: T, file: Bytes, payload: Bytes, now: nat,
                              front: Bytes, lookupOk: bool, took: bool, answered: bool, readOk: bool)
    returns (ok: bool)
    requires FiledByName(filer.entries) && WellFormed(front) && |file| < TWO64 && now < TWO64
    requires payload != [] && payload[0] == 123 && decode(payload) == Some(id)
    requires |IdentityEntry(file, payload, now)| + 16 < TWO64
    modifies filer
    ensures FiledByName(filer.entries)
    ensures var k := Key(IAM_IDENTITIES_DIR, file);
            && filer.entries == (if lookupOk && took then old(filer.entries)[k := IdentityEntry(file, payload, now)]
                                 else old(filer.entries))
            && (ok <==> && lookupOk && answered && readOk
                        && ReadAs(decode, Filed(filer.entries, k)) == Ok(Some(id)))
    ensures lookupOk && took && answered && readOk ==> ok
  {
    var entry := IdentityEntry(file, payload, now);
    IdentityEntryParts(file, payload, now);
    IdentityRequestRoundTrip(IAM_IDENTITIES_DIR, file, payload, now);
    RequestRoundTrip(IAM_IDENTITIES_DIR, entry);
    var req := Request(IAM_IDENTITIES_DIR, entry);
    var existing := LookupIdentityEntry(filer, file, front, lookupOk);
    if existing.Err? {
      return false;
    }
    // A create and an update carry the same request.
    var accepted := filer.Store(req, took, answered);
    if !accepted {
      return false;
    }
    var written := ReadIdentity(filer, decode, file, front, readOk);
    assert !IsSpaceByte(payload[0]);
    return written == Ok(Some(id));
  }

  lemma IdentityEntryParts(name: Bytes, payload: Bytes, now: nat)
    requires |name| < TWO64 && |IdentityEntry(name, payload, now)| < TWO64 && now < TWO64
    ensures |payload| < TWO64 && |IdentityAttributes(payload, now)| < TWO64
    ensures WellFormed(IdentityEntry(name, payload, now))
  {
    var attrs := IdentityAttributes(payload, now);
    var e1 := AppendBytesField([], FIELD_ENTRY_NAME, name);
    var e2 := AppendBytesField(e1, FIELD_ENTRY_ATTRIBUTES, attrs);
    AppendedBytesField([], FIELD_ENTRY_NAME, name);
    AppendedBytesField(e1, FIELD_ENTRY_ATTRIBUTES, attrs);
    AppendedBytesField(e2, FIELD_ENTRY_CONTENT, payload);
  }
}
