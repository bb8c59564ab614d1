/** The garage.toml ConfigMap (images/controller/internal/backend/garage/resources.go,
    garage.go): the text that pins a cluster's replication factor, the pattern that reads
    it back, and the pin itself. */
module GarageConfig {
  import opened Wrappers
  import opened Decimal

  // --- The cluster settings the factor depends on ---------------------------

  datatype Kind = System | Lightweight

  datatype Redundancy = RedundancyUnset | RedundancyNone | RedundancyStandard | RedundancyHigh

  datatype Cluster = Cluster(kind: Kind, redundancy: Redundancy, nodes: Option<int32>)

  function ReplicationFactor(c: Cluster): int32 {
    match c.redundancy
    case RedundancyNone => 1
    case RedundancyHigh => 5
    case _ => 3
  }

  predicate SystemSingleReplica(c: Cluster) {
    c.kind.System? && c.redundancy.RedundancyNone?
  }

  function SystemReplicas(c: Cluster): int32 {
    if SystemSingleReplica(c) then 1 else 3
  }

  function LightweightReplicas(c: Cluster): int32 {
    if c.nodes.Some? && c.nodes.value >= 1 then c.nodes.value else ReplicationFactor(c)
  }

  function DesiredReplicas(c: Cluster): int32 {
    if c.kind.System? then SystemReplicas(c) else LightweightReplicas(c)
  }

  /** The largest factor Garage accepts for `nodes` nodes without exceeding the intent. */
  function ClampRF(desired: int32, nodes: int32): (rf: int32)
    ensures 1 <= rf
    ensures desired >= 1 && nodes >= 1 ==> rf <= desired && rf <= nodes && (rf == desired || rf == nodes)
    ensures desired < 1 || nodes < 1 ==> rf == 1
  {
    var rf := if nodes < desired then nodes else desired;
    if rf < 1 then 1 else rf
  }

  function InitialReplicationFactor(c: Cluster): int32 {
    ClampRF(ReplicationFactor(c), DesiredReplicas(c))
  }

  // --- Rendering ------------------------------------------------------------

  const KEY := "replication_factor"

  /** The lines of garage.toml up to the factor, each without its line break. */
  const HEAD: seq<string> := [
    "metadata_dir = \"/var/lib/garage/meta\"",
    "data_dir = \"/var/lib/garage/data\"",
    "db_engine = \"lmdb\"",
    ""]

  /** The lines after the factor. */
  const TAIL: seq<string> := [
    "",
    "rpc_bind_addr = \"[::]:3901\"",
    "",
    "[s3_api]",
    "s3_region = \"garage\"",
    "api_bind_addr = \"[::]:3900\"",
    "root_domain = \".s3.garage\"",
    "",
    "[admin]",
    "api_bind_addr = \"[::]:3903\""]

  function JoinLines(lines: seq<string>, rest: string): string {
    if lines == [] then rest else lines[0] + "\n" + JoinLines(lines[1..], rest)
  }

  function RenderLines(head: seq<string>, rf: int32, tail: seq<string>): string {
    JoinLines(head, KEY + " = " + FormatInt(rf) + "\n" + JoinLines(tail, ""))
  }

  function RenderConfig(rf: int32): string {
    RenderLines(HEAD, rf, TAIL)
  }

  // --- Reading back: (?m)^replication_factor\s*=\s*(\d+) ---------------------

  predicate IsSpace(c: char) {
    c == '\t' || c == '\n' || c == '\U{0C}' || c == '\r' || c == ' '
  }

  /** The white space of the pattern, by its ASCII codes: tab, line feed, form feed, carriage return and
      space. */
  lemma SpaceIff(c: char)
    ensures IsSpace(c) <==> c as int in {9, 10, 12, 13, 32}
  {
  }

  predicate AllSpaces(s: string) {
    forall i :: 0 <= i < |s| ==> IsSpace(s[i])
  }

  /** The text after the longest run of white space. */
  function SkipSpaces(s: string): string {
    if s != [] && IsSpace(s[0]) then SkipSpaces(s[1..]) else s
  }

  /** The longest run of digits at the start of the text. */
  function TakeDigits(s: string): (d: string)
    ensures AllDigits(d)
  {
    if s != [] && IsDigit(s[0]) then [s[0]] + TakeDigits(s[1..]) else []
  }

  /** The pattern's group when the pattern, without its anchor, matches at the start of the text. */
  function MatchHere(s: string): Option<string> {
    if !(KEY <= s) then None
    else
      var t := SkipSpaces(s[|KEY|..]);
      if t == [] || t[0] != '=' then None
      else
        var d := TakeDigits(SkipSpaces(t[1..]));
        if d == [] then None else Some(d)
  }

  /** Leftmost match; `lineStart` says whether `^` holds at the start of `s`. */
  function FindFactor(s: string, lineStart: bool): (m: Option<string>)
    ensures m.Some? ==> AllDigits(m.value)
  {
    if lineStart && MatchHere(s).Some? then MatchHere(s)
    else if s == [] then None
    else FindFactor(s[1..], s[0] == '\n')
  }

  /** 0 stands for "absent or unparseable". */
  function FactorFromText(text: string): int32 {
    match FindFactor(text, true)
    case None => 0
    case Some(digits) =>
      var n := Value(digits);
      if n > MAX_INT64 || n < 1 then 0 else ToInt32(n)
  }

  lemma {:induction false} SkipSpacesOver(w: string, rest: string)
    requires AllSpaces(w) && (rest == [] || !IsSpace(rest[0]))
    ensures SkipSpaces(w + rest) == rest
  {
    if w == [] {
      assert w + rest == rest;
    } else {
      assert (w + rest)[1..] == w[1..] + rest;
      SkipSpacesOver(w[1..], rest);
    }
  }

  lemma {:induction false} TakeDigitsOver(d: string, rest: string)
    requires AllDigits(d) && (rest == [] || !IsDigit(rest[0]))
    ensures TakeDigits(d + rest) == d
  {
    if d == [] {
      assert d + rest == rest;
    } else {
      assert (d + rest)[1..] == d[1..] + rest;
      TakeDigitsOver(d[1..], rest);
    }
  }

  /** A text of the pattern's shape: key, white space, equals sign, white space, a whole run of
      digits, and whatever follows. */
  ghost predicate HasShape(s: string, w1: string, w2: string, d: string, rest: string) {
    && AllSpaces(w1) && AllSpaces(w2)
    && d != [] && AllDigits(d) && (rest == [] || !IsDigit(rest[0]))
    && s == KEY + w1 + "=" + w2 + d + rest
  }

  lemma MatchHereComplete(w1: string, w2: string, d: string, rest: string)
    requires HasShape(KEY + w1 + "=" + w2 + d + rest, w1, w2, d, rest)
    ensures MatchHere(KEY + w1 + "=" + w2 + d + rest) == Some(d)
  {
    var s := KEY + w1 + "=" + w2 + d + rest;
    assert s[|KEY|..] == w1 + ("=" + w2 + d + rest);
    SkipSpacesOver(w1, "=" + w2 + d + rest);
    assert ("=" + w2 + d + rest)[1..] == w2 + (d + rest);
    SkipSpacesOver(w2, d + rest);
    TakeDigitsOver(d, rest);
  }

  lemma {:induction false} SkippedSpaces(s: string) returns (w: string)
    ensures AllSpaces(w) && s == w + SkipSpaces(s)
  {
    if s != [] && IsSpace(s[0]) {
      var v := SkippedSpaces(s[1..]);
      w := [s[0]] + v;
      assert s == [s[0]] + s[1..];
    } else {
      w := "";
    }
  }

  lemma {:induction false} TakenDigits(s: string) returns (rest: string)
    ensures s == TakeDigits(s) + rest && (rest == [] || !IsDigit(rest[0]))
  {
    if s != [] && IsDigit(s[0]) {
      rest := TakenDigits(s[1..]);
      assert s == [s[0]] + s[1..];
    } else {
      rest := s;
    }
  }

  lemma MatchHereSound(s: string, d: string) returns (w1: string, w2: string, rest: string)
    requires MatchHere(s) == Some(d)
    ensures HasShape(s, w1, w2, d, rest)
  {
    var t := s[|KEY|..];
    w1 := SkippedSpaces(t);
    var u := SkipSpaces(t);
    w2 := SkippedSpaces(u[1..]);
    rest := TakenDigits(SkipSpaces(u[1..]));
    Reassembled(KEY, w1, w2, d, rest, s, t, u);
  }

  lemma Reassembled(key: string, w1: string, w2: string, d: string, rest: string, s: string, t: string, u: string)
    requires s == key + t && t == w1 + u && u != [] && u[0] == '=' && u[1..] == w2 + (d + rest)
    ensures s == key + w1 + "=" + w2 + d + rest
  {
    assert u == "=" + u[1..];
  }

  /** The matcher takes exactly the texts of the pattern's shape, whatever white space they use, and
      captures their whole digit run. */
  lemma MatchHereIff(s: string, d: string)
    ensures MatchHere(s) == Some(d) <==> exists w1, w2, rest :: HasShape(s, w1, w2, d, rest)
  {
    if MatchHere(s) == Some(d) {
      var w1, w2, rest := MatchHereSound(s, d);
    }
    if w1, w2, rest :| HasShape(s, w1, w2, d, rest) {
      MatchHereComplete(w1, w2, d, rest);
    }
  }

  predicate AtLineStart(s: string, i: nat, lineStart: bool)
    requires i <= |s|
  {
    if i == 0 then lineStart else s[i - 1] == '\n'
  }

  /** The pattern matches at position `i`, and at no earlier start of a line. */
  predicate MatchesFirstAt(s: string, lineStart: bool, i: nat, d: string)
    requires i <= |s|
  {
    && AtLineStart(s, i, lineStart) && MatchHere(s[i..]) == Some(d)
    && forall j :: 0 <= j < i && AtLineStart(s, j, lineStart) ==> MatchHere(s[j..]).None?
  }

  lemma LineStartShifts(s: string, lineStart: bool, j: nat)
    requires j < |s|
    ensures AtLineStart(s[1..], j, s[0] == '\n') == AtLineStart(s, j + 1, lineStart)
    ensures s[1..][j..] == s[j + 1..]
  {
  }

  lemma FirstMatchShifts(s: string, lineStart: bool, i: nat, d: string)
    requires i < |s| && !(lineStart && MatchHere(s).Some?)
    ensures MatchesFirstAt(s, lineStart, i + 1, d) <==> MatchesFirstAt(s[1..], s[0] == '\n', i, d)
  {
    var tail, newLine := s[1..], s[0] == '\n';
    assert s[0..] == s;
    LineStartShifts(s, lineStart, i);
    if MatchesFirstAt(tail, newLine, i, d) {
      forall j | 0 <= j < i + 1 && AtLineStart(s, j, lineStart) ensures MatchHere(s[j..]).None? {
        if j > 0 {
          LineStartShifts(s, lineStart, j - 1);
        }
      }
    }
    if MatchesFirstAt(s, lineStart, i + 1, d) {
      forall j | 0 <= j < i && AtLineStart(tail, j, newLine) ensures MatchHere(tail[j..]).None? {
        LineStartShifts(s, lineStart, j);
      }
    }
  }

  /** The search returns the leftmost match at the start of a line, and nothing else. */
  lemma {:induction false} FindFactorIff(s: string, lineStart: bool, d: string)
    ensures FindFactor(s, lineStart) == Some(d) <==> exists i: nat :: i <= |s| && MatchesFirstAt(s, lineStart, i, d)
  {
    assert s[0..] == s;
    if lineStart && MatchHere(s).Some? {
      assert MatchHere(s) == Some(d) ==> MatchesFirstAt(s, lineStart, 0, d);
    } else if s != [] {
      var tail, newLine := s[1..], s[0] == '\n';
      FindFactorIff(tail, newLine, d);
      if i: nat :| i <= |tail| && MatchesFirstAt(tail, newLine, i, d) {
        FirstMatchShifts(s, lineStart, i, d);
      }
      if i: nat :| i <= |s| && MatchesFirstAt(s, lineStart, i, d) {
        FirstMatchShifts(s, lineStart, i - 1, d);
      }
    }
  }

  lemma {:induction false} NoMatchInsideLine(line: string, rest: string)
    requires '\n' !in line
    ensures FindFactor(line + "\n" + rest, false) == FindFactor(rest, true)
  {
    var s := line + "\n" + rest;
    if line == [] {
      assert s[1..] == rest;
    } else {
      assert s[1..] == line[1..] + "\n" + rest;
      NoMatchInsideLine(line[1..], rest);
    }
  }

  lemma SkipLine(line: string, rest: string)
    requires '\n' !in line && (line == [] || line[0] != 'r')
    ensures FindFactor(line + "\n" + rest, true) == FindFactor(rest, true)
  {
    var s := line + "\n" + rest;
    assert s[0] != KEY[0];
    assert MatchHere(s).None?;
    if line == [] {
      assert s[1..] == rest;
    } else {
      assert s[1..] == line[1..] + "\n" + rest;
      NoMatchInsideLine(line[1..], rest);
    }
  }

  /** Lines among which the pattern cannot match. */
  predicate Inert(lines: seq<string>) {
    forall i :: 0 <= i < |lines| ==> '\n' !in lines[i] && (lines[i] == [] || lines[i][0] != 'r')
  }

  lemma {:induction false} SkipLines(lines: seq<string>, rest: string)
    requires Inert(lines)
    ensures FindFactor(JoinLines(lines, rest), true) == FindFactor(rest, true)
  {
    if lines != [] {
      SkipLine(lines[0], JoinLines(lines[1..], rest));
      SkipLines(lines[1..], rest);
    }
  }

  /** The factor's line, cut the way the pattern reads it. */
  lemma FactorLine(key: string, digits: string, tail: string)
    ensures key + " = " + digits + "\n" + tail == key + " " + "=" + " " + digits + ("\n" + tail)
  {
    assert " = " == " " + "=" + " ";
  }

  lemma FactorLineFound(digits: string, tail: string)
    requires digits != [] && AllDigits(digits)
    ensures FindFactor(KEY + " = " + digits + "\n" + tail, true) == Some(digits)
  {
    FactorLine(KEY, digits, tail);
    MatchHereComplete(" ", " ", digits, "\n" + tail);
  }

  lemma FactorOfDigits(text: string, rf: int32)
    requires rf >= 1 && FindFactor(text, true) == Some(Format(rf))
    ensures FactorFromText(text) == rf
  {
    ValueOfFormat(rf);
  }

  lemma FactorOfLines(head: seq<string>, rf: int32, tail: seq<string>)
    requires rf >= 1 && Inert(head)
    ensures FactorFromText(RenderLines(head, rf, tail)) == rf
  {
    FactorLineFound(Format(rf), JoinLines(tail, ""));
    SkipLines(head, KEY + " = " + FormatInt(rf) + "\n" + JoinLines(tail, ""));
    FactorOfDigits(RenderLines(head, rf, tail), rf);
  }

  lemma HeadIsInert()
    ensures Inert(HEAD)
  {
  }

  /** Reading the factor out of a rendered garage.toml returns the rendered factor, for
      every factor a 32-bit integer can hold. */
  lemma FactorRoundTrip(rf: int32)
    requires rf >= 1
    ensures FactorFromText(RenderConfig(rf)) == rf
  {
    HeadIsInert();
    FactorOfLines(HEAD, rf, TAIL);
  }

  // --- The ConfigMap and the pin --------------------------------------------

  const FIRST_INCARNATION: int32 := 1

  /** `incarnation` is empty when the ConfigMap lacks that key. */
  datatype ConfigMap = ConfigMap(toml: string, incarnation: string)

  function BuildConfigMap(kind: Kind, rf: int32, incarnation: int32): ConfigMap {
    ConfigMap(RenderConfig(rf), if kind.System? then FormatInt(incarnation) else "")
  }

  function IncarnationFromConfigMap(cm: ConfigMap): int32 {
    match Atoi(cm.incarnation)
    case None => FIRST_INCARNATION
    case Some(n) => if n < FIRST_INCARNATION then FIRST_INCARNATION else ToInt32(n)
  }

  datatype Pinned = Pinned(rf: int32, incarnation: int32, initialized: bool)

  datatype PinError = FactorUnreadable

  function PinnedState(cm: Option<ConfigMap>, c: Cluster): Result<Pinned, PinError> {
    match cm
    case None => Ok(Pinned(InitialReplicationFactor(c), FIRST_INCARNATION, false))
    case Some(m) =>
      var rf := FactorFromText(m.toml);
      if rf <= 0 then Err(FactorUnreadable)
      else Ok(Pinned(rf, IncarnationFromConfigMap(m), true))
  }

  lemma PinOf(m: ConfigMap, rf: int32, c: Cluster)
    requires rf >= 1 && FactorFromText(m.toml) == rf
    ensures PinnedState(Some(m), c) == Ok(Pinned(rf, IncarnationFromConfigMap(m), true))
  {
  }

  /** The incarnation key round-trips; a counter that has wrapped below 1 reads back as 1. */
  lemma IncarnationRoundTrip(toml: string, incarnation: int32)
    ensures IncarnationFromConfigMap(ConfigMap(toml, FormatInt(incarnation))) ==
            if incarnation >= 1 then incarnation else FIRST_INCARNATION
    ensures IncarnationFromConfigMap(ConfigMap(toml, "")) == FIRST_INCARNATION
  {
    AtoiOfFormatInt(incarnation);
  }

  /** A text with anything but digits in it is no incarnation, and reads as the first one. */
  lemma UnreadableIncarnation(toml: string, text: string, i: nat)
    requires 0 < i < |text| && !IsDigit(text[i])
    ensures IncarnationFromConfigMap(ConfigMap(toml, text)) == 1
  {
    assert text[1..][i - 1] == text[i];
  }

  /** What the text of a factor reads as: itself within 32 bits; nothing when it is zero or longer than 64
      bits can hold. */
  lemma FactorOfNumber(text: string, d: string)
    requires FindFactor(text, true) == Some(d)
    ensures AllDigits(d)
    ensures 1 <= Value(d) <= 0x7fff_ffff ==> FactorFromText(text) == Value(d)
    ensures Value(d) == 0 || Value(d) > 0x7fff_ffff_ffff_ffff ==> FactorFromText(text) == 0
  {
  }

  /** What a pass wrote is what the next pass pins, whatever the settings then are. */
  lemma PinRoundTrip(kind: Kind, rf: int32, incarnation: int32, c: Cluster)
    requires rf >= 1
    ensures PinnedState(Some(BuildConfigMap(kind, rf, incarnation)), c) ==
            Ok(Pinned(rf, if kind.System? && incarnation >= 1 then incarnation else FIRST_INCARNATION, true))
  {
    var toml := RenderConfig(rf);
    FactorRoundTrip(rf);
    IncarnationRoundTrip(toml, incarnation);
    PinOf(ConfigMap(toml, if kind.System? then FormatInt(incarnation) else ""), rf, c);
  }

  // --- Factor pinned for life (non-System clusters) --------------------------

  /** One reconcile of a non-System cluster under the settings of the moment; `writes` is
      false when the pass fails or crashes before the ConfigMap write. */
  datatype Pass = Pass(settings: Cluster, writes: bool)

  function AfterPass(cm: Option<ConfigMap>, p: Pass): Option<ConfigMap> {
    match PinnedState(cm, p.settings)
    case Err(_) => cm
    case Ok(pin) =>
      if p.writes then Some(BuildConfigMap(p.settings.kind, pin.rf, pin.incarnation)) else cm
  }

  function AfterPasses(cm: Option<ConfigMap>, run: seq<Pass>): Option<ConfigMap>
    decreases run
  {
    if run == [] then cm else AfterPasses(AfterPass(cm, run[0]), run[1..])
  }

  /** Once pinned, the factor survives every later settings edit: reading the ConfigMap
      after any run of passes gives the factor it held before the run. */
  lemma {:induction false} FactorSurvivesEdits(kind: Kind, rf: int32, run: seq<Pass>)
    requires rf >= 1 && kind.Lightweight?
    requires forall i :: 0 <= i < |run| ==> run[i].settings.kind == kind
    ensures AfterPasses(Some(BuildConfigMap(kind, rf, 1)), run) == Some(BuildConfigMap(kind, rf, 1))
  {
    if run != [] {
      PinRoundTrip(kind, rf, 1, run[0].settings);
      FactorSurvivesEdits(kind, rf, run[1..]);
    }
  }

  /** The initial factor fits the replicas of that moment. */
  lemma InitialFactorFits(c: Cluster)
    ensures 1 <= InitialReplicationFactor(c) <= DesiredReplicas(c)
  {
    assert 1 <= DesiredReplicas(c);
  }

  /** The initial factor, by kind, redundancy and node count. A System store has one replica without
      redundancy and three with it, and never a factor above that; elsewhere the factor is what the
      redundancy asks for, or the node count if that is smaller. */
  lemma InitialFactorIs(c: Cluster)
    ensures var wanted := if c.redundancy == RedundancyNone then 1 else if c.redundancy == RedundancyHigh then 5 else 3;
            var rf := InitialReplicationFactor(c);
            && (SystemSingleReplica(c) <==> c.kind == System && c.redundancy == RedundancyNone)
            && (c.kind == System ==>
                  && rf == (if c.redundancy == RedundancyNone then 1 else 3)
                  && DesiredReplicas(c) == rf)
            && (c.kind == Lightweight && c.nodes.Some? && c.nodes.value >= 1 ==>
                  && rf == (if c.nodes.value < wanted then c.nodes.value else wanted)
                  && DesiredReplicas(c) == c.nodes.value)
            && (c.kind == Lightweight && (c.nodes.None? || c.nodes.value < 1) ==>
                  rf == wanted && DesiredReplicas(c) == wanted)
  {
  }

  lemma FirstWriteDecides(kind: Kind, p: Pass)
    requires p.writes && p.settings.kind == kind
    ensures AfterPass(None, p) == Some(BuildConfigMap(kind, InitialReplicationFactor(p.settings), FIRST_INCARNATION))
  {
  }

  /** From an uninitialised cluster: the first pass that writes decides the factor, at
      least 1 and at most the replica count of that moment, and no run of edits after it
      changes what is read back. */
  lemma {:induction false} FactorPinnedForLife(run: seq<Pass>, first: nat)
    requires forall i :: 0 <= i < |run| ==> run[i].settings.kind.Lightweight?
    requires first < |run| && run[first].writes
    requires forall i :: 0 <= i < first ==> !run[i].writes
    ensures var cm := AfterPasses(None, run);
            cm.Some?
            && FactorFromText(cm.value.toml) == InitialReplicationFactor(run[first].settings)
            && 1 <= FactorFromText(cm.value.toml) <= DesiredReplicas(run[first].settings)
  {
    if first == 0 {
      FirstWriteDecides(Lightweight, run[0]);
      InitialFactorFits(run[0].settings);
      FactorSurvivesEdits(Lightweight, InitialReplicationFactor(run[0].settings), run[1..]);
      FactorRoundTrip(InitialReplicationFactor(run[0].settings));
    } else {
      FactorPinnedForLife(run[1..], first - 1);
    }
  }

  /** Fail closed: a ConfigMap without a readable factor is never overwritten by a recomputed one,
      by any run of passes under any settings. */
  lemma {:induction false} UnreadableFactorIsNeverReplaced(m: ConfigMap, run: seq<Pass>)
    requires FactorFromText(m.toml) <= 0
    ensures AfterPasses(Some(m), run) == Some(m)
  {
    if run != [] {
      UnreadableFactorIsNeverReplaced(m, run[1..]);
    }
  }
}
