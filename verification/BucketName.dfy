/** Greenfield bucket names (images/controller/internal/controller/bucket_claim_controller.go). The SHA-256 digest is a
    parameter: any function into ten hexadecimal characters. */
module BucketName {
  import Digest
  import opened GoStrings

  const PREFIX := "claim-"

  predicate IsAlnum(c: char) {
    'a' <= c <= 'z' || '0' <= c <= '9'
  }

  predicate IsLabelChar(c: char) {
    IsAlnum(c) || c == '-'
  }

  /** The letters, in lower case, and digits of section 2.1 of RFC 1123, by their ASCII codes. */
  predicate IsLetterOrDigit(c: char) {
    97 <= c as int <= 122 || 48 <= c as int <= 57
  }

  /** A label under that section: 1 to 63 letters, digits and hyphens, no hyphen at either end. */
  predicate IsLabel(s: string) {
    && 1 <= |s| <= 63
    && IsLetterOrDigit(s[0]) && IsLetterOrDigit(s[|s| - 1])
    && forall i :: 0 <= i < |s| ==> IsLetterOrDigit(s[i]) || s[i] == '-'
  }

  /** The sanitiser keeps exactly these characters. */
  lemma KeptIff(c: char)
    ensures IsAlnum(c) <==> IsLetterOrDigit(c)
  {
  }

  predicate AllLabelChars(s: string) {
    forall i :: 0 <= i < |s| ==> IsLabelChar(s[i])
  }

  predicate NoDoubleDash(s: string) {
    forall i :: 0 <= i < |s| - 1 ==> !(s[i] == '-' && s[i + 1] == '-')
  }

  // --- strings.Trim(s, "-") ----------------------------------------------------------

  function TrimLeft(s: string): string {
    if s != [] && s[0] == '-' then TrimLeft(s[1..]) else s
  }

  function TrimRight(s: string): string {
    if s != [] && s[|s| - 1] == '-' then TrimRight(s[..|s| - 1]) else s
  }

  function Trim(s: string): string {
    TrimRight(TrimLeft(s))
  }

  lemma {:induction false} TrimLeftIs(s: string)
    ensures exists k :: 0 <= k <= |s| && TrimLeft(s) == s[k..]
    ensures TrimLeft(s) == [] || TrimLeft(s)[0] != '-'
    ensures s == [] || s[0] != '-' ==> TrimLeft(s) == s
  {
    if s != [] && s[0] == '-' {
      TrimLeftIs(s[1..]);
      var k :| 0 <= k <= |s[1..]| && TrimLeft(s[1..]) == s[1..][k..];
      assert s[1..][k..] == s[k + 1..];
    } else {
      assert s == s[0..];
    }
  }

  lemma {:induction false} TrimRightIs(s: string)
    ensures TrimRight(s) <= s
    ensures TrimRight(s) == [] || TrimRight(s)[|TrimRight(s)| - 1] != '-'
    ensures s == [] || s[|s| - 1] != '-' ==> TrimRight(s) == s
  {
    if s != [] && s[|s| - 1] == '-' {
      TrimRightIs(s[..|s| - 1]);
    }
  }

  lemma {:induction false} TrimRightKeeps(s: string, n: nat)
    requires n < |s| && s[n] != '-'
    ensures n < |TrimRight(s)|
  {
    if s[|s| - 1] == '-' {
      TrimRightKeeps(s[..|s| - 1], n);
    }
  }

  /** Trimming takes a run out of the middle that starts and ends with no dash. */
  lemma TrimIs(s: string)
    ensures exists j, k :: 0 <= j <= k <= |s| && Trim(s) == s[j..k]
    ensures Trim(s) == [] || (Trim(s)[0] != '-' && Trim(s)[|Trim(s)| - 1] != '-')
    ensures s == [] || (s[0] != '-' && s[|s| - 1] != '-') ==> Trim(s) == s
  {
    TrimLeftIs(s);
    var l := TrimLeft(s);
    TrimRightIs(l);
    var j :| 0 <= j <= |s| && l == s[j..];
    PrefixOfSuffix(s, j, Trim(s));
  }

  lemma PrefixOfSuffix(s: string, j: nat, t: string)
    requires j <= |s| && t <= s[j..]
    ensures j + |t| <= |s| && t == s[j..j + |t|]
  {
  }

  // --- The sanitiser -------------------------------------------------------------------

  /** The loop's state: what is written, and whether it ends in a dash written for a run. */
  function Squeeze(s: string): string {
    if s == [] then []
    else
      var front, r := Squeeze(s[..|s| - 1]), s[|s| - 1];
      if IsAlnum(r) then front + [r]
      else if front != [] && front[|front| - 1] == '-' then front
      else front + ['-']
  }

  function Sanitize(lower: char -> char, s: string): string {
    Trim(Squeeze(Lowered(lower, s)))
  }

  function Lowered(lower: char -> char, s: string): string {
    seq(|s|, i requires 0 <= i < |s| => lower(s[i]))
  }

  /** `lower` is Go's mapping of single characters to lower case, whatever it is. */
  method SanitizeDNSLabel(lower: char -> char, s: GoString) returns (result: string)
    ensures result == Sanitize(lower, Runes(s))
  {
    var text := Lowered(lower, Runes(s));
    var b := "";
    var prevDash := false;
    for i := 0 to |text|
      invariant b == Squeeze(text[..i])
      invariant prevDash <==> b != [] && b[|b| - 1] == '-'
    {
      var r := text[i];
      assert text[..i + 1][..i] == text[..i];
      if IsAlnum(r) {
        b := b + [r];
        prevDash := false;
        continue;
      }
      if !prevDash {
        b := b + ['-'];
        prevDash := true;
      }
    }
    assert text[..|text|] == text;
    result := Trim(b);
  }

  lemma {:induction false} SqueezeIs(s: string)
    ensures AllLabelChars(Squeeze(s)) && NoDoubleDash(Squeeze(s)) && |Squeeze(s)| <= |s|
  {
    if s != [] {
      SqueezeIs(s[..|s| - 1]);
    }
  }

  lemma {:induction false} SqueezeFixes(s: string)
    requires AllLabelChars(s) && NoDoubleDash(s)
    ensures Squeeze(s) == s
  {
    if s != [] {
      SqueezeFixes(s[..|s| - 1]);
    }
  }

  /** The sanitiser's result has label characters only, no dash at either end and no two in a row,
      and sanitising it again changes nothing: for any character mapping that leaves lower-case
      letters, digits and dashes alone. */
  lemma SanitizedIsClean(lower: char -> char, s: string)
    ensures AllLabelChars(Sanitize(lower, s)) && NoDoubleDash(Sanitize(lower, s))
    ensures Sanitize(lower, s) == []
            || (IsAlnum(Sanitize(lower, s)[0]) && IsAlnum(Sanitize(lower, s)[|Sanitize(lower, s)| - 1]))
    ensures (forall c :: IsLabelChar(c) ==> lower(c) == c) ==>
              Sanitize(lower, Sanitize(lower, s)) == Sanitize(lower, s)
  {
    var q := Squeeze(Lowered(lower, s));
    SqueezeIs(Lowered(lower, s));
    TrimKeepsClean(q);
    if forall c :: IsLabelChar(c) ==> lower(c) == c {
      CleanIsFixed(lower, Trim(q));
    }
  }

  lemma TrimKeepsClean(q: string)
    requires AllLabelChars(q) && NoDoubleDash(q)
    ensures var t := Trim(q);
            AllLabelChars(t) && NoDoubleDash(t) && (t == [] || (IsAlnum(t[0]) && IsAlnum(t[|t| - 1])))
  {
    TrimIs(q);
    var t := Trim(q);
    var j, k :| 0 <= j <= k <= |q| && t == q[j..k];
    assert forall i :: 0 <= i < |t| ==> t[i] == q[j + i];
  }

  lemma CleanIsFixed(lower: char -> char, t: string)
    requires AllLabelChars(t) && NoDoubleDash(t) && (t == [] || (IsAlnum(t[0]) && IsAlnum(t[|t| - 1])))
    requires forall c :: IsLabelChar(c) ==> lower(c) == c
    ensures Sanitize(lower, t) == t
  {
    assert Lowered(lower, t) == t;
    SqueezeFixes(t);
    TrimIs(t);
  }

  // --- What the sanitiser keeps --------------------------------------------------------

  /** The maximal runs of letters and digits, in order. */
  function Words(s: string): seq<string> {
    if s == [] then []
    else
      var front, r := s[..|s| - 1], s[|s| - 1];
      var ws := Words(front);
      if !IsAlnum(r) then ws
      else if front != [] && IsAlnum(front[|front| - 1]) && ws != [] then ws[..|ws| - 1] + [ws[|ws| - 1] + [r]]
      else ws + [[r]]
  }

  function Join(ws: seq<string>): string {
    if ws == [] then []
    else if |ws| == 1 then ws[0]
    else Join(ws[..|ws| - 1]) + "-" + ws[|ws| - 1]
  }

  function LeadingDash(s: string): string {
    if s != [] && !IsAlnum(s[0]) then "-" else ""
  }

  function TrailingDash(s: string): string {
    if s != [] && !IsAlnum(s[|s| - 1]) && Words(s) != [] then "-" else ""
  }

  lemma {:induction false} WordsAre(s: string)
    ensures forall i :: 0 <= i < |Words(s)| ==>
            Words(s)[i] != [] && forall j :: 0 <= j < |Words(s)[i]| ==> IsAlnum(Words(s)[i][j])
    ensures s != [] && IsAlnum(s[|s| - 1]) ==> Words(s) != []
    ensures Words(s) == [] ==> forall i :: 0 <= i < |s| ==> !IsAlnum(s[i])
  {
    if s != [] {
      WordsAre(s[..|s| - 1]);
    }
  }

  lemma JoinOfAppend(ws: seq<string>, w: string)
    ensures Join(ws + [w]) == if ws == [] then w else Join(ws) + "-" + w
  {
    assert (ws + [w])[..|ws|] == ws;
  }

  lemma JoinOfLonger(front: seq<string>, w: string, c: char)
    ensures Join(front + [w + [c]]) == Join(front + [w]) + [c]
  {
    JoinOfAppend(front, w + [c]);
    JoinOfAppend(front, w);
  }

  lemma WordsOfAppend(front: string, r: char)
    ensures Words(front + [r]) ==
            var ws := Words(front);
            if !IsAlnum(r) then ws
            else if front != [] && IsAlnum(front[|front| - 1]) && ws != [] then ws[..|ws| - 1] + [ws[|ws| - 1] + [r]]
            else ws + [[r]]
  {
    assert (front + [r])[..|front|] == front;
  }

  lemma SqueezeOfAppend(front: string, r: char)
    ensures Squeeze(front + [r]) ==
            if IsAlnum(r) then Squeeze(front) + [r]
            else if Squeeze(front) != [] && Squeeze(front)[|Squeeze(front)| - 1] == '-' then Squeeze(front)
            else Squeeze(front) + ['-']
  {
    assert (front + [r])[..|front|] == front;
  }

  lemma JoinGrows(ws: seq<string>, r: char, continues: bool)
    ensures Join(if continues && ws != [] then ws[..|ws| - 1] + [ws[|ws| - 1] + [r]] else ws + [[r]]) ==
            if ws == [] then [r] else if continues then Join(ws) + [r] else Join(ws) + "-" + [r]
  {
    if continues && ws != [] {
      var init, w := ws[..|ws| - 1], ws[|ws| - 1];
      JoinOfLonger(init, w, r);
      assert ws == init + [w];
    } else {
      JoinOfAppend(ws, [r]);
    }
  }

  lemma WordGrows(front: string, r: char)
    requires IsAlnum(r)
    ensures Join(Words(front + [r])) == Join(Words(front)) + TrailingDash(front) + [r]
  {
    var ws, continues := Words(front), front != [] && IsAlnum(front[|front| - 1]);
    WordsOfAppend(front, r);
    JoinGrows(ws, r, continues);
    assert TrailingDash(front) == (if ws == [] || continues then "" else "-") by {
      WordsAre(front);
    }
    if ws == [] {
      assert Join(ws) + "" + [r] == [r];
    } else if continues {
      assert Join(ws) + "" == Join(ws);
    }
  }

  /** Before trimming: the words joined by single dashes, with a dash for a run at either end. */
  lemma {:induction false} SqueezeIsJoin(s: string)
    ensures Squeeze(s) == LeadingDash(s) + (Join(Words(s)) + TrailingDash(s))
    ensures s != [] ==> Squeeze(s) != [] && (Squeeze(s)[|Squeeze(s)| - 1] == '-' <==> !IsAlnum(s[|s| - 1]))
  {
    if s != [] {
      var front, r := s[..|s| - 1], s[|s| - 1];
      assert s == front + [r];
      SqueezeIsJoin(front);
      SqueezeOfAppend(front, r);
      if IsAlnum(r) {
        SqueezeGrows(front, r);
      } else {
        SqueezeDashes(front, r);
      }
    }
  }

  lemma SqueezeGrows(front: string, r: char)
    requires IsAlnum(r)
    requires Squeeze(front) == LeadingDash(front) + (Join(Words(front)) + TrailingDash(front))
    ensures Squeeze(front + [r]) == LeadingDash(front + [r]) + (Join(Words(front + [r])) + TrailingDash(front + [r]))
  {
    var s := front + [r];
    SqueezeOfAppend(front, r);
    WordGrows(front, r);
    WordsAre(front);
    Reassociate(LeadingDash(front), Join(Words(front)), TrailingDash(front), [r]);
    assert s[|s| - 1] == r && TrailingDash(s) == "";
    assert front != [] ==> s[0] == front[0];
    assert LeadingDash(s) == LeadingDash(front);
  }

  lemma Reassociate(a: string, b: string, c: string, d: string)
    ensures a + (b + c) + d == a + ((b + c + d) + "")
  {
  }

  lemma SqueezeDashes(front: string, r: char)
    requires !IsAlnum(r)
    requires Squeeze(front) == LeadingDash(front) + (Join(Words(front)) + TrailingDash(front))
    requires front != [] ==>
               && Squeeze(front) != []
               && (Squeeze(front)[|Squeeze(front)| - 1] == '-' <==> !IsAlnum(front[|front| - 1]))
    ensures Squeeze(front + [r]) == LeadingDash(front + [r]) + (Join(Words(front + [r])) + TrailingDash(front + [r]))
  {
    var s := front + [r];
    assert s[..|s| - 1] == front;
    assert Words(s) == Words(front);
    WordsAre(front);
    if front != [] {
      assert s[0] == front[0];
      if IsAlnum(front[|front| - 1]) {
        assert TrailingDash(front) == "" && TrailingDash(s) == "-";
      } else {
        assert Squeeze(s) == Squeeze(front) && TrailingDash(s) == TrailingDash(front);
      }
    }
  }

  lemma {:induction false} JoinEnds(ws: seq<string>)
    requires forall i :: 0 <= i < |ws| ==> ws[i] != [] && forall j :: 0 <= j < |ws[i]| ==> IsAlnum(ws[i][j])
    ensures Join(ws) == [] <==> ws == []
    ensures ws != [] ==> IsAlnum(Join(ws)[0]) && IsAlnum(Join(ws)[|Join(ws)| - 1])
  {
    if |ws| > 1 {
      JoinEnds(ws[..|ws| - 1]);
    }
  }

  /** The sanitiser keeps every run of letters and digits of the lowered text, in order, joined by
      single dashes, and nothing else. */
  lemma SanitizedIsWordsJoined(lower: char -> char, s: string)
    ensures Sanitize(lower, s) == Join(Words(Lowered(lower, s)))
  {
    var t := Lowered(lower, s);
    var j := Join(Words(t));
    SqueezeIsJoin(t);
    WordsAre(t);
    JoinEnds(Words(t));
    if j == [] {
      assert Squeeze(t) == LeadingDash(t);
      assert "-"[1..] == "";
    } else {
      TrimBoth(LeadingDash(t), j, TrailingDash(t));
      assert LeadingDash(t) + j + TrailingDash(t) == Squeeze(t);
    }
  }

  lemma TrimBoth(a: string, j: string, b: string)
    requires (a == "" || a == "-") && (b == "" || b == "-")
    requires j != [] && j[0] != '-' && j[|j| - 1] != '-'
    ensures Trim(a + j + b) == j
  {
    var l := j + b;
    assert a + j + b == a + l;
    assert TrimLeft(l) == l;
    assert a == "-" ==> (a + l)[1..] == l;
    assert a == "" ==> a + l == l;
    assert TrimLeft(a + l) == l;
    assert b == "-" ==> l[..|l| - 1] == j;
    assert b == "" ==> l == j;
    assert TrimRight(j) == j;
  }

  // --- The bucket name -------------------------------------------------------------------

  function FullName(stem: string, base: string): string {
    if base != [] then stem + "-" + base else stem
  }

  function GreenfieldBucketName(hash: string -> string, lower: char -> char, namespace: string, name: string): string {
    var stem := PREFIX + hash(namespace + "/" + name);
    Trim(Cut(FullName(stem, Sanitize(lower, namespace + "-" + name))))
  }

  function Cut(full: string): string {
    if |full| > 63 then full[..63] else full
  }

  lemma PrefixIsClean(r: string, full: string)
    requires r <= full && AllLabelChars(full) && NoDoubleDash(full)
    ensures AllLabelChars(r) && NoDoubleDash(r)
  {
    assert forall i :: 0 <= i < |r| ==> r[i] == full[i];
  }

  lemma CleanIsLabel(r: string)
    requires AllLabelChars(r) && 1 <= |r| <= 63 && r[0] != '-' && r[|r| - 1] != '-'
    ensures IsLabel(r)
  {
    forall i | 0 <= i < |r| ensures IsLetterOrDigit(r[i]) <==> IsAlnum(r[i]) {
      KeptIff(r[i]);
    }
  }

  lemma TrimmedIsLabel(stem: string, cut: string)
    requires |stem| == 16 && IsAlnum(stem[0]) && IsAlnum(stem[15])
    requires stem <= cut && |cut| <= 63 && AllLabelChars(cut) && NoDoubleDash(cut)
    ensures var r := Trim(cut);
            && IsLabel(r) && |r| >= 16 && r[..16] == stem && NoDoubleDash(r)
            && r <= cut && (IsAlnum(cut[|cut| - 1]) ==> r == cut)
  {
    assert cut[0] == stem[0] && cut[15] == stem[15];
    TrimLeftIs(cut);
    TrimRightIs(cut);
    TrimRightKeeps(cut, 15);
    var r := TrimRight(cut);
    assert Trim(cut) == r && r[0] == cut[0];
    PrefixIsClean(r, cut);
    CleanIsLabel(r);
  }

  lemma CutIsLabel(stem: string, full: string)
    requires |stem| == 16 && IsAlnum(stem[0]) && IsAlnum(stem[15])
    requires stem <= full && AllLabelChars(full) && NoDoubleDash(full)
    ensures var r := Trim(Cut(full));
            && IsLabel(r) && |r| >= 16 && r[..16] == stem && NoDoubleDash(r)
            && r <= full && (|full| <= 63 && IsAlnum(full[|full| - 1]) ==> r == full)
  {
    var cut := Cut(full);
    assert cut <= full && stem <= cut && |cut| <= 63 && (|full| <= 63 ==> cut == full);
    PrefixIsClean(cut, full);
    TrimmedIsLabel(stem, cut);
  }

  lemma StemAndBase(stem: string, base: string)
    requires AllLabelChars(stem) && NoDoubleDash(stem) && stem != [] && IsAlnum(stem[|stem| - 1])
    requires AllLabelChars(base) && NoDoubleDash(base) && base != [] && IsAlnum(base[0])
    ensures AllLabelChars(stem + "-" + base) && NoDoubleDash(stem + "-" + base)
    ensures (stem + "-" + base)[|stem + "-" + base| - 1] == base[|base| - 1]
  {
    var s := stem + "-" + base;
    assert forall i :: 0 <= i < |stem| ==> s[i] == stem[i];
    assert s[|stem|] == '-';
    assert forall i :: |stem| < i < |s| ==> s[i] == base[i - |stem| - 1];
  }

  /** For every namespace and claim name the bucket name is a valid label that keeps its sixteen
      characters of prefix and digest, however long the readable part is. */
  lemma GreenfieldNameIsLabel(hash: string -> string, lower: char -> char, namespace: string, name: string)
    requires Digest.IsShortHash(hash(namespace + "/" + name))
    ensures IsLabel(GreenfieldBucketName(hash, lower, namespace, name))
    ensures |GreenfieldBucketName(hash, lower, namespace, name)| >= 16
    ensures GreenfieldBucketName(hash, lower, namespace, name)[..16] == "claim-" + hash(namespace + "/" + name)
    ensures NoDoubleDash(GreenfieldBucketName(hash, lower, namespace, name))
    ensures var readable := Sanitize(lower, namespace + "-" + name);
            var full := "claim-" + hash(namespace + "/" + name) + if readable == "" then "" else "-" + readable;
            && GreenfieldBucketName(hash, lower, namespace, name) <= full
            && (|full| <= 63 ==> GreenfieldBucketName(hash, lower, namespace, name) == full)
  {
    var digest, text := hash(namespace + "/" + name), namespace + "-" + name;
    StemIs(digest);
    SanitizedIsClean(lower, text);
    NameIsLabel(PREFIX + digest, Sanitize(lower, text));
    FullNameIs(PREFIX + digest, Sanitize(lower, text));
  }

  lemma FullNameIs(stem: string, base: string)
    ensures FullName(stem, base) == stem + if base == "" then "" else "-" + base
  {
  }

  lemma StemIs(digest: string)
    requires Digest.IsShortHash(digest)
    ensures var stem := PREFIX + digest;
            && |stem| == 16 && AllLabelChars(stem) && NoDoubleDash(stem) && IsAlnum(stem[0]) && IsAlnum(stem[15])
  {
    var stem := PREFIX + digest;
    assert forall i :: 6 <= i < 16 ==> stem[i] == digest[i - 6];
    assert forall i :: 0 <= i < 6 ==> stem[i] == PREFIX[i];
  }

  lemma NameIsLabel(stem: string, base: string)
    requires |stem| == 16 && AllLabelChars(stem) && NoDoubleDash(stem) && IsAlnum(stem[0]) && IsAlnum(stem[15])
    requires AllLabelChars(base) && NoDoubleDash(base)
    requires base == [] || (IsAlnum(base[0]) && IsAlnum(base[|base| - 1]))
    ensures var full := FullName(stem, base);
            var r := Trim(Cut(full));
            && IsLabel(r) && |r| >= 16 && r[..16] == stem && NoDoubleDash(r)
            && r <= full && (|full| <= 63 ==> r == full)
  {
    if base != [] {
      StemAndBase(stem, base);
      CutIsLabel(stem, stem + "-" + base);
    } else {
      CutIsLabel(stem, stem);
    }
  }

  /** Two claims share a bucket name only if their digests collide. */
  lemma GreenfieldNamesDiffer(hash: string -> string, lower: char -> char, ns: string, name: string, ns': string,
      name': string)
    requires Digest.IsShortHash(hash(ns + "/" + name)) && Digest.IsShortHash(hash(ns' + "/" + name'))
    requires GreenfieldBucketName(hash, lower, ns, name) == GreenfieldBucketName(hash, lower, ns', name')
    ensures hash(ns + "/" + name) == hash(ns' + "/" + name')
  {
    GreenfieldNameIsLabel(hash, lower, ns, name);
    GreenfieldNameIsLabel(hash, lower, ns', name');
    assert (PREFIX + hash(ns + "/" + name))[6..] == hash(ns + "/" + name);
    assert (PREFIX + hash(ns' + "/" + name'))[6..] == hash(ns' + "/" + name');
  }
}
