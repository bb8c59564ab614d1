/** The bucket policy document and its in-place edits (images/controller/internal/backend/cephrgw/policy.go). The digest
    behind a statement id is a parameter. */
module BucketPolicy {
  import opened Wrappers

  datatype Principal = Principal(aws: seq<string>, wildcard: bool)

  datatype Statement = Statement(sid: string, effect: string, principal: Principal, action: seq<string>,
      resource: seq<string>)

  /** The statement the driver writes for a user; `sid` maps user ids to statement ids. */
  function StatementFor(sid: string -> string, uid: string, bucket: string, actions: seq<string>): Statement {
    Statement(sid(uid), "Allow", Principal(["arn:aws:iam:::user/" + uid], false), actions,
              ["arn:aws:s3:::" + bucket, "arn:aws:s3:::" + bucket + "/*"])
  }

  // --- What the edits mean -----------------------------------------------------------

  /** The first statement with the same id is replaced; without one the statement joins at the end. */
  function Upserted(ss: seq<Statement>, stmt: Statement): seq<Statement> {
    if ss == [] then [stmt]
    else if ss[0].sid == stmt.sid then [stmt] + ss[1..]
    else [ss[0]] + Upserted(ss[1..], stmt)
  }

  function Removed(ss: seq<Statement>, sid: string): seq<Statement> {
    if ss == [] then []
    else
      var s := ss[|ss| - 1];
      Removed(ss[..|ss| - 1], sid) + if s.sid == sid then [] else [s]
  }

  /** The statement a reader finds for an id. */
  function Lookup(ss: seq<Statement>, sid: string): Option<Statement> {
    if ss == [] then None else if ss[0].sid == sid then Some(ss[0]) else Lookup(ss[1..], sid)
  }

  predicate Lacks(ss: seq<Statement>, sid: string) {
    forall i :: 0 <= i < |ss| ==> ss[i].sid != sid
  }

  method SlicesEqual(a: seq<string>, b: seq<string>) returns (equal: bool)
    ensures equal <==> a == b
  {
    if |a| != |b| {
      return false;
    }
    for i := 0 to |a|
      invariant a[..i] == b[..i]
    {
      if a[i] != b[i] {
        return false;
      }
    }
    return true;
  }

  method StatementEqual(a: Statement, b: Statement) returns (equal: bool)
    ensures equal <==> a == b
  {
    var actions := SlicesEqual(a.action, b.action);
    var resources := SlicesEqual(a.resource, b.resource);
    var principals := SlicesEqual(a.principal.aws, b.principal.aws);
    equal := a.sid == b.sid && a.effect == b.effect && actions && resources && principals
             && a.principal.wildcard == b.principal.wildcard;
  }

  lemma {:induction false} UpsertedAt(ss: seq<Statement>, stmt: Statement, k: nat)
    requires k < |ss| && ss[k].sid == stmt.sid && Lacks(ss[..k], stmt.sid)
    ensures Upserted(ss, stmt) == ss[k := stmt]
  {
    if k > 0 {
      assert ss[0] == ss[..k][0];
      assert ss[1..][..k - 1] == ss[..k][1..];
      UpsertedAt(ss[1..], stmt, k - 1);
    }
  }

  lemma {:induction false} UpsertedNew(ss: seq<Statement>, stmt: Statement)
    requires Lacks(ss, stmt.sid)
    ensures Upserted(ss, stmt) == ss + [stmt]
  {
    if ss != [] {
      UpsertedNew(ss[1..], stmt);
    }
  }

  lemma {:induction false} RemovedLacks(ss: seq<Statement>, sid: string)
    ensures |Removed(ss, sid)| <= |ss| && Lacks(Removed(ss, sid), sid)
  {
    if ss != [] {
      RemovedLacks(ss[..|ss| - 1], sid);
    }
  }

  lemma {:induction false} RemovedShrinks(ss: seq<Statement>, sid: string)
    requires !Lacks(ss, sid)
    ensures |Removed(ss, sid)| < |ss|
  {
    var front := ss[..|ss| - 1];
    RemovedLacks(front, sid);
    if ss[|ss| - 1].sid != sid {
      assert forall i :: 0 <= i < |front| ==> ss[i] == front[i];
      RemovedShrinks(front, sid);
    }
  }

  lemma {:induction false} RemovedSame(ss: seq<Statement>, sid: string)
    requires Lacks(ss, sid)
    ensures Removed(ss, sid) == ss
  {
    if ss != [] {
      RemovedSame(ss[..|ss| - 1], sid);
    }
  }

  lemma RemovedIs(ss: seq<Statement>, sid: string)
    ensures |Removed(ss, sid)| <= |ss| && Lacks(Removed(ss, sid), sid)
    ensures Lacks(ss, sid) <==> Removed(ss, sid) == ss
  {
    RemovedLacks(ss, sid);
    if Lacks(ss, sid) {
      RemovedSame(ss, sid);
    } else {
      RemovedShrinks(ss, sid);
    }
  }

  lemma RemovedOfNext(ss: seq<Statement>, i: nat, sid: string)
    requires i < |ss|
    ensures Removed(ss[..i + 1], sid) == Removed(ss[..i], sid) + if ss[i].sid == sid then [] else [ss[i]]
    ensures Lacks(ss[..i + 1], sid) <==> Lacks(ss[..i], sid) && ss[i].sid != sid
  {
    assert ss[..i + 1][..i] == ss[..i];
    assert ss[..i + 1] == ss[..i] + [ss[i]];
  }

  /** A policy document: a slice, as an array with a length. */
  class Document {
    var buf: array<Statement>
    var len: nat

    ghost predicate Valid()
      reads this
    {
      len <= buf.Length
    }

    ghost function Contents(): seq<Statement>
      requires Valid()
      reads this, buf
    {
      buf[..len]
    }

    /** Returns true exactly when the document changed. */
    method Upsert(stmt: Statement) returns (changed: bool)
      requires Valid()
      modifies this, buf
      ensures Valid() && (buf == old(buf) || fresh(buf))
      ensures Contents() == Upserted(old(Contents()), stmt)
      ensures changed <==> Contents() != old(Contents())
    {
      ghost var was := Contents();
      for i := 0 to len
        invariant Valid() && buf == old(buf) && len == old(len) && Contents() == was
        invariant Lacks(was[..i], stmt.sid)
      {
        if buf[i].sid == stmt.sid {
          UpsertedAt(was, stmt, i);
          var same := StatementEqual(buf[i], stmt);
          if same {
            assert was[i := stmt] == was;
            return false;
          }
          buf[i] := stmt;
          assert Contents() == was[i := stmt] && was[i := stmt][i] != was[i];
          return true;
        }
        assert was[..i + 1] == was[..i] + [was[i]];
      }
      assert was[..len] == was;
      UpsertedNew(was, stmt);
      if len == buf.Length {
        var grown := new Statement[2 * len + 1](
            i requires 0 <= i reads this, buf => if i < buf.Length then buf[i] else stmt);
        buf := grown;
      }
      buf[len] := stmt;
      len := len + 1;
      assert Contents() == was + [stmt];
      return true;
    }

    /** The in-place filter: kept statements move to the front. */
    method Remove(sid: string) returns (changed: bool)
      requires Valid()
      modifies this, buf
      ensures Valid() && buf == old(buf)
      ensures Contents() == Removed(old(Contents()), sid)
      ensures changed <==> Contents() != old(Contents())
    {
      ghost var was := Contents();
      var n: nat := 0;
      changed := false;
      for i := 0 to len
        invariant Valid() && buf == old(buf) && len == old(len)
        invariant n <= i && buf[..n] == Removed(was[..i], sid)
        invariant forall j :: i <= j < len ==> buf[j] == was[j]
        invariant changed <==> !Lacks(was[..i], sid)
      {
        var s := buf[i];
        RemovedOfNext(was, i, sid);
        if s.sid == sid {
          changed := true;
        } else {
          buf[n] := s;
          n := n + 1;
          assert buf[..n] == Removed(was[..i], sid) + [s];
        }
      }
      assert was[..len] == was;
      RemovedIs(was, sid);
      len := n;
    }
  }

  // --- Framing and inversion -----------------------------------------------------------

  /** An upsert answers for its own id and for no other. */
  lemma {:induction false} LookupAfterUpsert(ss: seq<Statement>, stmt: Statement, id: string)
    ensures Lookup(Upserted(ss, stmt), id) == if id == stmt.sid then Some(stmt) else Lookup(ss, id)
  {
    if ss != [] && ss[0].sid != stmt.sid {
      LookupAfterUpsert(ss[1..], stmt, id);
    }
  }

  lemma {:induction false} LookupOfAppend(ss: seq<Statement>, s: Statement, id: string)
    ensures Lookup(ss + [s], id) == if Lookup(ss, id).Some? then Lookup(ss, id) else if s.sid == id then Some(s)
            else None
  {
    if ss == [] {
      assert (ss + [s])[1..] == [];
    } else {
      assert (ss + [s])[1..] == ss[1..] + [s];
      LookupOfAppend(ss[1..], s, id);
    }
  }

  lemma {:induction false} LookupAfterRemove(ss: seq<Statement>, sid: string, id: string)
    ensures Lookup(Removed(ss, sid), id) == if id == sid then None else Lookup(ss, id)
  {
    if ss != [] {
      var front, s := ss[..|ss| - 1], ss[|ss| - 1];
      LookupAfterRemove(front, sid, id);
      LookupOfAppend(front, s, id);
      LookupOfAppend(Removed(front, sid), s, id);
      assert Removed(front, sid) + [] == Removed(front, sid);
      assert ss == front + [s];
    }
  }

  lemma {:induction false} RemovedOfConcat(a: seq<Statement>, b: seq<Statement>, sid: string)
    ensures Removed(a + b, sid) == Removed(a, sid) + Removed(b, sid)
  {
    if b == [] {
      assert a + b == a;
    } else {
      var front := b[..|b| - 1];
      assert (a + b)[..|a + b| - 1] == a + front;
      RemovedOfConcat(a, front, sid);
    }
  }

  /** All statements of other ids stay, in order, whatever an upsert does. */
  lemma {:induction false} UpsertKeepsOthers(ss: seq<Statement>, stmt: Statement)
    ensures Removed(Upserted(ss, stmt), stmt.sid) == Removed(ss, stmt.sid)
  {
    if ss == [] {
      assert [stmt][..0] == [];
    } else {
      var tail := ss[1..];
      assert ss == [ss[0]] + tail;
      RemovedOfConcat([ss[0]], tail, stmt.sid);
      if ss[0].sid == stmt.sid {
        RemovedOfConcat([stmt], tail, stmt.sid);
        assert Removed([stmt], stmt.sid) == [] && Removed([ss[0]], stmt.sid) == [] by {
          assert [stmt][..0] == [] && [ss[0]][..0] == [];
        }
      } else {
        RemovedOfConcat([ss[0]], Upserted(tail, stmt), stmt.sid);
        UpsertKeepsOthers(tail, stmt);
      }
    }
  }

  /** Removing undoes an upsert on a document that lacked the id, and upserting again changes nothing. */
  lemma UpsertInvertsAndRepeats(ss: seq<Statement>, stmt: Statement)
    ensures Lacks(ss, stmt.sid) ==> Removed(Upserted(ss, stmt), stmt.sid) == ss
    ensures Upserted(Upserted(ss, stmt), stmt) == Upserted(ss, stmt)
  {
    UpsertKeepsOthers(ss, stmt);
    RemovedIs(ss, stmt.sid);
    UpsertTwice(ss, stmt);
  }

  lemma {:induction false} UpsertTwice(ss: seq<Statement>, stmt: Statement)
    ensures Upserted(Upserted(ss, stmt), stmt) == Upserted(ss, stmt)
  {
    if ss != [] && ss[0].sid != stmt.sid {
      UpsertTwice(ss[1..], stmt);
      assert Upserted(ss, stmt)[1..] == Upserted(ss[1..], stmt);
    }
  }

  // --- What a statement grants ---------------------------------------------------------

  /** How the gateway matches a resource: exactly, or by the prefix before a final star. */
  predicate Covers(pattern: string, resource: string) {
    pattern == resource
    || (pattern != [] && pattern[|pattern| - 1] == '*' && pattern[..|pattern| - 1] <= resource)
  }

  predicate Grants(s: Statement, principal: string, action: string, resource: string) {
    && s.effect == "Allow" && (s.principal.wildcard || principal in s.principal.aws)
    && action in s.action && exists i :: 0 <= i < |s.resource| && Covers(s.resource[i], resource)
  }

  /** The driver's statement grants its user, and nobody else, exactly the given actions, on the bucket and
      on everything below it; a bucket name has no star in it. */
  lemma StatementGrantsIff(sid: string -> string, uid: string, bucket: string, actions: seq<string>,
                           other: string, action: string, resource: string)
    requires '*' !in bucket
    ensures Grants(StatementFor(sid, uid, bucket, actions), "arn:aws:iam:::user/" + other, action, resource) <==>
            && other == uid && action in actions
            && (resource == "arn:aws:s3:::" + bucket || "arn:aws:s3:::" + bucket + "/" <= resource)
  {
    var s := StatementFor(sid, uid, bucket, actions);
    var arn, user := "arn:aws:s3:::" + bucket, "arn:aws:iam:::user/";
    assert (user + other)[|user|..] == other && (user + uid)[|user|..] == uid;
    assert arn[|arn| - 1] != '*' by {
      assert bucket != [] ==> arn[|arn| - 1] == bucket[|bucket| - 1];
    }
    assert (arn + "/*")[..|arn + "/*"| - 1] == arn + "/";
    assert Covers(arn, resource) <==> resource == arn;
    StarCovers(arn, resource);
    assert s.resource[0] == arn && s.resource[1] == arn + "/*";
  }

  lemma StarCovers(arn: string, resource: string)
    ensures Covers(arn + "/*", resource) <==> arn + "/" <= resource
  {
    assert (arn + "/*")[..|arn + "/*"| - 1] == arn + "/";
    if resource == arn + "/*" {
      assert resource[..|arn + "/"|] == arn + "/";
    }
  }

  /** The driver's statements carry the id of their user. */
  lemma StatementIsFiledUnder(sid: string -> string, ss: seq<Statement>,
      uid: string, bucket: string, actions: seq<string>)
    ensures Lookup(Upserted(ss, StatementFor(sid, uid, bucket, actions)), sid(uid)) ==
            Some(StatementFor(sid, uid, bucket, actions))
  {
    LookupAfterUpsert(ss, StatementFor(sid, uid, bucket, actions), sid(uid));
  }

  datatype Edit = Put(stmt: Statement) | Drop(sid: string)

  function IdOf(e: Edit): string {
    match e
    case Put(stmt) => stmt.sid
    case Drop(sid) => sid
  }

  function Edited(ss: seq<Statement>, e: Edit): seq<Statement> {
    match e
    case Put(stmt) => Upserted(ss, stmt)
    case Drop(sid) => Removed(ss, sid)
  }

  lemma LookupAfterEdit(ss: seq<Statement>, e: Edit, id: string)
    ensures Lookup(Edited(ss, e), id) ==
            if id != IdOf(e) then Lookup(ss, id) else if e.Put? then Some(e.stmt) else None
  {
    match e
    case Put(stmt) => LookupAfterUpsert(ss, stmt, id);
    case Drop(sid) => LookupAfterRemove(ss, sid, id);
  }

  /** Edits for distinct ids commute as far as any reader by id can tell. */
  lemma DistinctEditsCommute(ss: seq<Statement>, e: Edit, f: Edit, id: string)
    requires IdOf(e) != IdOf(f)
    ensures Lookup(Edited(Edited(ss, e), f), id) == Lookup(Edited(Edited(ss, f), e), id)
  {
    LookupAfterEdit(ss, e, id);
    LookupAfterEdit(ss, f, id);
    LookupAfterEdit(Edited(ss, e), f, id);
    LookupAfterEdit(Edited(ss, f), e, id);
  }

  /** Statements for distinct users never touch each other when the digest keeps them apart. */
  lemma DistinctUsersKeepApart(sid: string -> string, ss: seq<Statement>, uid: string, other: string, bucket: string,
      actions: seq<string>)
    requires sid(uid) != sid(other)
    ensures Lookup(Upserted(ss, StatementFor(sid, uid, bucket, actions)), sid(other)) == Lookup(ss, sid(other))
    ensures Lookup(Removed(ss, sid(uid)), sid(other)) == Lookup(ss, sid(other))
  {
    LookupAfterUpsert(ss, StatementFor(sid, uid, bucket, actions), sid(other));
    LookupAfterRemove(ss, sid(uid), sid(other));
  }
}
