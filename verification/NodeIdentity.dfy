/** Stable Garage node identities (images/controller/internal/backend/garage/identity.go and the restore script in
    resources.go), and why they leave the layout alone. */
module NodeIdentity {
  import opened Wrappers
  import opened Decimal
  import opened Layout
  import opened Sets

  type Bytes = seq<bv8>

  const PRIVATE_SIZE := 64
  const PUBLIC_SIZE := 32

  // --- Keys and pod names -------------------------------------------------------

  function PrivateKey(ord: nat): string {
    "node-" + Format(ord)
  }

  function PublicKey(ord: nat): string {
    PrivateKey(ord) + ".pub"
  }

  /** The Secret's keys of different ordinals and halves never coincide. */
  lemma DataKeysDistinct(m: nat, n: nat)
    ensures PrivateKey(m) != PublicKey(n)
    ensures PrivateKey(m) == PrivateKey(n) ==> m == n
    ensures PublicKey(m) == PublicKey(n) ==> m == n
  {
    assert PrivateKey(m)[5..] == Format(m) && PrivateKey(n)[5..] == Format(n);
    assert '.' !in "node-" && '.' !in Format(m);
    assert '.' !in PrivateKey(m) && PublicKey(n)[|PrivateKey(n)|] == '.';
    assert PublicKey(m)[..|PublicKey(m)| - 4] == PrivateKey(m);
    assert PublicKey(n)[..|PublicKey(n)| - 4] == PrivateKey(n);
    if PrivateKey(m) == PrivateKey(n) {
      FormatInjective(m, n);
    }
  }

  /** The last position of a dash, or -1. */
  function LastDash(name: string): (i: int)
    ensures -1 <= i < |name| && (i >= 0 ==> name[i] == '-')
    ensures forall j :: i < j < |name| ==> name[j] != '-'
  {
    if name == [] then -1
    else if name[|name| - 1] == '-' then |name| - 1
    else LastDash(name[..|name| - 1])
  }

  function PodOrdinal(name: string): Option<int32> {
    var i := LastDash(name);
    if i < 0 || i == |name| - 1 then None
    else
      match Atoi(name[i + 1..])
      case None => None
      case Some(n) => if n < 0 then None else Some(ToInt32(n))
  }

  lemma {:induction false} LastDashSplits(name: string)
    requires LastDash(name) >= 0
    ensures var i := LastDash(name); name == name[..i] + "-" + name[i + 1..] && '-' !in name[i + 1..]
  {
  }

  lemma {:induction false} LastDashBefore(base: string, tail: string)
    requires '-' !in tail
    ensures LastDash(base + "-" + tail) == |base|
  {
    var name := base + "-" + tail;
    if tail != [] {
      assert name[|name| - 1] == tail[|tail| - 1];
      assert name[..|name| - 1] == base + "-" + tail[..|tail| - 1];
      LastDashBefore(base, tail[..|tail| - 1]);
    }
  }

  lemma OrdinalAfterDash(base: string, tail: string, ord: int32)
    requires '-' !in tail && tail != [] && Atoi(tail) == Some(ord as int) && ord >= 0
    ensures PodOrdinal(base + "-" + tail) == Some(ord)
  {
    var name := base + "-" + tail;
    LastDashBefore(base, tail);
    assert name[|base| + 1..] == tail;
  }

  /** Every pod name the StatefulSet gives a replica yields its ordinal. */
  lemma PodOrdinalOfReplica(base: string, ord: int32)
    requires ord >= 0
    ensures PodOrdinal(base + "-" + Format(ord)) == Some(ord)
  {
    var tail := Format(ord);
    assert Atoi(tail) == Some(ord as int) by { AtoiOfFormatInt(ord); }
    OrdinalAfterDash(base, tail, ord);
  }

  lemma OrdinalOfSplit(base: string, tail: string)
    requires '-' !in tail && tail != ""
    ensures PodOrdinal(base + "-" + tail) ==
            if Atoi(tail).Some? && Atoi(tail).value >= 0 then Some(ToInt32(Atoi(tail).value)) else None
  {
    var name := base + "-" + tail;
    LastDashBefore(base, tail);
    assert name[|base| + 1..] == tail;
  }

  ghost predicate EndsInOrdinal(name: string, base: string, tail: string, ord: int32) {
    name == base + "-" + tail && '-' !in tail && tail != "" && IsOrdinalText(tail, ord)
  }

  /** And only a name that ends in a dash and a number yields one. */
  lemma PodOrdinalIff(name: string, ord: int32)
    ensures PodOrdinal(name) == Some(ord) <==> exists base, tail :: EndsInOrdinal(name, base, tail, ord)
  {
    if PodOrdinal(name) == Some(ord) {
      var i := LastDash(name);
      LastDashSplits(name);
      assert EndsInOrdinal(name, name[..i], name[i + 1..], ord);
    }
    if base, tail :| EndsInOrdinal(name, base, tail, ord) {
      OrdinalOfSplit(base, tail);
    }
  }

  predicate IsOrdinalText(tail: string, ord: int32) {
    var n := Atoi(tail);
    n.Some? && n.value >= 0 && ord == ToInt32(n.value)
  }

  // --- The identity Secret ------------------------------------------------------

  function Get(data: map<string, Bytes>, key: string): Bytes {
    if key in data then data[key] else []
  }

  predicate IsCaptured(data: map<string, Bytes>, ord: nat) {
    |Get(data, PrivateKey(ord))| == PRIVATE_SIZE && |Get(data, PublicKey(ord))| == PUBLIC_SIZE
  }

  /** The two files read from a pod; `None` when the pod did not answer. */
  datatype Files = Files(priv: Option<Bytes>, pub: Option<Bytes>)

  predicate IsReadable(f: Files) {
    f.priv.Some? && f.pub.Some? && |f.priv.value| == PRIVATE_SIZE && |f.pub.value| == PUBLIC_SIZE
  }

  /** The pod's identity is captured this pass. */
  predicate Due(data: map<string, Bytes>, pods: map<nat, Files>, ord: nat) {
    ord in pods && !IsCaptured(data, ord) && IsReadable(pods[ord])
  }

  ghost predicate Holds(captured: map<string, Bytes>, ord: nat, f: Files)
    requires IsReadable(f)
  {
    && PrivateKey(ord) in captured && captured[PrivateKey(ord)] == f.priv.value
    && PublicKey(ord) in captured && captured[PublicKey(ord)] == f.pub.value
  }

  /** `captured` has exactly the files of the pods that were due. */
  ghost predicate IsCapture(data: map<string, Bytes>, pods: map<nat, Files>, captured: map<string, Bytes>) {
    && (forall ord :: Due(data, pods, ord) ==> Holds(captured, ord, pods[ord]))
    && (forall k :: k in captured ==>
        exists ord :: Due(data, pods, ord) && (k == PrivateKey(ord) || k == PublicKey(ord)))
  }

  /** Whose identity a capture takes: of exactly those pods that are not stored yet and whose two files have
      the right sizes, 64 and 32 bytes; and it takes both files as they are. */
  lemma CaptureTakesIff(data: map<string, Bytes>, pods: map<nat, Files>, captured: map<string, Bytes>, ord: nat)
    requires IsCapture(data, pods, captured)
    ensures var takes := && ord in pods && pods[ord].priv.Some? && pods[ord].pub.Some?
                         && |pods[ord].priv.value| == 64 && |pods[ord].pub.value| == 32
                         && !(|Get(data, PrivateKey(ord))| == 64 && |Get(data, PublicKey(ord))| == 32);
            && (PrivateKey(ord) in captured <==> takes) && (PublicKey(ord) in captured <==> takes)
            && (takes ==> captured[PrivateKey(ord)] == pods[ord].priv.value)
            && (takes ==> captured[PublicKey(ord)] == pods[ord].pub.value)
  {
    forall o | Due(data, pods, o)
      ensures PrivateKey(ord) == PrivateKey(o) ==> o == ord
      ensures PublicKey(ord) == PublicKey(o) ==> o == ord
      ensures PrivateKey(ord) != PublicKey(o) && PublicKey(ord) != PrivateKey(o)
    {
      DataKeysDistinct(ord, o);
      DataKeysDistinct(o, ord);
    }
    if Due(data, pods, ord) {
      assert Holds(captured, ord, pods[ord]);
    }
  }

  lemma KeepsOthers(captured: map<string, Bytes>, ord: nat, o: nat, f: Files, g: Files)
    requires o != ord && IsReadable(f) && IsReadable(g) && Holds(captured, o, g)
    ensures Holds(captured[PrivateKey(ord) := f.priv.value][PublicKey(ord) := f.pub.value], o, g)
  {
    DataKeysDistinct(ord, o);
    DataKeysDistinct(o, ord);
  }

  lemma HoldsNew(captured: map<string, Bytes>, ord: nat, f: Files)
    requires IsReadable(f)
    ensures Holds(captured[PrivateKey(ord) := f.priv.value][PublicKey(ord) := f.pub.value], ord, f)
  {
    DataKeysDistinct(ord, ord);
  }

  /** The Secret after merging, key by key: present values are kept. */
  function Merged(data: map<string, Bytes>, captured: map<string, Bytes>): map<string, Bytes> {
    map k | k in data.Keys + captured.Keys :: if Get(data, k) != [] || k !in captured then Get(data, k) else captured[k]
  }

  class IdentitySecret {
    var data: map<string, Bytes>

    method StoreNodeIdentities(captured: map<string, Bytes>)
      modifies this
      ensures data == Merged(old(data), captured)
    {
      var left := captured.Keys;
      while left != {}
        invariant left <= captured.Keys
        invariant data.Keys == old(data).Keys + (captured.Keys - left)
        invariant forall k :: k in data ==>
                    data[k] == if Get(old(data), k) != [] || k !in captured || k in left then Get(old(data), k)
                        else captured[k]
        decreases left
      {
        var k :| k in left;
        if |Get(data, k)| == 0 {
          data := data[k := captured[k]];
        }
        left := left - {k};
      }
    }

    method CaptureNodeIdentities(pods: map<nat, Files>) returns (captured: map<string, Bytes>)
      ensures IsCapture(data, pods, captured)
    {
      captured := map[];
      var left := pods.Keys;
      while left != {}
        invariant left <= pods.Keys
        invariant forall o :: o !in left && Due(data, pods, o) ==> Holds(captured, o, pods[o])
        invariant forall k :: k in captured ==>
                  exists o :: Due(data, pods, o) && (k == PrivateKey(o) || k == PublicKey(o))
        decreases left
      {
        var ord :| ord in left;
        left := left - {ord};
        if |Get(data, PrivateKey(ord))| == PRIVATE_SIZE && |Get(data, PublicKey(ord))| == PUBLIC_SIZE {
          continue;
        }
        var files := pods[ord];
        if files.priv.None? || files.pub.None? {
          continue;
        }
        if |files.priv.value| != PRIVATE_SIZE || |files.pub.value| != PUBLIC_SIZE {
          continue;
        }
        assert Due(data, pods, ord);
        forall o | o !in left && o != ord && Due(data, pods, o)
          ensures Holds(captured[PrivateKey(ord) := files.priv.value][PublicKey(ord) := files.pub.value], o, pods[o])
        {
          KeepsOthers(captured, ord, o, files, pods[o]);
        }
        HoldsNew(captured, ord, files);
        captured := captured[PrivateKey(ord) := files.priv.value][PublicKey(ord) := files.pub.value];
      }
    }

    /** One capture pass: a pod's pair is added when it is due, nothing present is touched. */
    method EnsureNodeIdentities(pods: map<nat, Files>)
      modifies this
      ensures exists captured :: IsCapture(old(data), pods, captured) && data == Merged(old(data), captured)
    {
      var captured := CaptureNodeIdentities(pods);
      if |captured| == 0 {
        assert data == Merged(data, captured);
        return;
      }
      StoreNodeIdentities(captured);
    }
  }

  // --- Runs -------------------------------------------------------------------------

  datatype KeyPair = KeyPair(priv: Bytes, pub: Bytes)

  /** A running replica: the directory its volume stands for and the identity it booted with. */
  datatype Replica = Replica(dir: string, key: KeyPair)

  datatype Store = Store(
    secret: map<string, Bytes>,
    disk: map<string, KeyPair>,
    running: map<nat, Replica>,
    roles: set<string>)

  predicate IsProper(k: KeyPair) {
    |k.priv| == PRIVATE_SIZE && |k.pub| == PUBLIC_SIZE
  }

  function Stored(secret: map<string, Bytes>, ord: nat): KeyPair {
    KeyPair(Get(secret, PrivateKey(ord)), Get(secret, PublicKey(ord)))
  }

  /** The restore script, then Garage: the stored pair if both files are non-empty, else what
      the directory holds, else a fresh pair. */
  function BootKey(s: Store, ord: nat, dir: string, generated: KeyPair): KeyPair {
    if |Get(s.secret, PrivateKey(ord))| > 0 && |Get(s.secret, PublicKey(ord))| > 0 then Stored(s.secret, ord)
    else if dir in s.disk then s.disk[dir] else generated
  }

  predicate InUse(s: Store, dir: string) {
    exists o :: o in s.running && s.running[o].dir == dir
  }

  /** What a capture pass can read: nothing from pods that do not answer. */
  function FilesOf(s: Store, answering: set<nat>): map<nat, Files> {
    map o | o in s.running && s.running[o].dir in s.disk ::
      if o in answering then Files(Some(s.disk[s.running[o].dir].priv), Some(s.disk[s.running[o].dir].pub))
      else Files(None, None)
  }

  /** The peers a layout pass discovers: any replicas that answer, each once. */
  ghost predicate Discovers(s: Store, nodeId: Bytes -> string, ords: seq<nat>, peers: seq<Peer>) {
    && |ords| == |peers|
    && Distinct(ords)
    && (forall i :: 0 <= i < |ords| ==> ords[i] in s.running && peers[i].id == nodeId(s.running[ords[i]].key.pub))
  }

  datatype Event =
    | Boot(ord: nat, dir: string, generated: KeyPair)  // a pod starts, on any directory not in use
    | Stop(ord: nat)                               // it stops, for whatever reason
    | Leftover(dir: string, key: KeyPair)          // an unused directory turns out to hold old metadata
    | Capture(answering: set<nat>)                 // ensureNodeIdentities
    | LayoutPass(ords: seq<nat>, peers: seq<Peer>, expected: int, capacity: int, changes: seq<RoleChange>)

  ghost predicate Happens(s: Store, nodeId: Bytes -> string, e: Event, t: Store) {
    match e
    case Boot(o, dir, generated) =>
      && o !in s.running && !InUse(s, dir) && IsProper(generated)
      && var k := BootKey(s, o, dir, generated);
         t == s.(disk := s.disk[dir := k], running := s.running[o := Replica(dir, k)])
    case Stop(o) => t == s.(running := s.running - {o})
    case Leftover(dir, k) => !InUse(s, dir) && IsProper(k) && t == s.(disk := s.disk[dir := k])
    case Capture(answering) =>
      exists captured :: IsCapture(s.secret, FilesOf(s, answering), captured)
          && t == s.(secret := Merged(s.secret, captured))
    case LayoutPass(ords, peers, expected, capacity, changes) =>
      && Discovers(s, nodeId, ords, peers) && IsChanges(s.roles, peers, expected, capacity, changes)
      && t == s.(roles := Applied(s.roles, changes))
  }

  ghost predicate IsRun(ss: seq<Store>, nodeId: Bytes -> string, es: seq<Event>) {
    |ss| == |es| + 1 && forall i :: 0 <= i < |es| ==> Happens(ss[i], nodeId, es[i], ss[i + 1])
  }

  // --- The invariant -------------------------------------------------------------------

  /** Stored pairs are whole, or absent. */
  predicate WholeOrAbsent(secret: map<string, Bytes>, ord: nat) {
    IsCaptured(secret, ord) || (Get(secret, PrivateKey(ord)) == [] && Get(secret, PublicKey(ord)) == [])
  }

  ghost predicate SecretInv(secret: map<string, Bytes>) {
    forall o: nat :: WholeOrAbsent(secret, o)
  }

  ghost predicate RunningInv(s: Store) {
    && (forall d :: d in s.disk ==> IsProper(s.disk[d]))
    && (forall o :: o in s.running ==> s.running[o].dir in s.disk && s.disk[s.running[o].dir] == s.running[o].key)
    && (forall o, p :: o in s.running && p in s.running && o != p ==> s.running[o].dir != s.running[p].dir)
  }

  /** A running replica whose identity is stored runs under it. */
  ghost predicate AgreeInv(s: Store) {
    forall o :: o in s.running && IsCaptured(s.secret, o) ==> s.running[o].key == Stored(s.secret, o)
  }

  ghost predicate Inv(s: Store) {
    SecretInv(s.secret) && RunningInv(s) && AgreeInv(s)
  }

  lemma MergedAt(secret: map<string, Bytes>, pods: map<nat, Files>, captured: map<string, Bytes>, ord: nat)
    requires IsCapture(secret, pods, captured) && WholeOrAbsent(secret, ord)
    ensures IsCaptured(secret, ord) ==> Stored(Merged(secret, captured), ord) == Stored(secret, ord)
    ensures !IsCaptured(secret, ord) && Due(secret, pods, ord) ==>
              Stored(Merged(secret, captured), ord) == KeyPair(pods[ord].priv.value, pods[ord].pub.value)
    ensures !IsCaptured(secret, ord) && !Due(secret, pods, ord) ==>
              Stored(Merged(secret, captured), ord) == Stored(secret, ord)
  {
    if !IsCaptured(secret, ord) && !Due(secret, pods, ord) {
      forall o | Due(secret, pods, o)
        ensures PrivateKey(ord) != PrivateKey(o) && PrivateKey(ord) != PublicKey(o)
        ensures PublicKey(ord) != PrivateKey(o) && PublicKey(ord) != PublicKey(o)
      {
        DataKeysDistinct(ord, o);
        DataKeysDistinct(o, ord);
      }
      assert PrivateKey(ord) !in captured && PublicKey(ord) !in captured;
    }
  }

  lemma CaptureKeepsInv(s: Store, answering: set<nat>, captured: map<string, Bytes>)
    requires Inv(s) && IsCapture(s.secret, FilesOf(s, answering), captured)
    ensures Inv(s.(secret := Merged(s.secret, captured)))
  {
    var pods := FilesOf(s, answering);
    var t := s.(secret := Merged(s.secret, captured));
    forall o: nat
      ensures WholeOrAbsent(t.secret, o)
      ensures o in s.running && IsCaptured(t.secret, o) ==> s.running[o].key == Stored(t.secret, o)
    {
      assert WholeOrAbsent(s.secret, o);
      MergedAt(s.secret, pods, captured, o);
    }
  }

  lemma BootKeepsInv(s: Store, nodeId: Bytes -> string, e: Event, t: Store)
    requires Inv(s) && Happens(s, nodeId, e, t) && e.Boot?
    ensures Inv(t)
  {
    assert WholeOrAbsent(s.secret, e.ord);
  }

  lemma StepKeepsInv(s: Store, nodeId: Bytes -> string, e: Event, t: Store)
    requires Inv(s) && Happens(s, nodeId, e, t)
    ensures Inv(t)
  {
    match e
    case Boot(_, _, _) => BootKeepsInv(s, nodeId, e, t);
    case Capture(answering) =>
      var captured :| IsCapture(s.secret, FilesOf(s, answering), captured)
          && t == s.(secret := Merged(s.secret, captured));
      CaptureKeepsInv(s, answering, captured);
    case _ =>
  }

  lemma StepKeepsIdentity(s: Store, nodeId: Bytes -> string, e: Event, t: Store, ord: nat)
    requires Inv(s) && Happens(s, nodeId, e, t) && IsCaptured(s.secret, ord)
    ensures IsCaptured(t.secret, ord) && Stored(t.secret, ord) == Stored(s.secret, ord)
  {
    if e.Capture? {
      var captured :| IsCapture(s.secret, FilesOf(s, e.answering), captured)
          && t == s.(secret := Merged(s.secret, captured));
      assert WholeOrAbsent(s.secret, ord);
      MergedAt(s.secret, FilesOf(s, e.answering), captured, ord);
    }
  }

  /** A stored identity is write-once: no event of any run changes it. */
  lemma {:induction false} StoredIdentityIsForever(ss: seq<Store>, nodeId: Bytes -> string, es: seq<Event>, k: nat,
      ord: nat)
    requires IsRun(ss, nodeId, es) && Inv(ss[0]) && k < |ss| && IsCaptured(ss[0].secret, ord)
    ensures Inv(ss[k]) && IsCaptured(ss[k].secret, ord) && Stored(ss[k].secret, ord) == Stored(ss[0].secret, ord)
  {
    if k > 0 {
      StoredIdentityIsForever(ss, nodeId, es, k - 1, ord);
      assert Happens(ss[k - 1], nodeId, es[k - 1], ss[k - 1 + 1]);
      StepKeepsInv(ss[k - 1], nodeId, es[k - 1], ss[k]);
      StepKeepsIdentity(ss[k - 1], nodeId, es[k - 1], ss[k], ord);
    }
  }

  // --- The layout stands still ---------------------------------------------------------

  ghost function IdsOf(secret: map<string, Bytes>, nodeId: Bytes -> string, n: nat): set<string> {
    set o: nat | o < n :: nodeId(Stored(secret, o).pub)
  }

  /** All `n` ordinals are captured and hold exactly the layout's roles. */
  ghost predicate Established(s: Store, nodeId: Bytes -> string, n: nat) {
    && Inv(s) && (forall o: nat :: o < n ==> IsCaptured(s.secret, o))
    && s.roles == IdsOf(s.secret, nodeId, n)
  }

  ghost function Below(n: nat): (s: set<nat>)
    ensures |s| == n && forall x: nat :: x in s <==> x < n
  {
    if n == 0 then {} else Below(n - 1) + {n - 1}
  }

  /** `n` distinct ordinals below `n` are all of them. */
  lemma DistinctCoversAll(ords: seq<nat>, n: nat, o: nat)
    requires |ords| >= n && o < n && Distinct(ords)
    requires forall i :: 0 <= i < |ords| ==> ords[i] < n
    ensures o in ords
  {
    SizeOfDistinct(ords);
    if o !in Members(ords) {
      assert Members(ords) <= Below(n) - {o};
      SubsetSize(Members(ords), Below(n) - {o});
    }
  }

  /** A capture pass stores the identity of every replica that runs, answers and is not stored yet: exactly
      the key it runs under. */
  lemma CaptureStores(s: Store, answering: set<nat>, captured: map<string, Bytes>, ord: nat)
    requires Inv(s) && IsCapture(s.secret, FilesOf(s, answering), captured)
    requires ord in s.running && ord in answering
    ensures var secret := Merged(s.secret, captured);
            IsCaptured(secret, ord) && Stored(secret, ord) == s.running[ord].key
  {
    assert WholeOrAbsent(s.secret, ord);
    MergedAt(s.secret, FilesOf(s, answering), captured, ord);
    assert IsProper(s.disk[s.running[ord].dir]);
  }

  /** From any Secret and any layout: once all `n` replicas run and answer, one capture pass and one layout
      pass that reaches them all leave every identity stored and exactly these in the layout. */
  lemma OnePassEstablishes(s: Store, t: Store, u: Store, nodeId: Bytes -> string, answering: set<nat>,
                           ords: seq<nat>, peers: seq<Peer>, capacity: int, changes: seq<RoleChange>, n: nat)
    requires Inv(s) && (forall o :: o in s.running <==> o < n) && s.running.Keys <= answering
    requires Happens(s, nodeId, Capture(answering), t) && |ords| == n
    requires Happens(t, nodeId, LayoutPass(ords, peers, n, capacity, changes), u)
    ensures Established(u, nodeId, n)
    ensures forall o :: o in s.running ==> Stored(u.secret, o) == s.running[o].key
  {
    var captured :| IsCapture(s.secret, FilesOf(s, answering), captured)
                    && t == s.(secret := Merged(s.secret, captured));
    StepKeepsInv(s, nodeId, Capture(answering), t);
    forall o: nat | o < n ensures IsCaptured(t.secret, o) && Stored(t.secret, o) == s.running[o].key {
      CaptureStores(s, answering, captured, o);
    }
    LayoutApplied(t.roles, peers, n, capacity, changes);
    AllPeersAreIds(t, nodeId, ords, peers, n);
  }

  /** With every replica discovered and stored, the peers are exactly the stored identities. */
  lemma AllPeersAreIds(s: Store, nodeId: Bytes -> string, ords: seq<nat>, peers: seq<Peer>, n: nat)
    requires Discovers(s, nodeId, ords, peers) && |ords| == n && forall o :: o in s.running ==> o < n
    requires forall o :: o in s.running ==> Stored(s.secret, o) == s.running[o].key
    ensures PeerIds(peers) == IdsOf(s.secret, nodeId, n)
  {
    forall id ensures id in PeerIds(peers) <==> id in IdsOf(s.secret, nodeId, n) {
      if id in PeerIds(peers) {
        var p :| p in peers && p.id == id;
        var i :| 0 <= i < |peers| && peers[i] == p;
        assert ords[i] in s.running && ords[i] < n;
      }
      if id in IdsOf(s.secret, nodeId, n) {
        var o: nat :| o < n && nodeId(Stored(s.secret, o).pub) == id;
        DistinctCoversAll(ords, n, o);
        var i :| 0 <= i < |ords| && ords[i] == o;
        assert peers[i] in peers && peers[i].id == id;
      }
    }
  }

  lemma EstablishedLayoutNeedsNothing(s: Store, nodeId: Bytes -> string, n: nat, ords: seq<nat>, peers: seq<Peer>,
                                      expected: int, capacity: int, changes: seq<RoleChange>)
    requires Established(s, nodeId, n) && Discovers(s, nodeId, ords, peers)
    requires forall o :: o in s.running ==> o < n
    requires expected >= n && IsChanges(s.roles, peers, expected, capacity, changes)
    ensures changes == []
  {
    forall p | p in peers ensures p.id in s.roles {
      var i :| 0 <= i < |peers| && peers[i] == p;
      assert ords[i] in s.running && IsCaptured(s.secret, ords[i]);
    }
    if |peers| >= expected {
      forall id | id in s.roles ensures id in PeerIds(peers) {
        var o: nat :| o < n && nodeId(Stored(s.secret, o).pub) == id;
        DistinctCoversAll(ords, n, o);
        var i :| 0 <= i < |ords| && ords[i] == o;
        assert peers[i] in peers && peers[i].id == id;
      }
    }
    HeadIsMember(changes);
  }

  /** Once every ordinal is captured and assigned, any number of recycles, restarts, captures and
      layout passes later every layout pass still computes the empty change set, however few
      replicas answer it, and the roles are what they were. */
  lemma {:induction false} StableIdentityFixesLayout(
      ss: seq<Store>, nodeId: Bytes -> string, es: seq<Event>, n: nat, k: nat)
    requires IsRun(ss, nodeId, es) && k < |ss| && Established(ss[0], nodeId, n)
    requires forall i, o :: 0 <= i < |ss| && o in ss[i].running ==> o < n
    requires forall i :: 0 <= i < |es| && es[i].LayoutPass? ==> es[i].expected == n
    ensures Established(ss[k], nodeId, n) && ss[k].roles == ss[0].roles
    ensures k > 0 && es[k - 1].LayoutPass? ==> es[k - 1].changes == []
  {
    if k > 0 {
      StableIdentityFixesLayout(ss, nodeId, es, n, k - 1);
      var s, t := ss[k - 1], ss[k];
      assert Happens(ss[k - 1], nodeId, es[k - 1], ss[k - 1 + 1]);
      StepKeepsInv(s, nodeId, es[k - 1], t);
      forall o: nat | o < n ensures IsCaptured(t.secret, o) && Stored(t.secret, o) == Stored(s.secret, o) {
        StepKeepsIdentity(s, nodeId, es[k - 1], t, o);
      }
      if es[k - 1].LayoutPass? {
        EstablishedLayoutNeedsNothing(s, nodeId, n, es[k - 1].ords, es[k - 1].peers, n, es[k - 1].capacity,
            es[k - 1].changes);
      }
      assert IdsOf(t.secret, nodeId, n) == IdsOf(s.secret, nodeId, n);
    }
  }
}
