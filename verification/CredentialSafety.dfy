/** What the credential lifecycle keeps over whole runs: no orphan backend keys, and agreement of
    Secret, status and backend. */
module CredentialSafety {
  import opened Remote
  import opened Wrappers
  import opened Credentials

  // --- What always holds -------------------------------------------------------------

  /** Live keys were issued, with the same secret; what is recorded was issued. */
  ghost predicate Sound(w: World) {
    && SoundBackend(w.backend)
    && (w.status.keyId == "" || w.status.keyId in w.backend.issued)
  }

  ghost predicate SoundBackend(b: Backend) {
    && (forall k :: k in b.keys ==> k in b.issued && b.keys[k] == b.issued[k])
    && "" !in b.issued
  }

  /** Issued credentials stay on record. */
  ghost predicate Extends(b: Backend, b': Backend) {
    forall k :: k in b.issued ==> k in b'.issued && b'.issued[k] == b.issued[k]
  }

  lemma EnsureKeepsSound(b: Backend, recorded: KeyId, mintFresh: bool, c: Calls)
    requires SoundBackend(b) && Issuable(b, c.minted) && (recorded == "" || recorded in b.issued)
    ensures var e := EnsureAccessSpec(b, recorded, mintFresh, c);
            && SoundBackend(e.backend) && Extends(b, e.backend)
            && (e.state.keyId == "" || e.state.keyId in e.backend.issued)
            && (e.state.ready ==> e.state.keyId != "")
  {
  }

  lemma RecordKeepsSound(w: World, e: Ensured, c: Calls)
    requires Sound(w) && SoundBackend(e.backend) && Extends(w.backend, e.backend)
    requires e.state.keyId == "" || e.state.keyId in e.backend.issued
    ensures Sound(RecordSpec(w, e, c)) && RecordSpec(w, e, c).backend == e.backend
  {
  }

  lemma WithdrawKeepsSound(w: World, v: View, c: Calls)
    requires Sound(w)
    ensures Sound(WithdrawSpec(w, v, c)) && WithdrawSpec(w, v, c).backend.issued == w.backend.issued
    ensures Sound(VanishedSpec(w, c)) && VanishedSpec(w, c).backend == w.backend
  {
  }

  lemma PassKeepsSound(w: World, v: View, c: Calls)
    requires Sound(w) && Issuable(w.backend, c.minted)
    ensures Sound(PassSpec(w, v, c)) && Extends(w.backend, PassSpec(w, v, c).backend)
  {
    PassIsOneOf(w, v, c);
    var w' := PassSpec(w, v, c);
    if w' == GrantSpec(w, c) {
      EnsureKeepsSound(w.backend, w.status.keyId, MintFresh(w), c);
      RecordKeepsSound(w, EnsureAccessSpec(w.backend, w.status.keyId, MintFresh(w), c), c);
    } else if w' == WithdrawSpec(w, v, c) || w' == VanishedSpec(w, c) {
      WithdrawKeepsSound(w, v, c);
    }
  }

  lemma PassIsOneOf(w: World, v: View, c: Calls)
    ensures PassSpec(w, v, c) in [w, Saved(w, NotReady(w.status), c), VanishedSpec(w, c), WithdrawSpec(w, v, c),
            GrantSpec(w, c)]
  {
  }

  /** Every live key of the access is the recorded one. */
  ghost predicate NoOrphan(w: World) {
    w.backend.keys.Keys <= {w.status.keyId}
  }

  // --- Exactly when a pass strands a key -----------------------------------------------

  predicate Mints(w: World, v: View, c: Calls) {
    && Usable(v) && v.driverKnown && c.secretReadOk
    && Decides(w.status.keyId, MintFresh(w), c)
    && NeedsKey(w.backend, w.status.keyId, MintFresh(w)) && c.create.Acts()
  }

  /** After a mint: a creation whose answer is lost, a refused grant whose rollback fails, a superseded
      key whose revoke is not confirmed, or a status write that fails. */
  predicate StrandsMinted(w: World, c: Calls) {
    if c.create.Lost? then true
    else if !c.grantOk then c.rollback.Failed?
    else (Supersedes(w.status.keyId, c) && !c.revoke.Confirmed?) || c.statusWrite.Failed?
  }

  /** The status is cleared although the backend was never asked to revoke a live key: the claim
      is gone, or Bucket, store or driver do not resolve, or the store has no admin token. */
  predicate SkipsRevocation(w: World, v: View, c: Calls) {
    && w.status.keyId in w.backend.keys && c.secretDelete.Confirmed? && c.statusWrite.Acts()
    && (v.claim.ClaimMissing?
        || (Withdrawn(v) && (!Resolved(v) || !v.driverKnown || c.admin.AdminGone? || c.admin.AdminNotProvisioned?)))
  }

  /** A pass over an orphan-free access leaves an orphan in exactly these cases. */
  lemma PassOrphansIff(w: World, v: View, c: Calls)
    requires Sound(w) && Issuable(w.backend, c.minted) && NoOrphan(w)
    ensures NoOrphan(PassSpec(w, v, c)) <==> !(Mints(w, v, c) && StrandsMinted(w, c)) && !SkipsRevocation(w, v, c)
  {
    var w' := PassSpec(w, v, c);
    if Mints(w, v, c) {
      MintedPass(w, v, c);
    } else if v.claim.ClaimMissing? || Withdrawn(v) {
      WithdrawnPass(w, v, c);
    } else {
      assert w'.backend == w.backend;
    }
  }

  lemma MintedPass(w: World, v: View, c: Calls)
    requires Sound(w) && Issuable(w.backend, c.minted) && NoOrphan(w) && Mints(w, v, c)
    ensures NoOrphan(PassSpec(w, v, c)) <==> !StrandsMinted(w, c)
    ensures !SkipsRevocation(w, v, c)
  {
    var w' := PassSpec(w, v, c);
    var old_, new_ := w.status.keyId, c.minted.id;
    assert new_ !in w.backend.keys && old_ != new_;
    if c.create.Lost? || (c.grantOk && Supersedes(old_, c) && !c.revoke.Confirmed?) {
      assert new_ in w'.backend.keys;
    } else if c.grantOk {
      assert w'.backend.keys.Keys == {new_};
    } else {
      assert c.rollback.Acts() ==> w'.backend.keys.Keys == w.backend.keys.Keys;
      assert c.rollback.Failed? ==> new_ in w'.backend.keys;
    }
  }

  lemma WithdrawnPass(w: World, v: View, c: Calls)
    requires Sound(w) && NoOrphan(w) && (v.claim.ClaimMissing? || Withdrawn(v))
    ensures NoOrphan(PassSpec(w, v, c)) <==> !SkipsRevocation(w, v, c)
  {
    var w' := PassSpec(w, v, c);
    assert w'.backend.keys.Keys <= w.backend.keys.Keys;
    if SkipsRevocation(w, v, c) {
      assert w.status.keyId in w'.backend.keys;
    }
  }

  /** Every call of the pass succeeds. */
  predicate AllOk(c: Calls) {
    && c.admin.AdminReady? && c.bucketLookup.Found? && c.keyLookupOk && c.create.Confirmed? && c.grantOk
        && c.rollback.Confirmed?
    && c.revoke.Confirmed? && c.secretReadOk && c.secretWrite.Confirmed? && c.secretDelete.Confirmed?
        && c.statusWrite.Confirmed?
  }

  predicate Healthy(v: View) {
    Usable(v) && v.driverKnown
  }

  // --- Access and claim together -------------------------------------------------------

  datatype AccessObject = AccessObject(finalizer: bool, deleting: bool)

  datatype ClaimObject = ClaimObject(boundName: string, finalizer: bool, deleting: bool)

  /** `access` is None once the object is gone; `world` keeps its backend keys in view. */
  datatype Cluster = Cluster(world: World, access: Option<AccessObject>, claim: Option<ClaimObject>)

  datatype Step =
    | AccessPass(view: View, calls: Calls, finalizerAdded: bool)
    | ClaimPass(bind: string, finalizerAdded: bool, statusWriteOk: bool)
    | DeleteAccessObject
    | DeleteClaimObject
    | CreateClaimObject
    | Rotate(value: string)
    | EditSecret(secret: Option<Credential>)
    | KeyVanishes(id: KeyId)

  /** The access controller. */
  function AfterAccessPass(s: Cluster, v: View, c: Calls, finalizerAdded: bool): Cluster {
    if s.access.None? then s
    else if s.access.value.deleting then
      var d := DeletionSpec(s.world.backend, s.world.status.keyId, v, c);
      s.(world := s.world.(backend := d.backend), access := if d.released then None else s.access)
    else if !s.access.value.finalizer && !finalizerAdded then s
    else s.(world := PassSpec(s.world, v, c), access := Some(s.access.value.(finalizer := true)))
  }

  /** The claim controller: the finalizer is held while any access references the claim, and the
      bound name is only ever set. */
  function AfterClaimPass(s: Cluster, bind: string, finalizerAdded: bool, statusWriteOk: bool): Cluster {
    if s.claim.None? then s
    else
      var k := s.claim.value;
      if k.deleting then (if s.access.Some? then s else s.(claim := None))
      else if !k.finalizer && !finalizerAdded then s
      else
        var name := if bind != "" && statusWriteOk then bind else k.boundName;
        s.(claim := Some(k.(finalizer := true, boundName := name)))
  }

  function After(s: Cluster, e: Step): Cluster {
    match e
    case AccessPass(v, c, added) => AfterAccessPass(s, v, c, added)
    case ClaimPass(bind, added, ok) => AfterClaimPass(s, bind, added, ok)
    case DeleteAccessObject =>
      if s.access.None? then s
      else if s.access.value.finalizer then s.(access := Some(s.access.value.(deleting := true)))
      else s.(access := None)
    case DeleteClaimObject =>
      if s.claim.None? then s
      else if s.claim.value.finalizer then s.(claim := Some(s.claim.value.(deleting := true)))
      else s.(claim := None)
    case CreateClaimObject => if s.claim.None? then s.(claim := Some(ClaimObject("", false, false))) else s
    case Rotate(r) => s.(world := s.world.(rotation := r))
    case EditSecret(secret) => s.(world := s.world.(secret := secret))
    case KeyVanishes(id) => s.(world :=
        s.world.(backend := Backend(s.world.backend.keys - {id}, s.world.backend.issued)))
  }

  function Run(s: Cluster, run: seq<Step>): Cluster
    decreases run
  {
    if run == [] then s else Run(After(s, run[0]), run[1..])
  }

  /** A pass sees the claim as it is, or fails to read it. */
  predicate SeesClaim(s: Cluster, v: View) {
    || v.claim.ClaimUnreadable?
    || (s.claim.None? && v.claim.ClaimMissing?)
    || (s.claim.Some? && v.claim.ClaimSeen? && v.claim.hasBoundName == (s.claim.value.boundName != ""))
  }

  /** The fault model: a bound Bucket and its store stay resolvable; revokes are confirmed, rollbacks
      and status writes take effect, and no creation loses its answer. Lookups, creation, grants,
      Secret reads, writes and deletes may fail, and so may any call to the admin API as a whole.
      Users may rotate, delete any object and edit or delete the Secret, and keys may vanish. */
  predicate Faults(v: View, c: Calls) {
    && (v.claim.ClaimSeen? && v.claim.hasBoundName ==> v.bucketFound && v.storeFound)
    && v.driverKnown && !c.admin.AdminGone? && !c.admin.AdminNotProvisioned?
    && !c.create.Lost? && c.revoke.Confirmed? && c.rollback.Acts() && c.statusWrite.Acts()
  }

  predicate Admissible(s: Cluster, e: Step) {
    e.AccessPass? ==> SeesClaim(s, e.view) && Faults(e.view, e.calls) && Issuable(s.world.backend, e.calls.minted)
  }

  predicate AdmissibleRun(s: Cluster, run: seq<Step>)
    decreases run
  {
    run != [] ==> Admissible(s, run[0]) && AdmissibleRun(After(s, run[0]), run[1..])
  }

  ghost predicate Inv(s: Cluster) {
    && Sound(s.world) && NoOrphan(s.world)
    && (s.claim.Some? && s.claim.value.boundName != "" ==> s.claim.value.finalizer)
    && (s.access.Some? && s.world.status.keyId != "" ==>
          s.access.value.finalizer && s.claim.Some? && s.claim.value.boundName != "")
    && (s.access.None? ==> s.world.backend.keys == map[])
  }

  lemma AccessPassKeepsInv(s: Cluster, e: Step)
    requires Inv(s) && e.AccessPass? && Admissible(s, e)
    ensures Inv(After(s, e))
  {
    if s.access.Some? {
      if s.access.value.deleting {
        DeletionKeepsInv(s, e);
      } else {
        PassOrphansIff(s.world, e.view, e.calls);
        PassKeepsSound(s.world, e.view, e.calls);
        RecordsOnlyWhenResolved(s.world, e.view, e.calls);
      }
    }
  }

  lemma RecordsOnlyWhenResolved(w: World, v: View, c: Calls)
    requires Sound(w)
    ensures PassSpec(w, v, c).status.keyId != "" ==> w.status.keyId != "" || Resolved(v)
  {
  }

  lemma DeletionKeepsInv(s: Cluster, e: Step)
    requires Inv(s) && e.AccessPass? && Admissible(s, e) && s.access.Some? && s.access.value.deleting
    ensures Inv(After(s, e))
  {
    var w := s.world;
    var d := DeletionSpec(w.backend, w.status.keyId, e.view, e.calls);
    assert d.backend.keys.Keys <= w.backend.keys.Keys;
    if d.released {
      if w.status.keyId == "" {
        assert "" !in w.backend.keys;
      } else {
        assert Resolved(e.view);
      }
      assert d.backend.keys == map[];
    }
  }

  lemma StepKeepsInv(s: Cluster, e: Step)
    requires Inv(s) && Admissible(s, e)
    ensures Inv(After(s, e))
  {
    if e.AccessPass? {
      AccessPassKeepsInv(s, e);
    } else if e.DeleteAccessObject? && s.access.Some? && !s.access.value.finalizer {
      assert "" !in s.world.backend.keys;
      assert s.world.backend.keys == map[];
    }
  }

  lemma {:induction false} RunKeepsInv(s: Cluster, run: seq<Step>)
    requires Inv(s) && AdmissibleRun(s, run)
    ensures Inv(Run(s, run))
    decreases run
  {
    if run != [] {
      StepKeepsInv(s, run[0]);
      RunKeepsInv(After(s, run[0]), run[1..]);
    }
  }

  const NEW_STATUS := Status("", false, "", false)

  /** A new access: nothing issued, nothing recorded, whatever the claim's state. */
  ghost predicate JustCreated(s: Cluster) {
    && s.world.backend == Backend(map[], map[]) && s.world.status == NEW_STATUS
    && s.access == Some(AccessObject(false, false))
    && (s.claim.Some? && s.claim.value.boundName != "" ==> s.claim.value.finalizer)
  }

  /** No orphan keys: over any run under the fault model, the live backend keys of an access are
      at most its recorded key, and none are left once its finalizer is released. */
  lemma NoOrphanKeys(s: Cluster, run: seq<Step>)
    requires JustCreated(s) && AdmissibleRun(s, run)
    ensures Run(s, run).world.backend.keys.Keys <= {Run(s, run).world.status.keyId}
    ensures Run(s, run).access.None? ==> Run(s, run).world.backend.keys == map[]
  {
    RunKeepsInv(s, run);
  }

  /** The fault model needs confirmed revokes: a new access is granted a key, its owner rotates it, and
      the revoke of the superseded key fails; two keys are then live and only the old one is
      recorded. */
  lemma FailedRevokeStrandsAKey(s: Cluster, v: View, first: Calls, rotation: string, second: Calls)
    requires JustCreated(s) && Healthy(v) && rotation != s.world.rotation
    requires AllOk(first) && Issuable(s.world.backend, first.minted)
    requires AllOk(second.(revoke := Confirmed)) && second.revoke.Failed?
    requires Issuable(s.world.backend, second.minted) && second.minted.id != first.minted.id
    ensures var run := [AccessPass(v, first, true), Rotate(rotation), AccessPass(v, second, true)];
            var w := Run(s, run).world;
            && w.backend.keys.Keys == {first.minted.id, second.minted.id}
            && w.status.keyId == first.minted.id && !NoOrphan(w)
  {
    var e1, e2, e3 := AccessPass(v, first, true), Rotate(rotation), AccessPass(v, second, true);
    var s1 := After(s, e1);
    FirstGrant(s.world, v, first);
    assert s1.world == PassSpec(s.world, v, first) && s1.access == Some(AccessObject(true, false));
    var w2 := s1.world.(rotation := rotation);
    RotationWithoutRevoke(w2, v, second);
    ThreeSteps(s, e1, e2, e3);
    var w := PassSpec(w2, v, second);
    assert second.minted.id in w.backend.keys;
  }

  lemma RunStep(s: Cluster, e: Step, rest: seq<Step>)
    ensures Run(s, [e] + rest) == Run(After(s, e), rest)
  {
    assert ([e] + rest)[1..] == rest;
  }

  lemma ThreeSteps(s: Cluster, e1: Step, e2: Step, e3: Step)
    ensures Run(s, [e1, e2, e3]) == After(After(After(s, e1), e2), e3)
  {
    RunStep(s, e1, [e2, e3]);
    RunStep(After(s, e1), e2, [e3]);
    RunStep(After(After(s, e1), e2), e3, []);
    assert [e1] + [e2, e3] == [e1, e2, e3] && [e2] + [e3] == [e2, e3] && [e3] + [] == [e3];
  }

  lemma FirstGrant(w: World, v: View, c: Calls)
    requires w.backend == Backend(map[], map[]) && w.status == NEW_STATUS && Healthy(v) && AllOk(c)
    requires Issuable(w.backend, c.minted)
    ensures var w' := PassSpec(w, v, c);
            && w'.backend == Backend(map[c.minted.id := c.minted.secretKey], map[c.minted.id := c.minted.secretKey])
            && w'.status == Status(c.minted.id, true, w.rotation, true) && w'.secret.Some?
  {
  }

  lemma RotationWithoutRevoke(w: World, v: View, c: Calls)
    requires w.status.keyId != "" && w.rotation != w.status.observedRotation && Healthy(v)
    requires AllOk(c.(revoke := Confirmed)) && c.revoke.Failed? && c.minted.id != w.status.keyId
    ensures var w' := PassSpec(w, v, c);
            && w'.backend.keys == w.backend.keys[c.minted.id := c.minted.secretKey]
            && w'.status.keyId == w.status.keyId
  {
  }
}
