/** What the status of a BucketAccess records and when
    (images/controller/internal/controller/bucket_access_controller.go): rotations, revocations, and
    the release of the finalizer. */
module CredentialRecords {
  import opened CredentialSafety
  import opened Credentials
  import opened Remote
  import opened Wrappers

  // --- Which way a pass goes -----------------------------------------------------------

  /** On what is read: an authorised, bound access of a resolvable bucket goes on to the driver when the
      bucket is Ready and waits when it is not; a claim that is there is otherwise withdrawn from, unless
      the authorisation of a known bucket could not be decided. */
  lemma ViewDecides(v: View)
    requires v.claim.ClaimSeen?
    ensures var known := v.claim.hasBoundName && v.bucketFound;
            var granted := known && v.storeFound && v.claim.bound && v.authorization == Allowed;
            && (Usable(v) <==> granted && v.bucketReady)
            && (Unhealthy(v) <==> granted && !v.bucketReady)
            && (Withdrawn(v) <==> !granted && !(known && v.authorization == AuthorizationError))
            && (Resolved(v) <==> known && v.storeFound)
  {
  }

  /** The driver has a key for the access exactly when its admin API and the bucket answer, the key in use
      is known to be live or created, the grant succeeds, and a superseded key is confirmed revoked; it
      only waits for an admin token or a bucket that is not there yet; everything else is an error. */
  lemma DriverAnswers(b: Backend, recorded: KeyId, mintFresh: bool, c: Calls)
    requires Issuable(b, c.minted)
    ensures var state := EnsureAccessSpec(b, recorded, mintFresh, c).state;
            var mints := mintFresh || recorded == "" || recorded !in b.keys;
            && (state.ready <==>
                  && c.admin == AdminReady && c.bucketLookup == Found && c.grantOk
                  && (mintFresh || recorded == "" || c.keyLookupOk)
                  && (mints ==> c.create == Confirmed)
                  && (mints && recorded != "" && recorded != c.minted.id ==> c.revoke == Confirmed))
            && (state.ready ==> state.keyId == if mints then c.minted.id else recorded)
            && (!state.ready && !state.failed <==>
                  c.admin == AdminNotProvisioned || (c.admin == AdminReady && c.bucketLookup == Absent))
            && !(state.ready && state.failed)
  {
  }

  // --- What is recorded ------------------------------------------------------------------

  /** A pass leaves the recorded rotation and Secret reference alone, and then records at most the key it
      just minted; or it ends Ready over a Secret with the recorded key, the rotation of the moment
      observed; or it clears everything together with the Secret. */
  lemma PassRecords(w: World, v: View, c: Calls)
    requires Issuable(w.backend, c.minted)
    ensures var w' := PassSpec(w, v, c);
            || (&& w'.status.observedRotation == w.status.observedRotation
                && w'.status.hasSecretRef == w.status.hasSecretRef
                && (w'.status.keyId == w.status.keyId || (w'.status.keyId == c.minted.id && Mints(w, v, c)))
                && (w'.status.ready ==> w.status.ready && w'.status == w.status))
            || (&& w'.status == Status(w'.status.keyId, true, w.rotation, true)
                && w'.secret.Some? && (w'.status.keyId != "" ==> w'.secret.value.id == w'.status.keyId))
            || (w'.status == Status("", false, "", false) && w'.secret == None)
  {
    PassIsOneOf(w, v, c);
    if Usable(v) && v.driverKnown {
      GrantRecords(w, v, c);
    }
  }

  lemma GrantRecords(w: World, v: View, c: Calls)
    requires Usable(v) && v.driverKnown && Issuable(w.backend, c.minted)
    ensures var w' := GrantSpec(w, c);
            || (&& w'.status.observedRotation == w.status.observedRotation
                && w'.status.hasSecretRef == w.status.hasSecretRef
                && (w'.status.keyId == w.status.keyId || (w'.status.keyId == c.minted.id && Mints(w, v, c)))
                && (w'.status.ready ==> w.status.ready && w'.status == w.status))
            || (&& w'.status == Status(w'.status.keyId, true, w.rotation, true)
                && w'.secret.Some? && w'.secret.value.id == w'.status.keyId)
  {
    if c.secretReadOk {
      var e := EnsureAccessSpec(w.backend, w.status.keyId, MintFresh(w), c);
      AnswerKeys(w, v, c);
      RecordRecords(w, e, c);
    }
  }

  lemma AnswerKeys(w: World, v: View, c: Calls)
    requires Usable(v) && v.driverKnown && Issuable(w.backend, c.minted) && c.secretReadOk
    ensures var state := EnsureAccessSpec(w.backend, w.status.keyId, MintFresh(w), c).state;
            && (state.ready && !state.failed <==> state.keyId != "")
            && (state.keyId in {"", w.status.keyId} || (state.keyId == c.minted.id && Mints(w, v, c)))
  {
  }

  lemma RecordRecords(w: World, e: Ensured, c: Calls)
    requires e.state.ready && !e.state.failed <==> e.state.keyId != ""
    ensures var w' := RecordSpec(w, e, c);
            || (&& w'.status.observedRotation == w.status.observedRotation
                && w'.status.hasSecretRef == w.status.hasSecretRef
                && w'.status.keyId in {w.status.keyId, e.state.keyId}
                && (w'.status.keyId == "" ==> w.status.keyId == "")
                && (w'.status.ready ==> w.status.ready && w'.status == w.status))
            || (&& w'.status == Status(e.state.keyId, true, w.rotation, true)
                && w'.secret.Some? && w'.secret.value.id == e.state.keyId)
  {
  }

  // --- Readiness ------------------------------------------------------------------------------

  /** The pass ends without writing any condition, or its status write fails: the claim or the Secret
      cannot be read, or the Secret of a withdrawn access cannot be deleted. */
  predicate WritesNoCondition(w: World, v: View, c: Calls) {
    || c.statusWrite == Failed
    || v.claim == ClaimUnreadable
    || (Usable(v) && v.driverKnown && !c.secretReadOk)
    || (&& Withdrawn(v) && w.status.keyId != "" && c.secretDelete != Confirmed
        && !(&& Resolved(v) && v.driverKnown
             && (c.admin == AdminError || (c.admin == AdminReady && c.revoke != Confirmed))))
  }

  /** The pass gets a key from the driver and the Secret write is confirmed. */
  predicate Completes(w: World, v: View, c: Calls) {
    && Usable(v) && v.driverKnown && c.secretReadOk && c.secretWrite == Confirmed
    && EnsureAccessSpec(w.backend, w.status.keyId, MintFresh(w), c).state.ready
  }

  /** An access is Ready after a pass exactly when the pass completes; every other pass that writes
      conditions takes Ready back, and one that writes none leaves it. */
  lemma PassReadyIff(w: World, v: View, c: Calls)
    requires Issuable(w.backend, c.minted)
    ensures PassSpec(w, v, c).status.ready <==>
            if WritesNoCondition(w, v, c) then w.status.ready else Completes(w, v, c)
    ensures WritesNoCondition(w, v, c) ==> PassSpec(w, v, c).status == w.status
  {
    DriverAnswers(w.backend, w.status.keyId, MintFresh(w), c);
    if Usable(v) && v.driverKnown {
      GrantReadyIff(w, v, c);
    }
  }

  lemma GrantReadyIff(w: World, v: View, c: Calls)
    requires Usable(v) && v.driverKnown && Issuable(w.backend, c.minted)
    ensures GrantSpec(w, c).status.ready <==>
            if WritesNoCondition(w, v, c) then w.status.ready else Completes(w, v, c)
    ensures WritesNoCondition(w, v, c) ==> GrantSpec(w, c).status == w.status
  {
    DriverAnswers(w.backend, w.status.keyId, MintFresh(w), c);
  }

  // --- Rotations -----------------------------------------------------------------------------

  /** The rotation asked for has been carried out with this key: it is live, recorded and in the Secret. */
  ghost predicate Serves(w: World, minted: Credential) {
    && w.status.keyId == minted.id && minted.id in w.backend.keys
    && w.secret == Some(minted) && w.status.hasSecretRef && w.status.observedRotation == w.rotation
  }

  /** The annotation differs from the rotation last carried out. */
  predicate Pending(w: World) {
    w.rotation != w.status.observedRotation
  }

  /** Nothing is granted or recorded. */
  ghost predicate Cleared(w: World) {
    w.status == Status("", false, "", false) && w.secret == None
  }

  /** Whatever calls fail, a changed annotation is recorded as observed only together with the key minted
      for it, unless everything is cleared. */
  lemma RotationObservedOnlyWithItsKey(w: World, v: View, c: Calls)
    requires Sound(w) && Issuable(w.backend, c.minted) && Pending(w)
    requires !Pending(PassSpec(w, v, c))
    ensures var w' := PassSpec(w, v, c); Cleared(w') || Serves(w', c.minted)
  {
    PassIsOneOf(w, v, c);
  }

  /** And a flawless pass over a usable access does mint for it. */
  lemma FlawlessPassServes(w: World, v: View, c: Calls)
    requires Sound(w) && Issuable(w.backend, c.minted) && Pending(w) && Healthy(v) && AllOk(c)
    ensures Serves(PassSpec(w, v, c), c.minted) && PassSpec(w, v, c).status.ready
    ensures w.status.keyId !in PassSpec(w, v, c).backend.keys
  {
  }

  /** Nothing but the passes of the controller touches what is recorded, and the annotation stays; each
      pass would mint an id never issued before. */
  predicate KeepsAnnotation(s: Cluster, run: seq<Step>)
    decreases run
  {
    run != [] ==>
      && !run[0].Rotate? && (run[0].AccessPass? ==> Issuable(s.world.backend, run[0].calls.minted))
      && KeepsAnnotation(After(s, run[0]), run[1..])
  }

  /** Some pass of the run carries the rotation out, or withdraws the access and clears its record. */
  ghost predicate Settles(s: Cluster, run: seq<Step>)
    decreases run
  {
    run != [] && (SettlesBy(s, run[0]) || Settles(After(s, run[0]), run[1..]))
  }

  ghost predicate SettlesBy(s: Cluster, e: Step) {
    e.AccessPass? && var w := After(s, e).world; Cleared(w) || Serves(w, e.calls.minted)
  }

  lemma StepKeepsPending(s: Cluster, e: Step)
    requires Sound(s.world) && Pending(s.world) && !e.Rotate?
    requires e.AccessPass? ==> Issuable(s.world.backend, e.calls.minted)
    ensures Sound(After(s, e).world)
    ensures Pending(After(s, e).world) || SettlesBy(s, e)
  {
    if e.AccessPass? && s.access.Some? && !s.access.value.deleting {
      PassKeepsSound(s.world, e.view, e.calls);
      if !Pending(PassSpec(s.world, e.view, e.calls)) {
        RotationObservedOnlyWithItsKey(s.world, e.view, e.calls);
      }
    }
  }

  /** A changed annotation stays pending, whatever fails and whoever edits the Secret or loses the key,
      until a pass mints for it or withdraws the access. */
  lemma {:induction false} PendingUntilSettled(s: Cluster, run: seq<Step>)
    requires Sound(s.world) && Pending(s.world) && KeepsAnnotation(s, run)
    ensures Pending(Run(s, run).world) || Settles(s, run)
    decreases run
  {
    if run != [] {
      StepKeepsPending(s, run[0]);
      if Pending(After(s, run[0]).world) {
        PendingUntilSettled(After(s, run[0]), run[1..]);
      }
    }
  }

  // --- The release of the finalizer ---------------------------------------------------------------

  /** Exactly when a deletion pass lets the access go: its own update takes effect, and the claim is gone,
      or nothing resolvable is bound, or there is nothing to revoke or nobody to revoke it with, or the
      revoke is confirmed. */
  lemma DeletionReleasesIff(b: Backend, recorded: KeyId, v: View, c: Calls)
    ensures DeletionSpec(b, recorded, v, c).released <==>
              && c.statusWrite != Failed
              && (|| v.claim == ClaimMissing
                  || (&& v.claim != ClaimUnreadable && v.claim != ClaimMissing
                      && (|| !v.claim.hasBoundName || !v.bucketFound || !v.storeFound
                          || (&& v.driverKnown
                              && (|| recorded == "" || c.admin == AdminGone || c.admin == AdminNotProvisioned
                                  || (c.admin == AdminReady && c.revoke == Confirmed))))))
  {
  }

  /** An undisturbed deletion pass over a resolvable bucket lets an orphan-free access go, and no key is
      left. */
  lemma UndisturbedDeletionReleases(s: Cluster, v: View, c: Calls, added: bool)
    requires Sound(s.world) && NoOrphan(s.world) && s.access.Some? && s.access.value.deleting
    requires v.claim.ClaimSeen? && Resolved(v) && v.driverKnown && AllOk(c)
    ensures var t := After(s, AccessPass(v, c, added));
            t.access == None && t.world.backend.keys == map[]
  {
    assert "" !in s.world.backend.keys;
    DeletionReleasesIff(s.world.backend, s.world.status.keyId, v, c);
    assert After(s, AccessPass(v, c, added)).world.backend.keys.Keys == {};
  }
}
