/** Secret, status and backend agree; outages do not rotate; rotations happen once; withdrawal
    leaves nothing behind. */
module CredentialAgreement {
  import opened Remote
  import opened Wrappers
  import opened Credentials
  import opened CredentialSafety

  // --- Secret agreement ------------------------------------------------------------------

  /** The Secret, if there is one and a key is recorded, holds that key and the secret the backend
      issued for it. */
  ghost predicate Consistent(w: World) {
    w.status.keyId == "" || w.secret.None?
    || (w.status.keyId in w.backend.issued
        && w.secret.value == Credential(w.status.keyId, w.backend.issued[w.status.keyId]))
  }

  /** A key is minted, granted and the old one revoked: it goes on to Secret and status. */
  predicate MintsThrough(w: World, v: View, c: Calls) {
    Mints(w, v, c) && c.create.Confirmed? && c.grantOk && (Supersedes(w.status.keyId, c) ==> c.revoke.Confirmed?)
  }

  /** The recorded key is kept, and the Secret rewritten with the secret it held. */
  predicate Rewrites(w: World, v: View, c: Calls) {
    && Usable(v) && v.driverKnown && c.secretReadOk && Decides(w.status.keyId, MintFresh(w), c)
    && !NeedsKey(w.backend, w.status.keyId, MintFresh(w)) && c.grantOk && c.secretWrite.Acts()
  }

  /** The Secret of a withdrawn or claimless access is deleted. */
  predicate DropsSecret(w: World, v: View, c: Calls) {
    && w.status.keyId != "" && c.secretDelete.Acts()
    && (v.claim.ClaimMissing? || (Withdrawn(v) && !RevocationFails(w, v, c)))
  }

  predicate RevocationFails(w: World, v: View, c: Calls) {
    Resolved(v) && v.driverKnown && DeleteAccessSpec(w.backend, w.status.keyId, c).failed
  }

  /** The Secret carries the secret that the backend issued for the recorded key. */
  ghost predicate SecretMatchesKey(w: World) {
    && w.secret.Some? && w.status.keyId in w.backend.issued
    && w.secret.value.secretKey == w.backend.issued[w.status.keyId]
  }

  /** What decides whether Secret and status agree after a pass, from what is there before it and which
      calls take effect: a minted key has to reach both, unless the side it misses was empty; a rewrite
      needs the stored secret to be the recorded key's; deleting the Secret settles it; and every other
      pass leaves things as they were. */
  ghost predicate AgreesAfter(w: World, v: View, c: Calls) {
    if MintsThrough(w, v, c) then
      if c.secretWrite.Acts() then c.statusWrite.Acts() || w.status.keyId == ""
      else if c.statusWrite.Acts() then w.secret.None? || w.secret.value == c.minted
      else Consistent(w)
    else if Rewrites(w, v, c) then SecretMatchesKey(w)
    else DropsSecret(w, v, c) || Consistent(w)
  }

  /** Exactly when Secret and status agree after a pass, whether or not they did before. */
  lemma PassConsistentIff(w: World, v: View, c: Calls)
    requires Sound(w) && Issuable(w.backend, c.minted)
    ensures Consistent(PassSpec(w, v, c)) <==> AgreesAfter(w, v, c)
  {
    if Usable(v) && v.driverKnown {
      GrantConsistentIff(w, v, c);
    } else if v.claim.ClaimMissing? || Withdrawn(v) {
      WithdrawConsistentIff(w, v, c);
    }
  }

  lemma WithdrawConsistentIff(w: World, v: View, c: Calls)
    requires v.claim.ClaimMissing? || Withdrawn(v)
    ensures Consistent(PassSpec(w, v, c)) <==> DropsSecret(w, v, c) || Consistent(w)
  {
  }

  lemma GrantConsistentIff(w: World, v: View, c: Calls)
    requires Sound(w) && Issuable(w.backend, c.minted) && Usable(v) && v.driverKnown
    ensures Consistent(GrantSpec(w, c)) <==> AgreesAfter(w, v, c)
  {
    assert c.minted.id != w.status.keyId;
    if MintsThrough(w, v, c) {
      MintedConsistentIff(w, v, c);
    }
  }

  lemma MintedConsistentIff(w: World, v: View, c: Calls)
    requires Sound(w) && Issuable(w.backend, c.minted) && MintsThrough(w, v, c)
    ensures Consistent(GrantSpec(w, c)) <==> AgreesAfter(w, v, c)
  {
    assert c.minted.id != w.status.keyId;
  }

  /** Ready is only claimed with a key recorded and a Secret written. */
  ghost predicate ReadyInv(w: World) {
    w.status.ready ==> w.status.keyId != "" && w.secret.Some?
  }

  /** Secret and status writes take effect, and a Secret is not deleted without an answer. */
  predicate Recorded(c: Calls) {
    c.secretWrite.Acts() && c.statusWrite.Acts() && !c.secretDelete.Lost?
  }

  lemma PassKeepsReadyInv(w: World, v: View, c: Calls)
    requires Sound(w) && Issuable(w.backend, c.minted) && ReadyInv(w) && Recorded(c)
    ensures ReadyInv(PassSpec(w, v, c))
  {
    PassIsOneOf(w, v, c);
    EnsureKeepsSound(w.backend, w.status.keyId, MintFresh(w), c);
  }

  /** A pass that ends Ready by its own doing leaves the recorded key live. */
  lemma ReadyPassLeavesLiveKey(w: World, v: View, c: Calls)
    requires Sound(w) && Issuable(w.backend, c.minted)
    requires PassSpec(w, v, c).status.ready && !w.status.ready
    ensures PassSpec(w, v, c).status.keyId in PassSpec(w, v, c).backend.keys
  {
    PassIsOneOf(w, v, c);
  }

  /** The fault model of the agreement: Secret and status writes take effect and nobody else edits the
      Secret; everything else, revokes and rollbacks included, may fail or lose its answer. */
  predicate WritesSucceed(s: Cluster, e: Step) {
    !e.EditSecret? && (e.AccessPass? ==> Recorded(e.calls) && Issuable(s.world.backend, e.calls.minted))
  }

  predicate WritesSucceedThroughout(s: Cluster, run: seq<Step>)
    decreases run
  {
    run != [] ==> WritesSucceed(s, run[0]) && WritesSucceedThroughout(After(s, run[0]), run[1..])
  }

  ghost predicate AgreementInv(w: World) {
    Sound(w) && Consistent(w) && ReadyInv(w)
  }

  lemma StepKeepsAgreement(s: Cluster, e: Step)
    requires AgreementInv(s.world) && WritesSucceed(s, e)
    ensures AgreementInv(After(s, e).world)
  {
    if e.AccessPass? && s.access.Some? && !s.access.value.deleting {
      PassKeepsSound(s.world, e.view, e.calls);
      PassConsistentIff(s.world, e.view, e.calls);
      PassKeepsReadyInv(s.world, e.view, e.calls);
    }
  }

  /** On every run whose Secret and status writes succeed, a Ready access has a Secret holding exactly
      the recorded key id with the secret the backend issued for that id, whether it was minted,
      reused or re-minted after the key vanished. */
  lemma {:induction false} SecretAgreement(s: Cluster, run: seq<Step>)
    requires AgreementInv(s.world) && WritesSucceedThroughout(s, run)
    ensures var w := Run(s, run).world;
            AgreementInv(w)
            && (w.status.ready ==>
                  && w.status.keyId in w.backend.issued
                  && w.secret == Some(Credential(w.status.keyId, w.backend.issued[w.status.keyId])))
    decreases run
  {
    if run != [] {
      StepKeepsAgreement(s, run[0]);
      SecretAgreement(After(s, run[0]), run[1..]);
    }
  }

  /** As above, but users may also delete the Secret at any time. */
  predicate SecretOnlyDeleted(s: Cluster, e: Step) {
    if e.EditSecret? then e.secret.None? else WritesSucceed(s, e)
  }

  predicate SecretOnlyDeletedThroughout(s: Cluster, run: seq<Step>)
    decreases run
  {
    run != [] ==> SecretOnlyDeleted(s, run[0]) && SecretOnlyDeletedThroughout(After(s, run[0]), run[1..])
  }

  /** Then a Secret that is there still holds the recorded key id and the secret issued for it. */
  lemma {:induction false} SecretAgreementUnderDeletion(s: Cluster, run: seq<Step>)
    requires Sound(s.world) && Consistent(s.world) && SecretOnlyDeletedThroughout(s, run)
    ensures Sound(Run(s, run).world) && Consistent(Run(s, run).world)
    decreases run
  {
    if run != [] {
      var e := run[0];
      if e.AccessPass? && s.access.Some? && !s.access.value.deleting {
        PassKeepsSound(s.world, e.view, e.calls);
        PassConsistentIff(s.world, e.view, e.calls);
      }
      SecretAgreementUnderDeletion(After(s, e), run[1..]);
    }
  }

  /** A flawless pass always ends Ready; and Secret and status then agree exactly when the pass minted, or
      the Secret already held the secret of the recorded key. */
  lemma ReadyPassConsistentIff(w: World, v: View, c: Calls)
    requires Sound(w) && Issuable(w.backend, c.minted) && Healthy(v) && AllOk(c)
    ensures PassSpec(w, v, c).status.ready
    ensures Consistent(PassSpec(w, v, c)) <==> Mints(w, v, c) || SecretMatchesKey(w)
  {
    PassConsistentIff(w, v, c);
  }

  /** Every call succeeds but the Secret write, which fails. */
  predicate LosesSecretWrite(c: Calls) {
    AllOk(c.(secretWrite := Confirmed)) && c.secretWrite.Failed?
  }

  /** A pass that mints over an existing Secret but cannot write it records the new key all the same. */
  lemma MintWithoutSecretWrite(w: World, v: View, c: Calls)
    requires Sound(w) && Issuable(w.backend, c.minted) && Healthy(v) && LosesSecretWrite(c) && Mints(w, v, c)
    ensures var w' := PassSpec(w, v, c);
            && Sound(w') && w'.secret == w.secret && w'.rotation == w.rotation
            && w'.status == NotReady(w.status).(keyId := c.minted.id)
            && c.minted.id in w'.backend.keys && w'.backend.issued[c.minted.id] == c.minted.secretKey
  {
    PassKeepsSound(w, v, c);
  }

  /** The Secret write has to be in the fault model: a key that vanished is re-minted, the Secret write
      fails, and the next, flawless pass declares Ready over the new id; it agrees with the Secret
      only if the old secret happens to be the new one. */
  lemma RemintThenLostSecretWrite(w: World, v: View, lost: Calls, next: Calls)
    requires Sound(w) && Issuable(w.backend, lost.minted) && Healthy(v)
    requires w.secret.Some? && w.status.keyId != "" && w.status.keyId !in w.backend.keys
    requires w.rotation == w.status.observedRotation && LosesSecretWrite(lost) && AllOk(next)
    requires Issuable(PassSpec(w, v, lost).backend, next.minted)
    ensures var w' := PassSpec(PassSpec(w, v, lost), v, next);
            && w'.status.ready && w'.status.keyId == lost.minted.id
            && (Consistent(w') <==> w.secret.value.secretKey == lost.minted.secretKey)
  {
    MintWithoutSecretWrite(w, v, lost);
    ReadyPassConsistentIff(PassSpec(w, v, lost), v, next);
  }

  /** The same happens without any vanished key when a rotation's Secret write fails and the annotation
      is then set back to the value observed before. */
  lemma RotationUndoneAfterLostSecretWrite(w: World, v: View, rotation: string, lost: Calls, next: Calls)
    requires Steady(w) && Issuable(w.backend, lost.minted) && Healthy(v) && rotation != w.rotation
    requires LosesSecretWrite(lost) && AllOk(next)
    requires Issuable(PassSpec(w.(rotation := rotation), v, lost).backend, next.minted)
    ensures var w' := PassSpec(PassSpec(w.(rotation := rotation), v, lost).(rotation := w.rotation), v, next);
            && w'.status.ready && w'.status.keyId == lost.minted.id
            && (Consistent(w') <==> w.secret.value.secretKey == lost.minted.secretKey)
  {
    MintWithoutSecretWrite(w.(rotation := rotation), v, lost);
    ReadyPassConsistentIff(PassSpec(w.(rotation := rotation), v, lost).(rotation := w.rotation), v, next);
  }

  // --- Outages, rotations, withdrawal ------------------------------------------------------

  datatype Pass = Pass(view: View, calls: Calls)

  function Passes(w: World, ps: seq<Pass>): World
    decreases ps
  {
    if ps == [] then w else Passes(PassSpec(w, ps[0].view, ps[0].calls), ps[1..])
  }

  /** One live key, recorded, in the Secret, and the current rotation observed. */
  ghost predicate Steady(w: World) {
    && Sound(w) && w.status.keyId != "" && w.backend.keys.Keys == {w.status.keyId}
    && w.secret == Some(Credential(w.status.keyId, w.backend.issued[w.status.keyId]))
    && w.rotation == w.status.observedRotation
  }

  /** Keys, Secret and the status's credential fields. */
  predicate SameCredentials(w: World, w': World) {
    && w'.backend == w.backend && w'.secret == w.secret && w'.rotation == w.rotation
    && w'.status.(ready := w.status.ready) == w.status
  }

  /** Any number of passes over an authorised, bound but unready bucket, whatever calls fail, leave the
      credentials alone. */
  lemma {:induction false} OutageKeepsCredentials(w: World, ps: seq<Pass>)
    requires forall i :: 0 <= i < |ps| ==> Unhealthy(ps[i].view)
    ensures SameCredentials(w, Passes(w, ps))
    decreases ps
  {
    if ps != [] {
      OutageKeepsCredentials(PassSpec(w, ps[0].view, ps[0].calls), ps[1..]);
    }
  }

  lemma HealthyPassReuses(w: World, v: View, c: Calls)
    requires Steady(w) && Healthy(v) && AllOk(c)
    ensures var w' := PassSpec(w, v, c);
            && w'.backend == w.backend && w'.secret == w.secret && w'.rotation == w.rotation
            && w'.status == Status(w.status.keyId, true, w.rotation, true)
            && Steady(w')
  {
  }

  /** The first healthy pass after an outage reuses the very same key. */
  lemma OutageThenSameKey(w: World, ps: seq<Pass>, v: View, c: Calls)
    requires Steady(w) && (forall i :: 0 <= i < |ps| ==> Unhealthy(ps[i].view)) && Healthy(v) && AllOk(c)
    ensures var w' := PassSpec(Passes(w, ps), v, c);
            w'.backend == w.backend && w'.secret == w.secret && w'.status.keyId == w.status.keyId && w'.status.ready
  {
    OutageKeepsCredentials(w, ps);
    HealthyPassReuses(Passes(w, ps), v, c);
  }

  /** A pass that either waits out an outage or succeeds. */
  predicate Undisturbed(p: Pass) {
    Unhealthy(p.view) || (Healthy(p.view) && AllOk(p.calls))
  }

  lemma {:induction false} SteadyStays(w: World, ps: seq<Pass>)
    requires Steady(w) && forall i :: 0 <= i < |ps| ==> Undisturbed(ps[i])
    ensures Steady(Passes(w, ps)) && Passes(w, ps).backend == w.backend && Passes(w, ps).secret == w.secret
    decreases ps
  {
    if ps != [] {
      if Healthy(ps[0].view) {
        HealthyPassReuses(w, ps[0].view, ps[0].calls);
      }
      SteadyStays(PassSpec(w, ps[0].view, ps[0].calls), ps[1..]);
    }
  }

  lemma RotatingPassMints(w: World, v: View, c: Calls)
    requires Steady(w.(rotation := w.status.observedRotation)) && w.rotation != w.status.observedRotation
    requires Healthy(v) && AllOk(c) && Issuable(w.backend, c.minted)
    ensures var w' := PassSpec(w, v, c);
            && Steady(w') && w'.status.keyId == c.minted.id && w'.status.ready
            && w'.backend.issued == w.backend.issued[c.minted.id := c.minted.secretKey]
  {
    var w' := PassSpec(w, v, c);
    assert w'.backend.keys == w.backend.keys[c.minted.id := c.minted.secretKey] - {w.status.keyId};
    assert w'.backend.keys.Keys == {c.minted.id};
  }

  /** Each annotation change mints exactly one key over all later undisturbed passes, the one of the
      first healthy pass, and the previous key is dead; until then nothing changes. */
  lemma {:induction false} RotationMintsOnce(w: World, rotation: string, ps: seq<Pass>, first: nat)
    requires Steady(w) && rotation != w.rotation && first < |ps|
    requires forall i :: 0 <= i < |ps| ==> Undisturbed(ps[i])
    requires Healthy(ps[first].view) && Issuable(w.backend, ps[first].calls.minted)
    requires forall i :: 0 <= i < first ==> Unhealthy(ps[i].view)
    ensures var w' := Passes(w.(rotation := rotation), ps);
            var minted := ps[first].calls.minted;
            && Steady(w') && w'.status.keyId == minted.id
            && w'.backend.keys.Keys == {minted.id} && w.status.keyId !in w'.backend.keys
            && w'.backend.issued == w.backend.issued[minted.id := minted.secretKey]
            && w'.secret == Some(minted)
    decreases first
  {
    var w0 := w.(rotation := rotation);
    var w1 := PassSpec(w0, ps[0].view, ps[0].calls);
    assert Passes(w0, ps) == Passes(w1, ps[1..]);
    if first == 0 {
      assert w0.(rotation := w0.status.observedRotation) == w;
      RotatingPassMints(w0, ps[0].view, ps[0].calls);
      SteadyStays(w1, ps[1..]);
    } else {
      var waiting := w.(status := NotReady(w.status));
      var before := if ps[0].calls.statusWrite.Acts() then waiting else w;
      assert w1 == before.(rotation := rotation);
      RotationMintsOnce(before, rotation, ps[1..], first - 1);
    }
  }

  /** Withdrawn binding or authorisation with a resolvable backend, every call succeeding, ends with no
      key, no Secret and cleared status, and stays there. */
  lemma WithdrawalLeavesNothing(w: World, v: View, c: Calls)
    requires Sound(w) && NoOrphan(w) && (w.status.keyId == "" ==> w.secret.None?)
    requires Withdrawn(v) && Resolved(v) && v.driverKnown && AllOk(c)
    ensures var w' := PassSpec(w, v, c);
            && w'.backend.keys == map[] && w'.secret == None && w'.status.keyId == "" && !w'.status.ready
            && (w.status.keyId != "" ==> w'.status == ClearedStatus(w.status))
            && PassSpec(w', v, c) == w'
  {
    assert "" !in w.backend.keys;
    assert PassSpec(w, v, c).backend.keys == map[];
  }
}
