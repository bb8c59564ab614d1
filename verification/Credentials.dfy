/** The credential lifecycle of one BucketAccess: the Garage driver's mint, grant and revoke
    sequence (images/controller/internal/backend/garage/access.go) inside the BucketAccess reconciler
    (images/controller/internal/controller/bucket_access_controller.go). A reconcile is atomic; each
    call it makes may fail, and a call that changes something may fail with or without having taken
    effect. */
module Credentials {
  import opened Remote
  import opened Wrappers

  type KeyId = string
  type SecretKey = string

  datatype Credential = Credential(id: KeyId, secretKey: SecretKey)

  /** `keys` are the access's live backend keys; `issued` every key ever created for it, with
      the secret the backend issued for it. */
  datatype Backend = Backend(keys: map<KeyId, SecretKey>, issued: map<KeyId, SecretKey>)

  /** "" is "no key recorded". */
  datatype Status = Status(keyId: KeyId, hasSecretRef: bool, observedRotation: string, ready: bool)

  datatype World = World(backend: Backend, secret: Option<Credential>, status: Status, rotation: string)

  // --- What a pass sees and which of its calls succeed -----------------------------

  datatype ClaimView = ClaimUnreadable | ClaimMissing | ClaimSeen(bound: bool, hasBoundName: bool)

  datatype Authorization = AuthorizationError | Allowed | Denied

  datatype View = View(claim: ClaimView, bucketFound: bool, storeFound: bool, bucketReady: bool,
                       authorization: Authorization, driverKnown: bool)

  datatype Admin = AdminReady | AdminNotProvisioned | AdminGone | AdminError

  datatype Lookup = Found | Absent | LookupError

  datatype Calls = Calls(
    admin: Admin, bucketLookup: Lookup, keyLookupOk: bool, create: Outcome, grantOk: bool, rollback: Outcome,
    revoke: Outcome, secretReadOk: bool, secretWrite: Outcome, secretDelete: Outcome, statusWrite: Outcome,
    minted: Credential)

  /** The backend would issue an id it never issued before, and nothing empty. */
  predicate Issuable(b: Backend, c: Credential) {
    c.id != "" && c.secretKey != "" && c.id !in b.issued
  }

  function Issue(b: Backend, c: Credential): Backend {
    Backend(b.keys[c.id := c.secretKey], b.issued[c.id := c.secretKey])
  }

  function Revoke(b: Backend, id: KeyId): Backend {
    b.(keys := b.keys - {id})
  }

  // --- The driver ------------------------------------------------------------------

  /** The driver's answer; `failed` is a returned error, and then the state is empty. */
  datatype AccessState = AccessState(ready: bool, keyId: KeyId, secretKey: SecretKey, failed: bool)

  const FAILED := AccessState(false, "", "", true)
  const WAITING := AccessState(false, "", "", false)

  datatype Ensured = Ensured(backend: Backend, state: AccessState)

  /** The driver reaches the point where it decides which key to use. */
  predicate Decides(recorded: KeyId, mintFresh: bool, c: Calls) {
    c.admin.AdminReady? && c.bucketLookup.Found? && (mintFresh || recorded == "" || c.keyLookupOk)
  }

  /** It needs a new key: asked to, none recorded, or the recorded one vanished. */
  predicate NeedsKey(b: Backend, recorded: KeyId, mintFresh: bool) {
    mintFresh || recorded == "" || recorded !in b.keys
  }

  /** A previous key is left to revoke. */
  predicate Supersedes(recorded: KeyId, c: Calls) {
    recorded != "" && recorded != c.minted.id
  }

  function EnsureAccessSpec(b: Backend, recorded: KeyId, mintFresh: bool, c: Calls): Ensured {
    if c.admin.AdminNotProvisioned? || (c.admin.AdminReady? && c.bucketLookup.Absent?) then Ensured(b, WAITING)
    else if !Decides(recorded, mintFresh, c) then Ensured(b, FAILED)
    else if !NeedsKey(b, recorded, mintFresh) then
      Ensured(b, if c.grantOk then AccessState(true, recorded, "", false) else FAILED)
    else if c.create.Failed? then Ensured(b, FAILED)
    else
      var b' := Issue(b, c.minted);
      if c.create.Lost? then Ensured(b', FAILED)
      else if !c.grantOk then Ensured(if c.rollback.Acts() then Revoke(b', c.minted.id) else b', FAILED)
      else
        var b'' := if Supersedes(recorded, c) && c.revoke.Acts() then Revoke(b', recorded) else b';
        if Supersedes(recorded, c) && !c.revoke.Confirmed? then Ensured(b'', FAILED)
        else Ensured(b'', AccessState(true, c.minted.id, c.minted.secretKey, false))
  }

  datatype Revoked = Revoked(backend: Backend, failed: bool)

  function DeleteAccessSpec(b: Backend, recorded: KeyId, c: Calls): Revoked {
    if recorded == "" then Revoked(b, false)
    else
      match c.admin
      case AdminError => Revoked(b, true)
      case AdminGone => Revoked(b, false)
      case AdminNotProvisioned => Revoked(b, false)
      case AdminReady => Revoked(if c.revoke.Acts() then Revoke(b, recorded) else b, !c.revoke.Confirmed?)
  }

  // --- The reconciler --------------------------------------------------------------

  predicate Resolved(v: View) {
    v.claim.ClaimSeen? && v.claim.hasBoundName && v.bucketFound && v.storeFound
  }

  predicate BucketKnown(v: View) {
    v.claim.ClaimSeen? && v.claim.hasBoundName && v.bucketFound
  }

  predicate AuthorizationFails(v: View) {
    BucketKnown(v) && v.authorization.AuthorizationError?
  }

  predicate NotDenied(v: View) {
    BucketKnown(v) ==> v.authorization.Allowed?
  }

  /** The bucket exists but is not Ready: a health signal, the grant is left alone. */
  predicate Unhealthy(v: View) {
    Resolved(v) && v.claim.bound && v.authorization.Allowed? && !v.bucketReady
  }

  /** The binding or the authorisation has been withdrawn. */
  predicate Withdrawn(v: View) {
    v.claim.ClaimSeen? && !AuthorizationFails(v) && !(v.claim.bound && Resolved(v) && NotDenied(v))
  }

  /** The pass goes on to the driver. */
  predicate Usable(v: View) {
    Resolved(v) && v.claim.bound && v.authorization.Allowed? && v.bucketReady
  }

  predicate MintFresh(w: World) {
    w.rotation != w.status.observedRotation || w.status.keyId == "" || w.secret.None?
  }

  function NotReady(s: Status): Status {
    s.(ready := false)
  }

  function ClearedStatus(s: Status): Status {
    Status("", false, "", false)
  }

  function Saved(w: World, s: Status, c: Calls): World {
    if c.statusWrite.Acts() then w.(status := s) else w
  }

  function WithoutSecret(w: World, c: Calls): World {
    if c.secretDelete.Acts() then w.(secret := None) else w
  }

  function WithdrawSpec(w: World, v: View, c: Calls): World {
    if w.status.keyId == "" then Saved(w, NotReady(w.status), c)
    else
      var r := if Resolved(v) && v.driverKnown then DeleteAccessSpec(w.backend, w.status.keyId, c)
          else Revoked(w.backend, false);
      var w' := w.(backend := r.backend);
      if r.failed then Saved(w', NotReady(w.status), c)
      else if !c.secretDelete.Confirmed? then WithoutSecret(w', c)
      else Saved(WithoutSecret(w', c), ClearedStatus(w.status), c)
  }

  function VanishedSpec(w: World, c: Calls): World {
    if w.status.keyId == "" then Saved(w, NotReady(w.status), c)
    else
      var s := if c.secretDelete.Confirmed? then ClearedStatus(w.status) else NotReady(w.status);
      Saved(WithoutSecret(w, c), s, c)
  }

  /** The credentials a pass writes: a reused key keeps the stored secret. */
  function SecretFor(state: AccessState, existing: Option<Credential>): Credential {
    if state.secretKey == "" && existing.Some?
    then Credential(if state.keyId == "" then existing.value.id else state.keyId, existing.value.secretKey)
    else Credential(state.keyId, state.secretKey)
  }

  function GrantSpec(w: World, c: Calls): World {
    if !c.secretReadOk then w
    else RecordSpec(w, EnsureAccessSpec(w.backend, w.status.keyId, MintFresh(w), c), c)
  }

  /** Recording the driver's answer in the Secret and the status. */
  function RecordSpec(w: World, e: Ensured, c: Calls): World {
    var w' := w.(backend := e.backend);
    var keyId := if e.state.keyId != "" then e.state.keyId else w.status.keyId;
    if e.state.failed || !e.state.ready then Saved(w', NotReady(w.status).(keyId := keyId), c)
    else
      var w'' := if c.secretWrite.Acts() then w'.(secret := Some(SecretFor(e.state, w.secret))) else w';
      var s := if c.secretWrite.Confirmed? then Status(keyId, true, w.rotation, true)
               else NotReady(w.status).(keyId := keyId);
      Saved(w'', s, c)
  }

  function PassSpec(w: World, v: View, c: Calls): World {
    match v.claim
    case ClaimUnreadable => w
    case ClaimMissing => VanishedSpec(w, c)
    case ClaimSeen(_, _) =>
      if AuthorizationFails(v) || Unhealthy(v) then Saved(w, NotReady(w.status), c)
      else if Withdrawn(v) then WithdrawSpec(w, v, c)
      else if !v.driverKnown then Saved(w, NotReady(w.status), c)
      else GrantSpec(w, c)
  }

  /** The deletion pass: whether the finalizer is released. */
  datatype Deleted = Deleted(backend: Backend, released: bool)

  function DeletionSpec(b: Backend, recorded: KeyId, v: View, c: Calls): Deleted {
    match v.claim
    case ClaimUnreadable => Deleted(b, false)
    case ClaimMissing => Deleted(b, c.statusWrite.Acts())
    case ClaimSeen(_, _) =>
      if !Resolved(v) then Deleted(b, c.statusWrite.Acts())
      else if !v.driverKnown then Deleted(b, false)
      else
        var r := DeleteAccessSpec(b, recorded, c);
        Deleted(r.backend, !r.failed && c.statusWrite.Acts())
  }

  /** What a pass observed, before it is written to the status. */
  datatype Observed = Observed(ready: bool, keyId: KeyId, secretWritten: bool, revoked: bool)

  const NOTHING_OBSERVED := Observed(false, "", false, false)

  function StatusFrom(s: Status, o: Observed, rotation: string): Status {
    if o.revoked then Status("", false, "", o.ready)
    else Status(if o.keyId != "" then o.keyId else s.keyId,
                o.secretWritten || s.hasSecretRef,
                if o.secretWritten then rotation else s.observedRotation,
                o.ready)
  }

  /** The objects one access's passes read and write. */
  class AccessReconciler {
    var keys: map<KeyId, SecretKey>
    ghost var issued: map<KeyId, SecretKey>
    var secret: Option<Credential>
    var status: Status

    ghost function GetBackend(): Backend
      reads this
    {
      Backend(keys, issued)
    }

    ghost function GetWorld(rotation: string): World
      reads this
    {
      World(GetBackend(), secret, status, rotation)
    }

    method EnsureAccess(mintFresh: bool, c: Calls) returns (state: AccessState)
      modifies this`keys, this`issued
      ensures Ensured(GetBackend(), state) == EnsureAccessSpec(old(GetBackend()), status.keyId, mintFresh, c)
    {
      if c.admin.AdminError? || c.admin.AdminGone? {
        return FAILED;
      }
      if c.admin.AdminNotProvisioned? {
        return WAITING;
      }
      if c.bucketLookup.LookupError? {
        return FAILED;
      }
      if c.bucketLookup.Absent? {
        return WAITING;
      }
      var prevKeyId := status.keyId;
      var accessKey, secretKey := prevKeyId, "";
      var mint := mintFresh;
      if !mint && accessKey != "" {
        if !c.keyLookupOk {
          return FAILED;
        }
        if accessKey !in keys {
          mint := true; // the recorded key vanished; re-issue
        }
      }
      var minted := false;
      if mint || accessKey == "" {
        if c.create.Acts() {
          keys := keys[c.minted.id := c.minted.secretKey];
          issued := issued[c.minted.id := c.minted.secretKey];
        }
        if !c.create.Confirmed? {
          return FAILED;
        }
        accessKey, secretKey := c.minted.id, c.minted.secretKey;
        minted := true;
      }
      if !c.grantOk {
        if minted {
          if c.rollback.Acts() {
            keys := keys - {accessKey};
          }
        }
        return FAILED;
      }
      if mint && prevKeyId != "" && prevKeyId != accessKey {
        if c.revoke.Acts() {
          keys := keys - {prevKeyId};
        }
        if !c.revoke.Confirmed? {
          return FAILED;
        }
      }
      return AccessState(true, accessKey, secretKey, false);
    }

    method DeleteAccess(c: Calls) returns (failed: bool)
      modifies this`keys
      ensures Revoked(GetBackend(), failed) == DeleteAccessSpec(old(GetBackend()), status.keyId, c)
    {
      if status.keyId == "" {
        return false;
      }
      if c.admin.AdminError? {
        return true;
      }
      if c.admin.AdminGone? || c.admin.AdminNotProvisioned? {
        return false;
      }
      if c.revoke.Acts() {
        keys := keys - {status.keyId};
      }
      return !c.revoke.Confirmed?;
    }

    method EnsureCredentialsSecret(state: AccessState, c: Calls) returns (ok: bool)
      modifies this`secret
      ensures ok == c.secretWrite.Confirmed?
      ensures secret == if c.secretWrite.Acts() then Some(SecretFor(state, old(secret))) else old(secret)
    {
      var accessKeyId, secretKey := state.keyId, state.secretKey;
      if secretKey == "" && secret.Some? {
        secretKey := secret.value.secretKey;
        if accessKeyId == "" {
          accessKeyId := secret.value.id;
        }
      }
      ok := c.secretWrite.Confirmed?;
      if c.secretWrite.Acts() {
        secret := Some(Credential(accessKeyId, secretKey));
      }
    }

    method DeleteCredentialsSecret(c: Calls) returns (ok: bool)
      modifies this`secret
      ensures ok == c.secretDelete.Confirmed? && secret == if c.secretDelete.Acts() then None else old(secret)
    {
      ok := c.secretDelete.Confirmed?;
      if c.secretDelete.Acts() {
        secret := None;
      }
    }

    /** `ready` is the aggregate condition the pass wrote; a recorded key or reference is never
        cleared here, except by a revocation, which clears all credential fields. */
    method UpdateStatus(observed: Observed, rotation: string, c: Calls)
      modifies this`status
      ensures status == if c.statusWrite.Acts() then StatusFrom(old(status), observed, rotation) else old(status)
    {
      if !c.statusWrite.Acts() {
        return;
      }
      status := status.(ready := observed.ready);
      if observed.revoked {
        status := status.(keyId := "");
        status := status.(hasSecretRef := false, observedRotation := "");
        return;
      }
      if observed.keyId != "" {
        status := status.(keyId := observed.keyId);
      }
      if observed.secretWritten {
        status := status.(hasSecretRef := true, observedRotation := rotation);
      }
    }

    method Vanished(rotation: string, c: Calls)
      modifies this`secret, this`status
      ensures GetWorld(rotation) == VanishedSpec(old(GetWorld(rotation)), c)
    {
      var observed := NOTHING_OBSERVED;
      if status.keyId != "" {
        var ok := DeleteCredentialsSecret(c);
        if ok {
          observed := observed.(revoked := true);
        }
      }
      UpdateStatus(observed, rotation, c);
    }

    method Withdraw(v: View, bucket: bool, store: bool, rotation: string, c: Calls)
      requires (bucket && store) == Resolved(v)
      modifies this
      ensures GetWorld(rotation) == WithdrawSpec(old(GetWorld(rotation)), v, c)
    {
      var observed := NOTHING_OBSERVED;
      if status.keyId != "" {
        if bucket && store {
          if v.driverKnown {
            var failed := DeleteAccess(c);
            if failed {
              UpdateStatus(NOTHING_OBSERVED, rotation, c);
              return;
            }
          }
        }
        var ok := DeleteCredentialsSecret(c);
        if !ok {
          return; // no condition is written
        }
        observed := observed.(revoked := true);
      }
      UpdateStatus(observed, rotation, c);
    }

    method Grant(rotation: string, c: Calls)
      modifies this
      ensures GetWorld(rotation) == GrantSpec(old(GetWorld(rotation)), c)
    {
      if !c.secretReadOk {
        return; // no condition is written
      }
      ghost var before := GetWorld(rotation);
      var recordedKey := status.keyId;
      var mintFresh := rotation != status.observedRotation || recordedKey == "" || secret.None?;
      var state := EnsureAccess(mintFresh, c);
      assert GetWorld(rotation) == before.(backend := GetBackend());
      Record(before, rotation, state, recordedKey, c);
    }

    method Record(ghost before: World, rotation: string, state: AccessState, recordedKey: KeyId, c: Calls)
      requires GetWorld(rotation) == before.(backend := GetBackend()) && before.rotation == rotation
      requires recordedKey == status.keyId
      modifies this`secret, this`status
      ensures GetWorld(rotation) == RecordSpec(before, Ensured(GetBackend(), state), c)
    {
      var observed := NOTHING_OBSERVED.(keyId := if state.keyId != "" then state.keyId else recordedKey);
      if state.failed || !state.ready {
        UpdateStatus(observed, rotation, c);
        return;
      }
      var written := EnsureCredentialsSecret(state, c);
      if written {
        observed := observed.(secretWritten := true, ready := true);
      }
      UpdateStatus(observed, rotation, c);
    }

    method ReconcileNormal(v: View, rotation: string, c: Calls)
      modifies this
      ensures GetWorld(rotation) == PassSpec(old(GetWorld(rotation)), v, c)
    {
      if v.claim.ClaimUnreadable? {
        return; // no condition is written
      }
      if v.claim.ClaimMissing? {
        Vanished(rotation, c);
        return;
      }
      var bucket, store := false, false;
      if v.claim.hasBoundName {
        bucket := v.bucketFound;
        store := v.bucketFound && v.storeFound;
      }
      var authorized := true;
      if bucket {
        if v.authorization.AuthorizationError? {
          UpdateStatus(NOTHING_OBSERVED, rotation, c);
          return;
        }
        authorized := v.authorization.Allowed?;
      }
      if bucket && store && v.claim.bound && authorized && !v.bucketReady {
        UpdateStatus(NOTHING_OBSERVED, rotation, c);
        return;
      }
      if !v.claim.bound || !bucket || !store || !authorized {
        Withdraw(v, bucket, store, rotation, c);
        return;
      }
      if !v.driverKnown {
        UpdateStatus(NOTHING_OBSERVED, rotation, c);
        return;
      }
      Grant(rotation, c);
    }

    method ReconcileDelete(v: View, c: Calls) returns (released: bool)
      modifies this`keys
      ensures Deleted(GetBackend(), released) == DeletionSpec(old(GetBackend()), status.keyId, v, c)
    {
      if v.claim.ClaimUnreadable? {
        return false;
      }
      if v.claim.ClaimSeen? && v.claim.hasBoundName {
        if v.bucketFound && v.storeFound {
          if !v.driverKnown {
            return false;
          }
          var failed := DeleteAccess(c);
          if failed {
            return false;
          }
        }
      }
      return c.statusWrite.Acts();
    }
  }
}
