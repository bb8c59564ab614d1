/** The System data plane as a state machine: one EnsureCluster pass is a sequence of API
    calls (images/controller/internal/backend/garage/garage.go, recreate.go), any of which may be the last one
    before a crash or an error, interleaved with everything the rest of the cluster does.

    A run is any sequence of actions; an action that is not enabled changes nothing. */
module DataPlane {
  import opened Wrappers
  import opened Decimal
  import opened GarageConfig
  import opened Naming
  import opened Sets

  // --- The objects ----------------------------------------------------------

  datatype Phase = Available | Bound | Released

  datatype Volume = Volume(phase: Phase, deleting: bool)

  datatype Claim = Claim(volume: Option<Slot>, deleting: bool)

  /** An object of which only existence and a pending deletion matter. */
  datatype Marker = Marker(deleting: bool)

  /** The node-identity Secret: per ordinal, the incarnation whose cluster made the stored key. */
  datatype Identity = Identity(keys: map<nat, int32>, deleting: bool)

  /** `claims` and `pods` are the replica PVCs and pods by ordinal. */
  datatype Objects = Objects(
    config: Option<ConfigMap>,
    workload: Option<Marker>,
    claims: map<nat, Claim>,
    pods: set<nat>,
    identity: Option<Identity>,
    volumes: map<Slot, Volume>)

  /** Where a reconcile pass is. `settings` is the ObjectStore as the pass read it. */
  datatype Control =
    | Idle
    | ReadPin(settings: Cluster)
    | StopWorkload(settings: Cluster, pin: Pinned)
    | ListClaims(settings: Cluster, pin: Pinned, remaining: nat)
    | StopClaims(settings: Cluster, pin: Pinned, remaining: nat, claimsLeft: set<nat>)
    | StopIdentity(settings: Cluster, pin: Pinned, remaining: nat)
    | ListVolumes(settings: Cluster, pin: Pinned, remaining: nat)
    | StopVolumes(settings: Cluster, pin: Pinned, remaining: nat, volumesLeft: set<Slot>)
    | WriteConfig(settings: Cluster, pin: Pinned)
    | FillPool(settings: Cluster, pin: Pinned)
    | EnsureIdentity(settings: Cluster, pin: Pinned)
    | CaptureKeys(settings: Cluster, pin: Pinned)
    | ApplyWorkload(settings: Cluster, pin: Pinned)

  /** One pod start: the volume mounted, the factor read, and the incarnation whose cluster
      made the node key it ran under. */
  datatype Start = Start(volume: Slot, factor: int32, keyFrom: int32)

  /** `factors[k]` is the factor that incarnation k + 1 was created with; `disk` has the origin
      of the node key in every directory ever booted from, which outlives its volume; `served`
      has every pod start. */
  datatype State = State(
    objects: Objects,
    control: Control,
    factors: seq<int32>,
    disk: map<Slot, int32>,
    served: set<Start>)

  const NOTHING := Objects(None, None, map[], {}, None, map[])

  const START := State(NOTHING, Idle, [], map[], {})

  // --- The actions ----------------------------------------------------------

  datatype Action =
    // The controller.
    | Begin(cluster: Cluster)      // a pass starts and reads the ObjectStore
    | Interrupt                    // an API error or a controller restart ends the pass
    | Proceed                      // the next API call of the pass
    | DropClaim(claim: nat)        // teardown: one listed PVC
    | DropVolume(volume: Slot)     // teardown: one listed volume
    | AddVolume(slot: Slot)        // pool maintenance: one missing volume
    | CaptureKey(ordinal: nat)     // one running replica's node key is stored
    // Everyone else: the StatefulSet controller, the scheduler, kubelets, finalizers and
    // users. Pool collection and replica recycling delete objects too and are covered by
    // the deletions here, which are possible at any time.
    | MakeClaim(ordinal: nat)
    | MakePod(ordinal: nat)
    | Bind(ordinal: nat, slot: Slot)
    | StartPod(ordinal: nat)
    | PodGone(ordinal: nat)
    | DeleteWorkload
    | DeleteClaim(ordinal: nat)
    | DeleteIdentity
    | DeleteVolume(slot: Slot)
    | WorkloadGone
    | ClaimGone(ordinal: nat)
    | IdentityGone
    | VolumeGone(slot: Slot)

  function MarkClaim(o: Objects, c: nat): Objects {
    if c in o.claims then o.(claims := o.claims[c := o.claims[c].(deleting := true)]) else o
  }

  function MarkVolume(o: Objects, v: Slot): Objects {
    if v in o.volumes then o.(volumes := o.volumes[v := o.volumes[v].(deleting := true)]) else o
  }

  function MarkWorkload(o: Objects): Objects {
    if o.workload.Some? then o.(workload := Some(Marker(true))) else o
  }

  function MarkIdentity(o: Objects): Objects {
    if o.identity.Some? then o.(identity := Some(o.identity.value.(deleting := true))) else o
  }

  /** The counter after a recreate, in the 32 bits the source gives it. */
  function NextIncarnation(incarnation: int32): int32 {
    ToInt32(incarnation + 1)
  }

  /** The ConfigMap already holds this pair. */
  predicate Holds(config: Option<ConfigMap>, pin: Pinned) {
    && config.Some?
    && FactorFromText(config.value.toml) == pin.rf
    && IncarnationFromConfigMap(config.value) == pin.incarnation
  }

  function Overwrite(s: State, c: Cluster, pin: Pinned, m: ConfigMap): State {
    s.(objects := s.objects.(config := Some(m)),
       control := FillPool(c, pin),
       factors := if Holds(s.objects.config, pin) then s.factors else s.factors + [pin.rf])
  }

  /** A teardown that found nothing goes on to pin the wanted factor at the next incarnation. */
  function WriteNext(c: Cluster, pin: Pinned): Control {
    WriteConfig(c, Pinned(InitialReplicationFactor(c), NextIncarnation(pin.incarnation), true))
  }

  /** What a pass over a store without a ConfigMap pins. */
  function FirstPin(c: Cluster): Pinned {
    Pinned(InitialReplicationFactor(c), FIRST_INCARNATION, false)
  }

  function ProceedPass(s: State): State {
    var o := s.objects;
    match s.control
    case Idle => s
    case ReadPin(c) =>
      (match PinnedState(o.config, c)
       case Err(_) => s.(control := Idle)
       case Ok(pin) =>
         if pin.initialized && pin.rf != InitialReplicationFactor(c)
         then s.(control := StopWorkload(c, pin))
         else s.(control := WriteConfig(c, pin)))
    case StopWorkload(c, pin) =>
      s.(objects := MarkWorkload(o), control := ListClaims(c, pin, if o.workload.Some? then 1 else 0))
    case ListClaims(c, pin, n) =>
      s.(control := StopClaims(c, pin, n + |o.claims|, o.claims.Keys))
    case StopClaims(c, pin, n, left) =>
      if left == {} then s.(control := StopIdentity(c, pin, n)) else s
    case StopIdentity(c, pin, n) =>
      s.(objects := MarkIdentity(o), control := ListVolumes(c, pin, n + if o.identity.Some? then 1 else 0))
    case ListVolumes(c, pin, n) =>
      s.(control := StopVolumes(c, pin, n + |o.volumes|, o.volumes.Keys))
    case StopVolumes(c, pin, n, left) =>
      if left != {} then s
      else if n > 0 then s.(control := Idle)
      else s.(control := WriteNext(c, pin))
    case WriteConfig(c, pin) =>
      Overwrite(s, c, pin, BuildConfigMap(System, pin.rf, pin.incarnation))
    case FillPool(c, pin) => s.(control := EnsureIdentity(c, pin))
    case EnsureIdentity(c, pin) =>
      s.(objects := if o.identity.None? then o.(identity := Some(Identity(map[], false))) else o,
         control := CaptureKeys(c, pin))
    case CaptureKeys(c, pin) => s.(control := ApplyWorkload(c, pin))
    case ApplyWorkload(c, pin) =>
      s.(objects := if o.workload.None? then o.(workload := Some(Marker(false))) else o,
         control := Idle)
  }

  /** The replica's volume, once its PVC is bound and its pod is there. */
  function Mounted(o: Objects, ordinal: nat): Option<Slot> {
    if ordinal in o.pods && ordinal in o.claims then o.claims[ordinal].volume else None
  }

  /** Where the node key of a starting pod comes from: the Secret, else the directory, else Garage
      makes one. */
  function KeyFrom(o: Objects, disk: map<Slot, int32>, ordinal: nat, v: Slot, made: int32): int32 {
    if o.identity.Some? && ordinal in o.identity.value.keys then o.identity.value.keys[ordinal]
    else if v in disk then disk[v] else made
  }

  function Started(s: State, ordinal: nat): State {
    var v, config := Mounted(s.objects, ordinal), s.objects.config;
    if v.None? || config.None? then s
    else
      var key := KeyFrom(s.objects, s.disk, ordinal, v.value, IncarnationFromConfigMap(config.value));
      s.(disk := s.disk[v.value := key],
         served := s.served + {Start(v.value, FactorFromText(config.value.toml), key)})
  }

  /** A key already stored is kept; a replica that never booted has none to read. */
  function Captured(s: State, ordinal: nat): State {
    var v, identity := Mounted(s.objects, ordinal), s.objects.identity;
    if v.None? || v.value !in s.disk || identity.None? || ordinal in identity.value.keys then s
    else
      var keys := identity.value.keys[ordinal := s.disk[v.value]];
      s.(objects := s.objects.(identity := Some(identity.value.(keys := keys))))
  }

  function Environment(s: State, a: Action): State {
    var o := s.objects;
    match a
    case MakeClaim(c) =>
      if o.workload == Some(Marker(false)) && c !in o.claims
      then s.(objects := o.(claims := o.claims[c := Claim(None, false)])) else s
    case MakePod(c) =>
      if o.workload == Some(Marker(false)) && c in o.claims
      then s.(objects := o.(pods := o.pods + {c})) else s
    case Bind(c, v) =>
      if c in o.claims && o.claims[c] == Claim(None, false) && v in o.volumes
          && o.volumes[v] == Volume(Available, false)
      then s.(objects := o.(claims := o.claims[c := Claim(Some(v), false)],
                            volumes := o.volumes[v := Volume(Bound, false)]))
      else s
    case StartPod(c) => Started(s, c)
    case PodGone(c) => s.(objects := o.(pods := o.pods - {c}))
    case DeleteWorkload => s.(objects := MarkWorkload(o))
    case DeleteClaim(c) => s.(objects := MarkClaim(o, c))
    case DeleteIdentity => s.(objects := MarkIdentity(o))
    case DeleteVolume(v) => s.(objects := MarkVolume(o, v))
    case WorkloadGone =>
      if o.workload == Some(Marker(true)) then s.(objects := o.(workload := None)) else s
    case ClaimGone(c) =>
      // Protection: a PVC outlives the pod that mounts it.
      if c in o.claims && o.claims[c].deleting && c !in o.pods then
        var freed := o.(claims := o.claims - {c});
        match o.claims[c].volume
        case None => s.(objects := freed)
        case Some(v) =>
          s.(objects := if v in o.volumes
                        then freed.(volumes := o.volumes[v := o.volumes[v].(phase := Released)]) else freed)
      else s
    case IdentityGone =>
      if o.identity.Some? && o.identity.value.deleting then s.(objects := o.(identity := None)) else s
    case VolumeGone(v) =>
      if v in o.volumes && o.volumes[v].deleting && !o.volumes[v].phase.Bound?
      then s.(objects := o.(volumes := o.volumes - {v})) else s
    case _ => s
  }

  function Apply(s: State, a: Action): State {
    match a
    case Begin(c) => if s.control.Idle? && c.kind.System? then s.(control := ReadPin(c)) else s
    case Interrupt => s.(control := Idle)
    case Proceed => ProceedPass(s)
    case DropClaim(c) =>
      if s.control.StopClaims? && c in s.control.claimsLeft
      then s.(objects := MarkClaim(s.objects, c), control := s.control.(claimsLeft := s.control.claimsLeft - {c}))
      else s
    case DropVolume(v) =>
      if s.control.StopVolumes? && v in s.control.volumesLeft
      then s.(objects := MarkVolume(s.objects, v), control := s.control.(volumesLeft := s.control.volumesLeft - {v}))
      else s
    case AddVolume(v) =>
      // Any node, any slot: the pool's extent does not matter here (see LocalVolumes).
      if s.control.FillPool? && v.incarnation == s.control.pin.incarnation && v !in s.objects.volumes
      then s.(objects := s.objects.(volumes := s.objects.volumes[v := Volume(Available, false)])) else s
    case CaptureKey(c) => if s.control.CaptureKeys? then Captured(s, c) else s
    case _ => Environment(s, a)
  }

  function Run(s: State, run: seq<Action>): State
    decreases run
  {
    if run == [] then s else Run(Apply(s, run[0]), run[1..])
  }

  // --- The invariant --------------------------------------------------------

  function Remaining(o: Objects): nat {
    (if o.workload.Some? then 1 else 0) + |o.claims| + (if o.identity.Some? then 1 else 0) + |o.volumes|
  }

  function CurrentPin(s: State): Pinned
    requires 1 <= |s.factors| <= MAX_INT32
  {
    Pinned(s.factors[|s.factors| - 1], |s.factors|, true)
  }

  predicate AllGone(o: Objects) {
    o.workload.None? && o.claims == map[] && o.identity.None? && o.volumes == map[]
  }

  /** A teardown that has found nothing left so far: what it looked at is still gone. */
  ghost predicate NothingSoFar(o: Objects, at: Control) {
    match at
    case ListClaims(_, _, n) => n == 0 ==> o.workload.None?
    case StopClaims(_, _, n, _) => n == 0 ==> o.workload.None? && o.claims == map[]
    case StopIdentity(_, _, n) => n == 0 ==> o.workload.None? && o.claims == map[]
    case ListVolumes(_, _, n) => n == 0 ==> o.workload.None? && o.claims == map[] && o.identity.None?
    case StopVolumes(_, _, n, _) => n == 0 ==> AllGone(o)
    case _ => true
  }

  predicate InTeardown(at: Control) {
    at.StopWorkload? || at.ListClaims? || at.StopClaims? || at.StopIdentity? || at.ListVolumes? || at.StopVolumes?
  }

  predicate InBuild(at: Control) {
    at.FillPool? || at.EnsureIdentity? || at.CaptureKeys? || at.ApplyWorkload?
  }

  /** The pass knows what is pinned, and a new pin is only about to be written over nothing. */
  ghost predicate ControlInv(s: State)
    requires |s.factors| <= MAX_INT32
  {
    var at := s.control;
    && (at.Idle? || at.settings.kind.System?)
    && (InTeardown(at) ==>
          && s.factors != []
          && at.pin == CurrentPin(s)
          && at.pin.rf != InitialReplicationFactor(at.settings)
          && NothingSoFar(s.objects, at))
    && (InBuild(at) ==>
          && s.factors != []
          && at.pin.rf == CurrentPin(s).rf && at.pin.incarnation == CurrentPin(s).incarnation)
    && (at.WriteConfig? ==>
          if s.factors == [] then at.pin == Pinned(InitialReplicationFactor(at.settings), FIRST_INCARNATION, false)
          else at.pin == CurrentPin(s)
               || (&& at.pin == Pinned(InitialReplicationFactor(at.settings), NextIncarnation(|s.factors|), true)
                   && at.pin.rf != CurrentPin(s).rf
                   && AllGone(s.objects)))
  }

  ghost predicate ObjectsInv(s: State)
    requires |s.factors| <= MAX_INT32
  {
    var o := s.objects;
    && (forall k :: 0 <= k < |s.factors| ==> s.factors[k] >= 1)
    && (if s.factors == [] then AllGone(o) && o.config.None?
        else Holds(o.config, CurrentPin(s)))
    && o.pods <= o.claims.Keys
    && (forall v :: v in o.volumes ==> v.incarnation == |s.factors|)
    && (forall c :: c in o.claims && o.claims[c].volume.Some? ==> o.claims[c].volume.value.incarnation == |s.factors|)
    && (o.identity.Some? ==> forall c :: c in o.identity.value.keys ==> o.identity.value.keys[c] == |s.factors|)
  }

  ghost predicate ServedInv(s: State) {
    && (forall v :: v in s.disk ==> s.disk[v] == v.incarnation)
    && (forall x :: x in s.served ==>
          && 1 <= x.volume.incarnation <= |s.factors|
          && x.factor == s.factors[x.volume.incarnation - 1]
          && x.keyFrom == x.volume.incarnation)
  }

  ghost predicate Inv(s: State) {
    |s.factors| <= MAX_INT32 && ControlInv(s) && ObjectsInv(s) && ServedInv(s)
  }

  // --- Every step keeps it ----------------------------------------------------

  lemma ReadPinFirst(s: State)
    requires Inv(s) && s.control.ReadPin? && s.factors == []
    ensures ProceedPass(s) == s.(control := WriteConfig(s.control.settings, FirstPin(s.control.settings)))
  {
  }

  lemma ReadPinAgain(s: State)
    requires Inv(s) && s.control.ReadPin? && s.factors != []
    ensures var c := s.control.settings;
            ProceedPass(s) == s.(control := if CurrentPin(s).rf != InitialReplicationFactor(c)
                                            then StopWorkload(c, CurrentPin(s)) else WriteConfig(c, CurrentPin(s)))
  {
    PinOf(s.objects.config.value, CurrentPin(s).rf, s.control.settings);
  }

  lemma ControlMoves(s: State, at: Control)
    requires Inv(s) && ControlInv(s.(control := at))
    ensures Inv(s.(control := at))
  {
  }

  lemma ReadPinKeepsInv(s: State)
    requires Inv(s) && s.control.ReadPin?
    ensures Inv(ProceedPass(s))
  {
    if s.factors == [] {
      ReadPinFirst(s);
    } else {
      ReadPinAgain(s);
    }
    ControlMoves(s, ProceedPass(s).control);
  }

  lemma Written(pin: Pinned)
    requires pin.rf >= 1 && pin.incarnation >= 1
    ensures Holds(Some(BuildConfigMap(System, pin.rf, pin.incarnation)), pin)
  {
    FactorRoundTrip(pin.rf);
    IncarnationRoundTrip(RenderConfig(pin.rf), pin.incarnation);
  }

  lemma NextIncarnationExact(n: int32)
    requires 0 <= n < MAX_INT32
    ensures NextIncarnation(n) == n + 1
  {
  }

  lemma OverwriteFirst(s: State, m: ConfigMap)
    requires Inv(s) && s.control.WriteConfig? && Holds(Some(m), s.control.pin)
    requires s.factors == []
    ensures Inv(Overwrite(s, s.control.settings, s.control.pin, m))
  {
  }

  lemma OverwriteSame(s: State, m: ConfigMap)
    requires Inv(s) && s.control.WriteConfig? && Holds(Some(m), s.control.pin)
    requires s.factors != [] && s.control.pin == CurrentPin(s)
    ensures Inv(Overwrite(s, s.control.settings, s.control.pin, m))
  {
  }

  lemma OverwriteNext(s: State, m: ConfigMap)
    requires Inv(s) && s.control.WriteConfig? && Holds(Some(m), s.control.pin)
    requires s.factors != [] && s.control.pin != CurrentPin(s) && |s.factors| < MAX_INT32
    ensures Inv(Overwrite(s, s.control.settings, s.control.pin, m))
  {
    NextIncarnationExact(|s.factors|);
  }

  lemma OverwriteKeepsInv(s: State, m: ConfigMap)
    requires Inv(s) && s.control.WriteConfig? && Holds(Some(m), s.control.pin)
    requires |Overwrite(s, s.control.settings, s.control.pin, m).factors| <= MAX_INT32
    ensures Inv(Overwrite(s, s.control.settings, s.control.pin, m))
  {
    if s.factors == [] {
      OverwriteFirst(s, m);
    } else if s.control.pin == CurrentPin(s) {
      OverwriteSame(s, m);
    } else {
      OverwriteNext(s, m);
    }
  }

  lemma PinIsPositive(s: State)
    requires Inv(s) && s.control.WriteConfig?
    requires |s.factors| < MAX_INT32 || s.control.pin == CurrentPin(s)
    ensures s.control.pin.rf >= 1 && s.control.pin.incarnation >= 1
  {
  }

  lemma WriteConfigKeepsInv(s: State)
    requires Inv(s) && s.control.WriteConfig? && |ProceedPass(s).factors| <= MAX_INT32
    ensures Inv(ProceedPass(s))
  {
    var pin := s.control.pin;
    PinIsPositive(s);
    Written(pin);
    OverwriteKeepsInv(s, BuildConfigMap(System, pin.rf, pin.incarnation));
  }

  lemma StopClaimsKeepsInv(s: State)
    requires Inv(s) && (s.control.StopWorkload? || s.control.ListClaims? || s.control.StopClaims?)
    ensures Inv(ProceedPass(s))
  {
  }

  lemma ListVolumesKeepsInv(s: State)
    requires Inv(s) && s.control.ListVolumes?
    ensures Inv(ProceedPass(s))
  {
  }

  lemma StopVolumesKeepsInv(s: State)
    requires Inv(s) && s.control.StopVolumes?
    ensures Inv(ProceedPass(s))
  {
    ControlMoves(s, ProceedPass(s).control);
  }

  lemma StopIdentityKeepsInv(s: State)
    requires Inv(s) && s.control.StopIdentity?
    ensures Inv(ProceedPass(s))
  {
  }

  lemma FillPoolKeepsInv(s: State)
    requires Inv(s) && (s.control.FillPool? || s.control.Idle?)
    ensures Inv(ProceedPass(s))
  {
  }

  lemma EnsureIdentityKeepsInv(s: State)
    requires Inv(s) && s.control.EnsureIdentity?
    ensures Inv(ProceedPass(s))
  {
  }

  lemma ApplyWorkloadKeepsInv(s: State)
    requires Inv(s) && s.control.ApplyWorkload?
    ensures Inv(ProceedPass(s))
  {
  }

  lemma CaptureKeysKeepsInv(s: State)
    requires Inv(s) && s.control.CaptureKeys?
    ensures Inv(ProceedPass(s))
  {
  }

  lemma ProceedKeepsInv(s: State)
    requires Inv(s) && |ProceedPass(s).factors| <= MAX_INT32
    ensures Inv(ProceedPass(s))
  {
    match s.control
    case ReadPin(_) => ReadPinKeepsInv(s);
    case WriteConfig(_, _) => WriteConfigKeepsInv(s);
    case StopWorkload(_, _) => StopClaimsKeepsInv(s);
    case ListClaims(_, _, _) => StopClaimsKeepsInv(s);
    case StopClaims(_, _, _, _) => StopClaimsKeepsInv(s);
    case StopIdentity(_, _, _) => StopIdentityKeepsInv(s);
    case ListVolumes(_, _, _) => ListVolumesKeepsInv(s);
    case StopVolumes(_, _, _, _) => StopVolumesKeepsInv(s);
    case EnsureIdentity(_, _) => EnsureIdentityKeepsInv(s);
    case CaptureKeys(_, _) => CaptureKeysKeepsInv(s);
    case ApplyWorkload(_, _) => ApplyWorkloadKeepsInv(s);
    case _ => FillPoolKeepsInv(s);
  }

  /** What the rest of the cluster may do to the objects without a pass's knowledge: it
      creates PVCs and pods only for a live workload, binds volumes that exist, and
      never creates a workload, an identity or a volume. */
  ghost predicate Foreign(o: Objects, p: Objects) {
    && p.config == o.config
    && (o.workload.None? ==> p.workload.None?)
    && (o.workload.None? ==> p.claims.Keys <= o.claims.Keys)
    && (p.identity.Some? ==> o.identity.Some? && p.identity.value.keys == o.identity.value.keys)
    && p.volumes.Keys <= o.volumes.Keys
    && p.pods <= p.claims.Keys
    && (forall c :: c in p.claims && p.claims[c].volume.Some? ==>
          || p.claims[c].volume.value in o.volumes
          || (c in o.claims && o.claims[c].volume == p.claims[c].volume))
  }

  lemma EnvironmentIsForeign(s: State, a: Action)
    requires s.objects.pods <= s.objects.claims.Keys
    ensures Foreign(s.objects, Environment(s, a).objects)
    ensures Environment(s, a).control == s.control && Environment(s, a).factors == s.factors
  {
  }

  lemma StartKeepsInv(s: State, ordinal: nat)
    requires Inv(s)
    ensures Inv(Started(s, ordinal))
  {
  }

  lemma CaptureKeepsInv(s: State, ordinal: nat)
    requires Inv(s)
    ensures Inv(Captured(s, ordinal))
  {
  }

  lemma ForeignKeepsInv(s: State, p: Objects)
    requires Inv(s) && Foreign(s.objects, p)
    ensures Inv(s.(objects := p))
  {
  }

  lemma EnvironmentKeepsInv(s: State, a: Action)
    requires Inv(s)
    ensures Inv(Environment(s, a))
  {
    if a.StartPod? {
      StartKeepsInv(s, a.ordinal);
    } else {
      EnvironmentIsForeign(s, a);
      ForeignKeepsInv(s, Environment(s, a).objects);
    }
  }

  predicate IsControllers(a: Action) {
    a.Begin? || a.Interrupt? || a.Proceed? || a.DropClaim? || a.DropVolume? || a.AddVolume? || a.CaptureKey?
  }

  lemma DropKeepsInv(s: State, a: Action)
    requires Inv(s) && (a.DropClaim? || a.DropVolume? || a.AddVolume?)
    ensures Inv(Apply(s, a))
  {
  }

  lemma BeginKeepsInv(s: State, a: Action)
    requires Inv(s) && (a.Begin? || a.Interrupt?)
    ensures Inv(Apply(s, a))
  {
  }

  lemma StepKeepsInv(s: State, a: Action)
    requires Inv(s) && |Apply(s, a).factors| <= MAX_INT32
    ensures Inv(Apply(s, a))
  {
    if a.Proceed? {
      ProceedKeepsInv(s);
    } else if a.Begin? || a.Interrupt? {
      BeginKeepsInv(s, a);
    } else if a.CaptureKey? {
      CaptureKeepsInv(s, a.ordinal);
    } else if IsControllers(a) {
      DropKeepsInv(s, a);
    } else {
      EnvironmentKeepsInv(s, a);
    }
  }

  // --- Safety over whole runs -------------------------------------------------

  lemma {:induction false} FactorsOnlyGrow(s: State, run: seq<Action>)
    ensures s.factors <= Run(s, run).factors
    decreases run
  {
    if run != [] {
      FactorsOnlyGrow(Apply(s, run[0]), run[1..]);
    }
  }

  lemma {:induction false} RunKeepsInv(s: State, run: seq<Action>)
    requires Inv(s) && |Run(s, run).factors| <= MAX_INT32
    ensures Inv(Run(s, run))
    decreases run
  {
    if run != [] {
      FactorsOnlyGrow(Apply(s, run[0]), run[1..]);
      StepKeepsInv(s, run[0]);
      RunKeepsInv(Apply(s, run[0]), run[1..]);
    }
  }

  /** Fewer recreations than the 32-bit incarnation counter can number. */
  predicate CounterHolds(s: State) {
    |s.factors| <= MAX_INT32
  }

  lemma StartIs(s: State, x: Start)
    requires Inv(s) && x in s.served
    ensures 1 <= x.volume.incarnation <= |s.factors| && x.factor == s.factors[x.volume.incarnation - 1]
  {
  }

  lemma SameVolumeSameFactor(s: State, x: Start, y: Start)
    requires Inv(s) && x in s.served && y in s.served
    ensures x.volume.incarnation >= 1 && y.volume.incarnation >= 1
    ensures x.volume == y.volume ==> x.factor == y.factor
  {
    StartIs(s, x);
    StartIs(s, y);
  }

  /** Every on-disk directory is only ever served under one replication factor: over any
      run of toggles, crashes, deletions and rebinds, two pod starts that mounted the same
      directory read the same factor. */
  lemma OneFactorPerDirectory(
      run: seq<Action>, cluster: string, hash: string -> string, inPlay: iset<string>,
      x: Start, y: Start)
    requires CounterHolds(Run(START, run)) && CollisionFree(hash, inPlay)
    requires x in Run(START, run).served && y in Run(START, run).served
    requires x.volume.node in inPlay && y.volume.node in inPlay
    requires VolumePath(cluster, hash, x.volume) == VolumePath(cluster, hash, y.volume)
    ensures x.factor == y.factor
  {
    assert x.volume.incarnation >= 1 && y.volume.incarnation >= 1
           && (x.volume == y.volume ==> x.factor == y.factor) by {
      RunKeepsInv(START, run);
      SameVolumeSameFactor(Run(START, run), x, y);
    }
    VolumePathsInjective(cluster, hash, inPlay, x.volume, y.volume);
  }

  /** No identity crosses a recreation: over any run every pod boots under a node key made by the
      incarnation its directory belongs to, and the Secret only ever holds keys of the current one. */
  lemma IdentitiesStayInTheirIncarnation(run: seq<Action>)
    requires CounterHolds(Run(START, run))
    ensures var s := Run(START, run);
            && (forall x :: x in s.served ==> x.keyFrom == x.volume.incarnation)
            && (s.objects.identity.Some? ==>
                  && s.objects.config.Some?
                  && forall c :: c in s.objects.identity.value.keys ==>
                       s.objects.identity.value.keys[c] == IncarnationFromConfigMap(s.objects.config.value))
  {
    RunKeepsInv(START, run);
  }

  /** The counter condition is needed: the number after the last 32-bit one is negative,
      reads back as the first incarnation and names its directories once more. */
  lemma WrappedCounterReusesFirstDirectories(toml: string, cluster: string, hash: string -> string, node: string,
      i: nat)
    ensures var wrapped := NextIncarnation(MAX_INT32);
            && IncarnationFromConfigMap(ConfigMap(toml, FormatInt(wrapped))) == FIRST_INCARNATION
            && VolumePath(cluster, hash, Slot(node, wrapped, i)) ==
                VolumePath(cluster, hash, Slot(node, FIRST_INCARNATION, i))
  {
    IncarnationRoundTrip(toml, NextIncarnation(MAX_INT32));
  }

  /** The next incarnation's directories are none of those of the incarnations before it. */
  ghost predicate NextDirectoriesAreNew(cluster: string, hash: string -> string, inPlay: iset<string>, n: int32) {
    forall s: Slot, t: Slot ::
      s.node in inPlay && t.node in inPlay && 1 <= s.incarnation <= n && t.incarnation == NextIncarnation(n) ==>
        VolumePath(cluster, hash, s) != VolumePath(cluster, hash, t)
  }

  /** Exactly when that holds: as long as the counter has not reached its last value. */
  lemma NextDirectoriesAreNewIff(
      cluster: string, hash: string -> string, inPlay: iset<string>, node: string, n: int32)
    requires CollisionFree(hash, inPlay) && node in inPlay && n >= 1
    ensures NextDirectoriesAreNew(cluster, hash, inPlay, n) <==> n < MAX_INT32
  {
    if n < MAX_INT32 {
      NextIncarnationExact(n);
      forall s: Slot, t: Slot |
        s.node in inPlay && t.node in inPlay && 1 <= s.incarnation <= n && t.incarnation == NextIncarnation(n)
        ensures VolumePath(cluster, hash, s) != VolumePath(cluster, hash, t)
      {
        if VolumePath(cluster, hash, s) == VolumePath(cluster, hash, t) {
          VolumePathsInjective(cluster, hash, inPlay, s, t);
        }
      }
    } else {
      WrappedCounterReusesFirstDirectories("", cluster, hash, node, 0);
      var first, wrapped := Slot(node, FIRST_INCARNATION, 0), Slot(node, NextIncarnation(n), 0);
      assert VolumePath(cluster, hash, first) == VolumePath(cluster, hash, wrapped);
    }
  }

  /** The pair a ConfigMap pins, as a pass reads it. */
  function ReadBack(m: ConfigMap): (int32, int32) {
    (FactorFromText(m.toml), IncarnationFromConfigMap(m))
  }

  /** The pinned pair stays, or nothing at all is left and both halves move, the incarnation by one. */
  ghost predicate PinMovesOverNothing(o: Objects, p: Objects)
    requires o.config.Some?
  {
    && p.config.Some?
    && var (rf, inc), (rf', inc') := ReadBack(o.config.value), ReadBack(p.config.value);
       || (rf' == rf && inc' == inc)
       || (rf' != rf && inc' == inc + 1 && AllGone(o) && o.pods == {})
  }

  /** The pinned pair changes only over a data plane that is completely gone, and the
      incarnation then rises by one together with a change of factor. */
  lemma PinChangesOnlyOverNothing(run: seq<Action>, a: Action)
    requires Run(START, run).objects.config.Some?
    requires CounterHolds(Apply(Run(START, run), a))
    ensures PinMovesOverNothing(Run(START, run).objects, Apply(Run(START, run), a).objects)
  {
    var s := Run(START, run);
    FactorsOnlyGrow(s, [a]);
    assert Run(s, [a]) == Apply(s, a) by { assert [a][1..] == []; }
    RunKeepsInv(START, run);
    PinChange(s, a);
  }

  lemma PinChange(s: State, a: Action)
    requires Inv(s) && s.objects.config.Some? && CounterHolds(Apply(s, a))
    ensures PinMovesOverNothing(s.objects, Apply(s, a).objects)
  {
    StepKeepsInv(s, a);
    PinStep(s, a);
    PinChangesTo(s, Apply(s, a), s.control);
  }

  lemma PinChangesTo(s: State, t: State, at: Control)
    requires Inv(s) && Inv(t) && s.factors != []
    requires || t.factors == s.factors
             || (&& AllGone(s.objects) && s.objects.pods == {} && at.WriteConfig?
                 && t.factors == s.factors + [at.pin.rf] && at.pin.rf != CurrentPin(s).rf)
    ensures s.objects.config.Some? && PinMovesOverNothing(s.objects, t.objects)
  {
    PairOf(s);
    PairOf(t);
  }

  lemma PairOf(s: State)
    requires Inv(s) && s.factors != []
    ensures s.objects.config.Some? && ReadBack(s.objects.config.value) == (CurrentPin(s).rf, |s.factors|)
  {
  }

  /** Only the configuration write touches the history of factors. */
  lemma PinStep(s: State, a: Action)
    requires Inv(s) && s.factors != []
    ensures || Apply(s, a).factors == s.factors
            || (&& AllGone(s.objects) && s.objects.pods == {} && s.control.WriteConfig?
                && Apply(s, a).factors == s.factors + [s.control.pin.rf]
                && s.control.pin.rf != CurrentPin(s).rf)
  {
    if !(a.Proceed? && s.control.WriteConfig?) {
      assert Apply(s, a).factors == s.factors;
    }
  }

  // --- Teardown -----------------------------------------------------------------

  /** A teardown is under way and no pass is rebuilding. */
  ghost predicate Draining(s: State) {
    && Inv(s) && s.factors != []
    && !InBuild(s.control) && !s.control.WriteConfig?
    && (s.objects.workload.Some? ==> s.objects.workload.value.deleting)
  }

  /** The settings still ask for another factor. */
  predicate StillSwitching(s: State, a: Action)
    requires 1 <= |s.factors| <= MAX_INT32
  {
    (s.control.ReadPin? ==> InitialReplicationFactor(s.control.settings) != CurrentPin(s).rf)
    && (a.Begin? ==> InitialReplicationFactor(a.cluster) != CurrentPin(s).rf)
  }

  predicate Finalizes(s: State, a: Action) {
    match a
    case WorkloadGone => s.objects.workload == Some(Marker(true))
    case ClaimGone(c) => c in s.objects.claims && s.objects.claims[c].deleting && c !in s.objects.pods
    case IdentityGone => s.objects.identity.Some? && s.objects.identity.value.deleting
    case VolumeGone(v) => v in s.objects.volumes && s.objects.volumes[v].deleting && !s.objects.volumes[v].phase.Bound?
    case _ => false
  }

  predicate NothingCreated(o: Objects, p: Objects) {
    && (p.workload.Some? ==> o.workload.Some?) && p.claims.Keys <= o.claims.Keys
    && (p.identity.Some? ==> o.identity.Some?) && p.volumes.Keys <= o.volumes.Keys && p.pods <= o.pods + o.claims.Keys
  }

  lemma NothingRemains(o: Objects)
    ensures Remaining(o) == 0 <==> AllGone(o)
  {
    assert |o.claims| == 0 <==> o.claims == map[];
    assert |o.volumes| == 0 <==> o.volumes == map[];
  }

  lemma FewerKeys<K, V, W>(m: map<K, V>, n: map<K, W>)
    requires m.Keys <= n.Keys
    ensures |m| <= |n|
  {
    SubsetSize(m.Keys, n.Keys);
    assert |m| == |m.Keys| && |n| == |n.Keys|;
  }

  lemma DrainForeign(s: State, a: Action)
    requires !IsControllers(a) && (s.objects.workload.Some? ==> s.objects.workload.value.deleting)
    ensures NothingCreated(s.objects, Apply(s, a).objects)
    ensures Apply(s, a).objects.workload.Some? ==> Apply(s, a).objects.workload.value.deleting
    ensures Apply(s, a).control == s.control && Apply(s, a).factors == s.factors
  {
  }

  lemma DrainController(s: State, a: Action)
    requires Draining(s) && StillSwitching(s, a) && IsControllers(a)
    ensures var t := Apply(s, a);
            && NothingCreated(s.objects, t.objects)
            && t.factors == s.factors
            && (t.objects.workload.Some? ==> t.objects.workload.value.deleting)
            && !InBuild(t.control)
            && (t.control.WriteConfig? ==>
                  && AllGone(s.objects) && t.control.pin.rf != CurrentPin(s).rf
                  && t.control.pin.incarnation == NextIncarnation(|s.factors|))
  {
    if s.control.ReadPin? {
      PinOf(s.objects.config.value, CurrentPin(s).rf, s.control.settings);
    }
  }

  lemma FinalizationRemovesOne(s: State, a: Action)
    requires Finalizes(s, a)
    ensures Remaining(Apply(s, a).objects) == Remaining(s.objects) - 1
  {
    var o, p := s.objects, Apply(s, a).objects;
    match a
    case ClaimGone(c) =>
      assert p.claims.Keys == o.claims.Keys - {c};
      assert p.volumes.Keys == o.volumes.Keys;
      SameSize(p.volumes, o.volumes);
      OneFewer(o.claims, p.claims, c);
    case VolumeGone(v) =>
      assert p.volumes.Keys == o.volumes.Keys - {v};
      OneFewer(o.volumes, p.volumes, v);
    case _ =>
  }

  lemma SameSize<K, V>(m: map<K, V>, n: map<K, V>)
    requires m.Keys == n.Keys
    ensures |m| == |n|
  {
    assert |m| == |m.Keys| && |n| == |n.Keys|;
  }

  lemma OneFewer<K, V>(m: map<K, V>, n: map<K, V>, k: K)
    requires k in m && n.Keys == m.Keys - {k}
    ensures |n| == |m| - 1
  {
    assert |m| == |m.Keys| && |n| == |n.Keys|;
  }

  /** An unfinished teardown creates nothing, and every object that goes away brings the
      end one step nearer; it ends only in a pass that found nothing at all. */
  lemma TeardownOnlyRemoves(s: State, a: Action)
    requires Draining(s) && StillSwitching(s, a)
    ensures var t := Apply(s, a);
            && NothingCreated(s.objects, t.objects)
            && Remaining(t.objects) <= Remaining(s.objects)
            && (Finalizes(s, a) ==> Remaining(t.objects) == Remaining(s.objects) - 1)
            && (Draining(t)
                || (&& t.control.WriteConfig? && AllGone(s.objects)
                    && t.control.pin.rf != CurrentPin(s).rf
                    && t.control.pin.incarnation == NextIncarnation(|s.factors|)))
  {
    var t := Apply(s, a);
    if IsControllers(a) {
      DrainController(s, a);
    } else {
      DrainForeign(s, a);
    }
    FewerKeys(t.objects.claims, s.objects.claims);
    FewerKeys(t.objects.volumes, s.objects.volumes);
    StepKeepsInv(s, a);
    if Finalizes(s, a) {
      FinalizationRemovesOne(s, a);
    }
  }

  // --- A teardown finishes --------------------------------------------------------

  /** A volume is Bound only while some PVC holds it. */
  ghost predicate BoundInv(o: Objects) {
    forall v :: v in o.volumes && o.volumes[v].phase.Bound? ==>
      exists c :: c in o.claims && o.claims[c].volume == Some(v)
  }

  /** Enough for that: no volume newly becomes Bound, and a PVC keeps its volume for as long as the
      volume is Bound. */
  lemma BoundKept(o: Objects, p: Objects)
    requires BoundInv(o)
    requires forall v :: v in p.volumes && p.volumes[v].phase.Bound? ==> v in o.volumes && o.volumes[v].phase.Bound?
    requires forall c :: c in o.claims && o.claims[c].volume.Some? && o.claims[c].volume.value in p.volumes
                         && p.volumes[o.claims[c].volume.value].phase.Bound? ==>
               c in p.claims && p.claims[c].volume == o.claims[c].volume
    ensures BoundInv(p)
  {
    forall v | v in p.volumes && p.volumes[v].phase.Bound?
      ensures exists c :: c in p.claims && p.claims[c].volume == Some(v)
    {
      var c :| c in o.claims && o.claims[c].volume == Some(v);
      assert c in p.claims;
    }
  }

  lemma BindKeepsBoundInv(s: State, ordinal: nat, slot: Slot)
    requires BoundInv(s.objects)
    ensures BoundInv(Environment(s, Bind(ordinal, slot)).objects)
  {
    var o, p := s.objects, Environment(s, Bind(ordinal, slot)).objects;
    if p != o {
      assert p.claims[ordinal].volume == Some(slot);
      forall v | v in p.volumes && p.volumes[v].phase.Bound? && v != slot
        ensures exists c :: c in p.claims && p.claims[c].volume == Some(v)
      {
        var c :| c in o.claims && o.claims[c].volume == Some(v);
        assert c in p.claims && p.claims[c].volume == Some(v);
      }
    }
  }

  lemma EnvironmentKeepsBoundInv(s: State, a: Action)
    requires BoundInv(s.objects)
    ensures BoundInv(Environment(s, a).objects)
  {
    if a.Bind? {
      BindKeepsBoundInv(s, a.ordinal, a.slot);
    } else {
      BoundKept(s.objects, Environment(s, a).objects);
    }
  }

  lemma OverwriteFrame(s: State, c: Cluster, pin: Pinned, m: ConfigMap)
    ensures var o := Overwrite(s, c, pin, m).objects;
            o.claims == s.objects.claims && o.volumes == s.objects.volumes
  {
  }

  lemma ProceedFrame(s: State)
    requires !s.control.WriteConfig?
    ensures ProceedPass(s).objects.claims == s.objects.claims && ProceedPass(s).objects.volumes == s.objects.volumes
  {
  }

  lemma ProceedKeepsBoundInv(s: State)
    requires BoundInv(s.objects)
    ensures BoundInv(ProceedPass(s).objects)
  {
    if s.control.WriteConfig? {
      var pin := s.control.pin;
      OverwriteFrame(s, s.control.settings, pin, BuildConfigMap(System, pin.rf, pin.incarnation));
    } else {
      ProceedFrame(s);
    }
  }

  lemma StepKeepsBoundInv(s: State, a: Action)
    requires BoundInv(s.objects)
    ensures BoundInv(Apply(s, a).objects)
  {
    if a.Proceed? {
      ProceedKeepsBoundInv(s);
    } else if IsControllers(a) {
      BoundKept(s.objects, Apply(s, a).objects);
    } else {
      EnvironmentKeepsBoundInv(s, a);
    }
  }

  predicate AllMarked(o: Objects) {
    && (o.workload.Some? ==> o.workload.value.deleting)
    && (forall c :: c in o.claims ==> o.claims[c].deleting)
    && (o.identity.Some? ==> o.identity.value.deleting)
    && (forall v :: v in o.volumes ==> o.volumes[v].deleting)
  }

  /** Once everything is marked, the finalizers and the pods' departure alone empty the data
      plane, in at most one step per object and pod. */
  lemma {:induction false} TeardownCanFinish(s: State) returns (run: seq<Action>)
    requires BoundInv(s.objects) && AllMarked(s.objects)
    ensures AllGone(Run(s, run).objects)
    ensures |run| <= Remaining(s.objects) + |s.objects.pods|
    ensures forall i :: 0 <= i < |run| ==> !IsControllers(run[i])
    decreases Remaining(s.objects) + |s.objects.pods|
  {
    if AllGone(s.objects) {
      run := [];
      return;
    }
    var a := NextRemoval(s);
    StepKeepsBoundInv(s, a);
    var rest := TeardownCanFinish(Apply(s, a));
    run := [a] + rest;
    assert run[1..] == rest;
  }

  /** Something can always go: a pod, or else an object no pod holds back. */
  lemma NextRemoval(s: State) returns (a: Action)
    requires BoundInv(s.objects) && AllMarked(s.objects) && !AllGone(s.objects)
    ensures !IsControllers(a) && AllMarked(Apply(s, a).objects)
    ensures Remaining(Apply(s, a).objects) + |Apply(s, a).objects.pods| < Remaining(s.objects) + |s.objects.pods|
  {
    var o := s.objects;
    if o.pods != {} {
      var c :| c in o.pods;
      a := PodGone(c);
    } else {
      if o.workload.Some? {
        a := WorkloadGone;
      } else if o.identity.Some? {
        a := IdentityGone;
      } else if o.claims != map[] {
        var c :| c in o.claims.Keys;
        a := ClaimGone(c);
      } else {
        var v :| v in o.volumes.Keys;
        a := VolumeGone(v);
      }
      FinalizationRemovesOne(s, a);
    }
  }

  // --- The teardown itself ----------------------------------------------------------

  function AllClaimsMarked(claims: map<nat, Claim>): map<nat, Claim> {
    map c | c in claims :: claims[c].(deleting := true)
  }

  function AllVolumesMarked(volumes: map<Slot, Volume>): map<Slot, Volume> {
    map v | v in volumes :: volumes[v].(deleting := true)
  }

  /** Every object of the data plane, marked for deletion. */
  function Marked(o: Objects): Objects {
    o.(workload := if o.workload.Some? then Some(Marker(true)) else None,
       claims := AllClaimsMarked(o.claims),
       identity := MarkIdentity(o).identity,
       volumes := AllVolumesMarked(o.volumes))
  }

  /** The objects a teardown pass reads and deletes, as the API server holds them. */
  class DataPlaneObjects {
    var workload: Option<Marker>
    var claims: map<nat, Claim>
    var identity: Option<Identity>
    var volumes: map<Slot, Volume>

    /** `config` and `pods` are not the teardown's to change. */
    function View(config: Option<ConfigMap>, pods: set<nat>): Objects
      reads this
    {
      Objects(config, workload, claims, pods, identity, volumes)
    }

    method DeleteClaimIfNotDeleting(c: nat)
      requires c in claims
      modifies this`claims
      ensures claims == old(claims)[c := old(claims)[c].(deleting := true)]
    {
      if !claims[c].deleting {
        claims := claims[c := claims[c].(deleting := true)];
      }
    }

    method DeleteVolumeIfNotDeleting(v: Slot)
      requires v in volumes
      modifies this`volumes
      ensures volumes == old(volumes)[v := old(volumes)[v].(deleting := true)]
    {
      if !volumes[v].deleting {
        volumes := volumes[v := volumes[v].(deleting := true)];
      }
    }

    method DeleteClaims() returns (found: nat)
      modifies this`claims
      ensures found == |old(claims)|
      ensures claims == AllClaimsMarked(old(claims))
    {
      found := 0;
      var listed := claims.Keys;
      while listed != {}
        invariant listed <= old(claims).Keys == claims.Keys
        invariant found + |listed| == |old(claims)|
        invariant forall c :: c in claims ==>
                    claims[c] == if c in listed then old(claims)[c] else old(claims)[c].(deleting := true)
        decreases listed
      {
        var c :| c in listed;
        found := found + 1;
        DeleteClaimIfNotDeleting(c);
        listed := listed - {c};
      }
    }

    method DeleteVolumes() returns (found: nat)
      modifies this`volumes
      ensures found == |old(volumes)|
      ensures volumes == AllVolumesMarked(old(volumes))
    {
      found := 0;
      var listed := volumes.Keys;
      while listed != {}
        invariant listed <= old(volumes).Keys == volumes.Keys
        invariant found + |listed| == |old(volumes)|
        invariant forall v :: v in volumes ==>
                    volumes[v] == if v in listed then old(volumes)[v] else old(volumes)[v].(deleting := true)
        decreases listed
      {
        var v :| v in listed;
        found := found + 1;
        DeleteVolumeIfNotDeleting(v);
        listed := listed - {v};
      }
    }

    /** One uninterrupted teardown pass. It reports done only when it found nothing, and the
        number it reports is the number of objects that were there. */
    method Teardown(ghost config: Option<ConfigMap>, ghost pods: set<nat>) returns (done: bool, remaining: nat)
      modifies this
      ensures View(config, pods) == Marked(old(View(config, pods)))
      ensures remaining == Remaining(old(View(config, pods)))
      ensures done <==> AllGone(old(View(config, pods)))
    {
      remaining := 0;
      if workload.Some? {
        remaining := remaining + 1;
        workload := Some(Marker(true));
      }
      var foundClaims := DeleteClaims();
      remaining := remaining + foundClaims;
      if identity.Some? {
        remaining := remaining + 1;
        identity := Some(identity.value.(deleting := true));
      }
      var foundVolumes := DeleteVolumes();
      remaining := remaining + foundVolumes;
      done := remaining == 0;
      NothingRemains(old(View(config, pods)));
    }
  }

  // --- The uninterrupted pass is one of the machine's runs ---------------------------

  lemma {:induction false} RunTwice(s: State, first: seq<Action>, second: seq<Action>)
    ensures Run(s, first + second) == Run(Run(s, first), second)
    decreases first
  {
    if first == [] {
      assert first + second == second;
    } else {
      assert (first + second)[1..] == first[1..] + second;
      RunTwice(Apply(s, first[0]), first[1..], second);
    }
  }

  lemma RunThrice(s: State, first: seq<Action>, second: seq<Action>, third: seq<Action>)
    ensures Run(s, first + second + third) == Run(Run(Run(s, first), second), third)
  {
    RunTwice(s, first, second);
    RunTwice(s, first + second, third);
  }

  lemma {:induction false} DropClaims(s: State) returns (run: seq<Action>)
    requires s.control.StopClaims? && s.control.claimsLeft <= s.objects.claims.Keys
    ensures Run(s, run) == s.(
              objects := s.objects.(claims := map c | c in s.objects.claims ::
                           if c in s.control.claimsLeft then s.objects.claims[c].(deleting := true)
                               else s.objects.claims[c]),
              control := s.control.(claimsLeft := {}))
    ensures forall i :: 0 <= i < |run| ==> IsControllers(run[i])
    decreases s.control.claimsLeft
  {
    if s.control.claimsLeft == {} {
      run := [];
      assert s.objects.claims == map c | c in s.objects.claims :: s.objects.claims[c];
    } else {
      var c :| c in s.control.claimsLeft;
      var t := Apply(s, DropClaim(c));
      var rest := DropClaims(t);
      run := [DropClaim(c)] + rest;
      assert run[1..] == rest;
    }
  }

  lemma {:induction false} DropVolumes(s: State) returns (run: seq<Action>)
    requires s.control.StopVolumes? && s.control.volumesLeft <= s.objects.volumes.Keys
    ensures Run(s, run) == s.(
              objects := s.objects.(volumes := map v | v in s.objects.volumes ::
                           if v in s.control.volumesLeft then s.objects.volumes[v].(deleting := true)
                               else s.objects.volumes[v]),
              control := s.control.(volumesLeft := {}))
    ensures forall i :: 0 <= i < |run| ==> IsControllers(run[i])
    decreases s.control.volumesLeft
  {
    if s.control.volumesLeft == {} {
      run := [];
      assert s.objects.volumes == map v | v in s.objects.volumes :: s.objects.volumes[v];
    } else {
      var v :| v in s.control.volumesLeft;
      var t := Apply(s, DropVolume(v));
      var rest := DropVolumes(t);
      run := [DropVolume(v)] + rest;
      assert run[1..] == rest;
    }
  }

  function MarkedClaims(o: Objects): Objects {
    o.(workload := if o.workload.Some? then Some(Marker(true)) else None,
       claims := AllClaimsMarked(o.claims))
  }

  function MarkedRest(o: Objects): Objects {
    o.(identity := MarkIdentity(o).identity,
       volumes := AllVolumesMarked(o.volumes))
  }

  lemma FirstHalfIsARun(s: State) returns (run: seq<Action>)
    requires s.control.StopWorkload?
    ensures forall i :: 0 <= i < |run| ==> IsControllers(run[i])
    ensures Run(s, run) ==
            s.(objects := MarkedClaims(s.objects),
               control := StopIdentity(s.control.settings, s.control.pin,
                            (if s.objects.workload.Some? then 1 else 0) + |s.objects.claims|))
  {
    var s1 := ProceedPass(ProceedPass(s));
    TwoSteps(s);
    var drops := DropClaims(s1);
    var s2 := Run(s1, drops);
    assert s2.objects == MarkedClaims(s.objects);
    OneStep(s2);
    run := [Proceed, Proceed] + drops + [Proceed];
    RunThrice(s, [Proceed, Proceed], drops, [Proceed]);
  }

  lemma SecondHalfIsARun(s: State) returns (run: seq<Action>)
    requires s.control.StopIdentity?
    ensures forall i :: 0 <= i < |run| ==> IsControllers(run[i])
    ensures var at := s.control;
            var n := at.remaining + (if s.objects.identity.Some? then 1 else 0) + |s.objects.volumes|;
            Run(s, run) ==
            s.(objects := MarkedRest(s.objects),
               control := if n > 0 then Idle else WriteNext(at.settings, at.pin))
  {
    var s1 := ProceedPass(ProceedPass(s));
    TwoSteps(s);
    var sweeps := DropVolumes(s1);
    var s2 := Run(s1, sweeps);
    assert s2.objects == MarkedRest(s.objects);
    OneStep(s2);
    run := [Proceed, Proceed] + sweeps + [Proceed];
    RunThrice(s, [Proceed, Proceed], sweeps, [Proceed]);
  }

  /** From the decision to tear down, controller steps alone reach the state the method above
      leaves, and then either the pass ends or the new pin is about to be written. */
  lemma TeardownPassIsARun(s: State) returns (run: seq<Action>)
    requires s.control.StopWorkload?
    ensures forall i :: 0 <= i < |run| ==> IsControllers(run[i])
    ensures Run(s, run) ==
            s.(objects := Marked(s.objects),
               control := if Remaining(s.objects) > 0 then Idle else WriteNext(s.control.settings, s.control.pin))
  {
    var first := FirstHalfIsARun(s);
    var second := SecondHalfIsARun(Run(s, first));
    RunTwice(s, first, second);
    run := first + second;
  }

  lemma OneStep(s: State)
    ensures Run(s, [Proceed]) == ProceedPass(s)
  {
    assert [Proceed][1..] == [];
  }

  lemma TwoSteps(s: State)
    ensures Run(s, [Proceed, Proceed]) == ProceedPass(ProceedPass(s))
  {
    assert [Proceed, Proceed][1..] == [Proceed];
    OneStep(ProceedPass(s));
  }

  // --- A switch can always be completed -----------------------------------------------

  lemma {:induction false} RunKeepsBoundInv(s: State, run: seq<Action>)
    requires BoundInv(s.objects)
    ensures BoundInv(Run(s, run).objects)
    decreases run
  {
    if run != [] {
      StepKeepsBoundInv(s, run[0]);
      RunKeepsBoundInv(Apply(s, run[0]), run[1..]);
    }
  }

  lemma EnvironmentFrame(s: State, a: Action)
    ensures Environment(s, a).control == s.control && Environment(s, a).factors == s.factors
    ensures Environment(s, a).objects.config == s.objects.config
  {
  }

  lemma {:induction false} ForeignRunFrame(s: State, run: seq<Action>)
    requires forall i :: 0 <= i < |run| ==> !IsControllers(run[i])
    ensures Run(s, run).control == s.control && Run(s, run).factors == s.factors
    ensures Run(s, run).objects.config == s.objects.config
    decreases run
  {
    if run != [] {
      assert !IsControllers(run[0]);
      EnvironmentFrame(s, run[0]);
      ForeignRunFrame(Apply(s, run[0]), run[1..]);
    }
  }

  /** A new pass under the same wish comes back to the teardown. */
  lemma PassDecidesTeardown(s: State, c: Cluster)
    requires Inv(s) && s.control.Idle? && s.factors != []
    requires c.kind.System? && InitialReplicationFactor(c) != CurrentPin(s).rf
    ensures Run(s, [Begin(c), Proceed]) == s.(control := StopWorkload(c, CurrentPin(s)))
  {
    PinOf(s.objects.config.value, CurrentPin(s).rf, c);
    assert [Begin(c), Proceed][1..] == [Proceed];
    OneStep(Apply(s, Begin(c)));
  }

  /** Where a teardown is headed: nothing left, the old pin still in place, the next about to be
      written. */
  ghost predicate AboutToSwitch(s: State, t: State, c: Cluster)
    requires 1 <= |s.factors| <= MAX_INT32
  {
    && AllGone(t.objects) && t.objects.config == s.objects.config && t.factors == s.factors
    && t.control == WriteNext(c, CurrentPin(s)) && InitialReplicationFactor(c) != CurrentPin(s).rf
  }

  lemma MarkedIsMarked(o: Objects)
    ensures AllMarked(Marked(o)) && Marked(o).config == o.config
    ensures AllGone(Marked(o)) <==> AllGone(o)
  {
  }

  /** One pass marks what is there; pods and finalizers do the rest; the next pass finds nothing. */
  lemma TeardownReachesTheWrite(s: State) returns (run: seq<Action>)
    requires Inv(s) && BoundInv(s.objects) && s.control.StopWorkload?
    ensures AboutToSwitch(s, Run(s, run), s.control.settings)
  {
    var c := s.control.settings;
    var first := TeardownPassIsARun(s);
    var s1 := Run(s, first);
    MarkedIsMarked(s.objects);
    NothingRemains(s.objects);
    if Remaining(s.objects) == 0 {
      return first;
    }
    RunKeepsInv(s, first);
    RunKeepsBoundInv(s, first);
    var second := TeardownCanFinish(s1);
    var s2 := Run(s1, second);
    ForeignRunFrame(s1, second);
    RunKeepsInv(s1, second);
    PassDecidesTeardown(s2, c);
    var s3 := Run(s2, [Begin(c), Proceed]);
    NothingRemains(s3.objects);
    MarkedIsMarked(s3.objects);
    var last := TeardownPassIsARun(s3);
    RunThrice(s, first, second, [Begin(c), Proceed]);
    RunTwice(s, first + second + [Begin(c), Proceed], last);
    run := first + second + [Begin(c), Proceed] + last;
  }

  /** Every teardown that a run ever starts can be finished: some continuation empties the data
      plane and stands before the write of the wanted factor at the next incarnation. */
  lemma EveryTeardownCanFinish(run: seq<Action>) returns (more: seq<Action>)
    requires CounterHolds(Run(START, run)) && Run(START, run).control.StopWorkload?
    ensures Run(START, run).factors != []
    ensures AboutToSwitch(Run(START, run), Run(START, run + more), Run(START, run).control.settings)
  {
    RunKeepsInv(START, run);
    RunKeepsBoundInv(START, run);
    more := TeardownReachesTheWrite(Run(START, run));
    RunTwice(START, run, more);
  }

  lemma WrittenReadsBack(pin: Pinned)
    requires pin.rf >= 1 && pin.incarnation >= 1
    ensures ReadBack(BuildConfigMap(System, pin.rf, pin.incarnation)) == (pin.rf, pin.incarnation)
  {
    Written(pin);
  }

  lemma SwitchWrites(s: State, t: State, c: Cluster)
    requires Inv(s) && Inv(t) && 1 <= |s.factors| < MAX_INT32 && AboutToSwitch(s, t, c)
    ensures var u := ProceedPass(t);
            && AllGone(u.objects) && s.objects.config.Some? && u.objects.config.Some?
            && ReadBack(u.objects.config.value) ==
               (InitialReplicationFactor(c), ReadBack(s.objects.config.value).1 + 1)
  {
    NextIncarnationExact(|s.factors|);
    PairOf(s);
    WrittenReadsBack(t.control.pin);
  }

  /** From anywhere, a crash and a new pass lead into the teardown. */
  lemma BackToTeardown(s: State, c: Cluster) returns (run: seq<Action>)
    requires Inv(s) && s.factors != []
    requires c.kind.System? && InitialReplicationFactor(c) != CurrentPin(s).rf
    ensures Run(s, run) == s.(control := StopWorkload(c, CurrentPin(s)))
  {
    var s1 := Apply(s, Interrupt);
    StepKeepsInv(s, Interrupt);
    assert Run(s, [Interrupt]) == s1 by { assert [Interrupt][1..] == []; }
    PassDecidesTeardown(s1, c);
    run := [Interrupt] + [Begin(c), Proceed];
    RunTwice(s, [Interrupt], [Begin(c), Proceed]);
  }

  lemma SwitchCompletes(s: State, c: Cluster) returns (run: seq<Action>)
    requires Inv(s) && BoundInv(s.objects) && 1 <= |s.factors| < MAX_INT32
    requires c.kind.System? && InitialReplicationFactor(c) != CurrentPin(s).rf
    ensures var o, p := s.objects, Run(s, run).objects;
            && AllGone(p) && o.config.Some? && p.config.Some?
            && ReadBack(p.config.value) == (InitialReplicationFactor(c), ReadBack(o.config.value).1 + 1)
  {
    var first := BackToTeardown(s, c);
    var s1 := Run(s, first);
    RunKeepsInv(s, first);
    var second := TeardownReachesTheWrite(s1);
    var s2 := Run(s1, second);
    RunKeepsInv(s1, second);
    SwitchWrites(s1, s2, c);
    OneStep(s2);
    run := first + second + [Proceed];
    RunThrice(s, first, second, [Proceed]);
  }

  /** From every reachable state and for every System settings that ask for another factor than the
      pinned one, the switch can be completed: a continuation ends with that factor pinned at the
      next incarnation, over a data plane that is completely gone. */
  lemma SwitchCanComplete(run: seq<Action>, c: Cluster) returns (more: seq<Action>)
    requires Run(START, run).objects.config.Some? && |Run(START, run).factors| < MAX_INT32
    requires c.kind.System?
    requires InitialReplicationFactor(c) != FactorFromText(Run(START, run).objects.config.value.toml)
    ensures var o, p := Run(START, run).objects, Run(START, run + more).objects;
            && AllGone(p) && p.config.Some?
            && ReadBack(p.config.value) == (InitialReplicationFactor(c), ReadBack(o.config.value).1 + 1)
  {
    RunKeepsInv(START, run);
    RunKeepsBoundInv(START, run);
    more := SwitchCompletes(Run(START, run), c);
    RunTwice(START, run, more);
  }

  // --- Identities are captured ------------------------------------------------------------

  /** A replica that has started is known by the key in its directory. */
  lemma StartLeavesAKey(s: State, ordinal: nat)
    requires Mounted(s.objects, ordinal).Some? && s.objects.config.Some?
    ensures var v := Mounted(s.objects, ordinal).value;
            && v in Started(s, ordinal).disk
            && Mounted(Started(s, ordinal).objects, ordinal) == Some(v)
            && exists x :: x in Started(s, ordinal).served && x.volume == v && x.keyFrom == Started(s, ordinal).disk[v]
  {
    var v, config := Mounted(s.objects, ordinal).value, s.objects.config.value;
    var key := KeyFrom(s.objects, s.disk, ordinal, v, IncarnationFromConfigMap(config));
    assert Start(v, FactorFromText(config.toml), key) in Started(s, ordinal).served;
  }

  /** A pass over a replica that has started stores its key, and keeps one stored before. */
  lemma PassStoresKey(s: State, ordinal: nat)
    requires s.control.EnsureIdentity? && Mounted(s.objects, ordinal).Some?
    requires Mounted(s.objects, ordinal).value in s.disk
    ensures var t := Run(s, [Proceed, CaptureKey(ordinal)]);
            && t.control.CaptureKeys? && t.objects.identity.Some? && ordinal in t.objects.identity.value.keys
            && t.objects.identity.value.keys[ordinal] ==
               (if s.objects.identity.Some? && ordinal in s.objects.identity.value.keys
                then s.objects.identity.value.keys[ordinal] else s.disk[Mounted(s.objects, ordinal).value])
            && (s.objects.identity.Some? ==> forall o :: o in s.objects.identity.value.keys ==>
                  && o in t.objects.identity.value.keys
                  && t.objects.identity.value.keys[o] == s.objects.identity.value.keys[o])
  {
    RunTwoMore(s, Proceed, CaptureKey(ordinal));
  }

  // --- Without the ConfigMap ------------------------------------------------------------

  lemma WriteWithoutConfig(s: State, c: Cluster)
    requires s.objects.config.None? && s.control == WriteConfig(c, FirstPin(c))
    ensures var t := ProceedPass(s);
            && t.objects.config.Some?
            && FactorFromText(t.objects.config.value.toml) == InitialReplicationFactor(c)
            && t == s.(objects := s.objects.(config := t.objects.config), control := FillPool(c, FirstPin(c)),
                       factors := t.factors)
  {
    Written(Pinned(InitialReplicationFactor(c), FIRST_INCARNATION, true));
  }

  lemma RunStep(s: State, a: Action, rest: seq<Action>)
    ensures Run(s, [a] + rest) == Run(Apply(s, a), rest)
  {
    assert ([a] + rest)[1..] == rest;
  }

  lemma FourSteps(s: State, c: Cluster, ordinal: nat)
    ensures Run(s, [Begin(c), Proceed, Proceed, StartPod(ordinal)]) ==
            Started(ProceedPass(ProceedPass(Apply(s, Begin(c)))), ordinal)
  {
    var s1 := Apply(s, Begin(c));
    var last := StartPod(ordinal);
    RunStep(s, Begin(c), [Proceed, Proceed, last]);
    RunStep(s1, Proceed, [Proceed, last]);
    RunStep(ProceedPass(s1), Proceed, [last]);
    RunStep(ProceedPass(ProceedPass(s1)), last, []);
    assert [Begin(c)] + [Proceed, Proceed, last] == [Begin(c), Proceed, Proceed, last];
    assert [Proceed] + [Proceed, last] == [Proceed, Proceed, last];
    assert [Proceed] + [last] == [Proceed, last] && [last] + [] == [last];
  }

  lemma RunThen(s: State, run: seq<Action>, a: Action)
    ensures Run(s, run + [a]) == Apply(Run(s, run), a)
  {
    RunTwice(s, run, [a]);
    RunStep(Run(s, run), a, []);
    assert [a] + [] == [a];
  }

  /** Users may delete every object but the ConfigMap, and this is why. Once it is gone, a pass takes the
      store for a new one: it pins the factor of the moment at the first incarnation, over whatever
      is still there, and a pod that restarts serves its directory under another factor. */
  lemma LostConfigMapReusesDirectories(s: State, c: Cluster, x: Start, ordinal: nat)
    requires s.control.Idle? && c.kind.System?
    requires x in s.served && Mounted(s.objects, ordinal) == Some(x.volume)
    requires x.factor != InitialReplicationFactor(c)
    ensures var run := [Begin(c), Proceed, Proceed, StartPod(ordinal)];
            var t := Run(s.(objects := s.objects.(config := None)), run);
            && x in t.served
            && exists y :: y in t.served && y.volume == x.volume && y.factor != x.factor
  {
    var s0 := s.(objects := s.objects.(config := None));
    var s1 := Apply(s0, Begin(c));
    var s2 := ProceedPass(s1);
    assert s2.control == WriteConfig(c, FirstPin(c));
    var s3 := ProceedPass(s2);
    WriteWithoutConfig(s2, c);
    var s4 := Started(s3, ordinal);
    var key := KeyFrom(s3.objects, s3.disk, ordinal, x.volume, IncarnationFromConfigMap(s3.objects.config.value));
    assert Start(x.volume, InitialReplicationFactor(c), key) in s4.served;
    FourSteps(s0, c, ordinal);
  }

  lemma RunTwoMore(s: State, a: Action, b: Action)
    ensures Run(s, [a, b]) == Apply(Apply(s, a), b)
  {
    RunStep(s, a, [b]);
    RunStep(Apply(s, a), b, []);
    assert [a] + [b] == [a, b] && [b] + [] == [b];
  }

  /** A pass without a ConfigMap, up to the write. */
  lemma FirstWriteFrom(s: State, c: Cluster) returns (run: seq<Action>, t: State)
    requires c.kind.System? && s.control.Idle? && s.objects.config.None?
    ensures t == Run(s, run) && t.control == FillPool(c, FirstPin(c))
    ensures t.objects.config.Some? && t.objects == s.objects.(config := t.objects.config)
    ensures FactorFromText(t.objects.config.value.toml) == InitialReplicationFactor(c)
  {
    var s1 := Apply(s, Begin(c));
    var s2 := ProceedPass(s1);
    assert s2 == s.(control := WriteConfig(c, FirstPin(c)));
    WriteWithoutConfig(s2, c);
    RunTwoMore(s, Begin(c), Proceed);
    RunThen(s, [Begin(c), Proceed], Proceed);
    run := [Begin(c), Proceed] + [Proceed];
    t := ProceedPass(s2);
  }

  /** The first pass over a new store, up to the write. */
  lemma FirstWrite(c: Cluster) returns (run: seq<Action>, s: State)
    requires c.kind.System?
    ensures s == Run(START, run) && s.control == FillPool(c, FirstPin(c))
    ensures s.objects.config.Some? && s.objects == NOTHING.(config := s.objects.config)
    ensures FactorFromText(s.objects.config.value.toml) == InitialReplicationFactor(c)
  {
    run, s := FirstWriteFrom(START, c);
  }

  /** The rest of it, with one volume added to the pool. */
  lemma FirstBuild(s: State, c: Cluster, v: Slot) returns (run: seq<Action>)
    requires s.control == FillPool(c, FirstPin(c)) && v.incarnation == FIRST_INCARNATION
    requires s.objects == NOTHING.(config := s.objects.config)
    ensures var t := Run(s, run);
            && t.control.Idle? && t.objects.config == s.objects.config
            && t.objects.workload == Some(Marker(false))
            && t.objects.claims == map[] && t.objects.volumes == map[v := Volume(Available, false)]
  {
    RunTwoMore(s, AddVolume(v), Proceed);
    var s2 := Run(s, [AddVolume(v), Proceed]);
    assert s2.control == EnsureIdentity(c, FirstPin(c)) && s2.objects.volumes == map[v := Volume(Available, false)];
    RunTwoMore(s2, Proceed, Proceed);
    var s4 := Run(s2, [Proceed, Proceed]);
    assert s4.control == ApplyWorkload(c, FirstPin(c));
    OneStep(s4);
    run := [AddVolume(v), Proceed] + [Proceed, Proceed] + [Proceed];
    RunThrice(s, [AddVolume(v), Proceed], [Proceed, Proceed], [Proceed]);
  }

  /** Its first replica is scheduled. */
  lemma FirstBind(s: State, v: Slot) returns (run: seq<Action>)
    requires s.objects.workload == Some(Marker(false))
    requires s.objects.claims == map[] && s.objects.volumes == map[v := Volume(Available, false)]
    ensures var t := Run(s, run);
            t.control == s.control && t.objects.config == s.objects.config && Mounted(t.objects, 0) == Some(v)
  {
    var s1 := Apply(s, MakeClaim(0));
    assert s1.objects == s.objects.(claims := map[0 := Claim(None, false)]);
    var s2 := Apply(s1, MakePod(0));
    RunTwoMore(s, MakeClaim(0), MakePod(0));
    RunThen(s, [MakeClaim(0), MakePod(0)], Bind(0, v));
    run := [MakeClaim(0), MakePod(0)] + [Bind(0, v)];
  }

  /** And starts. */
  lemma FirstServe(s: State, v: Slot) returns (run: seq<Action>)
    requires s.objects.config.Some? && Mounted(s.objects, 0) == Some(v)
    ensures var t := Run(s, run);
            && t.control == s.control && Mounted(t.objects, 0) == Some(v)
            && exists x :: x in t.served && x.volume == v && x.factor == FactorFromText(s.objects.config.value.toml)
  {
    var config := s.objects.config.value;
    var key := KeyFrom(s.objects, s.disk, 0, v, IncarnationFromConfigMap(config));
    assert Start(v, FactorFromText(config.toml), key) in Started(s, 0).served;
    RunStep(s, StartPod(0), []);
    run := [StartPod(0)] + [];
  }

  /** It takes no more than one replica: a store is built under one setting, its ConfigMap is deleted
      under another, and its first directory is served under both factors. */
  lemma LostConfigMapHistory(c: Cluster, d: Cluster, v: Slot) returns (before: seq<Action>, after: seq<Action>)
    requires c.kind.System? && d.kind.System? && InitialReplicationFactor(c) != InitialReplicationFactor(d)
    requires v.incarnation == FIRST_INCARNATION
    ensures var s := Run(START, before);
            var t := Run(s.(objects := s.objects.(config := None)), after);
            exists x, y :: x in t.served && y in t.served && x.volume == y.volume && x.factor != y.factor
  {
    var first, s1 := FirstWrite(c);
    var second := FirstBuild(s1, c, v);
    var third := FirstBind(Run(s1, second), v);
    var fourth := FirstServe(Run(Run(s1, second), third), v);
    RunThrice(s1, second, third, fourth);
    RunTwice(START, first, second + third + fourth);
    before := first + (second + third + fourth);
    var s := Run(START, before);
    var x :| x in s.served && x.volume == v && x.factor == InitialReplicationFactor(c);
    LostConfigMapReusesDirectories(s, d, x, 0);
    after := [Begin(d), Proceed, Proceed, StartPod(0)];
  }
}
