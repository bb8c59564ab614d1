/** The static pool of node-pinned volumes (images/controller/internal/backend/garage/local_pv.go). */
module LocalVolumes {
  import opened Decimal
  import opened Naming

  datatype Phase = Pending | Available | Bound | Released | Failed

  /** A pool volume: the node label it carries and its phase. */
  datatype Volume = Volume(node: string, phase: Phase)

  /** The naming of one cluster's pool. */
  datatype Scheme = Scheme(cluster: string, hash: string -> string, incarnation: int32)

  function NameOf(s: Scheme, node: string, index: nat): string {
    VolumeName(s.cluster, s.hash, Slot(node, s.incarnation, index))
  }

  // --- The wanted pool ------------------------------------------------------------

  /** A name is wanted when it is some (hostname, slot)'s. */
  ghost predicate Wanted(s: Scheme, hostnames: seq<string>, replicas: nat, name: string) {
    exists h, i: nat :: IsSlotName(s, hostnames, replicas, name, h, i)
  }

  predicate IsSlotName(s: Scheme, hostnames: seq<string>, replicas: nat, name: string, h: string, i: nat) {
    h in hostnames && i < replicas && name == NameOf(s, h, i)
  }

  datatype Desired = Desired(name: string, node: string)

  function NodeVolumes(s: Scheme, node: string, count: nat): seq<Desired> {
    if count == 0 then [] else NodeVolumes(s, node, count - 1) + [Desired(NameOf(s, node, count - 1), node)]
  }

  function DesiredVolumes(s: Scheme, hostnames: seq<string>, replicas: nat): seq<Desired> {
    if hostnames == [] then []
    else
      var front, last := hostnames[..|hostnames| - 1], hostnames[|hostnames| - 1];
      DesiredVolumes(s, front, replicas) + NodeVolumes(s, last, replicas)
  }

  function NamesOf(desired: seq<Desired>): set<string> {
    set d | d in desired :: d.name
  }

  lemma NamesOfNext(desired: seq<Desired>, k: nat)
    requires k < |desired|
    ensures NamesOf(desired[..k + 1]) == NamesOf(desired[..k]) + {desired[k].name}
  {
    assert desired[..k + 1] == desired[..k] + [desired[k]];
  }

  lemma {:induction false} NodeVolumesAre(s: Scheme, node: string, count: nat, d: Desired)
    ensures d in NodeVolumes(s, node, count) <==>
            d.node == node && exists i: nat :: i < count && d.name == NameOf(s, node, i)
  {
    if count > 0 {
      NodeVolumesAre(s, node, count - 1, d);
      var name := NameOf(s, node, count - 1);
      assert d in NodeVolumes(s, node, count) <==> d in NodeVolumes(s, node, count - 1) || d == Desired(name, node);
      if i: nat :| d.node == node && i < count && d.name == NameOf(s, node, i) {
        assert i < count - 1 || d.name == name;
      }
    }
  }

  /** The full pool: one volume for every slot of every hostname, and nothing else. */
  lemma {:induction false} DesiredVolumesAre(s: Scheme, hostnames: seq<string>, replicas: nat, d: Desired)
    ensures d in DesiredVolumes(s, hostnames, replicas) <==>
            exists i: nat :: IsSlotName(s, hostnames, replicas, d.name, d.node, i)
  {
    if hostnames != [] {
      var front, last := hostnames[..|hostnames| - 1], hostnames[|hostnames| - 1];
      assert hostnames == front + [last];
      DesiredVolumesAre(s, front, replicas, d);
      NodeVolumesAre(s, last, replicas, d);
      if i: nat :| IsSlotName(s, hostnames, replicas, d.name, d.node, i) {
        assert d.node in front ==> IsSlotName(s, front, replicas, d.name, d.node, i);
      }
      if i: nat :| IsSlotName(s, front, replicas, d.name, d.node, i) {
        assert IsSlotName(s, hostnames, replicas, d.name, d.node, i);
      }
      if d.node == last {
        if i: nat :| i < replicas && d.name == NameOf(s, last, i) {
          assert IsSlotName(s, hostnames, replicas, d.name, d.node, i);
        }
      }
    }
  }

  lemma Regroup(a: seq<Desired>, b: seq<Desired>, c: seq<Desired>)
    ensures a + b + c == a + (b + c)
  {
  }

  lemma DesiredOfNext(s: Scheme, hostnames: seq<string>, replicas: nat, k: nat)
    requires k < |hostnames|
    ensures DesiredVolumes(s, hostnames[..k + 1], replicas) ==
            DesiredVolumes(s, hostnames[..k], replicas) + NodeVolumes(s, hostnames[k], replicas)
  {
    assert hostnames[..k + 1][..k] == hostnames[..k];
  }

  method DesiredSystemLocalVolumes(s: Scheme, hostnames: seq<string>, replicas: nat) returns (pvs: seq<Desired>)
    ensures pvs == DesiredVolumes(s, hostnames, replicas)
  {
    pvs := [];
    for k := 0 to |hostnames|
      invariant pvs == DesiredVolumes(s, hostnames[..k], replicas)
    {
      var h := hostnames[k];
      ghost var before := pvs;
      for i: nat := 0 to replicas
        invariant pvs == before + NodeVolumes(s, h, i)
      {
        Regroup(before, NodeVolumes(s, h, i), [Desired(NameOf(s, h, i), h)]);
        pvs := pvs + [Desired(NameOf(s, h, i), h)];
      }
      DesiredOfNext(s, hostnames, replicas, k);
    }
    assert hostnames[..|hostnames|] == hostnames;
  }

  // --- One pass as a map on pools ---------------------------------------------------

  ghost predicate Stale(s: Scheme, hostnames: seq<string>, replicas: nat, name: string, v: Volume) {
    v.phase.Released? || (v.phase.Available? && (v.node !in hostnames || !Wanted(s, hostnames, replicas, name)))
  }

  /** What a pass leaves of the volumes it listed. */
  ghost predicate Survives(s: Scheme, hostnames: seq<string>, replicas: nat, pool: map<string, Volume>, name: string) {
    name in pool && !Stale(s, hostnames, replicas, name, pool[name])
  }

  /** `after` is `pool` with the stale volumes gone and the missing wanted ones created. */
  ghost predicate PassResult(s: Scheme, hostnames: seq<string>, replicas: nat,
                             pool: map<string, Volume>, after: map<string, Volume>) {
    && (forall n :: n in after <==>
          Survives(s, hostnames, replicas, pool, n) || (n !in pool && Wanted(s, hostnames, replicas, n)))
    && (forall n :: n in after && n in pool ==> after[n] == pool[n])
    && (forall n :: n in after && n !in pool ==>
          after[n].phase.Available? && exists i: nat :: IsSlotName(s, hostnames, replicas, n, after[n].node, i))
  }

  /** What a pass may have done when it ends early: some of the missing wanted volumes created, some of
      the stale ones deleted, nothing else. */
  ghost predicate PartialResult(s: Scheme, hostnames: seq<string>, replicas: nat,
                                pool: map<string, Volume>, after: map<string, Volume>) {
    && (forall n :: n in pool && n !in after ==> Stale(s, hostnames, replicas, n, pool[n]))
    && (forall n :: n in after && n in pool ==> after[n] == pool[n])
    && (forall n :: n in after && n !in pool ==>
          after[n].phase.Available? && exists i: nat :: IsSlotName(s, hostnames, replicas, n, after[n].node, i))
  }

  /** Only labelled volumes of the full pool have been added. */
  ghost predicate IsFilled(s: Scheme, hostnames: seq<string>, replicas: nat,
                           pool: map<string, Volume>, filled: map<string, Volume>) {
    && (forall n :: n in pool ==> n in filled && filled[n] == pool[n])
    && (forall n :: n in filled && n !in pool ==>
          filled[n].phase.Available? && exists i: nat :: IsSlotName(s, hostnames, replicas, n, filled[n].node, i))
  }

  lemma FilledFurther(s: Scheme, hostnames: seq<string>, replicas: nat,
                      pool: map<string, Volume>, filled: map<string, Volume>, d: Desired)
    requires IsFilled(s, hostnames, replicas, pool, filled) && d.name !in filled
    requires d in DesiredVolumes(s, hostnames, replicas)
    ensures IsFilled(s, hostnames, replicas, pool, filled[d.name := Volume(d.node, Available)])
  {
    DesiredVolumesAre(s, hostnames, replicas, d);
  }

  lemma CollectedIsPartial(s: Scheme, hostnames: seq<string>, replicas: nat,
                           pool: map<string, Volume>, filled: map<string, Volume>, after: map<string, Volume>)
    requires IsFilled(s, hostnames, replicas, pool, filled)
    requires forall n :: n in after ==> n in filled && after[n] == filled[n]
    requires forall n :: n in filled && n !in after ==> n in pool && Stale(s, hostnames, replicas, n, pool[n])
    ensures PartialResult(s, hostnames, replicas, pool, after)
  {
  }

  lemma CollectedIsResult(s: Scheme, hostnames: seq<string>, replicas: nat,
                          pool: map<string, Volume>, filled: map<string, Volume>, after: map<string, Volume>)
    requires PartialResult(s, hostnames, replicas, pool, after)
    requires forall n :: n in filled <==> n in pool || Wanted(s, hostnames, replicas, n)
    requires after == Collected(s, hostnames, replicas, pool, filled)
    ensures PassResult(s, hostnames, replicas, pool, after)
  {
  }

  /** What collecting from a listing leaves of the volumes there are by then. */
  ghost function Collected(s: Scheme, hostnames: seq<string>, replicas: nat,
                           listing: map<string, Volume>, volumes: map<string, Volume>): map<string, Volume> {
    volumes - StaleNames(s, hostnames, replicas, listing)
  }

  ghost function StaleNames(s: Scheme, hostnames: seq<string>, replicas: nat,
                            listing: map<string, Volume>): set<string> {
    set n | n in listing && Stale(s, hostnames, replicas, n, listing[n])
  }

  lemma CollectNext(was: map<string, Volume>, doomed: set<string>, left: set<string>, n: string)
    requires n in left
    ensures was - (doomed - (left - {n})) ==
            if n in doomed then was - (doomed - left) - {n} else was - (doomed - left)
  {
    assert doomed - (left - {n}) == if n in doomed then doomed - left + {n} else doomed - left;
  }

  class Pool {
    var volumes: map<string, Volume>

    /** Create what is missing from the listing, then collect from the listing. The first API write
        that fails, after `writes` ones that did not, ends the pass; so does a failed listing. */
    method EnsureSystemLocalVolumes(s: Scheme, hostnames: seq<string>, replicas: nat, listOk: bool, writes: nat)
      returns (ok: bool)
      modifies this
      ensures ok ==> PassResult(s, hostnames, replicas, old(volumes), volumes)
      ensures PartialResult(s, hostnames, replicas, old(volumes), volumes)
      ensures listOk && writes >= |DesiredVolumes(s, hostnames, replicas)| + |old(volumes)| ==> ok
    {
      if !listOk {
        return false;
      }
      var existing := volumes;
      var desired := DesiredSystemLocalVolumes(s, hostnames, replicas);
      var wanted: set<string>;
      var budget: nat;
      ok, wanted, budget := CreateMissing(s, existing, hostnames, replicas, desired, writes);
      if !ok {
        return;
      }
      WantedNames(s, hostnames, replicas, wanted);
      ghost var filled := volumes;
      ok := GcSystemLocalVolumes(s, existing, hostnames, replicas, wanted, budget);
      CollectedIsPartial(s, hostnames, replicas, existing, filled, volumes);
      if ok {
        CollectedIsResult(s, hostnames, replicas, existing, filled, volumes);
      }
    }

    /** The first half of the pass: creates the volumes the listing lacks. */
    method CreateMissing(s: Scheme, listing: map<string, Volume>, ghost hostnames: seq<string>, ghost replicas: nat,
                         desired: seq<Desired>, writes: nat)
      returns (ok: bool, wanted: set<string>, budget: nat)
      requires desired == DesiredVolumes(s, hostnames, replicas) && volumes == listing
      modifies this
      ensures IsFilled(s, hostnames, replicas, listing, volumes)
      ensures ok ==> wanted == NamesOf(desired)
      ensures ok ==> forall n :: n in volumes <==> n in listing || n in wanted
      ensures writes >= |desired| ==> ok && budget >= writes - |desired|
    {
      wanted, budget := {}, writes;
      for k := 0 to |desired|
        invariant wanted == NamesOf(desired[..k])
        invariant forall n :: n in volumes <==> n in listing || n in wanted
        invariant IsFilled(s, hostnames, replicas, listing, volumes)
        invariant budget + k >= writes
      {
        var d := desired[k];
        NamesOfNext(desired, k);
        if d.name !in listing {
          if budget == 0 {
            return false, wanted, budget;
          }
          budget := budget - 1;
          if d.name !in volumes {
            FilledFurther(s, hostnames, replicas, listing, volumes, d);
            volumes := volumes[d.name := Volume(d.node, Available)];
          }
        }
        wanted := wanted + {d.name};
      }
      assert desired[..|desired|] == desired;
      ok := true;
    }

    /** Deletes the stale volumes of the listing; whatever the listing does not name stays. */
    method GcSystemLocalVolumes(s: Scheme, listing: map<string, Volume>, hostnames: seq<string>, ghost replicas: nat,
                                wanted: set<string>, writes: nat)
      returns (ok: bool)
      requires forall n :: n in wanted <==> Wanted(s, hostnames, replicas, n)
      modifies this
      ensures ok ==> volumes == Collected(s, hostnames, replicas, listing, old(volumes))
      ensures forall n :: n in volumes ==> n in old(volumes) && volumes[n] == old(volumes)[n]
      ensures forall n :: n in old(volumes) && n !in volumes ==>
                n in listing && Stale(s, hostnames, replicas, n, listing[n])
      ensures writes >= |listing| ==> ok
    {
      var left, budget := listing.Keys, writes;
      ghost var was, doomed := volumes, StaleNames(s, hostnames, replicas, listing);
      while left != {}
        invariant left <= listing.Keys
        invariant volumes == was - (doomed - left)
        invariant writes >= |listing| ==> budget >= |left|
        decreases left
      {
        var n :| n in left;
        var v := listing[n];
        var stale := v.phase.Released? || (v.phase.Available? && (v.node !in hostnames || n !in wanted));
        assert stale <==> n in doomed;
        CollectNext(was, doomed, left, n);
        if stale {
          if budget == 0 {
            return false;
          }
          budget := budget - 1;
          volumes := volumes - {n};
        }
        left := left - {n};
      }
      return true;
    }
  }

  /** The names of the full pool are the wanted ones. */
  lemma WantedNames(s: Scheme, hostnames: seq<string>, replicas: nat, wanted: set<string>)
    requires wanted == NamesOf(DesiredVolumes(s, hostnames, replicas))
    ensures forall n :: n in wanted <==> Wanted(s, hostnames, replicas, n)
  {
    var desired := DesiredVolumes(s, hostnames, replicas);
    forall n ensures n in wanted <==> Wanted(s, hostnames, replicas, n) {
      if n in wanted {
        var d :| d in desired && d.name == n;
        DesiredVolumesAre(s, hostnames, replicas, d);
      }
      if Wanted(s, hostnames, replicas, n) {
        var h, i: nat :| IsSlotName(s, hostnames, replicas, n, h, i);
        DesiredVolumesAre(s, hostnames, replicas, Desired(n, h));
      }
    }
  }

  // --- Convergence ---------------------------------------------------------------------

  /** No sequence of passes, complete or cut short, ever touches a Bound volume. */
  lemma {:induction false} BoundVolumesSurvive(s: Scheme, hostnames: seq<string>, replicas: nat,
                                               pools: seq<map<string, Volume>>, k: nat, n: string)
    requires k < |pools|
    requires forall i :: 0 <= i < |pools| - 1 ==> PartialResult(s, hostnames, replicas, pools[i], pools[i + 1])
    requires n in pools[0] && pools[0][n].phase.Bound?
    ensures n in pools[k] && pools[k][n] == pools[0][n]
  {
    if k > 0 {
      BoundVolumesSurvive(s, hostnames, replicas, pools, k - 1, n);
      assert PartialResult(s, hostnames, replicas, pools[k - 1], pools[k - 1 + 1]);
    }
  }

  /** A volume that a PVC took between the listing and the deletes, or held all along, goes exactly when it
      was stale in the listing: never when it was listed Bound, and when it was listed Available only
      if its node had left or its name was not wanted. */
  lemma BoundSinceListingIff(s: Scheme, hostnames: seq<string>, replicas: nat,
                             listing: map<string, Volume>, volumes: map<string, Volume>, n: string)
    requires n in volumes && volumes[n].phase.Bound?
    ensures var after := Collected(s, hostnames, replicas, listing, volumes);
            && (n !in after <==> n in listing && Stale(s, hostnames, replicas, n, listing[n]))
            && (n in after ==> after[n] == volumes[n])
            && (n in listing && listing[n].phase.Bound? ==> n in after)
            && (n in listing && listing[n].phase.Available? ==>
                  (n in after <==> listing[n].node in hostnames && Wanted(s, hostnames, replicas, n)))
  {
  }

  /** Labels and names of a pool agree: a volume bearing a slot's name is pinned to its node. */
  ghost predicate LabelsAgree(s: Scheme, hostnames: seq<string>, replicas: nat, pool: map<string, Volume>) {
    forall n, h, i: nat :: n in pool && IsSlotName(s, hostnames, replicas, n, h, i) ==> pool[n].node == h
  }

  /** A wanted volume is deleted exactly when it is Released. */
  lemma WantedGoesOnlyWhenReleased(s: Scheme, hostnames: seq<string>, replicas: nat,
                                   pool: map<string, Volume>, after: map<string, Volume>, n: string)
    requires PassResult(s, hostnames, replicas, pool, after) && LabelsAgree(s, hostnames, replicas, pool)
    requires n in pool && Wanted(s, hostnames, replicas, n)
    ensures n !in after <==> pool[n].phase.Released?
  {
    var h, i: nat :| IsSlotName(s, hostnames, replicas, n, h, i);
    assert pool[n].node == h;
    assert n in after <==> Survives(s, hostnames, replicas, pool, n);
  }

  /** Created volumes carry the label their name stands for. */
  lemma PassKeepsLabels(s: Scheme, hostnames: seq<string>, replicas: nat, inPlay: iset<string>,
                        pool: map<string, Volume>, after: map<string, Volume>)
    requires PartialResult(s, hostnames, replicas, pool, after) && LabelsAgree(s, hostnames, replicas, pool)
    requires CollisionFree(s.hash, inPlay) && s.incarnation >= 1 && forall h :: h in hostnames ==> h in inPlay
    ensures LabelsAgree(s, hostnames, replicas, after)
  {
    forall n, h, i: nat | n in after && IsSlotName(s, hostnames, replicas, n, h, i) ensures after[n].node == h {
      if n !in pool {
        var j: nat :| IsSlotName(s, hostnames, replicas, n, after[n].node, j);
        VolumeNamesInjective(s.cluster, s.hash, inPlay, Slot(h, s.incarnation, i),
            Slot(after[n].node, s.incarnation, j));
      }
    }
  }

  /** The name is that of a slot of one of the hostnames. */
  ghost predicate IsASlot(s: Scheme, hostnames: seq<string>, replicas: nat, n: string) {
    exists h, i: nat :: h in hostnames && i < replicas && n == VolumeName(s.cluster, s.hash, Slot(h, s.incarnation, i))
  }

  /** Which volumes are stale, by phase, label and name: all Released ones, whatever their name, and the
      Available ones whose node has left or whose name is no slot's. */
  lemma StaleIff(s: Scheme, hostnames: seq<string>, replicas: nat, n: string, v: Volume)
    ensures Stale(s, hostnames, replicas, n, v) <==>
            || v.phase == Released
            || (v.phase == Available && (v.node !in hostnames || !IsASlot(s, hostnames, replicas, n)))
  {
    if Wanted(s, hostnames, replicas, n) {
      var h, i: nat :| IsSlotName(s, hostnames, replicas, n, h, i);
      assert n == VolumeName(s.cluster, s.hash, Slot(h, s.incarnation, i));
    }
    if h, i: nat :| h in hostnames && i < replicas && n == VolumeName(s.cluster, s.hash, Slot(h, s.incarnation, i)) {
      assert IsSlotName(s, hostnames, replicas, n, h, i);
    }
  }

  /** What a pass deletes and what it leaves: a listed volume goes exactly in those cases, and afterwards
      none is Released and every Available one is a slot's, on a node that is there. */
  lemma PassLeaves(s: Scheme, hostnames: seq<string>, replicas: nat,
                   pool: map<string, Volume>, after: map<string, Volume>, n: string)
    requires PassResult(s, hostnames, replicas, pool, after)
    ensures n in pool ==>
              (n !in after <==>
                || pool[n].phase == Released
                || (pool[n].phase == Available
                    && (pool[n].node !in hostnames || !IsASlot(s, hostnames, replicas, n))))
    ensures n in after ==>
              && after[n].phase != Released
              && (after[n].phase == Available ==> after[n].node in hostnames && IsASlot(s, hostnames, replicas, n))
  {
    PassCleans(s, hostnames, replicas, pool, after);
    if n in pool {
      StaleIff(s, hostnames, replicas, n, pool[n]);
      assert n in after <==> Survives(s, hostnames, replicas, pool, n);
    }
    if n in after {
      StaleIff(s, hostnames, replicas, n, after[n]);
    }
  }

  /** The pool the controller is after: every slot of every hostname has its volume, nothing is Released,
      and what is Available is a slot's, on a node that is there. */
  ghost predicate Settled(s: Scheme, hostnames: seq<string>, replicas: nat, pool: map<string, Volume>) {
    && (forall h, i: nat :: h in hostnames && i < replicas ==> NameOf(s, h, i) in pool)
    && (forall n :: n in pool ==>
          && pool[n].phase != Released
          && (pool[n].phase == Available ==> pool[n].node in hostnames && IsASlot(s, hostnames, replicas, n)))
  }

  lemma SettledIsClean(s: Scheme, hostnames: seq<string>, replicas: nat, pool: map<string, Volume>)
    ensures Settled(s, hostnames, replicas, pool) <==>
            && (forall h, i: nat :: h in hostnames && i < replicas ==> NameOf(s, h, i) in pool)
            && (forall n :: n in pool ==> !Stale(s, hostnames, replicas, n, pool[n]))
  {
    forall n | n in pool
      ensures !Stale(s, hostnames, replicas, n, pool[n]) <==>
              && pool[n].phase != Released
              && (pool[n].phase == Available ==> pool[n].node in hostnames && IsASlot(s, hostnames, replicas, n))
    {
      StaleIff(s, hostnames, replicas, n, pool[n]);
    }
  }

  /** A pass changes nothing exactly when the pool is settled. */
  lemma FixedPointIffSettled(s: Scheme, hostnames: seq<string>, replicas: nat, pool: map<string, Volume>)
    ensures PassResult(s, hostnames, replicas, pool, pool) <==> Settled(s, hostnames, replicas, pool)
  {
    SettledIsClean(s, hostnames, replicas, pool);
    if PassResult(s, hostnames, replicas, pool, pool) {
      forall h, i: nat | h in hostnames && i < replicas ensures NameOf(s, h, i) in pool {
        assert IsSlotName(s, hostnames, replicas, NameOf(s, h, i), h, i);
      }
      forall n | n in pool ensures !Stale(s, hostnames, replicas, n, pool[n]) {
        assert Survives(s, hostnames, replicas, pool, n);
      }
    }
    if Settled(s, hostnames, replicas, pool) {
      forall n ensures n in pool <==>
          Survives(s, hostnames, replicas, pool, n) || (n !in pool && Wanted(s, hostnames, replicas, n)) {
        if Wanted(s, hostnames, replicas, n) {
          var h, i: nat :| IsSlotName(s, hostnames, replicas, n, h, i);
        }
      }
    }
  }

  /** On a settled pool a pass has no other outcome. */
  lemma SettledStays(s: Scheme, hostnames: seq<string>, replicas: nat,
      pool: map<string, Volume>, after: map<string, Volume>)
    requires Settled(s, hostnames, replicas, pool) && PassResult(s, hostnames, replicas, pool, after)
    ensures after == pool
  {
    SettledIsClean(s, hostnames, replicas, pool);
    forall n ensures n in after <==> n in pool {
      if Wanted(s, hostnames, replicas, n) {
        var h, i: nat :| IsSlotName(s, hostnames, replicas, n, h, i);
      }
      if n in pool {
        assert Survives(s, hostnames, replicas, pool, n);
      }
    }
  }

  /** After any pass nothing stale is left. */
  lemma PassCleans(s: Scheme, hostnames: seq<string>, replicas: nat,
      pool: map<string, Volume>, after: map<string, Volume>)
    requires PassResult(s, hostnames, replicas, pool, after)
    ensures forall n :: n in after ==> !Stale(s, hostnames, replicas, n, after[n])
  {
    forall n | n in after ensures !Stale(s, hostnames, replicas, n, after[n]) {
      if n in pool {
        assert Survives(s, hostnames, replicas, pool, n);
      } else {
        var i: nat :| IsSlotName(s, hostnames, replicas, n, after[n].node, i);
      }
    }
  }

  /** Two passes settle any pool in a quiet environment. One pass does exactly when no slot's volume was
      Released, or Available on a node that is not there: such a one is collected first and only
      recreated by the second pass. */
  lemma TwoPassesSettle(s: Scheme, hostnames: seq<string>, replicas: nat,
                        pool: map<string, Volume>, once: map<string, Volume>, twice: map<string, Volume>)
    requires PassResult(s, hostnames, replicas, pool, once) && PassResult(s, hostnames, replicas, once, twice)
    ensures Settled(s, hostnames, replicas, twice)
    ensures Settled(s, hostnames, replicas, once) <==>
            forall h, i: nat :: h in hostnames && i < replicas && NameOf(s, h, i) in pool ==>
              var v := pool[NameOf(s, h, i)];
              v.phase != Released && (v.phase == Available ==> v.node in hostnames)
  {
    PassCleans(s, hostnames, replicas, pool, once);
    PassCleans(s, hostnames, replicas, once, twice);
    SettledIsClean(s, hostnames, replicas, once);
    SettledIsClean(s, hostnames, replicas, twice);
    forall h, i: nat | h in hostnames && i < replicas
      ensures NameOf(s, h, i) in twice
      ensures NameOf(s, h, i) in once <==>
              NameOf(s, h, i) !in pool
              || var v := pool[NameOf(s, h, i)];
                 v.phase != Released && (v.phase == Available ==> v.node in hostnames)
    {
      SlotAfterPass(s, hostnames, replicas, pool, once, h, i);
      SlotAfterPass(s, hostnames, replicas, once, twice, h, i);
      if NameOf(s, h, i) in once {
        StaleIff(s, hostnames, replicas, NameOf(s, h, i), once[NameOf(s, h, i)]);
      }
    }
  }

  lemma SlotAfterPass(s: Scheme, hostnames: seq<string>, replicas: nat,
                      pool: map<string, Volume>, after: map<string, Volume>, h: string, i: nat)
    requires PassResult(s, hostnames, replicas, pool, after) && h in hostnames && i < replicas
    ensures var n := NameOf(s, h, i);
            n in after <==>
            n !in pool || (pool[n].phase != Released && (pool[n].phase == Available ==> pool[n].node in hostnames))
  {
    var n := NameOf(s, h, i);
    assert IsSlotName(s, hostnames, replicas, n, h, i);
    assert IsASlot(s, hostnames, replicas, n);
    if n in pool {
      StaleIff(s, hostnames, replicas, n, pool[n]);
      assert n in after <==> Survives(s, hostnames, replicas, pool, n);
    }
  }
}
