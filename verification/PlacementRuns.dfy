/** Rebalancing (images/controller/internal/backend/garage/rebalance.go) as a machine: the PVC deletes
    of the controller, one at a time, and what pods, scheduler, Garage and the nodes do in between.
    A recycle is the PVC delete and, some time later, the end of the pod: because the pod delete
    follows, because it takes a while, or, when the pass was cut short, for any other reason. */
module PlacementRuns {
  import opened Rebalance
  import opened Sets

  /** `nodeOf` is where each replica's volume is, `synced` whether its copy is complete; `marked` has
      the replicas whose PVC is to be deleted and waits for the pod; `cp` lists the control-plane
      nodes and `up` the nodes that answer. A node can be up without being control-plane (it lost
      the label). */
  datatype World = World(nodeOf: seq<Node>, synced: seq<bool>, marked: set<nat>, cp: seq<Node>, up: set<Node>)

  /** An unbound replica has no copy, and no PVC that could be marked. */
  ghost predicate WellFormed(w: World) {
    && |w.nodeOf| == |w.synced| && |w.nodeOf| >= 2
    && Distinct(w.cp) && "" !in w.cp && "" !in w.up
    && (forall o :: o in w.marked ==> o < |w.nodeOf| && w.nodeOf[o] != "")
    && (forall o: nat :: o < |w.nodeOf| && w.nodeOf[o] == "" ==> !w.synced[o])
  }

  function AsMap(nodeOf: seq<Node>): map<nat, Node> {
    map o: nat | o < |nodeOf| :: nodeOf[o]
  }

  predicate Reachable(w: World, o: nat)
    requires |w.nodeOf| == |w.synced|
  {
    o < |w.nodeOf| && w.nodeOf[o] in w.up && w.synced[o]
  }

  /** Garage reports healthy: every replica answers with a complete copy. */
  predicate Healthy(w: World)
    requires |w.nodeOf| == |w.synced|
  {
    forall o: nat :: o < |w.nodeOf| ==> Reachable(w, o)
  }

  predicate Due(w: World, o: nat)
    requires |w.nodeOf| == |w.synced|
  {
    Misplaced(w.cp, AsMap(w.nodeOf), |w.nodeOf|, Healthy(w), o)
  }

  /** The replica NextPlacementAction picks; a marked PVC still reads as bound. */
  ghost predicate Chosen(w: World, o: nat)
    requires |w.nodeOf| == |w.synced|
  {
    o < |w.nodeOf| && Due(w, o) && forall p: nat :: p < o ==> !Due(w, p)
  }

  lemma {:induction false} FirstDue(w: World, p: nat) returns (o: nat)
    requires |w.nodeOf| == |w.synced| && p < |w.nodeOf| && Due(w, p)
    ensures Chosen(w, o)
  {
    if q: nat :| q < p && Due(w, q) {
      o := FirstDue(w, q);
    } else {
      o := p;
    }
  }

  predicate IsSpreading(w: World) {
    Spreading(w.cp, |w.nodeOf|)
  }

  predicate IsConsolidating(w: World) {
    ConsolidatingOnto(w.cp, |w.nodeOf|)
  }

  function Marked(w: World, o: nat): World {
    w.(marked := w.marked + {o})
  }

  function Vacated(w: World, o: nat): World
    requires o < |w.nodeOf| == |w.synced|
  {
    w.(nodeOf := w.nodeOf[o := ""], synced := w.synced[o := false], marked := w.marked - {o})
  }

  datatype Event =
    | DeleteClaim(ordinal: nat)                    // the controller deletes the PVC of its choice
    | PodGone(ordinal: nat)                        // the pod of a marked PVC ends, and the PVC with it
    | Rebind(ordinal: nat, node: Node)             // the scheduler binds an unbound replica
    | Resync(ordinal: nat)                         // a bound copy completes from a reachable one
    | Topology(nodes: seq<Node>, alive: set<Node>) // nodes join, leave, fail, recover

  ghost predicate Happens(w: World, e: Event, w': World)
    requires WellFormed(w)
  {
    match e
    case DeleteClaim(o) => Chosen(w, o) && w' == Marked(w, o)
    case PodGone(o) => o in w.marked && w' == Vacated(w, o)
    case Rebind(o, n) =>
      o < |w.nodeOf| && w.nodeOf[o] == "" && n in w.cp && n in w.up && w' == w.(nodeOf := w.nodeOf[o := n])
    case Resync(o) =>
      o < |w.nodeOf| && w.nodeOf[o] in w.up && (exists p :: Reachable(w, p)) && w' == w.(synced := w.synced[o := true])
    case Topology(nodes, alive) =>
      Distinct(nodes) && "" !in nodes && "" !in alive && w' == w.(cp := nodes, up := alive)
  }

  lemma StepKeepsWellFormed(w: World, e: Event, w': World)
    requires WellFormed(w) && Happens(w, e, w')
    ensures WellFormed(w')
  {
  }

  /** A history: worlds linked by events. */
  ghost predicate IsRun(ws: seq<World>, es: seq<Event>) {
    && |ws| == |es| + 1 && (forall i :: 0 <= i < |ws| ==> WellFormed(ws[i]))
    && forall i :: 0 <= i < |es| ==> Happens(ws[i], es[i], ws[i + 1])
  }

  /** A history from `w` in which no node joins, leaves, fails or recovers. */
  ghost predicate IsQuietRun(w: World, ws: seq<World>, es: seq<Event>) {
    IsRun(ws, es) && ws[0] == w && forall i :: 0 <= i < |es| ==> !es[i].Topology?
  }

  /** The topology only changes while no PVC waits for its pod. */
  ghost predicate TopologyMeetsNoMark(ws: seq<World>, es: seq<Event>)
    requires |ws| == |es| + 1
  {
    forall i :: 0 <= i < |es| && es[i].Topology? ==> ws[i].marked == {}
  }

  // --- Putting histories together -----------------------------------------------------

  lemma NoEvents(w: World)
    requires WellFormed(w)
    ensures IsQuietRun(w, [w], [])
  {
  }

  lemma AppendEvent(ws: seq<World>, es: seq<Event>, e: Event, w': World)
    requires IsRun(ws, es) && Happens(ws[|es|], e, w')
    ensures IsRun(ws + [w'], es + [e]) && (ws + [w'])[|es + [e]|] == w'
  {
    var vs, fs := ws + [w'], es + [e];
    StepKeepsWellFormed(ws[|es|], e, w');
    forall i | 0 <= i < |fs| ensures Happens(vs[i], fs[i], vs[i + 1]) {
      if i < |es| {
        assert Happens(ws[i], es[i], ws[i + 1]);
      }
    }
  }

  lemma JoinRuns(ws: seq<World>, es: seq<Event>, vs: seq<World>, fs: seq<Event>)
    requires IsRun(ws, es) && IsRun(vs, fs) && ws[|es|] == vs[0]
    ensures IsRun(ws + vs[1..], es + fs) && (ws + vs[1..])[|es + fs|] == vs[|fs|]
  {
    var us, gs := ws + vs[1..], es + fs;
    forall i | |es| <= i < |us| ensures us[i] == vs[i - |es|] {}
    forall i | 0 <= i < |gs| ensures Happens(us[i], gs[i], us[i + 1]) {
      if i < |es| {
        assert Happens(ws[i], es[i], ws[i + 1]);
      } else {
        assert Happens(vs[i - |es|], fs[i - |es|], vs[i - |es| + 1]);
      }
    }
  }

  lemma JoinQuietRuns(w: World, ws: seq<World>, es: seq<Event>, vs: seq<World>, fs: seq<Event>)
    requires IsQuietRun(w, ws, es) && IsQuietRun(ws[|es|], vs, fs)
    ensures IsQuietRun(w, ws + vs[1..], es + fs) && (ws + vs[1..])[|es + fs|] == vs[|fs|]
  {
    JoinRuns(ws, es, vs, fs);
  }

  lemma OneEvent(w: World, e: Event, w': World)
    requires WellFormed(w) && Happens(w, e, w') && !e.Topology?
    ensures IsQuietRun(w, [w, w'], [e])
  {
    StepKeepsWellFormed(w, e, w');
  }

  // --- The choice, health aside --------------------------------------------------------

  /** The same placement with every copy complete and nothing marked. */
  function Ideal(w: World): World {
    w.(synced := seq(|w.nodeOf|, i => true), marked := {})
  }

  /** The replica the controller picks now or, while spreading, as soon as every copy is complete. */
  ghost predicate Wants(w: World, o: nat) {
    Chosen(Ideal(w), o)
  }

  lemma ChosenIsWanted(w: World, o: nat)
    requires WellFormed(w) && Chosen(w, o)
    ensures Wants(w, o)
    ensures IsSpreading(w) ==> Healthy(w) && "" !in w.nodeOf && forall p: nat :: p < |w.synced| ==> w.synced[p]
  {
    if IsSpreading(w) {
      assert Healthy(w);
      forall p: nat | p < |w.nodeOf| ensures w.nodeOf[p] != "" && w.synced[p] && Reachable(Ideal(w), p) {
        assert Reachable(w, p);
      }
      assert Healthy(Ideal(w));
    }
    assert forall p: nat :: Due(Ideal(w), p) <==> Due(w, p);
  }

  lemma WantedIsChosen(w: World, o: nat)
    requires WellFormed(w) && Wants(w, o)
    requires forall p: nat :: p < |w.synced| ==> w.synced[p]
    ensures Chosen(w, o)
  {
    assert forall p: nat :: Reachable(Ideal(w), p) <==> Reachable(w, p);
    assert Healthy(Ideal(w)) == Healthy(w);
    assert forall p: nat :: Due(Ideal(w), p) <==> Due(w, p);
  }

  lemma WantsOnlyOne(w: World, o: nat, p: nat)
    requires Wants(w, o) && Wants(w, p)
    ensures o == p
  {
  }

  /** While spreading, a wanted replica means that all are bound to nodes that answer. */
  lemma WantedWhileSpreading(w: World, o: nat)
    requires WellFormed(w) && IsSpreading(w) && Wants(w, o)
    ensures forall p: nat :: p < |w.nodeOf| ==> w.nodeOf[p] in w.up
  {
    assert Healthy(Ideal(w));
    forall p: nat | p < |w.nodeOf| ensures w.nodeOf[p] in w.up {
      assert Reachable(Ideal(w), p);
    }
  }

  /** Between the two, with fewer control-plane nodes than replicas but not exactly one, nothing moves. */
  lemma NothingMovesInBetween(w: World, o: nat)
    requires WellFormed(w) && |w.cp| < |w.nodeOf| && |w.cp| != 1
    ensures !Chosen(w, o)
  {
  }

  /** While consolidating, exactly the replicas bound elsewhere are due, whatever the health. */
  lemma DueWhileConsolidating(w: World, o: nat)
    requires |w.nodeOf| == |w.synced| && IsConsolidating(w)
    ensures Due(w, o) <==> o < |w.nodeOf| && w.nodeOf[o] != "" && w.nodeOf[o] != w.cp[0]
    ensures Due(Ideal(w), o) <==> Due(w, o)
  {
  }
}
