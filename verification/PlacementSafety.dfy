/** What rebalancing (images/controller/internal/backend/garage/rebalance.go) does to the copies of
    the data: how many it puts at risk at a time, and exactly when it can lose the last one. */
module PlacementSafety {
  import opened PlacementRuns
  import opened Rebalance
  import opened Sets

  // --- Spreading: one copy at a time ----------------------------------------------------

  /** The copies that are incomplete, or that go when a pod ends. */
  ghost function AtRisk(w: World): set<nat>
    requires |w.nodeOf| == |w.synced|
  {
    set o: nat | o < |w.nodeOf| && (!w.synced[o] || o in w.marked)
  }

  ghost predicate AtMostOneAtRisk(w: World)
    requires |w.nodeOf| == |w.synced|
  {
    forall o, p :: o in AtRisk(w) && p in AtRisk(w) ==> o == p
  }

  /** A spreading delete leaves at most one copy at risk exactly when nothing else was marked. */
  lemma SpreadMoveRiskIff(w: World, o: nat)
    requires WellFormed(w) && IsSpreading(w) && Chosen(w, o)
    ensures AtMostOneAtRisk(Marked(w, o)) <==> w.marked <= {o}
  {
    ChosenIsWanted(w, o);
    assert AtRisk(Marked(w, o)) == w.marked + {o};
    if AtMostOneAtRisk(Marked(w, o)) {
      forall p | p in w.marked ensures p == o {
        assert p in AtRisk(Marked(w, o)) && o in AtRisk(Marked(w, o));
      }
    }
  }

  /** At most one copy is at risk, and if its PVC is marked the controller wants no other one. */
  ghost predicate SpreadSafe(w: World)
    requires |w.nodeOf| == |w.synced|
  {
    AtMostOneAtRisk(w) && (w.marked != {} ==> forall o :: Wants(w, o) ==> o in w.marked)
  }

  lemma StepKeepsSpreadSafe(w: World, e: Event, w': World)
    requires WellFormed(w) && WellFormed(w') && IsSpreading(w) && SpreadSafe(w) && Happens(w, e, w')
    requires e.Topology? ==> w.marked == {}
    ensures SpreadSafe(w')
  {
    match e
    case DeleteClaim(o) =>
      ChosenIsWanted(w, o);
      assert w.marked <= AtRisk(w);
      assert w.marked <= {o};
      SpreadMoveRiskIff(w, o);
      assert Ideal(w') == Ideal(w);
      forall p | Wants(w', p) ensures p in w'.marked {
        WantsOnlyOne(w, o, p);
      }
    case PodGone(o) =>
      assert o in AtRisk(w);
      assert AtRisk(w') == AtRisk(w);
      assert w.marked <= AtRisk(w);
    case Rebind(o, n) =>
      assert o in AtRisk(w);
      assert AtRisk(w') == AtRisk(w);
      assert w.marked <= AtRisk(w);
    case Resync(o) =>
      assert AtRisk(w') <= AtRisk(w);
      assert Ideal(w') == Ideal(w);
    case Topology(_, _) =>
      assert AtRisk(w') == AtRisk(w);
  }

  /** While there is a control-plane node per replica, and as long as the topology changes only while
      no PVC waits for its pod, the controller never has more than one copy at risk: recycles cut
      short between their two deletes, failing pods and slow ones included. */
  lemma {:induction false} SpreadKeepsAllButOneCopy(ws: seq<World>, es: seq<Event>, k: nat)
    requires IsRun(ws, es) && TopologyMeetsNoMark(ws, es) && k < |ws|
    requires forall i :: 0 <= i < |ws| ==> IsSpreading(ws[i])
    requires SpreadSafe(ws[0])
    ensures SpreadSafe(ws[k]) && AtMostOneAtRisk(ws[k])
  {
    if k > 0 {
      SpreadKeepsAllButOneCopy(ws, es, k - 1);
      assert Happens(ws[k - 1], es[k - 1], ws[k - 1 + 1]);
      StepKeepsSpreadSafe(ws[k - 1], es[k - 1], ws[k]);
    }
  }

  ghost predicate RiskBounded(ws: seq<World>) {
    forall i :: 0 <= i < |ws| ==> WellFormed(ws[i]) && AtMostOneAtRisk(ws[i])
  }

  ghost predicate NeverTwoAtRisk(w: World) {
    forall ws, es :: IsQuietRun(w, ws, es) ==> RiskBounded(ws)
  }

  lemma {:induction false} QuietRunKeepsTopology(w: World, ws: seq<World>, es: seq<Event>, k: nat)
    requires IsQuietRun(w, ws, es) && k < |ws|
    ensures ws[k].cp == w.cp && ws[k].up == w.up && |ws[k].nodeOf| == |w.nodeOf|
  {
    if k > 0 {
      QuietRunKeepsTopology(w, ws, es, k - 1);
      assert Happens(ws[k - 1], es[k - 1], ws[k - 1 + 1]);
    }
  }

  /** Exactly when a spreading controller keeps it at one copy for as long as the topology stands
      still. */
  lemma SpreadSafeIff(w: World)
    requires WellFormed(w) && IsSpreading(w)
    ensures NeverTwoAtRisk(w) <==> SpreadSafe(w)
  {
    if SpreadSafe(w) {
      forall ws, es | IsQuietRun(w, ws, es) ensures RiskBounded(ws) {
        forall k | 0 <= k < |ws| ensures AtMostOneAtRisk(ws[k]) && IsSpreading(ws[k]) {
          forall i | 0 <= i < |ws| ensures IsSpreading(ws[i]) {
            QuietRunKeepsTopology(w, ws, es, i);
          }
          SpreadKeepsAllButOneCopy(ws, es, k);
        }
      }
    } else {
      var ws, es := SecondCopyAtRisk(w);
      assert !RiskBounded(ws);
    }
  }

  lemma SecondCopyAtRisk(w: World) returns (ws: seq<World>, es: seq<Event>)
    requires WellFormed(w) && IsSpreading(w) && !SpreadSafe(w)
    ensures IsQuietRun(w, ws, es) && !AtMostOneAtRisk(ws[|es|])
  {
    NoEvents(w);
    if !AtMostOneAtRisk(w) {
      ws, es := [w], [];
    } else {
      var o: nat :| Wants(w, o) && o !in w.marked;
      var p :| p in w.marked;
      assert p in AtRisk(w) && forall q :: q in AtRisk(w) ==> q == p;
      forall q: nat | q < |w.synced| && q != p ensures w.synced[q] {
        assert q !in AtRisk(w);
      }
      WantedWhileSpreading(w, o);
      var other: nat := if p == 0 then 1 else 0;
      assert Reachable(w, other);
      var w1 := w.(synced := w.synced[p := true]);
      OneEvent(w, Resync(p), w1);
      assert Ideal(w1) == Ideal(w);
      WantedIsChosen(w1, o);
      OneEvent(w1, DeleteClaim(o), Marked(w1, o));
      JoinQuietRuns(w, [w, w1], [Resync(p)], [w1, Marked(w1, o)], [DeleteClaim(o)]);
      ws, es := [w, w1] + [w1, Marked(w1, o)][1..], [Resync(p)] + [DeleteClaim(o)];
      assert o in AtRisk(ws[|es|]) && p in AtRisk(ws[|es|]);
    }
  }

  // --- No control-plane node is emptied ----------------------------------------------------

  /** The one marked replica is the one the controller wants, and its node is off the control plane or
      holds another replica. */
  ghost predicate IsOnlyMark(w: World, o: nat)
    requires |w.nodeOf| == |w.synced|
  {
    && w.marked == {o} && o < |w.nodeOf|
    && (forall x :: Wants(w, x) ==> x == o)
    && (w.nodeOf[o] in w.cp ==> Shares(AsMap(w.nodeOf), o))
    && (IsSpreading(w) ==> "" !in w.nodeOf)
  }

  ghost predicate OneMarkAtMost(w: World)
    requires |w.nodeOf| == |w.synced|
  {
    w.marked == {} || exists o :: IsOnlyMark(w, o)
  }

  lemma NewMark(w: World, o: nat)
    requires WellFormed(w) && Chosen(w, o) && w.marked == {}
    ensures IsOnlyMark(Marked(w, o), o)
  {
    ChosenIsWanted(w, o);
    assert Ideal(Marked(w, o)) == Ideal(w);
    forall x | Wants(Marked(w, o), x) ensures x == o {
      WantsOnlyOne(w, o, x);
    }
  }

  lemma RebindKeepsMark(w: World, q: nat, n: Node, o: nat)
    requires WellFormed(w) && IsOnlyMark(w, o) && q < |w.nodeOf| && w.nodeOf[q] == "" && n in w.cp
    ensures IsOnlyMark(w.(nodeOf := w.nodeOf[q := n]), o)
  {
    var w' := w.(nodeOf := w.nodeOf[q := n]);
    assert w.nodeOf[q] in w.nodeOf;
    if w.nodeOf[o] in w.cp {
      var m, m' := AsMap(w.nodeOf), AsMap(w'.nodeOf);
      var other :| other in m && other != o && m[other] == At(m, o);
      assert other in m' && m'[other] == At(m', o);
    }
    forall x | Wants(w', x) ensures x == o {
      if IsConsolidating(w) {
        assert forall p: nat :: Due(Ideal(w'), p) <==> Due(Ideal(w), p);
        assert Wants(w, x);
      }
    }
  }

  lemma ResyncKeepsMark(w: World, x: nat, o: nat)
    requires WellFormed(w) && IsOnlyMark(w, o) && x < |w.synced|
    ensures IsOnlyMark(w.(synced := w.synced[x := true]), o)
  {
    var w' := w.(synced := w.synced[x := true]);
    assert Ideal(w') == Ideal(w);
    assert w'.nodeOf == w.nodeOf && w'.cp == w.cp;
    assert IsSpreading(w') == IsSpreading(w);
    forall y | Wants(w', y) ensures y == o {
      assert Wants(w, y);
    }
  }

  lemma StepKeepsOneMark(w: World, e: Event, w': World)
    requires WellFormed(w) && WellFormed(w') && OneMarkAtMost(w) && Happens(w, e, w')
    requires e.Topology? ==> w.marked == {}
    ensures OneMarkAtMost(w')
  {
    if w.marked == {} {
      if e.DeleteClaim? {
        NewMark(w, e.ordinal);
      }
    } else {
      var o :| IsOnlyMark(w, o);
      match e
      case DeleteClaim(x) =>
        ChosenIsWanted(w, x);
        assert w' == w;
      case PodGone(x) =>
        assert w'.marked == {};
      case Rebind(q, n) =>
        RebindKeepsMark(w, q, n, o);
      case Resync(x) =>
        ResyncKeepsMark(w, x, o);
      case Topology(_, _) =>
    }
  }

  lemma {:induction false} RunKeepsOneMark(ws: seq<World>, es: seq<Event>, k: nat)
    requires IsRun(ws, es) && TopologyMeetsNoMark(ws, es) && k < |ws| && ws[0].marked == {}
    ensures OneMarkAtMost(ws[k])
  {
    if k > 0 {
      RunKeepsOneMark(ws, es, k - 1);
      assert Happens(ws[k - 1], es[k - 1], ws[k - 1 + 1]);
      StepKeepsOneMark(ws[k - 1], es[k - 1], ws[k]);
    }
  }

  /** A recycle by itself, in either mode, never empties a control-plane node that held a replica. */
  lemma RecycleEmptiesNoControlPlaneNode(w: World, o: nat, n: Node)
    requires WellFormed(w) && Chosen(w, o) && n in w.cp && n in w.nodeOf
    ensures n in Vacated(w, o).nodeOf
  {
    var holder: nat :| holder < |w.nodeOf| && w.nodeOf[holder] == n;
    var m := AsMap(w.nodeOf);
    if holder != o {
      assert Vacated(w, o).nodeOf[holder] == n;
    } else {
      var other :| other in m && other != o && m[other] == At(m, o);
      assert Vacated(w, o).nodeOf[other] == n;
    }
  }

  /** In either mode and across mode changes, as long as the topology changes only while no PVC waits
      for its pod: no event empties a control-plane node that held a replica. */
  lemma NoControlPlaneNodeIsEmptied(ws: seq<World>, es: seq<Event>, k: nat, n: Node)
    requires IsRun(ws, es) && TopologyMeetsNoMark(ws, es) && k < |es| && ws[0].marked == {}
    requires n in ws[k].cp && n in ws[k].nodeOf
    ensures n in ws[k + 1].nodeOf
  {
    var w, w' := ws[k], ws[k + 1];
    assert Happens(ws[k], es[k], ws[k + 1]);
    var holder: nat :| holder < |w.nodeOf| && w.nodeOf[holder] == n;
    if es[k].PodGone? && es[k].ordinal == holder {
      RunKeepsOneMark(ws, es, k);
      assert IsOnlyMark(w, holder);
      var m := AsMap(w.nodeOf);
      var other :| other in m && other != holder && m[other] == At(m, holder);
      assert w'.nodeOf[other] == n;
    } else {
      assert w'.nodeOf[holder] == n;
    }
  }

  // --- Consolidating: the anchor ---------------------------------------------------------

  predicate HoldsCopy(w: World, o: nat, target: Node) {
    o < |w.nodeOf| == |w.synced| && w.nodeOf[o] == target && w.synced[o]
  }

  /** A history over which `target` is the only control-plane node, whatever is up. */
  ghost predicate IsRunOnto(w: World, ws: seq<World>, es: seq<Event>, target: Node) {
    IsRun(ws, es) && ws[0] == w && forall i :: 0 <= i < |ws| ==> ws[i].cp == [target]
  }

  ghost predicate HoldsThroughout(ws: seq<World>, o: nat, target: Node) {
    forall i :: 0 <= i < |ws| ==> HoldsCopy(ws[i], o, target)
  }

  lemma {:induction false} AnchorStays(w: World, ws: seq<World>, es: seq<Event>, k: nat, target: Node, anchor: nat)
    requires IsRunOnto(w, ws, es, target) && k < |ws| && target != ""
    requires HoldsCopy(w, anchor, target) && anchor !in w.marked
    ensures HoldsCopy(ws[k], anchor, target) && anchor !in ws[k].marked
  {
    if k > 0 {
      AnchorStays(w, ws, es, k - 1, target, anchor);
      var v := ws[k - 1];
      assert Happens(ws[k - 1], es[k - 1], ws[k - 1 + 1]);
      if es[k - 1].DeleteClaim? {
        DueWhileConsolidating(v, es[k - 1].ordinal);
      }
    }
  }

  /** A complete copy on the sole control-plane node stays there and complete, over every history in
      which that node stays the only one, exactly when its PVC is not already marked. */
  lemma ConsolidationKeepsTheAnchorIff(w: World, target: Node, anchor: nat)
    requires WellFormed(w) && w.cp == [target] && HoldsCopy(w, anchor, target)
    ensures anchor !in w.marked <==>
            forall ws, es :: IsRunOnto(w, ws, es, target) ==> HoldsThroughout(ws, anchor, target)
  {
    if anchor !in w.marked {
      forall ws, es | IsRunOnto(w, ws, es, target) ensures HoldsThroughout(ws, anchor, target) {
        forall k | 0 <= k < |ws| ensures HoldsCopy(ws[k], anchor, target) {
          AnchorStays(w, ws, es, k, target, anchor);
        }
      }
    } else {
      var ws, es := [w, Vacated(w, anchor)], [PodGone(anchor)];
      OneEvent(w, PodGone(anchor), Vacated(w, anchor));
      assert IsRunOnto(w, ws, es, target);
      assert !HoldsCopy(ws[1], anchor, target);
      assert !HoldsThroughout(ws, anchor, target);
    }
  }

  // --- The last copy ------------------------------------------------------------------------

  ghost predicate SomeCopy(w: World)
    requires |w.nodeOf| == |w.synced|
  {
    exists o: nat :: Reachable(w, o)
  }

  /** Every other replica's PVC is marked. */
  ghost predicate LastUnmarked(w: World, o: nat) {
    forall q: nat :: q < |w.nodeOf| && q != o ==> q in w.marked
  }

  /** A complete copy within reach that no event can take: its PVC is not marked; while consolidating it
      is on the surviving node; and it is not both the last unmarked replica and the next one wanted. */
  ghost predicate Anchors(w: World, o: nat)
    requires |w.nodeOf| == |w.synced|
  {
    && Reachable(w, o) && o !in w.marked
    && (IsConsolidating(w) ==> w.nodeOf[o] == w.cp[0])
    && !(LastUnmarked(w, o) && Wants(w, o))
  }

  ghost predicate Anchored(w: World)
    requires |w.nodeOf| == |w.synced|
  {
    exists o: nat :: Anchors(w, o)
  }

  ghost predicate CopyThroughout(ws: seq<World>) {
    forall i :: 0 <= i < |ws| ==> WellFormed(ws[i]) && SomeCopy(ws[i])
  }

  ghost predicate NeverWithoutACopy(w: World) {
    forall ws, es :: IsQuietRun(w, ws, es) ==> CopyThroughout(ws)
  }

  /** A spreading delete in a healthy store leaves an anchor behind. */
  lemma SpreadDeleteKeepsAnchored(w: World, o: nat, p: nat)
    requires WellFormed(w) && IsSpreading(w) && Chosen(w, o) && Anchors(w, p)
    ensures Anchored(Marked(w, o))
  {
    var w' := Marked(w, o);
    ChosenIsWanted(w, o);
    assert Ideal(w') == Ideal(w);
    if o != p {
      assert Reachable(w', p);
      if Wants(w', p) {
        WantsOnlyOne(w, o, p);
      }
      assert Anchors(w', p);
    } else {
      var q: nat :| q < |w.nodeOf| && q != p && q !in w.marked;
      assert Reachable(w, q);
      assert Reachable(w', q);
      if Wants(w', q) {
        WantsOnlyOne(w, o, q);
      }
      assert Anchors(w', q);
    }
  }

  lemma StepKeepsAnchored(w: World, e: Event, w': World)
    requires WellFormed(w) && WellFormed(w') && Anchored(w) && Happens(w, e, w') && !e.Topology?
    ensures Anchored(w')
  {
    var p: nat :| Anchors(w, p);
    match e
    case DeleteClaim(o) =>
      if IsSpreading(w) {
        SpreadDeleteKeepsAnchored(w, o, p);
      } else {
        DueWhileConsolidating(w, o);
        DueWhileConsolidating(w', p);
        assert Reachable(w', p);
        assert Anchors(w', p);
      }
    case PodGone(o) =>
      assert Reachable(w', p);
      assert o < |w'.nodeOf| && o != p && o !in w'.marked;
      assert Anchors(w', p);
    case Rebind(o, n) =>
      assert o < |w'.nodeOf| && o != p && o !in w'.marked;
      assert Reachable(w', p);
      assert Anchors(w', p);
    case Resync(o) =>
      assert Ideal(w') == Ideal(w);
      assert Reachable(w', p);
      assert Anchors(w', p);
  }

  lemma {:induction false} AnchoredStays(w: World, ws: seq<World>, es: seq<Event>, k: nat)
    requires WellFormed(w) && Anchored(w) && IsQuietRun(w, ws, es) && k < |ws|
    ensures Anchored(ws[k]) && SomeCopy(ws[k])
  {
    if k > 0 {
      AnchoredStays(w, ws, es, k - 1);
      assert Happens(ws[k - 1], es[k - 1], ws[k - 1 + 1]);
      StepKeepsAnchored(ws[k - 1], es[k - 1], ws[k]);
    }
    var p: nat :| Anchors(ws[k], p);
    assert Reachable(ws[k], p);
  }

  /** All pods of marked PVCs end. */
  lemma {:induction false} MarkedPodsGo(w: World) returns (ws: seq<World>, es: seq<Event>)
    requires WellFormed(w)
    ensures IsQuietRun(w, ws, es)
    ensures var v := ws[|es|];
            && WellFormed(v) && v.marked == {} && v.cp == w.cp && v.up == w.up && |v.nodeOf| == |w.nodeOf|
            && (forall p: nat :: p < |w.nodeOf| ==>
                  && v.nodeOf[p] == (if p in w.marked then "" else w.nodeOf[p])
                  && v.synced[p] == (p !in w.marked && w.synced[p]))
    decreases w.marked
  {
    if w.marked == {} {
      NoEvents(w);
      ws, es := [w], [];
    } else {
      var o :| o in w.marked;
      var w' := Vacated(w, o);
      OneEvent(w, PodGone(o), w');
      var vs, fs := MarkedPodsGo(w');
      JoinQuietRuns(w, [w, w'], [PodGone(o)], vs, fs);
      ws, es := [w, w'] + vs[1..], [PodGone(o)] + fs;
    }
  }

  /** With one copy in reach and every replica on a node that answers, all copies complete. */
  lemma {:induction false} AllResync(w: World, source: nat) returns (ws: seq<World>, es: seq<Event>)
    requires WellFormed(w) && Reachable(w, source)
    requires forall p: nat :: p < |w.nodeOf| ==> w.nodeOf[p] in w.up
    ensures IsQuietRun(w, ws, es)
    ensures ws[|es|] == w.(synced := ws[|es|].synced) && |ws[|es|].synced| == |w.synced|
    ensures forall p: nat :: p < |w.synced| ==> ws[|es|].synced[p]
    decreases set p: nat | p < |w.synced| && !w.synced[p]
  {
    if o: nat :| o < |w.synced| && !w.synced[o] {
      var w' := w.(synced := w.synced[o := true]);
      OneEvent(w, Resync(o), w');
      assert Reachable(w', source);
      ghost var before, after := (set p: nat | p < |w.synced| && !w.synced[p]),
                                 (set p: nat | p < |w'.synced| && !w'.synced[p]);
      assert o in before && after == before - {o};
      var vs, fs := AllResync(w', source);
      JoinQuietRuns(w, [w, w'], [Resync(o)], vs, fs);
      ws, es := [w, w'] + vs[1..], [Resync(o)] + fs;
    } else {
      NoEvents(w);
      ws, es := [w], [];
    }
  }

  /** The replicas a consolidation still has to move. */
  ghost function StillDue(w: World): set<nat>
    requires |w.nodeOf| == |w.synced|
  {
    set o: nat | o < |w.nodeOf| && Due(w, o)
  }

  /** Without a complete copy on the surviving node, the controller's own recycles lose every copy. */
  lemma {:induction false} ConsolidationLoses(w: World) returns (ws: seq<World>, es: seq<Event>)
    requires WellFormed(w) && IsConsolidating(w) && w.marked == {}
    requires forall p: nat :: Reachable(w, p) ==> w.nodeOf[p] != w.cp[0]
    ensures IsQuietRun(w, ws, es) && !SomeCopy(ws[|es|])
    decreases |StillDue(w)|
  {
    forall p: nat ensures Due(w, p) <==> p < |w.nodeOf| && w.nodeOf[p] != "" && w.nodeOf[p] != w.cp[0] {
      DueWhileConsolidating(w, p);
    }
    if p: nat :| p < |w.nodeOf| && Due(w, p) {
      var o := FirstDue(w, p);
      var w1 := Marked(w, o);
      var w2 := Vacated(w1, o);
      OneEvent(w, DeleteClaim(o), w1);
      OneEvent(w1, PodGone(o), w2);
      JoinQuietRuns(w, [w, w1], [DeleteClaim(o)], [w1, w2], [PodGone(o)]);
      var us, ds := [w, w1] + [w1, w2][1..], [DeleteClaim(o)] + [PodGone(o)];
      VacatingLeavesFewer(w, o);
      assert w2 == Vacated(w, o);
      var vs, fs := ConsolidationLoses(w2);
      JoinQuietRuns(w, us, ds, vs, fs);
      ws, es := us + vs[1..], ds + fs;
    } else {
      NoEvents(w);
      ws, es := [w], [];
      forall q: nat ensures !Reachable(w, q) {
        assert q < |w.nodeOf| ==> !Due(w, q);
      }
    }
  }

  lemma VacatingLeavesFewer(w: World, o: nat)
    requires WellFormed(w) && IsConsolidating(w) && w.marked == {} && o < |w.nodeOf| && Due(w, o)
    ensures |StillDue(Vacated(w, o))| < |StillDue(w)|
    ensures forall p: nat :: Reachable(Vacated(w, o), p) ==> Reachable(w, p) && Vacated(w, o).nodeOf[p] == w.nodeOf[p]
    ensures Vacated(w, o) == Vacated(Marked(w, o), o)
  {
    var w' := Vacated(w, o);
    forall p: nat ensures Due(w', p) <==> p != o && Due(w, p) {
      DueWhileConsolidating(w, p);
      DueWhileConsolidating(w', p);
    }
    assert o in StillDue(w) && StillDue(w') == StillDue(w) - {o};
  }

  /** The one unmarked replica is wanted: once all copies are complete its PVC is marked too, and then
      every pod may end. */
  lemma SpreadLoses(w: World, o: nat) returns (ws: seq<World>, es: seq<Event>)
    requires WellFormed(w) && IsSpreading(w) && Reachable(w, o) && LastUnmarked(w, o) && Wants(w, o)
    ensures IsQuietRun(w, ws, es) && !SomeCopy(ws[|es|])
  {
    WantedWhileSpreading(w, o);
    var us, ds := AllResync(w, o);
    var w1 := us[|ds|];
    assert Ideal(w1) == Ideal(w);
    WantedIsChosen(w1, o);
    var w2 := Marked(w1, o);
    OneEvent(w1, DeleteClaim(o), w2);
    JoinQuietRuns(w, us, ds, [w1, w2], [DeleteClaim(o)]);
    us, ds := us + [w1, w2][1..], ds + [DeleteClaim(o)];
    var vs, fs := MarkedPodsGo(w2);
    JoinQuietRuns(w, us, ds, vs, fs);
    ws, es := us + vs[1..], ds + fs;
  }

  lemma LosingRun(w: World) returns (ws: seq<World>, es: seq<Event>)
    requires WellFormed(w) && !Anchored(w)
    ensures IsQuietRun(w, ws, es) && !SomeCopy(ws[|es|])
  {
    if o: nat :| IsSpreading(w) && Reachable(w, o) && o !in w.marked && LastUnmarked(w, o) && Wants(w, o) {
      ws, es := SpreadLoses(w, o);
    } else {
      ws, es := MarkedPodsGo(w);
      var v := ws[|es|];
      forall p: nat | Reachable(v, p) ensures IsConsolidating(w) && v.nodeOf[p] != v.cp[0] {
        assert p !in w.marked && Reachable(w, p) && !Anchors(w, p);
        if IsConsolidating(w) && w.nodeOf[p] == w.cp[0] {
          DueWhileConsolidating(w, p);
        }
      }
      if SomeCopy(v) {
        var vs, fs := ConsolidationLoses(v);
        JoinQuietRuns(w, ws, es, vs, fs);
        ws, es := ws + vs[1..], es + fs;
      }
    }
  }

  /** Exactly when the controller keeps a complete copy within reach for as long as the topology stands
      still, whatever it deletes, wherever a pass is cut short, and in whatever order pods end and
      replicas rebind and resync. */
  lemma KeepsACopyIff(w: World)
    requires WellFormed(w)
    ensures NeverWithoutACopy(w) <==> Anchored(w)
  {
    if Anchored(w) {
      forall ws, es | IsQuietRun(w, ws, es) ensures CopyThroughout(ws) {
        forall k | 0 <= k < |ws| ensures SomeCopy(ws[k]) {
          AnchoredStays(w, ws, es, k);
        }
      }
    } else {
      var ws, es := LosingRun(w);
      assert !CopyThroughout(ws) by { assert ws[|es|] in ws; }
    }
  }

  /** With nothing marked this is: a complete copy within reach and, if this is a consolidation, one on
      the surviving node. */
  lemma AnchoredWithoutMarks(w: World)
    requires WellFormed(w) && w.marked == {}
    ensures Anchored(w) <==>
            exists o: nat :: Reachable(w, o) && (IsConsolidating(w) ==> w.nodeOf[o] == w.cp[0])
  {
    var other := (o: nat) => if o == 0 then 1 else 0;
    if o: nat :| Reachable(w, o) && (IsConsolidating(w) ==> w.nodeOf[o] == w.cp[0]) {
      assert other(o) < |w.nodeOf| && other(o) != o && other(o) !in w.marked;
      assert Anchors(w, o);
    }
  }

  // --- Histories that go wrong -----------------------------------------------------------------

  /** A fully synced store starts to spread: its first replica moves to an empty node. */
  lemma SpreadBegins() returns (w0: World, w1: World, w2: World, w3: World)
    ensures WellFormed(w0) && Healthy(w0) && IsSpreading(w0) && w0.marked == {} && SomeCopy(w0)
    ensures Happens(w0, DeleteClaim(0), w1) && WellFormed(w1) && SomeCopy(w1)
    ensures Happens(w1, PodGone(0), w2) && WellFormed(w2) && SomeCopy(w2)
    ensures Happens(w2, Rebind(0, "m0"), w3) && WellFormed(w3) && SomeCopy(w3)
    ensures w3.nodeOf == ["m0", "m1", "m2"] && w3.synced == [false, true, true] && w3.marked == {}
  {
    w0 := World(["m1", "m1", "m2"], [true, true, true], {}, ["m0", "m1", "m2"], {"m0", "m1", "m2"});
    w1 := Marked(w0, 0);
    w2 := Vacated(w1, 0);
    w3 := w2.(nodeOf := ["m0", "m1", "m2"]);
    FirstChoice(w0);
    assert Reachable(w0, 1) && Reachable(w1, 1) && Reachable(w2, 1) && Reachable(w3, 1);
  }

  lemma FirstChoice(w: World)
    requires |w.nodeOf| == |w.synced| == |w.cp| == 3 && w.nodeOf[0] == w.nodeOf[1] != ""
    requires forall i :: 0 <= i < 3 ==> w.nodeOf[i] in w.up && w.synced[i]
    ensures Chosen(w, 0)
  {
    var m := AsMap(w.nodeOf);
    assert 1 in m && m[1] == At(m, 0);
    forall p: nat | p < 3 ensures Reachable(w, p) {}
  }

  /** Then m2 goes, and m1 loses its role but still answers. */
  lemma ConsolidationFollows(w3: World) returns (topology: Event, w4: World, w5: World, w6: World)
    requires WellFormed(w3) && w3.marked == {}
    requires w3.nodeOf == ["m0", "m1", "m2"] && w3.synced == [false, true, true]
    ensures Happens(w3, topology, w4) && WellFormed(w4) && SomeCopy(w4) && topology.Topology?
    ensures Happens(w4, DeleteClaim(1), w5) && WellFormed(w5) && SomeCopy(w5)
    ensures Happens(w5, PodGone(1), w6) && WellFormed(w6) && !SomeCopy(w6)
  {
    topology := Topology(["m0"], {"m0", "m1"});
    w4 := w3.(cp := ["m0"], up := {"m0", "m1"});
    w5 := Marked(w4, 1);
    w6 := Vacated(w5, 1);
    assert !Due(w4, 0) && Due(w4, 1);
    assert Reachable(w4, 1) && Reachable(w5, 1);
  }

  /** A history that starts with a fully synced, spreading store and nothing marked, changes topology
      only while nothing is, and ends with the recycle of the last copy within reach. */
  ghost predicate RecyclesTheLastCopy(ws: seq<World>, es: seq<Event>) {
    && IsRun(ws, es) && Healthy(ws[0]) && IsSpreading(ws[0]) && ws[0].marked == {}
    && TopologyMeetsNoMark(ws, es)
    && |es| > 0 && es[|es| - 1].PodGone?
    && CopyThroughout(ws[..|es|]) && !SomeCopy(ws[|es|])
  }

  /** A history, so far with a copy at every moment. */
  ghost predicate KeepsACopySoFar(w: World, ws: seq<World>, es: seq<Event>) {
    IsRun(ws, es) && ws[0] == w && TopologyMeetsNoMark(ws, es) && CopyThroughout(ws)
  }

  /** One more event, with a copy left. */
  lemma CopyStays(w: World, ws: seq<World>, es: seq<Event>, e: Event, w': World)
    requires KeepsACopySoFar(w, ws, es)
    requires Happens(ws[|es|], e, w') && SomeCopy(w')
    requires e.Topology? ==> ws[|es|].marked == {}
    ensures KeepsACopySoFar(w, ws + [w'], es + [e]) && (ws + [w'])[|es + [e]|] == w'
  {
    AppendEvent(ws, es, e, w');
  }

  lemma CopyGoes(w: World, ws: seq<World>, es: seq<Event>, e: Event, w': World)
    requires KeepsACopySoFar(w, ws, es) && Healthy(w) && IsSpreading(w) && w.marked == {}
    requires Happens(ws[|es|], e, w') && !SomeCopy(w') && e.PodGone?
    ensures RecyclesTheLastCopy(ws + [w'], es + [e])
  {
    AppendEvent(ws, es, e, w');
    assert (ws + [w'])[..|es| + 1] == ws;
  }

  lemma FirstHalf() returns (w0: World, ws: seq<World>, es: seq<Event>)
    ensures WellFormed(w0) && Healthy(w0) && IsSpreading(w0) && w0.marked == {}
    ensures KeepsACopySoFar(w0, ws, es)
    ensures var w3 := ws[|es|];
            w3.nodeOf == ["m0", "m1", "m2"] && w3.synced == [false, true, true] && w3.marked == {}
  {
    var w1, w2, w3;
    w0, w1, w2, w3 := SpreadBegins();
    NoEvents(w0);
    ws, es := [w0], [];
    CopyStays(w0, ws, es, DeleteClaim(0), w1);
    ws, es := ws + [w1], es + [DeleteClaim(0)];
    CopyStays(w0, ws, es, PodGone(0), w2);
    ws, es := ws + [w2], es + [PodGone(0)];
    CopyStays(w0, ws, es, Rebind(0, "m0"), w3);
    ws, es := ws + [w3], es + [Rebind(0, "m0")];
  }

  /** The source expects consolidation only ever to move copies whose node is gone. This history
      refutes that. A fully synced store starts to spread; one node then goes and another loses its
      control-plane role but still answers; the copy there, by now the only complete one within
      reach, is recycled while the copy on the surviving node is still empty. */
  lemma ConsolidationCanDropTheLastCopy() returns (ws: seq<World>, es: seq<Event>)
    ensures RecyclesTheLastCopy(ws, es)
  {
    var w0;
    w0, ws, es := FirstHalf();
    var topology, w4, w5, w6 := ConsolidationFollows(ws[|es|]);
    CopyStays(w0, ws, es, topology, w4);
    ws, es := ws + [w4], es + [topology];
    CopyStays(w0, ws, es, DeleteClaim(1), w5);
    ws, es := ws + [w5], es + [DeleteClaim(1)];
    CopyGoes(w0, ws, es, PodGone(1), w6);
    ws, es := ws + [w6], es + [PodGone(1)];
  }

  /** The recycle of a replica off the control plane is cut short after its PVC delete. */
  lemma CutShort(nodeOf: seq<Node>, cp: seq<Node>, up: set<Node>, o: nat) returns (w0: World, w1: World)
    requires |nodeOf| == |cp| == 3 && Distinct(cp) && "" !in cp && "" !in up && "" !in nodeOf
    requires forall i :: 0 <= i < 3 ==> nodeOf[i] in up
    requires o < 3 && nodeOf[o] !in cp
    requires forall i :: 0 <= i < o ==> nodeOf[i] in cp && forall j :: 0 <= j < 3 && j != i ==> nodeOf[j] != nodeOf[i]
    ensures w0 == World(nodeOf, [true, true, true], {}, cp, up) && WellFormed(w0) && Healthy(w0)
    ensures w1 == Marked(w0, o) && Happens(w0, DeleteClaim(o), w1) && WellFormed(w1)
  {
    w0 := World(nodeOf, [true, true, true], {}, cp, up);
    w1 := Marked(w0, o);
    forall p: nat | p < 3 ensures Reachable(w0, p) {}
    forall p: nat | p < o ensures !Due(w0, p) {
      assert !Shares(AsMap(nodeOf), p);
    }
  }

  /** Two incomplete copies although there was a control-plane node per replica throughout. */
  ghost predicate RisksTwoCopies(ws: seq<World>, es: seq<Event>) {
    && IsRun(ws, es) && Healthy(ws[0]) && ws[0].marked == {}
    && (forall i :: 0 <= i < |ws| ==> IsSpreading(ws[i]))
    && exists o: nat, p: nat :: o < p < |ws[|es|].synced| && !ws[|es|].synced[o] && !ws[|es|].synced[p]
  }

  lemma StillSpreads(ws: seq<World>, es: seq<Event>, e: Event, w': World)
    requires IsRun(ws, es) && (forall i :: 0 <= i < |ws| ==> IsSpreading(ws[i]))
    requires Happens(ws[|es|], e, w') && IsSpreading(w')
    ensures IsRun(ws + [w'], es + [e]) && forall i :: 0 <= i < |ws + [w']| ==> IsSpreading((ws + [w'])[i])
    ensures (ws + [w'])[|es + [e]|] == w' && (ws + [w'])[0] == ws[0]
  {
    AppendEvent(ws, es, e, w');
  }

  /** Why the topology must not change over a marked PVC: the recycle of replica 1 is cut short after its
      PVC delete, the first node loses its role, and the next pass recycles replica 0; when pod 1 then
      restarts, two copies are incomplete. */
  lemma CutShortRecycleCanRiskTwoCopies() returns (ws: seq<World>, es: seq<Event>)
    ensures RisksTwoCopies(ws, es)
  {
    var up := {"m0", "m1", "m2", "m3", "mx"};
    var w0, w1 := CutShort(["m0", "mx", "m2"], ["m0", "m1", "m2"], up, 1);
    var topology := Topology(["m1", "m2", "m3"], up);
    var w2 := w1.(cp := ["m1", "m2", "m3"]);
    SecondDelete(w2);
    var w3 := Marked(w2, 0);
    var w4 := Vacated(w3, 0);
    var w5 := Vacated(w4, 1);
    NoEvents(w0);
    ws, es := [w0], [];
    StillSpreads(ws, es, DeleteClaim(1), w1);
    ws, es := ws + [w1], es + [DeleteClaim(1)];
    StillSpreads(ws, es, topology, w2);
    ws, es := ws + [w2], es + [topology];
    StillSpreads(ws, es, DeleteClaim(0), w3);
    ws, es := ws + [w3], es + [DeleteClaim(0)];
    StillSpreads(ws, es, PodGone(0), w4);
    ws, es := ws + [w4], es + [PodGone(0)];
    StillSpreads(ws, es, PodGone(1), w5);
    ws, es := ws + [w5], es + [PodGone(1)];
    assert !w5.synced[0] && !w5.synced[1];
  }

  lemma SecondDelete(w: World)
    requires |w.nodeOf| == |w.synced| == |w.cp| == 3 && "" !in w.nodeOf && w.nodeOf[0] !in w.cp
    requires forall i :: 0 <= i < 3 ==> w.nodeOf[i] in w.up && w.synced[i]
    ensures Chosen(w, 0)
  {
    forall p: nat | p < 3 ensures Reachable(w, p) {}
  }

  /** A store with a complete copy on its only control-plane node loses it while the topology stands
      still. */
  ghost predicate LosesTheMarkedAnchor(ws: seq<World>, es: seq<Event>) {
    && IsRun(ws, es) && |es| == 3 && Healthy(ws[0]) && ws[0].marked == {} && es[2].PodGone?
    && IsConsolidating(ws[2]) && (exists o: nat :: Reachable(ws[2], o) && ws[2].nodeOf[o] == ws[2].cp[0])
    && !SomeCopy(ws[3])
  }

  /** Why an anchor needs an unmarked PVC: the recycle of replica 0 is cut short after its PVC delete, its
      node becomes the only one left, and the pod ends. */
  lemma CutShortRecycleCanLoseTheAnchor() returns (ws: seq<World>, es: seq<Event>)
    ensures LosesTheMarkedAnchor(ws, es)
  {
    var w0, w1 := CutShort(["mx", "m1", "m2"], ["m1", "m2", "m3"], {"mx", "m1", "m2", "m3"}, 0);
    var topology := Topology(["mx"], {"mx"});
    var w2 := w1.(cp := ["mx"], up := {"mx"});
    var w3 := Vacated(w2, 0);
    assert Reachable(w2, 0);
    ws, es := [w0, w1, w2, w3], [DeleteClaim(0), topology, PodGone(0)];
    assert Happens(w1, topology, w2) && Happens(w2, PodGone(0), w3);
    StepKeepsWellFormed(w1, topology, w2);
    StepKeepsWellFormed(w2, PodGone(0), w3);
  }
}
