/** Rebalancing (images/controller/internal/backend/garage/rebalance.go) ends at the target
    topology: one replica per control-plane node, or all of them on the sole one. */
module PlacementProgress {
  import opened PlacementRuns
  import opened Rebalance
  import opened Sets

  /** The control-plane nodes that hold a replica. */
  ghost function Occupied(nodeOf: seq<Node>, cp: seq<Node>): set<Node> {
    set n | n in nodeOf && n in cp
  }

  ghost predicate OnePerNode(nodeOf: seq<Node>, cp: seq<Node>) {
    Distinct(nodeOf) && forall n :: n in nodeOf ==> n in cp
  }

  lemma OccupiedStep(n: Node, rest: seq<Node>, cp: seq<Node>)
    ensures Occupied([n] + rest, cp) == if n in cp then Occupied(rest, cp) + {n} else Occupied(rest, cp)
  {
  }

  lemma {:induction false} OccupiedAtMost(nodeOf: seq<Node>, cp: seq<Node>)
    ensures |Occupied(nodeOf, cp)| <= |nodeOf|
    ensures |Occupied(nodeOf, cp)| == |nodeOf| <==> OnePerNode(nodeOf, cp)
  {
    if nodeOf == [] {
      assert Occupied(nodeOf, cp) == {};
    } else {
      var rest, n := nodeOf[1..], nodeOf[0];
      assert nodeOf == [n] + rest;
      OccupiedAtMost(rest, cp);
      OccupiedStep(n, rest, cp);
      OnePerNodeStep(n, rest, cp);
    }
  }

  lemma OnePerNodeStep(n: Node, rest: seq<Node>, cp: seq<Node>)
    ensures OnePerNode([n] + rest, cp) <==> OnePerNode(rest, cp) && n in cp && n !in rest
  {
    var all := [n] + rest;
    assert forall i :: 0 <= i < |rest| ==> all[i + 1] == rest[i];
    if OnePerNode(all, cp) {
      assert all[0] in all;
      forall i, j | 0 <= i < j < |rest| ensures rest[i] != rest[j] {
        assert all[i + 1] != all[j + 1];
      }
      forall x | x in rest ensures x in cp && x != n {
        var i :| 0 <= i < |rest| && rest[i] == x;
        assert all[0] != all[i + 1];
        assert x in all;
      }
    }
  }

  /** How far a placement is from one replica per control-plane node. */
  ghost function Excess(w: World): nat {
    OccupiedAtMost(w.nodeOf, w.cp);
    |w.nodeOf| - |Occupied(w.nodeOf, w.cp)|
  }

  /** One completed spread move: the choice is recycled, rebinds to a control-plane node that
      holds no replica, and its copy completes. */
  ghost predicate SpreadRound(w: World, w': World) {
    && WellFormed(w) && |w.cp| >= |w.nodeOf| && Healthy(w)
    && exists o: nat, n: Node :: SpreadMove(w, w', o, n)
  }

  ghost predicate SpreadMove(w: World, w': World, o: nat, n: Node)
    requires |w.nodeOf| == |w.synced|
  {
    && Chosen(w, o) && n in w.cp && n in w.up && n !in Occupied(w.nodeOf, w.cp)
    && w' == w.(nodeOf := w.nodeOf[o := n], marked := w.marked - {o})
  }

  lemma SpreadRoundDropsExcess(w: World, w': World)
    requires SpreadRound(w, w')
    ensures Excess(w') == Excess(w) - 1 && WellFormed(w') && Healthy(w') && w'.cp == w.cp && |w'.nodeOf| == |w.nodeOf|
  {
    var o: nat, n: Node :| SpreadMove(w, w', o, n);
    var m := AsMap(w.nodeOf);
    forall x | x in Occupied(w.nodeOf, w.cp) ensures x in w'.nodeOf {
      var i: nat :| i < |w.nodeOf| && w.nodeOf[i] == x;
      if i == o {
        assert Shares(m, o);
        var other :| other in m && other != o && m[other] == At(m, o);
        assert w'.nodeOf[other] == x;
      } else {
        assert w'.nodeOf[i] == x;
      }
    }
    assert w'.nodeOf[o] == n;
    assert Occupied(w'.nodeOf, w'.cp) == Occupied(w.nodeOf, w.cp) + {n};
    forall p: nat | p < |w'.nodeOf| ensures Reachable(w', p) {
      assert Reachable(w, p);
    }
  }

  /** A healthy store at the target takes no action, and only there. */
  lemma SpreadStopsIff(w: World)
    requires WellFormed(w) && |w.cp| >= |w.nodeOf| && Healthy(w)
    ensures (forall o: nat :: o < |w.nodeOf| ==> !Due(w, o)) <==> OnePerNode(w.nodeOf, w.cp)
    ensures OnePerNode(w.nodeOf, w.cp) <==> Excess(w) == 0
  {
    OccupiedAtMost(w.nodeOf, w.cp);
    var m := AsMap(w.nodeOf);
    forall o: nat | o < |w.nodeOf| ensures w.nodeOf[o] != "" {
      assert Reachable(w, o);
    }
    if forall o: nat :: o < |w.nodeOf| ==> !Due(w, o) {
      forall i, j | 0 <= i < j < |w.nodeOf| ensures w.nodeOf[i] != w.nodeOf[j] {
        assert !Due(w, i);
        assert j in m && m[j] == w.nodeOf[j];
      }
      forall n | n in w.nodeOf ensures n in w.cp {
        var i: nat :| i < |w.nodeOf| && w.nodeOf[i] == n;
        assert !Due(w, i);
      }
    }
    if OnePerNode(w.nodeOf, w.cp) {
      forall o: nat | o < |w.nodeOf| ensures !Due(w, o) {
        assert w.nodeOf[o] in w.nodeOf;
      }
    }
  }

  /** Short of the target, with the control-plane nodes up, another round is possible. */
  lemma SpreadCanContinue(w: World) returns (w': World)
    requires WellFormed(w) && |w.cp| >= |w.nodeOf| && Healthy(w) && Excess(w) > 0
    requires forall n :: n in w.cp ==> n in w.up
    ensures SpreadRound(w, w')
  {
    SpreadStopsIff(w);
    var p: nat :| p < |w.nodeOf| && Due(w, p);
    var o := FirstDue(w, p);
    SizeOfDistinct(w.cp);
    var all := Members(w.cp);
    if all <= Occupied(w.nodeOf, w.cp) {
      SubsetSize(all, Occupied(w.nodeOf, w.cp));
    }
    var n :| n in all && n !in Occupied(w.nodeOf, w.cp);
    w' := w.(nodeOf := w.nodeOf[o := n], marked := w.marked - {o});
    assert SpreadMove(w, w', o, n);
  }

  /** A round is four events of the machine: the PVC delete, the end of the pod, the rebind and the
      resync. */
  lemma SpreadRoundIsARun(w: World, w': World) returns (ws: seq<World>, es: seq<Event>)
    requires SpreadRound(w, w')
    ensures IsRun(ws, es) && ws[0] == w && ws[|es|] == w'
    ensures |es| == 4 && es[0].DeleteClaim? && es[1].PodGone? && es[2].Rebind? && es[3].Resync?
  {
    var o: nat, n: Node :| SpreadMove(w, w', o, n);
    var w1 := Marked(w, o);
    var w2 := Vacated(w1, o);
    var w3 := w2.(nodeOf := w2.nodeOf[o := n]);
    LastStepOfRound(w, w', o, n, w3);
    ws, es := [w, w1, w2, w3, w'], [DeleteClaim(o), PodGone(o), Rebind(o, n), Resync(o)];
    assert Happens(w, es[0], w1) && Happens(w1, es[1], w2) && Happens(w2, es[2], w3);
    StepKeepsWellFormed(w, es[0], w1);
    StepKeepsWellFormed(w1, es[1], w2);
    StepKeepsWellFormed(w2, es[2], w3);
    StepKeepsWellFormed(w3, es[3], w');
  }

  lemma LastStepOfRound(w: World, w': World, o: nat, n: Node, w3: World)
    requires WellFormed(w) && Healthy(w) && SpreadMove(w, w', o, n)
    requires w3 == w.(nodeOf := w.nodeOf[o := n], synced := w.synced[o := false], marked := w.marked - {o})
    ensures (exists p :: Reachable(w3, p)) && w' == w3.(synced := w3.synced[o := true])
  {
    var other: nat := if o == 0 then 1 else 0;
    assert Reachable(w, other) && Reachable(w, o);
    assert Reachable(w3, other);
    assert w3.synced[o := true] == w.synced;
  }

  /** With the control-plane nodes up, events of the machine alone take a healthy store to one replica
      per control-plane node, four for each replica in excess. */
  lemma {:induction false} SpreadCanFinish(w: World) returns (ws: seq<World>, es: seq<Event>)
    requires WellFormed(w) && |w.cp| >= |w.nodeOf| && Healthy(w)
    requires forall n :: n in w.cp ==> n in w.up
    ensures IsRun(ws, es) && ws[0] == w && |es| == 4 * Excess(w)
    ensures OnePerNode(ws[|es|].nodeOf, ws[|es|].cp) && Healthy(ws[|es|])
    decreases Excess(w)
  {
    SpreadStopsIff(w);
    if Excess(w) == 0 {
      ws, es := [w], [];
    } else {
      var w' := SpreadCanContinue(w);
      SpreadRoundDropsExcess(w, w');
      var us, ds := SpreadRoundIsARun(w, w');
      var vs, fs := SpreadCanFinish(w');
      JoinRuns(us, ds, vs, fs);
      ws, es := us + vs[1..], ds + fs;
    }
  }

  /** Rebalancing ends at the target: whatever empty nodes the scheduler picks, every sequence
      of rounds from a healthy placement takes exactly its excess many rounds to reach one
      replica per control-plane node, where no further round exists. */
  lemma {:induction false} SpreadRunReachesTarget(ws: seq<World>, k: nat)
    requires k < |ws| && forall i :: 0 <= i < |ws| - 1 ==> SpreadRound(ws[i], ws[i + 1])
    requires WellFormed(ws[0]) && |ws[0].cp| >= |ws[0].nodeOf| && Healthy(ws[0])
    ensures WellFormed(ws[k]) && |ws[k].cp| >= |ws[k].nodeOf| && Healthy(ws[k])
    ensures Excess(ws[k]) == Excess(ws[0]) - k
    ensures OnePerNode(ws[k].nodeOf, ws[k].cp) <==> k == Excess(ws[0])
  {
    if k > 0 {
      SpreadRunReachesTarget(ws, k - 1);
      assert SpreadRound(ws[k - 1], ws[k - 1 + 1]);
      SpreadRoundDropsExcess(ws[k - 1], ws[k]);
    }
    SpreadStopsIff(ws[k]);
  }

  /** The replicas not yet on the sole control-plane node. */
  ghost function OffTarget(w: World, target: Node): set<nat> {
    set o: nat | o < |w.nodeOf| && w.nodeOf[o] != target
  }

  /** One completed consolidation move; no health is needed. */
  ghost predicate ConsolidateRound(w: World, w': World, target: Node) {
    && WellFormed(w) && w.cp == [target] && "" !in w.nodeOf
    && exists o: nat :: ConsolidateMove(w, w', target, o)
  }

  ghost predicate ConsolidateMove(w: World, w': World, target: Node, o: nat)
    requires |w.nodeOf| == |w.synced|
  {
    Chosen(w, o) && w' == Vacated(w, o).(nodeOf := w.nodeOf[o := target])
  }

  /** Every completed move brings exactly one replica home. */
  lemma ConsolidateRoundDropsOne(w: World, w': World, target: Node)
    requires ConsolidateRound(w, w', target)
    ensures |OffTarget(w', target)| == |OffTarget(w, target)| - 1
    ensures w'.cp == [target] && WellFormed(w') && "" !in w'.nodeOf
  {
    var o: nat :| ConsolidateMove(w, w', target, o);
    assert Due(w, o) && o in OffTarget(w, target);
    assert OffTarget(w', target) == OffTarget(w, target) - {o};
  }

  /** With the surviving node up, a consolidation round is three events of the machine. */
  lemma ConsolidateRoundIsARun(w: World, w': World, target: Node) returns (ws: seq<World>, es: seq<Event>)
    requires ConsolidateRound(w, w', target) && target in w.up
    ensures IsRun(ws, es) && ws[0] == w && ws[|es|] == w'
    ensures |es| == 3 && es[0].DeleteClaim? && es[1].PodGone? && es[2].Rebind?
  {
    var o: nat :| ConsolidateMove(w, w', target, o);
    var w1 := Marked(w, o);
    var w2 := Vacated(w1, o);
    assert w1.marked - {o} == w.marked - {o};
    ws, es := [w, w1, w2, w'], [DeleteClaim(o), PodGone(o), Rebind(o, target)];
    assert Happens(w, es[0], w1) && Happens(w1, es[1], w2) && Happens(w2, es[2], w');
  }

  /** Consolidation stops exactly when every replica is on the node. */
  lemma ConsolidateStopsIff(w: World, target: Node)
    requires WellFormed(w) && w.cp == [target] && "" !in w.nodeOf
    ensures (forall o: nat :: o < |w.nodeOf| ==> !Due(w, o)) <==> OffTarget(w, target) == {}
  {
    assert forall o: nat :: o < |w.nodeOf| ==> (Due(w, o) <==> o in OffTarget(w, target));
  }

  /** So a consolidating run brings home one replica a round, and it is stuck exactly when the
      count of replicas elsewhere has reached zero. */
  lemma {:induction false} ConsolidateRunReachesTarget(ws: seq<World>, k: nat, target: Node)
    requires k < |ws| && forall i :: 0 <= i < |ws| - 1 ==> ConsolidateRound(ws[i], ws[i + 1], target)
    requires WellFormed(ws[0]) && ws[0].cp == [target] && "" !in ws[0].nodeOf
    ensures WellFormed(ws[k]) && ws[k].cp == [target] && "" !in ws[k].nodeOf
    ensures |OffTarget(ws[k], target)| == |OffTarget(ws[0], target)| - k
    ensures (forall o: nat :: o < |ws[k].nodeOf| ==> !Due(ws[k], o)) <==> k == |OffTarget(ws[0], target)|
  {
    if k > 0 {
      ConsolidateRunReachesTarget(ws, k - 1, target);
      assert ConsolidateRound(ws[k - 1], ws[k - 1 + 1], target);
      ConsolidateRoundDropsOne(ws[k - 1], ws[k], target);
    }
    ConsolidateStopsIff(ws[k], target);
    assert OffTarget(ws[k], target) == {} <==> |OffTarget(ws[k], target)| == 0;
  }
}
