/** The placement pass over the objects of the API server
    (images/controller/internal/backend/garage/rebalance.go): its reads, its deletes, and how they
    follow the machine of PlacementRuns. */
module PlacementPass {
  import opened PlacementRuns
  import opened Rebalance
  import opened Wrappers

  /** A replica PVC: the volume it is bound to, and whether its deletion is pending. */
  datatype Claim = Claim(volume: Option<string>, deleting: bool)

  datatype Pod = Pod(deleting: bool)

  /** What `systemReplicaNodes` reads for one replica. */
  function BoundNode(claims: map<nat, Claim>, volumeNode: map<string, Node>, ordinal: nat): Node {
    if ordinal in claims && claims[ordinal].volume.Some? && claims[ordinal].volume.value in volumeNode
    then volumeNode[claims[ordinal].volume.value] else ""
  }

  /** Replica `o` has a PVC bound to a volume that carries the node label `n`. */
  ghost predicate LivesOn(claims: map<nat, Claim>, volumeNode: map<string, Node>, o: nat, n: Node) {
    exists v :: v in volumeNode && volumeNode[v] == n && o in claims && claims[o].volume == Some(v)
  }

  lemma BoundNodeIs(claims: map<nat, Claim>, volumeNode: map<string, Node>, o: nat, n: Node)
    requires n != ""
    ensures BoundNode(claims, volumeNode, o) == n <==> LivesOn(claims, volumeNode, o, n)
  {
    if BoundNode(claims, volumeNode, o) == n {
      assert claims[o].volume.value in volumeNode;
    }
  }

  /** Deleting a PVC: its protection finalizer keeps it for as long as a pod mounts it. */
  function ClaimDeleted(claims: map<nat, Claim>, pods: map<nat, Pod>, ordinal: nat): map<nat, Claim> {
    if ordinal !in claims then claims
    else if ordinal in pods then claims[ordinal := claims[ordinal].(deleting := true)]
    else claims - {ordinal}
  }

  /** Deleting a pod: it terminates in its own time. */
  function PodDeleted(pods: map<nat, Pod>, ordinal: nat): map<nat, Pod> {
    if ordinal in pods then pods[ordinal := Pod(true)] else pods
  }

  /** What a recycle leaves of the PVCs and of the pods. */
  function RecycledClaims(claims: map<nat, Claim>, pods: map<nat, Pod>, ordinal: nat, claimOk: bool): map<nat, Claim> {
    if claimOk then ClaimDeleted(claims, pods, ordinal) else claims
  }

  function RecycledPods(pods: map<nat, Pod>, ordinal: nat, claimOk: bool, podOk: bool): map<nat, Pod> {
    if claimOk && podOk then PodDeleted(pods, ordinal) else pods
  }

  /** Once the pod has gone, a PVC that was held back goes too. */
  function ClaimsWithoutPod(claims: map<nat, Claim>, ordinal: nat): map<nat, Claim> {
    if ordinal in claims && claims[ordinal].deleting then claims - {ordinal} else claims
  }

  function NodesOf(claims: map<nat, Claim>, volumeNode: map<string, Node>, replicas: nat): map<nat, Node> {
    map o: nat | o < replicas :: BoundNode(claims, volumeNode, o)
  }

  /** What a recycle changes, and when. While the pod lives, every replica reads back as before, the
      recycled one included, so a pass over the same topology makes the same choice again. A
      completed recycle leaves that pod, and no other, terminating, so that the PVC can go; once it
      has gone, the replica is unbound exactly when its PVC delete succeeded. No other replica's
      node ever changes. */
  lemma RecycleTakesEffect(claims: map<nat, Claim>, pods: map<nat, Pod>, volumeNode: map<string, Node>,
                           ordinal: nat, claimOk: bool, podOk: bool)
    requires BoundNode(claims, volumeNode, ordinal) != "" && !claims[ordinal].deleting
    ensures var after := RecycledClaims(claims, pods, ordinal, claimOk);
            && (forall o: nat :: o != ordinal ==> BoundNode(after, volumeNode, o) == BoundNode(claims, volumeNode, o))
            && (ordinal in pods ==>
                  forall r: nat :: NodesOf(after, volumeNode, r) == NodesOf(claims, volumeNode, r))
            && (BoundNode(ClaimsWithoutPod(after, ordinal), volumeNode, ordinal) == "" <==> claimOk)
    ensures var left := RecycledPods(pods, ordinal, claimOk, podOk);
            && left.Keys == pods.Keys && (forall o :: o in pods && o != ordinal ==> left[o] == pods[o])
            && (ordinal in pods && !pods[ordinal].deleting ==> (left[ordinal].deleting <==> claimOk && podOk))
  {
    var after := RecycledClaims(claims, pods, ordinal, claimOk);
    if ordinal in pods {
      assert forall o: nat :: BoundNode(after, volumeNode, o) == BoundNode(claims, volumeNode, o);
    }
    if claimOk {
      assert ordinal !in ClaimsWithoutPod(after, ordinal);
    } else {
      assert ClaimsWithoutPod(after, ordinal) == claims;
    }
  }

  // --- The objects and the machine ------------------------------------------------

  /** The objects are those of a world of the machine: a replica is where its PVC's volume is labelled
      to be, and marked when that PVC waits for a pod that is still there. */
  ghost predicate Shows(claims: map<nat, Claim>, volumeNode: map<string, Node>, pods: map<nat, Pod>, w: World) {
    && |w.nodeOf| == 3
    && (forall o: nat, n: Node :: o < 3 && n != "" ==> (w.nodeOf[o] == n <==> LivesOn(claims, volumeNode, o, n)))
    && (forall o: nat :: o < 3 ==>
          (o in w.marked <==> w.nodeOf[o] != "" && o in claims && claims[o].deleting))
    && (forall o :: o in w.marked ==> o in pods)
  }

  lemma ShownNodes(claims: map<nat, Claim>, volumeNode: map<string, Node>, pods: map<nat, Pod>, w: World)
    requires Shows(claims, volumeNode, pods, w)
    ensures NodesOf(claims, volumeNode, 3) == AsMap(w.nodeOf)
  {
    forall o: nat | o < 3 ensures BoundNode(claims, volumeNode, o) == w.nodeOf[o] {
      if w.nodeOf[o] != "" {
        BoundNodeIs(claims, volumeNode, o, w.nodeOf[o]);
      }
      if BoundNode(claims, volumeNode, o) != "" {
        BoundNodeIs(claims, volumeNode, o, BoundNode(claims, volumeNode, o));
      }
    }
  }

  /** What a pass reads is such a world, health included where it is asked for. */
  ghost predicate Sees(claims: map<nat, Claim>, volumeNode: map<string, Node>, pods: map<nat, Pod>,
                       healthy: bool, w: World) {
    WellFormed(w) && Shows(claims, volumeNode, pods, w) && (IsSpreading(w) ==> healthy == Healthy(w))
  }

  /** The first misplaced replica, by what the objects read, is the machine's choice. */
  lemma PassChooses(claims: map<nat, Claim>, volumeNode: map<string, Node>, pods: map<nat, Pod>,
                    healthy: bool, w: World, moved: Option<nat>)
    requires Sees(claims, volumeNode, pods, healthy, w)
    requires var nodes := NodesOf(claims, volumeNode, 3);
             match moved
             case None => forall o: nat :: o < 3 ==> !Misplaced(w.cp, nodes, 3, healthy, o)
             case Some(o) => Misplaced(w.cp, nodes, 3, healthy, o)
                             && forall p: nat :: p < o ==> !Misplaced(w.cp, nodes, 3, healthy, p)
    ensures forall o: nat :: moved == Some(o) <==> Chosen(w, o)
    ensures moved.Some? ==> moved.value < 3 && w.nodeOf[moved.value] != ""
  {
    ShownNodes(claims, volumeNode, pods, w);
    assert forall o: nat :: Misplaced(w.cp, NodesOf(claims, volumeNode, 3), 3, healthy, o) <==> Due(w, o);
  }

  lemma OtherReplicasStay(claims: map<nat, Claim>, after: map<nat, Claim>, volumeNode: map<string, Node>, o: nat)
    requires forall p :: p in after && p != o ==> p in claims && after[p].volume == claims[p].volume
    requires forall p :: p in claims && p != o ==> p in after
    ensures forall p: nat, n: Node :: p != o ==>
              (LivesOn(after, volumeNode, p, n) <==> LivesOn(claims, volumeNode, p, n))
  {
    forall p: nat, n: Node | p != o ensures LivesOn(after, volumeNode, p, n) <==> LivesOn(claims, volumeNode, p, n) {
      if v :| v in volumeNode && volumeNode[v] == n && p in claims && claims[p].volume == Some(v) {
        assert p in after && after[p].volume == Some(v);
      }
      if v :| v in volumeNode && volumeNode[v] == n && p in after && after[p].volume == Some(v) {
        assert p in claims && claims[p].volume == Some(v);
      }
    }
  }

  /** Deleting the PVC of a replica with a pod marks it. */
  lemma ShowsMarked(claims: map<nat, Claim>, volumeNode: map<string, Node>, pods: map<nat, Pod>, w: World, o: nat)
    requires WellFormed(w) && Shows(claims, volumeNode, pods, w) && o < 3 && w.nodeOf[o] != "" && o in pods
    ensures Shows(ClaimDeleted(claims, pods, o), volumeNode, pods, Marked(w, o))
  {
    var after := ClaimDeleted(claims, pods, o);
    assert LivesOn(claims, volumeNode, o, w.nodeOf[o]);
    OtherReplicasStay(claims, after, volumeNode, o);
    forall n: Node ensures LivesOn(after, volumeNode, o, n) <==> LivesOn(claims, volumeNode, o, n) {
      if v :| v in volumeNode && volumeNode[v] == n && o in claims && claims[o].volume == Some(v) {
        assert after[o].volume == Some(v);
      }
      if v :| v in volumeNode && volumeNode[v] == n && o in after && after[o].volume == Some(v) {
        assert claims[o].volume == Some(v);
      }
    }
  }

  /** A PVC that has gone leaves its replica unbound. */
  lemma ShowsVacated(claims: map<nat, Claim>, volumeNode: map<string, Node>, pods: map<nat, Pod>, w: World, o: nat)
    requires WellFormed(w) && Shows(claims, volumeNode, pods, w) && o < 3
    ensures Shows(claims - {o}, volumeNode, pods - {o}, Vacated(w, o))
  {
    OtherReplicasStay(claims, claims - {o}, volumeNode, o);
  }

  /** The end of a marked replica's pod is the machine's event. */
  lemma PodEndShows(claims: map<nat, Claim>, volumeNode: map<string, Node>, pods: map<nat, Pod>, w: World, o: nat)
    requires WellFormed(w) && Shows(claims, volumeNode, pods, w) && o in w.marked
    ensures Happens(w, PodGone(o), Vacated(w, o))
    ensures Shows(ClaimsWithoutPod(claims, o), volumeNode, pods - {o}, Vacated(w, o))
  {
    ShowsVacated(claims, volumeNode, pods, w, o);
    assert ClaimsWithoutPod(claims, o) == claims - {o};
  }

  lemma ShowsOtherPods(claims: map<nat, Claim>, volumeNode: map<string, Node>, pods: map<nat, Pod>, w: World,
                       left: map<nat, Pod>)
    requires Shows(claims, volumeNode, pods, w) && pods.Keys <= left.Keys
    ensures Shows(claims, volumeNode, left, w)
  {
  }

  lemma RecycleShows(claims: map<nat, Claim>, volumeNode: map<string, Node>, pods: map<nat, Pod>, w: World, o: nat,
                     claimOk: bool, podOk: bool)
    requires WellFormed(w) && Shows(claims, volumeNode, pods, w) && o < 3 && w.nodeOf[o] != ""
    ensures Shows(RecycledClaims(claims, pods, o, claimOk), volumeNode, RecycledPods(pods, o, claimOk, podOk),
                  Recycling(w, pods, o, claimOk))
  {
    var left := RecycledPods(pods, o, claimOk, podOk);
    if !claimOk {
      assert left == pods;
    } else if o in pods {
      ShowsMarked(claims, volumeNode, pods, w, o);
      ShowsOtherPods(ClaimDeleted(claims, pods, o), volumeNode, pods, Marked(w, o), left);
    } else {
      assert LivesOn(claims, volumeNode, o, w.nodeOf[o]);
      ShowsVacated(claims, volumeNode, pods, w, o);
      assert pods - {o} == pods;
    }
  }

  /** The world after the PVC delete of a recycle; without a pod the PVC goes at once. */
  function Recycling(w: World, pods: map<nat, Pod>, o: nat, claimOk: bool): World
    requires o < |w.nodeOf| == |w.synced|
  {
    if !claimOk then w else if o in pods then Marked(w, o) else Vacated(w, o)
  }

  /** The replica PVCs, the volumes' node labels, and the pods, as the API server holds them. */
  class Placement {
    var claims: map<nat, Claim>
    var volumeNode: map<string, Node>
    var pods: map<nat, Pod>

    method SystemReplicaNodes(replicas: nat) returns (out: map<nat, Node>)
      ensures forall o: nat :: o in out <==> o < replicas
      ensures forall o :: o in out ==> out[o] == BoundNode(claims, volumeNode, o)
      ensures forall o, n :: o in out && n != "" ==> (out[o] == n <==> LivesOn(claims, volumeNode, o, n))
    {
      out := map[];
      for ord: nat := 0 to replicas
        invariant forall o: nat :: o in out <==> o < ord
        invariant forall o :: o in out ==> out[o] == BoundNode(claims, volumeNode, o)
      {
        if ord !in claims {
          out := out[ord := ""];
          continue;
        }
        if claims[ord].volume.None? {
          out := out[ord := ""];
          continue;
        }
        var volume := claims[ord].volume.value;
        if volume !in volumeNode {
          out := out[ord := ""];
          continue;
        }
        out := out[ord := volumeNode[volume]];
      }
      forall o, n | o in out && n != "" ensures out[o] == n <==> LivesOn(claims, volumeNode, o, n) {
        BoundNodeIs(claims, volumeNode, o, n);
      }
    }

    /** Deletes the PVC, then the pod; absent ones are fine. Either call may fail, and a
        failed PVC delete leaves the pod alone. Volumes stay (Retain). */
    method RecycleReplica(ordinal: nat, claimDeleteOk: bool, podDeleteOk: bool) returns (ok: bool)
      modifies this`claims, this`pods
      ensures ok == (claimDeleteOk && podDeleteOk)
      ensures claims == RecycledClaims(old(claims), old(pods), ordinal, claimDeleteOk)
      ensures pods == RecycledPods(old(pods), ordinal, claimDeleteOk, podDeleteOk)
    {
      if !claimDeleteOk {
        return false;
      }
      if ordinal in claims {
        if ordinal in pods {
          claims := claims[ordinal := claims[ordinal].(deleting := true)];
        } else {
          claims := claims - {ordinal};
        }
      }
      if !podDeleteOk {
        return false;
      }
      if ordinal in pods {
        pods := pods[ordinal := Pod(true)];
      }
      return true;
    }

    /** One placement pass; `None` for the node list is a failed list call, `readsOk`
        whether the PVC and volume reads succeed. At most one replica's PVC and pod go, never a
        single-replica store's. Over objects that show a world of the machine, the replica moved is
        the machine's choice, and the objects then show the world after its event. */
    method ReconcileSystemPlacement(single: bool, cpNodes: Option<seq<Node>>, readsOk: bool, healthy: bool,
                                    claimDeleteOk: bool, podDeleteOk: bool, ghost w: World)
      returns (acted: bool, failed: bool, moved: Option<nat>)
      modifies this`claims, this`pods
      ensures single ==> !acted && !failed
      ensures moved.None? ==> claims == old(claims) && pods == old(pods) && !acted
      ensures failed <==> !single && (cpNodes.None? || !readsOk || (moved.Some? && !acted))
      ensures moved.Some? ==>
                var nodes := NodesOf(old(claims), old(volumeNode), 3);
                && !single && cpNodes.Some? && readsOk
                && Misplaced(cpNodes.value, nodes, 3, healthy, moved.value)
                && (forall o: nat :: o < moved.value ==> !Misplaced(cpNodes.value, nodes, 3, healthy, o))
                && acted == (claimDeleteOk && podDeleteOk)
                && claims == RecycledClaims(old(claims), old(pods), moved.value, claimDeleteOk)
                && pods == RecycledPods(old(pods), moved.value, claimDeleteOk, podDeleteOk)
      ensures !single && cpNodes.Some? && readsOk && moved.None? ==>
                var nodes := NodesOf(old(claims), old(volumeNode), 3);
                forall o: nat :: o < 3 ==> !Misplaced(cpNodes.value, nodes, 3, healthy, o)
      ensures && Sees(old(claims), old(volumeNode), old(pods), healthy, w)
              && !single && readsOk && cpNodes == Some(w.cp) ==>
                && (forall o: nat :: moved == Some(o) <==> Chosen(w, o))
                && (moved.None? ==> Shows(claims, volumeNode, pods, w))
                && (moved.Some? ==>
                      Shows(claims, volumeNode, pods, Recycling(w, old(pods), moved.value, claimDeleteOk)))
    {
      acted, failed, moved := false, false, None;
      if single {
        return;
      }
      if cpNodes.None? {
        failed := true;
        return;
      }
      if !readsOk {
        failed := true;
        return;
      }
      var replicas: nat := 3;
      var replicaNode := SystemReplicaNodes(replicas);
      assert replicaNode == NodesOf(claims, volumeNode, 3);
      // The health query is skipped unless spreading.
      var health := |cpNodes.value| >= replicas && healthy;
      var action := NextPlacementAction(cpNodes.value, replicaNode, replicas, health);
      assert forall o: nat :: Misplaced(cpNodes.value, replicaNode, 3, health, o) <==>
             Misplaced(cpNodes.value, replicaNode, 3, healthy, o);
      ghost var sees := cpNodes == Some(w.cp) && Sees(claims, volumeNode, pods, healthy, w);
      if action.NoAction? {
        if sees {
          PassChooses(claims, volumeNode, pods, healthy, w, None);
        }
        return;
      }
      moved := Some(action.ordinal);
      if sees {
        PassChooses(claims, volumeNode, pods, healthy, w, moved);
        RecycleShows(claims, volumeNode, pods, w, action.ordinal, claimDeleteOk, podDeleteOk);
      }
      var ok := RecycleReplica(action.ordinal, claimDeleteOk, podDeleteOk);
      acted, failed := ok, !ok;
    }
  }
}
