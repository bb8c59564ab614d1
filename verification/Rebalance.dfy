/** Placement of the System replicas (images/controller/internal/backend/garage/rebalance.go): the
    decision which replica to relocate. */
module Rebalance {
  import opened Wrappers

  /** "" is an unbound replica: still binding, or its volume is gone. */
  type Node = string

  datatype Reason = OffControlPlane | CoLocated(node: Node) | Consolidating(target: Node)

  datatype Action = NoAction | Recycle(ordinal: nat, reason: Reason)

  function At(replicaNode: map<nat, Node>, ordinal: nat): Node {
    if ordinal in replicaNode then replicaNode[ordinal] else ""
  }

  // --- What the decision means -------------------------------------------------

  /** The replica shares its node with another one. */
  predicate Shares(replicaNode: map<nat, Node>, ordinal: nat) {
    exists other :: other in replicaNode && other != ordinal && replicaNode[other] == At(replicaNode, ordinal)
  }

  /** Spreading: at least one control-plane node per replica, and a healthy store. */
  predicate Spreading(cpNodes: seq<Node>, replicas: nat) {
    |cpNodes| >= replicas
  }

  predicate ConsolidatingOnto(cpNodes: seq<Node>, replicas: nat) {
    |cpNodes| < replicas && |cpNodes| == 1
  }

  /** The replica is due for a move under the topology rules. */
  predicate Misplaced(cpNodes: seq<Node>, replicaNode: map<nat, Node>, replicas: nat, healthy: bool, ordinal: nat) {
    var n := At(replicaNode, ordinal);
    && n != ""
    && (if Spreading(cpNodes, replicas) then healthy && (n !in cpNodes || Shares(replicaNode, ordinal))
        else ConsolidatingOnto(cpNodes, replicas) && n != cpNodes[0])
  }

  /** Who holds a node, among all keys of the map. */
  ghost function Holders(replicaNode: map<nat, Node>, n: Node): set<nat> {
    set o | o in replicaNode && replicaNode[o] == n
  }

  lemma SharedMeansTwoHolders(replicaNode: map<nat, Node>, ordinal: nat)
    requires ordinal in replicaNode
    ensures |Holders(replicaNode, replicaNode[ordinal])| > 1 <==> Shares(replicaNode, ordinal)
  {
    var h := Holders(replicaNode, replicaNode[ordinal]);
    assert ordinal in h;
    var rest := h - {ordinal};
    assert |rest| == |h| - 1;
    if Shares(replicaNode, ordinal) {
      var other :| other in replicaNode && other != ordinal && replicaNode[other] == At(replicaNode, ordinal);
      assert other in rest;
    }
    if |rest| > 0 {
      var other :| other in rest;
      assert replicaNode[other] == At(replicaNode, ordinal);
    }
  }

  lemma HoldersStep(seen: map<nat, Node>, o: nat, n: Node)
    requires o !in seen
    ensures |Holders(seen[o := n], n)| == |Holders(seen, n)| + 1
    ensures forall m: Node :: m != n ==> Holders(seen[o := n], m) == Holders(seen, m)
  {
    assert Holders(seen[o := n], n) == Holders(seen, n) + {o};
    forall m: Node | m != n ensures Holders(seen[o := n], m) == Holders(seen, m) {}
  }

  /** The counting loop: how many replicas each control-plane node holds. */
  method CountPerNode(cpNodes: seq<Node>, replicaNode: map<nat, Node>) returns (perNode: map<Node, nat>)
    ensures forall n :: n in cpNodes ==>
              (if n in perNode then perNode[n] else 0) == |Holders(replicaNode, n)|
  {
    perNode := map[];
    var left := replicaNode.Keys;
    ghost var seen: map<nat, Node> := map[];
    while left != {}
      invariant left <= replicaNode.Keys
      invariant seen == map o | o in replicaNode && o !in left :: replicaNode[o]
      invariant forall n :: n in cpNodes ==> (if n in perNode then perNode[n] else 0) == |Holders(seen, n)|
      decreases left
    {
      var o :| o in left;
      var n := replicaNode[o];
      HoldersStep(seen, o, n);
      if n in cpNodes {
        perNode := perNode[n := (if n in perNode then perNode[n] else 0) + 1];
      }
      seen := seen[o := n];
      left := left - {o};
    }
    assert seen == replicaNode;
  }

  /** At most one replica is chosen: the first misplaced one, if any. */
  method NextPlacementAction(cpNodes: seq<Node>, replicaNode: map<nat, Node>, replicas: nat, healthy: bool)
    returns (action: Action)
    ensures action.NoAction? <==>
            forall o: nat :: o < replicas ==> !Misplaced(cpNodes, replicaNode, replicas, healthy, o)
    ensures action.Recycle? ==>
              && action.ordinal < replicas
              && Misplaced(cpNodes, replicaNode, replicas, healthy, action.ordinal)
              && (forall o: nat :: o < action.ordinal ==> !Misplaced(cpNodes, replicaNode, replicas, healthy, o))
              && (match action.reason
                  case OffControlPlane => |cpNodes| >= replicas && At(replicaNode, action.ordinal) !in cpNodes
                  case CoLocated(n) => |cpNodes| >= replicas && n in cpNodes && At(replicaNode, action.ordinal) == n
                  case Consolidating(target) => |cpNodes| < replicas && cpNodes == [target])
  {
    if |cpNodes| >= replicas {
      if !healthy {
        return NoAction;
      }
      var perNode := CountPerNode(cpNodes, replicaNode);
      for ord: nat := 0 to replicas
        invariant forall o: nat :: o < ord ==> !Misplaced(cpNodes, replicaNode, replicas, healthy, o)
      {
        var n := At(replicaNode, ord);
        if n == "" {
          continue;
        }
        if n !in cpNodes {
          assert Misplaced(cpNodes, replicaNode, replicas, healthy, ord);
          return Recycle(ord, OffControlPlane);
        }
        SharedMeansTwoHolders(replicaNode, ord);
        if n in perNode && perNode[n] > 1 {
          assert Misplaced(cpNodes, replicaNode, replicas, healthy, ord);
          return Recycle(ord, CoLocated(n));
        }
      }
      return NoAction;
    } else if |cpNodes| == 1 {
      var target := cpNodes[0];
      for ord: nat := 0 to replicas
        invariant forall o: nat :: o < ord ==> !Misplaced(cpNodes, replicaNode, replicas, healthy, o)
      {
        var n := At(replicaNode, ord);
        if n == "" {
          continue;
        }
        if n != target {
          assert Misplaced(cpNodes, replicaNode, replicas, healthy, ord);
          return Recycle(ord, Consolidating(target));
        }
      }
      return NoAction;
    } else {
      return NoAction;
    }
  }
}
