/** The Garage layout reconcile (images/controller/internal/backend/garage/mesh.go). */
module Layout {
  import opened Wrappers

  datatype Role = Role(id: string, capacity: Option<int>)

  datatype Peer = Peer(id: string, ip: string)

  const LAYOUT_ZONE := "dc1"

  datatype RoleChange =
    | Assign(id: string, zone: string, capacity: int)
    | Remove(id: string)

  function RoleIds(roles: seq<Role>): set<string> {
    set r | r in roles :: r.id
  }

  function PeerIds(peers: seq<Peer>): set<string> {
    set p | p in peers :: p.id
  }

  /** A role for every live peer without one; once the full complement answers, a removal for
      every role whose node does not. */
  ghost predicate IsChanges(roles: set<string>, peers: seq<Peer>, expected: int, capacity: int,
      changes: seq<RoleChange>) {
    forall c :: c in changes <==>
      || (c.Assign? && c.id in PeerIds(peers) - roles && c.zone == LAYOUT_ZONE && c.capacity == capacity)
      || (c.Remove? && |peers| >= expected && c.id in roles - PeerIds(peers))
  }

  method LayoutRoleChanges(roles: seq<Role>, peers: seq<Peer>, expected: int, capacity: int)
    returns (changes: seq<RoleChange>)
    ensures IsChanges(RoleIds(roles), peers, expected, capacity, changes)
    ensures forall c :: c in changes && c.Assign? ==> c.zone == "dc1" && c.capacity == capacity
  {
    var held := {};
    for i := 0 to |roles|
      invariant held == RoleIds(roles[..i])
    {
      held := held + {roles[i].id};
      assert roles[..i + 1] == roles[..i] + [roles[i]];
    }
    assert roles[..|roles|] == roles;
    var live := {};
    for i := 0 to |peers|
      invariant live == PeerIds(peers[..i])
    {
      live := live + {peers[i].id};
      assert peers[..i + 1] == peers[..i] + [peers[i]];
    }
    assert peers[..|peers|] == peers;

    changes := [];
    for i := 0 to |peers|
      invariant forall c :: c in changes <==>
                  c.Assign? && c.id in PeerIds(peers[..i]) - held && c.zone == LAYOUT_ZONE && c.capacity == capacity
    {
      assert peers[..i + 1] == peers[..i] + [peers[i]];
      if peers[i].id !in held {
        changes := changes + [Assign(peers[i].id, LAYOUT_ZONE, capacity)];
      }
    }
    if |peers| >= expected {
      for i := 0 to |roles|
        invariant forall c :: c in changes <==>
                    || (c.Assign? && c.id in PeerIds(peers) - held && c.zone == LAYOUT_ZONE && c.capacity == capacity)
                    || (c.Remove? && c.id in RoleIds(roles[..i]) - live)
      {
        assert roles[..i + 1] == roles[..i] + [roles[i]];
        if roles[i].id !in live {
          changes := changes + [Remove(roles[i].id)];
        }
      }
    }
  }

  /** Staging and applying the changes, entry by entry, as Garage does. */
  function Applied(roles: set<string>, changes: seq<RoleChange>): set<string>
    decreases changes
  {
    if changes == [] then roles
    else
      match changes[0]
      case Assign(id, _, _) => Applied(roles + {id}, changes[1..])
      case Remove(id) => Applied(roles - {id}, changes[1..])
  }

  /** Changes that never assign and remove one id can be applied in any order. */
  ghost predicate Consistent(changes: seq<RoleChange>) {
    forall c, d :: c in changes && d in changes && c.Assign? && d.Remove? ==> c.id != d.id
  }

  lemma {:induction false} AppliedIs(roles: set<string>, changes: seq<RoleChange>)
    requires Consistent(changes)
    ensures forall id :: id in Applied(roles, changes) <==>
              || (exists c :: c in changes && c.Assign? && c.id == id)
              || (id in roles && !exists c :: c in changes && c.Remove? && c.id == id)
    decreases changes
  {
    if changes != [] {
      var c0, rest := changes[0], changes[1..];
      assert changes == [c0] + rest;
      AppliedIs(if c0.Assign? then roles + {c0.id} else roles - {c0.id}, rest);
      forall id ensures id in Applied(roles, changes) <==>
                || (exists c :: c in changes && c.Assign? && c.id == id)
                || (id in roles && !exists c :: c in changes && c.Remove? && c.id == id)
      {
        assert c0 in changes;
        if c :| c in changes && c.Assign? && c.id == id {
          assert c == c0 || c in rest;
        }
        if c :| c in changes && c.Remove? && c.id == id {
          assert c == c0 || c in rest;
        }
      }
    }
  }

  lemma HeadIsMember(changes: seq<RoleChange>)
    ensures changes == [] || exists c :: c in changes
  {
    if changes != [] {
      assert changes[0] in changes;
    }
  }

  lemma LayoutApplied(roles: set<string>, peers: seq<Peer>, expected: int, capacity: int, changes: seq<RoleChange>)
    requires IsChanges(roles, peers, expected, capacity, changes)
    ensures Applied(roles, changes) ==
            if |peers| >= expected then PeerIds(peers) else roles + PeerIds(peers)
  {
    AppliedIs(roles, changes);
    var after := Applied(roles, changes);
    forall id ensures id in after <==>
                if |peers| >= expected then id in PeerIds(peers) else id in roles + PeerIds(peers)
    {
      if id in PeerIds(peers) - roles {
        assert Assign(id, LAYOUT_ZONE, capacity) in changes;
      }
      if |peers| >= expected && id in roles - PeerIds(peers) {
        assert Remove(id) in changes;
      }
    }
  }

  /** Applying the computed changes makes the roles equal the live peers once the full
      complement answers, and old roles plus live peers before that; so a live peer always
      ends up with a role, and recomputing afterwards gives no change. */
  lemma LayoutConverges(roles: set<string>, peers: seq<Peer>, expected: int, capacity: int,
                        changes: seq<RoleChange>, again: seq<RoleChange>)
    requires IsChanges(roles, peers, expected, capacity, changes)
    requires IsChanges(Applied(roles, changes), peers, expected, capacity, again)
    ensures Applied(roles, changes) ==
            if |peers| >= expected then PeerIds(peers) else roles + PeerIds(peers)
    ensures again == []
  {
    LayoutApplied(roles, peers, expected, capacity, changes);
    HeadIsMember(again);
  }
}
