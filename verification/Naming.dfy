/** Names and on-node directories of the System pool volumes
    (images/controller/internal/backend/garage/resources.go). The SHA-256 digest is a
    parameter: any function into ten hexadecimal characters. */
module Naming {
  import opened Decimal
  import opened Digest
  import opened GarageConfig

  const HOST_PATH_BASE := "/var/lib/deckhouse/sds-object/garage"

  /** A digest function without collisions on the strings in play. */
  ghost predicate CollisionFree(hash: string -> string, inPlay: iset<string>) {
    && (forall s :: s in inPlay ==> IsShortHash(hash(s)))
    && (forall s, t :: s in inPlay && t in inPlay && hash(s) == hash(t) ==> s == t)
  }

  /** The pool volume of one node, incarnation and slot. */
  datatype Slot = Slot(node: string, incarnation: int32, index: nat)

  function ResourceName(cluster: string): string {
    cluster + "-garage"
  }

  /** What follows the node digest in a volume's name; the first incarnation keeps the
      original, incarnation-less form. */
  function NameTail(s: Slot): string {
    if s.incarnation <= FIRST_INCARNATION then Format(s.index)
    else "i" + (FormatInt(s.incarnation) + "-" + Format(s.index))
  }

  function VolumeName(cluster: string, hash: string -> string, s: Slot): string {
    ResourceName(cluster) + "-local-" + (hash(s.node) + ("-" + NameTail(s)))
  }

  function PathTail(hash: string -> string, s: Slot): string {
    var leaf := hash(s.node) + ("-" + Format(s.index));
    if s.incarnation <= FIRST_INCARNATION then leaf
    else "i" + (FormatInt(s.incarnation) + "/" + leaf)
  }

  function VolumePath(cluster: string, hash: string -> string, s: Slot): string {
    HOST_PATH_BASE + "/" + cluster + "/" + PathTail(hash, s)
  }

  /** Volumes of the first incarnation keep the names and directories they always had; later ones are
      told apart by their incarnation. */
  lemma NamesAre(cluster: string, hash: string -> string, s: Slot)
    ensures s.incarnation == 1 ==>
              && VolumeName(cluster, hash, s) ==
                 cluster + "-garage-local-" + hash(s.node) + "-" + Format(s.index)
              && VolumePath(cluster, hash, s) ==
                 "/var/lib/deckhouse/sds-object/garage/" + cluster + "/" + hash(s.node) + "-" + Format(s.index)
    ensures s.incarnation > 1 ==>
              && VolumeName(cluster, hash, s) ==
                 cluster + "-garage-local-" + hash(s.node) + "-i" + FormatInt(s.incarnation) + "-" + Format(s.index)
              && VolumePath(cluster, hash, s) ==
                 "/var/lib/deckhouse/sds-object/garage/" + cluster + "/i" + FormatInt(s.incarnation) + "/"
                 + hash(s.node) + "-" + Format(s.index)
  {
    if s.incarnation == 1 {
      FirstNames(cluster, hash(s.node), Format(s.index));
    } else if s.incarnation > 1 {
      LaterNames(cluster, hash(s.node), FormatInt(s.incarnation), Format(s.index));
    }
  }

  lemma FirstNames(cluster: string, digest: string, index: string)
    ensures cluster + "-garage" + "-local-" + (digest + ("-" + index)) ==
            cluster + "-garage-local-" + digest + "-" + index
    ensures HOST_PATH_BASE + "/" + cluster + "/" + (digest + ("-" + index)) ==
            "/var/lib/deckhouse/sds-object/garage/" + cluster + "/" + digest + "-" + index
  {
    assert "-garage" + "-local-" == "-garage-local-";
    assert HOST_PATH_BASE + "/" == "/var/lib/deckhouse/sds-object/garage/";
  }

  lemma LaterNames(cluster: string, digest: string, incarnation: string, index: string)
    ensures cluster + "-garage" + "-local-" + (digest + ("-" + ("i" + (incarnation + "-" + index)))) ==
            cluster + "-garage-local-" + digest + "-i" + incarnation + "-" + index
    ensures HOST_PATH_BASE + "/" + cluster + "/" + ("i" + (incarnation + "/" + (digest + ("-" + index)))) ==
            "/var/lib/deckhouse/sds-object/garage/" + cluster + "/i" + incarnation + "/" + digest + "-" + index
  {
    assert "-garage" + "-local-" == "-garage-local-";
    assert HOST_PATH_BASE + "/" == "/var/lib/deckhouse/sds-object/garage/";
    assert "-" + "i" == "-i" && "/" + "i" == "/i";
  }

  lemma SameStem(stem: string, a: string, b: string)
    requires stem + a == stem + b
    ensures a == b
  {
    assert (stem + a)[|stem|..] == a;
    assert (stem + b)[|stem|..] == b;
  }

  lemma SameLengthStem(p: string, q: string, a: string, b: string)
    requires |p| == |q| && p + a == q + b
    ensures p == q && a == b
  {
    assert (p + a)[..|p|] == p && (q + b)[..|q|] == q;
    assert (p + a)[|p|..] == a && (q + b)[|q|..] == b;
  }

  /** Text up to the first separator, and text after it, are determined. */
  lemma SameSplit(sep: char, p: string, q: string, a: string, b: string)
    requires sep !in p && sep !in q
    requires p + [sep] + a == q + [sep] + b
    ensures p == q && a == b
  {
    assert (p + [sep] + a)[|p|] == sep && (q + [sep] + b)[|q|] == sep;
    assert forall i :: 0 <= i < |p| ==> (p + [sep] + a)[i] == p[i] != sep;
    assert forall i :: 0 <= i < |q| ==> (q + [sep] + b)[i] == q[i] != sep;
    assert |p| == |q|;
    SameLengthStem(p + [sep], q + [sep], a, b);
    SameLengthStem(p, q, [sep], [sep]);
  }

  lemma NameTailInjective(s: Slot, t: Slot)
    requires s.incarnation >= FIRST_INCARNATION && t.incarnation >= FIRST_INCARNATION
    requires NameTail(s) == NameTail(t)
    ensures s.incarnation == t.incarnation && s.index == t.index
  {
    assert IsDigit(Format(s.index)[0]) && IsDigit(Format(t.index)[0]);
    if s.incarnation == FIRST_INCARNATION {
      FormatInjective(s.index, t.index);
    } else {
      SameStem("i", NameTail(s)[1..], NameTail(t)[1..]);
      SameSplit('-', Format(s.incarnation), Format(t.incarnation), Format(s.index), Format(t.index));
      FormatInjective(s.incarnation, t.incarnation);
      FormatInjective(s.index, t.index);
    }
  }

  lemma LeafInjective(hash: string -> string, inPlay: iset<string>, s: Slot, t: Slot)
    requires CollisionFree(hash, inPlay) && s.node in inPlay && t.node in inPlay
    requires hash(s.node) + ("-" + Format(s.index)) == hash(t.node) + ("-" + Format(t.index))
    ensures s.node == t.node && s.index == t.index
  {
    SameLengthStem(hash(s.node), hash(t.node), "-" + Format(s.index), "-" + Format(t.index));
    SameStem("-", Format(s.index), Format(t.index));
    FormatInjective(s.index, t.index);
  }

  /** Pool volume names are injective in node, incarnation and slot. */
  lemma VolumeNamesInjective(cluster: string, hash: string -> string, inPlay: iset<string>, s: Slot, t: Slot)
    requires CollisionFree(hash, inPlay) && s.node in inPlay && t.node in inPlay
    requires s.incarnation >= FIRST_INCARNATION && t.incarnation >= FIRST_INCARNATION
    requires VolumeName(cluster, hash, s) == VolumeName(cluster, hash, t)
    ensures s == t
  {
    SameStem(ResourceName(cluster) + "-local-",
             hash(s.node) + ("-" + NameTail(s)), hash(t.node) + ("-" + NameTail(t)));
    SameLengthStem(hash(s.node), hash(t.node), "-" + NameTail(s), "-" + NameTail(t));
    SameStem("-", NameTail(s), NameTail(t));
    NameTailInjective(s, t);
  }

  /** So are the directories: no two slots of any incarnations share one. */
  lemma VolumePathsInjective(cluster: string, hash: string -> string, inPlay: iset<string>, s: Slot, t: Slot)
    requires CollisionFree(hash, inPlay) && s.node in inPlay && t.node in inPlay
    requires s.incarnation >= FIRST_INCARNATION && t.incarnation >= FIRST_INCARNATION
    requires VolumePath(cluster, hash, s) == VolumePath(cluster, hash, t)
    ensures s == t
  {
    SameStem(HOST_PATH_BASE + "/" + cluster + "/", PathTail(hash, s), PathTail(hash, t));
    assert IsHex(hash(s.node)[0]) && IsHex(hash(t.node)[0]);
    assert PathTail(hash, s)[0] == PathTail(hash, t)[0];
    if s.incarnation != FIRST_INCARNATION {
      SameStem("i", PathTail(hash, s)[1..], PathTail(hash, t)[1..]);
      SameSplit('/', Format(s.incarnation), Format(t.incarnation),
                hash(s.node) + ("-" + Format(s.index)), hash(t.node) + ("-" + Format(t.index)));
      FormatInjective(s.incarnation, t.incarnation);
    }
    LeafInjective(hash, inPlay, s, t);
  }
}
