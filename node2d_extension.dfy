/** `Node2DExtension.GetAbsoluteZIndex` over the tree of `NodeExtension`, and the
    nearest/farthest searches shared by `Node2DExtension` and `Node3DExtension`. */
module Node2DExtension {
  import opened Common
  import opened NodeExtension

  predicate IsNode2D(n: Node) {
    IsOfClass(n, "Node2D")
  }

  // ---------------------------------------------------------------------
  // Absolute z-index

  /** What the walk up from depth `k` yields: the node's `ZIndex` plus, while it is
      z-relative and has a parent, the parent's result; a parent that is not a `Node2D`
      fails the `(Node2D)` cast (`None`). */
  function AbsoluteZ(root: Node, path: seq<nat>, k: nat): Option<int>
    requires ValidPath(root, path) && k <= |path|
  {
    var node := AtDepth(root, path, k);
    if !node.kind.zAsRelative || k == 0 then Some(node.kind.zIndex)
    else if !IsNode2D(AtDepth(root, path, k - 1)) then None
    else
      match AbsoluteZ(root, path, k - 1)
      case Some(z) => Some(node.kind.zIndex + z)
      case None => None
  }

  method GetAbsoluteZIndex(root: Node, path: seq<nat>) returns (r: Option<int>)
    requires ValidPath(root, path) && IsNode2D(At(root, path))
    ensures r == AbsoluteZ(root, path, |path|)
  {
    var absoluteZ := 0;
    var k := |path|;
    while true
      invariant 0 <= k <= |path|
      invariant match AbsoluteZ(root, path, k)
                case Some(z) => AbsoluteZ(root, path, |path|) == Some(absoluteZ + z)
                case None => AbsoluteZ(root, path, |path|) == None
      decreases k
    {
      var node := AtDepth(root, path, k);
      absoluteZ := absoluteZ + node.kind.zIndex;
      if !node.kind.zAsRelative || k == 0 {
        return Some(absoluteZ);
      }
      var parent := AtDepth(root, path, k - 1);
      if !IsNode2D(parent) {
        return None;
      }
      k := k - 1;
    }
  }

  /** The sum of `ZIndex` over the nodes at depths `j..k` of the path. */
  function ZSum(root: Node, path: seq<nat>, j: nat, k: nat): int
    requires ValidPath(root, path) && j <= k <= |path|
    decreases k - j
  {
    AtDepth(root, path, k).kind.zIndex + (if j == k then 0 else ZSum(root, path, j, k - 1))
  }

  /** The walk from depth `k` climbs through z-relative `Node2D` parents and includes the
      first node that is not z-relative (depth `j`), or stops at the top of the tree. */
  lemma {:induction false} AbsoluteZIsChainSum(root: Node, path: seq<nat>, j: nat, k: nat)
    requires ValidPath(root, path) && j <= k <= |path|
    requires forall d :: j <= d <= k ==> IsNode2D(AtDepth(root, path, d))
    requires forall d :: j < d <= k ==> AtDepth(root, path, d).kind.zAsRelative
    requires j == 0 || !AtDepth(root, path, j).kind.zAsRelative
    ensures AbsoluteZ(root, path, k) == Some(ZSum(root, path, j, k))
    decreases k - j
  {
    if j < k {
      AbsoluteZIsChainSum(root, path, j, k - 1);
    }
  }

  /** A node that is not z-relative reports exactly its own `ZIndex`. */
  lemma NonRelativeKeepsOwnZ(root: Node, path: seq<nat>)
    requires ValidPath(root, path) && !At(root, path).kind.zAsRelative
    ensures AbsoluteZ(root, path, |path|) == Some(At(root, path).kind.zIndex)
  {
    assert path[..|path|] == path;
  }

  /** A z-relative node whose parent is not a `Node2D` makes the walk fail. */
  lemma NonNode2DParentFails(root: Node, path: seq<nat>)
    requires ValidPath(root, path) && |path| > 0 && At(root, path).kind.zAsRelative
    requires !IsNode2D(AtDepth(root, path, |path| - 1))
    ensures AbsoluteZ(root, path, |path|) == None
  {
    assert path[..|path|] == path;
  }

  // ---------------------------------------------------------------------
  // Nearest and farthest by distance

  /** A candidate the search looks at: `IsValid() && IsInsideTree() && !Equals(node)`,
      with its distance inside the inclusive range. */
  predicate InRange<N>(c: N, eligible: N -> bool, distance: N -> real, minDistance: real, maxDistance: real) {
    eligible(c) && minDistance <= distance(c) <= maxDistance
  }

  /** Position `k` holds an in-range candidate of least distance, and every earlier
      in-range candidate is strictly farther. */
  predicate IsNearestAt<N>(nodes: seq<N>, eligible: N -> bool, distance: N -> real,
                           minDistance: real, maxDistance: real, k: nat)
    requires k < |nodes|
  {
    InRange(nodes[k], eligible, distance, minDistance, maxDistance)
    && (forall i :: 0 <= i < |nodes| && InRange(nodes[i], eligible, distance, minDistance, maxDistance)
          ==> distance(nodes[k]) <= distance(nodes[i]))
    && (forall i :: 0 <= i < k && InRange(nodes[i], eligible, distance, minDistance, maxDistance)
          ==> distance(nodes[k]) < distance(nodes[i]))
  }

  /** Position `k` holds an in-range candidate of greatest distance, and every earlier
      in-range candidate is strictly nearer. */
  predicate IsFarthestAt<N>(nodes: seq<N>, eligible: N -> bool, distance: N -> real,
                            minDistance: real, maxDistance: real, k: nat)
    requires k < |nodes|
  {
    InRange(nodes[k], eligible, distance, minDistance, maxDistance)
    && (forall i :: 0 <= i < |nodes| && InRange(nodes[i], eligible, distance, minDistance, maxDistance)
          ==> distance(nodes[k]) >= distance(nodes[i]))
    && (forall i :: 0 <= i < k && InRange(nodes[i], eligible, distance, minDistance, maxDistance)
          ==> distance(nodes[k]) > distance(nodes[i]))
  }

  /** `GetNearestNodeByDistance`: the earliest in-range candidate of least distance
      (a later candidate replaces the best one only when strictly nearer). */
  method GetNearestNodeByDistance<N(==)>(nodes: seq<N>, eligible: N -> bool, distance: N -> real,
                                         minDistance: real, maxDistance: real)
    returns (found: Option<N>, index: int)
    ensures found.None? <==> forall i :: 0 <= i < |nodes| ==> !InRange(nodes[i], eligible, distance, minDistance, maxDistance)
    ensures found.None? ==> index == -1
    ensures found.Some? ==>
              0 <= index < |nodes| && nodes[index] == found.value
              && IsNearestAt(nodes, eligible, distance, minDistance, maxDistance, index)
  {
    found, index := None, -1;
    var previousDistance := 0.0;
    for i := 0 to |nodes|
      invariant found.None? <==> forall j :: 0 <= j < i ==> !InRange(nodes[j], eligible, distance, minDistance, maxDistance)
      invariant found.None? ==> index == -1
      invariant found.Some? ==>
                  0 <= index < i && nodes[index] == found.value
                  && previousDistance == distance(found.value)
                  && InRange(found.value, eligible, distance, minDistance, maxDistance)
                  && (forall j :: 0 <= j < i && InRange(nodes[j], eligible, distance, minDistance, maxDistance)
                        ==> previousDistance <= distance(nodes[j]))
                  && (forall j :: 0 <= j < index && InRange(nodes[j], eligible, distance, minDistance, maxDistance)
                        ==> previousDistance < distance(nodes[j]))
    {
      var targetNode := nodes[i];
      if eligible(targetNode) {
        var distanceToTarget := distance(targetNode);
        if distanceToTarget >= minDistance && distanceToTarget <= maxDistance
           && (found.None? || distanceToTarget < previousDistance) {
          found, index := Some(targetNode), i;
          previousDistance := distanceToTarget;
        }
      }
    }
  }

  /** `GetFarthestNodeByDistance`: the earliest in-range candidate of greatest distance. */
  method GetFarthestNodeByDistance<N(==)>(nodes: seq<N>, eligible: N -> bool, distance: N -> real,
                                          minDistance: real, maxDistance: real)
    returns (found: Option<N>, index: int)
    ensures found.None? <==> forall i :: 0 <= i < |nodes| ==> !InRange(nodes[i], eligible, distance, minDistance, maxDistance)
    ensures found.None? ==> index == -1
    ensures found.Some? ==>
              0 <= index < |nodes| && nodes[index] == found.value
              && IsFarthestAt(nodes, eligible, distance, minDistance, maxDistance, index)
  {
    found, index := None, -1;
    var previousDistance := 0.0;
    for i := 0 to |nodes|
      invariant found.None? <==> forall j :: 0 <= j < i ==> !InRange(nodes[j], eligible, distance, minDistance, maxDistance)
      invariant found.None? ==> index == -1
      invariant found.Some? ==>
                  0 <= index < i && nodes[index] == found.value
                  && previousDistance == distance(found.value)
                  && InRange(found.value, eligible, distance, minDistance, maxDistance)
                  && (forall j :: 0 <= j < i && InRange(nodes[j], eligible, distance, minDistance, maxDistance)
                        ==> previousDistance >= distance(nodes[j]))
                  && (forall j :: 0 <= j < index && InRange(nodes[j], eligible, distance, minDistance, maxDistance)
                        ==> previousDistance > distance(nodes[j]))
    {
      var targetNode := nodes[i];
      if eligible(targetNode) {
        var distanceToTarget := distance(targetNode);
        if distanceToTarget >= minDistance && distanceToTarget <= maxDistance
           && (found.None? || distanceToTarget > previousDistance) {
          found, index := Some(targetNode), i;
          previousDistance := distanceToTarget;
        }
      }
    }
  }

  /** The position the nearest search reports is the only one with its properties. */
  lemma NearestPositionIsUnique<N>(nodes: seq<N>, eligible: N -> bool, distance: N -> real,
                                   minDistance: real, maxDistance: real, a: nat, b: nat)
    requires a < |nodes| && b < |nodes|
    requires IsNearestAt(nodes, eligible, distance, minDistance, maxDistance, a)
    requires IsNearestAt(nodes, eligible, distance, minDistance, maxDistance, b)
    ensures a == b
  {
  }

  /** The same uniqueness for the farthest search. */
  lemma FarthestPositionIsUnique<N>(nodes: seq<N>, eligible: N -> bool, distance: N -> real,
                                    minDistance: real, maxDistance: real, a: nat, b: nat)
    requires a < |nodes| && b < |nodes|
    requires IsFarthestAt(nodes, eligible, distance, minDistance, maxDistance, a)
    requires IsFarthestAt(nodes, eligible, distance, minDistance, maxDistance, b)
    ensures a == b
  {
  }
}
