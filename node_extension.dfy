/** The scene-tree queries of `NodeExtension`, over an immutable ordered tree of typed
    nodes. A node's class test `child is T` is `IsOfClass` (its class or one of its base
    classes is `T`) and the exact test `child.GetType() == typeof(T)` is `IsOfType`.
    A node inside a tree is addressed by the root of its tree and the path of child
    indices leading to it; its parent is the node at the path without its last index.

    Godot keeps two views of a node's children: `GetChildren(true)` lists all of them,
    internal ones included, while `GetChildCount()` and `GetChild(i)` (default
    `includeInternal = false`) see only the non-internal ones. The queries iterate the
    first view and test or index the second, so both are modelled. */
module NodeExtension {
  import opened Common

  datatype NodeKind = NodeKind(className: string, baseClasses: set<string>, zIndex: int, zAsRelative: bool)

  /** A node and all its children in child order, internal ones included. `internal` says
      that the node was added to its parent as an internal child. */
  datatype Node = Node(name: string, kind: NodeKind, internal: bool, children: seq<Node>)

  predicate IsOfClass(n: Node, t: string) {
    n.kind.className == t || t in n.kind.baseClasses
  }

  predicate IsOfType(n: Node, t: string) {
    n.kind.className == t
  }

  /** The children `GetChild(i)` indexes: the non-internal ones, in child order. */
  function Visible(cs: seq<Node>): (r: seq<Node>)
    ensures |r| <= |cs|
    ensures forall i :: 0 <= i < |r| ==> !r[i].internal && r[i] in cs
  {
    if cs == [] then [] else (if cs[0].internal then [] else [cs[0]]) + Visible(cs[1..])
  }

  /** `GetChildCount()`: the number of non-internal children. */
  function ChildCount(n: Node): nat {
    |Visible(n.children)|
  }

  /** The count is zero exactly when every child is internal. */
  lemma {:induction false} VisibleEmpty(cs: seq<Node>)
    ensures Visible(cs) == [] <==> forall i :: 0 <= i < |cs| ==> cs[i].internal
  {
    if cs != [] {
      VisibleEmpty(cs[1..]);
      if forall i :: 0 <= i < |cs| ==> cs[i].internal {
        assert forall i :: 0 <= i < |cs[1..]| ==> cs[1..][i] == cs[i + 1];
      }
    }
  }

  /** The last entry of `Visible(cs)` is a non-internal child after which only internal
      children follow. */
  lemma {:induction false} VisibleLast(cs: seq<Node>)
    requires Visible(cs) != []
    ensures exists i :: 0 <= i < |cs| && cs[i] == Visible(cs)[|Visible(cs)| - 1]
                        && !cs[i].internal && forall j :: i < j < |cs| ==> cs[j].internal
  {
    var tail := cs[1..];
    var v := Visible(cs);
    if Visible(tail) != [] {
      VisibleLast(tail);
      var i :| 0 <= i < |tail| && tail[i] == Visible(tail)[|Visible(tail)| - 1]
               && !tail[i].internal && forall j :: i < j < |tail| ==> tail[j].internal;
      assert v[|v| - 1] == Visible(tail)[|Visible(tail)| - 1];
      assert cs[i + 1] == tail[i];
      forall j | i + 1 < j < |cs| ensures cs[j].internal {
        assert cs[j] == tail[j - 1];
      }
    } else {
      VisibleEmpty(tail);
      assert !cs[0].internal && v == [cs[0]];
      forall j | 0 < j < |cs| ensures cs[j].internal {
        assert cs[j] == tail[j - 1];
      }
    }
  }

  lemma ChildCountZero(n: Node)
    ensures ChildCount(n) == 0 <==> forall i :: 0 <= i < |n.children| ==> n.children[i].internal
  {
    VisibleEmpty(n.children);
  }

  /** Number of nodes of a forest, counted independently of any listing. */
  function ForestSize(cs: seq<Node>): nat {
    if cs == [] then 0 else 1 + ForestSize(cs[0].children) + ForestSize(cs[1..])
  }

  function Size(n: Node): nat {
    1 + ForestSize(n.children)
  }

  /** `m` lies strictly below `n`. */
  predicate IsDescendant(m: Node, n: Node)
    decreases n
  {
    exists i :: 0 <= i < |n.children| && (m == n.children[i] || IsDescendant(m, n.children[i]))
  }

  /** `m` is reached by the walk of `GetAllChildren` from `n`: a child of `n`, or reached
      from a child whose `GetChildCount()` is positive. */
  predicate Reached(m: Node, n: Node)
    decreases n
  {
    exists i :: 0 <= i < |n.children|
      && (m == n.children[i] || (ChildCount(n.children[i]) > 0 && Reached(m, n.children[i])))
  }

  /** No node of the tree has children that are all internal. */
  predicate NoHiddenOnlyParent(n: Node)
    decreases n
  {
    (|n.children| == 0 || ChildCount(n) > 0)
    && forall i :: 0 <= i < |n.children| ==> NoHiddenOnlyParent(n.children[i])
  }

  // ---------------------------------------------------------------------
  // Descendant listings

  /** Pre-order listing of a forest: each node, then (when its `GetChildCount()` is
      positive) everything below it, then its next sibling. */
  function AllOf(cs: seq<Node>): (r: seq<Node>)
    ensures |r| <= ForestSize(cs)
  {
    if cs == [] then []
    else [cs[0]] + (if ChildCount(cs[0]) > 0 then AllOf(cs[0].children) else []) + AllOf(cs[1..])
  }

  /** The listing of `GetAllChildren<T>`: only children of class `T` are listed and
      descended into. */
  function AllOfClass(cs: seq<Node>, t: string): (r: seq<Node>)
    ensures forall i :: 0 <= i < |r| ==> IsOfClass(r[i], t)
  {
    if cs == [] then []
    else (if IsOfClass(cs[0], t)
          then [cs[0]] + (if ChildCount(cs[0]) > 0 then AllOfClass(cs[0].children, t) else [])
          else [])
         + AllOfClass(cs[1..], t)
  }

  /** The listing of `GetNodesByClass<T>` over a forest: a child of class `T` is taken
      without looking inside it, any other child is searched, and the search of a child
      whose `GetChildCount()` is zero is empty. */
  function NodesByClass(cs: seq<Node>, t: string): (r: seq<Node>)
    ensures forall i :: 0 <= i < |r| ==> IsOfClass(r[i], t)
  {
    if cs == [] then []
    else (if IsOfClass(cs[0], t) then [cs[0]]
          else if ChildCount(cs[0]) == 0 then []
          else NodesByClass(cs[0].children, t))
         + NodesByClass(cs[1..], t)
  }

  /** The listing of `GetNodesByType<T>`: the same search with the exact type test. */
  function NodesByType(cs: seq<Node>, t: string): (r: seq<Node>)
    ensures forall i :: 0 <= i < |r| ==> IsOfType(r[i], t)
  {
    if cs == [] then []
    else (if IsOfType(cs[0], t) then [cs[0]]
          else if ChildCount(cs[0]) == 0 then []
          else NodesByType(cs[0].children, t))
         + NodesByType(cs[1..], t)
  }

  lemma {:induction false} AllOfConcat(a: seq<Node>, b: seq<Node>)
    ensures AllOf(a + b) == AllOf(a) + AllOf(b)
  {
    if a != [] {
      assert (a + b)[0] == a[0];
      assert (a + b)[1..] == a[1..] + b;
      AllOfConcat(a[1..], b);
    } else {
      assert a + b == b;
    }
  }

  /** What one child contributes to the class-filtered listing. */
  function ClassEntry(c: Node, t: string): seq<Node> {
    if IsOfClass(c, t) then [c] + (if ChildCount(c) > 0 then AllOfClass(c.children, t) else []) else []
  }

  lemma AllOfClassCons(cs: seq<Node>, t: string)
    requires cs != []
    ensures AllOfClass(cs, t) == ClassEntry(cs[0], t) + AllOfClass(cs[1..], t)
  {
  }

  lemma {:induction false} AllOfClassConcat(a: seq<Node>, b: seq<Node>, t: string)
    ensures AllOfClass(a + b, t) == AllOfClass(a, t) + AllOfClass(b, t)
  {
    if a != [] {
      assert (a + b)[0] == a[0];
      assert (a + b)[1..] == a[1..] + b;
      AllOfClassCons(a, t);
      AllOfClassCons(a + b, t);
      AllOfClassConcat(a[1..], b, t);
    } else {
      assert a + b == b;
    }
  }

  /** What one child contributes to the class search. */
  function ClassSearchEntry(c: Node, t: string): seq<Node> {
    if IsOfClass(c, t) then [c] else if ChildCount(c) == 0 then [] else NodesByClass(c.children, t)
  }

  lemma NodesByClassCons(cs: seq<Node>, t: string)
    requires cs != []
    ensures NodesByClass(cs, t) == ClassSearchEntry(cs[0], t) + NodesByClass(cs[1..], t)
  {
  }

  lemma {:induction false} NodesByClassConcat(a: seq<Node>, b: seq<Node>, t: string)
    ensures NodesByClass(a + b, t) == NodesByClass(a, t) + NodesByClass(b, t)
  {
    if a != [] {
      assert (a + b)[0] == a[0];
      assert (a + b)[1..] == a[1..] + b;
      NodesByClassCons(a, t);
      NodesByClassCons(a + b, t);
      NodesByClassConcat(a[1..], b, t);
    } else {
      assert a + b == b;
    }
  }

  /** What one child contributes to the type search. */
  function TypeSearchEntry(c: Node, t: string): seq<Node> {
    if IsOfType(c, t) then [c] else if ChildCount(c) == 0 then [] else NodesByType(c.children, t)
  }

  lemma NodesByTypeCons(cs: seq<Node>, t: string)
    requires cs != []
    ensures NodesByType(cs, t) == TypeSearchEntry(cs[0], t) + NodesByType(cs[1..], t)
  {
  }

  lemma {:induction false} NodesByTypeConcat(a: seq<Node>, b: seq<Node>, t: string)
    ensures NodesByType(a + b, t) == NodesByType(a, t) + NodesByType(b, t)
  {
    if a != [] {
      assert (a + b)[0] == a[0];
      assert (a + b)[1..] == a[1..] + b;
      NodesByTypeCons(a, t);
      NodesByTypeCons(a + b, t);
      NodesByTypeConcat(a[1..], b, t);
    } else {
      assert a + b == b;
    }
  }

  /** One more child extends the listing by the child and, when it has a non-internal
      child, its own listing. */
  lemma AllOfSnoc(cs: seq<Node>, i: nat)
    requires i < |cs|
    ensures AllOf(cs[..i + 1])
            == AllOf(cs[..i]) + [cs[i]] + (if ChildCount(cs[i]) > 0 then AllOf(cs[i].children) else [])
  {
    var c := cs[i];
    assert cs[..i + 1] == cs[..i] + [c];
    AllOfConcat(cs[..i], [c]);
    assert [c][1..] == [];
    assert AllOf([c]) == [c] + (if ChildCount(c) > 0 then AllOf(c.children) else []);
  }

  lemma AllOfClassSnoc(cs: seq<Node>, i: nat, t: string)
    requires i < |cs|
    ensures AllOfClass(cs[..i + 1], t)
            == AllOfClass(cs[..i], t)
               + (if IsOfClass(cs[i], t)
                  then [cs[i]] + (if ChildCount(cs[i]) > 0 then AllOfClass(cs[i].children, t) else [])
                  else [])
  {
    assert cs[..i + 1] == cs[..i] + [cs[i]];
    AllOfClassConcat(cs[..i], [cs[i]], t);
    assert [cs[i]][1..] == [];
  }

  /** `GetAllChildren`: each child, then (when its `GetChildCount()` is positive) all of
      its descendants. */
  method GetAllChildren(node: Node) returns (childrens: seq<Node>)
    ensures childrens == AllOf(node.children)
    decreases node
  {
    childrens := [];
    var cs := node.children;
    for i := 0 to |cs|
      invariant childrens == AllOf(cs[..i])
    {
      var child := cs[i];
      childrens := childrens + [child];
      if ChildCount(child) > 0 {
        var nested := GetAllChildren(child);
        childrens := childrens + nested;
      }
      AllOfSnoc(cs, i);
    }
    assert cs[..|cs|] == cs;
  }

  /** `GetAllChildren<T>`: `OfType<T>()` keeps only the children of class `T`. */
  method GetAllChildrenOfClass(node: Node, t: string) returns (childrens: seq<Node>)
    ensures childrens == AllOfClass(node.children, t)
    decreases node
  {
    childrens := [];
    var cs := node.children;
    for i := 0 to |cs|
      invariant childrens == AllOfClass(cs[..i], t)
    {
      var child := cs[i];
      if IsOfClass(child, t) {
        childrens := childrens + [child];
        if ChildCount(child) > 0 {
          var nested := GetAllChildrenOfClass(child, t);
          childrens := childrens + nested;
        }
      }
      AllOfClassSnoc(cs, i, t);
    }
    assert cs[..|cs|] == cs;
  }

  /** `GetNodesByClass<T>`: nothing when `GetChildCount()` is zero, even if there are
      internal children, and otherwise the search of all children. */
  method GetNodesByClass(node: Node, t: string) returns (result: seq<Node>)
    ensures ChildCount(node) == 0 ==> result == []
    ensures ChildCount(node) > 0 ==> result == NodesByClass(node.children, t)
    decreases node
  {
    if ChildCount(node) == 0 {
      return [];
    }
    result := [];
    var cs := node.children;
    for i := 0 to |cs|
      invariant result == NodesByClass(cs[..i], t)
    {
      var child := cs[i];
      if IsOfClass(child, t) {
        result := result + [child];
      } else {
        var nested := GetNodesByClass(child, t);
        result := result + nested;
      }
      NodesByClassSnoc(cs, i, t);
    }
    assert cs[..|cs|] == cs;
  }

  method GetNodesByType(node: Node, t: string) returns (result: seq<Node>)
    ensures ChildCount(node) == 0 ==> result == []
    ensures ChildCount(node) > 0 ==> result == NodesByType(node.children, t)
    decreases node
  {
    if ChildCount(node) == 0 {
      return [];
    }
    result := [];
    var cs := node.children;
    for i := 0 to |cs|
      invariant result == NodesByType(cs[..i], t)
    {
      var child := cs[i];
      if IsOfType(child, t) {
        result := result + [child];
      } else {
        var nested := GetNodesByType(child, t);
        result := result + nested;
      }
      NodesByTypeSnoc(cs, i, t);
    }
    assert cs[..|cs|] == cs;
  }

  // ---------------------------------------------------------------------
  // Properties of the listings

  /** Everything `GetAllChildren` lists is reached by its walk and lies strictly below
      the node (so the node itself is absent), everything the walk reaches is listed,
      and there are at most as many entries as nodes below. */
  lemma {:induction false} AllChildrenAreDescendants(n: Node)
    ensures |AllOf(n.children)| <= Size(n) - 1
    ensures forall m :: m in AllOf(n.children) <==> Reached(m, n)
    ensures forall m :: m in AllOf(n.children) ==> IsDescendant(m, n) && Size(m) < Size(n)
    ensures n !in AllOf(n.children)
    decreases n, 1
  {
    ForestMembers(n.children);
    forall m ensures m in AllOf(n.children) <==> Reached(m, n) {
      if m in AllOf(n.children) {
        var i :| 0 <= i < |n.children|
                 && (m == n.children[i] || (ChildCount(n.children[i]) > 0 && m in AllOf(n.children[i].children)));
        if m != n.children[i] {
          AllChildrenAreDescendants(n.children[i]);
        }
      }
      if Reached(m, n) {
        var i :| 0 <= i < |n.children|
                 && (m == n.children[i] || (ChildCount(n.children[i]) > 0 && Reached(m, n.children[i])));
        if m != n.children[i] {
          AllChildrenAreDescendants(n.children[i]);
        }
      }
    }
    forall m | m in AllOf(n.children) ensures IsDescendant(m, n) && Size(m) < Size(n) {
      var i :| 0 <= i < |n.children|
               && (m == n.children[i] || (ChildCount(n.children[i]) > 0 && m in AllOf(n.children[i].children)));
      if m != n.children[i] {
        AllChildrenAreDescendants(n.children[i]);
      }
      ForestSizeBound(n.children, m);
    }
  }

  /** A node is in a forest's listing iff it is one of the roots or in the listing of a
      root whose `GetChildCount()` is positive. */
  lemma {:induction false} ForestMembers(cs: seq<Node>)
    ensures forall m :: m in AllOf(cs) <==>
              exists i :: 0 <= i < |cs| && (m == cs[i] || (ChildCount(cs[i]) > 0 && m in AllOf(cs[i].children)))
  {
    forall m ensures m in AllOf(cs) <==>
                     exists i :: 0 <= i < |cs| && (m == cs[i] || (ChildCount(cs[i]) > 0 && m in AllOf(cs[i].children)))
    {
      ForestMember(cs, m);
    }
  }

  lemma {:induction false} ForestMember(cs: seq<Node>, m: Node)
    ensures m in AllOf(cs) <==>
              exists i :: 0 <= i < |cs| && (m == cs[i] || (ChildCount(cs[i]) > 0 && m in AllOf(cs[i].children)))
  {
    if cs != [] {
      var tail := cs[1..];
      var below := if ChildCount(cs[0]) > 0 then AllOf(cs[0].children) else [];
      assert AllOf(cs) == [cs[0]] + below + AllOf(tail);
      ForestMember(tail, m);
      if m in AllOf(tail) {
        var j :| 0 <= j < |tail| && (m == tail[j] || (ChildCount(tail[j]) > 0 && m in AllOf(tail[j].children)));
        assert cs[j + 1] == tail[j];
      }
      if exists i :: 0 <= i < |cs| && (m == cs[i] || (ChildCount(cs[i]) > 0 && m in AllOf(cs[i].children))) {
        var i :| 0 <= i < |cs| && (m == cs[i] || (ChildCount(cs[i]) > 0 && m in AllOf(cs[i].children)));
        if i > 0 {
          assert tail[i - 1] == cs[i];
        }
      }
    }
  }

  lemma {:induction false} ForestSizeBound(cs: seq<Node>, m: Node)
    requires m in AllOf(cs)
    ensures Size(m) <= ForestSize(cs)
  {
    if m == cs[0] {
    } else if ChildCount(cs[0]) > 0 && m in AllOf(cs[0].children) {
      ForestSizeBound(cs[0].children, m);
    } else {
      ForestSizeBound(cs[1..], m);
    }
  }

  /** A child whose children are all internal is listed, but nothing below it is. */
  lemma HiddenOnlyChildIsNotEntered(c: Node)
    requires |c.children| > 0 && forall i :: 0 <= i < |c.children| ==> c.children[i].internal
    ensures AllOf([c]) == [c] && c.children[0] !in AllOf([c])
  {
    ChildCountZero(c);
    assert [c][1..] == [];
  }

  /** When no node has only internal children, the listing holds every descendant, with
      one entry per node. */
  lemma {:induction false} ListingIsCompleteWithoutHiddenOnlyParents(n: Node)
    requires NoHiddenOnlyParent(n)
    ensures |AllOf(n.children)| == Size(n) - 1
    ensures forall m :: IsDescendant(m, n) ==> m in AllOf(n.children)
    decreases n, 1
  {
    FullForestSize(n.children);
    ForestMembers(n.children);
    forall m | IsDescendant(m, n) ensures m in AllOf(n.children) {
      var i :| 0 <= i < |n.children| && (m == n.children[i] || IsDescendant(m, n.children[i]));
      if m != n.children[i] {
        ListingIsCompleteWithoutHiddenOnlyParents(n.children[i]);
      }
    }
  }

  lemma {:induction false} FullForestSize(cs: seq<Node>)
    requires forall i :: 0 <= i < |cs| ==> NoHiddenOnlyParent(cs[i])
    ensures |AllOf(cs)| == ForestSize(cs)
  {
    if cs != [] {
      if ChildCount(cs[0]) > 0 {
        FullForestSize(cs[0].children);
      }
      assert forall i :: 0 <= i < |cs[1..]| ==> cs[1..][i] == cs[i + 1];
      FullForestSize(cs[1..]);
    }
  }

  /** `GetAllChildren<T>` never shows anything from under a child that is not a `T`:
      dropping that child changes nothing. */
  lemma ClassListingSkipsOtherChildren(cs: seq<Node>, i: nat, t: string)
    requires i < |cs| && !IsOfClass(cs[i], t)
    ensures AllOfClass(cs[..i] + cs[i + 1..], t) == AllOfClass(cs, t)
  {
    assert cs == cs[..i] + [cs[i]] + cs[i + 1..];
    AllOfClassConcat(cs[..i] + [cs[i]], cs[i + 1..], t);
    AllOfClassConcat(cs[..i], [cs[i]], t);
    AllOfClassConcat(cs[..i], cs[i + 1..], t);
  }

  /** When every listed node is a `T`, `GetAllChildren<T>` and `GetAllChildren` agree. */
  lemma {:induction false} ClassListingOfUniformForest(cs: seq<Node>, t: string)
    requires forall m :: m in AllOf(cs) ==> IsOfClass(m, t)
    ensures AllOfClass(cs, t) == AllOf(cs)
  {
    if cs != [] {
      assert cs[0] in AllOf(cs);
      if ChildCount(cs[0]) > 0 {
        assert forall m :: m in AllOf(cs[0].children) ==> m in AllOf(cs);
        ClassListingOfUniformForest(cs[0].children, t);
      }
      assert forall m :: m in AllOf(cs[1..]) ==> m in AllOf(cs);
      ClassListingOfUniformForest(cs[1..], t);
    }
  }

  /** Each child contributes to `GetNodesByClass<T>` on its own, in child order: a
      matching child contributes itself and nothing from inside it, any other child
      the search of its own children, which is empty when its `GetChildCount()` is zero. */
  lemma NodesByClassPerChild(cs: seq<Node>, i: nat, t: string)
    requires i < |cs|
    ensures NodesByClass(cs, t)
            == NodesByClass(cs[..i], t)
               + (if IsOfClass(cs[i], t) then [cs[i]]
                  else if ChildCount(cs[i]) == 0 then []
                  else NodesByClass(cs[i].children, t))
               + NodesByClass(cs[i + 1..], t)
  {
    var rest := cs[i + 1..];
    assert cs == cs[..i] + ([cs[i]] + rest);
    NodesByClassConcat(cs[..i], [cs[i]] + rest, t);
    NodesByClassConcat([cs[i]], rest, t);
    NodesByClassSingle(cs[i], t);
  }

  lemma NodesByClassSnoc(cs: seq<Node>, i: nat, t: string)
    requires i < |cs|
    ensures NodesByClass(cs[..i + 1], t)
            == NodesByClass(cs[..i], t)
               + (if IsOfClass(cs[i], t) then [cs[i]]
                  else if ChildCount(cs[i]) == 0 then []
                  else NodesByClass(cs[i].children, t))
  {
    assert cs[..i + 1] == cs[..i] + [cs[i]];
    NodesByClassConcat(cs[..i], [cs[i]], t);
    NodesByClassSingle(cs[i], t);
  }

  lemma NodesByClassSingle(c: Node, t: string)
    ensures NodesByClass([c], t)
            == if IsOfClass(c, t) then [c] else if ChildCount(c) == 0 then [] else NodesByClass(c.children, t)
  {
    assert [c][1..] == [];
  }

  /** The same for `GetNodesByType<T>` with the exact test, so a child whose class derives
      from `T` without being `T` is searched rather than taken. */
  lemma NodesByTypePerChild(cs: seq<Node>, i: nat, t: string)
    requires i < |cs|
    ensures NodesByType(cs, t)
            == NodesByType(cs[..i], t)
               + (if IsOfType(cs[i], t) then [cs[i]]
                  else if ChildCount(cs[i]) == 0 then []
                  else NodesByType(cs[i].children, t))
               + NodesByType(cs[i + 1..], t)
  {
    var rest := cs[i + 1..];
    assert cs == cs[..i] + ([cs[i]] + rest);
    NodesByTypeConcat(cs[..i], [cs[i]] + rest, t);
    NodesByTypeConcat([cs[i]], rest, t);
    NodesByTypeSingle(cs[i], t);
  }

  lemma NodesByTypeSnoc(cs: seq<Node>, i: nat, t: string)
    requires i < |cs|
    ensures NodesByType(cs[..i + 1], t)
            == NodesByType(cs[..i], t)
               + (if IsOfType(cs[i], t) then [cs[i]]
                  else if ChildCount(cs[i]) == 0 then []
                  else NodesByType(cs[i].children, t))
  {
    assert cs[..i + 1] == cs[..i] + [cs[i]];
    NodesByTypeConcat(cs[..i], [cs[i]], t);
    NodesByTypeSingle(cs[i], t);
  }

  lemma NodesByTypeSingle(c: Node, t: string)
    ensures NodesByType([c], t)
            == if IsOfType(c, t) then [c] else if ChildCount(c) == 0 then [] else NodesByType(c.children, t)
  {
    assert [c][1..] == [];
  }

  /** Without subclasses of `T` among the listed nodes both searches return the same nodes. */
  lemma {:induction false} ClassAndTypeSearchesAgree(cs: seq<Node>, t: string)
    requires forall m :: m in AllOf(cs) && IsOfClass(m, t) ==> IsOfType(m, t)
    ensures NodesByClass(cs, t) == NodesByType(cs, t)
  {
    if cs != [] {
      assert cs[0] in AllOf(cs);
      if ChildCount(cs[0]) > 0 {
        assert forall m :: m in AllOf(cs[0].children) ==> m in AllOf(cs);
        ClassAndTypeSearchesAgree(cs[0].children, t);
      }
      assert forall m :: m in AllOf(cs[1..]) ==> m in AllOf(cs);
      ClassAndTypeSearchesAgree(cs[1..], t);
    }
  }

  /** Everything the class search returns is listed by `GetAllChildren`. */
  lemma {:induction false} NodesByClassAreListed(cs: seq<Node>, t: string)
    ensures forall m :: m in NodesByClass(cs, t) ==> m in AllOf(cs)
  {
    if cs != [] {
      NodesByClassAreListed(cs[0].children, t);
      NodesByClassAreListed(cs[1..], t);
    }
  }

  // ---------------------------------------------------------------------
  // Immediate children

  /** `FirstNodeOfType` / `FirstNodeOfClass`: nothing when `GetChildCount()` is zero, and
      otherwise the first child, internal ones included, passing `test`. */
  method FirstChildWhere(node: Node, test: Node -> bool) returns (r: Option<Node>)
    ensures r.None? <==> (forall i :: 0 <= i < |node.children| ==> node.children[i].internal)
                         || (forall i :: 0 <= i < |node.children| ==> !test(node.children[i]))
    ensures r.Some? ==> exists i :: 0 <= i < |node.children| && node.children[i] == r.value
                          && test(r.value) && forall j :: 0 <= j < i ==> !test(node.children[j])
  {
    ChildCountZero(node);
    if ChildCount(node) == 0 {
      return None;
    }
    for i := 0 to |node.children|
      invariant forall j :: 0 <= j < i ==> !test(node.children[j])
    {
      if test(node.children[i]) {
        return Some(node.children[i]);
      }
    }
    return None;
  }

  method FirstNodeOfType(node: Node, t: string) returns (r: Option<Node>)
    ensures r.None? <==> (forall i :: 0 <= i < |node.children| ==> node.children[i].internal)
                         || (forall i :: 0 <= i < |node.children| ==> !IsOfType(node.children[i], t))
    ensures r.Some? ==> exists i :: 0 <= i < |node.children| && node.children[i] == r.value
                          && IsOfType(r.value, t) && forall j :: 0 <= j < i ==> !IsOfType(node.children[j], t)
  {
    r := FirstChildWhere(node, c => IsOfType(c, t));
  }

  method FirstNodeOfClass(node: Node, t: string) returns (r: Option<Node>)
    ensures r.None? <==> (forall i :: 0 <= i < |node.children| ==> node.children[i].internal)
                         || (forall i :: 0 <= i < |node.children| ==> !IsOfClass(node.children[i], t))
    ensures r.Some? ==> exists i :: 0 <= i < |node.children| && node.children[i] == r.value
                          && IsOfClass(r.value, t) && forall j :: 0 <= j < i ==> !IsOfClass(node.children[j], t)
  {
    r := FirstChildWhere(node, c => IsOfClass(c, t));
  }

  /** `GetLastChild`: `GetChild(GetChildCount() - 1)`, the last non-internal child. */
  function GetLastChild(node: Node): (r: Option<Node>)
    ensures r.None? <==> forall i :: 0 <= i < |node.children| ==> node.children[i].internal
    ensures r.Some? ==> exists i :: 0 <= i < |node.children| && node.children[i] == r.value
                          && !r.value.internal && forall j :: i < j < |node.children| ==> node.children[j].internal
  {
    ChildCountZero(node);
    var count := ChildCount(node);
    if count == 0 then None
    else
      VisibleLast(node.children);
      Some(Visible(node.children)[count - 1])
  }


  // ---------------------------------------------------------------------
  // Positions, ancestors and depth

  predicate ValidPath(root: Node, path: seq<nat>)
    decreases path
  {
    path == [] || (path[0] < |root.children| && ValidPath(root.children[path[0]], path[1..]))
  }

  /** The node reached from `root` by following `path`. */
  function At(root: Node, path: seq<nat>): Node
    requires ValidPath(root, path)
    decreases path
  {
    if path == [] then root else At(root.children[path[0]], path[1..])
  }

  /** Every prefix of a path leads somewhere, and one more index steps to a child. */
  lemma {:induction false} PrefixStep(root: Node, path: seq<nat>, k: nat)
    requires ValidPath(root, path) && k < |path|
    ensures ValidPath(root, path[..k]) && ValidPath(root, path[..k + 1])
    ensures path[k] < |At(root, path[..k]).children|
    ensures At(root, path[..k + 1]) == At(root, path[..k]).children[path[k]]
    decreases path
  {
    if k > 0 {
      PrefixStep(root.children[path[0]], path[1..], k - 1);
      assert path[..k][1..] == path[1..][..k - 1];
      assert path[..k + 1][1..] == path[1..][..k];
    } else {
      assert path[..1][1..] == [];
    }
  }

  lemma PrefixValid(root: Node, path: seq<nat>, k: nat)
    requires ValidPath(root, path) && k <= |path|
    ensures ValidPath(root, path[..k])
  {
    if k < |path| {
      PrefixStep(root, path, k);
    } else {
      assert path[..k] == path;
    }
  }

  /** The node on the path at depth `d` (`d == 0` is the root). */
  function AtDepth(root: Node, path: seq<nat>, d: nat): Node
    requires ValidPath(root, path) && d <= |path|
  {
    PrefixValid(root, path, d);
    At(root, path[..d])
  }

  /** The ancestors of the node at `path`, nearest parent first, the root last. */
  function AncestorChain(root: Node, path: seq<nat>): (r: seq<Node>)
    requires ValidPath(root, path)
    ensures |r| == |path|
  {
    seq(|path|, i requires 0 <= i < |path| => AtDepth(root, path, |path| - 1 - i))
  }

  /** Each listed ancestor is the parent of the one before it, the first is the node's
      own parent and the last is the root. */
  lemma AncestorChainIsParentChain(root: Node, path: seq<nat>)
    requires ValidPath(root, path) && |path| > 0
    ensures var chain := AncestorChain(root, path);
      At(root, path) in chain[0].children && chain[|chain| - 1] == root
      && forall i :: 0 <= i < |chain| - 1 ==> chain[i] in chain[i + 1].children
  {
    var chain := AncestorChain(root, path);
    var n := |path|;
    PrefixStep(root, path, n - 1);
    assert path[..n] == path;
    assert path[..0] == [];
    assert chain[0] == AtDepth(root, path, n - 1) == At(root, path[..n - 1]);
    assert At(root, path) == chain[0].children[path[n - 1]];
    assert chain[n - 1] == AtDepth(root, path, 0) == At(root, path[..0]);
    forall i | 0 <= i < n - 1 ensures chain[i] in chain[i + 1].children {
      PrefixStep(root, path, n - 2 - i);
      assert chain[i] == AtDepth(root, path, n - 1 - i) == At(root, path[..n - 1 - i]);
      assert chain[i + 1] == AtDepth(root, path, n - 2 - i) == At(root, path[..n - 2 - i]);
      assert chain[i] == chain[i + 1].children[path[n - 2 - i]];
    }
  }

  /** `GetAllAncestors`: walks `GetParentOrNull` until there is no parent. */
  method GetAllAncestors(root: Node, path: seq<nat>) returns (ancestors: seq<Node>)
    requires ValidPath(root, path)
    ensures ancestors == AncestorChain(root, path)
  {
    if |path| == 0 {
      return [];
    }
    ancestors := [];
    var depth := |path|;
    while depth > 0
      invariant 0 <= depth <= |path|
      invariant ancestors == AncestorChain(root, path)[..|path| - depth]
    {
      depth := depth - 1;
      ancestors := ancestors + [AtDepth(root, path, depth)];
    }
  }

  /** `GetAllAncestors<T>`: `GetParentOrNull<T>` gives null at the first parent that is
      not a `T`, which ends the chain. */
  method GetAllAncestorsOfClass(root: Node, path: seq<nat>, t: string) returns (ancestors: seq<Node>)
    requires ValidPath(root, path)
    ensures var chain := AncestorChain(root, path);
      |ancestors| <= |chain| && ancestors == chain[..|ancestors|]
      && (forall i :: 0 <= i < |ancestors| ==> IsOfClass(ancestors[i], t))
      && (|ancestors| == |chain| || !IsOfClass(chain[|ancestors|], t))
  {
    ghost var chain := AncestorChain(root, path);
    ancestors := [];
    var depth := |path|;
    while depth > 0
      invariant 0 <= depth <= |path|
      invariant ancestors == chain[..|path| - depth]
      invariant forall i :: 0 <= i < |ancestors| ==> IsOfClass(ancestors[i], t)
    {
      var parent := AtDepth(root, path, depth - 1);
      if !IsOfClass(parent, t) {
        return;
      }
      ancestors := ancestors + [parent];
      depth := depth - 1;
    }
  }

  /** `GetTreeDepth`: the number of parents above the node. */
  method GetTreeDepth(root: Node, path: seq<nat>) returns (depth: int)
    requires ValidPath(root, path)
    ensures depth == |path| == |AncestorChain(root, path)|
  {
    depth := 0;
    var remaining := |path|;
    while remaining > 0
      invariant 0 <= remaining <= |path|
      invariant depth == |path| - remaining
    {
      depth := depth + 1;
      remaining := remaining - 1;
    }
  }
}
