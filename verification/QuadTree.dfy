/** The quadtree in its pool of nodes (engine/src/QuadTree.cpp), updated in place. */
module QuadTreeObject {
  import opened Geometry
  import opened QuadTreeSpec

  /** A node of the pool. Its four children are the nodes first, ..., first + 3; 0 stands for the null
      pointers of a leaf, since the root is nobody's child. */
  datatype Node = Node(entries: seq<Entry>, bounds: Rect, first: nat, depth: nat)

  // ----- the tree in the pool -----

  /** Below `n`, node `i` is the root of a tree: children lie behind their parent, and the subtrees of
      siblings have no node in common. */
  ghost predicate IsTree(ns: seq<Node>, n: nat, i: nat, maxDepth: nat)
    decreases n - i
  {
    && i < n <= |ns|
    && ns[i].depth <= maxDepth
    && (ns[i].first != 0 ==>
          var f := ns[i].first;
          && ns[i].entries == [] && ns[i].depth < maxDepth && i < f && f + 4 <= n
          && (forall c :: f <= c < f + 4 ==>
                ns[c].depth == ns[i].depth + 1 && ns[c].bounds == Quarter(ns[i].bounds, c - f) && IsTree(ns, n, c, maxDepth))
          && (forall c, d :: f <= c < f + 4 && f <= d < f + 4 && c != d ==> Nodes(ns, n, c) !! Nodes(ns, n, d)))
  }

  /** Four trees that could be the children of a node with these bounds and this depth. */
  ghost predicate AreSiblings(ns: seq<Node>, n: nat, f: nat, bounds: Rect, depth: nat, maxDepth: nat) {
    && f + 4 <= n <= |ns|
    && (forall c :: f <= c < f + 4 ==>
          ns[c].depth == depth + 1 && ns[c].bounds == Quarter(bounds, c - f) && IsTree(ns, n, c, maxDepth))
    && (forall c, d :: f <= c < f + 4 && f <= d < f + 4 && c != d ==> Nodes(ns, n, c) !! Nodes(ns, n, d))
  }

  /** The indices of the nodes of a tree. */
  ghost function Nodes(ns: seq<Node>, n: nat, i: nat): (r: set<nat>)
    ensures forall j :: j in r ==> i <= j < n
    decreases n - i
  {
    if !(i < n <= |ns|) then {}
    else if i < ns[i].first && ns[i].first + 4 <= n then
      {i} + set c: nat, j | ns[i].first <= c < ns[i].first + 4 && j in Nodes(ns, n, c) :: j
    else {i}
  }

  ghost function TreeAt(ns: seq<Node>, n: nat, i: nat, maxDepth: nat): (t: Tree)
    requires IsTree(ns, n, i, maxDepth)
    ensures WellFormed(t, maxDepth) && t.depth == ns[i].depth && t.bounds == ns[i].bounds
    decreases n - i
  {
    hide Nodes, Quarter;
    var node := ns[i];
    if node.first == 0 then Leaf(node.entries, node.bounds, node.depth)
    else
      var f := node.first;
      var children := [TreeAt(ns, n, f, maxDepth), TreeAt(ns, n, f + 1, maxDepth),
                       TreeAt(ns, n, f + 2, maxDepth), TreeAt(ns, n, f + 3, maxDepth)];
      Inner(node.bounds, node.depth, children)
  }

  /** Unused nodes are as `SetUpRoot` left them; their bounds and depths may be stale. */
  ghost predicate Blank(ns: seq<Node>, n: nat) {
    forall j :: n <= j < |ns| ==> ns[j].entries == [] && ns[j].first == 0
  }

  /** A tree is not affected by changes outside it. */
  lemma {:induction false} NodesFrame(ns: seq<Node>, n: nat, ns': seq<Node>, n': nat, i: nat, maxDepth: nat)
    requires IsTree(ns, n, i, maxDepth) && n <= n' <= |ns'|
    requires forall j :: j in Nodes(ns, n, i) ==> ns'[j] == ns[j]
    ensures Nodes(ns', n', i) == Nodes(ns, n, i)
    decreases n - i
  {
    var f := ns[i].first;
    assert i in Nodes(ns, n, i);
    if f != 0 {
      forall c | f <= c < f + 4 ensures Nodes(ns', n', c) == Nodes(ns, n, c) {
        assert Nodes(ns, n, c) <= Nodes(ns, n, i);
        NodesFrame(ns, n, ns', n', c, maxDepth);
      }
    }
  }

  lemma {:induction false} IsTreeFrame(ns: seq<Node>, n: nat, ns': seq<Node>, n': nat, i: nat, maxDepth: nat)
    requires IsTree(ns, n, i, maxDepth) && n <= n' <= |ns'|
    requires forall j :: j in Nodes(ns, n, i) ==> ns'[j] == ns[j]
    ensures IsTree(ns', n', i, maxDepth)
    decreases n - i
  {
    var f := ns[i].first;
    assert i in Nodes(ns, n, i);
    if f != 0 {
      forall c | f <= c < f + 4
        ensures Nodes(ns', n', c) == Nodes(ns, n, c) && ns'[c] == ns[c] && IsTree(ns', n', c, maxDepth)
      {
        assert c in Nodes(ns, n, c) && Nodes(ns, n, c) <= Nodes(ns, n, i);
        NodesFrame(ns, n, ns', n', c, maxDepth);
        IsTreeFrame(ns, n, ns', n', c, maxDepth);
      }
    }
  }

  lemma {:induction false} TreeFrame(ns: seq<Node>, n: nat, ns': seq<Node>, n': nat, i: nat, maxDepth: nat)
    requires IsTree(ns, n, i, maxDepth) && n <= n' <= |ns'|
    requires forall j :: j in Nodes(ns, n, i) ==> ns'[j] == ns[j]
    ensures Nodes(ns', n', i) == Nodes(ns, n, i)
    ensures IsTree(ns', n', i, maxDepth) && TreeAt(ns', n', i, maxDepth) == TreeAt(ns, n, i, maxDepth)
    decreases n - i
  {
    NodesFrame(ns, n, ns', n', i, maxDepth);
    IsTreeFrame(ns, n, ns', n', i, maxDepth);
    assert i in Nodes(ns, n, i);
    if ns[i].first != 0 {
      forall c | ns[i].first <= c < ns[i].first + 4
        ensures TreeAt(ns', n', c, maxDepth) == TreeAt(ns, n, c, maxDepth)
      {
        assert Nodes(ns, n, c) <= Nodes(ns, n, i);
        TreeFrame(ns, n, ns', n', c, maxDepth);
      }
      ChildrenAgree(ns, n, ns', n', i, maxDepth);
    }
  }

  lemma ChildrenAgree(ns: seq<Node>, n: nat, ns': seq<Node>, n': nat, i: nat, maxDepth: nat)
    requires IsTree(ns, n, i, maxDepth) && IsTree(ns', n', i, maxDepth) && ns'[i] == ns[i] && ns[i].first != 0
    requires forall c :: ns[i].first <= c < ns[i].first + 4 ==>
               IsTree(ns', n', c, maxDepth) && IsTree(ns, n, c, maxDepth)
               && TreeAt(ns', n', c, maxDepth) == TreeAt(ns, n, c, maxDepth)
    ensures TreeAt(ns', n', i, maxDepth) == TreeAt(ns, n, i, maxDepth)
  {
    assert TreeAt(ns', n', i, maxDepth).children == TreeAt(ns, n, i, maxDepth).children;
  }

  // ----- what an update may do -----

  /** Only nodes of `within` and fresh ones have changed. */
  ghost predicate Grown(ns: seq<Node>, n: nat, ns': seq<Node>, n': nat, within: set<nat>) {
    && n <= n' <= |ns'| && |ns'| == |ns| && Blank(ns', n')
    && forall j :: 0 <= j < n && j !in within ==> ns'[j] == ns[j]
  }

  /** Node `i` is now the root of tree `t`, made of its old nodes and fresh ones, and exactly the fresh
      nodes have been taken from the pool. */
  ghost predicate Became(ns: seq<Node>, n: nat, ns': seq<Node>, n': nat, i: nat, maxDepth: nat, t: Tree)
    requires IsTree(ns, n, i, maxDepth)
  {
    && Grown(ns, n, ns', n', Nodes(ns, n, i))
    && IsTree(ns', n', i, maxDepth) && TreeAt(ns', n', i, maxDepth) == t
    && (forall j :: j in Nodes(ns', n', i) ==> j in Nodes(ns, n, i) || n <= j < n')
    && n' - n == Count(t) - Count(TreeAt(ns, n, i, maxDepth))
  }

  lemma BecameItself(ns: seq<Node>, n: nat, i: nat, maxDepth: nat)
    requires IsTree(ns, n, i, maxDepth) && Blank(ns, n)
    ensures Became(ns, n, ns, n, i, maxDepth, TreeAt(ns, n, i, maxDepth))
  {
  }

  lemma BecameTwice(ns: seq<Node>, n: nat, ns': seq<Node>, n': nat, ns'': seq<Node>, n'': nat, i: nat, maxDepth: nat,
                    t: Tree, t': Tree)
    requires IsTree(ns, n, i, maxDepth) && Became(ns, n, ns', n', i, maxDepth, t)
    requires Became(ns', n', ns'', n'', i, maxDepth, t')
    ensures Became(ns, n, ns'', n'', i, maxDepth, t')
  {
  }

  /** Enough nodes are left for the tree at `i` to become complete. */
  ghost predicate HasRoom(ns: seq<Node>, n: nat, i: nat, maxDepth: nat)
    requires IsTree(ns, n, i, maxDepth)
  {
    n + Complete(maxDepth - ns[i].depth) <= |ns| + Count(TreeAt(ns, n, i, maxDepth))
  }

  lemma RoomAfter(ns: seq<Node>, n: nat, ns': seq<Node>, n': nat, i: nat, maxDepth: nat, t: Tree)
    requires IsTree(ns, n, i, maxDepth) && HasRoom(ns, n, i, maxDepth) && t.depth == ns[i].depth
    requires Became(ns, n, ns', n', i, maxDepth, t)
    ensures HasRoom(ns', n', i, maxDepth)
  {
  }

  // ----- the four children -----

  ghost function FourNodes(ns: seq<Node>, n: nat, f: nat): set<nat> {
    set c: nat, j | f <= c < f + 4 && j in Nodes(ns, n, c) :: j
  }

  /** The four trees from node `f` on are `ts`. */
  ghost predicate TreesAre(ns: seq<Node>, n: nat, f: nat, maxDepth: nat, ts: seq<Tree>) {
    && |ts| == 4
    && forall c :: f <= c < f + 4 ==> IsTree(ns, n, c, maxDepth) && TreeAt(ns, n, c, maxDepth) == ts[c - f]
  }

  function CountFour(ts: seq<Tree>): nat
    requires |ts| == 4
  {
    Count(ts[0]) + Count(ts[1]) + Count(ts[2]) + Count(ts[3])
  }

  /** The four trees `ts` have become `ts'`, made of their old nodes and fresh ones. */
  ghost predicate FourBecame(ns: seq<Node>, n: nat, ts: seq<Tree>, ns': seq<Node>, n': nat, ts': seq<Tree>,
                             f: nat, bounds: Rect, depth: nat, maxDepth: nat)
    requires |ts| == 4
  {
    && Grown(ns, n, ns', n', FourNodes(ns, n, f))
    && AreSiblings(ns', n', f, bounds, depth, maxDepth) && TreesAre(ns', n', f, maxDepth, ts')
    && (forall j :: j in FourNodes(ns', n', f) ==> j in FourNodes(ns, n, f) || n <= j < n')
    && n' - n == CountFour(ts') - CountFour(ts)
  }

  /** When one of the four has become another tree, the others are where they were. */
  lemma {:induction false} OthersStay(ns: seq<Node>, n: nat, ns': seq<Node>, n': nat, f: nat, bounds: Rect, depth: nat,
                                      maxDepth: nat,
                                      changed: nat, t: Tree, c: nat)
    requires AreSiblings(ns, n, f, bounds, depth, maxDepth) && f <= changed < f + 4 && f <= c < f + 4 && c != changed
    requires Became(ns, n, ns', n', changed, maxDepth, t)
    ensures IsTree(ns', n', c, maxDepth) && TreeAt(ns', n', c, maxDepth) == TreeAt(ns, n, c, maxDepth)
    ensures Nodes(ns', n', c) == Nodes(ns, n, c) && ns'[c] == ns[c]
    ensures Nodes(ns', n', c) !! Nodes(ns', n', changed)
  {
    hide WellFormed, Quarter, IsTree, TreeAt;
    assert c in Nodes(ns, n, c);
    assert Nodes(ns, n, c) !! Nodes(ns, n, changed);
    TreeFrame(ns, n, ns', n', c, maxDepth);
  }

  lemma {:induction false} StillSiblings(ns: seq<Node>, n: nat, ns': seq<Node>, n': nat, f: nat, bounds: Rect,
                                         depth: nat, maxDepth: nat,
                                         changed: nat, t: Tree)
    requires AreSiblings(ns, n, f, bounds, depth, maxDepth) && f <= changed < f + 4
    requires Became(ns, n, ns', n', changed, maxDepth, t)
    requires t.depth == depth + 1 && t.bounds == Quarter(bounds, changed - f)
    ensures AreSiblings(ns', n', f, bounds, depth, maxDepth)
  {
    forall c | f <= c < f + 4
      ensures ns'[c].depth == depth + 1 && ns'[c].bounds == Quarter(bounds, c - f) && IsTree(ns', n', c, maxDepth)
    {
      if c != changed {
        OthersStay(ns, n, ns', n', f, bounds, depth, maxDepth, changed, t, c);
      }
    }
    forall c, d | f <= c < f + 4 && f <= d < f + 4 && c != d ensures Nodes(ns', n', c) !! Nodes(ns', n', d) {
      if c != changed {
        OthersStay(ns, n, ns', n', f, bounds, depth, maxDepth, changed, t, c);
      }
      if d != changed {
        OthersStay(ns, n, ns', n', f, bounds, depth, maxDepth, changed, t, d);
      }
    }
  }

  /** So the four have become the same trees but one. */
  lemma {:induction false} OneOfFour(ns: seq<Node>, n: nat, ts: seq<Tree>, ns': seq<Node>, n': nat, f: nat,
                                     bounds: Rect, depth: nat,
                                     maxDepth: nat, changed: nat, t: Tree)
    requires AreSiblings(ns, n, f, bounds, depth, maxDepth) && TreesAre(ns, n, f, maxDepth, ts) && f <= changed < f + 4
    requires Became(ns, n, ns', n', changed, maxDepth, t)
    requires t.depth == depth + 1 && t.bounds == Quarter(bounds, changed - f)
    ensures FourBecame(ns, n, ts, ns', n', ts[changed - f := t], f, bounds, depth, maxDepth)
  {
    hide IsTree, WellFormed, Nodes, Quarter, Count;
    var ts' := ts[changed - f := t];
    StillSiblings(ns, n, ns', n', f, bounds, depth, maxDepth, changed, t);
    forall c | f <= c < f + 4
      ensures TreeAt(ns', n', c, maxDepth) == ts'[c - f]
      ensures c != changed ==> Nodes(ns', n', c) == Nodes(ns, n, c)
    {
      if c != changed {
        OthersStay(ns, n, ns', n', f, bounds, depth, maxDepth, changed, t, c);
      }
    }
    forall j | j in FourNodes(ns', n', f) ensures j in FourNodes(ns, n, f) || n <= j < n' {
      var c: nat :| f <= c < f + 4 && j in Nodes(ns', n', c);
      assert j in Nodes(ns, n, c) || n <= j < n';
    }
    assert Count(TreeAt(ns, n, changed, maxDepth)) == Count(ts[changed - f]);
  }

  lemma FourBecameTwice(ns: seq<Node>, n: nat, ts: seq<Tree>, ns': seq<Node>, n': nat, ts': seq<Tree>,
                        ns'': seq<Node>, n'': nat, ts'': seq<Tree>, f: nat, bounds: Rect, depth: nat, maxDepth: nat)
    requires |ts| == 4 && |ts'| == 4
    requires FourBecame(ns, n, ts, ns', n', ts', f, bounds, depth, maxDepth)
    requires FourBecame(ns', n', ts', ns'', n'', ts'', f, bounds, depth, maxDepth)
    ensures FourBecame(ns, n, ts, ns'', n'', ts'', f, bounds, depth, maxDepth)
  {
  }

  /** Changing a node outside the four trees leaves them alone. */
  lemma {:induction false} FourOutside(ns: seq<Node>, n: nat, ns': seq<Node>, f: nat, bounds: Rect, depth: nat,
                                       maxDepth: nat,
                                       ts: seq<Tree>, i: nat)
    requires AreSiblings(ns, n, f, bounds, depth, maxDepth) && TreesAre(ns, n, f, maxDepth, ts)
    requires |ns'| == |ns| && i < f && forall j :: 0 <= j < |ns| && j != i ==> ns'[j] == ns[j]
    ensures AreSiblings(ns', n, f, bounds, depth, maxDepth) && TreesAre(ns', n, f, maxDepth, ts)
    ensures FourNodes(ns', n, f) == FourNodes(ns, n, f)
  {
    forall c | f <= c < f + 4
      ensures IsTree(ns', n, c, maxDepth) && TreeAt(ns', n, c, maxDepth) == TreeAt(ns, n, c, maxDepth)
      ensures Nodes(ns', n, c) == Nodes(ns, n, c)
    {
      TreeFrame(ns, n, ns', n, c, maxDepth);
    }
  }

  lemma ParentNodes(ns: seq<Node>, n: nat, i: nat, f: nat)
    requires i < f && f + 4 <= n <= |ns| && ns[i].first == f
    ensures Nodes(ns, n, i) == {i} + FourNodes(ns, n, f)
  {
  }

  lemma ParentIsTree(ns: seq<Node>, n: nat, i: nat, f: nat, maxDepth: nat)
    requires i < f && f + 4 <= n <= |ns| && ns[i].first == f && ns[i].entries == [] && ns[i].depth < maxDepth
    requires AreSiblings(ns, n, f, ns[i].bounds, ns[i].depth, maxDepth)
    ensures IsTree(ns, n, i, maxDepth)
  {
    hide TreeAt, Nodes, Quarter;
  }

  lemma FourTrees(ns: seq<Node>, n: nat, f: nat, ts: seq<Tree>, maxDepth: nat)
    requires TreesAre(ns, n, f, maxDepth, ts)
    ensures IsTree(ns, n, f, maxDepth) && TreeAt(ns, n, f, maxDepth) == ts[0]
    ensures IsTree(ns, n, f + 1, maxDepth) && TreeAt(ns, n, f + 1, maxDepth) == ts[1]
    ensures IsTree(ns, n, f + 2, maxDepth) && TreeAt(ns, n, f + 2, maxDepth) == ts[2]
    ensures IsTree(ns, n, f + 3, maxDepth) && TreeAt(ns, n, f + 3, maxDepth) == ts[3]
  {
    hide IsTree, TreeAt, WellFormed;
  }

  lemma ParentTree(ns: seq<Node>, n: nat, i: nat, ts: seq<Tree>, maxDepth: nat)
    requires i < n <= |ns| && IsTree(ns, n, i, maxDepth)
    requires ns[i].first != 0 && TreesAre(ns, n, ns[i].first, maxDepth, ts)
    ensures TreeAt(ns, n, i, maxDepth) == Inner(ns[i].bounds, ns[i].depth, ts)
  {
    hide IsTree, Nodes, WellFormed;
    FourTrees(ns, n, ns[i].first, ts, maxDepth);
    assert ts == [ts[0], ts[1], ts[2], ts[3]];
  }

  /** A node over four siblings is a tree of theirs. */
  lemma {:induction false} ParentOfFour(ns: seq<Node>, n: nat, i: nat, f: nat, ts: seq<Tree>, maxDepth: nat)
    requires i < f && f + 4 <= n <= |ns| && ns[i].first == f && ns[i].entries == [] && ns[i].depth < maxDepth
    requires AreSiblings(ns, n, f, ns[i].bounds, ns[i].depth, maxDepth) && TreesAre(ns, n, f, maxDepth, ts)
    ensures IsTree(ns, n, i, maxDepth) && TreeAt(ns, n, i, maxDepth) == Inner(ns[i].bounds, ns[i].depth, ts)
    ensures Nodes(ns, n, i) == {i} + FourNodes(ns, n, f)
    ensures Count(TreeAt(ns, n, i, maxDepth)) == 1 + CountFour(ts)
  {
    hide IsTree, TreeAt, Nodes, WellFormed, Quarter, Count, AreSiblings, FourNodes;
    ParentNodes(ns, n, i, f);
    ParentIsTree(ns, n, i, f, maxDepth);
    ParentTree(ns, n, i, ts, maxDepth);
    TotalOfFour(Inner(ns[i].bounds, ns[i].depth, ts));
  }

  /** An inner node is the parent of its four children. */
  lemma {:induction false} InnerIsParent(ns: seq<Node>, n: nat, i: nat, ts: seq<Tree>, maxDepth: nat)
    requires IsTree(ns, n, i, maxDepth) && ns[i].first != 0 && TreesAre(ns, n, ns[i].first, maxDepth, ts)
    ensures AreSiblings(ns, n, ns[i].first, ns[i].bounds, ns[i].depth, maxDepth)
    ensures TreeAt(ns, n, i, maxDepth) == Inner(ns[i].bounds, ns[i].depth, ts)
    ensures Nodes(ns, n, i) == {i} + FourNodes(ns, n, ns[i].first) && i !in FourNodes(ns, n, ns[i].first)
    ensures Count(TreeAt(ns, n, i, maxDepth)) == 1 + CountFour(ts)
  {
    hide TreeAt, Quarter, Count, WellFormed;
    ParentOfFour(ns, n, i, ns[i].first, ts, maxDepth);
  }

  /** An inner node whose children have become other trees. */
  lemma {:induction false} InnerBecame(ns: seq<Node>, n: nat, ts: seq<Tree>, ns': seq<Node>, n': nat, ts': seq<Tree>,
                                       i: nat, maxDepth: nat)
    requires IsTree(ns, n, i, maxDepth) && ns[i].first != 0 && |ts'| == 4
    requires TreesAre(ns, n, ns[i].first, maxDepth, ts)
    requires FourBecame(ns, n, ts, ns', n', ts', ns[i].first, ns[i].bounds, ns[i].depth, maxDepth)
    ensures Became(ns, n, ns', n', i, maxDepth, Inner(ns[i].bounds, ns[i].depth, ts'))
  {
    hide IsTree, TreeAt, Nodes, Quarter, Count, WellFormed;
    InnerTrees(ns, n, i, maxDepth);
    InnerIsParent(ns, n, i, ts, maxDepth);
    assert ns'[i] == ns[i];
    ParentOfFour(ns', n', i, ns[i].first, ts', maxDepth);
  }

  /** The pool right after a leaf has been split: its four children are fresh empty leaves. */
  ghost predicate JustSplit(ns: seq<Node>, n: nat, mid: seq<Node>, n4: nat, i: nat, maxDepth: nat) {
    && n4 == n + 4 <= |ns| == |mid| && i < n && ns[i].depth < maxDepth
    && mid[i] == Node(mid[i].entries, ns[i].bounds, n, ns[i].depth)
    && (forall j :: 0 <= j < n && j != i ==> mid[j] == ns[j])
    && (forall c :: n <= c < n4 ==> mid[c] == Node([], Quarter(ns[i].bounds, c - n), 0, ns[i].depth + 1))
    && Blank(mid, n4)
  }

  lemma QuartersPlaced(ns: seq<Node>, f: nat, i: nat, placed: seq<Node>)
    requires i < f && f + 4 <= |ns| && Blank(ns, f)
    requires var b := ns[i].bounds;
             placed == ns[i := ns[i].(first := f)]
                         [f := ns[f].(bounds := Quarter(b, 0))][f + 1 := ns[f + 1].(bounds := Quarter(b, 1))]
                         [f + 2 := ns[f + 2].(bounds := Quarter(b, 2))][f + 3 := ns[f + 3].(bounds := Quarter(b, 3))]
    ensures |placed| == |ns| && placed[i] == ns[i].(first := f)
    ensures forall j :: 0 <= j < |ns| && j != i && !(f <= j < f + 4) ==> placed[j] == ns[j]
    ensures forall c :: f <= c < f + 4 ==> placed[c] == Node([], Quarter(ns[i].bounds, c - f), 0, ns[c].depth)
  {
    hide Quarter;
    forall c | f <= c < f + 4 ensures placed[c] == Node([], Quarter(ns[i].bounds, c - f), 0, ns[c].depth) {
      assert c == f || c == f + 1 || c == f + 2 || c == f + 3;
    }
  }

  lemma FreshChildren(ns: seq<Node>, n: nat, mid: seq<Node>, n4: nat, i: nat, maxDepth: nat)
    requires JustSplit(ns, n, mid, n4, i, maxDepth)
    ensures AreSiblings(mid, n4, n, ns[i].bounds, ns[i].depth, maxDepth)
    ensures TreesAre(mid, n4, n, maxDepth, Split(ns[i].bounds, ns[i].depth))
    ensures forall j :: j in FourNodes(mid, n4, n) ==> n <= j < n4
    ensures CountFour(Split(ns[i].bounds, ns[i].depth)) == 4
  {
    assert forall c :: n <= c < n4 ==> Nodes(mid, n4, c) == {c};
  }

  lemma LeafAt(ns: seq<Node>, n: nat, i: nat, maxDepth: nat)
    requires IsTree(ns, n, i, maxDepth) && ns[i].first == 0
    ensures i < n <= |ns| && Nodes(ns, n, i) == {i} && Count(TreeAt(ns, n, i, maxDepth)) == 1
  {
    hide WellFormed, Quarter;
  }

  /** The fresh children take the place of the split leaf's entries. */
  lemma {:induction false} SplitBecame(ns: seq<Node>, n: nat, mid: seq<Node>, n4: nat, ns': seq<Node>, n': nat,
                                       ts': seq<Tree>,
                                       ns'': seq<Node>, i: nat, maxDepth: nat)
    requires IsTree(ns, n, i, maxDepth) && ns[i].first == 0 && JustSplit(ns, n, mid, n4, i, maxDepth) && |ts'| == 4
    requires FourBecame(mid, n4, Split(ns[i].bounds, ns[i].depth), ns', n', ts', n, ns[i].bounds, ns[i].depth, maxDepth)
    requires ns'' == ns'[i := ns'[i].(entries := [])]
    ensures Became(ns, n, ns'', n', i, maxDepth, Inner(ns[i].bounds, ns[i].depth, ts'))
  {
    hide IsTree, TreeAt, Nodes, Quarter, Count, WellFormed;
    LeafAt(ns, n, i, maxDepth);
    FreshChildren(ns, n, mid, n4, i, maxDepth);
    assert ns'[i] == mid[i];
    FourOutside(ns', n', ns'', n, ns[i].bounds, ns[i].depth, maxDepth, ts', i);
    ParentOfFour(ns'', n', i, n, ts', maxDepth);
  }

  /** Room for the four to become complete is room for each of them. */
  lemma RoomForOne(ns: seq<Node>, n: nat, f: nat, ts: seq<Tree>, bounds: Rect, depth: nat, maxDepth: nat, k: nat)
    requires AreSiblings(ns, n, f, bounds, depth, maxDepth) && TreesAre(ns, n, f, maxDepth, ts) && k < 4 && depth < maxDepth
    requires n + 4 * Complete(maxDepth - depth - 1) <= |ns| + CountFour(ts)
    ensures HasRoom(ns, n, f + k, maxDepth)
  {
    hide Nodes, Count, Complete, Quarter, WellFormed;
    forall j | 0 <= j < 4 ensures Count(ts[j]) <= Complete(maxDepth - depth - 1) {
      assert TreeAt(ns, n, f + j, maxDepth) == ts[j];
      CountFits(ts[j], maxDepth);
    }
    assert TreeAt(ns, n, f + k, maxDepth) == ts[k];
  }

  /** `SplitBecame` and `InnerBecame` in terms of the insertion of an entry. */
  lemma InsertIntoInner(t: Tree, ts': seq<Tree>, e: Entry, capacity: nat, maxDepth: nat)
    requires WellFormed(t, maxDepth) && t.Inner? && |ts'| == 4
    requires forall k :: 0 <= k < 4 ==> ts'[k] == InsertAll(t.children[k], [e], capacity, maxDepth)
    ensures Insert(t, e, capacity, maxDepth) == Inner(t.bounds, t.depth, ts')
  {
    var children := Insert(t, e, capacity, maxDepth).children;
    assert [e][..0] == [];
    forall k | 0 <= k < 4 ensures children[k] == ts'[k] {
      assert InsertAll(t.children[k], [], capacity, maxDepth) == t.children[k];
    }
  }

  lemma InsertIntoFull(t: Tree, ts': seq<Tree>, e: Entry, capacity: nat, maxDepth: nat)
    requires WellFormed(t, maxDepth) && t.Leaf? && |t.entries| >= capacity && t.depth < maxDepth && |ts'| == 4
    requires forall k :: 0 <= k < 4 ==>
               ts'[k] == InsertAll(Split(t.bounds, t.depth)[k], t.entries + [e], capacity, maxDepth)
    ensures Insert(t, e, capacity, maxDepth) == Inner(t.bounds, t.depth, ts')
  {
    assert Insert(t, e, capacity, maxDepth).children == ts';
  }

  /** The children of an inner node are its four trees. */
  lemma {:induction false} InnerTrees(ns: seq<Node>, n: nat, i: nat, maxDepth: nat)
    requires IsTree(ns, n, i, maxDepth) && ns[i].first != 0
    ensures TreeAt(ns, n, i, maxDepth).Inner? && i < ns[i].first && ns[i].entries == [] && ns[i].depth < maxDepth
    ensures TreesAre(ns, n, ns[i].first, maxDepth, TreeAt(ns, n, i, maxDepth).children)
    ensures FitAsChildren(TreeAt(ns, n, i, maxDepth).children, ns[i].bounds, ns[i].depth, maxDepth)
  {
    hide Nodes, Quarter, WellFormed;
    var f := ns[i].first;
    ChildrenAreTrees(ns, n, i, maxDepth);
    var ts := TreeAt(ns, n, i, maxDepth).children;
    assert ts == [TreeAt(ns, n, f, maxDepth), TreeAt(ns, n, f + 1, maxDepth), TreeAt(ns, n, f + 2, maxDepth), TreeAt(ns, n, f + 3, maxDepth)];
    hide IsTree, TreeAt;
    forall c | f <= c < f + 4 ensures TreeAt(ns, n, c, maxDepth) == ts[c - f] {
      assert c == f || c == f + 1 || c == f + 2 || c == f + 3;
    }
    forall k | 0 <= k < 4
      ensures WellFormed(ts[k], maxDepth) && ts[k].depth == ns[i].depth + 1 && ts[k].bounds == Quarter(ns[i].bounds, k)
    {
      assert ts[k] == TreeAt(ns, n, f + k, maxDepth);
    }
  }

  lemma ChildrenAreTrees(ns: seq<Node>, n: nat, i: nat, maxDepth: nat)
    requires IsTree(ns, n, i, maxDepth) && ns[i].first != 0
    ensures var f := ns[i].first;
            f + 4 <= n && forall c :: f <= c < f + 4 ==>
              IsTree(ns, n, c, maxDepth) && ns[c].depth == ns[i].depth + 1 && ns[c].bounds == Quarter(ns[i].bounds, c - f)
  {
    hide TreeAt, Nodes, Quarter;
  }

  /** Appending to a leaf. */
  lemma PushedBecame(ns: seq<Node>, n: nat, i: nat, e: Entry, maxDepth: nat)
    requires IsTree(ns, n, i, maxDepth) && ns[i].first == 0 && Blank(ns, n)
    ensures Became(ns, n, ns[i := ns[i].(entries := ns[i].entries + [e])], n, i, maxDepth,
              Leaf(ns[i].entries + [e], ns[i].bounds, ns[i].depth))
  {
  }

  /** Trees that fit as the children of a node. */
  ghost predicate FitAsChildren(ts: seq<Tree>, bounds: Rect, depth: nat, maxDepth: nat) {
    && |ts| == 4
    && forall k :: 0 <= k < 4 ==>
         WellFormed(ts[k], maxDepth) && ts[k].depth == depth + 1 && ts[k].bounds == Quarter(bounds, k)
  }

  lemma {:induction false} CompletePositive(levels: nat)
    ensures Complete(levels) >= 1
  {
    if levels > 0 {
      CompletePositive(levels - 1);
    }
  }

  class QuadTree {
    const capacity: nat
    const maxDepth: nat
    var nodes: seq<Node>
    var nodeIndex: nat

    /** The pool holds the tree rooted at node 0, the rest of it is unused, and no node is lost. */
    ghost predicate Valid()
      reads this
    {
      && |nodes| == Complete(maxDepth)
      && 0 < nodeIndex <= |nodes|
      && nodes[0].depth == 0
      && Blank(nodes, nodeIndex)
      && IsTree(nodes, nodeIndex, 0, maxDepth)
      && nodeIndex == Count(View())
    }

    ghost function View(): Tree
      requires 0 < nodeIndex <= |nodes| && IsTree(nodes, nodeIndex, 0, maxDepth)
      reads this
    {
      TreeAt(nodes, nodeIndex, 0, maxDepth)
    }

    constructor (capacity: nat, maxDepth: nat)
      ensures Valid() && this.capacity == capacity && this.maxDepth == maxDepth
      ensures |nodes| == PowerSum(maxDepth)
    {
      this.capacity := capacity;
      this.maxDepth := maxDepth;
      var result, power := 1, 1;
      for i := 0 to maxDepth
        invariant result == PowerSum(i) && power == Pow4(i)
      {
        power := 4 * power;
        result := result + power;
      }
      nodes := seq(result, i => Node([], Rect(ZERO, ZERO), 0, 0));
      nodeIndex := 1;
      CompleteIsPowerSum(maxDepth);
      assert Complete(maxDepth) >= 1;
    }

    /** The pool has all its nodes; nothing is known of their contents but the depth of the root. */
    ghost predicate PoolOk()
      reads this
    {
      |nodes| == Complete(maxDepth) && |nodes| > 0 && nodes[0].depth == 0
    }

    /** Take over the nodes of another tree, as the copy of a world does. */
    method CopyNodes(other: QuadTree)
      requires other.PoolOk() && other.maxDepth == maxDepth
      modifies this
      ensures PoolOk() && nodes == old(other.nodes) && nodeIndex == old(other.nodeIndex)
    {
      nodes := other.nodes;
      nodeIndex := other.nodeIndex;
    }

    /** Clear every node and give the root its bounds, whatever the nodes held; the depths of nodes other
        than the root stay stale. */
    method SetUpRoot(bounds: Rect)
      requires PoolOk()
      modifies this
      ensures Valid() && View() == Leaf([], bounds, 0)
    {
      for i := 0 to |nodes|
        invariant |nodes| == old(|nodes|) && nodes[0].depth == 0
        invariant forall j :: 0 <= j < i ==> nodes[j].entries == [] && nodes[j].first == 0
      {
        nodes := nodes[i := nodes[i].(entries := [], first := 0)];
      }
      nodes := nodes[0 := nodes[0].(bounds := bounds)];
      nodeIndex := 1;
    }

    /** Insertion at the root: the pool has always enough nodes, whatever is inserted. */
    method InsertAtRoot(e: Entry)
      requires Valid()
      modifies this
      ensures Valid() && View() == QuadTreeSpec.Insert(old(View()), e, capacity, maxDepth)
    {
      CountFits(View(), maxDepth);
      Insert(0, e);
    }

    method SubdivideNode(i: nat)
      requires IsTree(nodes, nodeIndex, i, maxDepth) && Blank(nodes, nodeIndex)
      requires nodes[i].first == 0 && nodes[i].depth < maxDepth && nodeIndex + 4 <= |nodes|
      modifies this
      ensures JustSplit(old(nodes), old(nodeIndex), nodes, nodeIndex, i, maxDepth)
      ensures nodes[i].entries == old(nodes)[i].entries
    {
      var b, f := nodes[i].bounds, nodeIndex;
      var half := b.max.Minus(b.min).Times(0.5);
      nodes := nodes[i := nodes[i].(first := f)];
      nodes := nodes[f := nodes[f].(bounds := Rect(b.min, b.min.Plus(half)))];
      nodes := nodes[f + 1 := nodes[f + 1].(bounds := Rect(Vec(b.min.x, b.min.y + half.y), Vec(b.min.x + half.x, b.min.y + 2.0 * half.y)))];
      nodes := nodes[f + 2 := nodes[f + 2].(bounds := Rect(Vec(b.min.x + half.x, b.min.y), Vec(b.min.x + 2.0 * half.x, b.min.y + half.y)))];
      nodes := nodes[f + 3 := nodes[f + 3].(bounds := Rect(Vec(b.min.x + half.x, b.min.y + half.y), b.max))];
      ghost var placed := nodes;
      QuartersPlaced(old(nodes), f, i, placed);
      for k := 0 to 4
        invariant |nodes| == |placed| && nodeIndex == f
        invariant forall j :: 0 <= j < |nodes| ==>
                    nodes[j] == if f <= j < f + k then placed[j].(depth := placed[i].depth + 1) else placed[j]
      {
        nodes := nodes[f + k := nodes[f + k].(depth := nodes[i].depth + 1)];
      }
      nodeIndex := nodeIndex + 4;
    }

    /** Insert into the tree at node `i` those entries that meet it, in order. */
    method InsertMeeting(i: nat, es: seq<Entry>)
      requires IsTree(nodes, nodeIndex, i, maxDepth) && Blank(nodes, nodeIndex) && HasRoom(nodes, nodeIndex, i, maxDepth)
      modifies this
      ensures Became(old(nodes), old(nodeIndex), nodes, nodeIndex, i, maxDepth,
                InsertAll(TreeAt(old(nodes), old(nodeIndex), i, maxDepth), es, capacity, maxDepth))
      decreases maxDepth - nodes[i].depth, 3
    {
      ghost var t := TreeAt(nodes, nodeIndex, i, maxDepth);
      BecameItself(nodes, nodeIndex, i, maxDepth);
      for k := 0 to |es|
        invariant Became(old(nodes), old(nodeIndex), nodes, nodeIndex, i, maxDepth, InsertAll(t, es[..k], capacity, maxDepth))
      {
        assert es[..k + 1][..k] == es[..k];
        if RectsIntersect(es[k].aabb, nodes[i].bounds) {
          ghost var ns, n, t' := nodes, nodeIndex, InsertAll(t, es[..k], capacity, maxDepth);
          RoomAfter(old(nodes), old(nodeIndex), nodes, nodeIndex, i, maxDepth, t');
          Insert(i, es[k]);
          BecameTwice(old(nodes), old(nodeIndex), ns, n, nodes, nodeIndex, i, maxDepth, t', QuadTreeSpec.Insert(t', es[k], capacity, maxDepth));
        }
      }
      assert es[..|es|] == es;
    }

    /** The loop over the four children, with the loop over the entries inside. */
    method InsertIntoChildren(f: nat, es: seq<Entry>, ghost ts: seq<Tree>, ghost bounds: Rect, ghost depth: nat)
      returns (ghost ts': seq<Tree>)
      requires AreSiblings(nodes, nodeIndex, f, bounds, depth, maxDepth) && TreesAre(nodes, nodeIndex, f, maxDepth, ts)
      requires Blank(nodes, nodeIndex) && depth < maxDepth && FitAsChildren(ts, bounds, depth, maxDepth)
      requires nodeIndex + 4 * Complete(maxDepth - depth - 1) <= |nodes| + CountFour(ts)
      modifies this
      ensures |ts'| == 4 && forall k :: 0 <= k < 4 ==> ts'[k] == InsertAll(ts[k], es, capacity, maxDepth)
      ensures FourBecame(old(nodes), old(nodeIndex), ts, nodes, nodeIndex, ts', f, bounds, depth, maxDepth)
      decreases maxDepth - depth, 0
    {
      hide IsTree, TreeAt, Nodes, Count, Complete, Quarter, WellFormed, InsertAll;
      ts' := ts;
      for k := 0 to 4
        invariant |ts'| == 4
        invariant forall j :: 0 <= j < 4 ==> ts'[j] == if j < k then InsertAll(ts[j], es, capacity, maxDepth) else ts[j]
        invariant FourBecame(old(nodes), old(nodeIndex), ts, nodes, nodeIndex, ts', f, bounds, depth, maxDepth)
      {
        ghost var ns, n, t := nodes, nodeIndex, InsertAll(ts'[k], es, capacity, maxDepth);
        RoomForOne(nodes, nodeIndex, f, ts', bounds, depth, maxDepth, k);
        InsertMeeting(f + k, es);
        OneOfFour(ns, n, ts', nodes, nodeIndex, f, bounds, depth, maxDepth, f + k, t);
        FourBecameTwice(old(nodes), old(nodeIndex), ts, ns, n, ts', nodes, nodeIndex, ts'[k := t], f, bounds, depth, maxDepth);
        ts' := ts'[k := t];
      }
    }

    method Insert(i: nat, e: Entry)
      requires IsTree(nodes, nodeIndex, i, maxDepth) && Blank(nodes, nodeIndex) && HasRoom(nodes, nodeIndex, i, maxDepth)
      modifies this
      ensures Became(old(nodes), old(nodeIndex), nodes, nodeIndex, i, maxDepth,
                QuadTreeSpec.Insert(TreeAt(old(nodes), old(nodeIndex), i, maxDepth), e, capacity, maxDepth))
      decreases maxDepth - nodes[i].depth, 2
    {
      if nodes[i].first != 0 {
        InsertIntoInnerNode(i, e);
      } else if |nodes[i].entries| >= capacity && nodes[i].depth < maxDepth {
        InsertIntoFullLeaf(i, e);
      } else {
        PushedBecame(nodes, nodeIndex, i, e, maxDepth);
        nodes := nodes[i := nodes[i].(entries := nodes[i].entries + [e])];
      }
    }

    method InsertIntoInnerNode(i: nat, e: Entry)
      requires IsTree(nodes, nodeIndex, i, maxDepth) && Blank(nodes, nodeIndex) && HasRoom(nodes, nodeIndex, i, maxDepth)
      requires nodes[i].first != 0
      modifies this
      ensures Became(old(nodes), old(nodeIndex), nodes, nodeIndex, i, maxDepth,
                QuadTreeSpec.Insert(TreeAt(old(nodes), old(nodeIndex), i, maxDepth), e, capacity, maxDepth))
      decreases maxDepth - nodes[i].depth, 1
    {
      hide IsTree, TreeAt, Nodes, Count, Quarter, WellFormed, QuadTreeSpec.Insert, InsertAll;
      ghost var ns, n, t := nodes, nodeIndex, TreeAt(nodes, nodeIndex, i, maxDepth);
      InnerTrees(ns, n, i, maxDepth);
      InnerIsParent(ns, n, i, t.children, maxDepth);
      ghost var ts' := InsertIntoChildren(nodes[i].first, [e], t.children, t.bounds, t.depth);
      InnerBecame(ns, n, t.children, nodes, nodeIndex, ts', i, maxDepth);
      InsertIntoInner(t, ts', e, capacity, maxDepth);
    }

    /** A full leaf is split, and its entries and the new one go to the children. */
    method InsertIntoFullLeaf(i: nat, e: Entry)
      requires IsTree(nodes, nodeIndex, i, maxDepth) && Blank(nodes, nodeIndex) && HasRoom(nodes, nodeIndex, i, maxDepth)
      requires nodes[i].first == 0 && |nodes[i].entries| >= capacity && nodes[i].depth < maxDepth
      modifies this
      ensures Became(old(nodes), old(nodeIndex), nodes, nodeIndex, i, maxDepth,
                QuadTreeSpec.Insert(TreeAt(old(nodes), old(nodeIndex), i, maxDepth), e, capacity, maxDepth))
      decreases maxDepth - nodes[i].depth, 1
    {
      ghost var ns, n, t := nodes, nodeIndex, TreeAt(nodes, nodeIndex, i, maxDepth);
      CompletePositive(maxDepth - t.depth - 1);
      SubdivideNode(i);
      nodes := nodes[i := nodes[i].(entries := nodes[i].entries + [e])];
      ghost var mid, n4, ts := nodes, nodeIndex, Split(t.bounds, t.depth);
      FreshChildren(ns, n, mid, n4, i, maxDepth);
      ghost var ts' := InsertIntoChildren(nodes[i].first, nodes[i].entries, ts, t.bounds, t.depth);
      ghost var ns' := nodes;
      nodes := nodes[i := nodes[i].(entries := [])];
      SplitBecame(ns, n, mid, n4, ns', nodeIndex, ts', nodes, i, maxDepth);
      InsertIntoFull(t, ts', e, capacity, maxDepth);
    }
  }
}
