/** The quadtree as a value: what insertion does to the tree, and what the leaves then hold. */
module QuadTreeSpec {
  import opened Geometry

  datatype Entry = Entry(aabb: Rect, collider: nat)

  /** A tree of nodes; the pool's index arithmetic is gone, the bounds and depths are kept. */
  datatype Tree =
    | Leaf(entries: seq<Entry>, bounds: Rect, depth: nat)
    | Inner(bounds: Rect, depth: nat, children: seq<Tree>)

  /** The four quarters of a node's bounds, in the order of its children. */
  function Quarter(b: Rect, k: nat): Rect
    requires k < 4
  {
    var half := b.max.Minus(b.min).Times(0.5);
    if k == 0 then Rect(b.min, b.min.Plus(half))
    else if k == 1 then Rect(Vec(b.min.x, b.min.y + half.y), Vec(b.min.x + half.x, b.min.y + 2.0 * half.y))
    else if k == 2 then Rect(Vec(b.min.x + half.x, b.min.y), Vec(b.min.x + 2.0 * half.x, b.min.y + half.y))
    else Rect(Vec(b.min.x + half.x, b.min.y + half.y), b.max)
  }

  /** Depths count down from the limit, and an inner node has its four quarters as children. */
  ghost predicate WellFormed(t: Tree, maxDepth: nat)
    decreases t
  {
    && t.depth <= maxDepth
    && (t.Inner? ==>
          && t.depth < maxDepth && |t.children| == 4
          && forall k :: 0 <= k < 4 ==>
               && t.children[k].depth == t.depth + 1 && t.children[k].bounds == Quarter(t.bounds, k)
               && WellFormed(t.children[k], maxDepth))
  }

  function Split(bounds: Rect, depth: nat): seq<Tree> {
    seq(4, k requires 0 <= k < 4 => Leaf([], Quarter(bounds, k), depth + 1))
  }

  /** Insertion: into every child it meets, or into the leaf, which is split when it is full and not
      yet at the depth limit. */
  function Insert(t: Tree, e: Entry, capacity: nat, maxDepth: nat): (t': Tree)
    requires WellFormed(t, maxDepth)
    ensures WellFormed(t', maxDepth) && t'.depth == t.depth && t'.bounds == t.bounds
    decreases maxDepth - t.depth, 0
  {
    if t.Inner? then
      Inner(t.bounds, t.depth, seq(4, k requires 0 <= k < 4 =>
        if RectsIntersect(e.aabb, t.children[k].bounds) then Insert(t.children[k], e, capacity, maxDepth)
        else t.children[k]))
    else if |t.entries| >= capacity && t.depth < maxDepth then
      Inner(t.bounds, t.depth, seq(4, k requires 0 <= k < 4 =>
        InsertAll(Leaf([], Quarter(t.bounds, k), t.depth + 1), t.entries + [e], capacity, maxDepth)))
    else t.(entries := t.entries + [e])
  }

  /** Insert those of the entries that meet the node, in order. */
  function InsertAll(t: Tree, es: seq<Entry>, capacity: nat, maxDepth: nat): (t': Tree)
    requires WellFormed(t, maxDepth)
    ensures WellFormed(t', maxDepth) && t'.depth == t.depth && t'.bounds == t.bounds
    decreases maxDepth - t.depth, 1, |es|
  {
    if es == [] then t
    else
      var t' := InsertAll(t, es[..|es| - 1], capacity, maxDepth);
      var e := es[|es| - 1];
      if RectsIntersect(e.aabb, t.bounds) then Insert(t', e, capacity, maxDepth) else t'
  }

  /** The entries that meet a rectangle, in order. */
  function Meeting(es: seq<Entry>, b: Rect): (r: seq<Entry>) {
    if es == [] then []
    else Meeting(es[..|es| - 1], b) + if RectsIntersect(es[|es| - 1].aabb, b) then [es[|es| - 1]] else []
  }

  lemma MeetingAppend(es: seq<Entry>, e: Entry, b: Rect)
    ensures Meeting(es + [e], b) == Meeting(es, b) + if RectsIntersect(e.aabb, b) then [e] else []
  {
    assert (es + [e])[..|es|] == es;
  }

  lemma {:induction false} MeetingIs(es: seq<Entry>, b: Rect, e: Entry)
    ensures e in Meeting(es, b) <==> e in es && RectsIntersect(e.aabb, b)
    decreases |es|
  {
    if es != [] {
      MeetingIs(es[..|es| - 1], b, e);
      assert es == es[..|es| - 1] + [es[|es| - 1]];
    }
  }

  /** The tree holds the list `es`: every leaf has exactly those entries of it that meet the leaf and all
      nodes above it, each once and in insertion order. */
  ghost predicate Holds(t: Tree, es: seq<Entry>)
    decreases t
  {
    match t
    case Leaf(entries, _, _) => entries == es
    case Inner(_, _, children) =>
      forall k :: 0 <= k < |children| ==> Holds(children[k], Meeting(es, children[k].bounds))
  }

  /** Insertion adds the entry to the list the tree holds. */
  lemma {:induction false} InsertHolds(t: Tree, e: Entry, es: seq<Entry>, capacity: nat, maxDepth: nat)
    requires WellFormed(t, maxDepth) && Holds(t, es)
    ensures Holds(Insert(t, e, capacity, maxDepth), es + [e])
    decreases maxDepth - t.depth, 0
  {
    var t' := Insert(t, e, capacity, maxDepth);
    if t'.Inner? {
      forall k | 0 <= k < 4 ensures Holds(t'.children[k], Meeting(es + [e], t'.children[k].bounds)) {
        if t.Inner? {
          MeetingAppend(es, e, t.children[k].bounds);
          assert Holds(t.children[k], Meeting(es, t.children[k].bounds));
          assert Meeting(es, t.children[k].bounds) + [] == Meeting(es, t.children[k].bounds);
          if RectsIntersect(e.aabb, t.children[k].bounds) {
            InsertHolds(t.children[k], e, Meeting(es, t.children[k].bounds), capacity, maxDepth);
          }
        } else {
          var leaf := Leaf([], Quarter(t.bounds, k), t.depth + 1);
          InsertAllHolds(leaf, t.entries + [e], capacity, maxDepth);
          assert t'.children[k] == InsertAll(leaf, t.entries + [e], capacity, maxDepth);
        }
      }
    }
  }

  lemma {:induction false} InsertAllHolds(t: Tree, es: seq<Entry>, capacity: nat, maxDepth: nat)
    requires WellFormed(t, maxDepth) && Holds(t, [])
    ensures Holds(InsertAll(t, es, capacity, maxDepth), Meeting(es, t.bounds))
    decreases maxDepth - t.depth, 1, |es|
  {
    if es != [] {
      var rest, e := es[..|es| - 1], es[|es| - 1];
      InsertAllHolds(t, rest, capacity, maxDepth);
      assert Meeting(rest, t.bounds) + [] == Meeting(rest, t.bounds);
      if RectsIntersect(e.aabb, t.bounds) {
        InsertHolds(InsertAll(t, rest, capacity, maxDepth), e, Meeting(rest, t.bounds), capacity, maxDepth);
      }
    }
  }

  // ----- leaves -----

  /** No leaf above the depth limit holds more entries than the capacity. */
  ghost predicate Bounded(t: Tree, capacity: nat, maxDepth: nat)
    decreases t
  {
    match t
    case Leaf(entries, _, depth) => depth >= maxDepth || |entries| <= capacity
    case Inner(_, _, children) => forall k :: 0 <= k < |children| ==> Bounded(children[k], capacity, maxDepth)
  }

  lemma {:induction false} InsertKeepsBounded(t: Tree, e: Entry, capacity: nat, maxDepth: nat)
    requires WellFormed(t, maxDepth) && Bounded(t, capacity, maxDepth)
    ensures Bounded(Insert(t, e, capacity, maxDepth), capacity, maxDepth)
    decreases maxDepth - t.depth, 0
  {
    var t' := Insert(t, e, capacity, maxDepth);
    if t'.Inner? {
      forall k | 0 <= k < 4 ensures Bounded(t'.children[k], capacity, maxDepth) {
        if t.Inner? {
          if RectsIntersect(e.aabb, t.children[k].bounds) {
            InsertKeepsBounded(t.children[k], e, capacity, maxDepth);
          }
        } else {
          var leaf := Leaf([], Quarter(t.bounds, k), t.depth + 1);
          InsertAllKeepsBounded(leaf, t.entries + [e], capacity, maxDepth);
          assert t'.children[k] == InsertAll(leaf, t.entries + [e], capacity, maxDepth);
        }
      }
    }
  }

  lemma {:induction false} InsertAllKeepsBounded(t: Tree, es: seq<Entry>, capacity: nat, maxDepth: nat)
    requires WellFormed(t, maxDepth) && Bounded(t, capacity, maxDepth)
    ensures Bounded(InsertAll(t, es, capacity, maxDepth), capacity, maxDepth)
    decreases maxDepth - t.depth, 1, |es|
  {
    if es != [] {
      var rest, e := es[..|es| - 1], es[|es| - 1];
      InsertAllKeepsBounded(t, rest, capacity, maxDepth);
      if RectsIntersect(e.aabb, t.bounds) {
        InsertKeepsBounded(InsertAll(t, rest, capacity, maxDepth), e, capacity, maxDepth);
      }
    }
  }

  /** Every inner node of a tree that holds `es` holds more than fits into a leaf. */
  ghost predicate SplitsNeeded(t: Tree, es: seq<Entry>, capacity: nat)
    decreases t
  {
    match t
    case Leaf(_, _, _) => true
    case Inner(_, _, children) =>
      |es| > capacity && forall k :: 0 <= k < |children| ==> SplitsNeeded(children[k], Meeting(es, children[k].bounds), capacity)
  }

  lemma {:induction false} MoreNeeded(t: Tree, es: seq<Entry>, e: Entry, capacity: nat, maxDepth: nat)
    requires WellFormed(t, maxDepth) && Holds(t, es) && SplitsNeeded(t, es, capacity)
    ensures SplitsNeeded(Insert(t, e, capacity, maxDepth), es + [e], capacity)
    decreases maxDepth - t.depth, 0
  {
    var t' := Insert(t, e, capacity, maxDepth);
    if t'.Inner? {
      forall k | 0 <= k < 4 ensures SplitsNeeded(t'.children[k], Meeting(es + [e], t'.children[k].bounds), capacity) {
        if t.Inner? {
          MeetingAppend(es, e, t.children[k].bounds);
          assert Holds(t.children[k], Meeting(es, t.children[k].bounds));
          assert Meeting(es, t.children[k].bounds) + [] == Meeting(es, t.children[k].bounds);
          if RectsIntersect(e.aabb, t.children[k].bounds) {
            MoreNeeded(t.children[k], Meeting(es, t.children[k].bounds), e, capacity, maxDepth);
          }
        } else {
          var leaf := Leaf([], Quarter(t.bounds, k), t.depth + 1);
          AllNeeded(leaf, t.entries + [e], capacity, maxDepth);
          assert t'.children[k] == InsertAll(leaf, t.entries + [e], capacity, maxDepth);
        }
      }
    }
  }

  lemma {:induction false} AllNeeded(t: Tree, es: seq<Entry>, capacity: nat, maxDepth: nat)
    requires WellFormed(t, maxDepth) && Holds(t, []) && t.Leaf?
    ensures SplitsNeeded(InsertAll(t, es, capacity, maxDepth), Meeting(es, t.bounds), capacity)
    decreases maxDepth - t.depth, 1, |es|
  {
    if es != [] {
      var rest, e := es[..|es| - 1], es[|es| - 1];
      AllNeeded(t, rest, capacity, maxDepth);
      InsertAllHolds(t, rest, capacity, maxDepth);
      assert Meeting(rest, t.bounds) + [] == Meeting(rest, t.bounds);
      if RectsIntersect(e.aabb, t.bounds) {
        MoreNeeded(InsertAll(t, rest, capacity, maxDepth), Meeting(rest, t.bounds), e, capacity, maxDepth);
      }
    }
  }

  /** A node is split if and only if more entries meet it than fit into a leaf, and it lies above the depth limit. */
  lemma SplitExactly(t: Tree, es: seq<Entry>, capacity: nat, maxDepth: nat)
    requires WellFormed(t, maxDepth) && Holds(t, es) && SplitsNeeded(t, es, capacity) && Bounded(t, capacity, maxDepth)
    ensures t.Inner? <==> |es| > capacity && t.depth < maxDepth
  {
  }

  lemma {:induction false} LeafBounded(t: Tree, leaf: Tree, capacity: nat, maxDepth: nat)
    requires Bounded(t, capacity, maxDepth) && leaf in Leaves(t)
    ensures leaf.Leaf? && (leaf.depth >= maxDepth || |leaf.entries| <= capacity)
    decreases t
  {
    if t.Inner? {
      InLeaves(t, leaf);
      var k :| 0 <= k < |t.children| && leaf in Leaves(t.children[k]);
      LeafBounded(t.children[k], leaf, capacity, maxDepth);
    }
  }

  function Concat<T>(parts: seq<seq<T>>): seq<T> {
    if parts == [] then [] else Concat(parts[..|parts| - 1]) + parts[|parts| - 1]
  }

  lemma {:induction false} InConcat<T>(parts: seq<seq<T>>, x: T)
    ensures x in Concat(parts) <==> exists k :: 0 <= k < |parts| && x in parts[k]
    decreases |parts|
  {
    if parts != [] {
      InConcat(parts[..|parts| - 1], x);
    }
  }

  /** The leaves in the order in which the tree is traversed. */
  function Leaves(t: Tree): seq<Tree>
    decreases t
  {
    match t
    case Leaf(_, _, _) => [t]
    case Inner(_, _, children) => Concat(seq(|children|, k requires 0 <= k < |children| => Leaves(children[k])))
  }

  /** A leaf of a child is a leaf of the node, and the other way round. */
  lemma InLeaves(t: Tree, leaf: Tree)
    requires t.Inner?
    ensures leaf in Leaves(t) <==> exists k :: 0 <= k < |t.children| && leaf in Leaves(t.children[k])
  {
    var parts := seq(|t.children|, k requires 0 <= k < |t.children| => Leaves(t.children[k]));
    InConcat(parts, leaf);
    assert forall k :: 0 <= k < |t.children| ==> parts[k] == Leaves(t.children[k]);
  }

  // ----- every leaf is sound -----

  predicate NoDuplicates(es: seq<Entry>) {
    forall i, j :: 0 <= i < j < |es| ==> es[i].collider != es[j].collider
  }

  lemma {:induction false} MeetingKeepsDistinct(es: seq<Entry>, b: Rect)
    requires NoDuplicates(es)
    ensures NoDuplicates(Meeting(es, b))
    decreases |es|
  {
    if es != [] {
      var rest, e := es[..|es| - 1], es[|es| - 1];
      MeetingKeepsDistinct(rest, b);
      forall i | 0 <= i < |Meeting(rest, b)| ensures Meeting(rest, b)[i].collider != e.collider {
        MeetingIs(rest, b, Meeting(rest, b)[i]);
      }
    }
  }

  predicate Within(inner: Rect, outer: Rect) {
    outer.min.x <= inner.min.x && outer.min.y <= inner.min.y && inner.max.x <= outer.max.x && inner.max.y <= outer.max.y
  }

  lemma QuarterWithin(b: Rect, k: nat)
    requires Proper(b) && k < 4
    ensures Proper(Quarter(b, k)) && Within(Quarter(b, k), b)
  {
  }

  lemma MeetsOuter(a: Rect, inner: Rect, outer: Rect)
    requires RectsIntersect(a, inner) && Within(inner, outer)
    ensures RectsIntersect(a, outer)
  {
  }

  lemma {:induction false} LeafWithin(t: Tree, leaf: Tree, maxDepth: nat)
    requires WellFormed(t, maxDepth) && Proper(t.bounds) && leaf in Leaves(t)
    ensures Within(leaf.bounds, t.bounds)
    decreases t
  {
    hide Quarter;
    if t.Inner? {
      InLeaves(t, leaf);
      var k :| 0 <= k < 4 && leaf in Leaves(t.children[k]);
      QuarterWithin(t.bounds, k);
      LeafWithin(t.children[k], leaf, maxDepth);
    }
  }

  /** A leaf holds exactly the inserted colliders that meet its bounds, each once. */
  lemma {:induction false} LeafSound(t: Tree, es: seq<Entry>, leaf: Tree, maxDepth: nat)
    requires WellFormed(t, maxDepth) && Holds(t, es) && NoDuplicates(es) && leaf in Leaves(t) && Proper(t.bounds)
    requires forall e :: e in es ==> RectsIntersect(e.aabb, t.bounds)
    ensures leaf.Leaf? && NoDuplicates(leaf.entries)
    ensures forall e :: e in leaf.entries <==> e in es && RectsIntersect(e.aabb, leaf.bounds)
    decreases t
  {
    hide NoDuplicates, Quarter, RectsIntersect, Within;
    if t.Inner? {
      InLeaves(t, leaf);
      var k :| 0 <= k < 4 && leaf in Leaves(t.children[k]);
      var b := t.children[k].bounds;
      MeetingKeepsDistinct(es, b);
      forall e ensures e in Meeting(es, b) <==> e in es && RectsIntersect(e.aabb, b) {
        MeetingIs(es, b, e);
      }
      QuarterWithin(t.bounds, k);
      LeafWithin(t.children[k], leaf, maxDepth);
      LeafSound(t.children[k], Meeting(es, b), leaf, maxDepth);
      forall e: Entry | RectsIntersect(e.aabb, leaf.bounds) ensures RectsIntersect(e.aabb, b) {
        MeetsOuter(e.aabb, leaf.bounds, b);
      }
    }
  }

  // ----- the broad phase is complete -----

  /** The quarters cover their node. */
  lemma QuartersCover(b: Rect, p: Vec) returns (k: nat)
    requires RectContains(b, p)
    ensures k < 4 && RectContains(Quarter(b, k), p)
  {
    var half := b.max.Minus(b.min).Times(0.5);
    var right, low := p.x > b.min.x + half.x, p.y > b.min.y + half.y;
    k := if right then (if low then 3 else 2) else (if low then 1 else 0);
  }

  /** Two entries of the list whose boxes meet, and meet the node's bounds, share a leaf. */
  lemma {:induction false} ShareLeaf(t: Tree, es: seq<Entry>, a: Entry, b: Entry, maxDepth: nat) returns (leaf: Tree)
    requires WellFormed(t, maxDepth) && Holds(t, es) && Proper(t.bounds)
    requires a in es && b in es && Proper(a.aabb) && Proper(b.aabb)
    requires RectsIntersect(a.aabb, b.aabb) && RectsIntersect(a.aabb, t.bounds) && RectsIntersect(b.aabb, t.bounds)
    ensures leaf in Leaves(t) && leaf.Leaf? && a in leaf.entries && b in leaf.entries
    decreases t
  {
    if t.Leaf? {
      leaf := t;
    } else {
      var p := CommonPoint(a.aabb, b.aabb, t.bounds);
      var k := QuartersCover(t.bounds, p);
      var child := t.children[k];
      QuarterWithin(t.bounds, k);
      MeetingIs(es, child.bounds, a);
      MeetingIs(es, child.bounds, b);
      leaf := ShareLeaf(child, Meeting(es, child.bounds), a, b, maxDepth);
      InLeaves(t, leaf);
    }
  }

  // ----- the pool of nodes -----

  function Count(t: Tree): nat
    decreases t
  {
    match t
    case Leaf(_, _, _) => 1
    case Inner(_, _, children) => 1 + Total(seq(|children|, k requires 0 <= k < |children| => Count(children[k])))
  }

  function Total(ns: seq<nat>): nat {
    if ns == [] then 0 else Total(ns[..|ns| - 1]) + ns[|ns| - 1]
  }

  /** Nodes of a complete tree of `levels` further levels: the sum of the powers of four. */
  function Complete(levels: nat): nat {
    if levels == 0 then 1 else 1 + 4 * Complete(levels - 1)
  }

  function Pow4(n: nat): nat { if n == 0 then 1 else 4 * Pow4(n - 1) }

  /** The constructor's sum of powers, as its loop accumulates it. */
  function PowerSum(n: nat): nat { if n == 0 then 1 else PowerSum(n - 1) + Pow4(n) }

  lemma {:induction false} CompleteIsPowerSum(n: nat)
    ensures Complete(n) == PowerSum(n)
  {
    if n > 0 {
      CompleteIsPowerSum(n - 1);
      PowerSumStep(n);
    }
  }

  lemma {:induction false} PowerSumStep(n: nat)
    requires n > 0
    ensures PowerSum(n) == 1 + 4 * PowerSum(n - 1)
  {
    if n > 1 {
      PowerSumStep(n - 1);
    } else {
      assert Pow4(1) == 4 * Pow4(0);
    }
  }

  /** No well-formed tree is larger than the complete one. */
  lemma {:induction false} CountFits(t: Tree, maxDepth: nat)
    requires WellFormed(t, maxDepth)
    ensures Count(t) <= Complete(maxDepth - t.depth)
    decreases t
  {
    if t.Inner? {
      forall k | 0 <= k < 4 ensures Count(t.children[k]) <= Complete(maxDepth - t.depth - 1) {
        CountFits(t.children[k], maxDepth);
      }
      TotalOfFour(t);
    }
  }

  lemma TotalOfFour(t: Tree)
    requires t.Inner? && |t.children| == 4
    ensures Count(t) == 1 + Count(t.children[0]) + Count(t.children[1]) + Count(t.children[2]) + Count(t.children[3])
  {
    var ns := seq(4, k requires 0 <= k < 4 => Count(t.children[k]));
    assert ns == [Count(t.children[0]), Count(t.children[1]), Count(t.children[2]), Count(t.children[3])];
    assert ns[..3][..2] == ns[..2] && ns[..2][..1] == ns[..1] && ns[..1][..0] == [];
    assert Total(ns[..1]) == Total([]) + ns[0];
    assert Total(ns[..2]) == Total(ns[..1]) + ns[1];
    assert Total(ns[..3]) == Total(ns[..2]) + ns[2];
  }
}
