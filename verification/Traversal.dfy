/** What the traversal of the tree does with the pairs it meets: it visits every pair of a leaf exactly once,
    and each visit opens, keeps or closes a trigger pair by overlap alone. */
module Traversal {
  import opened Bodies
  import opened QuadTreeSpec
  import opened GameSpec
  import opened GameLaws

  // ----- the pairs of a leaf -----

  /** The pairs of positions below `n` whose first is `i` and whose second is `j` or later. */
  function Row(i: nat, j: nat, n: nat): seq<(nat, nat)> {
    seq<(nat, nat)>(if j < n then n - j else 0, k => (i, j + k))
  }

  /** The pairs of positions below `n` whose first is `i` or later. */
  function Positions(i: nat, n: nat): seq<(nat, nat)>
    decreases n - i
  {
    if i >= n then [] else Row(i, i + 1, n) + Positions(i + 1, n)
  }

  /** Each pair of positions is there exactly once, and nothing else. */
  lemma {:induction false} PositionsAreAll(i: nat, n: nat)
    ensures forall p: nat, q: nat :: (p, q) in Positions(i, n) <==> i <= p < q < n
    ensures forall k, l :: 0 <= k < l < |Positions(i, n)| ==> Positions(i, n)[k] != Positions(i, n)[l]
    decreases n - i
  {
    if i < n {
      var row, rest := Row(i, i + 1, n), Positions(i + 1, n);
      var all: seq<(nat, nat)> := row + rest;
      PositionsAreAll(i + 1, n);
      forall p: nat, q: nat ensures (p, q) in all <==> i <= p < q < n {
        if p == i && i < q < n {
          assert row[q - i - 1] == (p, q);
        }
      }
      forall k, l | 0 <= k < l < |all| ensures all[k] != all[l] {
        if l >= |row| {
          assert all[l] in rest && all[l].0 > i;
          if k >= |row| {
            assert rest[k - |row|] != rest[l - |row|];
          }
        }
      }
    }
  }

  /** The colliders at such positions. */
  function At(es: seq<Entry>, ps: seq<(nat, nat)>): seq<(nat, nat)>
    requires forall k :: 0 <= k < |ps| ==> ps[k].0 < |es| && ps[k].1 < |es|
  {
    seq<(nat, nat)>(|ps|, k requires 0 <= k < |ps| => (es[ps[k].0].collider, es[ps[k].1].collider))
  }

  lemma NoneAt(es: seq<Entry>)
    ensures At(es, []) == []
  {
  }

  lemma OneAt(es: seq<Entry>, i: nat, j: nat)
    requires i < |es| && j < |es|
    ensures At(es, [(i, j)]) == [(es[i].collider, es[j].collider)]
  {
  }

  lemma AtAppended(es: seq<Entry>, ps: seq<(nat, nat)>, qs: seq<(nat, nat)>)
    requires forall k :: 0 <= k < |ps| ==> ps[k].0 < |es| && ps[k].1 < |es|
    requires forall k :: 0 <= k < |qs| ==> qs[k].0 < |es| && qs[k].1 < |es|
    ensures At(es, ps + qs) == At(es, ps) + At(es, qs)
  {
  }

  /** The pairs of colliders that stand in a leaf, each once. */
  function PairsOf(es: seq<Entry>): seq<(nat, nat)> {
    PositionsAreAll(0, |es|);
    InBounds(0, |es|);
    At(es, Positions(0, |es|))
  }

  lemma InBounds(i: nat, n: nat)
    ensures forall k :: 0 <= k < |Positions(i, n)| ==> i <= Positions(i, n)[k].0 < Positions(i, n)[k].1 < n
  {
    PositionsAreAll(i, n);
    forall k | 0 <= k < |Positions(i, n)| ensures i <= Positions(i, n)[k].0 < Positions(i, n)[k].1 < n {
      var pq := Positions(i, n)[k];
      assert (pq.0, pq.1) in Positions(i, n);
    }
  }

  /** The pairs of all leaves, in the order of the leaves. */
  function PairsIn(leaves: seq<Tree>): seq<(nat, nat)>
    requires forall t :: t in leaves ==> t.Leaf?
  {
    if leaves == [] then [] else PairsOf(leaves[0].entries) + PairsIn(leaves[1..])
  }

  // ----- visiting pairs one after the other -----

  predicate PairsOk(c: Core, ps: seq<(nat, nat)>) {
    forall k :: 0 <= k < |ps| ==> Attached(c, ps[k].0) && Attached(c, ps[k].1)
  }

  function VisitAll(cfg: Config, c: Core, ps: seq<(nat, nat)>): (c': Core)
    requires CoreOk(cfg, c) && PairsOk(c, ps)
    ensures CoreOk(cfg, c') && SetupOf(c') == SetupOf(c)
    decreases |ps|
  {
    if ps == [] then c
    else
      SameSetup(cfg, c, VisitPair(cfg, c, ps[0].0, ps[0].1));
      VisitAll(cfg, VisitPair(cfg, c, ps[0].0, ps[0].1), ps[1..])
  }

  lemma StillAttached(cfg: Config, c: Core, c': Core, ps: seq<(nat, nat)>)
    requires PairsOk(c, ps) && SetupOf(c') == SetupOf(c)
    ensures PairsOk(c', ps)
  {
    SameSetup(cfg, c, c');
  }

  lemma {:induction false} VisitAppended(cfg: Config, c: Core, ps: seq<(nat, nat)>, qs: seq<(nat, nat)>)
    requires CoreOk(cfg, c) && PairsOk(c, ps) && PairsOk(c, qs)
    ensures PairsOk(c, ps + qs) && PairsOk(VisitAll(cfg, c, ps), qs)
    ensures VisitAll(cfg, c, ps + qs) == VisitAll(cfg, VisitAll(cfg, c, ps), qs)
    decreases |ps|
  {
    hide VisitPair, SetupOf, CoreOk;
    StillAttached(cfg, c, VisitAll(cfg, c, ps), qs);
    if ps == [] {
      assert ps + qs == qs;
    } else {
      var c' := VisitPair(cfg, c, ps[0].0, ps[0].1);
      StillAttached(cfg, c, c', ps[1..]);
      StillAttached(cfg, c, c', qs);
      VisitAppended(cfg, c', ps[1..], qs);
      assert (ps + qs)[1..] == ps[1..] + qs && (ps + qs)[0] == ps[0];
    }
  }

  // ----- the loops visit these pairs -----

  lemma RowInBounds(i: nat, j: nat, n: nat)
    requires i < j <= n
    ensures |Row(i, j, n)| == n - j && forall k :: 0 <= k < n - j ==> Row(i, j, n)[k] == (i, j + k)
    ensures j < n ==> Row(i, j, n) == [(i, j)] + Row(i, j + 1, n)
  {
  }

  lemma EntriesAttached(c: Core, es: seq<Entry>, ps: seq<(nat, nat)>)
    requires EntriesOk(c, es) && forall k :: 0 <= k < |ps| ==> ps[k].0 < |es| && ps[k].1 < |es|
    ensures PairsOk(c, At(es, ps))
  {
    forall k | 0 <= k < |ps| ensures Attached(c, At(es, ps)[k].0) && Attached(c, At(es, ps)[k].1) {
      assert es[ps[k].0] in es && es[ps[k].1] in es;
    }
  }

  lemma {:induction false} VisitAgainstIs(cfg: Config, c: Core, es: seq<Entry>, i: nat, j: nat)
    requires CoreOk(cfg, c) && EntriesOk(c, es) && i < j <= |es|
    ensures PairsOk(c, At(es, Row(i, j, |es|)))
    ensures VisitAgainst(cfg, c, es, i, j) == VisitAll(cfg, c, At(es, Row(i, j, |es|)))
    decreases |es| - j
  {
    hide VisitPair, SetupOf, CoreOk, Row, At, PairsOk;
    RowInBounds(i, j, |es|);
    EntriesAttached(c, es, Row(i, j, |es|));
    if j < |es| {
      assert es[i] in es && es[j] in es;
      var c' := VisitPair(cfg, c, es[i].collider, es[j].collider);
      SameSetup(cfg, c, c');
      RowInBounds(i, j + 1, |es|);
      VisitAgainstIs(cfg, c', es, i, j + 1);
      AtAppended(es, [(i, j)], Row(i, j + 1, |es|));
      OneAt(es, i, j);
      assert At(es, Row(i, j, |es|))[1..] == At(es, Row(i, j + 1, |es|));
    } else {
      NoneAt(es);
    }
  }

  lemma {:induction false} VisitLeafIs(cfg: Config, c: Core, es: seq<Entry>, i: nat)
    requires CoreOk(cfg, c) && EntriesOk(c, es) && i <= |es|
    ensures forall k :: 0 <= k < |Positions(i, |es|)| ==> Positions(i, |es|)[k].0 < |es| && Positions(i, |es|)[k].1 < |es|
    ensures PairsOk(c, At(es, Positions(i, |es|)))
    ensures VisitLeaf(cfg, c, es, i) == VisitAll(cfg, c, At(es, Positions(i, |es|)))
    decreases |es| - i
  {
    hide VisitAgainst, VisitPair, SetupOf, CoreOk, EntriesOk, Row, At, PairsOk;
    InBounds(i, |es|);
    EntriesAttached(c, es, Positions(i, |es|));
    if i < |es| {
      var c' := VisitAgainst(cfg, c, es, i, i + 1);
      SameEntries(cfg, c, c', es);
      VisitAgainstIs(cfg, c, es, i, i + 1);
      VisitLeafIs(cfg, c', es, i + 1);
      RowInBounds(i, i + 1, |es|);
      InBounds(i + 1, |es|);
      EntriesAttached(c, es, Positions(i + 1, |es|));
      VisitAppended(cfg, c, At(es, Row(i, i + 1, |es|)), At(es, Positions(i + 1, |es|)));
      AtAppended(es, Row(i, i + 1, |es|), Positions(i + 1, |es|));
    } else {
      NoneAt(es);
    }
  }

  lemma SameEntries(cfg: Config, c: Core, c': Core, es: seq<Entry>)
    requires EntriesOk(c, es) && SetupOf(c') == SetupOf(c)
    ensures EntriesOk(c', es)
  {
    SameSetup(cfg, c, c');
  }

  /** The traversal of the leaves visits exactly their pairs. */
  lemma {:induction false} VisitLeavesIs(cfg: Config, c: Core, leaves: seq<Tree>)
    requires CoreOk(cfg, c) && LeavesOk(c, leaves)
    ensures PairsOk(c, PairsIn(leaves)) && VisitLeaves(cfg, c, leaves) == VisitAll(cfg, c, PairsIn(leaves))
    decreases |leaves|
  {
    hide VisitLeaf, SetupOf, CoreOk, EntriesOk, Positions;
    if leaves != [] {
      assert leaves[0] in leaves;
      var c' := VisitLeaf(cfg, c, leaves[0].entries, 0);
      forall t | t in leaves[1..] ensures t.Leaf? && EntriesOk(c, t.entries) && EntriesOk(c', t.entries) {
        assert t in leaves;
        SameEntries(cfg, c, c', t.entries);
      }
      VisitLeafIs(cfg, c, leaves[0].entries, 0);
      VisitLeavesIs(cfg, c, leaves[1..]);
      VisitLeavesIs(cfg, c', leaves[1..]);
      VisitAppended(cfg, c, PairsOf(leaves[0].entries), PairsIn(leaves[1..]));
    }
  }

  /** Is a pair among these? */
  ghost predicate Visited(ps: seq<(nat, nat)>, pair: Pair) {
    exists k :: 0 <= k < |ps| && PairOf(ps[k].0, ps[k].1) == pair
  }

  lemma VisitedAppended(ps: seq<(nat, nat)>, qs: seq<(nat, nat)>, pair: Pair)
    ensures Visited(ps + qs, pair) <==> Visited(ps, pair) || Visited(qs, pair)
  {
    var all := ps + qs;
    assert forall k :: 0 <= k < |ps| ==> all[k] == ps[k];
    assert forall k :: 0 <= k < |qs| ==> all[|ps| + k] == qs[k];
    if k :| 0 <= k < |all| && PairOf(all[k].0, all[k].1) == pair {
      assert k >= |ps| ==> all[k] == qs[k - |ps|];
    }
  }

  /** The two stand at two positions of a leaf. */
  ghost predicate StandIn(es: seq<Entry>, pair: Pair) {
    exists p, q :: 0 <= p < q < |es| && PairOf(es[p].collider, es[q].collider) == pair
  }

  lemma StandersVisited(es: seq<Entry>, pair: Pair)
    ensures StandIn(es, pair) <==> Visited(PairsOf(es), pair)
  {
    PositionsAreAll(0, |es|);
    InBounds(0, |es|);
    var ps := Positions(0, |es|);
    if p, q :| 0 <= p < q < |es| && PairOf(es[p].collider, es[q].collider) == pair {
      assert (p, q) in ps;
      var k :| 0 <= k < |ps| && ps[k] == (p, q);
      assert PairsOf(es)[k] == (es[p].collider, es[q].collider);
    }
    if k :| 0 <= k < |PairsOf(es)| && PairOf(PairsOf(es)[k].0, PairsOf(es)[k].1) == pair {
      assert PairsOf(es)[k] == (es[ps[k].0].collider, es[ps[k].1].collider);
    }
  }

  lemma {:induction false} SomeLeafVisited(leaves: seq<Tree>, pair: Pair)
    requires forall t :: t in leaves ==> t.Leaf?
    ensures (exists leaf :: leaf in leaves && leaf.Leaf? && StandIn(leaf.entries, pair)) <==> Visited(PairsIn(leaves), pair)
    decreases |leaves|
  {
    hide StandIn, Visited, PairsOf;
    if leaves == [] {
      NoneVisited(pair);
    } else {
      var rest := leaves[1..];
      SomeLeafVisited(rest, pair);
      StandersVisited(leaves[0].entries, pair);
      VisitedAppended(PairsOf(leaves[0].entries), PairsIn(rest), pair);
      assert forall t :: t in leaves <==> t == leaves[0] || t in rest;
    }
  }

  lemma NoneVisited(pair: Pair)
    ensures !Visited([], pair)
  {
  }

  /** A pair is compared, in the sense of the broad phase, if and only if the traversal visits it. */
  lemma ComparedIsVisited(t: Tree, i: nat, j: nat)
    requires forall leaf :: leaf in Leaves(t) ==> leaf.Leaf?
    ensures Compared(t, i, j) <==> Visited(PairsIn(Leaves(t)), PairOf(i, j))
  {
    hide Visited, PairsIn, Leaves;
    SomeLeafVisited(Leaves(t), PairOf(i, j));
    if Compared(t, i, j) {
      var leaf, p, q :| leaf in Leaves(t) && leaf.Leaf? && 0 <= p < q < |leaf.entries|
                        && PairOf(leaf.entries[p].collider, leaf.entries[q].collider) == PairOf(i, j);
      assert StandIn(leaf.entries, PairOf(i, j));
    }
  }

  // ----- triggers -----

  /** Two attached colliders of different bodies, at least one of them a trigger. */
  predicate TriggerPair(c: Core, i: nat, j: nat) {
    Attached(c, i) && Attached(c, j) && c.colliders[i].body != c.colliders[j].body
    && (c.colliders[i].isTrigger || c.colliders[j].isTrigger)
  }

  lemma OverlapDefined(cfg: Config, c: Core, i: nat, j: nat)
    requires CoreOk(cfg, c) && Attached(c, i) && Attached(c, j)
    ensures c.colliders[i].body < |c.bodies| && c.colliders[j].body < |c.bodies|
  {
  }

  lemma CallbacksKeepPairs(cfg: Config, c: Core, i: nat, j: nat)
    requires CoreOk(cfg, c)
    ensures OnTriggerEnter(cfg, c, i, j).pairs == c.pairs && OnTriggerEnter(cfg, c, i, j).events == c.events
    ensures OnTriggerExit(cfg, c, i, j).pairs == c.pairs && OnTriggerExit(cfg, c, i, j).events == c.events
  {
    hide SetupOf, AllInPlace, ResetBodies;
  }

  lemma ContactMovesBodies(cfg: Config, c: Core, i: nat, j: nat)
    requires CoreOk(cfg, c) && Collidable(c, i, j)
    ensures ResolveContact(cfg, c, i, j) == c.(bodies := ResolveContact(cfg, c, i, j).bodies)
  {
    hide SetupOf;
  }

  /** A visit opens a trigger pair if it overlaps and closes it if it does not; only a change is logged, and
      no other pair is touched. */
  lemma VisitOpensByOverlap(cfg: Config, c: Core, i: nat, j: nat)
    requires CoreOk(cfg, c) && TriggerPair(c, i, j)
    ensures c.colliders[i].body < |c.bodies| && c.colliders[j].body < |c.bodies|
    ensures var c', pair := VisitPair(cfg, c, i, j), PairOf(i, j);
            && (pair in c'.pairs <==> Overlap(c, i, j))
            && (forall p :: p != pair ==> (p in c'.pairs <==> p in c.pairs))
            && c'.events == c.events + (if Overlap(c, i, j) && pair !in c.pairs then [Enter(pair)]
                                        else if !Overlap(c, i, j) && pair in c.pairs then [Exit(pair)]
                                        else [])
  {
    hide SetupOf, AllInPlace, OverlapAt, OnTriggerEnter, OnTriggerExit, PairOf;
    OverlapDefined(cfg, c, i, j);
    CallbacksKeepPairs(cfg, c, i, j);
    assert c.events + [] == c.events;
  }

  /** A visit of any other pair leaves the pairs and the log alone. */
  lemma OtherVisitOpensNone(cfg: Config, c: Core, i: nat, j: nat)
    requires CoreOk(cfg, c) && Attached(c, i) && Attached(c, j) && !TriggerPair(c, i, j)
    ensures VisitPair(cfg, c, i, j).pairs == c.pairs && VisitPair(cfg, c, i, j).events == c.events
  {
    hide SetupOf, OverlapAt, ResolveContact;
    OverlapDefined(cfg, c, i, j);
    if c.colliders[i].body != c.colliders[j].body {
      ContactMovesBodies(cfg, c, i, j);
    }
  }

  lemma SameTriggers(cfg: Config, c: Core, c': Core, i: nat, j: nat)
    requires SetupOf(c') == SetupOf(c)
    ensures TriggerPair(c', i, j) <==> TriggerPair(c, i, j)
  {
    SameSetup(cfg, c, c');
  }

  lemma OneVisited(p: (nat, nat))
    ensures Visited([p], PairOf(p.0, p.1))
  {
    assert [p][0] == p;
  }

  /** A pair that is not visited stays as it is. */
  lemma {:induction false} NotVisitedStays(cfg: Config, c: Core, ps: seq<(nat, nat)>, pair: Pair)
    requires CoreOk(cfg, c) && PairsOk(c, ps) && !Visited(ps, pair)
    ensures pair in VisitAll(cfg, c, ps).pairs <==> pair in c.pairs
    decreases |ps|
  {
    hide VisitPair, SetupOf, CoreOk, TriggerPair, Visited;
    if ps != [] {
      var i, j := ps[0].0, ps[0].1;
      var c' := VisitPair(cfg, c, i, j);
      assert ps == [ps[0]] + ps[1..];
      VisitedAppended([ps[0]], ps[1..], pair);
      OneVisited(ps[0]);
      StillAttached(cfg, c, c', ps[1..]);
      if TriggerPair(c, i, j) {
        VisitOpensByOverlap(cfg, c, i, j);
      } else {
        OtherVisitOpensNone(cfg, c, i, j);
      }
      NotVisitedStays(cfg, c', ps[1..], pair);
    }
  }

  /** The state in which pair number `k` is visited. */
  function Before(cfg: Config, c: Core, ps: seq<(nat, nat)>, k: nat): (c': Core)
    requires CoreOk(cfg, c) && PairsOk(c, ps) && k <= |ps|
    ensures CoreOk(cfg, c') && SetupOf(c') == SetupOf(c)
  {
    VisitAll(cfg, c, ps[..k])
  }

  /** The last visit of a trigger pair decides: it is open afterwards if and only if it overlapped then. */
  lemma {:induction false} LastVisitDecides(cfg: Config, c: Core, ps: seq<(nat, nat)>, k: nat)
    requires CoreOk(cfg, c) && PairsOk(c, ps) && k < |ps|
    requires TriggerPair(c, ps[k].0, ps[k].1) && !Visited(ps[k + 1..], PairOf(ps[k].0, ps[k].1))
    ensures var before, i, j := Before(cfg, c, ps, k), ps[k].0, ps[k].1;
            && TriggerPair(before, i, j)
            && before.colliders[i].body < |before.bodies| && before.colliders[j].body < |before.bodies|
            && (PairOf(i, j) in VisitAll(cfg, c, ps).pairs <==> Overlap(before, i, j))
  {
    hide VisitPair, SetupOf, CoreOk, TriggerPair, Overlap, Visited;
    var i, j, first, rest := ps[k].0, ps[k].1, ps[..k], ps[k + 1..];
    var before := Before(cfg, c, ps, k);
    SplitAt(ps, k);
    assert PairsOk(c, first) && PairsOk(c, [(i, j)] + rest);
    VisitAppended(cfg, c, first, [(i, j)] + rest);
    SameTriggers(cfg, c, before, i, j);
    VisitOpensByOverlap(cfg, before, i, j);
    var after := VisitPair(cfg, before, i, j);
    assert ([(i, j)] + rest)[1..] == rest;
    StillAttached(cfg, c, after, rest);
    NotVisitedStays(cfg, after, rest, PairOf(i, j));
  }

  lemma SplitAt(ps: seq<(nat, nat)>, k: nat)
    requires k < |ps|
    ensures ps == ps[..k] + ([(ps[k].0, ps[k].1)] + ps[k + 1..])
  {
  }

  lemma BeforeLater(cfg: Config, c: Core, ps: seq<(nat, nat)>, k: nat)
    requires CoreOk(cfg, c) && PairsOk(c, ps) && 0 < k <= |ps|
    ensures var c' := VisitPair(cfg, c, ps[0].0, ps[0].1);
            PairsOk(c', ps[1..]) && Before(cfg, c', ps[1..], k - 1) == Before(cfg, c, ps, k)
  {
    hide VisitPair, SetupOf, CoreOk;
    StillAttached(cfg, c, VisitPair(cfg, c, ps[0].0, ps[0].1), ps[1..]);
    assert ps[..k][1..] == ps[1..][..k - 1];
  }

  // ----- goals -----

  /** Does this visit open the pair? */
  predicate Opens(cfg: Config, c: Core, i: nat, j: nat, pair: Pair)
    requires CoreOk(cfg, c) && Attached(c, i) && Attached(c, j)
  {
    OverlapDefined(cfg, c, i, j);
    PairOf(i, j) == pair && TriggerPair(c, i, j) && Overlap(c, i, j) && pair !in c.pairs
  }

  lemma EnterScores(cfg: Config, c: Core, i: nat, j: nat)
    requires CoreOk(cfg, c)
    ensures var c' := OnTriggerEnter(cfg, c, i, j);
            && c'.redScore == c.redScore + (if PairOf(i, j) == PairOf(cfg.leftGoal, cfg.ballCol) then 1 else 0)
            && c'.blueScore == c.blueScore + (if PairOf(i, j) == PairOf(cfg.rightGoal, cfg.ballCol) then 1 else 0)
            && c'.blueGrounded == c.blueGrounded && c'.redGrounded == c.redGrounded
  {
    hide SetupOf, AllInPlace, ResetBodies;
    PairIsSymmetric(i, j, cfg.leftGoal, cfg.ballCol);
    PairIsSymmetric(i, j, cfg.rightGoal, cfg.ballCol);
  }

  lemma ExitScoresNothing(cfg: Config, c: Core, i: nat, j: nat)
    requires CoreOk(cfg, c)
    ensures var c' := OnTriggerExit(cfg, c, i, j);
            && c'.redScore == c.redScore && c'.blueScore == c.blueScore
            && c'.blueGrounded == c.blueGrounded && c'.redGrounded == c.redGrounded
  {
    hide SetupOf, AllInPlace;
  }

  /** Red scores when the left goal and the ball start to overlap, blue with the right goal. */
  lemma VisitScores(cfg: Config, c: Core, i: nat, j: nat)
    requires CoreOk(cfg, c) && Attached(c, i) && Attached(c, j)
    ensures var c' := VisitPair(cfg, c, i, j);
            && c'.redScore == c.redScore + (if Opens(cfg, c, i, j, PairOf(cfg.leftGoal, cfg.ballCol)) then 1 else 0)
            && c'.blueScore == c.blueScore + (if Opens(cfg, c, i, j, PairOf(cfg.rightGoal, cfg.ballCol)) then 1 else 0)
  {
    hide SetupOf, AllInPlace, Overlap, ResolveContact, OnTriggerEnter, OnTriggerExit, PairOf;
    OverlapDefined(cfg, c, i, j);
    if TriggerPair(c, i, j) {
      EnterScores(cfg, c, i, j);
      ExitScoresNothing(cfg, c, i, j);
    } else if c.colliders[i].body != c.colliders[j].body {
      ContactMovesBodies(cfg, c, i, j);
    }
  }

  lemma {:induction false} ScoresWithoutVisit(cfg: Config, c: Core, ps: seq<(nat, nat)>)
    requires CoreOk(cfg, c) && PairsOk(c, ps)
    ensures !Visited(ps, PairOf(cfg.leftGoal, cfg.ballCol)) ==> VisitAll(cfg, c, ps).redScore == c.redScore
    ensures !Visited(ps, PairOf(cfg.rightGoal, cfg.ballCol)) ==> VisitAll(cfg, c, ps).blueScore == c.blueScore
    decreases |ps|
  {
    hide VisitPair, SetupOf, CoreOk, TriggerPair, Visited;
    if ps != [] {
      var i, j := ps[0].0, ps[0].1;
      var c' := VisitPair(cfg, c, i, j);
      assert ps == [ps[0]] + ps[1..];
      VisitedAppended([ps[0]], ps[1..], PairOf(cfg.leftGoal, cfg.ballCol));
      VisitedAppended([ps[0]], ps[1..], PairOf(cfg.rightGoal, cfg.ballCol));
      OneVisited(ps[0]);
      StillAttached(cfg, c, c', ps[1..]);
      VisitScores(cfg, c, i, j);
      ScoresWithoutVisit(cfg, c', ps[1..]);
    }
  }

  /** A pair that is visited once. */
  ghost predicate OnlyAt(ps: seq<(nat, nat)>, k: nat) {
    k < |ps| && !Visited(ps[..k], PairOf(ps[k].0, ps[k].1)) && !Visited(ps[k + 1..], PairOf(ps[k].0, ps[k].1))
  }

  /** With one visit of a goal and the ball, a goal is scored if and only if the two overlap then and did not
      before the traversal. */
  lemma OneGoalAtMost(cfg: Config, c: Core, ps: seq<(nat, nat)>, k: nat, left: bool)
    requires CoreOk(cfg, c) && PairsOk(c, ps) && OnlyAt(ps, k) && TriggerPair(c, ps[k].0, ps[k].1)
    requires PairOf(ps[k].0, ps[k].1) == PairOf(if left then cfg.leftGoal else cfg.rightGoal, cfg.ballCol)
    ensures var before, i, j := Before(cfg, c, ps, k), ps[k].0, ps[k].1;
            && TriggerPair(before, i, j)
            && before.colliders[i].body < |before.bodies| && before.colliders[j].body < |before.bodies|
            && var goals := if PairOf(i, j) !in c.pairs && Overlap(before, i, j) then 1 else 0;
               var c' := VisitAll(cfg, c, ps);
               if left then c'.redScore == c.redScore + goals else c'.blueScore == c.blueScore + goals
  {
    hide VisitPair, SetupOf, CoreOk, TriggerPair, Overlap, Visited;
    var i, j, first, rest := ps[k].0, ps[k].1, ps[..k], ps[k + 1..];
    var before := Before(cfg, c, ps, k);
    SplitAt(ps, k);
    assert PairsOk(c, first) && PairsOk(c, [(i, j)] + rest);
    VisitAppended(cfg, c, first, [(i, j)] + rest);
    SameTriggers(cfg, c, before, i, j);
    OverlapDefined(cfg, before, i, j);
    NotVisitedStays(cfg, c, first, PairOf(i, j));
    ScoresWithoutVisit(cfg, c, first);
    VisitScores(cfg, before, i, j);
    var after := VisitPair(cfg, before, i, j);
    assert ([(i, j)] + rest)[1..] == rest;
    StillAttached(cfg, c, after, rest);
    ScoresWithoutVisit(cfg, after, rest);
  }

  // ----- contacts -----

  /** Two overlapping solid colliders of different bodies. */
  predicate Touching(cfg: Config, c: Core, i: nat, j: nat)
    requires CoreOk(cfg, c) && Attached(c, i) && Attached(c, j)
  {
    OverlapDefined(cfg, c, i, j);
    c.colliders[i].body != c.colliders[j].body && !TriggerPair(c, i, j) && Overlap(c, i, j)
  }

  lemma CollisionGrounds(cfg: Config, c: Core, i: nat, j: nat)
    requires cfg.blueCol != cfg.redCol
    ensures var c' := OnCollisionEnter(cfg, c, i, j);
            && (c'.blueGrounded <==> c.blueGrounded || PairOf(i, j) == PairOf(cfg.blueCol, cfg.ground))
            && (c'.redGrounded <==> c.redGrounded || PairOf(i, j) == PairOf(cfg.redCol, cfg.ground))
  {
    PairIsSymmetric(i, j, cfg.blueCol, cfg.ground);
    PairIsSymmetric(i, j, cfg.redCol, cfg.ground);
  }

  /** A visit puts a player on the ground if and only if the player's collider touches the ground's. */
  lemma VisitGrounds(cfg: Config, c: Core, i: nat, j: nat)
    requires CoreOk(cfg, c) && Attached(c, i) && Attached(c, j) && cfg.blueCol != cfg.redCol
    ensures var c' := VisitPair(cfg, c, i, j);
            && (c'.blueGrounded <==> c.blueGrounded || (PairOf(i, j) == PairOf(cfg.blueCol, cfg.ground) && Touching(cfg, c, i, j)))
            && (c'.redGrounded <==> c.redGrounded || (PairOf(i, j) == PairOf(cfg.redCol, cfg.ground) && Touching(cfg, c, i, j)))
  {
    hide SetupOf, AllInPlace, Overlap, ResolveContact, OnTriggerEnter, OnTriggerExit, OnCollisionEnter, PairOf;
    OverlapDefined(cfg, c, i, j);
    if TriggerPair(c, i, j) {
      EnterScores(cfg, c, i, j);
      ExitScoresNothing(cfg, c, i, j);
    } else if c.colliders[i].body != c.colliders[j].body {
      ContactMovesBodies(cfg, c, i, j);
      CollisionGrounds(cfg, ResolveContact(cfg, c, i, j), i, j);
    }
  }

  /** Is the pair visited while the two touch? */
  ghost predicate Touched(cfg: Config, c: Core, ps: seq<(nat, nat)>, pair: Pair)
    requires CoreOk(cfg, c) && PairsOk(c, ps)
  {
    exists k :: 0 <= k < |ps| && TouchedAt(cfg, c, ps, pair, k)
  }

  ghost predicate TouchedAt(cfg: Config, c: Core, ps: seq<(nat, nat)>, pair: Pair, k: nat)
    requires CoreOk(cfg, c) && PairsOk(c, ps) && k < |ps|
  {
    StillAttached(cfg, c, Before(cfg, c, ps, k), ps);
    PairOf(ps[k].0, ps[k].1) == pair && Touching(cfg, Before(cfg, c, ps, k), ps[k].0, ps[k].1)
  }

  lemma TouchedLater(cfg: Config, c: Core, ps: seq<(nat, nat)>, pair: Pair)
    requires CoreOk(cfg, c) && PairsOk(c, ps) && ps != []
    ensures var i, j := ps[0].0, ps[0].1;
            var c' := VisitPair(cfg, c, i, j);
            && PairsOk(c', ps[1..])
            && (Touched(cfg, c, ps, pair) <==> (PairOf(i, j) == pair && Touching(cfg, c, i, j)) || Touched(cfg, c', ps[1..], pair))
  {
    hide VisitPair, SetupOf, CoreOk, Touching;
    var c' := VisitPair(cfg, c, ps[0].0, ps[0].1);
    StillAttached(cfg, c, c', ps[1..]);
    assert Before(cfg, c, ps, 0) == c by {
      assert ps[..0] == [];
    }
    forall k | 0 < k < |ps| ensures TouchedAt(cfg, c, ps, pair, k) <==> TouchedAt(cfg, c', ps[1..], pair, k - 1) {
      BeforeLater(cfg, c, ps, k);
    }
    if Touched(cfg, c', ps[1..], pair) {
      var k :| 0 <= k < |ps[1..]| && TouchedAt(cfg, c', ps[1..], pair, k);
      assert TouchedAt(cfg, c, ps, pair, k + 1);
    }
    if PairOf(ps[0].0, ps[0].1) == pair && Touching(cfg, c, ps[0].0, ps[0].1) {
      assert TouchedAt(cfg, c, ps, pair, 0);
    }
  }

  /** After the traversal a player is on the ground if and only if it was before, or touched the ground when
      that pair was visited. */
  lemma {:induction false} GroundedByTouch(cfg: Config, c: Core, ps: seq<(nat, nat)>)
    requires CoreOk(cfg, c) && PairsOk(c, ps) && cfg.blueCol != cfg.redCol
    ensures var c' := VisitAll(cfg, c, ps);
            && (c'.blueGrounded <==> c.blueGrounded || Touched(cfg, c, ps, PairOf(cfg.blueCol, cfg.ground)))
            && (c'.redGrounded <==> c.redGrounded || Touched(cfg, c, ps, PairOf(cfg.redCol, cfg.ground)))
    decreases |ps|
  {
    hide VisitPair, SetupOf, CoreOk, Touching, TouchedAt;
    if ps != [] {
      var c' := VisitPair(cfg, c, ps[0].0, ps[0].1);
      VisitGrounds(cfg, c, ps[0].0, ps[0].1);
      TouchedLater(cfg, c, ps, PairOf(cfg.blueCol, cfg.ground));
      TouchedLater(cfg, c, ps, PairOf(cfg.redCol, cfg.ground));
      GroundedByTouch(cfg, c', ps[1..]);
    }
  }

  /** A visit of a trigger pair moves no body, unless it scores: then ball and players are put back. */
  lemma VisitTriggerMoves(cfg: Config, c: Core, i: nat, j: nat)
    requires CoreOk(cfg, c) && TriggerPair(c, i, j) && cfg.leftGoal != cfg.rightGoal
    ensures var scores := Opens(cfg, c, i, j, PairOf(cfg.leftGoal, cfg.ballCol)) || Opens(cfg, c, i, j, PairOf(cfg.rightGoal, cfg.ballCol));
            VisitPair(cfg, c, i, j).bodies == if scores then ResetBodies(cfg, c.bodies) else c.bodies
  {
    hide SetupOf, AllInPlace, Overlap, OnTriggerEnter, OnTriggerExit, PairOf, ResetBodies;
    OverlapDefined(cfg, c, i, j);
    EnterMoves(cfg, c, i, j);
    ExitMovesNothing(cfg, c, i, j);
  }

  lemma EnterMoves(cfg: Config, c: Core, i: nat, j: nat)
    requires CoreOk(cfg, c) && cfg.leftGoal != cfg.rightGoal
    ensures cfg.ballBody < |c.bodies| && cfg.blueBody < |c.bodies| && cfg.redBody < |c.bodies|
    ensures OnTriggerEnter(cfg, c, i, j).bodies ==
            if PairOf(i, j) == PairOf(cfg.leftGoal, cfg.ballCol) || PairOf(i, j) == PairOf(cfg.rightGoal, cfg.ballCol)
            then ResetBodies(cfg, c.bodies) else c.bodies
  {
    hide SetupOf, ResetBodies;
    PairIsSymmetric(i, j, cfg.leftGoal, cfg.ballCol);
    PairIsSymmetric(i, j, cfg.rightGoal, cfg.ballCol);
  }

  lemma ExitMovesNothing(cfg: Config, c: Core, i: nat, j: nat)
    requires CoreOk(cfg, c)
    ensures OnTriggerExit(cfg, c, i, j).bodies == c.bodies
  {
  }
}
