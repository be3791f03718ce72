/** The trigger bookkeeping as a state machine over whole runs of the two games of a peer. */
module Triggers {
  import opened Inputs
  import opened QuadTreeSpec
  import opened GameSpec
  import opened GameLaws

  /** The pairs that are open after a log of events, if every enter was of a closed pair and every exit of
      an open one. */
  datatype Opened = Broken | Open(pairs: set<Pair>)

  function Then(o: Opened, e: Event): Opened {
    if o.Broken? || (e.pair in o.pairs <==> e.Enter?) then Broken
    else Open(if e.Enter? then o.pairs + {e.pair} else o.pairs - {e.pair})
  }

  function OpenAfter(events: seq<Event>): Opened {
    if events == [] then Open({}) else Then(OpenAfter(events[..|events| - 1]), events[|events| - 1])
  }

  function Enters(events: seq<Event>, p: Pair): nat {
    if events == [] then 0
    else Enters(events[..|events| - 1], p) + if events[|events| - 1] == Enter(p) then 1 else 0
  }

  lemma Appended(events: seq<Event>, e: Event, p: Pair)
    ensures OpenAfter(events + [e]) == Then(OpenAfter(events), e)
    ensures Enters(events + [e], p) == Enters(events, p) + if e == Enter(p) then 1 else 0
  {
    assert (events + [e])[..|events|] == events;
  }

  /** The colliders that the callbacks look for are different ones. */
  predicate Distinct(cfg: Config) {
    && cfg.blueFeet != cfg.redFeet && cfg.leftGoal != cfg.rightGoal
    && cfg.ballCol !in {cfg.blueFeet, cfg.redFeet, cfg.leftGoal, cfg.rightGoal}
    && cfg.blueFeet !in {cfg.leftGoal, cfg.rightGoal} && cfg.redFeet !in {cfg.leftGoal, cfg.rightGoal}
  }

  /** The pair set is exactly the set of open pairs, each kick flag says whether the pair of feet and ball
      is open, and each score is the number of times the ball has entered the other side's goal. */
  ghost predicate Bookkeeping(cfg: Config, c: Core) {
    && OpenAfter(c.events) == Open(c.pairs)
    && (c.canBlueKick <==> PairOf(cfg.blueFeet, cfg.ballCol) in c.pairs)
    && (c.canRedKick <==> PairOf(cfg.redFeet, cfg.ballCol) in c.pairs)
    && c.redScore == Enters(c.events, PairOf(cfg.leftGoal, cfg.ballCol))
    && c.blueScore == Enters(c.events, PairOf(cfg.rightGoal, cfg.ballCol))
  }

  /** Everything the bookkeeping is about is unchanged. */
  predicate SameBooks(c: Core, c': Core) {
    && c'.events == c.events && c'.pairs == c.pairs
    && c'.canBlueKick == c.canBlueKick && c'.canRedKick == c.canRedKick
    && c'.redScore == c.redScore && c'.blueScore == c.blueScore
  }

  lemma {:induction false} EnterKeeps(cfg: Config, c: Core, i: nat, j: nat)
    requires Distinct(cfg) && CoreOk(cfg, c) && Bookkeeping(cfg, c) && PairOf(i, j) !in c.pairs
    ensures var c', pair := OnTriggerEnter(cfg, c, i, j), PairOf(i, j);
            Bookkeeping(cfg, c'.(pairs := c'.pairs + {pair}, events := c'.events + [Enter(pair)]))
  {
    var pair := PairOf(i, j);
    PairIsSymmetric(i, j, cfg.blueFeet, cfg.ballCol);
    PairIsSymmetric(i, j, cfg.redFeet, cfg.ballCol);
    PairIsSymmetric(i, j, cfg.leftGoal, cfg.ballCol);
    PairIsSymmetric(i, j, cfg.rightGoal, cfg.ballCol);
    Appended(c.events, Enter(pair), PairOf(cfg.leftGoal, cfg.ballCol));
    Appended(c.events, Enter(pair), PairOf(cfg.rightGoal, cfg.ballCol));
    EnterIs(cfg, c, i, j);
  }

  lemma ExitKeeps(cfg: Config, c: Core, i: nat, j: nat)
    requires Distinct(cfg) && Bookkeeping(cfg, c) && PairOf(i, j) in c.pairs
    ensures var c', pair := OnTriggerExit(cfg, c, i, j), PairOf(i, j);
            Bookkeeping(cfg, c'.(pairs := c'.pairs - {pair}, events := c'.events + [Exit(pair)]))
  {
    var pair := PairOf(i, j);
    PairIsSymmetric(i, j, cfg.blueFeet, cfg.ballCol);
    PairIsSymmetric(i, j, cfg.redFeet, cfg.ballCol);
    Appended(c.events, Exit(pair), PairOf(cfg.leftGoal, cfg.ballCol));
    Appended(c.events, Exit(pair), PairOf(cfg.rightGoal, cfg.ballCol));
  }

  lemma {:induction false} VisitTriggerKeeps(cfg: Config, c: Core, i: nat, j: nat)
    requires Distinct(cfg) && CoreOk(cfg, c) && Collidable(c, i, j) && Bookkeeping(cfg, c)
    ensures Bookkeeping(cfg, VisitTrigger(cfg, c, i, j))
  {
    if PairOf(i, j) in c.pairs {
      ExitKeeps(cfg, c, i, j);
    } else {
      EnterKeeps(cfg, c, i, j);
    }
  }

  /** What the callback for an enter does to the flags and scores. */
  lemma EnterIs(cfg: Config, c: Core, a: nat, b: nat)
    requires CoreOk(cfg, c)
    ensures var c' := OnTriggerEnter(cfg, c, a, b);
            && c'.events == c.events && c'.pairs == c.pairs
            && c'.canBlueKick == (c.canBlueKick || Between(a, b, cfg.blueFeet, cfg.ballCol))
            && c'.canRedKick == (c.canRedKick || Between(a, b, cfg.redFeet, cfg.ballCol))
            && c'.redScore == c.redScore + (if Between(a, b, cfg.leftGoal, cfg.ballCol) then 1 else 0)
            && c'.blueScore == c.blueScore + (if Between(a, b, cfg.rightGoal, cfg.ballCol) then 1 else 0)
  {
  }

  lemma {:induction false} VisitPairKeeps(cfg: Config, c: Core, i: nat, j: nat)
    requires Distinct(cfg) && CoreOk(cfg, c) && Bookkeeping(cfg, c)
    requires i < |c.colliders| && j < |c.colliders| && c.colliders[i].isAttached && c.colliders[j].isAttached
    ensures Bookkeeping(cfg, VisitPair(cfg, c, i, j))
  {
    if c.colliders[i].body != c.colliders[j].body {
      if c.colliders[j].isTrigger || c.colliders[i].isTrigger {
        VisitTriggerKeeps(cfg, c, i, j);
      } else {
        CollisionKeepsBooks(cfg, c, i, j);
      }
    }
  }

  lemma CollisionKeepsBooks(cfg: Config, c: Core, i: nat, j: nat)
    requires CoreOk(cfg, c) && Collidable(c, i, j)
    ensures SameBooks(c, OnCollisionEnter(cfg, ResolveContact(cfg, c, i, j), i, j))
  {
  }

  lemma {:induction false} VisitAgainstKeeps(cfg: Config, c: Core, es: seq<Entry>, i: nat, j: nat)
    requires Distinct(cfg) && CoreOk(cfg, c) && EntriesOk(c, es) && i < |es| && j <= |es| && Bookkeeping(cfg, c)
    ensures Bookkeeping(cfg, VisitAgainst(cfg, c, es, i, j))
    decreases |es| - j
  {
    hide Bookkeeping, Distinct, VisitPair, SetupOf, AllInPlace;
    if j < |es| {
      VisitPairKeeps(cfg, c, es[i].collider, es[j].collider);
      var c' := VisitPair(cfg, c, es[i].collider, es[j].collider);
      SameSetup(cfg, c, c');
      VisitAgainstKeeps(cfg, c', es, i, j + 1);
    }
  }

  lemma {:induction false} VisitLeafKeeps(cfg: Config, c: Core, es: seq<Entry>, i: nat)
    requires Distinct(cfg) && CoreOk(cfg, c) && EntriesOk(c, es) && i <= |es| && Bookkeeping(cfg, c)
    ensures Bookkeeping(cfg, VisitLeaf(cfg, c, es, i))
    decreases |es| - i
  {
    hide Bookkeeping, Distinct, VisitAgainst, SetupOf, AllInPlace;
    if i < |es| {
      VisitAgainstKeeps(cfg, c, es, i, i + 1);
      var c' := VisitAgainst(cfg, c, es, i, i + 1);
      SameSetup(cfg, c, c');
      VisitLeafKeeps(cfg, c', es, i + 1);
    }
  }

  lemma {:induction false} VisitLeavesKeeps(cfg: Config, c: Core, leaves: seq<Tree>)
    requires Distinct(cfg) && CoreOk(cfg, c) && LeavesOk(c, leaves) && Bookkeeping(cfg, c)
    ensures Bookkeeping(cfg, VisitLeaves(cfg, c, leaves))
    decreases |leaves|
  {
    hide Bookkeeping, Distinct, VisitLeaf, SetupOf, AllInPlace;
    if leaves != [] {
      VisitLeafKeeps(cfg, c, leaves[0].entries, 0);
      var c' := VisitLeaf(cfg, c, leaves[0].entries, 0);
      SameSetup(cfg, c, c');
      VisitLeavesKeeps(cfg, c', leaves[1..]);
    }
  }

  lemma TickedKeeps(cfg: Config, c: Core)
    requires Distinct(cfg) && CoreOk(cfg, c) && Bookkeeping(cfg, c)
    ensures Bookkeeping(cfg, Ticked(cfg, c))
  {
    var placed := PlaceColliders(cfg, UpdateBodies(cfg, c, FIXED_DELTA_TIME));
    assert SameBooks(c, placed);
    LeavesOfTreeOk(cfg, placed);
    VisitLeavesKeeps(cfg, placed, Leaves(TreeOf(cfg, placed)));
  }

  lemma {:induction false} InputsKeepBooks(cfg: Config, g: Game, c: Core)
    requires CoreOk(cfg, c)
    ensures SameBooks(c, ProcessInput(cfg, g, c))
  {
    var i1, i2 := g.input, g.otherInput;
    if g.playerNbr == 0 {
      BlueInputIs(cfg, c, i1);
      RedInputIs(cfg, BlueInput(cfg, c, i1), i2);
    } else {
      RedInputIs(cfg, c, i1);
      BlueInputIs(cfg, RedInput(cfg, c, i1), i2);
    }
  }

  lemma {:induction false} AfterInputsKeepBooks(cfg: Config, blue: Input, red: Input, c: Core, n: nat)
    requires CoreOk(cfg, c) && n <= |cfg.colRefs|
    ensures SameBooks(c, AfterInputs(cfg, blue, red, c, n))
  {
    if n > 0 {
      AfterInputsKeepBooks(cfg, blue, red, c, n - 1);
      var c' := AfterInputs(cfg, blue, red, c, n - 1);
      SameSetup(cfg, c, c');
      AfterInputKeepsBooks(cfg, blue, red, c', cfg.colRefs[n - 1]);
    }
  }

  lemma AfterInputKeepsBooks(cfg: Config, blue: Input, red: Input, c: Core, col: nat)
    requires CoreOk(cfg, c) && col < |c.colliders|
    ensures SameBooks(c, AfterInput(cfg, blue, red, c, col))
  {
  }

  lemma {:induction false} FixedUpdateKeeps(cfg: Config, g: Game)
    requires Distinct(cfg) && CoreOk(cfg, g.core) && Bookkeeping(cfg, g.core)
    ensures Bookkeeping(cfg, FixedUpdate(cfg, g).core)
  {
    if g.inGame {
      TickedKeeps(cfg, g.core);
      var c := Ticked(cfg, g.core);
      InputsKeepBooks(cfg, g, c);
      AfterInputsKeepBooks(cfg, BlueOf(g), RedOf(g), ProcessInput(cfg, g, c), |cfg.colRefs|);
    }
  }

  // ----- runs with rollbacks -----

  /** What happens to the two games of a peer: the shown or the confirmed game plays a frame, or the
      shown one is rolled back to the confirmed one. */
  datatype Move = Show(blue: Input, red: Input) | Confirm(blue: Input, red: Input) | RollBack
  datatype Games = Games(shown: Game, confirmed: Game)

  predicate GamesOk(cfg: Config, s: Games) { CoreOk(cfg, s.shown.core) && CoreOk(cfg, s.confirmed.core) }

  function After(cfg: Config, s: Games, moves: seq<Move>): (s': Games)
    requires GamesOk(cfg, s)
    ensures GamesOk(cfg, s')
  {
    if moves == [] then s
    else
      var before := After(cfg, s, moves[..|moves| - 1]);
      match moves[|moves| - 1]
      case Show(blue, red) => before.(shown := PlayInputs(cfg, before.shown, blue, red))
      case Confirm(blue, red) => before.(confirmed := PlayInputs(cfg, before.confirmed, blue, red))
      case RollBack => before.(shown := Copy(before.shown, before.confirmed))
  }

  /** Over every run, including rollbacks, the books of both games are in order. */
  lemma {:induction false} BookkeepingOverRuns(cfg: Config, s: Games, moves: seq<Move>)
    requires Distinct(cfg) && GamesOk(cfg, s)
    requires Bookkeeping(cfg, s.shown.core) && Bookkeeping(cfg, s.confirmed.core)
    ensures Bookkeeping(cfg, After(cfg, s, moves).shown.core) && Bookkeeping(cfg, After(cfg, s, moves).confirmed.core)
    decreases |moves|
  {
    hide Bookkeeping, Distinct, FixedUpdate, CoreOk;
    if moves != [] {
      var rest := moves[..|moves| - 1];
      BookkeepingOverRuns(cfg, s, rest);
      var before := After(cfg, s, rest);
      match moves[|moves| - 1] {
        case Show(blue, red) => FixedUpdateKeeps(cfg, WithPlayers(before.shown, blue, red));
        case Confirm(blue, red) => FixedUpdateKeeps(cfg, WithPlayers(before.confirmed, blue, red));
        case RollBack =>
      }
    }
  }

  // ----- alternation -----

  lemma {:induction false} PrefixOpen(events: seq<Event>, n: nat)
    requires n <= |events| && OpenAfter(events).Open?
    ensures OpenAfter(events[..n]).Open?
    decreases |events|
  {
    if n < |events| {
      var rest := events[..|events| - 1];
      PrefixOpen(rest, n);
      assert rest[..n] == events[..n];
    } else {
      assert events[..n] == events;
    }
  }

  /** A pair without events in between stays as it is. */
  lemma {:induction false} Untouched(events: seq<Event>, i: nat, j: nat, p: Pair)
    requires i <= j <= |events| && OpenAfter(events).Open?
    requires forall k :: i <= k < j ==> events[k].pair != p
    ensures OpenAfter(events[..i]).Open? && OpenAfter(events[..j]).Open?
    ensures p in OpenAfter(events[..i]).pairs <==> p in OpenAfter(events[..j]).pairs
    decreases j
  {
    PrefixOpen(events, i);
    PrefixOpen(events, j);
    if i < j {
      Untouched(events, i, j - 1, p);
      assert events[..j][..j - 1] == events[..j - 1];
    }
  }

  /** Event `j` is the next one of the pair of event `i`. */
  ghost predicate NextOfPair(events: seq<Event>, i: int, j: int) {
    && 0 <= i < j < |events| && events[i].pair == events[j].pair
    && forall k :: i < k < j ==> events[k].pair != events[i].pair
  }

  ghost predicate FirstOfPair(events: seq<Event>, j: int) {
    && 0 <= j < |events|
    && forall k :: 0 <= k < j ==> events[k].pair != events[j].pair
  }

  /** Each pair is entered first, and then its exits and enters take turns. */
  ghost predicate Alternating(events: seq<Event>) {
    && (forall j :: FirstOfPair(events, j) ==> events[j].Enter?)
    && (forall i, j :: NextOfPair(events, i, j) ==> (events[i].Enter? <==> events[j].Exit?))
  }

  lemma EventsAlternate(cfg: Config, c: Core)
    requires Bookkeeping(cfg, c)
    ensures Alternating(c.events)
  {
    forall j | FirstOfPair(c.events, j) ensures c.events[j].Enter? {
      FirstEventEnters(c.events, j);
    }
    forall i, j | NextOfPair(c.events, i, j) ensures c.events[i].Enter? <==> c.events[j].Exit? {
      NextEventAlternates(c.events, i, j);
    }
  }

  lemma NextEventAlternates(es: seq<Event>, i: nat, j: nat)
    requires OpenAfter(es).Open? && NextOfPair(es, i, j)
    ensures es[i].Enter? <==> es[j].Exit?
  {
    Untouched(es, i + 1, j, es[i].pair);
    PrefixOpen(es, i);
    PrefixOpen(es, j + 1);
    assert es[..i + 1][..i] == es[..i] && es[..j + 1][..j] == es[..j];
  }

  lemma FirstEventEnters(es: seq<Event>, j: nat)
    requires OpenAfter(es).Open? && FirstOfPair(es, j)
    ensures es[j].Enter?
  {
    Untouched(es, 0, j, es[j].pair);
    PrefixOpen(es, j + 1);
    assert es[..j + 1][..j] == es[..j];
  }

  // ----- a match -----

  /** A core as a new match starts with it. */
  predicate NewMatch(c: Core) {
    c.events == [] && c.pairs == {} && !c.canBlueKick && !c.canRedKick && c.blueScore == 0 && c.redScore == 0
  }

  /** In every match, whatever is shown, confirmed and rolled back: the books of both games are in order,
      and enters and exits alternate for each pair. */
  lemma {:induction false} TriggersOverMatch(cfg: Config, s: Games, moves: seq<Move>)
    requires Distinct(cfg) && GamesOk(cfg, s) && NewMatch(s.shown.core) && NewMatch(s.confirmed.core)
    ensures var s' := After(cfg, s, moves);
            && Bookkeeping(cfg, s'.shown.core) && Alternating(s'.shown.core.events)
            && Bookkeeping(cfg, s'.confirmed.core) && Alternating(s'.confirmed.core.events)
  {
    hide Alternating;
    BookkeepingOverRuns(cfg, s, moves);
    EventsAlternate(cfg, After(cfg, s, moves).shown.core);
    EventsAlternate(cfg, After(cfg, s, moves).confirmed.core);
  }
}
