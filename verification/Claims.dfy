/** How consumers of the multi-producer queue claim elements of one producer: the optimistic count and
    the overcommit correction of `dequeue_bulk` (libs/TracyProfiler/client/tracy_concurrentqueue.h),
    one atomic access at a time, under every interleaving. Counters are unbounded. */
module Claims {

  // At most this many elements are taken at once.
  const MAX_BULK := 8192

  /** One execution of the optimistic `fetch_add`: the count it returned, how much it added, the
      overcommit its consumer had read, how much of it turned out to be available, and how far the
      consumer has come with it. */
  datatype Ticket = Ticket(count: int, desired: nat, overcommit: int, granted: nat, stage: Stage)
  datatype Stage = Drawn | Sized | Corrected | Claimed

  /** Where a consumer is in `dequeue_bulk`, with its local variables. */
  datatype Phase =
    | Idle
    | SeenTail(tail: int)
    | SeenOvercommit(tail: int, overcommit: int)
    | Wanting(desired: nat, overcommit: int)
    | Holding(ticket: nat)

  /** The shared counters, the consumers, all tickets in the order they were drawn, and the claimed
      ranges in the order of their `fetch_add` on the head index. */
  datatype State = State(
    tail: int, head: int, optimistic: int, overcommit: int,
    consumers: seq<Phase>,
    tickets: seq<Ticket>,
    claims: seq<Range>)
  datatype Range = Range(first: int, count: nat)

  /** The producer publishes one element, or a consumer does its next atomic access. */
  datatype Event = Publish | Advance(consumer: nat)

  function Min(a: int, b: int): int { if a < b then a else b }

  function Start(consumers: nat): State {
    State(0, 0, 0, 0, seq(consumers, i => Idle), [], [])
  }

  function Next(s: State, e: Event): State {
    match e
    case Publish => s.(tail := s.tail + 1)
    case Advance(c) => if c < |s.consumers| then AdvanceConsumer(s, c) else s
  }

  function AdvanceConsumer(s: State, c: nat): State
    requires c < |s.consumers|
  {
    match s.consumers[c]
    case Idle => s.(consumers := s.consumers[c := SeenTail(s.tail)])
    case SeenTail(tail) => s.(consumers := s.consumers[c := SeenOvercommit(tail, s.overcommit)])
    case SeenOvercommit(tail, overcommit) =>
      var desired := tail - (s.optimistic - overcommit);
      s.(consumers := s.consumers[c := if desired > 0 then Wanting(Min(desired, MAX_BULK), overcommit) else Idle])
    case Wanting(desired, overcommit) =>
      s.(optimistic := s.optimistic + desired,
         tickets := s.tickets + [Ticket(s.optimistic, desired, overcommit, 0, Drawn)],
         consumers := s.consumers[c := Holding(|s.tickets|)])
    case Holding(k) => if k < |s.tickets| then AdvanceTicket(s, c, k) else s
  }

  /** The second half of `dequeue_bulk`: read the tail again, give back what is not there, claim. */
  function AdvanceTicket(s: State, c: nat, k: nat): State
    requires c < |s.consumers| && k < |s.tickets|
  {
    var t := s.tickets[k];
    match t.stage
    case Drawn =>
      var available := s.tail - (t.count - t.overcommit);
      s.(tickets := s.tickets[k := t.(granted := if available > 0 then Min(t.desired, available) else 0, stage := Sized)])
    case Sized =>
      s.(overcommit := s.overcommit + (t.desired - t.granted),
         tickets := s.tickets[k := t.(stage := Corrected)],
         consumers := if t.granted > 0 then s.consumers else s.consumers[c := Idle])
    case Corrected =>
      s.(head := s.head + t.granted,
         tickets := s.tickets[k := t.(stage := Claimed)],
         claims := s.claims + [Range(s.head, t.granted)],
         consumers := s.consumers[c := Idle])
    case Claimed => s
  }

  function Run(consumers: nat, events: seq<Event>): State {
    if events == [] then Start(consumers)
    else Next(Run(consumers, events[..|events| - 1]), events[|events| - 1])
  }

  // ----- sums over tickets -----

  function Desired(t: Ticket): int { t.desired }
  function Granted(t: Ticket): int { if t.stage == Drawn then 0 else t.granted }
  function GivenBack(t: Ticket): int { if t.stage == Drawn then 0 else t.desired - t.granted }
  function Returned(t: Ticket): int { if t.stage == Drawn || t.stage == Sized then 0 else t.desired - t.granted }
  function Taken(t: Ticket): int { if t.stage == Claimed then t.granted else 0 }
  /** What a ticket still stands for in the optimistic count. */
  function Pending(t: Ticket): int { t.desired - Returned(t) - Taken(t) }

  function Sum(f: Ticket -> int, ts: seq<Ticket>): int {
    if ts == [] then 0 else Sum(f, ts[..|ts| - 1]) + f(ts[|ts| - 1])
  }

  lemma SumAppend(f: Ticket -> int, ts: seq<Ticket>, t: Ticket)
    ensures Sum(f, ts + [t]) == Sum(f, ts) + f(t)
  {
    assert (ts + [t])[..|ts|] == ts;
  }

  lemma {:induction false} SumUpdate(f: Ticket -> int, ts: seq<Ticket>, k: nat, t: Ticket)
    requires k < |ts|
    ensures Sum(f, ts[k := t]) == Sum(f, ts) - f(ts[k]) + f(t)
    decreases |ts|
  {
    var n := |ts| - 1;
    if k < n {
      SumUpdate(f, ts[..n], k, t);
      assert ts[k := t][..n] == ts[..n][k := t];
    } else {
      assert ts[k := t][..n] == ts[..n];
    }
  }

  /** Pointwise smaller summands have a smaller sum. */
  lemma {:induction false} SumMonotone(f: Ticket -> int, g: Ticket -> int, ts: seq<Ticket>)
    requires forall k :: 0 <= k < |ts| ==> f(ts[k]) <= g(ts[k])
    ensures Sum(f, ts) <= Sum(g, ts)
    decreases |ts|
  {
    if ts != [] {
      SumMonotone(f, g, ts[..|ts| - 1]);
    }
  }

  lemma {:induction false} SumOfSum(f: Ticket -> int, g: Ticket -> int, h: Ticket -> int, ts: seq<Ticket>)
    requires forall k :: 0 <= k < |ts| ==> f(ts[k]) + g(ts[k]) <= h(ts[k])
    ensures Sum(f, ts) + Sum(g, ts) <= Sum(h, ts)
    decreases |ts|
  {
    if ts != [] {
      SumOfSum(f, g, h, ts[..|ts| - 1]);
    }
  }

  // ----- the invariant -----

  /** Tickets split the optimistic count among them; each saw at most the overcommit of earlier ones, and
      was granted no more than there was. */
  predicate TicketOk(ts: seq<Ticket>, k: nat, tail: int)
    requires k < |ts|
  {
    var t := ts[k];
    && t.count == Sum(Desired, ts[..k])
    && t.overcommit <= Sum(GivenBack, ts[..k])
    && t.granted <= t.desired
    && (t.stage != Drawn && t.granted > 0 ==> t.count - t.overcommit + t.granted <= tail)
  }

  predicate TicketsOk(ts: seq<Ticket>, tail: int) {
    forall k :: 0 <= k < |ts| ==> TicketOk(ts, k, tail)
  }

  predicate CountersOk(s: State) {
    && s.optimistic == Sum(Desired, s.tickets)
    && s.overcommit == Sum(Returned, s.tickets)
    && s.head == Sum(Taken, s.tickets)
  }

  /** A consumer's locals: an overcommit it has read is not larger than the current one, and a ticket it
      holds is not finished. */
  predicate PhaseOk(s: State, p: Phase) {
    match p
    case SeenOvercommit(_, overcommit) => overcommit <= s.overcommit
    case Wanting(_, overcommit) => overcommit <= s.overcommit
    case Holding(k) =>
      && k < |s.tickets| && s.tickets[k].stage != Claimed
      && (s.tickets[k].stage == Corrected ==> s.tickets[k].granted > 0)
    case _ => true
  }

  predicate ConsumersOk(s: State) {
    && (forall c :: 0 <= c < |s.consumers| ==> PhaseOk(s, s.consumers[c]))
    && (forall c, d :: 0 <= c < |s.consumers| && 0 <= d < |s.consumers| && c != d ==>
          s.consumers[c].Holding? && s.consumers[d].Holding? ==> s.consumers[c].ticket != s.consumers[d].ticket)
  }

  /** The claimed ranges follow one another from 0 up to the head. */
  predicate ClaimsOk(claims: seq<Range>, head: int) {
    && (claims == [] ==> head == 0)
    && (claims != [] ==> claims[0].first == 0 && End(claims[|claims| - 1]) == head)
    && (forall i :: 0 <= i < |claims| - 1 ==> End(claims[i]) == claims[i + 1].first)
  }

  function End(r: Range): int { r.first + r.count }

  predicate Inv(s: State) {
    TicketsOk(s.tickets, s.tail) && CountersOk(s) && ConsumersOk(s) && ClaimsOk(s.claims, s.head)
  }

  lemma StartOk(consumers: nat)
    ensures Inv(Start(consumers))
  {
  }

  /** Giving back more can only raise the bound on what later tickets may have seen. */
  lemma UpdatedTicketOk(ts: seq<Ticket>, k: nat, t: Ticket, tail: int)
    requires k < |ts| && TicketsOk(ts, tail)
    requires t.count == ts[k].count && t.desired == ts[k].desired && t.overcommit == ts[k].overcommit
    requires t.granted <= t.desired
    requires t.stage != Drawn && t.granted > 0 ==> t.count - t.overcommit + t.granted <= tail
    requires GivenBack(ts[k]) <= GivenBack(t)
    ensures TicketsOk(ts[k := t], tail)
  {
    var ts' := ts[k := t];
    forall j | 0 <= j < |ts| ensures TicketOk(ts', j, tail) {
      assert TicketOk(ts, j, tail);
      if k < j {
        assert ts'[..j] == ts[..j][k := t];
        SumUpdate(Desired, ts[..j], k, t);
        SumUpdate(GivenBack, ts[..j], k, t);
      } else {
        assert ts'[..j] == ts[..j];
      }
    }
  }

  lemma DrawOk(s: State, desired: nat, overcommit: int)
    requires TicketsOk(s.tickets, s.tail) && CountersOk(s) && overcommit <= s.overcommit
    ensures var t := Ticket(s.optimistic, desired, overcommit, 0, Drawn);
            && TicketsOk(s.tickets + [t], s.tail)
            && CountersOk(s.(tickets := s.tickets + [t], optimistic := s.optimistic + desired))
  {
    var t := Ticket(s.optimistic, desired, overcommit, 0, Drawn);
    var ts := s.tickets + [t];
    forall k | 0 <= k < |s.tickets| ensures Returned(s.tickets[k]) <= GivenBack(s.tickets[k]) {
      assert TicketOk(s.tickets, k, s.tail);
    }
    SumMonotone(Returned, GivenBack, s.tickets);
    forall j | 0 <= j < |ts| ensures TicketOk(ts, j, s.tail) {
      assert ts[..j] == s.tickets[..j];
      assert s.tickets[..|s.tickets|] == s.tickets;
      assert j < |s.tickets| ==> TicketOk(s.tickets, j, s.tail);
    }
    SumAppend(Desired, s.tickets, t);
    SumAppend(Returned, s.tickets, t);
    SumAppend(Taken, s.tickets, t);
  }

  lemma TicketStepOk(s: State, c: nat, k: nat)
    requires Inv(s) && c < |s.consumers| && s.consumers[c] == Holding(k)
    ensures TicketsOk(AdvanceTicket(s, c, k).tickets, s.tail) && CountersOk(AdvanceTicket(s, c, k))
  {
    var t, t' := s.tickets[k], AdvanceTicket(s, c, k).tickets[k];
    assert PhaseOk(s, s.consumers[c]) && TicketOk(s.tickets, k, s.tail);
    UpdatedTicketOk(s.tickets, k, t', s.tail);
    SumUpdate(Desired, s.tickets, k, t');
    SumUpdate(Returned, s.tickets, k, t');
    SumUpdate(Taken, s.tickets, k, t');
  }

  lemma TicketConsumersOk(s: State, c: nat, k: nat)
    requires Inv(s) && c < |s.consumers| && s.consumers[c] == Holding(k)
    ensures ConsumersOk(AdvanceTicket(s, c, k))
  {
    var s' := AdvanceTicket(s, c, k);
    assert PhaseOk(s, s.consumers[c]) && TicketOk(s.tickets, k, s.tail);
    forall d | 0 <= d < |s'.consumers| ensures PhaseOk(s', s'.consumers[d]) {
      assert PhaseOk(s, s.consumers[d]);
      if d != c {
        assert s'.consumers[d] == s.consumers[d];
        assert s.consumers[d].Holding? ==> s.consumers[d].ticket != s.consumers[c].ticket;
      }
    }
  }

  lemma ConsumersStepOk(s: State, c: nat)
    requires Inv(s) && c < |s.consumers| && !s.consumers[c].Holding?
    ensures ConsumersOk(AdvanceConsumer(s, c))
  {
    var s' := AdvanceConsumer(s, c);
    assert PhaseOk(s, s.consumers[c]);
    forall d | 0 <= d < |s'.consumers| ensures PhaseOk(s', s'.consumers[d]) {
      assert PhaseOk(s, s.consumers[d]);
    }
    forall d | 0 <= d < |s'.consumers| && d != c && s'.consumers[d].Holding?
      ensures s'.consumers[c].Holding? ==> s'.consumers[d].ticket != s'.consumers[c].ticket
    {
      assert PhaseOk(s, s.consumers[d]);
    }
  }

  lemma AdvanceOk(s: State, c: nat)
    requires Inv(s) && c < |s.consumers|
    ensures Inv(AdvanceConsumer(s, c))
  {
    assert PhaseOk(s, s.consumers[c]);
    if s.consumers[c].Holding? {
      TicketConsumersOk(s, c, s.consumers[c].ticket);
      TicketStepOk(s, c, s.consumers[c].ticket);
      ClaimsStepOk(s, c, s.consumers[c].ticket);
    } else {
      ConsumersStepOk(s, c);
      if s.consumers[c].Wanting? {
        DrawOk(s, s.consumers[c].desired, s.consumers[c].overcommit);
      }
    }
  }

  lemma ClaimsStepOk(s: State, c: nat, k: nat)
    requires ClaimsOk(s.claims, s.head) && c < |s.consumers| && k < |s.tickets|
    ensures ClaimsOk(AdvanceTicket(s, c, k).claims, AdvanceTicket(s, c, k).head)
  {
  }

  lemma PublishOk(s: State)
    requires Inv(s)
    ensures Inv(Next(s, Publish))
  {
    var tail := s.tail + 1;
    forall k | 0 <= k < |s.tickets| ensures TicketOk(s.tickets, k, tail) {
      assert TicketOk(s.tickets, k, s.tail);
    }
    forall c | 0 <= c < |s.consumers| ensures PhaseOk(Next(s, Publish), s.consumers[c]) {
      assert PhaseOk(s, s.consumers[c]);
    }
  }

  lemma {:induction false} RunOk(consumers: nat, events: seq<Event>)
    ensures Inv(Run(consumers, events))
    decreases |events|
  {
    if events == [] {
      StartOk(consumers);
    } else {
      var before := events[..|events| - 1];
      RunOk(consumers, before);
      match events[|events| - 1] {
        case Publish => PublishOk(Run(consumers, before));
        case Advance(c) => if c < |Run(consumers, before).consumers| { AdvanceOk(Run(consumers, before), c); }
      }
    }
  }

  // ----- safety -----

  /** What the tickets have been granted never exceeds the tail. The last ticket that got something bounds
      everything before it: earlier tickets together take at most its count minus their overcommit. */
  lemma {:induction false} GrantedFits(ts: seq<Ticket>, n: nat, tail: int)
    requires n <= |ts| && TicketsOk(ts, tail) && 0 <= tail
    ensures Sum(Granted, ts[..n]) <= tail
    decreases n
  {
    if n > 0 {
      var k := n - 1;
      assert TicketOk(ts, k, tail);
      assert ts[..n][..k] == ts[..k];
      if Granted(ts[k]) == 0 {
        GrantedFits(ts, k, tail);
      } else {
        forall j | 0 <= j < k ensures Granted(ts[..k][j]) + GivenBack(ts[..k][j]) <= Desired(ts[..k][j]) {
          assert TicketOk(ts, j, tail);
        }
        SumOfSum(Granted, GivenBack, Desired, ts[..k]);
      }
    }
  }

  lemma {:induction false} TailNonNegative(consumers: nat, events: seq<Event>)
    ensures Run(consumers, events).tail >= 0
    decreases |events|
  {
    if events != [] {
      TailNonNegative(consumers, events[..|events| - 1]);
    }
  }

  /** The head never passes the tail, not even with all claims that are still under way. */
  lemma HeadNeverPassesTail(consumers: nat, events: seq<Event>)
    ensures var s := Run(consumers, events);
            0 <= s.head <= Sum(Granted, s.tickets) <= s.tail
  {
    var s := Run(consumers, events);
    RunOk(consumers, events);
    TailNonNegative(consumers, events);
    GrantedFits(s.tickets, |s.tickets|, s.tail);
    assert s.tickets[..|s.tickets|] == s.tickets;
    SumMonotone(Taken, Granted, s.tickets);
    SumMonotone(t => 0, Taken, s.tickets);
    SumOfZeros(s.tickets);
  }

  lemma {:induction false} SumOfZeros(ts: seq<Ticket>)
    ensures Sum(t => 0, ts) == 0
    decreases |ts|
  {
    if ts != [] {
      SumOfZeros(ts[..|ts| - 1]);
    }
  }

  // ----- the balance of the two counts -----

  predicate Holds(s: State, c: nat, k: nat) { c < |s.consumers| && s.consumers[c] == Holding(k) }
  ghost predicate Held(s: State, k: nat) { exists c: nat :: Holds(s, c, k) }

  /** A ticket stands for something exactly as long as a consumer inside `dequeue_bulk` holds it. */
  ghost predicate PendingIsHeld(s: State) {
    && (forall c :: 0 <= c < |s.consumers| && s.consumers[c].Wanting? ==> s.consumers[c].desired > 0)
    && (forall k: nat :: k < |s.tickets| ==> (Pending(s.tickets[k]) != 0 <==> Held(s, k)))
  }

  /** What a consumer still stands for in the optimistic count, and all of them together. */
  function InHand(ts: seq<Ticket>, p: Phase): int {
    if p.Holding? && p.ticket < |ts| then Pending(ts[p.ticket]) else 0
  }

  function InFlight(ts: seq<Ticket>, consumers: seq<Phase>): int {
    if consumers == [] then 0
    else InFlight(ts, consumers[..|consumers| - 1]) + InHand(ts, consumers[|consumers| - 1])
  }

  /** A step of one consumer that leaves what the others hold alone. */
  lemma {:induction false} InFlightUpdate(ts: seq<Ticket>, ts': seq<Ticket>, consumers: seq<Phase>, c: nat, p: Phase)
    requires c < |consumers|
    requires forall d :: 0 <= d < |consumers| && d != c ==> InHand(ts', consumers[d]) == InHand(ts, consumers[d])
    ensures InFlight(ts', consumers[c := p]) == InFlight(ts, consumers) - InHand(ts, consumers[c]) + InHand(ts', p)
    decreases |consumers|
  {
    var n := |consumers| - 1;
    if c < n {
      InFlightUpdate(ts, ts', consumers[..n], c, p);
      assert consumers[c := p][..n] == consumers[..n][c := p];
    } else {
      assert consumers[c := p][..n] == consumers[..n];
      SameInFlight(ts, ts', consumers[..n]);
    }
  }

  lemma {:induction false} SameInFlight(ts: seq<Ticket>, ts': seq<Ticket>, consumers: seq<Phase>)
    requires forall d :: 0 <= d < |consumers| ==> InHand(ts', consumers[d]) == InHand(ts, consumers[d])
    ensures InFlight(ts', consumers) == InFlight(ts, consumers)
    decreases |consumers|
  {
    if consumers != [] {
      SameInFlight(ts, ts', consumers[..|consumers| - 1]);
    }
  }

  lemma {:induction false} NothingInFlight(ts: seq<Ticket>, consumers: seq<Phase>)
    requires forall d :: 0 <= d < |consumers| ==> !consumers[d].Holding?
    ensures InFlight(ts, consumers) == 0
    decreases |consumers|
  {
    if consumers != [] {
      NothingInFlight(ts, consumers[..|consumers| - 1]);
    }
  }

  predicate Balanced(s: State) {
    s.optimistic - s.overcommit == s.head + InFlight(s.tickets, s.consumers)
  }

  /** One access moves exactly as much out of a consumer's hands as it moves the counts. */
  lemma BalanceStepOk(s: State, c: nat)
    requires Inv(s) && Balanced(s) && c < |s.consumers|
    ensures Balanced(AdvanceConsumer(s, c))
  {
    hide TicketOk, CountersOk, ClaimsOk, Sum;
    var s' := AdvanceConsumer(s, c);
    forall d | 0 <= d < |s.consumers| && d != c
      ensures InHand(s'.tickets, s.consumers[d]) == InHand(s.tickets, s.consumers[d])
    {
      assert PhaseOk(s, s.consumers[d]) && PhaseOk(s, s.consumers[c]);
    }
    InFlightUpdate(s.tickets, s'.tickets, s.consumers, c, s'.consumers[c]);
    assert s'.consumers == s.consumers[c := s'.consumers[c]];
    assert PhaseOk(s, s.consumers[c]);
  }

  lemma PendingStepOk(s: State, c: nat)
    requires Inv(s) && PendingIsHeld(s) && c < |s.consumers|
    ensures PendingIsHeld(AdvanceConsumer(s, c))
  {
    hide CountersOk, ClaimsOk, Sum;
    var s' := AdvanceConsumer(s, c);
    assert PhaseOk(s, s.consumers[c]);
    forall k: nat | k < |s'.tickets| ensures Pending(s'.tickets[k]) != 0 <==> Held(s', k) {
      if s.consumers[c] == Holding(k) {
        HeldTicketStep(s, c, k);
      } else if k < |s.tickets| {
        OtherTicketStep(s, c, k);
      } else {
        assert Holds(s', c, k);
      }
    }
  }

  lemma HeldTicketStep(s: State, c: nat, k: nat)
    requires Inv(s) && PendingIsHeld(s) && c < |s.consumers| && s.consumers[c] == Holding(k) && k < |s.tickets|
    ensures var s' := AdvanceConsumer(s, c); Pending(s'.tickets[k]) != 0 <==> Held(s', k)
  {
    hide CountersOk, ClaimsOk, Sum;
    var s' := AdvanceConsumer(s, c);
    assert PhaseOk(s, s.consumers[c]) && TicketOk(s.tickets, k, s.tail);
    assert Holds(s, c, k) && Held(s, k);
    if Pending(s'.tickets[k]) != 0 {
      assert Holds(s', c, k);
    } else {
      forall d: nat ensures !Holds(s', d, k) {
        assert Holds(s, d, k) ==> d == c;
      }
    }
  }

  lemma OtherTicketStep(s: State, c: nat, k: nat)
    requires Inv(s) && PendingIsHeld(s) && c < |s.consumers| && s.consumers[c] != Holding(k) && k < |s.tickets|
    ensures var s' := AdvanceConsumer(s, c); Pending(s'.tickets[k]) != 0 <==> Held(s', k)
  {
    hide CountersOk, ClaimsOk, Sum, TicketOk;
    var s' := AdvanceConsumer(s, c);
    assert PhaseOk(s, s.consumers[c]);
    assert s'.tickets[k] == s.tickets[k];
    if Held(s, k) {
      var d: nat :| Holds(s, d, k);
      assert d != c && Holds(s', d, k);
    }
    if Held(s', k) {
      var d: nat :| Holds(s', d, k);
      assert d != c && Holds(s, d, k);
    }
  }

  lemma {:induction false} RunBalanced(consumers: nat, events: seq<Event>)
    ensures Balanced(Run(consumers, events)) && PendingIsHeld(Run(consumers, events))
    decreases |events|
  {
    hide Inv, Balanced, PendingIsHeld, AdvanceConsumer;
    if events == [] {
      StartBalanced(consumers);
    } else {
      var before := events[..|events| - 1];
      var s := Run(consumers, before);
      RunBalanced(consumers, before);
      RunOk(consumers, before);
      match events[|events| - 1] {
        case Publish => PublishBalanced(s);
        case Advance(c) => if c < |s.consumers| { BalanceStepOk(s, c); PendingStepOk(s, c); }
      }
    }
  }

  lemma StartBalanced(consumers: nat)
    ensures Balanced(Start(consumers)) && PendingIsHeld(Start(consumers))
  {
    NothingInFlight([], Start(consumers).consumers);
  }

  lemma PublishBalanced(s: State)
    requires Balanced(s) && PendingIsHeld(s)
    ensures Balanced(Next(s, Publish)) && PendingIsHeld(Next(s, Publish))
  {
    forall k: nat | k < |s.tickets| ensures Held(Next(s, Publish), k) <==> Held(s, k) {
      assert forall c: nat :: Holds(Next(s, Publish), c, k) <==> Holds(s, c, k);
    }
  }

  lemma HeldByOne(s: State, k: nat)
    requires Inv(s) && PendingIsHeld(s) && k < |s.tickets|
    ensures Pending(s.tickets[k]) != 0 <==> exists c: nat :: Holds(s, c, k) && forall d: nat :: Holds(s, d, k) ==> d == c
  {
    hide TicketsOk, CountersOk, ClaimsOk, PhaseOk;
    if Held(s, k) {
      var c: nat :| Holds(s, c, k);
      assert forall d: nat :: Holds(s, d, k) ==> d == c;
    }
  }

  /** In every run, a ticket still stands for something if and only if exactly one consumer inside
      `dequeue_bulk` holds it: none is ever abandoned, and none is shared. */
  lemma PendingHeldByOne(consumers: nat, events: seq<Event>, k: nat)
    requires k < |Run(consumers, events).tickets|
    ensures var s := Run(consumers, events);
            Pending(s.tickets[k]) != 0 <==> exists c: nat :: Holds(s, c, k) && forall d: nat :: Holds(s, d, k) ==> d == c
  {
    hide Run, Inv, PendingIsHeld;
    RunOk(consumers, events);
    RunBalanced(consumers, events);
    HeldByOne(Run(consumers, events), k);
  }

  /** In every run, optimistic count minus overcommit is the head plus what the consumers inside
      `dequeue_bulk` still stand for. */
  lemma CountBalance(consumers: nat, events: seq<Event>)
    ensures var s := Run(consumers, events);
            s.optimistic - s.overcommit == s.head + InFlight(s.tickets, s.consumers)
  {
    RunBalanced(consumers, events);
  }

  /** Whenever no consumer is between its optimistic `fetch_add` and its claim, the two counts give the head. */
  lemma QuietBalance(consumers: nat, events: seq<Event>)
    requires forall c :: 0 <= c < |Run(consumers, events).consumers| ==> !Run(consumers, events).consumers[c].Holding?
    ensures var s := Run(consumers, events);
            s.optimistic - s.overcommit == s.head
  {
    var s := Run(consumers, events);
    RunBalanced(consumers, events);
    NothingInFlight(s.tickets, s.consumers);
  }

  /** The assertion after the optimistic `fetch_add`: the overcommit read before is not larger. */
  lemma OvercommitBelowCount(consumers: nat, events: seq<Event>, c: nat)
    requires c < |Run(consumers, events).consumers| && Run(consumers, events).consumers[c].Wanting?
    ensures var s := Run(consumers, events);
            s.consumers[c].overcommit <= s.optimistic
  {
    var s := Run(consumers, events);
    RunOk(consumers, events);
    assert PhaseOk(s, s.consumers[c]);
    forall k | 0 <= k < |s.tickets| ensures Returned(s.tickets[k]) <= Desired(s.tickets[k]) {
      assert TicketOk(s.tickets, k, s.tail);
    }
    SumMonotone(Returned, Desired, s.tickets);
  }

  /** Ranges that follow one another lie apart and cover everything below the end. */
  lemma {:induction false} ChainedRanges(claims: seq<Range>, head: int, i: nat, j: nat)
    requires ClaimsOk(claims, head) && i < j < |claims|
    ensures End(claims[i]) <= claims[j].first
    decreases j
  {
    if i < j - 1 {
      ChainedRanges(claims, head, i, j - 1);
    }
  }

  lemma {:induction false} RangeOf(claims: seq<Range>, head: int, x: int) returns (i: nat)
    requires ClaimsOk(claims, head) && 0 <= x < head
    ensures i < |claims| && claims[i].first <= x < End(claims[i])
    decreases |claims|
  {
    var n := |claims| - 1;
    if claims[n].first <= x {
      i := n;
    } else {
      i := RangeOf(claims[..n], claims[n].first, x);
    }
  }

  /** Every element below the head has been claimed by exactly one `dequeue_bulk`, and no element
      outside has been claimed. */
  lemma ClaimedExactlyOnce(consumers: nat, events: seq<Event>, x: int)
    ensures var s := Run(consumers, events);
            && (0 <= x < s.head <==> exists i :: 0 <= i < |s.claims| && s.claims[i].first <= x < End(s.claims[i]))
            && (forall i, j :: 0 <= i < j < |s.claims| ==> End(s.claims[i]) <= s.claims[j].first)
  {
    var s := Run(consumers, events);
    RunOk(consumers, events);
    forall i, j | 0 <= i < j < |s.claims| ensures End(s.claims[i]) <= s.claims[j].first {
      ChainedRanges(s.claims, s.head, i, j);
    }
    if 0 <= x < s.head {
      var i := RangeOf(s.claims, s.head, x);
    }
  }

  // ----- how much a consumer gets -----

  function Published(events: seq<Event>): nat {
    if events == [] then 0
    else Published(events[..|events| - 1]) + if events[|events| - 1].Publish? then 1 else 0
  }

  /** The tail counts the elements published. */
  lemma {:induction false} TailCounts(consumers: nat, events: seq<Event>)
    ensures Run(consumers, events).tail == Published(events)
    decreases |events|
  {
    if events != [] {
      TailCounts(consumers, events[..|events| - 1]);
    }
  }

  /** In every run, the second read of the tail grants a consumer as much as it asked for, or all that is left
      between what earlier executions have drawn, less the overcommit it has read, and the tail. */
  lemma GrantIsExact(consumers: nat, events: seq<Event>, c: nat, k: nat)
    requires var s := Run(consumers, events);
             Holds(s, c, k) && k < |s.tickets| && s.tickets[k].stage == Drawn
    ensures var s, s' := Run(consumers, events), Run(consumers, events + [Advance(c)]);
            && |s'.tickets| == |s.tickets|
            && var t, drawn := s'.tickets[k], Sum(Desired, s.tickets[..k]) - s.tickets[k].overcommit;
            && t == s.tickets[k].(granted := t.granted, stage := Sized) && t.granted <= t.desired
            && (t.granted > 0 ==> drawn + t.granted <= s.tail)
            && (t.granted < t.desired ==> drawn + t.granted >= s.tail)
            && s' == s.(tickets := s.tickets[k := t])
  {
    RunOk(consumers, events);
    OneMore(consumers, events, Advance(c));
    assert TicketOk(Run(consumers, events).tickets, k, Run(consumers, events).tail);
  }

  lemma OneMore(consumers: nat, events: seq<Event>, e: Event)
    ensures Run(consumers, events + [e]) == Next(Run(consumers, events), e)
  {
    assert (events + [e])[..|events|] == events;
  }

  /** Consumer `c` alone makes `n` accesses. */
  function Alone(c: nat, n: nat): seq<Event> { seq(n, i => Advance(c)) }

  lemma {:induction false} AloneOneMore(consumers: nat, events: seq<Event>, c: nat, n: nat)
    requires n > 0
    ensures Run(consumers, events + Alone(c, n)) == Next(Run(consumers, events + Alone(c, n - 1)), Advance(c))
  {
    assert events + Alone(c, n) == (events + Alone(c, n - 1)) + [Advance(c)];
    OneMore(consumers, events + Alone(c, n - 1), Advance(c));
  }

  /** No consumer is between its optimistic `fetch_add` and its claim. */
  predicate Quiet(s: State) {
    forall d :: 0 <= d < |s.consumers| ==> !s.consumers[d].Holding?
  }

  /** The state after a consumer has claimed `n` elements undisturbed. */
  function ClaimedAlone(s: State, n: nat): State {
    s.(head := s.head + n, optimistic := s.optimistic + n, claims := s.claims + [Range(s.head, n)],
       tickets := s.tickets + [Ticket(s.optimistic, n, s.overcommit, n, Claimed)])
  }

  /** The seven accesses of a consumer that nobody disturbs. */
  lemma SevenSteps(s: State, c: nat)
    requires c < |s.consumers| && s.consumers[c].Idle? && s.optimistic - s.overcommit == s.head < s.tail
    ensures var n := Min(s.tail - s.head, MAX_BULK);
            var s1 := Next(s, Advance(c));
            var s2 := Next(s1, Advance(c));
            var s3 := Next(s2, Advance(c));
            var s4 := Next(s3, Advance(c));
            var s5 := Next(s4, Advance(c));
            var s6 := Next(s5, Advance(c));
            n > 0 && Next(s6, Advance(c)) == ClaimedAlone(s, n)
  {
    var n := Min(s.tail - s.head, MAX_BULK);
    var t := Ticket(s.optimistic, n, s.overcommit, 0, Drawn);
    var s3 := s.(consumers := s.consumers[c := Wanting(n, s.overcommit)]);
    var s4 := s3.(optimistic := s.optimistic + n, tickets := s.tickets + [t], consumers := s.consumers[c := Holding(|s.tickets|)]);
    assert Next(Next(Next(s, Advance(c)), Advance(c)), Advance(c)) == s3;
    assert Next(s3, Advance(c)) == s4;
    assert Next(s4, Advance(c)) == s4.(tickets := s.tickets + [t.(granted := n, stage := Sized)]);
    assert s.consumers[c := Holding(|s.tickets|)][c := Idle] == s.consumers;
  }

  /** In every run, when no consumer is in between and one is idle: alone, it claims exactly what the queue holds,
      at most the largest bulk, and everyone is where they were. */
  lemma {:induction false} AloneClaimsAll(consumers: nat, events: seq<Event>, c: nat)
    requires var s := Run(consumers, events);
             Quiet(s) && c < |s.consumers| && s.consumers[c].Idle? && s.head < s.tail
    ensures var s := Run(consumers, events);
            Run(consumers, events + Alone(c, 7)) == ClaimedAlone(s, Min(s.tail - s.head, MAX_BULK))
  {
    hide Next, ClaimedAlone;
    QuietBalance(consumers, events);
    SevenSteps(Run(consumers, events), c);
    assert events + Alone(c, 0) == events;
    AloneOneMore(consumers, events, c, 1);
    AloneOneMore(consumers, events, c, 2);
    AloneOneMore(consumers, events, c, 3);
    AloneOneMore(consumers, events, c, 4);
    AloneOneMore(consumers, events, c, 5);
    AloneOneMore(consumers, events, c, 6);
    AloneOneMore(consumers, events, c, 7);
  }

  /** And an empty queue is left as it is. */
  lemma {:induction false} AloneFindsNone(consumers: nat, events: seq<Event>, c: nat)
    requires var s := Run(consumers, events);
             Quiet(s) && c < |s.consumers| && s.consumers[c].Idle? && s.head == s.tail
    ensures Run(consumers, events + Alone(c, 3)) == Run(consumers, events)
  {
    hide Run;
    QuietBalance(consumers, events);
    assert events + Alone(c, 0) == events;
    AloneOneMore(consumers, events, c, 1);
    AloneOneMore(consumers, events, c, 2);
    AloneOneMore(consumers, events, c, 3);
    var s := Run(consumers, events);
    assert s.consumers[c := Idle] == s.consumers;
  }

  /** So nothing is ever lost: from every such state an idle consumer can claim everything that was published. */
  lemma {:induction false} EverythingIsClaimed(consumers: nat, events: seq<Event>, c: nat) returns (more: nat)
    requires var s := Run(consumers, events);
             Quiet(s) && c < |s.consumers| && s.consumers[c].Idle?
    ensures var s, s' := Run(consumers, events), Run(consumers, events + Alone(c, more));
            s'.head == s'.tail == s.tail && s'.consumers == s.consumers
    decreases Run(consumers, events).tail - Run(consumers, events).head
  {
    hide Next, Run;
    HeadNeverPassesTail(consumers, events);
    var s := Run(consumers, events);
    if s.head == s.tail {
      more := 0;
      assert events + Alone(c, 0) == events;
    } else {
      AloneClaimsAll(consumers, events, c);
      more := EverythingIsClaimed(consumers, events + Alone(c, 7), c);
      assert events + Alone(c, 7) + Alone(c, more) == events + Alone(c, 7 + more);
      more := 7 + more;
    }
  }

  /** How many accesses a consumer has before it at most. */
  function Remaining(s: State, p: Phase): nat {
    match p
    case Idle => 0
    case SeenTail(_) => 6
    case SeenOvercommit(_, _) => 5
    case Wanting(_, _) => 4
    case Holding(k) =>
      if k >= |s.tickets| then 0
      else match s.tickets[k].stage { case Drawn => 3 case Sized => 2 case Corrected => 1 case Claimed => 0 }
  }

  lemma OneStepLess(s: State, c: nat)
    requires Inv(s) && c < |s.consumers| && !s.consumers[c].Idle?
    ensures var s' := Next(s, Advance(c));
            && s'.tail == s.tail && |s'.consumers| == |s.consumers|
            && (forall d :: 0 <= d < |s.consumers| && d != c ==> s'.consumers[d] == s.consumers[d])
            && Remaining(s', s'.consumers[c]) < Remaining(s, s.consumers[c])
            && (Remaining(s', s'.consumers[c]) == 0 ==> s'.consumers[c].Idle?)
  {
    hide TicketOk, CountersOk, ClaimsOk;
    assert PhaseOk(s, s.consumers[c]);
  }

  /** No consumer waits for another one: in every run, a consumer that goes on alone is through after six
      accesses at most. */
  lemma {:induction false} NobodyWaits(consumers: nat, events: seq<Event>, c: nat) returns (n: nat)
    requires c < |Run(consumers, events).consumers|
    ensures var s, s' := Run(consumers, events), Run(consumers, events + Alone(c, n));
            n <= 6 && n <= Remaining(s, s.consumers[c])
            && s'.consumers == s.consumers[c := Idle] && s'.tail == s.tail
    decreases Remaining(Run(consumers, events), Run(consumers, events).consumers[c])
  {
    hide Next, Run, Inv;
    var s := Run(consumers, events);
    if s.consumers[c].Idle? {
      n := 0;
      assert events + Alone(c, 0) == events;
    } else {
      RunOk(consumers, events);
      OneStepLess(s, c);
      OneMore(consumers, events, Advance(c));
      n := NobodyWaits(consumers, events + [Advance(c)], c);
      assert events + [Advance(c)] + Alone(c, n) == events + Alone(c, n + 1);
      n := n + 1;
    }
  }

  lemma {:induction false} ConsumersStay(consumers: nat, events: seq<Event>)
    ensures |Run(consumers, events).consumers| == consumers
    decreases |events|
  {
    if events != [] {
      ConsumersStay(consumers, events[..|events| - 1]);
    }
  }

  /** All consumers below `m` can finish. */
  lemma {:induction false} AllFinish(consumers: nat, events: seq<Event>, m: nat) returns (more: seq<Event>)
    requires m <= consumers
    ensures var s, s' := Run(consumers, events), Run(consumers, events + more);
            && s'.tail == s.tail && |s'.consumers| == consumers
            && forall d :: 0 <= d < m ==> s'.consumers[d].Idle?
    decreases m
  {
    hide Run;
    ConsumersStay(consumers, events);
    if m == 0 {
      more := [];
      assert events + [] == events;
    } else {
      var first := AllFinish(consumers, events, m - 1);
      var n := NobodyWaits(consumers, events + first, m - 1);
      more := first + Alone(m - 1, n);
      assert events + first + Alone(m - 1, n) == events + more;
    }
  }

  /** From every reachable state, whatever the consumers are doing, everything that was published can be claimed. */
  lemma NothingIsLost(consumers: nat, events: seq<Event>) returns (more: seq<Event>)
    requires consumers > 0
    ensures var s, s' := Run(consumers, events), Run(consumers, events + more);
            s'.head == s'.tail == s.tail && forall d :: 0 <= d < |s'.consumers| ==> s'.consumers[d].Idle?
  {
    hide Run;
    var first := AllFinish(consumers, events, consumers);
    var n := EverythingIsClaimed(consumers, events + first, 0);
    more := first + Alone(0, n);
    assert events + first + Alone(0, n) == events + more;
  }
}
