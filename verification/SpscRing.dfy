/** The ring between one producer and one consumer (libs/TracyProfiler/client/tracy_SPSCQueue.h), under
    every interleaving of their atomic steps. */
module SpscRing {

  datatype Option<T> = None | Some(value: T)

  /** Where the producer is in `emplace`, with its locals. */
  datatype Producer<T> = Ready | Writing(x: T, writeIdx: nat, next: nat) | Constructed(next: nat)

  /** Where the consumer is: `Looking` is inside `front`, `Found` is after a non-null `front`, `Popping` is
      inside `pop`. */
  datatype Consumer = Free | Looking(readIdx: nat) | Found | Popping(next: nat)

  /** Each side works with its own, possibly stale copy of the other side's index. The ring is `Broken`
      once a value has been constructed over another one, or a slot without a value was returned or
      destroyed. */
  datatype Ring<T> =
    | Ring(capacity: nat, slots: seq<Option<T>>, writeIdx: nat, readIdxCache: nat, readIdx: nat, writeIdxCache: nat,
           producer: Producer<T>, consumer: Consumer)
    | Broken

  /** The constructor: one slot more than the capacity asked for. */
  function NewRing<T>(capacity: nat): Ring<T> {
    Ring(capacity + 1, seq(capacity + 1, _ => None), 0, 0, 0, 0, Ready, Free)
  }

  /** Atomic steps: at most one access to an index that the other side writes, or to a slot. */
  datatype Action<T> =
    | BeginEmplace(x: T) | ReloadReadIdx | Construct | Publish
    | BeginFront | ReloadWriteIdx | ReturnFront | Destroy | Release

  function Next(i: nat, capacity: nat): nat { if i + 1 == capacity then 0 else i + 1 }

  predicate InRange<T>(r: Ring<T>) {
    r.Ring? ==>
      && |r.slots| == r.capacity && r.writeIdx < r.capacity && r.readIdx < r.capacity
      && (r.producer.Writing? ==> r.producer.writeIdx < r.capacity && r.producer.next < r.capacity)
      && (r.producer.Constructed? ==> r.producer.next < r.capacity)
      && (r.consumer.Looking? ==> r.consumer.readIdx < r.capacity)
      && (r.consumer.Popping? ==> r.consumer.next < r.capacity)
  }

  /** The effect of a step; a step that is not the next one of its side has none. */
  function Step<T>(r: Ring<T>, a: Action<T>): (r': Ring<T>)
    requires InRange(r)
    ensures InRange(r')
  {
    if r.Broken? then r
    else if a.BeginEmplace? || a.ReloadReadIdx? || a.Construct? || a.Publish? then ProducerStep(r, a)
    else ConsumerStep(r, a)
  }

  function ProducerStep<T>(r: Ring<T>, a: Action<T>): (r': Ring<T>)
    requires InRange(r) && r.Ring?
    ensures InRange(r')
  {
    match r.producer
    case Ready =>
      if a.BeginEmplace? then r.(producer := Writing(a.x, r.writeIdx, Next(r.writeIdx, r.capacity))) else r
    case Writing(x, writeIdx, next) =>
      if next == r.readIdxCache then
        if a.ReloadReadIdx? then r.(readIdxCache := r.readIdx) else r
      else if !a.Construct? then r
      else if r.slots[writeIdx].Some? then Broken
      else r.(slots := r.slots[writeIdx := Some(x)], producer := Constructed(next))
    case Constructed(next) =>
      if a.Publish? then r.(writeIdx := next, producer := Ready) else r
  }

  /** `pop` is taken only after a non-null `front`, as its callers do. */
  function ConsumerStep<T>(r: Ring<T>, a: Action<T>): (r': Ring<T>)
    requires InRange(r) && r.Ring?
    ensures InRange(r')
  {
    match r.consumer
    case Free => if a.BeginFront? then r.(consumer := Looking(r.readIdx)) else r
    case Looking(readIdx) =>
      if readIdx == r.writeIdxCache then
        if !a.ReloadWriteIdx? then r
        else if r.writeIdx == readIdx then r.(writeIdxCache := r.writeIdx, consumer := Free)
        else r.(writeIdxCache := r.writeIdx)
      else if !a.ReturnFront? then r
      else if r.slots[readIdx].None? then Broken
      else r.(consumer := Found)
    case Found =>
      if a.BeginFront? then r.(consumer := Looking(r.readIdx))
      else if !a.Destroy? then r
      else if r.writeIdx == r.readIdx || r.slots[r.readIdx].None? then Broken
      else r.(slots := r.slots[r.readIdx := None], consumer := Popping(Next(r.readIdx, r.capacity)))
    case Popping(next) =>
      if a.Release? then r.(readIdx := next, consumer := Free) else r
  }

  /** What has happened so far, without bounds: the values given to `emplace`, the values published and
      the values taken, in order; the number of released slots; and how many had been released and
      published when each side last reloaded its copy. */
  datatype History<T> = History(given: seq<T>, published: seq<T>, taken: seq<T>,
                                released: nat, seenReleased: nat, seenPublished: nat)

  datatype State<T> = State(ring: Ring<T>, past: History<T>)

  function Start<T>(capacity: nat): State<T> { State(NewRing(capacity), History([], [], [], 0, 0, 0)) }

  function Content<T>(o: Option<T>): seq<T> { if o.Some? then [o.value] else [] }

  function Recorded<T>(r: Ring<T>, a: Action<T>, h: History<T>): History<T>
    requires InRange(r) && r.Ring?
  {
    if r.producer.Ready? && a.BeginEmplace? then h.(given := h.given + [a.x])
    else if r.producer.Writing? && a.ReloadReadIdx? && r.producer.next == r.readIdxCache then
      h.(seenReleased := h.released)
    else if r.producer.Constructed? && a.Publish? then h.(published := h.published + Content(r.slots[r.writeIdx]))
    else if r.consumer.Looking? && a.ReloadWriteIdx? && r.consumer.readIdx == r.writeIdxCache then
      h.(seenPublished := |h.published|)
    else if r.consumer.Found? && a.Destroy? then h.(taken := h.taken + Content(r.slots[r.readIdx]))
    else if r.consumer.Popping? && a.Release? then h.(released := h.released + 1)
    else h
  }

  function Do<T>(s: State<T>, a: Action<T>): (s': State<T>)
    requires InRange(s.ring)
    ensures InRange(s'.ring)
  {
    if s.ring.Broken? then s else State(Step(s.ring, a), Recorded(s.ring, a, s.past))
  }

  function Run<T>(capacity: nat, actions: seq<Action<T>>): (s: State<T>)
    ensures InRange(s.ring)
  {
    if actions == [] then Start(capacity)
    else Do(Run(capacity, actions[..|actions| - 1]), actions[|actions| - 1])
  }

  // ----- the invariant -----

  /** The slot of the k-th value. */
  function Slot(k: nat, capacity: nat): (i: nat) {
    if k == 0 then 0 else Next(Slot(k - 1, capacity), capacity)
  }

  lemma {:induction false} SlotInRange(k: nat, capacity: nat)
    requires capacity > 0
    ensures Slot(k, capacity) < capacity
    ensures k < capacity ==> Slot(k, capacity) == k
  {
    if k > 0 {
      SlotInRange(k - 1, capacity);
    }
  }

  /** Fewer than a whole round apart, two values have different slots; a whole round apart, the same. */
  lemma {:induction false} SlotsDiffer(j: nat, k: nat, capacity: nat)
    requires capacity > 0 && j < k <= j + capacity
    ensures Slot(j, capacity) == Slot(k, capacity) <==> k == j + capacity
  {
    SlotInRange(k - 1, capacity);
    SlotInRange(k, capacity);
    if j > 0 {
      SlotInRange(j - 1, capacity);
      SlotsDiffer(j - 1, k - 1, capacity);
    }
  }

  /** The indices are the counters, wrapped; the copies are old counters that still tell full from not
      full, and empty from not empty. */
  ghost predicate IndicesOk<T>(r: Ring<T>, h: History<T>)
    requires r.Ring?
  {
    var n, w, o := r.capacity, |h.published|, h.released;
    && n > 0 && |r.slots| == n
    && o <= w < o + n
    && r.writeIdx == Slot(w, n) && r.readIdx == Slot(o, n)
    && h.seenReleased <= o && w < h.seenReleased + n && r.readIdxCache == Slot(h.seenReleased, n)
    && o <= h.seenPublished <= w && r.writeIdxCache == Slot(h.seenPublished, n)
  }

  ghost predicate SidesOk<T>(r: Ring<T>, h: History<T>)
    requires r.Ring? && IndicesOk(r, h)
  {
    && (r.producer.Writing? ==> r.producer.writeIdx == r.writeIdx && r.producer.next == Next(r.writeIdx, r.capacity))
    && (r.producer.Constructed? ==>
          r.producer.next == Next(r.writeIdx, r.capacity) && |h.published| + 1 < h.seenReleased + r.capacity)
    && (r.consumer.Looking? ==> r.consumer.readIdx == r.readIdx)
    && (r.consumer.Found? ==> h.released < h.seenPublished)
    && (r.consumer.Popping? ==> r.consumer.next == Next(r.readIdx, r.capacity) && h.released < h.seenPublished)
    && h.taken == h.published[..h.released + (if r.consumer.Popping? then 1 else 0)]
    && (r.producer.Ready? ==> h.given == h.published)
    && (r.producer.Writing? ==> h.given == h.published + [r.producer.x])
  }

  /** The slots of the unread values hold them, all others are empty; one value may be under
      construction and one destroyed but not released. */
  ghost predicate SlotsOk<T>(r: Ring<T>, h: History<T>)
    requires r.Ring? && IndicesOk(r, h)
  {
    var n, w, o := r.capacity, |h.published|, h.released;
    && (forall k {:trigger Slot(k, n)} :: o <= k < w ==>
          && Slot(k, n) < n
          && r.slots[Slot(k, n)] == if k == o && r.consumer.Popping? then None else Some(h.published[k]))
    && (forall k {:trigger Slot(k, n)} :: w <= k < o + n ==>
          Slot(k, n) < n && (r.slots[Slot(k, n)].Some? <==> k == w && r.producer.Constructed?))
    && (r.producer.Constructed? ==> r.slots[r.writeIdx].Some? && h.given == h.published + [r.slots[r.writeIdx].value])
  }

  ghost predicate Inv<T>(s: State<T>) {
    s.ring.Ring? && IndicesOk(s.ring, s.past) && SidesOk(s.ring, s.past) && SlotsOk(s.ring, s.past)
  }

  lemma StartInv<T>(capacity: nat)
    ensures Inv(Start<T>(capacity))
  {
    SlotInRange(0, capacity + 1);
    forall k: nat {:trigger Slot(k, capacity + 1)} | k < capacity + 1 ensures Slot(k, capacity + 1) == k {
      SlotInRange(k, capacity + 1);
    }
  }

  lemma SlotSucc(k: nat, n: nat)
    ensures Slot(k + 1, n) == Next(Slot(k, n), n)
  {
  }

  /** Writing the slot of value `k` leaves the other slots of the round as they are. */
  lemma OtherSlots<T>(slots: seq<Option<T>>, k: nat, v: Option<T>, first: nat, n: nat)
    requires |slots| == n > 0 && first <= k < first + n
    ensures Slot(k, n) < n
    ensures forall j {:trigger Slot(j, n)} :: first <= j < first + n ==>
              Slot(j, n) < n && slots[Slot(k, n) := v][Slot(j, n)] == if j == k then v else slots[Slot(j, n)]
  {
    SlotInRange(k, n);
    forall j | first <= j < first + n
      ensures Slot(j, n) < n && slots[Slot(k, n) := v][Slot(j, n)] == if j == k then v else slots[Slot(j, n)]
    {
      SlotInRange(j, n);
      if j < k {
        SlotsDiffer(j, k, n);
      } else if k < j {
        SlotsDiffer(k, j, n);
      }
    }
  }

  lemma ConstructKeeps<T>(s: State<T>)
    requires Inv(s) && InRange(s.ring) && s.ring.producer.Writing? && s.ring.producer.next != s.ring.readIdxCache
    ensures Inv(Do(s, Construct))
  {
    hide Slot;
    var r, h := s.ring, s.past;
    var n, w := r.capacity, |h.published|;
    SlotSucc(w, n);
    SlotsDiffer(h.seenReleased, w + 1, n);
    OtherSlots(r.slots, w, Some(r.producer.x), h.released, n);
  }

  lemma PublishKeeps<T>(s: State<T>)
    requires Inv(s) && InRange(s.ring) && s.ring.producer.Constructed?
    ensures Inv(Do(s, Publish))
  {
    hide Slot;
    SlotSucc(|s.past.published|, s.ring.capacity);
  }

  lemma DestroyKeeps<T>(s: State<T>)
    requires Inv(s) && InRange(s.ring) && s.ring.consumer.Found?
    ensures Inv(Do(s, Destroy))
  {
    hide Slot;
    var r, h := s.ring, s.past;
    SlotsDiffer(h.released, |h.published|, r.capacity);
    OtherSlots(r.slots, h.released, None, h.released, r.capacity);
  }

  lemma ReleaseKeeps<T>(s: State<T>)
    requires Inv(s) && InRange(s.ring) && s.ring.consumer.Popping?
    ensures Inv(Do(s, Release))
  {
    hide Slot;
    var o, n := s.past.released, s.ring.capacity;
    SlotSucc(o, n);
    SlotsDiffer(o, o + n, n);
  }

  /** The steps that write no slot and no shared index. */
  lemma ProducerLooks<T>(s: State<T>, a: Action<T>)
    requires Inv(s) && InRange(s.ring) && (a.BeginEmplace? || a.ReloadReadIdx?)
    ensures Inv(Do(s, a))
  {
    hide Slot;
  }

  lemma ConsumerLooks<T>(s: State<T>, a: Action<T>)
    requires Inv(s) && InRange(s.ring) && (a.BeginFront? || a.ReloadWriteIdx?)
    ensures Inv(Do(s, a))
  {
    hide Slot;
  }

  lemma ReturnKeeps<T>(s: State<T>)
    requires Inv(s) && InRange(s.ring)
    ensures Inv(Do(s, ReturnFront))
  {
    hide Slot;
    var r, h := s.ring, s.past;
    if h.released < h.seenPublished {
      SlotsDiffer(h.released, h.seenPublished, r.capacity);
    }
  }

  lemma {:induction false} DoKeeps<T>(s: State<T>, a: Action<T>)
    requires Inv(s) && InRange(s.ring)
    ensures Inv(Do(s, a))
  {
    hide IndicesOk, SidesOk, SlotsOk;
    match a {
      case Construct =>
        if s.ring.producer.Writing? && s.ring.producer.next != s.ring.readIdxCache { ConstructKeeps(s); }
      case Publish =>
        if s.ring.producer.Constructed? { PublishKeeps(s); }
      case Destroy =>
        if s.ring.consumer.Found? { DestroyKeeps(s); }
      case Release =>
        if s.ring.consumer.Popping? { ReleaseKeeps(s); }
      case BeginEmplace(_) => ProducerLooks(s, a);
      case ReloadReadIdx => ProducerLooks(s, a);
      case ReturnFront => ReturnKeeps(s);
      case _ => ConsumerLooks(s, a);
    }
  }

  lemma {:induction false} RunInv<T>(capacity: nat, actions: seq<Action<T>>)
    ensures Inv(Run(capacity, actions)) && Run(capacity, actions).ring.capacity == capacity + 1
    decreases |actions|
  {
    hide IndicesOk, SidesOk, SlotsOk;
    if actions == [] {
      StartInv<T>(capacity);
    } else {
      var before, a := actions[..|actions| - 1], actions[|actions| - 1];
      RunInv(capacity, before);
      DoKeeps(Run(capacity, before), a);
    }
  }

  // ----- a bounded queue -----

  /** The values that have been published and not yet released. */
  function Queue<T>(s: State<T>): seq<T>
    requires s.past.released <= |s.past.published|
  {
    s.past.published[s.past.released..]
  }

  /** In every interleaving nothing is overwritten before it was read, nothing is read before it was
      written, the queue holds at most the capacity asked for, and the values taken are the first ones
      given, in order. */
  lemma FirstInFirstOut<T>(capacity: nat, actions: seq<Action<T>>)
    ensures var s := Run(capacity, actions);
            && s.ring.Ring?
            && s.past.released <= |s.past.published| && |Queue(s)| <= capacity
            && s.past.taken <= s.past.published <= s.past.given
            && |s.past.given| <= |s.past.published| + 1 && |s.past.taken| <= s.past.released + 1
  {
    RunInv(capacity, actions);
  }

  /** Every step is a step of a bounded queue: publishing appends the oldest value not yet published and
      finds room, releasing removes the first value and finds one, and nothing else changes the queue. */
  lemma RefinesBoundedQueue<T>(capacity: nat, actions: seq<Action<T>>, a: Action<T>)
    ensures var s, s' := Run(capacity, actions), Do(Run(capacity, actions), a);
            && s.ring.Ring? && s'.ring.Ring?
            && s.past.released <= |s.past.published| && s'.past.released <= |s'.past.published|
            && if a.Publish? && s.ring.producer.Constructed? then
                 && |Queue(s)| < capacity && |s.past.published| < |s.past.given|
                 && Queue(s') == Queue(s) + [s.past.given[|s.past.published|]]
               else if a.Release? && s.ring.consumer.Popping? then Queue(s) != [] && Queue(s') == Queue(s)[1..]
               else Queue(s') == Queue(s)
  {
    hide Run, IndicesOk, SidesOk, SlotsOk;
    RunInv(capacity, actions);
    var s := Run(capacity, actions);
    DoKeeps(s, a);
    QueueFits(s);
    QueueFits(Do(s, a));
    if a.Publish? && s.ring.producer.Constructed? {
      PublishedIsGiven(s);
    }
  }

  lemma QueueFits<T>(s: State<T>)
    requires Inv(s)
    ensures s.past.released <= |s.past.published| < s.past.released + s.ring.capacity
    ensures s.ring.producer.Constructed? ==> |s.past.published| + 1 < s.past.released + s.ring.capacity
    ensures s.ring.consumer.Popping? ==> s.past.released < |s.past.published|
  {
  }

  lemma PublishedIsGiven<T>(s: State<T>)
    requires Inv(s) && InRange(s.ring) && s.ring.producer.Constructed?
    ensures |s.past.published| < |s.past.given|
    ensures Content(s.ring.slots[s.ring.writeIdx]) == [s.past.given[|s.past.published|]]
  {
  }

  /** A non-null `front` is the oldest value of the queue. */
  lemma FrontIsOldest<T>(capacity: nat, actions: seq<Action<T>>)
    ensures var s := Run(capacity, actions);
            && s.ring.Ring? && s.past.released <= |s.past.published|
            && (s.ring.consumer.Found? ==>
                  && Queue(s) != []
                  && s.ring.readIdx < |s.ring.slots| && s.ring.slots[s.ring.readIdx] == Some(Queue(s)[0]))
  {
    RunInv(capacity, actions);
  }

  /** Stale copies are only conservative: after a reload `front` returns null exactly when the queue is
      empty, and `emplace` goes on waiting exactly when it is full. */
  lemma ReloadsAreExact<T>(capacity: nat, actions: seq<Action<T>>)
    ensures var s := Run(capacity, actions);
            && s.ring.Ring? && s.past.released <= |s.past.published|
            && (s.ring.consumer.Looking? && s.ring.consumer.readIdx == s.ring.writeIdxCache ==>
                  (Do(s, ReloadWriteIdx).ring.consumer.Free? <==> Queue(s) == []))
            && (s.ring.producer.Writing? && s.ring.producer.next == s.ring.readIdxCache ==>
                  (s.ring.producer.next == Do(s, ReloadReadIdx).ring.readIdxCache <==> |Queue(s)| == capacity))
  {
    RunInv(capacity, actions);
    var s := Run(capacity, actions);
    var n, w, o := s.ring.capacity, |s.past.published|, s.past.released;
    SlotSucc(w, n);
    SlotsDiffer(o, w + 1, n);
    if o < w {
      SlotsDiffer(o, w, n);
    }
  }

  /** What a side sees in its stale copy is never too optimistic: a slot that looks free is free, and a
      slot that looks filled holds an unread value. */
  lemma CopiesAreConservative<T>(capacity: nat, actions: seq<Action<T>>)
    ensures var s := Run(capacity, actions);
            && s.ring.Ring? && s.past.released <= |s.past.published|
            && (s.ring.producer.Writing? && s.ring.producer.next != s.ring.readIdxCache ==> |Queue(s)| < capacity)
            && (s.ring.consumer.Looking? && s.ring.consumer.readIdx != s.ring.writeIdxCache ==> Queue(s) != [])
  {
    hide Slot, SlotsOk, Run;
    RunInv(capacity, actions);
    var s := Run(capacity, actions);
    SlotSucc(|s.past.published|, s.ring.capacity);
    SlotsDiffer(s.past.seenReleased, |s.past.published| + 1, s.ring.capacity);
  }

  // ----- what a whole call does -----

  lemma RunOneMore<T>(capacity: nat, actions: seq<Action<T>>, a: Action<T>)
    ensures Run(capacity, actions + [a]) == Do(Run(capacity, actions), a)
  {
    assert (actions + [a])[..|actions|] == actions;
  }

  /** Room in the queue is room for the producer, as soon as it looks at the other side's index. */
  lemma RoomSeen<T>(s: State<T>)
    requires Inv(s) && InRange(s.ring) && s.ring.producer.Writing? && |Queue(s)| + 1 < s.ring.capacity
    ensures s.ring.producer.next != s.ring.readIdx
  {
    hide Slot, SlotsOk;
    var n, w, o := s.ring.capacity, |s.past.published|, s.past.released;
    SlotSucc(w, n);
    SlotsDiffer(o, w + 1, n);
  }

  lemma EmplaceSteps<T>(s: State<T>, x: T)
    requires Inv(s) && InRange(s.ring) && s.ring.producer.Ready? && |Queue(s)| + 1 < s.ring.capacity
    ensures var s4 := Do(Do(Do(Do(s, BeginEmplace(x)), ReloadReadIdx), Construct), Publish);
            && Inv(s4) && s4.ring.producer.Ready? && s4.ring.consumer == s.ring.consumer && Queue(s4) == Queue(s) + [x]
  {
    hide IndicesOk, SidesOk, SlotsOk, Slot;
    QueueFits(s);
    var s1 := Do(s, BeginEmplace(x));
    DoKeeps(s, BeginEmplace(x));
    RoomSeen(s1);
    var s2 := Do(s1, ReloadReadIdx);
    DoKeeps(s1, ReloadReadIdx);
    var s3 := Do(s2, Construct);
    DoKeeps(s2, Construct);
    DoKeeps(s3, Publish);
    PublishedIsGiven(s3);
    GivenIsPublished(s);
    assert s3.past.given == s.past.published + [x] && s3.past.published == s.past.published;
  }

  lemma GivenIsPublished<T>(s: State<T>)
    requires Inv(s) && s.ring.producer.Ready?
    ensures s.past.given == s.past.published
  {
  }

  /** In every run, when the queue is not full, the steps of one `emplace` put the value at its end, whatever the
      consumer is doing. */
  lemma {:induction false} EmplaceAppends<T>(capacity: nat, actions: seq<Action<T>>, x: T)
    requires var s := Run(capacity, actions);
             s.ring.Ring? && s.ring.producer.Ready? && s.past.released <= |s.past.published| && |Queue(s)| < capacity
    ensures var s, s' := Run(capacity, actions), Run(capacity, actions + [BeginEmplace(x), ReloadReadIdx, Construct, Publish]);
            && s'.ring.Ring? && s'.ring.producer.Ready? && s'.ring.consumer == s.ring.consumer
            && s'.past.released <= |s'.past.published| && Queue(s') == Queue(s) + [x]
  {
    hide Run, Do, IndicesOk, SidesOk, SlotsOk;
    RunInv(capacity, actions);
    EmplaceSteps(Run(capacity, actions), x);
    RunOneMore(capacity, actions, BeginEmplace(x));
    RunOneMore(capacity, actions + [BeginEmplace(x)], ReloadReadIdx);
    RunOneMore(capacity, actions + [BeginEmplace(x)] + [ReloadReadIdx], Construct);
    RunOneMore(capacity, actions + [BeginEmplace(x)] + [ReloadReadIdx] + [Construct], Publish);
    assert actions + [BeginEmplace(x)] + [ReloadReadIdx] + [Construct] + [Publish]
        == actions + [BeginEmplace(x), ReloadReadIdx, Construct, Publish];
    QueueFits(Run(capacity, actions + [BeginEmplace(x), ReloadReadIdx, Construct, Publish]));
  }

  /** A value in the queue is seen by the consumer, as soon as it looks at the other side's index. */
  lemma ValueSeen<T>(s: State<T>)
    requires Inv(s) && InRange(s.ring) && s.past.released < |s.past.published|
    ensures s.ring.readIdx != s.ring.writeIdx && s.ring.slots != []
    ensures s.ring.consumer.Popping? || s.ring.slots[s.ring.readIdx] == Some(Queue(s)[0])
  {
    var n, w, o := s.ring.capacity, |s.past.published|, s.past.released;
    SlotsDiffer(o, w, n);
  }

  lemma PopSteps<T>(s: State<T>)
    requires Inv(s) && InRange(s.ring) && s.ring.consumer.Free? && s.past.released < |s.past.published|
    ensures var s5 := Do(Do(Do(Do(Do(s, BeginFront), ReloadWriteIdx), ReturnFront), Destroy), Release);
            && Inv(s5) && s5.ring.consumer.Free? && s5.ring.producer == s.ring.producer
            && Queue(s5) == Queue(s)[1..] && s5.past.taken == s.past.taken + [Queue(s)[0]]
  {
    hide IndicesOk, SidesOk, SlotsOk, Slot;
    QueueFits(s);
    ValueSeen(s);
    var s1 := Do(s, BeginFront);
    DoKeeps(s, BeginFront);
    var s2 := Do(s1, ReloadWriteIdx);
    DoKeeps(s1, ReloadWriteIdx);
    var s3 := Do(s2, ReturnFront);
    DoKeeps(s2, ReturnFront);
    ValueSeen(s3);
    var s4 := Do(s3, Destroy);
    DoKeeps(s3, Destroy);
    DoKeeps(s4, Release);
  }

  /** In every run, when the queue is not empty, `front` and `pop` take its first value, whatever the producer is doing. */
  lemma {:induction false} PopTakesFirst<T>(capacity: nat, actions: seq<Action<T>>)
    requires var s := Run(capacity, actions);
             s.ring.Ring? && s.ring.consumer.Free? && s.past.released < |s.past.published|
    ensures var s, s' := Run(capacity, actions),
                Run(capacity, actions + [BeginFront, ReloadWriteIdx, ReturnFront, Destroy, Release]);
            && s'.ring.Ring? && s'.ring.consumer.Free? && s'.ring.producer == s.ring.producer
            && s'.past.released <= |s'.past.published|
            && Queue(s') == Queue(s)[1..] && s'.past.taken == s.past.taken + [Queue(s)[0]]
  {
    hide Run, Do, IndicesOk, SidesOk, SlotsOk;
    RunInv(capacity, actions);
    PopSteps(Run(capacity, actions));
    var a := actions;
    RunOneMore(capacity, a, BeginFront);
    RunOneMore(capacity, a + [BeginFront], ReloadWriteIdx);
    RunOneMore(capacity, a + [BeginFront] + [ReloadWriteIdx], ReturnFront);
    RunOneMore(capacity, a + [BeginFront] + [ReloadWriteIdx] + [ReturnFront], Destroy);
    RunOneMore(capacity, a + [BeginFront] + [ReloadWriteIdx] + [ReturnFront] + [Destroy], Release);
    assert a + [BeginFront] + [ReloadWriteIdx] + [ReturnFront] + [Destroy] + [Release]
        == a + [BeginFront, ReloadWriteIdx, ReturnFront, Destroy, Release];
    QueueFits(Run(capacity, a + [BeginFront, ReloadWriteIdx, ReturnFront, Destroy, Release]));
  }
}
