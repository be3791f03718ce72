/** The circular index of the block queue (libs/TracyProfiler/client/tracy_concurrentqueue.h): the slots of
    its entries, the look-up of a block by the distance of its base, and what the blocks contain. */
module BlockIndex {
  const BLOCK_SIZE := 65536
  const WORD := 0x1_0000_0000_0000_0000

  function Pow2(e: nat): nat { if e == 0 then 1 else 2 * Pow2(e - 1) }

  lemma Doubled(x: nat, y: nat)
    ensures 2 * (x * y) == (2 * x) * y
  {
  }

  lemma {:induction false} Pow2Adds(a: nat, b: nat)
    ensures Pow2(a + b) == Pow2(a) * Pow2(b)
  {
    if a > 0 {
      Pow2Adds(a - 1, b);
      Doubled(Pow2(a - 1), Pow2(b));
    }
  }

  lemma {:induction false} Pow2Monotone(a: nat, b: nat)
    requires a <= b
    ensures 0 < Pow2(a) <= Pow2(b)
    decreases b
  {
    if a < b {
      Pow2Monotone(a, b - 1);
    } else if a > 0 {
      Pow2Monotone(a - 1, a - 1);
    }
  }

  lemma Pow2Of16()
    ensures Pow2(16) == BLOCK_SIZE
  {
    assert Pow2(8) == 256;
    assert Pow2(12) == 4096;
  }

  /** The blocks of a machine word. */
  lemma WordInBlocks()
    ensures Pow2(48) * BLOCK_SIZE == WORD
  {
    hide Pow2;
    Pow2Of16();
    Pow2Adds(16, 16);
    Pow2Adds(16, 32);
  }

  /** A position of the circular index: sizes are powers of two, so masking is taking the remainder. */
  function Wrap(x: int, size: nat): (i: nat)
    requires size > 0
    ensures i < size
  {
    x % size
  }

  lemma Multiple(q: int, size: int)
    requires size >= 0
    ensures q >= 1 ==> q * size >= size
    ensures q <= -1 ==> q * size <= -size
  {
  }

  lemma {:induction false} WrapIs(x: int, q: int, r: nat, size: nat)
    requires r < size && x == q * size + r
    ensures Wrap(x, size) == r
  {
    var d := x / size - q;
    assert x == (x / size) * size + x % size;
    assert d * size == (x / size) * size - q * size;
    Multiple(d, size);
  }

  lemma {:induction false} WrapShift(x: int, q: int, size: nat)
    requires size > 0
    ensures Wrap(x + q * size, size) == Wrap(x, size)
  {
    assert x == (x / size) * size + x % size;
    assert (x / size + q) * size == (x / size) * size + q * size;
    WrapIs(x + q * size, x / size + q, x % size, size);
  }

  lemma {:induction false} WrapAdd(x: int, y: int, size: nat)
    requires size > 0
    ensures Wrap(Wrap(x, size) + y, size) == Wrap(x + y, size)
  {
    assert x == (x / size) * size + x % size;
    WrapShift(x % size + y, x / size, size);
  }

  lemma {:induction false} WrapDiffers(x: int, y: int, size: nat)
    requires x < y <= x + size
    ensures Wrap(x, size) == Wrap(y, size) <==> y == x + size
  {
    if y == x + size {
      WrapShift(x, 1, size);
    } else if Wrap(x, size) == Wrap(y, size) {
      Multiple(y / size - x / size, size);
    }
  }

  /** The distance of two bases in blocks. Both operands of the division are unsigned, so a block behind
      the front one lies a huge distance ahead of it. */
  function Offset(base: nat, frontBase: nat): nat { (base - frontBase) % WORD / BLOCK_SIZE }

  lemma OffsetIs(a: nat, n: nat)
    requires a < n && n * BLOCK_SIZE <= WORD
    ensures Offset(a * BLOCK_SIZE, (n - 1) * BLOCK_SIZE) == if a == n - 1 then 0 else WORD / BLOCK_SIZE - (n - 1 - a)
  {
  }

  /** Nevertheless the look-up finds the slot of the block: the sizes of the index divide the number of
      blocks of a machine word. */
  lemma {:induction false} LookUp(a: nat, n: nat, origin: int, level: nat)
    requires a < n && n * BLOCK_SIZE <= WORD && level <= 48 && Pow2(level) > 0
    ensures Wrap(Wrap(n - 1 + origin, Pow2(level)) + Offset(a * BLOCK_SIZE, (n - 1) * BLOCK_SIZE), Pow2(level))
         == Wrap(a + origin, Pow2(level))
  {
    var size, offset := Pow2(level), Offset(a * BLOCK_SIZE, (n - 1) * BLOCK_SIZE);
    OffsetIs(a, n);
    WrapAdd(n - 1 + origin, offset, size);
    WordInBlocks();
    if a < n - 1 {
      Pow2Adds(48 - level, level);
      WrapShift(a + origin, Pow2(48 - level), size);
    }
  }

  /** The slot of allocation number `a`. */
  function SlotOf(a: int, origin: int, size: nat): (i: nat)
    requires size > 0
    ensures i < size
  {
    Wrap(a + origin, size)
  }

  lemma {:induction false} SlotStep(a: int, d: int, origin: int, size: nat)
    requires size > 0
    ensures Wrap(SlotOf(a, origin, size) + d, size) == SlotOf(a + d, origin, size)
  {
    WrapAdd(a + origin, d, size);
  }

  lemma {:induction false} SlotsDiffer(a: int, b: int, origin: int, size: nat)
    requires a < b < a + size
    ensures SlotOf(a, origin, size) != SlotOf(b, origin, size)
  {
    WrapDiffers(a + origin, b + origin, size);
  }

  lemma SlotIs(a: int, origin: int, size: nat)
    requires 0 <= a + origin < size
    ensures SlotOf(a, origin, size) == a + origin
  {
    WrapIs(a + origin, 0, a + origin, size);
  }

  /** Entry `a` of the index, for the last `count` of `n` allocations. */
  datatype Entry<B> = Entry(base: nat, block: B)

  ghost predicate IndexOk<B>(entries: seq<Entry<B>>, origin: int, n: nat, ring: seq<B>) {
    && 0 < |entries| && |ring| <= |entries| && |ring| <= n
    && forall a: nat {:trigger SlotOf(a, origin, |entries|)} :: n - |ring| <= a < n ==>
         entries[SlotOf(a, origin, |entries|)] == Entry(a * BLOCK_SIZE, ring[a - (n - |ring|)])
  }

  lemma IndexFits<B>(entries: seq<Entry<B>>, origin: int, n: nat, ring: seq<B>)
    requires IndexOk(entries, origin, n, ring)
    ensures 0 < |entries| && |ring| <= |entries| && |ring| <= n
  {
  }

  lemma EntryAt<B>(entries: seq<Entry<B>>, origin: int, n: nat, ring: seq<B>, a: nat)
    requires IndexOk(entries, origin, n, ring) && n - |ring| <= a < n
    ensures 0 < |entries| && |ring| <= n
    ensures entries[SlotOf(a, origin, |entries|)] == Entry(a * BLOCK_SIZE, ring[a - (n - |ring|)])
  {
  }

  /** The next allocation overwrites the slot after the last one: nothing that is still needed. */
  lemma {:induction false} EntryAdded<B>(entries: seq<Entry<B>>, origin: int, n: nat, ring: seq<B>, block: B, kept: nat)
    requires IndexOk(entries, origin, n, ring) && kept <= |ring| && kept < |entries|
    ensures IndexOk(entries[SlotOf(n, origin, |entries|) := Entry(n * BLOCK_SIZE, block)], origin, n + 1,
              ring[|ring| - kept..] + [block])
  {
    hide Wrap;
    var size := |entries|;
    var at := SlotOf(n, origin, size);
    var entries', ring' := entries[at := Entry(n * BLOCK_SIZE, block)], ring[|ring| - kept..] + [block];
    forall a: nat {:trigger SlotOf(a, origin, size)} | n + 1 - |ring'| <= a < n + 1
      ensures entries'[SlotOf(a, origin, size)] == Entry(a * BLOCK_SIZE, ring'[a - (n + 1 - |ring'|)])
    {
      if a < n {
        WrapDiffers(a + origin, n + origin, size);
      }
    }
  }

  /** A larger index with the entries in order, oldest first, is as good as the old one. */
  lemma EntriesMoved<B>(entries: seq<Entry<B>>, origin: int, n: nat, ring: seq<B>, moved: seq<Entry<B>>)
    requires IndexOk(entries, origin, n, ring) && |entries| <= |moved|
    requires forall j {:trigger moved[j]} :: 0 <= j < |ring| ==> moved[j] == entries[SlotOf(n - |ring| + j, origin, |entries|)]
    ensures IndexOk(moved, |ring| - n, n, ring)
  {
    hide Wrap;
    forall a: nat {:trigger SlotOf(a, |ring| - n, |moved|)} | n - |ring| <= a < n
      ensures moved[SlotOf(a, |ring| - n, |moved|)] == Entry(a * BLOCK_SIZE, ring[a - (n - |ring|)])
    {
      var j := a - (n - |ring|);
      WrapIs(j, 0, j, |moved|);
      assert moved[j] == entries[SlotOf(a, origin, |entries|)];
    }
  }

  // ----- the contents of the blocks -----

  /** How many elements of block number `k` have been taken when the head is at `head`. */
  function Done(head: nat, k: nat): (d: nat)
    ensures d <= BLOCK_SIZE
  {
    if head <= k * BLOCK_SIZE then 0 else if head >= k * BLOCK_SIZE + BLOCK_SIZE then BLOCK_SIZE else head - k * BLOCK_SIZE
  }

  /** The indices of a range, and those that lie in block number `k`. */
  function Indices(first: nat, end: nat): (r: set<nat>)
    ensures forall i: nat :: i in r <==> first <= i < end
    decreases end
  {
    if first < end then Indices(first, end - 1) + {end - 1} else {}
  }

  lemma IndicesSplit(first: nat, index: nat, end: nat, last: nat)
    requires first <= index < end <= last
    ensures index in Indices(first, last) && index !in Indices(first, index) && Indices(index, end) !! Indices(first, index)
    ensures Indices(index, end) <= Indices(first, last) && Indices(first, index) + Indices(index, end) == Indices(first, end)
  {
  }

  /** Where the block of an index ends. */
  function BlockEnd(index: nat): (end: nat)
    ensures index < end
  {
    index - index % BLOCK_SIZE + BLOCK_SIZE
  }

  lemma EndsInBlock(index: nat, end: nat)
    requires index < end <= BlockEnd(index)
    ensures index / BLOCK_SIZE * BLOCK_SIZE <= index < end <= index / BLOCK_SIZE * BLOCK_SIZE + BLOCK_SIZE
    ensures end == BlockEnd(index) ==> end / BLOCK_SIZE == index / BLOCK_SIZE + 1
  {
  }

  function InBlock(indices: set<nat>, k: nat): set<nat> { set i | i in indices && i / BLOCK_SIZE == k }

  /** How many elements of block number `k` have been read: those below the head that are not unread. */
  function Read(head: nat, unread: set<nat>, k: nat): int { Done(head, k) - |InBlock(unread, k)| }

  lemma ReadAtMost(head: nat, unread: set<nat>, k: nat)
    ensures Read(head, unread, k) <= BLOCK_SIZE
  {
  }

  /** A block all of whose elements have been read lies below the head and has no unread element. */
  lemma ReadOut(head: nat, unread: set<nat>, k: nat)
    requires Read(head, unread, k) == BLOCK_SIZE
    ensures k * BLOCK_SIZE + BLOCK_SIZE <= head
    ensures forall i :: i in unread && k * BLOCK_SIZE <= i ==> k * BLOCK_SIZE + BLOCK_SIZE <= i
  {
    assert |InBlock(unread, k)| == 0;
    forall i | i in unread && k * BLOCK_SIZE <= i ensures k * BLOCK_SIZE + BLOCK_SIZE <= i {
      assert i !in InBlock(unread, k);
    }
  }

  /** And the other way round. */
  lemma AllRead(head: nat, unread: set<nat>, k: nat)
    requires k * BLOCK_SIZE + BLOCK_SIZE <= head
    requires forall i :: i in unread && k * BLOCK_SIZE <= i ==> k * BLOCK_SIZE + BLOCK_SIZE <= i
    ensures Read(head, unread, k) == BLOCK_SIZE
  {
    assert InBlock(unread, k) == {};
  }

  lemma NoneRead(head: nat, unread: set<nat>, k: nat)
    requires head <= k * BLOCK_SIZE && forall i :: i in unread ==> i < head
    ensures Read(head, unread, k) == 0
  {
    assert InBlock(unread, k) == {};
  }

  lemma ReadAtOneClaim(head: nat, unread: set<nat>, k: nat)
    requires forall i :: i in unread ==> i < head
    ensures Read(head + 1, unread + {head}, k) == Read(head, unread, k)
  {
    var taken := InBlock(unread, k);
    if head / BLOCK_SIZE == k {
      assert InBlock(unread + {head}, k) == taken + {head};
    } else {
      assert InBlock(unread + {head}, k) == taken;
    }
  }

  /** Claimed elements are unread: no block has been read further. */
  lemma {:induction false} ReadAtClaim(head: nat, head': nat, unread: set<nat>, k: nat)
    requires head <= head' && forall i :: i in unread ==> i < head
    ensures Read(head', unread + Indices(head, head'), k) == Read(head, unread, k)
    decreases head'
  {
    hide Read;
    if head == head' {
      assert unread + Indices(head, head') == unread;
    } else {
      var before := unread + Indices(head, head' - 1);
      ReadAtClaim(head, head' - 1, unread, k);
      ReadAtOneClaim(head' - 1, before, k);
      assert unread + Indices(head, head') == before + {head' - 1};
    }
  }

  lemma ReadOne(head: nat, unread: set<nat>, i: nat, k: nat)
    requires i in unread
    ensures Read(head, unread - {i}, k) == Read(head, unread, k) + if i / BLOCK_SIZE == k then 1 else 0
  {
    if i / BLOCK_SIZE == k {
      assert InBlock(unread - {i}, k) == InBlock(unread, k) - {i};
    } else {
      assert InBlock(unread - {i}, k) == InBlock(unread, k);
    }
  }

  /** Reading a stretch of one block is counted in that block, and nowhere else. */
  lemma {:induction false} ReadStretch(head: nat, unread: set<nat>, first: nat, end: nat, a: nat, k: nat)
    requires a * BLOCK_SIZE <= first <= end <= a * BLOCK_SIZE + BLOCK_SIZE && Indices(first, end) <= unread
    ensures Read(head, unread - Indices(first, end), k) == Read(head, unread, k) + if k == a then end - first else 0
    decreases end
  {
    hide Read;
    if first < end {
      var before := unread - Indices(first, end - 1);
      assert Indices(first, end - 1) <= Indices(first, end);
      ReadStretch(head, unread, first, end - 1, a, k);
      assert end - 1 in Indices(first, end);
      ReadOne(head, before, end - 1, k);
      assert unread - Indices(first, end) == before - {end - 1};
      assert (end - 1) / BLOCK_SIZE == a;
    } else {
      assert unread - Indices(first, end) == unread;
    }
  }

  /** Block number `k` stores the k-th stretch of the sequence, as far as it goes. */
  ghost predicate Stored<T>(elements: seq<T>, k: nat, all: seq<T>) {
    |elements| == BLOCK_SIZE
    && forall j :: 0 <= j < BLOCK_SIZE && k * BLOCK_SIZE + j < |all| ==> elements[j] == all[k * BLOCK_SIZE + j]
  }

  lemma StoredMore<T>(elements: seq<T>, k: nat, all: seq<T>, x: T)
    requires Stored(elements, k, all) && k * BLOCK_SIZE + BLOCK_SIZE <= |all|
    ensures Stored(elements, k, all + [x])
  {
  }

  lemma StoredHere<T>(elements: seq<T>, k: nat, all: seq<T>, x: T)
    requires Stored(elements, k, all) && k * BLOCK_SIZE <= |all| < k * BLOCK_SIZE + BLOCK_SIZE
    ensures Stored(elements[|all| - k * BLOCK_SIZE := x], k, all + [x])
  {
  }

  lemma StoredStretch<T>(elements: seq<T>, k: nat, all: seq<T>, first: nat, end: nat)
    requires Stored(elements, k, all)
    requires k * BLOCK_SIZE <= first <= end <= k * BLOCK_SIZE + BLOCK_SIZE && end <= |all|
    ensures elements[first - k * BLOCK_SIZE..end - k * BLOCK_SIZE] == all[first..end]
  {
  }
}
