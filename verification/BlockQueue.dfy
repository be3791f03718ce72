/** The block-based queue of one producer (libs/TracyProfiler/client/tracy_concurrentqueue.h), one
    operation at a time: a circular list of blocks and a circular index of them that doubles when it is full. */
module BlockQueueObject {
  import opened BlockIndex

  const EXPLICIT_INITIAL_INDEX_SIZE := 32
  const MAX_DEQUEUE := 8192

  /** A block of element storage. What the storage of a block from the pool holds does not matter. */
  class Block<T> {
    var next: Block?<T>
    var elements: seq<T>
    var elementsCompletelyDequeued: nat

    constructor (storage: seq<T>)
      requires |storage| == BLOCK_SIZE
      ensures elements == storage && next == null && elementsCompletelyDequeued == 0
    {
      next, elements, elementsCompletelyDequeued := null, storage, 0;
    }

    predicate IsEmpty()
      reads this
    {
      elementsCompletelyDequeued == BLOCK_SIZE
    }

    method ResetEmpty()
      modifies this`elementsCompletelyDequeued
      ensures elementsCompletelyDequeued == 0
    {
      elementsCompletelyDequeued := 0;
    }

    method SetManyEmpty(count: nat)
      requires elementsCompletelyDequeued + count <= BLOCK_SIZE
      modifies this`elementsCompletelyDequeued
      ensures elementsCompletelyDequeued == old(elementsCompletelyDequeued) + count
    {
      elementsCompletelyDequeued := elementsCompletelyDequeued + count;
    }
  }

  // ----- the circular list -----

  function After(i: nat, n: nat): nat { if i + 1 == n then 0 else i + 1 }

  /** The blocks in the order of the list, the oldest first, the tail block last. */
  ghost predicate IsRing<T>(ring: seq<Block<T>>)
    reads ring`next
  {
    && (forall i, j :: 0 <= i < j < |ring| ==> ring[i] != ring[j])
    && (forall i :: 0 <= i < |ring| ==> ring[i].next == ring[After(i, |ring|)])
  }

  lemma RotatedRing<T>(ring: seq<Block<T>>)
    requires IsRing(ring) && ring != []
    ensures IsRing(ring[1..] + [ring[0]])
  {
    var ring' := ring[1..] + [ring[0]];
    forall i | 0 <= i < |ring'| ensures ring'[i].next == ring'[After(i, |ring'|)] {
      assert ring'[i] == ring[After(i, |ring|)];
      assert ring'[After(i, |ring|)] == ring[After(After(i, |ring|), |ring|)];
    }
  }

  /** The block is block number `k` of the sequence, and counts its elements that have been read. */
  ghost predicate IsBlock<T>(b: Block<T>, k: nat, all: seq<T>, head: nat, unread: set<nat>)
    reads b`elementsCompletelyDequeued, b`elements
  {
    |b.elements| == BLOCK_SIZE && b.elementsCompletelyDequeued == Read(head, unread, k) && Stored(b.elements, k, all)
  }

  /** The ring holds consecutive blocks of the sequence, from number `first` on. */
  ghost predicate Stores<T>(ring: seq<Block<T>>, first: nat, all: seq<T>, head: nat, unread: set<nat>)
    reads ring`elementsCompletelyDequeued, ring`elements
  {
    forall i {:trigger ring[i]} :: 0 <= i < |ring| ==> IsBlock(ring[i], first + i, all, head, unread)
  }

  lemma StoresRotated<T>(ring: seq<Block<T>>, first: nat, all: seq<T>, head: nat, unread: set<nat>)
    requires ring != [] && IsBlock(ring[0], first + |ring|, all, head, unread)
    requires forall i {:trigger ring[i]} :: 1 <= i < |ring| ==> IsBlock(ring[i], first + i, all, head, unread)
    ensures Stores(ring[1..] + [ring[0]], first + 1, all, head, unread)
  {
    hide IsBlock;
    var ring' := ring[1..] + [ring[0]];
    forall i {:trigger ring'[i]} | 0 <= i < |ring'| ensures IsBlock(ring'[i], first + 1 + i, all, head, unread) {
      assert ring'[i] == ring[After(i, |ring|)];
    }
  }

  /** An empty block is any block the sequence has not reached yet. */
  lemma EmptyBlock<T>(b: Block<T>, k: nat, all: seq<T>, head: nat, unread: set<nat>)
    requires b.elementsCompletelyDequeued == 0 && |b.elements| == BLOCK_SIZE
    requires head <= k * BLOCK_SIZE && |all| <= k * BLOCK_SIZE && forall i :: i in unread ==> i < head
    ensures IsBlock(b, k, all, head, unread)
  {
    NoneRead(head, unread, k);
  }

  lemma StoresMore<T>(ring: seq<Block<T>>, first: nat, all: seq<T>, head: nat, unread: set<nat>, b: Block<T>)
    requires Stores(ring, first, all, head, unread) && IsBlock(b, first + |ring|, all, head, unread)
    ensures Stores(ring + [b], first, all, head, unread)
  {
    hide IsBlock;
  }

  /** Claiming elements does not change what has been read. */
  lemma StoresClaimed<T>(ring: seq<Block<T>>, first: nat, all: seq<T>, head: nat, unread: set<nat>, head': nat)
    requires Stores(ring, first, all, head, unread) && head <= head' && forall i :: i in unread ==> i < head
    ensures Stores(ring, first, all, head', unread + Indices(head, head'))
  {
    hide Read, Indices, Stored;
    forall i {:trigger ring[i]} | 0 <= i < |ring|
      ensures IsBlock(ring[i], first + i, all, head', unread + Indices(head, head'))
    {
      ReadAtClaim(head, head', unread, first + i);
    }
  }

  lemma TakenMore<T>(all: seq<T>, first: nat, index: nat, end: nat)
    requires first <= index <= end <= |all|
    ensures all[first..index] + all[index..end] == all[first..end]
  {
  }

  /** Reading a stretch of block `a` is counted in that block only. */
  lemma StoresRead<T>(ring: seq<Block<T>>, first: nat, all: seq<T>, head: nat, unread: set<nat>, a: nat, index: nat, end: nat)
    requires first <= a < first + |ring| && a * BLOCK_SIZE <= index <= end <= a * BLOCK_SIZE + BLOCK_SIZE
    requires Indices(index, end) <= unread
    requires forall i {:trigger ring[i]} :: 0 <= i < |ring| && i != a - first ==> IsBlock(ring[i], first + i, all, head, unread)
    requires Stored(ring[a - first].elements, a, all)
    requires ring[a - first].elementsCompletelyDequeued == Read(head, unread, a) + (end - index)
    ensures Stores(ring, first, all, head, unread - Indices(index, end))
  {
    hide Read, Indices;
    forall i {:trigger ring[i]} | 0 <= i < |ring|
      ensures IsBlock(ring[i], first + i, all, head, unread - Indices(index, end))
    {
      ReadStretch(head, unread, index, end, a, first + i);
    }
  }

  class ExplicitProducer<T> {
    var tailIndex: nat
    var headIndex: nat
    var dequeueOptimisticCount: nat
    var dequeueOvercommit: nat
    var tailBlock: Block?<T>

    // The current block index: its entries and its current slot.
    var indexEntries: array<Entry<Block?<T>>>
    var indexFront: int

    // The producer's own view: used slots and the next slot.
    var slotsUsed: nat
    var nextFront: nat

    // Everything ever enqueued, the indices of the claimed elements that have not been read yet, the blocks
    // from the oldest to the tail block, the number of block allocations, and how the index is rotated and
    // how large it is.
    ghost var enqueued: seq<T>
    ghost var unread: set<nat>
    ghost var ring: seq<Block<T>>
    ghost var allocations: nat
    ghost var origin: int
    ghost var level: nat

    ghost predicate IndexValid()
      reads this`level, this`indexEntries, this`origin, this`allocations, this`ring, this`nextFront, this`indexFront, indexEntries
    {
      && level <= 48 && indexEntries.Length == Pow2(level) > 0
      && IndexOk(indexEntries[..], origin, allocations, ring)
      && nextFront == SlotOf(allocations, origin, indexEntries.Length)
      && (allocations > 0 ==> indexFront == SlotOf(allocations - 1, origin, indexEntries.Length))
    }

    ghost predicate CountersOk()
      reads this`ring, this`slotsUsed, this`allocations, this`tailIndex, this`enqueued, this`tailBlock
    {
      && |ring| == slotsUsed <= allocations && (allocations == 0 <==> slotsUsed == 0)
      && tailIndex == |enqueued| <= allocations * BLOCK_SIZE <= WORD
      && tailBlock == if ring == [] then null else ring[|ring| - 1]
    }

    /** With no consumer between its optimistic `fetch_add` and its claim, the two counts give the head
        (`Claims.QuietBalance`). */
    ghost predicate HeadOk()
      reads this`headIndex, this`tailIndex, this`dequeueOptimisticCount, this`dequeueOvercommit,
        this`slotsUsed, this`allocations, this`unread
    {
      && headIndex <= tailIndex && headIndex == dequeueOptimisticCount - dequeueOvercommit
      && (allocations - slotsUsed) * BLOCK_SIZE <= headIndex
      && forall i :: i in unread ==> (allocations - slotsUsed) * BLOCK_SIZE <= i < headIndex
    }

    /** The representation. No block with an unread element has left the ring. */
    ghost predicate Shape()
      reads this, indexEntries, ring
    {
      && CountersOk() && HeadOk() && IndexValid()
      && IsRing(ring) && Stores(ring, allocations - slotsUsed, enqueued, headIndex, unread)
    }

    ghost predicate Valid()
      reads this, indexEntries, ring
    {
      Shape() && (allocations > 0 ==> (allocations - 1) * BLOCK_SIZE < tailIndex)
    }

    /** The queue: what has been enqueued and not claimed. */
    ghost function Contents(): seq<T>
      reads this
      requires headIndex <= |enqueued|
    {
      enqueued[headIndex..]
    }

    /** An index of at least the initial size; a larger one for a larger block pool. */
    constructor (poolBasedIndexSize: nat, ghost e: nat)
      requires poolBasedIndexSize == 0 || (poolBasedIndexSize == Pow2(e) && e < 48)
      ensures Valid() && Contents() == [] && enqueued == [] && unread == {} && fresh(indexEntries)
      ensures indexEntries.Length == if poolBasedIndexSize > EXPLICIT_INITIAL_INDEX_SIZE / 2 then 2 * poolBasedIndexSize
                                     else EXPLICIT_INITIAL_INDEX_SIZE
    {
      var size := EXPLICIT_INITIAL_INDEX_SIZE / 2;
      ghost var l := 5;
      if poolBasedIndexSize > size {
        size := poolBasedIndexSize;
        l := e + 1;
      }
      tailIndex, headIndex, dequeueOptimisticCount, dequeueOvercommit, tailBlock := 0, 0, 0, 0, null;
      indexEntries := new Entry<Block?<T>>[2 * size](_ => Entry(0, null));
      indexFront, slotsUsed, nextFront := -1, 0, 0;
      enqueued, unread, ring, allocations, origin, level := [], {}, [], 0, 0, l;
      assert Pow2(5) == 32;
      new;
      WrapIs(0, 0, 0, indexEntries.Length);
    }

    lemma CountersFacts()
      requires CountersOk()
      ensures tailIndex == |enqueued| && |ring| == slotsUsed <= allocations
    {
    }

    /** The copying loop of `new_block_index`: the used entries in order, the oldest first. */
    method CopyEntries(entries: array<Entry<Block?<T>>>) returns (j: nat)
      requires indexEntries.Length > 0 && 0 < slotsUsed <= indexEntries.Length <= entries.Length && entries != indexEntries
      requires nextFront == SlotOf(allocations, origin, indexEntries.Length)
      modifies entries
      ensures j == slotsUsed
      ensures forall k {:trigger entries[k]} :: 0 <= k < slotsUsed ==>
                entries[k] == indexEntries[SlotOf(allocations - slotsUsed + k, origin, indexEntries.Length)]
    {
      hide Wrap, SlotOf;
      var size := indexEntries.Length;
      var i := Wrap(nextFront - slotsUsed, size);
      SlotStep(allocations, 0 - slotsUsed, origin, size);
      j := 0;
      while true
        invariant 0 <= j < slotsUsed && i == SlotOf(allocations - slotsUsed + j, origin, size)
        invariant forall k {:trigger entries[k]} :: 0 <= k < j ==>
                    entries[k] == indexEntries[SlotOf(allocations - slotsUsed + k, origin, size)]
        decreases slotsUsed - j
      {
        entries[j] := indexEntries[i];
        i := Wrap(i + 1, size);
        SlotStep(allocations - slotsUsed + j, 1, origin, size);
        j := j + 1;
        if j < slotsUsed {
          SlotsDiffer(allocations - slotsUsed + j, allocations, origin, size);
        }
        if i == nextFront {
          break;
        }
      }
    }

    /** `new_block_index` on a full index: twice the size, the used entries first. */
    method NewBlockIndex()
      requires CountersOk() && IndexValid() && level < 48 && slotsUsed > 0
      modifies this`indexEntries, this`indexFront, this`nextFront, this`origin, this`level
      ensures IndexValid() && fresh(indexEntries) && indexEntries.Length == 2 * old(indexEntries.Length)
    {
      hide Wrap, SlotOf, IndexOk, CountersOk;
      var size := indexEntries.Length;
      CountersFacts();
      IndexFits(indexEntries[..], origin, allocations, ring);
      var entries := new Entry<Block?<T>>[2 * size](_ => Entry(0, null));
      var j := CopyEntries(entries);
      EntriesMoved(indexEntries[..], origin, allocations, ring, entries[..]);
      indexEntries, indexFront, nextFront := entries, slotsUsed - 1, j;
      origin, level := slotsUsed - allocations, level + 1;
      SlotIs(allocations, origin, 2 * size);
      SlotIs(allocations - 1, origin, 2 * size);
    }

    lemma NextIsOldest()
      requires CountersOk() && IsRing(ring) && ring != []
      ensures tailBlock != null && tailBlock.next == ring[0] && tailBlock in ring
    {
    }

    lemma OldestFacts()
      requires Shape() && ring != [] && ring[0].IsEmpty() && tailIndex == allocations * BLOCK_SIZE
      ensures tailBlock != null && tailBlock.next == ring[0] && |ring| == slotsUsed <= allocations && tailIndex == |enqueued|
      ensures |ring[0].elements| == BLOCK_SIZE
      ensures (allocations + 1 - slotsUsed) * BLOCK_SIZE <= headIndex <= allocations * BLOCK_SIZE
      ensures forall i :: i in unread ==> (allocations + 1 - slotsUsed) * BLOCK_SIZE <= i < headIndex
      ensures IsRing(ring) && Stores(ring, allocations - slotsUsed, enqueued, headIndex, unread)
    {
      hide IndexValid, IsRing, Read;
      NextIsOldest();
      assert IsBlock(ring[0], allocations - slotsUsed, enqueued, headIndex, unread);
      ReadOut(headIndex, unread, allocations - slotsUsed);
    }

    method ResetTail()
      requires IsRing(ring) && tailBlock != null
      modifies tailBlock`elementsCompletelyDequeued
      ensures IsRing(ring) && tailBlock.elementsCompletelyDequeued == 0
    {
      tailBlock.ResetEmpty();
    }

    /** The emptied oldest block, right behind the tail block, becomes the tail block. */
    method ReuseNext()
      requires Shape() && ring != [] && ring[0].IsEmpty() && tailIndex == allocations * BLOCK_SIZE
      modifies this`tailBlock, this`ring, ring
      ensures ring == old(ring[1..] + [ring[0]]) && tailBlock == ring[|ring| - 1]
      ensures IsRing(ring) && Stores(ring, allocations + 1 - slotsUsed, enqueued, headIndex, unread)
      ensures (allocations + 1 - slotsUsed) * BLOCK_SIZE <= headIndex
      ensures forall i :: i in unread ==> (allocations + 1 - slotsUsed) * BLOCK_SIZE <= i < headIndex
    {
      hide Shape, CountersOk, IndexValid, IsRing, IsBlock, Read;
      ghost var first := allocations - slotsUsed;
      OldestFacts();
      tailBlock := tailBlock.next;
      ResetTail();
      EmptyBlock(tailBlock, allocations, enqueued, headIndex, unread);
      RotatedRing(ring);
      StoresRotated(ring, first, enqueued, headIndex, unread);
      ring := ring[1..] + [ring[0]];
    }

    lemma InsertFacts()
      requires Shape()
      ensures |ring| == slotsUsed <= allocations && tailIndex == |enqueued| && headIndex <= tailIndex
      ensures forall i :: i in unread ==> i < headIndex
      ensures ring == [] ==> tailBlock == null
      ensures ring != [] ==> tailBlock == ring[|ring| - 1] && tailBlock.next == ring[0]
      ensures IsRing(ring) && Stores(ring, allocations - slotsUsed, enqueued, headIndex, unread)
    {
      hide IndexValid, Stores, IsRing;
      if ring != [] {
        NextIsOldest();
      }
    }

    method Link(newBlock: Block<T>)
      requires IsRing(ring) && newBlock !in ring
      requires if ring == [] then tailBlock == null else tailBlock == ring[|ring| - 1] && tailBlock.next == ring[0]
      modifies ring`next, newBlock`next
      ensures IsRing(ring + [newBlock])
    {
      if tailBlock == null {
        newBlock.next := newBlock;
      } else {
        newBlock.next := tailBlock.next;
        tailBlock.next := newBlock;
      }
    }

    /** A new block goes behind the tail block and becomes the tail block. */
    method InsertBlock(newBlock: Block<T>)
      requires Shape() && newBlock !in ring && |newBlock.elements| == BLOCK_SIZE
      requires tailIndex == allocations * BLOCK_SIZE
      modifies this`tailBlock, this`ring, this`slotsUsed, ring, newBlock
      ensures ring == old(ring) + [newBlock] && tailBlock == newBlock && slotsUsed == old(slotsUsed) + 1
      ensures IsRing(ring) && Stores(ring, allocations + 1 - slotsUsed, enqueued, headIndex, unread)
    {
      hide Shape, IsRing, IsBlock, Stores;
      InsertFacts();
      newBlock.ResetEmpty();
      EmptyBlock(newBlock, allocations, enqueued, headIndex, unread);
      StoresMore(ring, allocations - slotsUsed, enqueued, headIndex, unread, newBlock);
      Link(newBlock);
      tailBlock := newBlock;
      ring := ring + [newBlock];
      slotsUsed := slotsUsed + 1;
    }

    lemma RoomInWord()
      requires Shape() && tailIndex == allocations * BLOCK_SIZE && tailIndex + 1 < WORD
      ensures (allocations + 1) * BLOCK_SIZE <= WORD
      ensures slotsUsed == indexEntries.Length ==> level < 48 && slotsUsed > 0
    {
      hide IndexOk, Stores, IsRing, SlotOf, Wrap;
      WordInBlocks();
    }

    /** Enter the tail block, number `allocations`, into the index; `kept` blocks stay in it. */
    method EnterTailBlock(currentTailIndex: nat, ghost ring0: seq<Block<T>>, ghost kept: nat)
      requires level <= 48 && indexEntries.Length == Pow2(level) > 0 && currentTailIndex == allocations * BLOCK_SIZE
      requires IndexOk(indexEntries[..], origin, allocations, ring0) && nextFront == SlotOf(allocations, origin, indexEntries.Length)
      requires kept <= |ring0| && kept < indexEntries.Length
      requires tailBlock != null && ring == ring0[|ring0| - kept..] + [tailBlock]
      modifies this`indexFront, this`nextFront, this`allocations, indexEntries
      ensures IndexValid() && allocations == old(allocations) + 1
    {
      hide IndexOk, SlotOf, Wrap;
      EntryAdded(indexEntries[..], origin, allocations, ring0, tailBlock, kept);
      SlotStep(allocations, 1, origin, indexEntries.Length);
      indexEntries[nextFront] := Entry(currentTailIndex, tailBlock);
      indexFront := nextFront;
      nextFront := Wrap(nextFront + 1, indexEntries.Length);
      allocations := allocations + 1;
    }

    /** The first branch of `enqueue_begin_alloc`, with the index entry. */
    method AllocByReuse(currentTailIndex: nat)
      requires Shape() && ring != [] && ring[0].IsEmpty()
      requires currentTailIndex == tailIndex == allocations * BLOCK_SIZE && tailIndex + 1 < WORD
      modifies this`tailBlock, this`ring, this`indexFront, this`nextFront, this`allocations, indexEntries, ring
      ensures Shape() && allocations == old(allocations) + 1
      ensures ring == old(ring[1..] + [ring[0]])
    {
      hide IndexOk, Wrap, SlotOf, IsRing, Stores;
      ghost var ring0 := ring;
      RoomInWord();
      IndexFits(indexEntries[..], origin, allocations, ring);
      ReuseNext();
      EnterTailBlock(currentTailIndex, ring0, |ring0| - 1);
    }

    /** The second branch, with the index entry. */
    method AllocNewBlock(currentTailIndex: nat, newBlock: Block<T>)
      requires Shape() && newBlock !in ring && |newBlock.elements| == BLOCK_SIZE && slotsUsed < indexEntries.Length
      requires currentTailIndex == tailIndex == allocations * BLOCK_SIZE && tailIndex + 1 < WORD
      modifies this`tailBlock, this`ring, this`slotsUsed, this`indexFront, this`nextFront, this`allocations,
        indexEntries, ring, newBlock
      ensures Shape() && allocations == old(allocations) + 1
      ensures ring == old(ring) + [newBlock]
    {
      hide IndexOk, Wrap, SlotOf, IsRing, Stores;
      ghost var ring0 := ring;
      RoomInWord();
      InsertBlock(newBlock);
      EnterTailBlock(currentTailIndex, ring0, |ring0|);
    }

    /** There is an oldest block, and everything in it has been read. */
    ghost predicate OldestRead()
      reads this`ring, this`allocations, this`slotsUsed, this`headIndex, this`unread
    {
      var end := (allocations - slotsUsed) * BLOCK_SIZE + BLOCK_SIZE;
      ring != [] && end <= headIndex && forall i :: i in unread ==> end <= i
    }

    lemma EmptyIsRead()
      requires Shape()
      ensures OldestRead() <==> ring != [] && ring[0].IsEmpty()
    {
      hide IndexValid, IsRing, Read;
      if ring != [] {
        var first: nat := allocations - slotsUsed;
        assert IsBlock(ring[0], first, enqueued, headIndex, unread);
        if ring[0].IsEmpty() {
          ReadOut(headIndex, unread, first);
        }
        if OldestRead() {
          AllRead(headIndex, unread, first);
        }
      }
    }

    /** `enqueue_begin_alloc`: at the end of a block, reuse the next block if it is empty, else take a new
        one, after doubling the index if it is full. */
    method EnqueueBeginAlloc(currentTailIndex: nat, newBlock: Block<T>)
      requires Shape() && currentTailIndex == tailIndex == allocations * BLOCK_SIZE && tailIndex + 1 < WORD
      requires newBlock !in ring && |newBlock.elements| == BLOCK_SIZE
      modifies this`tailBlock, this`ring, this`slotsUsed, this`indexEntries, this`indexFront, this`nextFront,
        this`origin, this`level, this`allocations, indexEntries, ring, newBlock
      ensures Shape() && allocations == old(allocations) + 1
      ensures ring == if old(OldestRead()) then old(ring[1..] + [ring[0]]) else old(ring) + [newBlock]
      ensures forall b :: b in ring ==> b in old(ring) || b == newBlock
      ensures if !old(OldestRead()) && old(slotsUsed == indexEntries.Length)
              then fresh(indexEntries) && indexEntries.Length == 2 * old(indexEntries.Length)
              else indexEntries == old(indexEntries)
    {
      hide IndexOk, Wrap, SlotOf, IsRing, Stores, OldestRead;
      InsertFacts();
      EmptyIsRead();
      if tailBlock != null && tailBlock.next.IsEmpty() {
        AllocByReuse(currentTailIndex);
      } else {
        if slotsUsed == indexEntries.Length {
          RoomInWord();
          NewBlockIndex();
        }
        IndexFits(indexEntries[..], origin, allocations, ring);
        AllocNewBlock(currentTailIndex, newBlock);
      }
    }

    /** Where the next element goes: into the tail block, which is the last one of the ring. */
    lemma TailFacts()
      requires Shape() && allocations > 0 && (allocations - 1) * BLOCK_SIZE <= tailIndex < allocations * BLOCK_SIZE
      ensures ring != [] && |ring| == slotsUsed <= allocations
      ensures tailBlock == ring[|ring| - 1] && |tailBlock.elements| == BLOCK_SIZE
      ensures tailIndex % BLOCK_SIZE == tailIndex - (allocations - 1) * BLOCK_SIZE
      ensures tailIndex == |enqueued| && (allocations - slotsUsed) * BLOCK_SIZE <= headIndex <= tailIndex
      ensures forall i, j :: 0 <= i < j < |ring| ==> ring[i] != ring[j]
      ensures forall i {:trigger ring[i]} :: 0 <= i < |ring| ==>
                && Stored(ring[i].elements, allocations - slotsUsed + i, enqueued)
                && ring[i].elementsCompletelyDequeued == Read(headIndex, unread, allocations - slotsUsed + i)
    {
      hide IndexValid;
      assert ring[|ring| - 1] == tailBlock;
    }

    method StoreAtTail(x: T)
      requires Shape() && allocations > 0 && (allocations - 1) * BLOCK_SIZE <= tailIndex < allocations * BLOCK_SIZE
      requires tailBlock != null && tailBlock in ring
      modifies tailBlock`elements, this`tailIndex, this`enqueued
      ensures Shape() && enqueued == old(enqueued) + [x] && tailIndex == old(tailIndex) + 1
    {
      hide IndexOk, IndexValid, Wrap, SlotOf, Stored, Read;
      TailFacts();
      ghost var first, all, tail := allocations - slotsUsed, enqueued, tailBlock;
      ghost var es := tailBlock.elements;
      tailBlock.elements := tailBlock.elements[tailIndex % BLOCK_SIZE := x];
      tailIndex := tailIndex + 1;
      enqueued := enqueued + [x];
      StoredHere(es, allocations - 1, all, x);
      forall i {:trigger ring[i]} | 0 <= i < |ring| ensures IsBlock(ring[i], first + i, enqueued, headIndex, unread) {
        if ring[i] != tail {
          StoredMore(ring[i].elements, first + i, all, x);
        }
      }
    }

    lemma TailPosition()
      requires Valid()
      ensures headIndex <= tailIndex == |enqueued|
      ensures if tailIndex % BLOCK_SIZE == 0 then tailIndex == allocations * BLOCK_SIZE
              else allocations > 0 && (allocations - 1) * BLOCK_SIZE <= tailIndex < allocations * BLOCK_SIZE
    {
      hide IndexValid, IsRing, Stores;
    }

    /** Enqueue one element; `newBlock` is the block that the block source would hand out. */
    method Enqueue(x: T, newBlock: Block<T>)
      requires Valid() && tailIndex + 1 < WORD
      requires newBlock !in ring && |newBlock.elements| == BLOCK_SIZE
      modifies this, indexEntries, ring, newBlock
      ensures Valid() && enqueued == old(enqueued) + [x] && unread == old(unread)
      ensures Contents() == old(Contents()) + [x]
      ensures ring == if old(tailIndex) % BLOCK_SIZE != 0 then old(ring)
                      else if old(OldestRead()) then old(ring[1..] + [ring[0]]) else old(ring) + [newBlock]
      ensures indexEntries == old(indexEntries) || (fresh(indexEntries) && indexEntries.Length == 2 * old(indexEntries.Length))
    {
      hide Shape, OldestRead;
      TailPosition();
      var currentTailIndex := tailIndex;
      if currentTailIndex % BLOCK_SIZE == 0 {
        EnqueueBeginAlloc(currentTailIndex, newBlock);
      }
      TailFacts();
      assert tailBlock in ring;
      StoreAtTail(x);
    }

    /** The block and the slot that the look-up of `dequeue_bulk` finds for an element that has not been read. */
    lemma LookUpFacts(index: nat)
      requires Shape() && index in unread
      ensures var a, size := index / BLOCK_SIZE, indexEntries.Length;
              && allocations - slotsUsed <= a < allocations && 0 <= indexFront < size
              && indexEntries[indexFront].base == (allocations - 1) * BLOCK_SIZE
              && SlotOf(a, origin, size) == Wrap(indexFront + Offset(index - index % BLOCK_SIZE, indexEntries[indexFront].base), size)
    {
      hide IsRing, Stores, Wrap, Offset;
      var a := index / BLOCK_SIZE;
      IndexFits(indexEntries[..], origin, allocations, ring);
      EntryAt(indexEntries[..], origin, allocations, ring, allocations - 1);
      assert index - index % BLOCK_SIZE == a * BLOCK_SIZE;
      LookUp(a, allocations, origin, level);
    }

    lemma BlockFacts(index: nat)
      requires Shape() && index in unread
      ensures var a, size, first := index / BLOCK_SIZE, indexEntries.Length, allocations - slotsUsed;
              && first <= a < allocations && size > 0
              && indexEntries[SlotOf(a, origin, size)].block == ring[a - first]
              && ring[a - first] in ring && IsBlock(ring[a - first], a, enqueued, headIndex, unread)
    {
      hide IsRing, SlotOf, IsBlock;
      var a := index / BLOCK_SIZE;
      EntryAt(indexEntries[..], origin, allocations, ring, a);
    }

    /** Taking elements out of one block counts there and changes nothing else. */
    method TakeFromBlock(block: Block<T>, ghost a: nat, index: nat, endIndex: nat) returns (out: seq<T>)
      requires Shape() && allocations - slotsUsed <= a < allocations && block == ring[a - (allocations - slotsUsed)]
      requires a * BLOCK_SIZE <= index < endIndex <= a * BLOCK_SIZE + BLOCK_SIZE && endIndex <= headIndex
      requires Indices(index, endIndex) <= unread
      modifies this`unread, block`elementsCompletelyDequeued
      ensures Shape() && out == enqueued[index..endIndex] && unread == old(unread) - Indices(index, endIndex)
    {
      hide IndexValid, Stored, Read, Indices;
      ghost var first, before := allocations - slotsUsed, unread;
      assert IsBlock(block, a, enqueued, headIndex, unread);
      assert index % BLOCK_SIZE == index - a * BLOCK_SIZE;
      StoredStretch(block.elements, a, enqueued, index, endIndex);
      out := block.elements[index % BLOCK_SIZE..index % BLOCK_SIZE + (endIndex - index)];
      ReadAtMost(headIndex, before - Indices(index, endIndex), a);
      ReadStretch(headIndex, before, index, endIndex, a, a);
      block.SetManyEmpty(endIndex - index);
      unread := before - Indices(index, endIndex);
      StoresRead(ring, first, enqueued, headIndex, before, a, index, endIndex);
    }

    lemma RangeFacts(firstIndex: nat, actualCount: nat)
      requires Shape() && actualCount > 0 && Indices(firstIndex, firstIndex + actualCount) <= unread
      ensures firstIndex in unread && firstIndex + actualCount <= headIndex <= |enqueued|
    {
      hide IndexValid, IsRing, Stores;
      var last := firstIndex + actualCount - 1;
      assert firstIndex in Indices(firstIndex, last + 1) && last in Indices(firstIndex, last + 1);
    }

    /** The second half of `dequeue_bulk`: the elements of a claimed range, block by block. Other consumers may
        have claimed other ranges, and elements may have been enqueued since. */
    method TakeRange(firstIndex: nat, actualCount: nat) returns (out: seq<T>)
      requires Valid() && actualCount > 0 && Indices(firstIndex, firstIndex + actualCount) <= unread
      modifies this`unread, ring
      ensures Valid() && unread == old(unread) - Indices(firstIndex, firstIndex + actualCount)
      ensures firstIndex + actualCount <= headIndex && out == enqueued[firstIndex..firstIndex + actualCount]
    {
      hide Shape, IsBlock, SlotOf, Wrap, Offset, Indices, BlockEnd;
      ghost var last := firstIndex + actualCount;
      RangeFacts(firstIndex, actualCount);
      LookUpFacts(firstIndex);
      var size := indexEntries.Length;
      var indexIndex := Wrap(indexFront + Offset(firstIndex - firstIndex % BLOCK_SIZE, indexEntries[indexFront].base), size);
      var index := firstIndex;
      out := [];
      while index != firstIndex + actualCount
        invariant firstIndex <= index <= last <= headIndex && Valid()
        invariant unread == old(unread) - Indices(firstIndex, index)
        invariant index < last ==> indexIndex == SlotOf(index / BLOCK_SIZE, origin, size)
        invariant out == enqueued[firstIndex..index]
      {
        var endIndex := BlockEnd(index);
        if firstIndex + actualCount < endIndex {
          endIndex := firstIndex + actualCount;
        }
        ghost var a := index / BLOCK_SIZE;
        EndsInBlock(index, endIndex);
        IndicesSplit(firstIndex, index, endIndex, last);
        BlockFacts(index);
        SlotStep(a, 1, origin, size);
        var some := TakeFromBlock(indexEntries[indexIndex].block, a, index, endIndex);
        out := out + some;
        TakenMore(enqueued, firstIndex, index, endIndex);
        index := endIndex;
        indexIndex := Wrap(indexIndex + 1, size);
      }
    }

    /** The accesses of `dequeue_bulk` before the head moves, with no other consumer in between: the claim
        is never too large, so nothing is added to the overcommit. */
    method Count() returns (actualCount: nat)
      requires headIndex <= tailIndex && headIndex == dequeueOptimisticCount - dequeueOvercommit
      modifies this`dequeueOptimisticCount
      ensures actualCount == if tailIndex - headIndex < MAX_DEQUEUE then tailIndex - headIndex else MAX_DEQUEUE
      ensures dequeueOptimisticCount == old(dequeueOptimisticCount) + actualCount
    {
      actualCount := 0;
      var desiredCount := tailIndex - (dequeueOptimisticCount - dequeueOvercommit);
      if 0 < desiredCount {
        desiredCount := if desiredCount < MAX_DEQUEUE then desiredCount else MAX_DEQUEUE;
        var myDequeueCount := dequeueOptimisticCount;
        dequeueOptimisticCount := dequeueOptimisticCount + desiredCount;
        actualCount := tailIndex - (myDequeueCount - dequeueOvercommit);
        actualCount := if desiredCount < actualCount then desiredCount else actualCount;
      }
    }

    /** The first half of `dequeue_bulk`: the claimed range follows everything claimed before. */
    method Claim() returns (firstIndex: nat, actualCount: nat)
      requires Valid()
      modifies this`headIndex, this`dequeueOptimisticCount, this`unread
      ensures Valid() && firstIndex == old(headIndex) && headIndex == firstIndex + actualCount <= |enqueued|
      ensures actualCount == if |old(Contents())| < MAX_DEQUEUE then |old(Contents())| else MAX_DEQUEUE
      ensures unread == old(unread) + Indices(firstIndex, headIndex)
      ensures Indices(firstIndex, headIndex) !! old(unread)
    {
      hide CountersOk, IndexValid, IsRing, Stores, Indices;
      CountersFacts();
      firstIndex := headIndex;
      actualCount := Count();
      StoresClaimed(ring, allocations - slotsUsed, enqueued, headIndex, unread, headIndex + actualCount);
      unread := unread + Indices(headIndex, headIndex + actualCount);
      headIndex := headIndex + actualCount;
    }

    /** `dequeue_bulk`: claim a range and take its elements. */
    method DequeueBulk() returns (out: seq<T>)
      requires Valid()
      modifies this`headIndex, this`dequeueOptimisticCount, this`unread, ring
      ensures Valid() && enqueued == old(enqueued) && unread == old(unread)
      ensures |out| == if |old(Contents())| < MAX_DEQUEUE then |old(Contents())| else MAX_DEQUEUE
      ensures old(Contents()) == out + Contents()
    {
      hide Shape;
      var firstIndex, actualCount := Claim();
      out := [];
      if actualCount > 0 {
        out := TakeRange(firstIndex, actualCount);
      }
      assert Indices(firstIndex, firstIndex) == {};
    }
  }
}
