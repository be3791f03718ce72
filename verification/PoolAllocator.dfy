/** The pool allocator (engine/include/Allocators.h) with its intrusive free list. */
module PoolObject {
  import opened PoolSpec

  /** The first bytes of a free block hold the link to the next one; what an outstanding block holds is
      up to its owner. Links are block numbers, null is -1. */
  class PoolAllocator {
    const blockSize: nat
    const blockCount: nat
    const pool: array<int>
    var poolList: int
    ghost var free: seq<nat>
    ghost var outstanding: set<nat>

    ghost function View(): Pool
      reads this
    {
      Pool(blockSize, blockCount, free, outstanding)
    }

    /** The links from the head lead through the free list and end in null. */
    ghost predicate IsList(head: int, l: seq<nat>)
      reads pool
    {
      && (forall i :: 0 <= i < |l| ==> l[i] < pool.Length)
      && head == (if l == [] then NULL else l[0])
      && forall i {:trigger l[i]} :: 0 <= i < |l| ==> pool[l[i]] == LinkAfter(l, i)
    }

    static function LinkAfter(l: seq<nat>, i: nat): int { if i + 1 < |l| then l[i + 1] else NULL }

    lemma TailOfList(head: int, l: seq<nat>)
      requires IsList(head, l) && l != []
      ensures IsList(pool[l[0]], l[1..])
    {
      var l' := l[1..];
      assert pool[l[0]] == LinkAfter(l, 0);
      forall i {:trigger l'[i]} | 0 <= i < |l'| ensures l'[i] < pool.Length && pool[l'[i]] == LinkAfter(l', i) {
        assert l'[i] == l[i + 1];
      }
    }

    /** A list grows at its head when the new block links to the old head. */
    lemma Linked(head: int, l: seq<nat>, block: nat)
      requires IsList(head, l) && block < pool.Length && pool[block] == head
      ensures IsList(block, [block] + l)
    {
      var l' := [block] + l;
      forall i {:trigger l'[i]} | 0 <= i < |l'| ensures l'[i] < pool.Length && pool[l'[i]] == LinkAfter(l', i) {
        if i > 0 {
          assert l'[i] == l[i - 1];
        }
      }
    }

    ghost predicate Valid()
      reads this, pool
    {
      pool.Length == blockCount && IsList(poolList, free) && Partition(View())
    }

    constructor (blockCount: nat, blockSize: nat)
      ensures Valid() && View() == NewPool(blockCount, blockSize) && fresh(pool)
    {
      this.blockCount, this.blockSize := blockCount, blockSize;
      pool := new int[blockCount];
      poolList, free, outstanding := NULL, [], {};
      new;
      InitializePoolList();
    }

    method InitializePoolList()
      requires pool.Length == blockCount
      modifies this`poolList, this`free, this`outstanding, pool
      ensures Valid() && View() == Do(old(View()), PoolSpec.Reset)
    {
      poolList := NULL;
      for i := 0 to blockCount
        invariant IsList(poolList, FullList(i))
      {
        FullListIs(i);
        FullListIs(i + 1);
        pool[i] := poolList;
        poolList := i;
      }
      free, outstanding := FullList(blockCount), {};
      FullIsPartition(View());
    }

    method Reset()
      requires Valid()
      modifies this`poolList, this`free, this`outstanding, pool
      ensures Valid() && View() == Do(old(View()), PoolSpec.Reset)
    {
      InitializePoolList();
    }

    method Allocate(count: nat, typeSize: nat) returns (answer: Answer)
      requires Valid()
      modifies this`poolList, this`free, this`outstanding
      ensures Valid() && View() == Do(old(View()), PoolSpec.Allocate(count, typeSize))
      ensures answer == AllocateAnswer(old(View()), count, typeSize)
    {
      if count * typeSize % WORD != blockSize {
        return InvalidSize;
      }
      if poolList == NULL {
        return OutOfMemory;
      }
      ghost var p, l := View(), free;
      DoKeepsPartition(p, PoolSpec.Allocate(count, typeSize));
      TailOfList(poolList, l);
      answer := Block(poolList);
      outstanding := outstanding + {poolList};
      poolList := pool[poolList];
      free := l[1..];
      assert View() == Do(p, PoolSpec.Allocate(count, typeSize));
    }

    /** Whatever block of the pool is given back becomes the head of the list; the pool stays valid exactly
        if it was outstanding. */
    method Deallocate(block: int)
      requires Valid() && NULL <= block < blockCount
      modifies this`poolList, this`free, this`outstanding, pool
      ensures View() == Do(old(View()), PoolSpec.Deallocate(block))
      ensures Valid() <==> Allowed(old(View()), PoolSpec.Deallocate(block))
      ensures block != NULL ==> poolList == block && pool[..] == old(pool[..])[block := old(poolList)]
      ensures block == NULL ==> poolList == old(poolList) && pool[..] == old(pool[..])
    {
      if block == NULL {
        return;
      }
      ghost var p, l := View(), free;
      GivingBackExactly(p, block);
      pool[block] := poolList;
      if block in p.outstanding {
        Linked(poolList, l, block);
      }
      poolList := block;
      outstanding := outstanding - {block};
      free := [block] + l;
      assert View() == Do(p, PoolSpec.Deallocate(block));
    }

    /** An owner may write anything into its block. */
    method WriteIntoBlock(block: nat, anything: int)
      requires Valid() && block in outstanding
      modifies pool
      ensures Valid() && View() == old(View())
    {
      pool[block] := anything;
    }
  }
}
