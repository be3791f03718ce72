/** The pool allocator as a value (engine/include/Allocators.h): equal blocks on a free list. */
module PoolSpec {
  // Sizes are 64-bit machine words.
  const WORD := 0x1_0000_0000_0000_0000

  datatype Pool = Pool(blockSize: nat, blockCount: nat, free: seq<nat>, outstanding: set<nat>)

  datatype Answer = Block(index: nat) | InvalidSize | OutOfMemory

  datatype Action = Allocate(count: nat, typeSize: nat) | Deallocate(block: int) | Reset

  const NULL := -1

  /** The list after initialisation: the last block first. */
  function FullList(n: nat): (l: seq<nat>) {
    if n == 0 then [] else [n - 1] + FullList(n - 1)
  }

  function NewPool(blockCount: nat, blockSize: nat): Pool { Pool(blockSize, blockCount, FullList(blockCount), {}) }

  /** The product wraps around, as the sizes it is computed from do. */
  function AllocateAnswer(p: Pool, count: nat, typeSize: nat): Answer {
    if count * typeSize % WORD != p.blockSize then InvalidSize
    else if p.free == [] then OutOfMemory
    else Block(p.free[0])
  }

  function Do(p: Pool, a: Action): Pool {
    match a
    case Allocate(count, typeSize) =>
      (match AllocateAnswer(p, count, typeSize)
       case Block(b) => p.(free := p.free[1..], outstanding := p.outstanding + {b})
       case _ => p)
    case Deallocate(block) =>
      if block < 0 then p else p.(free := [block] + p.free, outstanding := p.outstanding - {block})
    case Reset => p.(free := FullList(p.blockCount), outstanding := {})
  }

  /** Only outstanding blocks are given back, or null. */
  predicate Allowed(p: Pool, a: Action) {
    a.Deallocate? ==> a.block == NULL || (a.block >= 0 && a.block in p.outstanding)
  }

  /** Every block is on the list once or outstanding, and not both. */
  ghost predicate Partition(p: Pool) {
    && (forall i, j :: 0 <= i < j < |p.free| ==> p.free[i] != p.free[j])
    && (forall b: nat :: b < p.blockCount <==> b in p.free || b in p.outstanding)
    && (forall b :: b in p.free ==> b !in p.outstanding)
  }

  lemma {:induction false} FullListIs(n: nat)
    ensures |FullList(n)| == n && forall i :: 0 <= i < n ==> FullList(n)[i] == n - 1 - i
  {
    if n > 0 {
      FullListIs(n - 1);
    }
  }

  lemma FullIsPartition(p: Pool)
    requires p.free == FullList(p.blockCount) && p.outstanding == {}
    ensures Partition(p)
  {
    FullListIs(p.blockCount);
    forall b: nat ensures b < p.blockCount <==> b in p.free {
      if b < p.blockCount {
        assert p.free[p.blockCount - 1 - b] == b;
      }
    }
  }

  /** After a reset all blocks are free, as in a new pool. */
  lemma ResetIsNew(p: Pool)
    ensures Do(p, Reset) == NewPool(p.blockCount, p.blockSize)
  {
  }

  /** A step keeps the partition, when only outstanding blocks are given back. */
  lemma DoKeepsPartition(p: Pool, a: Action)
    requires Partition(p) && Allowed(p, a)
    ensures Partition(Do(p, a))
  {
    var p' := Do(p, a);
    match a {
      case Allocate(_, _) =>
        if p'.free != p.free {
          assert p.free == [p.free[0]] + p'.free;
        }
      case Deallocate(_) =>
      case Reset => FullIsPartition(p');
    }
  }

  /** Giving back breaks the partition otherwise: it is kept exactly when the block is outstanding. */
  lemma GivingBackExactly(p: Pool, block: nat)
    requires Partition(p)
    ensures Partition(Do(p, Deallocate(block))) <==> block in p.outstanding
  {
    var p' := Do(p, Deallocate(block));
    assert p'.free[0] == block;
    if block in p.outstanding {
      DoKeepsPartition(p, Deallocate(block));
    } else if block in p.free {
      var i :| 0 <= i < |p.free| && p.free[i] == block;
      assert p'.free[i + 1] == block;
    } else {
      assert block in p'.free;
    }
  }

  function Run(p: Pool, actions: seq<Action>): Pool {
    if actions == [] then p else Do(Run(p, actions[..|actions| - 1]), actions[|actions| - 1])
  }

  predicate AllAllowed(p: Pool, actions: seq<Action>) {
    actions == []
    || (AllAllowed(p, actions[..|actions| - 1]) && Allowed(Run(p, actions[..|actions| - 1]), actions[|actions| - 1]))
  }

  lemma {:induction false} RunKeepsPartition(blockCount: nat, blockSize: nat, actions: seq<Action>)
    requires AllAllowed(NewPool(blockCount, blockSize), actions)
    ensures var p := Run(NewPool(blockCount, blockSize), actions);
            Partition(p) && p.blockCount == blockCount && p.blockSize == blockSize
    decreases |actions|
  {
    if actions == [] {
      FullIsPartition(NewPool(blockCount, blockSize));
    } else {
      var before := actions[..|actions| - 1];
      RunKeepsPartition(blockCount, blockSize, before);
      DoKeepsPartition(Run(NewPool(blockCount, blockSize), before), actions[|actions| - 1]);
    }
  }

  lemma {:induction false} Members(l: seq<nat>, s: set<nat>)
    requires forall i, j :: 0 <= i < j < |l| ==> l[i] != l[j]
    requires forall b :: b in l <==> b in s
    ensures |l| == |s|
  {
    if l == [] {
      assert s == {};
    } else {
      assert l == [l[0]] + l[1..];
      Members(l[1..], s - {l[0]});
    }
  }

  lemma {:induction false} Below(n: nat) returns (s: set<nat>)
    ensures |s| == n && forall b: nat :: b in s <==> b < n
  {
    s := {};
    if n > 0 {
      var s' := Below(n - 1);
      s := s' + {n - 1};
      assert n - 1 !in s';
    }
  }

  /** Over every run no outstanding block is handed out, a request of the right size fails exactly when
      all blocks are outstanding, and no block is lost. */
  lemma {:induction false} NeverHandedOutTwice(blockCount: nat, blockSize: nat, actions: seq<Action>, count: nat,
                                               typeSize: nat)
    requires AllAllowed(NewPool(blockCount, blockSize), actions)
    ensures var p := Run(NewPool(blockCount, blockSize), actions);
            var answer := AllocateAnswer(p, count, typeSize);
            && |p.free| + |p.outstanding| == blockCount
            && (answer.Block? ==> answer.index < blockCount && answer.index !in p.outstanding)
            && (answer.InvalidSize? <==> count * typeSize % WORD != blockSize)
            && (answer.OutOfMemory? <==> count * typeSize % WORD == blockSize && |p.outstanding| == blockCount)
  {
    RunKeepsPartition(blockCount, blockSize, actions);
    var p := Run(NewPool(blockCount, blockSize), actions);
    var all := Below(blockCount);
    assert p.outstanding <= all;
    Members(p.free, all - p.outstanding);
    if p.free != [] {
      assert p.free[0] in p.free;
    }
  }

  /** The block given back last is handed out next. */
  lemma LastInFirstOut(p: Pool, block: nat, count: nat, typeSize: nat)
    requires Partition(p) && block in p.outstanding && count * typeSize % WORD == p.blockSize
    ensures var p' := Do(p, Deallocate(block));
            AllocateAnswer(p', count, typeSize) == Block(block) && Do(p', Allocate(count, typeSize)) == p
  {
    var p' := Do(p, Deallocate(block));
    assert p'.free[1..] == p.free;
    assert p.outstanding - {block} + {block} == p.outstanding;
  }
}
