/** The pool of fixed-size blocks that partial frames and messages are kept in. */
module CharPool {
  import opened Bytes

  /** How many blocks are added when the pool runs dry. */
  const MORE_BLOCKS: nat := 2000

  class Pool {
    const blockSize: nat
    var poolQueue: seq<array<Byte>>
    ghost var Lent: set<array<Byte>>  // handed out and not yet given back
    ghost var Repr: set<object>

    ghost predicate Valid()
      reads this
    {
      && this !in Repr
      && blockSize >= 4
      && (forall b <- poolQueue :: b in Repr && b !in Lent && b.Length == blockSize)
      && (forall b <- Lent :: b in Repr && b.Length == blockSize)
      && (forall i, j :: 0 <= i < j < |poolQueue| ==> poolQueue[i] != poolQueue[j])
    }

    constructor (blockSize: nat)
      requires blockSize >= 4
      ensures Valid() && this.blockSize == blockSize && Lent == {} && Repr == {}
    {
      this.blockSize := blockSize;
      poolQueue, Lent, Repr := [], {}, {};
    }

    method Grow()
      requires Valid()
      modifies this
      ensures Valid() && Lent == old(Lent) && old(Repr) <= Repr && fresh(Repr - old(Repr))
      ensures |poolQueue| == |old(poolQueue)| + MORE_BLOCKS
    {
      for j := 0 to MORE_BLOCKS
        invariant Valid() && Lent == old(Lent) && old(Repr) <= Repr && fresh(Repr - old(Repr))
        invariant |poolQueue| == |old(poolQueue)| + j
      {
        var b := new Byte[blockSize];
        poolQueue, Repr := poolQueue + [b], Repr + {b};
      }
    }

    /** A block nobody holds; its contents are whatever its last holder left. */
    method Malloc() returns (b: array<Byte>)
      requires Valid()
      modifies this
      ensures Valid() && old(Repr) <= Repr && fresh(Repr - old(Repr))
      ensures b !in old(Lent) && Lent == old(Lent) + {b} && b.Length == blockSize
      ensures old(poolQueue) != [] ==> old(poolQueue) == [b] + poolQueue
    {
      if poolQueue == [] {
        Grow();
      }
      b, poolQueue := poolQueue[0], poolQueue[1..];
      Lent := Lent + {b};
    }

    /** Only a block that is lent out can be given back. Clears its first four bytes, which
        is what the size of an integer literal amounts to. */
    method Free(b: array<Byte>)
      requires Valid() && b in Lent
      modifies this, b
      ensures Valid() && Repr == old(Repr) && Lent == old(Lent) - {b}
      ensures poolQueue == old(poolQueue) + [b]
      ensures b[..4] == [0, 0, 0, 0] && b[4..] == old(b[4..])
    {
      forall i | 0 <= i < 4 {
        b[i] := 0;
      }
      poolQueue := poolQueue + [b];
      Lent := Lent - {b};
    }
  }
}
