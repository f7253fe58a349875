/** The fixed-capacity order pool. Order pointers are indices into its storage, so the
    intrusive `prev`/`next` links of the price levels are ordinary indices too. */
module ObjectPool {
  import opened Types

  type Ptr = int

  const NIL: Ptr := -1

  /** A storage cell: an order and its two list links. */
  datatype Node = Node(order: Order, prev: Ptr, next: Ptr)

  const BLANK: Node := Node(Order(0, 0, 0, 0, 0, 0, Buy, Limit), NIL, NIL)

  ghost predicate InStore(mem: seq<Node>, p: Ptr) {
    0 <= p < |mem|
  }

  ghost predicate Distinct(q: seq<Ptr>) {
    forall i, j :: 0 <= i < j < |q| ==> q[i] != q[j]
  }

  class Pool {
    var storage: seq<Node>
    var free: seq<Ptr>
    var inUse: nat
    var highWater: nat
    /** The most cells ever in use at once. */
    ghost var peak: nat

    /** The free list is duplicate-free and, with the cells in use, accounts for all storage. */
    ghost predicate Valid()
      reads this
    {
      && Distinct(free)
      && (forall i :: 0 <= i < |free| ==> InStore(storage, free[i]))
      && |free| + inUse == |storage|
      && inUse <= peak <= |storage|
    }

    constructor (capacity: nat)
      ensures Valid() && |storage| == capacity && inUse == 0 && highWater == 0 && peak == 0
      ensures forall p :: 0 <= p < capacity ==> p in free
    {
      storage := seq(capacity, i => BLANK);
      free := [];
      inUse := 0;
      highWater := 0;
      peak := 0;
      new;
      var i: nat := capacity;
      while i > 0
        invariant i <= capacity && |storage| == capacity && inUse == 0 && highWater == 0 && peak == 0
        invariant |free| == capacity - i
        invariant forall k :: 0 <= k < |free| ==> free[k] == capacity - 1 - k
      {
        i := i - 1;
        free := free + [i];
      }
      forall p | 0 <= p < capacity ensures p in free {
        assert free[capacity - 1 - p] == p;
      }
    }

    /** The most recently released cell, or NIL exactly when every cell is in use. */
    method Acquire() returns (p: Ptr)
      requires Valid()
      modifies this`free, this`inUse, this`peak
      ensures Valid() && peak == if inUse > old(peak) then inUse else old(peak)
      ensures p == NIL <==> old(inUse) == |storage|
      ensures p == NIL ==> free == old(free) && inUse == old(inUse)
      ensures p != NIL ==> InStore(storage, p) && old(free) == free + [p] && p !in free && inUse == old(inUse) + 1
    {
      if |free| == 0 {
        return NIL;
      }
      p := free[|free| - 1];
      free := free[..|free| - 1];
      inUse := inUse + 1;
      peak := if inUse > peak then inUse else peak;
    }

    /** Give back a cell in use; a null pointer is ignored. */
    method Release(p: Ptr)
      requires Valid()
      requires p == NIL || (InStore(storage, p) && p !in free && inUse > 0)
      modifies this`storage, this`free, this`inUse
      ensures Valid()
      ensures p == NIL ==> storage == old(storage) && free == old(free) && inUse == old(inUse)
      ensures p != NIL ==> storage == old(storage)[p := BLANK] && free == old(free) + [p] && inUse == old(inUse) - 1
    {
      if p == NIL {
        return;
      }
      storage := storage[p := BLANK];
      free := free + [p];
      inUse := inUse - 1;
    }

    method TickHighWater()
      modifies this`highWater
      ensures highWater == if inUse > old(highWater) then inUse else old(highWater)
    {
      if inUse > highWater {
        highWater := inUse;
      }
    }
  }
}
