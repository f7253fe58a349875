/** The single-producer single-consumer queue as two threads, one memory access at a time. */
module SpscRing {
  import opened Types
  import opened Powers

  // An item takes two stores to write and two loads to read, and a load of the other thread's
  // index may return any value between the one last seen and the current one.

  /** A queued item, in the two halves it is written and read by. */
  datatype Item<T> = Item(lo: T, hi: T)

  /** Where the producer stands inside `try_push`. */
  datatype Producer<T> =
    | PushIdle
    | PushStale(v: Item<T>)      // looks full by the cached tail: about to reload it
    | PushWriting(v: Item<T>)    // slot claimed, nothing written yet
    | PushHalf(v: Item<T>)       // first half written
    | PushWritten(v: Item<T>)    // both halves written, index not yet published

  /** Where the consumer stands inside `try_pop`. */
  datatype Consumer<T> =
    | PopIdle
    | PopStale                   // looks empty by the cached head: about to reload it
    | PopReading                 // slot claimed, nothing read yet
    | PopHalf(lo: T)             // first half read
    | PopRead(v: Item<T>)        // both halves read, index not yet published

  /** Shared memory and both threads. `pushed` and `popped` are the items published and taken
      so far; `tailSeen` and `headSeen` count how far each thread has seen the other get. */
  datatype Ring<T> = Ring(
    cap: nat, buf: seq<Item<T>>, head: nat, tail: nat, tailCache: nat, headCache: nat,
    producer: Producer<T>, consumer: Consumer<T>,
    pushed: seq<Item<T>>, popped: seq<Item<T>>, tailSeen: nat, headSeen: nat)

  function Initial<T>(cap: nat, blank: Item<T>): (r: Ring<T>)
    requires cap >= 2
    ensures Inv(r)
  {
    Ring(cap, seq(cap, _ => blank), 0, 0, 0, 0, PushIdle, PopIdle, [], [], 0, 0)
  }

  /** One atomic action of one thread. A reload carries how many pops (pushes) it observes. */
  datatype Action<T> =
    | PushCall(v: Item<T>) | ReloadTail(seen: nat) | StoreLo | StoreHi | PublishHead
    | PopCall | ReloadHead(seen: nat) | LoadLo | LoadHi | PublishTail

  predicate Enabled<T>(r: Ring<T>, a: Action<T>) {
    match a
    case PushCall(_) => r.producer.PushIdle?
    case ReloadTail(seen) => r.producer.PushStale? && r.tailSeen <= seen <= |r.popped|
    case StoreLo => r.producer.PushWriting?
    case StoreHi => r.producer.PushHalf?
    case PublishHead => r.producer.PushWritten?
    case PopCall => r.consumer.PopIdle?
    case ReloadHead(seen) => r.consumer.PopStale? && r.headSeen <= seen <= |r.pushed|
    case LoadLo => r.consumer.PopReading?
    case LoadHi => r.consumer.PopHalf?
    case PublishTail => r.consumer.PopRead?
  }

  /** The memory a state must have for its accesses to be in bounds. */
  predicate Shaped<T>(r: Ring<T>) {
    r.cap >= 2 && |r.buf| == r.cap && r.head < r.cap && r.tail < r.cap
  }

  function Next(i: nat, cap: nat): nat
    requires cap >= 2
  {
    Rem(i + 1, cap)
  }

  /** The step is the source's masked increment: capacities are powers of two. */
  lemma NextIsMasked(i: nat, cap: nat)
    requires cap >= 2 && IsPow2(cap)
    ensures Next(i, cap) == And(i + 1, cap - 1)
  {
    MaskIsRem(i + 1, cap);
  }

  function Apply<T>(r: Ring<T>, a: Action<T>): Ring<T>
    requires Shaped(r) && Enabled(r, a)
  {
    match a
    case PushCall(v) =>
      r.(producer := if Next(r.head, r.cap) == r.tailCache then PushStale(v) else PushWriting(v))
    case ReloadTail(seen) =>
      var t := Rem(seen, r.cap);
      r.(tailCache := t, tailSeen := seen,
         producer := if Next(r.head, r.cap) == t then PushIdle else PushWriting(r.producer.v))
    case StoreLo =>
      r.(buf := r.buf[r.head := r.buf[r.head].(lo := r.producer.v.lo)], producer := PushHalf(r.producer.v))
    case StoreHi =>
      r.(buf := r.buf[r.head := r.buf[r.head].(hi := r.producer.v.hi)], producer := PushWritten(r.producer.v))
    case PublishHead =>
      r.(head := Next(r.head, r.cap), producer := PushIdle, pushed := r.pushed + [r.producer.v])
    case PopCall =>
      r.(consumer := if r.tail == r.headCache then PopStale else PopReading)
    case ReloadHead(seen) =>
      var h := Rem(seen, r.cap);
      r.(headCache := h, headSeen := seen, consumer := if r.tail == h then PopIdle else PopReading)
    case LoadLo =>
      r.(consumer := PopHalf(r.buf[r.tail].lo))
    case LoadHi =>
      r.(consumer := PopRead(Item(r.consumer.lo, r.buf[r.tail].hi)))
    case PublishTail =>
      r.(tail := Next(r.tail, r.cap), consumer := PopIdle, popped := r.popped + [r.consumer.v])
  }

  // --- the invariant ----------------------------------------------------------------------

  predicate Claimed<T>(p: Producer<T>) {
    p.PushWriting? || p.PushHalf? || p.PushWritten?
  }

  predicate Taking<T>(c: Consumer<T>) {
    c.PopReading? || c.PopHalf? || c.PopRead?
  }

  /** The indices are the counters wrapped to the capacity, the cached ones lag behind. */
  ghost predicate Counted<T>(r: Ring<T>)
    requires r.cap >= 2
  {
    var h, t := |r.pushed|, |r.popped|;
    && r.head == Rem(h, r.cap) && r.tail == Rem(t, r.cap)
    && r.tailCache == Rem(r.tailSeen, r.cap) && r.headCache == Rem(r.headSeen, r.cap)
    && r.tailSeen <= t <= r.headSeen <= h
    && h - r.tailSeen <= r.cap - 1
    && (Claimed(r.producer) ==> h - r.tailSeen < r.cap - 1)
    && (Taking(r.consumer) ==> t < r.headSeen)
  }

  /** Published items not yet taken sit intact in their slots. */
  ghost predicate Stored<T>(r: Ring<T>)
    requires Shaped(r)
  {
    forall k :: |r.popped| <= k < |r.pushed| ==> r.buf[Rem(k, r.cap)] == r.pushed[k]
  }

  /** What each thread has in hand. */
  ghost predicate InHand<T>(r: Ring<T>)
    requires Shaped(r)
  {
    && (r.producer.PushHalf? ==> r.buf[r.head].lo == r.producer.v.lo)
    && (r.producer.PushWritten? ==> r.buf[r.head] == r.producer.v)
    && (Taking(r.consumer) ==> |r.popped| < |r.pushed|)
    && (r.consumer.PopHalf? ==> r.consumer.lo == r.pushed[|r.popped|].lo)
    && (r.consumer.PopRead? ==> r.consumer.v == r.pushed[|r.popped|])
  }

  /** Items come out in the order they went in. */
  ghost predicate InOrder<T>(r: Ring<T>) {
    |r.popped| <= |r.pushed| && r.popped == r.pushed[..|r.popped|]
  }

  ghost predicate Inv<T>(r: Ring<T>) {
    Shaped(r) && Counted(r) && Stored(r) && InHand(r) && InOrder(r)
  }

  lemma {:induction false} WrapStep(x: nat, n: nat)
    requires n > 0
    ensures Rem(Rem(x, n) + 1, n) == Rem(x + 1, n)
  {
    if x >= n { WrapStep(x - n, n); }
  }

  /** Counters less than a full turn apart wrap to different slots. */
  lemma {:induction false} WrapsApart(a: nat, b: nat, n: nat)
    requires n > 0 && a <= b < a + n
    ensures Rem(a, n) == Rem(b, n) <==> a == b
  {
    if a >= n {
      WrapsApart(a - n, b - n, n);
    } else if b >= n {
      assert Rem(b - n, n) == b - n;
    }
  }

  /** `next == tail` by index exactly when the ring is full by count. */
  lemma LooksFull(h: nat, t: nat, cap: nat)
    requires cap >= 2 && t <= h <= t + cap - 1
    ensures Next(Rem(h, cap), cap) == Rem(t, cap) <==> h - t == cap - 1
  {
    WrapStep(h, cap);
    if h - t < cap - 1 {
      WrapsApart(t, h + 1, cap);
    }
  }

  // --- every action keeps it ----------------------------------------------------------------

  lemma ProducerKeepsInv<T>(r: Ring<T>, a: Action<T>)
    requires Inv(r) && Enabled(r, a)
    requires a.PushCall? || a.ReloadTail?
    ensures Inv(Apply(r, a))
  {
    hide Rem;
    LooksFull(|r.pushed|, if a.PushCall? then r.tailSeen else a.seen, r.cap);
  }

  lemma StoreKeepsInv<T>(r: Ring<T>, a: Action<T>)
    requires Inv(r) && Enabled(r, a) && (a.StoreLo? || a.StoreHi?)
    ensures Inv(Apply(r, a))
  {
    hide Rem;
    forall k | |r.popped| <= k < |r.pushed| ensures Rem(k, r.cap) != r.head {
      WrapsApart(k, |r.pushed|, r.cap);
    }
  }

  lemma PublishHeadKeepsInv<T>(r: Ring<T>)
    requires Inv(r) && Enabled(r, PublishHead)
    ensures Inv(Apply(r, PublishHead))
  {
    hide Rem;
    WrapStep(|r.pushed|, r.cap);
  }

  lemma ConsumerKeepsInv<T>(r: Ring<T>, a: Action<T>)
    requires Inv(r) && Enabled(r, a) && (a.PopCall? || a.ReloadHead? || a.LoadLo? || a.LoadHi?)
    ensures Inv(Apply(r, a))
  {
    hide Rem;
    if a.PopCall? { WrapsApart(|r.popped|, r.headSeen, r.cap); }
    if a.ReloadHead? { WrapsApart(|r.popped|, a.seen, r.cap); }
  }

  lemma PublishTailKeepsInv<T>(r: Ring<T>)
    requires Inv(r) && Enabled(r, PublishTail)
    ensures Inv(Apply(r, PublishTail))
  {
    hide Rem;
    WrapStep(|r.popped|, r.cap);
  }

  lemma ApplyKeepsInv<T>(r: Ring<T>, a: Action<T>)
    requires Inv(r) && Enabled(r, a)
    ensures Inv(Apply(r, a))
  {
    hide Inv, Apply;
    match a
    case PushCall(_) => ProducerKeepsInv(r, a);
    case ReloadTail(_) => ProducerKeepsInv(r, a);
    case StoreLo => StoreKeepsInv(r, a);
    case StoreHi => StoreKeepsInv(r, a);
    case PublishHead => PublishHeadKeepsInv(r);
    case PublishTail => PublishTailKeepsInv(r);
    case _ => ConsumerKeepsInv(r, a);
  }

  // --- whole interleavings ------------------------------------------------------------------

  /** Every action of the schedule is enabled when its turn comes. */
  ghost predicate Legal<T>(r: Ring<T>, schedule: seq<Action<T>>)
    requires Inv(r)
    decreases |schedule|
  {
    schedule != [] ==>
      && Enabled(r, schedule[0])
      && (ApplyKeepsInv(r, schedule[0]); Legal(Apply(r, schedule[0]), schedule[1..]))
  }

  ghost function Play<T>(r: Ring<T>, schedule: seq<Action<T>>): (z: Ring<T>)
    requires Inv(r) && Legal(r, schedule)
    ensures Inv(z) && z.cap == r.cap
    decreases |schedule|
  {
    if schedule == [] then r
    else
      ApplyKeepsInv(r, schedule[0]);
      Play(Apply(r, schedule[0]), schedule[1..])
  }

  /** Under every interleaving and every choice of stale values: no item is lost, repeated,
      reordered or torn, and at most capacity - 1 are in flight. While the producer owns a slot
      it is neither the one being read nor one that holds an item not yet taken; the slot the
      consumer owns holds the oldest such item, whole. */
  lemma SafeUnderEveryInterleaving<T>(cap: nat, blank: Item<T>, schedule: seq<Action<T>>)
    requires cap >= 2 && Legal(Initial(cap, blank), schedule)
    ensures var z := Play(Initial(cap, blank), schedule);
            && z.popped <= z.pushed
            && |z.pushed| - |z.popped| <= cap - 1
            && (Claimed(z.producer) ==> forall k :: |z.popped| <= k < |z.pushed| ==> Rem(k, cap) != z.head)
            && (Claimed(z.producer) && Taking(z.consumer) ==> z.head != z.tail)
            && (Taking(z.consumer) ==> |z.popped| < |z.pushed| && z.buf[z.tail] == z.pushed[|z.popped|])
  {
    var z := Play(Initial(cap, blank), schedule);
    forall k | |z.popped| <= k < |z.pushed| && Claimed(z.producer) ensures Rem(k, cap) != z.head {
      WrapsApart(k, |z.pushed|, cap);
    }
    if Taking(z.consumer) {
      assert z.buf[Rem(|z.popped|, cap)] == z.pushed[|z.popped|];
    }
  }

  /** A push gives up exactly when, by the tail it reloaded, capacity - 1 items are in flight:
      with an up-to-date load, exactly when the ring is full at that moment. */
  lemma PushFailsExactlyWhenFull<T>(r: Ring<T>, seen: nat)
    requires Inv(r) && Enabled(r, ReloadTail(seen))
    ensures Apply(r, ReloadTail(seen)).producer.PushIdle? <==> |r.pushed| - seen == r.cap - 1
    ensures seen == |r.popped| ==>
              (Apply(r, ReloadTail(seen)).producer.PushIdle? <==> |r.pushed| - |r.popped| == r.cap - 1)
  {
    LooksFull(|r.pushed|, seen, r.cap);
  }

  /** A pop gives up exactly when, by the head it reloaded, everything pushed has been taken. */
  lemma PopFailsExactlyWhenEmpty<T>(r: Ring<T>, seen: nat)
    requires Inv(r) && Enabled(r, ReloadHead(seen))
    ensures Apply(r, ReloadHead(seen)).consumer.PopIdle? <==> seen == |r.popped|
    ensures seen == |r.pushed| ==> (Apply(r, ReloadHead(seen)).consumer.PopIdle? <==> r.pushed == r.popped)
  {
    WrapsApart(|r.popped|, seen, r.cap);
  }

  /** A producer that trusts its cached tail is right to: the ring is then not full. Likewise a
      consumer and its cached head. */
  lemma CachedTailIsSafe<T>(r: Ring<T>, v: Item<T>)
    requires Inv(r)
    ensures r.producer.PushIdle? && Apply(r, PushCall(v)).producer.PushWriting? ==> |r.pushed| - |r.popped| < r.cap - 1
  {
    LooksFull(|r.pushed|, r.tailSeen, r.cap);
  }

  lemma CachedHeadIsSafe<T>(r: Ring<T>)
    requires Inv(r)
    ensures r.consumer.PopIdle? && Apply(r, PopCall).consumer.PopReading? ==> |r.popped| < |r.pushed|
  {
    WrapsApart(|r.popped|, r.headSeen, r.cap);
  }

  // --- the object, used by one thread at a time -------------------------------------------

  /** The smallest power of two that is at least 2 and at least `minCapacity`. */
  method RoundUp(minCapacity: nat) returns (cap: nat, ghost k: nat)
    ensures cap == Pow2(k) && k >= 1 && cap >= minCapacity
    ensures k > 1 ==> Pow2(k - 1) < minCapacity
  {
    cap, k := 2, 1;
    while cap < minCapacity
      invariant cap == Pow2(k) && k >= 1 && cap >= 2
      invariant k > 1 ==> Pow2(k - 1) < minCapacity
    {
      cap, k := cap * 2, k + 1;
    }
  }

  class Queue<T> {
    const cap: nat
    var buf: seq<Item<T>>
    var head: nat
    var tailCache: nat
    var tail: nat
    var headCache: nat
    ghost var pushed: seq<Item<T>>
    ghost var popped: seq<Item<T>>
    ghost var tailSeen: nat
    ghost var headSeen: nat

    /** Between calls both threads are idle. */
    ghost function State(): Ring<T>
      reads this
    {
      Ring(cap, buf, head, tail, tailCache, headCache, PushIdle, PopIdle, pushed, popped, tailSeen, headSeen)
    }

    ghost predicate Valid()
      reads this
    {
      Inv(State())
    }

    constructor (minCapacity: nat, blank: Item<T>)
      ensures Valid() && pushed == popped == []
      ensures cap >= minCapacity && exists k :: k >= 1 && cap == Pow2(k) && (k > 1 ==> Pow2(k - 1) < minCapacity)
    {
      var n, k := RoundUp(minCapacity);
      cap := n;
      buf := seq(n, _ => blank);
      head, tailCache, tail, headCache := 0, 0, 0, 0;
      pushed, popped, tailSeen, headSeen := [], [], 0, 0;
      new;
      assert State() == Initial(n, blank);
    }

    /** Append an item unless capacity - 1 are already queued. */
    method TryPush(v: Item<T>) returns (ok: bool)
      requires Valid()
      modifies this
      ensures Valid() && popped == old(popped)
      ensures ok <==> |old(pushed)| - |old(popped)| < cap - 1
      ensures pushed == if ok then old(pushed) + [v] else old(pushed)
    {
      hide Counted, Stored, InHand, InOrder;
      ghost var r := State();
      Indices(r);
      CachedTailIsSafe(r, v);
      ApplyKeepsInv(r, PushCall(v));
      r := Apply(r, PushCall(v));
      var next := Next(head, cap);
      if next == tailCache {
        PushFailsExactlyWhenFull(r, |popped|);
        ApplyKeepsInv(r, ReloadTail(|popped|));
        r := Apply(r, ReloadTail(|popped|));
        tailCache := tail;
        tailSeen := |popped|;
        if next == tailCache {
          assert State() == r;
          return false;
        }
      }
      r := Written(r);
      buf := buf[head := v];
      head := next;
      pushed := pushed + [v];
      assert State() == r;
      return true;
    }

    /** Take the oldest item unless there is none. */
    method TryPop() returns (v: Option<Item<T>>)
      requires Valid()
      modifies this
      ensures Valid() && pushed == old(pushed)
      ensures v.Some? <==> |old(popped)| < |pushed|
      ensures v.Some? ==> v.value == pushed[|old(popped)|] && popped == old(popped) + [v.value]
      ensures v.None? ==> popped == old(popped)
    {
      hide Counted, Stored, InHand, InOrder;
      ghost var r := State();
      Indices(r);
      CachedHeadIsSafe(r);
      ApplyKeepsInv(r, PopCall);
      r := Apply(r, PopCall);
      if tail == headCache {
        PopFailsExactlyWhenEmpty(r, |pushed|);
        ApplyKeepsInv(r, ReloadHead(|pushed|));
        r := Apply(r, ReloadHead(|pushed|));
        headCache := head;
        headSeen := |pushed|;
        if tail == headCache {
          assert State() == r;
          return None;
        }
      }
      r := Taken(r);
      v := Some(buf[tail]);
      tail := Next(tail, cap);
      popped := popped + [v.value];
      assert State() == r;
    }
  }

  lemma Indices<T>(r: Ring<T>)
    requires Inv(r)
    ensures r.head == Rem(|r.pushed|, r.cap) && r.tail == Rem(|r.popped|, r.cap)
    ensures r.tailSeen <= |r.popped| <= r.headSeen <= |r.pushed|
    ensures r.popped <= r.pushed && |r.pushed| - |r.popped| <= r.cap - 1
  {
  }

  /** An undisturbed producer's last three actions. */
  lemma Written<T>(r: Ring<T>) returns (z: Ring<T>)
    requires Inv(r) && r.producer.PushWriting?
    ensures Inv(z)
    ensures z == r.(buf := r.buf[r.head := r.producer.v], head := Next(r.head, r.cap), producer := PushIdle,
                    pushed := r.pushed + [r.producer.v])
  {
    hide Counted, Stored, InHand, InOrder;
    ApplyKeepsInv(r, StoreLo);
    var a := Apply(r, StoreLo);
    ApplyKeepsInv(a, StoreHi);
    var b := Apply(a, StoreHi);
    ApplyKeepsInv(b, PublishHead);
    z := Apply(b, PublishHead);
  }

  /** An undisturbed consumer's last three actions. */
  lemma Taken<T>(r: Ring<T>) returns (z: Ring<T>)
    requires Inv(r) && r.consumer.PopReading?
    ensures Inv(z)
    ensures z == r.(tail := Next(r.tail, r.cap), consumer := PopIdle, popped := r.popped + [r.buf[r.tail]])
    ensures |r.popped| < |r.pushed| && r.buf[r.tail] == r.pushed[|r.popped|]
  {
    assert r.buf[Rem(|r.popped|, r.cap)] == r.pushed[|r.popped|];
    hide Counted, Stored, InHand, InOrder;
    ApplyKeepsInv(r, LoadLo);
    var a := Apply(r, LoadLo);
    ApplyKeepsInv(a, LoadHi);
    var b := Apply(a, LoadHi);
    ApplyKeepsInv(b, PublishTail);
    z := Apply(b, PublishTail);
  }
}
