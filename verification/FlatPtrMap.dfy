/** The open-addressing index: a finite map for any hash function; key 0 marks an empty slot. */
module FlatPtrMap {
  import opened ObjectPool
  import opened Powers

  datatype Slot = Slot(key: nat, value: Ptr)

  const EMPTY_SLOT: Slot := Slot(0, NIL)

  // Linear probing, backward-shift deletion, growth by doubling.

  // --- positions on the ring of slots -------------------------------------------------------

  function Next(i: nat, n: nat): (r: nat)
    requires i < n
    ensures r < n
  {
    if i + 1 == n then 0 else i + 1
  }

  /** Steps of the probe from `a` to reach `b`: `(b - a)` modulo the capacity. */
  function Dist(a: nat, b: nat, n: nat): (d: nat)
    requires a < n && b < n
    ensures d < n && (d == 0 <==> a == b)
  {
    if b >= a then b - a else b + n - a
  }

  /** Stepping and probe distance are the source's masked sums: the capacity is a power of two. */
  lemma StepsAreMasked(a: nat, b: nat, n: nat)
    requires a < n && b < n && IsPow2(n)
    ensures Next(a, n) == And(a + 1, n - 1) && Dist(a, b, n) == And(b + n - a, n - 1)
  {
    MaskIsRem(a + 1, n);
    MaskIsRem(b + n - a, n);
    if a + 1 == n { assert Rem(a + 1, n) == Rem(0, n); }
    if b >= a { assert Rem(b + n - a, n) == Rem(b - a, n); }
  }

  /** The slot where the probe for `key` starts: its hash masked to the capacity. */
  function Home(h: nat -> nat, key: nat, n: nat): (i: nat)
    requires n > 0
    ensures i < n
  {
    And(h(key), n - 1)
  }

  lemma HomeIsRemainder(h: nat -> nat, key: nat, n: nat)
    requires n > 0 && IsPow2(n)
    ensures Home(h, key, n) == Rem(h(key), n)
  {
    MaskIsRem(h(key), n);
  }

  // --- the table -----------------------------------------------------------------------------

  /** The probe for `key` reaches slot `i` without meeting an empty slot, `gap` aside. */
  ghost predicate Reaches(s: seq<Slot>, h: nat -> nat, key: nat, i: nat, gap: int)
    requires i < |s|
  {
    var n := |s|;
    forall t :: 0 <= t < n && t != gap && Dist(Home(h, key, n), t, n) < Dist(Home(h, key, n), i, n) ==> s[t].key != 0
  }

  /** Every entry is reachable from its home slot. */
  ghost predicate Chained(s: seq<Slot>, h: nat -> nat, gap: int) {
    forall i :: 0 <= i < |s| && i != gap && s[i].key != 0 ==> Reaches(s, h, s[i].key, i, gap)
  }

  ghost predicate UniqueKeys(s: seq<Slot>, gap: int) {
    forall i, j :: 0 <= i < j < |s| && i != gap && j != gap && s[i].key != 0 ==> s[i].key != s[j].key
  }

  ghost predicate Present(s: seq<Slot>, key: nat, gap: int) {
    exists i :: 0 <= i < |s| && i != gap && s[i].key == key
  }

  /** Outside `gap` the slots hold exactly the entries of `m`. */
  ghost predicate Holds(s: seq<Slot>, m: map<nat, Ptr>, gap: int) {
    && (forall i :: 0 <= i < |s| && i != gap && s[i].key != 0 ==> s[i].key in m && m[s[i].key] == s[i].value)
    && (forall k :: k in m ==> k != 0 && Present(s, k, gap))
  }

  /** Number of occupied slots. */
  ghost function Used(s: seq<Slot>): nat {
    if s == [] then 0 else (if s[|s| - 1].key != 0 then 1 else 0) + Used(s[..|s| - 1])
  }

  lemma {:induction false} UsedUpdate(s: seq<Slot>, i: nat, x: Slot)
    requires i < |s|
    ensures Used(s[i := x]) + (if s[i].key != 0 then 1 else 0) == Used(s) + (if x.key != 0 then 1 else 0)
  {
    var n := |s| - 1;
    if i < n {
      UsedUpdate(s[..n], i, x);
      assert s[i := x][..n] == s[..n][i := x];
    } else {
      assert s[i := x][..n] == s[..n];
    }
  }

  lemma {:induction false} EmptySlotExists(s: seq<Slot>) returns (e: nat)
    requires Used(s) < |s|
    ensures e < |s| && s[e].key == 0
  {
    var n := |s| - 1;
    if s[n].key == 0 {
      e := n;
    } else {
      e := EmptySlotExists(s[..n]);
    }
  }

  lemma {:induction false} AllEmptyUsed(s: seq<Slot>)
    requires forall i :: 0 <= i < |s| ==> s[i].key == 0
    ensures Used(s) == 0
  {
    if s != [] { AllEmptyUsed(s[..|s| - 1]); }
  }

  ghost predicate Table(s: seq<Slot>, h: nat -> nat, m: map<nat, Ptr>) {
    Chained(s, h, -1) && UniqueKeys(s, -1) && Holds(s, m, -1)
  }

  // --- lookup ---------------------------------------------------------------------------------

  /** The probe for `key` stands at `i`, and every slot before it held some other key. */
  ghost predicate Probed(s: seq<Slot>, h: nat -> nat, key: nat, i: nat)
    requires i < |s|
  {
    var n := |s|;
    forall t :: 0 <= t < n && Dist(Home(h, key, n), t, n) < Dist(Home(h, key, n), i, n) ==>
                  s[t].key != 0 && s[t].key != key
  }

  lemma ProbeStep(s: seq<Slot>, h: nat -> nat, key: nat, i: nat, e: nat)
    requires i < |s| && e < |s| && s[e].key == 0 && Probed(s, h, key, i) && s[i].key != 0 && s[i].key != key
    ensures Probed(s, h, key, Next(i, |s|)) && Dist(Next(i, |s|), e, |s|) < Dist(i, e, |s|)
  {
    var n := |s|;
    var g, i' := Home(h, key, n), Next(i, n);
    assert Dist(g, i, n) < Dist(g, e, n);
    forall t | 0 <= t < n && Dist(g, t, n) < Dist(g, i', n) ensures s[t].key != 0 && s[t].key != key {
      assert t == i || Dist(g, t, n) < Dist(g, i, n);
    }
  }

  lemma DistOrder(g: nat, a: nat, b: nat, n: nat)
    requires g < n && a < n && b < n && a != b
    ensures Dist(g, a, n) < Dist(g, b, n) || Dist(g, b, n) < Dist(g, a, n)
  {
  }

  /** A probe that ends at an empty slot has proved the key absent. */
  lemma ProbeMiss(s: seq<Slot>, h: nat -> nat, m: map<nat, Ptr>, key: nat, i: nat)
    requires Table(s, h, m) && i < |s| && Probed(s, h, key, i) && s[i].key == 0
    ensures key !in m
  {
    if key in m {
      assert Present(s, key, -1);
      var p :| 0 <= p < |s| && s[p].key == key;
      assert Reaches(s, h, key, p, -1);
      DistOrder(Home(h, key, |s|), i, p, |s|);
      hide Dist, Home, Table;
    }
  }

  /** A changed slot that stays occupied, or becomes so, breaks no chain. */
  lemma ChainsKept(s: seq<Slot>, z: seq<Slot>, h: nat -> nat, i: nat)
    requires Chained(s, h, -1) && i < |s| && |z| == |s|
    requires forall j :: 0 <= j < |s| && j != i ==> z[j] == s[j]
    requires z[i].key != 0 && (s[i].key == 0 || s[i].key == z[i].key)
    requires Reaches(s, h, z[i].key, i, -1)
    ensures Chained(z, h, -1)
  {
    forall j | 0 <= j < |z| && z[j].key != 0 ensures Reaches(z, h, z[j].key, j, -1) {
      if j != i { assert Reaches(s, h, s[j].key, j, -1); }
    }
  }

  lemma HoldsUpdate(s: seq<Slot>, z: seq<Slot>, m: map<nat, Ptr>, i: nat)
    requires UniqueKeys(s, -1) && Holds(s, m, -1) && i < |s| && |z| == |s|
    requires forall j :: 0 <= j < |s| && j != i ==> z[j] == s[j]
    requires z[i].key != 0 && (s[i].key == z[i].key || (s[i].key == 0 && z[i].key !in m))
    ensures UniqueKeys(z, -1) && Holds(z, m[z[i].key := z[i].value], -1)
  {
    var m' := m[z[i].key := z[i].value];
    forall j | 0 <= j < |z| && z[j].key != 0 ensures z[j].key in m' && m'[z[j].key] == z[j].value {
      if j != i { assert s[j].key in m; }
    }
    forall k | k in m' ensures k != 0 && Present(z, k, -1) {
      if k == z[i].key {
        assert z[i].key == k;
      } else {
        assert Present(s, k, -1);
        var p :| 0 <= p < |s| && s[p].key == k;
        assert z[p].key == k;
      }
    }
  }

  lemma InsertedAt(s: seq<Slot>, h: nat -> nat, m: map<nat, Ptr>, key: nat, v: Ptr, i: nat)
    requires Table(s, h, m) && i < |s| && Probed(s, h, key, i) && s[i].key == 0 && key != 0
    ensures Table(s[i := Slot(key, v)], h, m[key := v]) && key !in m
  {
    ProbeMiss(s, h, m, key, i);
    assert Reaches(s, h, key, i, -1);
    hide Chained, UniqueKeys, Holds, Reaches;
    ChainsKept(s, s[i := Slot(key, v)], h, i);
    HoldsUpdate(s, s[i := Slot(key, v)], m, i);
  }

  lemma OverwrittenAt(s: seq<Slot>, h: nat -> nat, m: map<nat, Ptr>, key: nat, v: Ptr, i: nat)
    requires Table(s, h, m) && i < |s| && s[i].key == key && key != 0
    ensures key in m && Table(s[i := s[i].(value := v)], h, m[key := v])
  {
    assert Reaches(s, h, key, i, -1) && key in m;
    hide Chained, UniqueKeys, Holds, Reaches;
    ChainsKept(s, s[i := s[i].(value := v)], h, i);
    HoldsUpdate(s, s[i := s[i].(value := v)], m, i);
  }

  // --- backward-shift deletion ------------------------------------------------------------------

  /** Mid-deletion: `hole` is to be vacated, the scan has passed the occupied slots up to `i`,
      and only entries beyond `i` may still depend on the hole. */
  ghost predicate Shifting(s: seq<Slot>, h: nat -> nat, m: map<nat, Ptr>, hole: nat, i: nat)
    requires hole < |s| && i < |s|
  {
    var n := |s|;
    && s[hole].key != 0
    && Chained(s, h, hole) && UniqueKeys(s, hole) && Holds(s, m, hole)
    && (forall t :: 0 <= t < n && Dist(hole, t, n) <= Dist(hole, i, n) ==> s[t].key != 0)
    && (forall j :: 0 <= j < n && j != hole && s[j].key != 0 && Dist(hole, j, n) <= Dist(hole, i, n) ==>
          Dist(Home(h, s[j].key, n), j, n) < Dist(Home(h, s[j].key, n), hole, n))
  }

  lemma ShiftStarts(s: seq<Slot>, h: nat -> nat, m: map<nat, Ptr>, hole: nat)
    requires Table(s, h, m) && hole < |s| && s[hole].key != 0
    ensures Shifting(s, h, m - {s[hole].key}, hole, hole)
  {
    hide And;
    var key := s[hole].key;
    forall j | 0 <= j < |s| && j != hole && s[j].key != 0 ensures Reaches(s, h, s[j].key, j, hole) {
      assert Reaches(s, h, s[j].key, j, -1);
    }
    forall k | k in m - {key} ensures Present(s, k, hole) {
      assert Present(s, k, -1);
      var p :| 0 <= p < |s| && s[p].key == k;
    }
  }

  /** From home over the hole to `j`: what lies between the hole and `j` is on the way. */
  lemma OnTheWay(g: nat, hole: nat, x: nat, j: nat, n: nat)
    requires g < n && hole < n && x < n && j < n
    requires Dist(g, hole, n) <= Dist(g, j, n) && Dist(hole, x, n) < Dist(hole, j, n)
    ensures Dist(g, x, n) < Dist(g, j, n)
  {
  }

  /** The scan reached an empty slot: vacating the hole breaks no chain. */
  lemma ShiftEnds(s: seq<Slot>, h: nat -> nat, m: map<nat, Ptr>, hole: nat, i: nat)
    requires hole < |s| && i < |s| && Shifting(s, h, m, hole, i) && s[Next(i, |s|)].key == 0
    ensures Table(s[hole := EMPTY_SLOT], h, m)
  {
    var n := |s|;
    var z := s[hole := EMPTY_SLOT];
    forall j | 0 <= j < n && z[j].key != 0 ensures Reaches(z, h, z[j].key, j, -1) {
      assert Reaches(s, h, s[j].key, j, hole);
      HoleOffChain(s, h, m, hole, i, j);
    }
    HoldsVacated(s, m, hole);
    hide Reaches, Shifting;
  }

  lemma HoleOffChain(s: seq<Slot>, h: nat -> nat, m: map<nat, Ptr>, hole: nat, i: nat, j: nat)
    requires hole < |s| && i < |s| && Shifting(s, h, m, hole, i) && s[Next(i, |s|)].key == 0
    requires j < |s| && j != hole && s[j].key != 0
    ensures var g := Home(h, s[j].key, |s|); Dist(g, j, |s|) < Dist(g, hole, |s|)
  {
    var n := |s|;
    var g, x := Home(h, s[j].key, n), Next(i, n);
    assert Reaches(s, h, s[j].key, j, hole);
    hide Chained, Holds, UniqueKeys;
    if Dist(g, hole, n) <= Dist(g, j, n) {
      assert Dist(hole, j, n) > Dist(hole, i, n);
      assert x != hole && x != j;
      OnTheWay(g, hole, x, j, n);
    }
  }

  lemma HoldsVacated(s: seq<Slot>, m: map<nat, Ptr>, hole: nat)
    requires hole < |s| && Holds(s, m, hole) && UniqueKeys(s, hole)
    ensures Holds(s[hole := EMPTY_SLOT], m, -1) && UniqueKeys(s[hole := EMPTY_SLOT], -1)
  {
    var z := s[hole := EMPTY_SLOT];
    forall k | k in m ensures Present(z, k, -1) {
      assert Present(s, k, hole);
      var p :| 0 <= p < |s| && p != hole && s[p].key == k;
      assert z[p].key == k;
    }
  }

  lemma NextWithin(hole: nat, i: nat, t: nat, n: nat)
    requires hole < n && i < n && t < n && Next(i, n) != hole
    ensures Dist(hole, t, n) <= Dist(hole, Next(i, n), n) <==> t == Next(i, n) || Dist(hole, t, n) <= Dist(hole, i, n)
  {
  }

  /** The scan has not come round to the hole: an empty slot lies ahead of it. */
  lemma StillAhead(s: seq<Slot>, h: nat -> nat, m: map<nat, Ptr>, hole: nat, i: nat, e: nat)
    requires hole < |s| && i < |s| && Shifting(s, h, m, hole, i) && e < |s| && s[e].key == 0
    ensures Next(i, |s|) != hole && Dist(Next(i, |s|), e, |s|) < Dist(i, e, |s|)
  {
    hide Chained, Holds, UniqueKeys;
    assert Dist(hole, i, |s|) < Dist(hole, e, |s|);
  }

  /** The entry at `x` is not blocked by the hole: step over it. */
  lemma ShiftSkips(s: seq<Slot>, h: nat -> nat, m: map<nat, Ptr>, hole: nat, i: nat, e: nat)
    requires hole < |s| && i < |s| && Shifting(s, h, m, hole, i)
    requires e < |s| && s[e].key == 0
    requires var x := Next(i, |s|);
             s[x].key != 0 && var g := Home(h, s[x].key, |s|); Dist(g, hole, |s|) >= Dist(g, x, |s|)
    ensures Shifting(s, h, m, hole, Next(i, |s|)) && Dist(Next(i, |s|), e, |s|) < Dist(i, e, |s|)
  {
    hide And;
    var n := |s|;
    var x := Next(i, n);
    StillAhead(s, h, m, hole, i, e);
    hide Chained, Holds, UniqueKeys;
    forall t | 0 <= t < n && Dist(hole, t, n) <= Dist(hole, x, n) ensures s[t].key != 0 {
      NextWithin(hole, i, t, n);
    }
    forall j | 0 <= j < n && j != hole && s[j].key != 0 && Dist(hole, j, n) <= Dist(hole, x, n)
      ensures Dist(Home(h, s[j].key, n), j, n) < Dist(Home(h, s[j].key, n), hole, n)
    {
      NextWithin(hole, i, j, n);
    }
  }

  lemma MovedChained(s: seq<Slot>, h: nat -> nat, hole: nat, x: nat)
    requires hole < |s| && x < |s| && x != hole && Chained(s, h, hole) && s[x].key != 0
    requires var g := Home(h, s[x].key, |s|); Dist(g, hole, |s|) < Dist(g, x, |s|)
    ensures Chained(s[hole := s[x]], h, x)
  {
    var z := s[hole := s[x]];
    assert Reaches(s, h, s[x].key, x, hole);
    forall j | 0 <= j < |s| && j != x && z[j].key != 0 ensures Reaches(z, h, z[j].key, j, x) {
      if j != hole { assert Reaches(s, h, s[j].key, j, hole); }
    }
  }

  lemma MovedHolds(s: seq<Slot>, m: map<nat, Ptr>, hole: nat, x: nat)
    requires hole < |s| && x < |s| && x != hole && s[x].key != 0
    requires UniqueKeys(s, hole) && Holds(s, m, hole)
    ensures UniqueKeys(s[hole := s[x]], x) && Holds(s[hole := s[x]], m, x)
  {
    var z := s[hole := s[x]];
    forall k | k in m ensures Present(z, k, x) {
      assert Present(s, k, hole);
      var p :| 0 <= p < |s| && p != hole && s[p].key == k;
      assert z[if p == x then hole else p].key == k;
    }
  }

  /** The entry at `x` sits farther from home than the hole: it moves into the hole. */
  lemma ShiftMoves(s: seq<Slot>, h: nat -> nat, m: map<nat, Ptr>, hole: nat, i: nat, e: nat)
    requires hole < |s| && i < |s| && Shifting(s, h, m, hole, i)
    requires e < |s| && s[e].key == 0
    requires var x := Next(i, |s|);
             s[x].key != 0 && var g := Home(h, s[x].key, |s|); Dist(g, hole, |s|) < Dist(g, x, |s|)
    ensures var x := Next(i, |s|);
            && Shifting(s[hole := s[x]], h, m, x, x) && Dist(x, e, |s|) < Dist(i, e, |s|)
            && s[hole := s[x]][e].key == 0 && Used(s[hole := s[x]]) == Used(s)
  {
    var x := Next(i, |s|);
    StillAhead(s, h, m, hole, i, e);
    UsedUpdate(s, hole, s[x]);
    hide Chained, Holds, UniqueKeys, Used;
    MovedChained(s, h, hole, x);
    MovedHolds(s, m, hole, x);
    ShiftRestarts(s[hole := s[x]], h, m, x);
  }

  lemma ShiftRestarts(z: seq<Slot>, h: nat -> nat, m: map<nat, Ptr>, x: nat)
    requires x < |z| && z[x].key != 0 && Chained(z, h, x) && UniqueKeys(z, x) && Holds(z, m, x)
    ensures Shifting(z, h, m, x, x)
  {
    hide Chained, Holds, UniqueKeys;
  }

  /** Walk from the home slot to the key or to the empty slot that proves it absent. */
  method Probe(s: seq<Slot>, h: nat -> nat, key: nat, ghost m: map<nat, Ptr>) returns (i: nat)
    requires Used(s) < |s| && Table(s, h, m)
    ensures i < |s|
    ensures s[i].key != 0 ==> s[i].key == key
    ensures s[i].key == 0 ==> Probed(s, h, key, i) && key !in m
  {
    hide Table, Probed;
    i := Home(h, key, |s|);
    ghost var e := EmptySlotExists(s);
    ProbeStarts(s, h, key);
    while s[i].key != 0
      invariant i < |s| && Probed(s, h, key, i)
      decreases Dist(i, e, |s|)
    {
      if s[i].key == key {
        return;
      }
      ProbeStep(s, h, key, i, e);
      i := Next(i, |s|);
    }
    ProbeMiss(s, h, m, key, i);
  }

  lemma EmptyTable(s: seq<Slot>, h: nat -> nat)
    requires forall i :: 0 <= i < |s| ==> s[i].key == 0
    ensures Table(s, h, map[])
  {
  }

  /** `m` holds exactly the entries of the old slots visited so far. */
  ghost predicate Restored(s: seq<Slot>, all: map<nat, Ptr>, m: map<nat, Ptr>) {
    && (forall k :: k in m ==> k in all && m[k] == all[k])
    && (forall k :: k in m <==> k != 0 && Present(s, k, -1))
  }

  /** `m` holds exactly the `n` entries in the first `i` old slots. */
  ghost predicate Carried(was: seq<Slot>, i: nat, all: map<nat, Ptr>, m: map<nat, Ptr>, n: nat)
    requires i <= |was|
  {
    Restored(was[..i], all, m) && n == Used(was[..i])
  }

  lemma CarriedNone(was: seq<Slot>, all: map<nat, Ptr>)
    ensures Carried(was, 0, all, map[], 0)
  {
    RestoredNone(was, all);
  }

  /** The next old slot is empty, or its entry is a new one and there is room for it. */
  lemma CarriedNext(was: seq<Slot>, h: nat -> nat, i: nat, all: map<nat, Ptr>, m: map<nat, Ptr>, n: nat)
    requires i < |was| && Table(was, h, all) && Carried(was, i, all, m, n)
    ensures var s := was[i];
            if s.key == 0 then Carried(was, i + 1, all, m, n)
            else s.key !in m && n < Used(was) && Carried(was, i + 1, all, m[s.key := s.value], n + 1)
  {
    hide Table, Restored;
    UsedPrefix(was, i + 1);
    RestoredSnoc(was, h, i, all, m);
  }

  lemma CarriedAll(was: seq<Slot>, h: nat -> nat, all: map<nat, Ptr>, m: map<nat, Ptr>, n: nat)
    requires Table(was, h, all) && Carried(was, |was|, all, m, n)
    ensures m == all && n == Used(was)
  {
    assert was[..|was|] == was;
    RestoredAll(was, h, all, m);
  }

  lemma RestoredNone(was: seq<Slot>, all: map<nat, Ptr>)
    ensures Restored(was[..0], all, map[])
  {
    forall k ensures !Present(was[..0], k, -1) {
    }
  }

  lemma RestoredSnoc(was: seq<Slot>, h: nat -> nat, i: nat, all: map<nat, Ptr>, m: map<nat, Ptr>)
    requires i < |was| && Table(was, h, all) && Restored(was[..i], all, m)
    ensures var s := was[i];
            if s.key == 0 then Restored(was[..i + 1], all, m)
            else s.key !in m && Restored(was[..i + 1], all, m[s.key := s.value])
  {
    hide Chained;
    PresentSnoc(was, i);
    if was[i].key != 0 {
      EarlierKeysDiffer(was, i);
      assert was[i].key in all && all[was[i].key] == was[i].value;
    }
    hide Present, UniqueKeys, Holds;
  }

  lemma RestoredAll(was: seq<Slot>, h: nat -> nat, all: map<nat, Ptr>, m: map<nat, Ptr>)
    requires Table(was, h, all) && Restored(was[..|was|], all, m)
    ensures m == all
  {
    assert was[..|was|] == was;
    hide Present;
    assert forall k :: k in all ==> k in m;
  }

  /** Double from 16 until the expected entries load the table to at most three quarters. */
  method CapacityFor(expected: nat) returns (cap: nat)
    ensures cap == InitialCapacity(expected, 16) && cap >= 16 && IsPow2(cap)
  {
    cap := 16;
    assert Pow2(4) == 16;
    hide IsPow2;
    while cap * 3 < expected * 4
      invariant cap >= 16 && IsPow2(cap)
      invariant InitialCapacity(expected, cap) == InitialCapacity(expected, 16)
      decreases expected * 4 - cap * 3
    {
      DoubleIsPow2(cap);
      cap := cap * 2;
    }
  }

  class Index {
    const hash: nat -> nat
    var slots: seq<Slot>
    var size: nat
    ghost var entries: map<nat, Ptr>

    ghost predicate Valid()
      reads this
    {
      && |slots| >= 16 && IsPow2(|slots|)
      && size == Used(slots) == |entries| && size * 4 < |slots| * 3
      && Table(slots, hash, entries)
    }

    constructor (expected: nat, h: nat -> nat)
      ensures Valid() && entries == map[] && size == 0 && hash == h
      ensures |slots| == InitialCapacity(expected, 16)
    {
      hide Table, IsPow2, Used, InitialCapacity;
      var cap := CapacityFor(expected);
      this.hash := h;
      slots := seq(cap, i => EMPTY_SLOT);
      size := 0;
      entries := map[];
      new;
      AllEmptyUsed(slots);
      EmptyTable(slots, h);
    }

    /** An insert rehashes exactly when it would bring the load to three quarters. */
    predicate MustGrow()
      reads this
    {
      !Fits(size, |slots|)
    }

    method Insert(key: nat, value: Ptr)
      requires Valid() && key != 0
      modifies this
      ensures Valid() && entries == old(entries)[key := value]
      ensures size == old(size) + if key in old(entries) then 0 else 1
      ensures |slots| == SlotsAfter(old(size), old(|slots|))
      decreases if MustGrow() then 2 else 0
    {
      hide Table, IsPow2, Used;
      if MustGrow() {
        Grow();
      }
      var i := Probe(slots, hash, key, entries);
      if slots[i].key != 0 {
        OverwrittenAt(slots, hash, entries, key, value, i);
        UsedUpdate(slots, i, slots[i].(value := value));
        slots := slots[i := slots[i].(value := value)];
        entries := entries[key := value];
        return;
      }
      InsertedAt(slots, hash, entries, key, value, i);
      UsedUpdate(slots, i, Slot(key, value));
      slots := slots[i := Slot(key, value)];
      size := size + 1;
      entries := entries[key := value];
    }

    /** Double the capacity and re-insert everything; none of these inserts grows again. */
    method Grow()
      requires Valid()
      modifies this
      ensures Valid() && entries == old(entries) && size == old(size)
      ensures |slots| == 2 * old(|slots|) && !MustGrow()
      decreases 1
    {
      hide IsPow2, Used, Table, Carried;
      var was := slots;
      ghost var all := entries;
      var cap := 2 * |slots|;
      DoubleIsPow2(|slots|);
      slots := seq(cap, i => EMPTY_SLOT);
      size := 0;
      entries := map[];
      AllEmptyUsed(slots);
      EmptyTable(slots, hash);
      CarriedNone(was, all);
      var i := 0;
      while i < |was|
        invariant 0 <= i <= |was| && Valid() && |slots| == 2 * |was|
        invariant Carried(was, i, all, entries, size)
      {
        var s := was[i];
        CarriedNext(was, hash, i, all, entries, size);
        if s.key != 0 {
          Insert(s.key, s.value);
        }
        i := i + 1;
      }
      CarriedAll(was, hash, all, entries, size);
    }

    /** The value stored under `key`, or a null pointer. */
    method Find(key: nat) returns (v: Ptr)
      requires Valid()
      ensures v == if key in entries then entries[key] else NIL
    {
      hide IsPow2, Used, Table;
      var i := Probe(slots, hash, key, entries);
      if slots[i].key != 0 {
        EntryPresent(slots, hash, entries, i);
        return slots[i].value;
      }
      return NIL;
    }

    method Erase(key: nat) returns (found: bool)
      requires Valid()
      modifies this
      ensures Valid() && |slots| == old(|slots|)
      ensures found <==> key in old(entries)
      ensures size == old(size) - if found then 1 else 0
      ensures entries == old(entries) - {key}
    {
      hide IsPow2, Used, Table;
      var i := Probe(slots, hash, key, entries);
      if slots[i].key != 0 {
        EntryPresent(slots, hash, entries, i);
        RemoveAt(i);
        size := size - 1;
        return true;
      }
      assert entries - {key} == entries;
      return false;
    }

    /** Pull each following entry back into the hole while it sits farther from its home
        than the hole does, then vacate the hole. */
    method RemoveAt(at: nat)
      requires at < |slots| && slots[at].key != 0 && Used(slots) < |slots| && Table(slots, hash, entries)
      modifies this`slots, this`entries
      ensures |slots| == old(|slots|) && entries == old(entries) - {old(slots[at].key)}
      ensures Table(slots, hash, entries) && Used(slots) + 1 == old(Used(slots))
    {
      hide Table, Shifting;
      ghost var n := |slots|;
      ghost var e := EmptySlotExists(slots);
      var hole: nat, i: nat := at, at;
      ShiftStarts(slots, hash, entries, at);
      entries := entries - {slots[at].key};
      while true
        invariant |slots| == n && hole < n && i < n && e < n && slots[e].key == 0
        invariant Shifting(slots, hash, entries, hole, i) && Used(slots) == old(Used(slots))
        invariant entries == old(entries) - {old(slots[at].key)}
        decreases Dist(i, e, n)
      {
        HoleOccupied(slots, hash, entries, hole, i);
        var x := Next(i, |slots|);
        if slots[x].key == 0 {
          ShiftEnds(slots, hash, entries, hole, i);
          UsedUpdate(slots, hole, EMPTY_SLOT);
          slots := slots[hole := EMPTY_SLOT];
          return;
        }
        var ideal := Home(hash, slots[x].key, |slots|);
        if Dist(ideal, hole, |slots|) < Dist(ideal, x, |slots|) {
          ShiftMoves(slots, hash, entries, hole, i, e);
          slots := slots[hole := slots[x]];
          hole := x;
        } else {
          ShiftSkips(slots, hash, entries, hole, i, e);
        }
        i := x;
      }
    }
  }

  lemma ProbeStarts(s: seq<Slot>, h: nat -> nat, key: nat)
    requires |s| > 0
    ensures Probed(s, h, key, Home(h, key, |s|))
  {
  }

  lemma HoleOccupied(s: seq<Slot>, h: nat -> nat, m: map<nat, Ptr>, hole: nat, i: nat)
    requires hole < |s| && i < |s| && Shifting(s, h, m, hole, i)
    ensures s[hole].key != 0
  {
  }

  lemma EntryPresent(s: seq<Slot>, h: nat -> nat, m: map<nat, Ptr>, i: nat)
    requires Table(s, h, m) && i < |s| && s[i].key != 0
    ensures s[i].key in m && m[s[i].key] == s[i].value && |m - {s[i].key}| == |m| - 1
  {
    var k := s[i].key;
    assert k in m;
    assert (m - {k}).Keys == m.Keys - {k};
    assert |m.Keys - {k}| == |m.Keys| - 1;
    assert |m - {k}| == |(m - {k}).Keys| && |m| == |m.Keys|;
  }

  lemma {:induction false} UsedPrefix(s: seq<Slot>, i: nat)
    requires i <= |s|
    ensures Used(s[..i]) <= Used(s)
    ensures i > 0 ==> Used(s[..i]) == Used(s[..i - 1]) + if s[i - 1].key != 0 then 1 else 0
    decreases |s| - i
  {
    if i == |s| {
      assert s[..i] == s;
    } else {
      UsedPrefix(s, i + 1);
      assert s[..i + 1][..i] == s[..i];
    }
    if i > 0 { assert s[..i][..i - 1] == s[..i - 1]; }
  }

  lemma PresentSnoc(s: seq<Slot>, i: nat)
    requires i < |s|
    ensures forall k :: Present(s[..i + 1], k, -1) <==> Present(s[..i], k, -1) || k == s[i].key
  {
    forall k ensures Present(s[..i + 1], k, -1) <==> Present(s[..i], k, -1) || k == s[i].key {
      if Present(s[..i], k, -1) {
        var j :| 0 <= j < i && s[..i][j].key == k;
        assert s[..i + 1][j].key == k;
      }
      if k == s[i].key { assert s[..i + 1][i].key == k; }
      if Present(s[..i + 1], k, -1) {
        var j :| 0 <= j < i + 1 && s[..i + 1][j].key == k;
        if j < i { assert s[..i][j].key == k; }
      }
    }
  }

  lemma EarlierKeysDiffer(s: seq<Slot>, i: nat)
    requires UniqueKeys(s, -1) && i < |s| && s[i].key != 0
    ensures !Present(s[..i], s[i].key, -1)
  {
  }

  /** The first capacity chosen for `expected` entries. */
  function InitialCapacity(expected: nat, cap: nat): (c: nat)
    requires cap >= 16
    ensures c >= cap && c * 3 >= expected * 4
    ensures c == cap || (c / 2) * 3 < expected * 4
    decreases expected * 4 - cap * 3
  {
    if cap * 3 < expected * 4 then InitialCapacity(expected, cap * 2) else cap
  }

  /** An insert into a table of `size` entries and `cap` slots leaves the capacity alone. */
  predicate Fits(size: nat, cap: nat) {
    (size + 1) * 4 < cap * 3
  }

  /** The capacity after an insert into a table of `size` entries and `cap` slots. */
  function SlotsAfter(size: nat, cap: nat): nat {
    if Fits(size, cap) then cap else 2 * cap
  }

  // --- sizing up front ---------------------------------------------------------------------------

  /** The entry counts whose table is loaded to exactly three quarters: 12, 24, 48, ... */
  ghost predicate Awkward(n: nat) {
    exists k: nat :: k >= 2 && n == 3 * Pow2(k)
  }

  /** The capacity chosen is the least power of two, from 16, that the entries do not overload. */
  lemma {:induction false} CapacityFrom(expected: nat, i: nat, j: nat)
    requires 4 <= i <= j && Pow2(j) * 3 >= expected * 4 && (j == 4 || Pow2(j - 1) * 3 < expected * 4)
    ensures Pow2(i) >= 16 && InitialCapacity(expected, Pow2(i)) == Pow2(j)
    decreases j - i
  {
    assert Pow2(4) == 16;
    Pow2Monotone(4, i);
    if i < j {
      Pow2Monotone(i, j - 1);
      CapacityFrom(expected, i + 1, j);
    }
  }

  lemma {:induction false} CapacityBits(expected: nat, i: nat) returns (j: nat)
    requires i >= 4 && (i == 4 || Pow2(i - 1) * 3 < expected * 4)
    ensures j >= i && (j == 4 || Pow2(j - 1) * 3 < expected * 4)
    ensures Pow2(i) >= 16 && InitialCapacity(expected, Pow2(i)) == Pow2(j)
    decreases expected * 4 - Pow2(i) * 3
  {
    assert Pow2(4) == 16;
    Pow2Monotone(4, i);
    if Pow2(i) * 3 < expected * 4 {
      j := CapacityBits(expected, i + 1);
    } else {
      j := i;
    }
  }

  lemma AwkwardIff(expected: nat)
    ensures expected * 4 == InitialCapacity(expected, 16) * 3 <==> Awkward(expected)
  {
    assert Pow2(4) == 16;
    var j := CapacityBits(expected, 4);
    if expected * 4 == Pow2(j) * 3 {
      assert Pow2(j) == 2 * Pow2(j - 1) == 4 * Pow2(j - 2);
      assert expected == 3 * Pow2(j - 2);
    }
    if Awkward(expected) {
      var k: nat :| k >= 2 && expected == 3 * Pow2(k);
      assert Pow2(k + 2) == 2 * Pow2(k + 1) == 4 * Pow2(k);
      CapacityFrom(expected, 4, k + 2);
    }
  }

  lemma AwkwardNextIff(expected: nat)
    ensures (expected + 1) * 4 == InitialCapacity(expected, 16) * 3 <==> Awkward(expected + 1)
  {
    assert Pow2(4) == 16;
    var j := CapacityBits(expected, 4);
    if (expected + 1) * 4 == Pow2(j) * 3 {
      assert Pow2(j) == 2 * Pow2(j - 1) == 4 * Pow2(j - 2);
      assert expected + 1 == 3 * Pow2(j - 2);
    }
    if Awkward(expected + 1) {
      var k: nat :| k >= 2 && expected + 1 == 3 * Pow2(k);
      assert Pow2(k + 2) == 2 * Pow2(k + 1) == 4 * Pow2(k);
      assert Pow2(2) == 4;
      Pow2Monotone(2, k);
      CapacityFrom(expected, 4, k + 2);
    }
  }

  /** Sizing the table for `expected` entries spares inserts a rehash, with these exceptions only.
      Inserting up to `expected` fresh keys rehashes exactly when `expected` is three times a power
      of two, from 12 up. Counting overwrites of a full complement as well, an insert that keeps at
      most `expected` keys may rehash exactly when `expected` or its successor is such a number. */
  lemma PresizedNeverGrowsExactlyWhen(expected: nat)
    ensures var cap := InitialCapacity(expected, 16);
            && ((forall size: nat :: size < expected ==> Fits(size, cap)) <==> !Awkward(expected))
            && ((forall size: nat :: size <= expected ==> Fits(size, cap)) <==> (expected + 1) * 4 < cap * 3)
            && ((expected + 1) * 4 < cap * 3 <==> !Awkward(expected) && !Awkward(expected + 1))
  {
    var cap := InitialCapacity(expected, 16);
    AwkwardIff(expected);
    AwkwardNextIff(expected);
    CapacityInFours(expected);
    hide InitialCapacity, Awkward, Fits;
    FitsBelow(expected, cap);
    FitsUpTo(expected, cap);
    NextFour(expected, cap);
  }

  lemma FitsBelow(expected: nat, cap: nat)
    requires cap * 3 >= expected * 4 && cap > 0
    ensures (forall size: nat :: size < expected ==> Fits(size, cap)) <==> expected * 4 != cap * 3
  {
    if expected * 4 == cap * 3 {
      var last: nat := expected - 1;
      assert last < expected && !Fits(last, cap);
    }
  }

  lemma FitsUpTo(expected: nat, cap: nat)
    ensures (forall size: nat :: size <= expected ==> Fits(size, cap)) <==> (expected + 1) * 4 < cap * 3
  {
    assert Fits(expected, cap) <==> (expected + 1) * 4 < cap * 3;
  }

  lemma NextFour(expected: nat, cap: nat)
    requires cap * 3 >= expected * 4 && cap % 4 == 0
    ensures (expected + 1) * 4 < cap * 3 <==> expected * 4 != cap * 3 && (expected + 1) * 4 != cap * 3
  {
  }

  lemma CapacityInFours(expected: nat)
    ensures InitialCapacity(expected, 16) % 4 == 0
  {
    assert Pow2(4) == 16;
    var j := CapacityBits(expected, 4);
    assert Pow2(j) == 2 * Pow2(j - 1) == 4 * Pow2(j - 2);
  }

  /** The capacity of a table sized for `expected` entries that has held at most `peak` at once:
      as constructed, unless an awkward number of entries has once been complete. */
  ghost predicate Presized(expected: nat, peak: nat, cap: nat) {
    var c := InitialCapacity(expected, 16);
    cap == if Awkward(expected) && peak == expected then 2 * c else c
  }

  /** One insert of a fresh key below the expected number. */
  lemma PresizedStep(expected: nat, size: nat, peak: nat, cap: nat)
    requires Presized(expected, peak, cap) && size < expected && size <= peak <= expected
    ensures Presized(expected, if size + 1 > peak then size + 1 else peak, SlotsAfter(size, cap))
  {
    AwkwardIff(expected);
    hide Awkward;
  }

  ghost predicate FreshKeys(keys: seq<nat>) {
    && (forall i :: 0 <= i < |keys| ==> keys[i] != 0)
    && (forall i, j :: 0 <= i < j < |keys| ==> keys[i] != keys[j])
  }

  /** Any keys at all, as many as announced: the table ends with twice the slots it started with
      if their number is awkward, and with the same slots otherwise. */
  method Fill(keys: seq<nat>, h: nat -> nat) returns (idx: Index, before: nat, after: nat)
    requires FreshKeys(keys)
    ensures fresh(idx) && idx.Valid() && idx.size == |keys| && after == |idx.slots|
    ensures forall i :: 0 <= i < |keys| ==> keys[i] in idx.entries
    ensures before == InitialCapacity(|keys|, 16)
    ensures after == if Awkward(|keys|) then 2 * before else before
  {
    hide Index.Valid, Awkward, InitialCapacity, SlotsAfter;
    idx := new Index(|keys|, h);
    before := |idx.slots|;
    NotAwkwardZero();
    for i := 0 to |keys|
      invariant fresh(idx) && idx.Valid() && idx.size == i
      invariant forall k :: k in idx.entries ==> exists j :: 0 <= j < i && keys[j] == k
      invariant forall j :: 0 <= j < i ==> keys[j] in idx.entries
      invariant |idx.slots| == if i == |keys| && Awkward(|keys|) then 2 * before else before
    {
      PresizedStep(|keys|, i, i, |idx.slots|);
      idx.Insert(keys[i], NIL);
    }
    after := |idx.slots|;
  }

  lemma NotAwkwardZero()
    ensures !Awkward(0)
  {
  }

  /** Writing one of the announced keys once more rehashes if and only if the number of keys, or
      its successor, is awkward and the table has not doubled already. */
  method FillThenOverwrite(keys: seq<nat>, h: nat -> nat, i: nat) returns (before: nat, after: nat)
    requires FreshKeys(keys) && i < |keys|
    ensures before == InitialCapacity(|keys|, 16)
    ensures after == if Awkward(|keys|) || Awkward(|keys| + 1) then 2 * before else before
  {
    hide Index.Valid, Awkward, InitialCapacity;
    var idx, full;
    idx, before, full := Fill(keys, h);
    AwkwardIff(|keys|);
    PresizedNeverGrowsExactlyWhen(|keys|);
    idx.Insert(keys[i], NIL);
    after := |idx.slots|;
  }

  /** A concrete failure: twelve fresh keys in a table sized for twelve end in a rehash. */
  method TwelveKeysRehash(h: nat -> nat) returns (before: nat, after: nat)
    ensures before == 16 && after == 32
  {
    var idx;
    var keys := seq(12, i requires 0 <= i < 12 => i + 1);
    idx, before, after := Fill(keys, h);
    assert Pow2(0) == 1 && Pow2(1) == 2 && Pow2(2) == 4;
    assert |keys| == 3 * Pow2(2);
  }

  /** ... and so does writing one of eleven keys again in a table sized for eleven. */
  method ElevenKeysRehash(h: nat -> nat) returns (before: nat, after: nat)
    ensures before == 16 && after == 32
  {
    var keys := seq(11, i requires 0 <= i < 11 => i + 1);
    before, after := FillThenOverwrite(keys, h, 0);
    assert Pow2(0) == 1 && Pow2(1) == 2 && Pow2(2) == 4;
    assert |keys| + 1 == 3 * Pow2(2);
  }
}
