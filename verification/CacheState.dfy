/** What ties the region list, the stack of unused descriptors, the index of free regions
    and the index of entries together. */
module CacheState {
  import opened Descriptors
  import opened Sequences
  import opened Regions

  /** The descriptors are either in the list o or on the stack F of unused ones. */
  ghost predicate PoolInv(o: seq<int>, F: seq<int>, n: nat) {
    && NoDup(o) && NoDup(F) && |o| + |F| == n
    && (forall x :: x in o ==> 0 <= x < n)
    && (forall x :: x in F ==> 0 <= x < n && x !in o)
  }

  /** The tree holds exactly the free regions, but for the one that a call has taken out. */
  ghost predicate FreeIndex(D: seq<Entry>, o: seq<int>, items: seq<int>, held: int) {
    && NoDup(items)
    && (forall e :: e in items <==> e in o && Free(D, e) && e != held)
    && (held != NOENTRY ==> held in o && Free(D, held))
  }

  /** The busy regions are exactly the entries of the index. */
  ghost predicate EntryIndex(D: seq<Entry>, o: seq<int>, m: map<Key, int>) {
    && (forall k :: k in m ==> 0 <= m[k] < |D| && m[k] in o && D[m[k]].kind == BUSY && D[m[k]].getInfo == k)
    && forall e :: e in o && 0 <= e < |D| && D[e].kind == BUSY ==> D[e].getInfo in m && m[D[e].getInfo] == e
  }

  ghost predicate Core(D: seq<Entry>, o: seq<int>, F: seq<int>, items: seq<int>, m: map<Key, int>, M: nat, held: int) {
    RegionInv(D, o, M) && PoolInv(o, F, |D|) && FreeIndex(D, o, items, held) && EntryIndex(D, o, m)
  }

  /** A buffer with one free region, and all other descriptors unused. */
  lemma CoreStarts(D: seq<Entry>, F: seq<int>, M: nat)
    requires |D| > 0 && |F| == |D| - 1 && (forall i :: 0 <= i < |F| ==> F[i] == i + 1)
    requires D[0].kind == FREE && D[0].size == M && D[0].offset == 0 && D[0].mprev == NOENTRY && D[0].mnext == NOENTRY
    ensures Core(D, [0], F, [0], map[], M, NOENTRY)
  {
  }

  // ---- bounds ----

  ghost function Entries(m: map<Key, int>, ks: set<Key>): set<int>
    requires ks <= m.Keys
  {
    set k | k in ks :: m[k]
  }

  lemma {:induction false} EntriesSize(D: seq<Entry>, o: seq<int>, m: map<Key, int>, ks: set<Key>)
    requires EntryIndex(D, o, m) && ks <= m.Keys
    ensures |Entries(m, ks)| == |ks|
    decreases ks
  {
    if ks == {} {
    } else {
      var k :| k in ks;
      EntriesSize(D, o, m, ks - {k});
      assert Entries(m, ks) == Entries(m, ks - {k}) + {m[k]};
      assert forall x :: x in ks - {k} ==> D[m[x]].getInfo == x;
    }
  }

  /** As many regions as entries and free regions, and at most one more free region than
      entries. */
  lemma RegionCounts(D: seq<Entry>, o: seq<int>, m: map<Key, int>)
    requires Linked(D, o) && Alternates(D, o, NOENTRY) && EntryIndex(D, o, m)
    ensures |o| == |m| + CountFree(D, o) && CountFree(D, o) <= |m| + 1
  {
    AlternationBound(D, o);
    CountIsSize(D, o);
    EntriesSize(D, o, m, m.Keys);
    var busy := set e | e in o && !Free(D, e);
    forall e | e in busy ensures e in Entries(m, m.Keys) {
      assert D[e].getInfo in m.Keys && m[D[e].getInfo] == e;
    }
    assert busy == Entries(m, m.Keys);
  }

  /** An unused descriptor is left whenever the index of entries is not full. */
  lemma DescriptorLeft(D: seq<Entry>, o: seq<int>, F: seq<int>, m: map<Key, int>, n: nat)
    requires Linked(D, o) && Alternates(D, o, NOENTRY) && EntryIndex(D, o, m) && PoolInv(o, F, |D|)
    requires |D| == 2 * n && |m| < n
    ensures |F| > 0
  {
    RegionCounts(D, o, m);
  }

  lemma {:induction false} SubsetSize<T>(a: set<T>, b: set<T>)
    requires a <= b
    ensures |a| <= |b|
    decreases a
  {
    if a == {} {
    } else {
      var x :| x in a;
      SubsetSize(a - {x}, b - {x});
    }
  }

  /** The tree never needs more nodes than there are slots in the index. */
  lemma NodeLeft(D: seq<Entry>, o: seq<int>, m: map<Key, int>, items: seq<int>, x: int, n: nat)
    requires Linked(D, o) && Alternates(D, o, NOENTRY) && EntryIndex(D, o, m) && |m| < n
    requires NoDup(items) && (forall e :: e in items ==> e in o && Free(D, e) && e != x) && x in o && Free(D, x)
    ensures |items| < n
  {
    RegionCounts(D, o, m);
    CountIsSize(D, o);
    NoDupSize(items);
    var free := set e | e in o && Free(D, e);
    assert (set e | e in items) <= free - {x};
    SubsetSize((set e | e in items), free - {x});
    assert |free - {x}| == |free| - 1;
  }

  lemma FreeItems(D: seq<Entry>, o: seq<int>, items: seq<int>)
    requires NoDup(o) && FreeIndex(D, o, items, NOENTRY)
    ensures |items| == CountFree(D, o)
  {
    CountIsSize(D, o);
    NoDupSize(items);
    var a, b := (set e | e in items), (set e | e in o && Free(D, e));
    forall e ensures e in a <==> e in b {
      assert e in items <==> e in o && Free(D, e);
    }
    assert a == b;
  }

  lemma LinkedFacts(D: seq<Entry>, o: seq<int>)
    requires Linked(D, o)
    ensures |o| > 0 && NoDup(o) && forall i :: 0 <= i < |o| ==> 0 <= o[i] < |D|
  {
  }

  /** The books balance: regions add up to the buffer, descriptors in use and unused add up
      to all there are, and those in use are the entries and the free regions. */
  lemma Accounted(D: seq<Entry>, o: seq<int>, F: seq<int>, items: seq<int>, m: map<Key, int>, M: nat)
    requires Core(D, o, F, items, m, M, NOENTRY)
    ensures forall k :: 0 <= k < |o| ==> 0 <= o[k] < |D|
    ensures TotalLength(D, o) == M
    ensures |o| + |F| == |D| && |o| == |m| + |items|
    ensures |items| == CountFree(D, o) <= |m| + 1
  {
    hide Linked, Tiled, Alternates, EntryIndex, FreeIndex, TotalLength, CountFree;
    LinkedFacts(D, o);
    LengthsAddUp(D, o, M);
    RegionCounts(D, o, m);
    FreeItems(D, o, items);
  }

  // ---- eviction: a region on its way to becoming free ----

  ghost predicate FreeingItems(D: seq<Entry>, o: seq<int>, items: seq<int>, x: int, held: int, gone: bool) {
    && NoDup(items) && (forall e :: e in items <==> e in o && Free(D, e) && e != x && e != held)
    && (gone ==> held != NOENTRY && (held == x || held !in o))
    && (!gone && held != NOENTRY ==> held in o && Free(D, held) && held != x && D[held].tnode != NOENTRY)
  }

  ghost predicate FreeingEntries(D: seq<Entry>, o: seq<int>, m: map<Key, int>, x: int, v: int) {
    && 0 <= v < |D| && D[v].getInfo in m && m[D[v].getInfo] == v && (v == x || v !in o)
    && (forall k :: k in m && k != D[v].getInfo ==>
          0 <= m[k] < |D| && m[k] in o && m[k] != x && D[m[k]].kind == BUSY && D[m[k]].getInfo == k)
    && forall e :: e in o && 0 <= e < |D| && e != x && D[e].kind == BUSY ==> D[e].getInfo in m && m[D[e].getInfo] == e
  }

  /** The entry v is being evicted, and region x is what becomes of its region.  `gone`
      says that x has swallowed the region that was held. */
  ghost predicate Freeing(D: seq<Entry>, o: seq<int>, F: seq<int>, items: seq<int>, m: map<Key, int>, M: nat,
                          x: int, held: int, gone: bool, v: int)
  {
    && Linked(D, o) && Tiled(D, o, M, x) && Alternates(D, o, x) && x in o && PoolInv(o, F, |D|)
    && FreeingItems(D, o, items, x, held, gone) && FreeingEntries(D, o, m, x, v)
  }

  lemma FreeingStarts(D: seq<Entry>, o: seq<int>, F: seq<int>, items: seq<int>, m: map<Key, int>, M: nat, held: int,
                      v: int)
    requires Core(D, o, F, items, m, M, held) && 0 <= v < |D| && D[v].getInfo in m && m[D[v].getInfo] == v
    requires 0 <= held < |D| ==> D[held].tnode != NOENTRY
    ensures Freeing(D[v := D[v].(size := D[v].getInfo.size)], o, F, items, m, M, v, held, false, v)
  {
    hide Linked, Tiled, Alternates;
    var D' := D[v := D[v].(size := D[v].getInfo.size)];
    LinkedFrame(D, D', o);
    TiledFrame(D, D', o, M, NOENTRY, v);
    AlternatesFrame(D, D', o, NOENTRY, v);
  }

  /** Slots, pending copies, and the handles of regions in use, play no part. */
  lemma CoreFrame(D: seq<Entry>, D': seq<Entry>, o: seq<int>, F: seq<int>, items: seq<int>, m: map<Key, int>, M: nat,
                  held: int)
    requires Core(D, o, F, items, m, M, held) && |D'| == |D|
    requires forall e :: 0 <= e < |D| ==> D'[e] == D[e].(htindex := D'[e].htindex, pending := D'[e].pending)
    ensures Core(D', o, F, items, m, M, held)
  {
    hide Linked, Tiled, Alternates;
    LinkedFrame(D, D', o);
    TiledFrame(D, D', o, M, NOENTRY, NOENTRY);
    AlternatesFrame(D, D', o, NOENTRY, NOENTRY);
    assert forall e :: Free(D', e) <==> Free(D, e);
  }

  /** D' differs from D in handles at most. */
  ghost predicate HandlesOnly(D: seq<Entry>, D': seq<Entry>) {
    |D'| == |D| && forall e :: 0 <= e < |D| ==> D'[e] == D[e].(tnode := D'[e].tnode)
  }

  ghost predicate LinksOnly(D: seq<Entry>, D': seq<Entry>) {
    |D'| == |D| && forall e :: 0 <= e < |D| ==> D'[e] == D[e].(mprev := D'[e].mprev, mnext := D'[e].mnext)
  }

  /** A free region is taken out of the tree for a call. */
  lemma HeldTaken(D: seq<Entry>, D': seq<Entry>, o: seq<int>, F: seq<int>, items: seq<int>, items': seq<int>,
                  m: map<Key, int>, M: nat, x: int)
    requires Core(D, o, F, items, m, M, NOENTRY) && x in items && HandlesOnly(D, D')
    requires NoDup(items') && forall e :: e in items' <==> e in items && e != x
    ensures Core(D', o, F, items', m, M, x) && x != NOENTRY
  {
    hide Linked, Tiled, Alternates;
    LinkedFacts(D, o);
    LinkedFrame(D, D', o);
    TiledFrame(D, D', o, M, NOENTRY, NOENTRY);
    AlternatesFrame(D, D', o, NOENTRY, NOENTRY);
    assert forall e :: Free(D', e) <==> Free(D, e);
  }

  /** Neighbour b is joined to a, for the region x that is one of them; the other one, y,
      is free, and is taken out of the tree unless it was held. */
  ghost predicate Joins(D: seq<Entry>, o: seq<int>, items: seq<int>, items': seq<int>, k: nat, x: int, y: int) {
    && k + 1 < |o| && ((x == o[k] && y == o[k + 1]) || (x == o[k + 1] && y == o[k])) && Free(D, y)
    && NoDup(items')
    && forall e :: e in items' <==> e in items && e != y
  }

  lemma JoinRegions(D: seq<Entry>, D1: seq<Entry>, D2: seq<Entry>, o: seq<int>, M: nat, k: nat, x: int)
    requires Linked(D, o) && Tiled(D, o, M, x) && Alternates(D, o, x) && k + 1 < |o|
    requires (x == o[k] && Free(D, o[k + 1])) || (x == o[k + 1] && Free(D, o[k]))
    requires D1 == D[o[k] := D[o[k]].(size := D[o[k]].size + D[o[k + 1]].size)] && HandlesOnly(D1, D2)
    ensures 0 <= o[k] < |D2| && 0 <= o[k + 1] < |D2|
    ensures var (D3, u) := (Bypassed(D2, o[k], o[k + 1]), Without(o, k + 1));
            Linked(D3, u) && Tiled(D3, u, M, o[k]) && Alternates(D3, u, o[k]) && LinksOnly(D2, D3)
  {
    hide Alternates, Without, Tiled;
    assert Linked(D2, o) by { LinkedFrame(D, D2, o); }
    BypassLinked(D2, o, k);
    var D3 := Bypassed(D2, o[k], o[k + 1]);
    assert LinksOnly(D2, D3);
    JoinedTiled(D, D3, o, M, k, x);
    JoinedAlternates(D, D3, o, k, x);
  }

  /** The same kinds of region, for the same entries. */
  ghost predicate SameKinds(D: seq<Entry>, D': seq<Entry>) {
    |D'| == |D| && forall e :: 0 <= e < |D| ==> D'[e].kind == D[e].kind && D'[e].getInfo == D[e].getInfo
  }

  lemma JoinItems(D: seq<Entry>, D': seq<Entry>, o: seq<int>, u: seq<int>, items: seq<int>, items': seq<int>,
                  k: nat, x: int, y: int, held: int, gone: bool)
    requires FreeingItems(D, o, items, x, held, gone) && Joins(D, o, items, items', k, x, y)
    requires SameKinds(D, D') && (forall e :: e in u <==> e in o && e != o[k + 1]) && x in o && y in o && x != y
    requires y == held || held == NOENTRY || gone || (0 <= held < |D| && D'[held].tnode == D[held].tnode)
    ensures FreeingItems(D', u, items', o[k], held, gone || y == held)
  {
  }

  lemma JoinEntries(D: seq<Entry>, D': seq<Entry>, o: seq<int>, u: seq<int>, m: map<Key, int>, k: nat, x: int, y: int,
                    v: int)
    requires FreeingEntries(D, o, m, x, v) && k + 1 < |o|
    requires ((x == o[k] && y == o[k + 1]) || (x == o[k + 1] && y == o[k]))
    requires Free(D, y) && SameKinds(D, D') && (forall e :: e in u <==> e in o && e != o[k + 1])
    ensures FreeingEntries(D', u, m, o[k], v)
  {
  }

  lemma JoinState(D: seq<Entry>, D1: seq<Entry>, D2: seq<Entry>, o: seq<int>, F: seq<int>, items: seq<int>,
                  items': seq<int>,
                  m: map<Key, int>, M: nat, k: nat, x: int, y: int, held: int, gone: bool, v: int)
    requires Freeing(D, o, F, items, m, M, x, held, gone, v) && Joins(D, o, items, items', k, x, y)
    requires D1 == D[o[k] := D[o[k]].(size := D[o[k]].size + D[o[k + 1]].size)] && HandlesOnly(D1, D2)
    requires y == held || held == NOENTRY || gone || (0 <= held < |D| && D2[held].tnode == D[held].tnode)
    ensures 0 <= o[k] < |D2| && 0 <= o[k + 1] < |D2|
    ensures Freeing(Bypassed(D2, o[k], o[k + 1]), Without(o, k + 1), F + [o[k + 1]], items', m, M, o[k],
                    held, gone || y == held, v)
  {
    hide Linked, Tiled, Alternates, Without, FreeingItems, FreeingEntries;
    LinkedFacts(D, o);
    WithoutAt(o, k + 1);
    JoinRegions(D, D1, D2, o, M, k, x);
    var D3, u := Bypassed(D2, o[k], o[k + 1]), Without(o, k + 1);
    assert SameKinds(D, D3);
    JoinItems(D, D3, o, u, items, items', k, x, y, held, gone);
    JoinEntries(D, D3, o, u, m, k, x, y, v);
  }

  lemma FreeingDistinct(D: seq<Entry>, o: seq<int>, F: seq<int>, items: seq<int>, m: map<Key, int>, M: nat,
                        x: int, held: int, gone: bool, v: int)
    requires Freeing(D, o, F, items, m, M, x, held, gone, v)
    ensures NoDup(items)
  {
  }

  lemma JoinReady(D: seq<Entry>, o: seq<int>, F: seq<int>, items: seq<int>, m: map<Key, int>, M: nat,
                  k: nat, x: int, y: int, held: int, gone: bool, v: int)
    requires Freeing(D, o, F, items, m, M, x, held, gone, v) && Free(D, y) && k + 1 < |o|
    requires (x == o[k] && y == o[k + 1]) || (x == o[k + 1] && y == o[k])
    ensures 0 <= o[k] < |D| && 0 <= o[k + 1] < |D| && o[k] != o[k + 1] && |F| + 2 <= |D|
    ensures var n := D[o[k + 1]].mnext; n == NOENTRY || (0 <= n < |D| && n != o[k])
    ensures NoDup(items) && (y in items <==> y != held) && x !in items
    ensures held != NOENTRY && !gone ==> 0 <= held < |D| && held !in items
  {
    hide Tiled, Alternates, FreeingEntries;
    LinkedFacts(D, o);
    assert D[o[k + 1]].mnext == RightOf(o, k + 1);
  }

  /** The region left of the freed one is not free once its left neighbour has joined in. */
  lemma LeftDone(D: seq<Entry>, D': seq<Entry>, o: seq<int>, k: nat, x: int)
    requires Linked(D, o) && Alternates(D, o, x) && k + 1 < |o| && x == o[k + 1] && Free(D, o[k])
    requires SameKinds(D, D') && Linked(D', Without(o, k + 1))
    ensures 0 <= o[k] < |D'| && !Free(D', D'[o[k]].mprev)
  {
    hide Without;
    WithoutAt(o, k + 1);
    var u := Without(o, k + 1);
    assert D'[u[k]].mprev == LeftOf(u, k);
    if k > 0 { assert Separated(D, o, k, x); }
  }

  /** And the same on the right. */
  lemma RightDone(D: seq<Entry>, D': seq<Entry>, o: seq<int>, k: nat, x: int)
    requires Linked(D, o) && Alternates(D, o, x) && k + 1 < |o| && x == o[k] && Free(D, o[k + 1])
    requires SameKinds(D, D') && Linked(D', Without(o, k + 1))
    ensures 0 <= x < |D'| && !Free(D', D'[x].mnext) && D'[x].mprev == D[x].mprev
  {
    hide Without;
    WithoutAt(o, k + 1);
    var u := Without(o, k + 1);
    assert D'[u[k]].mprev == LeftOf(u, k) && D'[u[k]].mnext == RightOf(u, k);
    assert D[o[k]].mprev == LeftOf(o, k);
    if k + 2 < |o| { assert Separated(D, o, k + 2, x); }
  }

  /** What becomes of the regions while x grows: the others keep their sizes. */
  ghost predicate Swelled(D: seq<Entry>, o: seq<int>, D': seq<Entry>, o': seq<int>, x: int) {
    && SameKinds(D, D')
    && (forall e :: e in o' ==> e in o)
    && (forall e :: 0 <= e < |D| ==> D'[e].size >= D[e].size)
    && forall e :: 0 <= e < |D| && e in o' && e != x ==> D'[e].size == D[e].size
  }

  lemma SwelledTwice(D: seq<Entry>, o: seq<int>, D1: seq<Entry>, o1: seq<int>, D2: seq<Entry>, o2: seq<int>, x: int,
                     y: int)
    requires Swelled(D, o, D1, o1, x) && Swelled(D1, o1, D2, o2, x)
    ensures Swelled(D, o, D2, o2, x) && (0 <= y < |D1| ==> 0 <= y < |D| && D1[y].size >= D[y].size)
  {
  }

  lemma LinkedInCore(D: seq<Entry>, o: seq<int>, F: seq<int>, items: seq<int>, m: map<Key, int>, M: nat, held: int)
    requires Core(D, o, F, items, m, M, held)
    ensures Linked(D, o)
  {
  }

  /** Region x turns free; it is the region to be used from now on, or goes into the tree. */
  lemma FreeingEnds(D: seq<Entry>, D': seq<Entry>, o: seq<int>, F: seq<int>, items: seq<int>, m: map<Key, int>, M: nat,
                    x: int, held: int, gone: bool, v: int, items': seq<int>, held': int)
    requires Freeing(D, o, F, items, m, M, x, held, gone, v) && !Free(D, D[x].mprev) && !Free(D, D[x].mnext)
    requires |D'| == |D| && 0 <= x < |D| && D'[x].kind == FREE
    requires forall e :: 0 <= e < |D| && e != x ==>
               D'[e] == D[e].(pending := D'[e].pending)
    requires D'[x] == D[x].(kind := FREE, tnode := D'[x].tnode, pending := D'[x].pending)
    requires NoDup(items') && ((held' == x && items' == items && (gone || held == NOENTRY)) ||
             (held' == held && !gone && forall e :: e in items' <==> e in items || e == x))
    ensures Core(D', o, F, items', m - {D[v].getInfo}, M, held')
  {
    hide Linked, Tiled, Alternates;
    FreedAlternates(D, D', o, x);
    LinkedFacts(D, o);
    LinkedFrame(D, D', o);
    TiledFrame(D, D', o, M, x, NOENTRY);
  }

  /** The tree has a node left for the region that turns free. */
  lemma RoomForFreed(D: seq<Entry>, o: seq<int>, F: seq<int>, items: seq<int>, m: map<Key, int>, M: nat,
                     x: int, held: int, v: int, n: nat)
    requires Freeing(D, o, F, items, m, M, x, held, false, v) && 0 <= x < |D|
    requires !Free(D, D[x].mprev) && !Free(D, D[x].mnext) && |m| <= n
    ensures |items| < n && x !in items
  {
    var D' := D[x := D[x].(kind := FREE, tnode := 0)];
    var m' := m - {D[v].getInfo};
    assert m'.Keys == m.Keys - {D[v].getInfo};
    assert NoDup(items + [x]);
    FreeingEnds(D, D', o, F, items, m, M, x, held, false, v, items + [x], held);
    NodeLeft(D', o, m', items, x, n);
  }

  /** No free region has `size` bytes. */
  ghost predicate NoneFits(D: seq<Entry>, o: seq<int>, size: nat) {
    forall e :: e in o && Free(D, e) ==> D[e].size < size
  }

  lemma NoneFitsFrame(D: seq<Entry>, D': seq<Entry>, o: seq<int>, size: nat)
    requires |D'| == |D| && forall e :: 0 <= e < |D| ==> D'[e].kind == D[e].kind && D'[e].size == D[e].size
    ensures NoneFits(D', o, size) == NoneFits(D, o, size)
  {
  }

  lemma BusyEntry(D: seq<Entry>, o: seq<int>, F: seq<int>, items: seq<int>, m: map<Key, int>, M: nat, held: int, v: int)
    requires Core(D, o, F, items, m, M, held) && 0 <= v < |D| && D[v].getInfo in m && m[D[v].getInfo] == v
    ensures D[v].kind == BUSY && v != held && v !in items
  {
  }

  /** The choice of a region in an eviction: it fits, and if there is none then no free
      region does. */
  lemma RegionChosen(D: seq<Entry>, o: seq<int>, v: int, D2: seq<Entry>, o2: seq<int>, D3: seq<Entry>, x: int,
                     held: int, gone: bool, size: nat, region: int)
    requires 0 <= v < |D| && D[v].kind == BUSY && 0 <= x < |D|
    requires held == NOENTRY ==> NoneFits(D, o, size)
    requires held != NOENTRY ==> 0 <= held < |D| && D[held].size >= size && held != v
    requires Swelled(D[v := D[v].(size := D[v].getInfo.size)], o, D2, o2, x)
    requires gone ==> 0 <= held < |D2| && D2[x].size >= D[held].size
    requires |D3| == |D2| && forall e :: 0 <= e < |D2| ==>
               D3[e].size == D2[e].size && D3[e].kind == if e == x then FREE else D2[e].kind
    requires region == if gone || (held == NOENTRY && D2[x].size >= size) then x else held
    ensures region == NOENTRY ==> held == NOENTRY && NoneFits(D3, o2, size)
    ensures region != NOENTRY ==> 0 <= region < |D3| && D3[region].size >= size
  {
  }

  /** When nothing fits that could, there is an entry to evict. */
  lemma SomethingToEvict(D: seq<Entry>, o: seq<int>, m: map<Key, int>, M: nat, size: nat)
    requires RegionInv(D, o, M) && EntryIndex(D, o, m) && NoneFits(D, o, size) && size <= M
    ensures m != map[]
  {
    RegionCounts(D, o, m);
    assert D[o[0]].offset + LengthBut(D, o[0], NOENTRY) == EndOf(D, o, M, 0);
    assert o[0] in o && (Free(D, o[0]) ==> |o| > 1);
  }

  /** Entries lie in the buffer, and apart from one another. */
  lemma EntriesApart(D: seq<Entry>, o: seq<int>, m: map<Key, int>, M: nat, k: Key, k': Key)
    requires RegionInv(D, o, M) && EntryIndex(D, o, m) && k in m && k' in m && k != k'
    ensures m[k] != m[k']
    ensures var a, b := D[m[k]].offset, D[m[k']].offset; a + k.size <= b || b + k'.size <= a
  {
    var i := Position(D, o, m[k]);
    var j := Position(D, o, m[k']);
    if i < j { RegionsInOrder(D, o, M, i, j); } else { RegionsInOrder(D, o, M, j, i); }
  }

  lemma EntryInBuffer(D: seq<Entry>, o: seq<int>, m: map<Key, int>, M: nat, k: Key)
    requires RegionInv(D, o, M) && EntryIndex(D, o, m) && k in m
    ensures 0 <= m[k] < |D| && D[m[k]].offset + k.size <= M
  {
    var i := Position(D, o, m[k]);
    RegionInBuffer(D, o, M, i);
  }

  // ---- using a region ----

  /** D' is D with region x, or a new descriptor n cut off its front, filled for key.
      Handles, slots and pending copies may have changed anywhere. */
  ghost predicate Loose(e: Entry, e': Entry) {
    e' == e.(htindex := e'.htindex, tnode := e'.tnode, pending := e'.pending)
  }

  lemma TakeWhole(D: seq<Entry>, D': seq<Entry>, o: seq<int>, F: seq<int>, items: seq<int>, m: map<Key, int>, M: nat,
                  x: int, key: Key)
    requires Core(D, o, F, items, m, M, x) && x != NOENTRY && key !in m && D[x].size == key.size
    requires |D'| == |D| && Loose(D[x].(kind := BUSY, getInfo := key), D'[x])
    requires forall e :: 0 <= e < |D| && e != x ==> Loose(D[e], D'[e])
    ensures Core(D', o, F, items, m[key := x], M, NOENTRY)
  {
    hide Linked, Tiled, Alternates;
    FilledWhole(D, D', o, M, x);
    LinkedFacts(D, o);
    assert forall e :: 0 <= e < |D| && e != x ==> (Free(D', e) <==> Free(D, e));
  }

  /** D' has descriptor n for key at the front of what was the free region x. */
  ghost predicate CutOff(D: seq<Entry>, D': seq<Entry>, x: int, n: int, key: Key)
    requires 0 <= x < |D| && 0 <= n < |D|
  {
    && |D'| == |D| && n != x && D[x].mprev != n && D[x].mprev != x && D[x].size >= key.size
    && D'[n].mprev == D[x].mprev && D'[n].mnext == x && D'[n].offset == D[x].offset
    && D'[n].kind == BUSY && D'[n].getInfo == key
    && Loose(D[x].(mprev := n, offset := D[x].offset + key.size, size := D[x].size - key.size), D'[x])
    && (0 <= D[x].mprev < |D| ==> Loose(D[D[x].mprev].(mnext := n), D'[D[x].mprev]))
    && forall e :: 0 <= e < |D| && e != x && e != n && e != D[x].mprev ==> Loose(D[e], D'[e])
  }

  lemma CutRegions(D: seq<Entry>, D': seq<Entry>, o: seq<int>, M: nat, k: nat, n: int, key: Key)
    requires RegionInv(D, o, M) && k < |o| && n !in o && 0 <= n < |D| && 0 <= o[k] < |D| && Free(D, o[k])
    requires CutOff(D, D', o[k], n, key)
    ensures RegionInv(D', Inserted(o, k, n), M)
  {
    hide Linked, Tiled, Alternates, Inserted;
    var j := Position(D, o, o[k]);
    LinkedFacts(D, o);
    assert j == k;
    SplitLinked(D, D', o, k, n);
    SplitTiled(D, D', o, M, k, n);
    SplitAlternates(D, D', o, k, n);
  }

  lemma CutPool(o: seq<int>, u: seq<int>, F: seq<int>, n: int, size: nat)
    requires PoolInv(o, F + [n], size) && NoDup(u) && |u| == |o| + 1 && forall e :: e in u <==> e in o || e == n
    ensures PoolInv(u, F, size)
  {
    var G := F + [n];
    assert forall i :: 0 <= i < |F| ==> G[i] == F[i];
    assert G[|F|] == n && n in G;
    assert forall x :: x in F ==> x in G;
  }

  lemma CutEntries(D: seq<Entry>, D': seq<Entry>, o: seq<int>, u: seq<int>, m: map<Key, int>, x: int, n: int, key: Key)
    requires EntryIndex(D, o, m) && key !in m && n !in o && Free(D, x) && 0 <= n < |D| == |D'|
    requires forall e :: e in u <==> e in o || e == n
    requires D'[n].kind == BUSY && D'[n].getInfo == key
    requires forall e :: 0 <= e < |D| && e != n ==> D'[e].kind == D[e].kind && D'[e].getInfo == D[e].getInfo
    ensures EntryIndex(D', u, m[key := n])
  {
  }

  lemma CutState(D: seq<Entry>, D': seq<Entry>, o: seq<int>, F: seq<int>, items: seq<int>, items': seq<int>,
                 m: map<Key, int>, M: nat, k: nat, n: int, key: Key)
    requires k < |o| && Core(D, o, F + [n], items, m, M, o[k]) && key !in m && 0 <= o[k] < |D| && 0 <= n < |D|
    requires CutOff(D, D', o[k], n, key)
    requires NoDup(items') && forall e :: e in items' <==> e in items || e == o[k]
    ensures Core(D', Inserted(o, k, n), F, items', m[key := n], M, NOENTRY)
  {
    hide Linked, Tiled, Alternates, Inserted;
    assert n in F + [n] by { assert (F + [n])[|F|] == n; }
    CutRegions(D, D', o, M, k, n, key);
    InsertedAt(o, k, n);
    var u := Inserted(o, k, n);
    assert forall e :: 0 <= e < |D| && e != n ==> (Free(D', e) <==> Free(D, e));
    CutPool(o, u, F, n, |D|);
    CutEntries(D, D', o, u, m, o[k], n, key);
  }
}
