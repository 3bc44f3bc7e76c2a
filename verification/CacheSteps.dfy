/** The steps of the calls on a cache, on values: what each of them does to the descriptors,
    and that what ties the parts together is kept. */
module CacheSteps {
  import opened Descriptors
  import opened Sequences
  import opened AvlShape
  import opened AvlOrder
  import opened AvlDelete
  import opened CuckooWalk
  import opened CuckooIndex
  import opened Regions
  import opened CacheState
  import opened Blocks
  import opened CacheFlight
  import opened CacheDrain
  import opened Window

  // ---- an empty cache ----

  lemma NoEntries(h: Hash, T: seq<Slot>, D: seq<Entry>, D': seq<Entry>, outstanding: seq<Rma>)
    requires IndexInv(h, T, D, map[])
    ensures IndexInv(h, T, D', map[]) && InFlight(D', map[], [], outstanding)
  {
  }

  lemma NothingIndexed(t: Shape, D: seq<Entry>)
    requires Elems(t) == []
    ensures Handles(D, t) && Sorted(D, Elems(t)) && NoDup(Elems(t))
  {
  }

  lemma NewHandle(N: seq<Node>, root: int, t: Shape, F: seq<int>, k: int, n: int, d: int)
    requires TreeInv(N, root, t, F, k) && (n, d) in Pairs(t)
    ensures 0 <= n < |N|
  {
    PairsData(N, t, NIL, n, d);
  }

  // ---- eviction ----

  /** D' has b's size added to a's, and nothing else of that kind changed. */
  ghost predicate Joined(D: seq<Entry>, D': seq<Entry>, a: int, b: int)
    requires 0 <= b < |D|
  {
    && SameTags(D, D') && SameKinds(D, D')
    && forall e :: 0 <= e < |D| ==> D'[e].size == D[e].size + if e == a then D[b].size else 0
  }

  lemma Enlarged(D: seq<Entry>, D2: seq<Entry>, a: int, b: int, items: seq<int>)
    requires 0 <= a < |D| && 0 <= b < |D|
    requires OnlyHandles(D[a := D[a].(size := D[a].size + D[b].size)], D2, items)
    ensures HandlesOnly(D[a := D[a].(size := D[a].size + D[b].size)], D2) && D2[b].mnext == D[b].mnext
    ensures forall e :: 0 <= e < |D| && e !in items ==> D2[e].tnode == D[e].tnode
  {
  }

  lemma JoinIsDone(D: seq<Entry>, D2: seq<Entry>, D3: seq<Entry>, a: int, b: int, items: seq<int>)
    requires 0 <= a < |D| && 0 <= b < |D|
    requires OnlyHandles(D[a := D[a].(size := D[a].size + D[b].size)], D2, items) && D3 == Bypassed(D2, a, b)
    ensures Joined(D, D3, a, b) && SameTags(D, D3)
  {
  }

  lemma BypassedIndex(D2: seq<Entry>, D3: seq<Entry>, a: int, b: int, items: seq<int>, t: Shape)
    requires 0 <= a < |D2| && 0 <= b < |D2| && D3 == Bypassed(D2, a, b) && Handles(D2, t) && Sorted(D2, items)
    ensures Handles(D3, t) && Sorted(D3, items)
  {
  }

  lemma DoomedTags(D: seq<Entry>, D0: seq<Entry>, D2: seq<Entry>, v: int)
    requires 0 <= v < |D| && D0 == D[v := D[v].(size := D[v].getInfo.size)] && SameTags(D0, D2)
    ensures SameTags(D, D2) && |D2| == |D| && D2[v].getInfo == D[v].getInfo
    ensures forall y :: 0 <= y < |D| && y != v ==> D0[y].size == D[y].size
  {
  }

  /** All that an eviction leaves behind, once the victim v has stopped waiting. */
  lemma EvictionDone(D: seq<Entry>, D1: seq<Entry>, D2: seq<Entry>, o: seq<int>, F: seq<int>, t: Shape,
                     m: map<Key, int>, M: nat,
                     region: int, pend: seq<Pending>, outstanding: seq<Rma>, v: int, size: nat)
    requires (forall k :: k in m ==> 0 <= m[k] < |D| && D[m[k]].getInfo == k) && InFlight(D, m, pend, outstanding)
    requires SameTags(D, D1) && 0 <= v < |D| && D[v].getInfo in m && m[D[v].getInfo] == v
    requires |D1| == |D| && D2 == D1[v := D1[v].(pending := -1)]
    requires Core(D1, o, F, Elems(t), m - {D[v].getInfo}, M, region) && Handles(D1, t) && Sorted(D1, Elems(t))
    ensures Core(D2, o, F, Elems(t), m - {D[v].getInfo}, M, region) && Handles(D2, t) && Sorted(D2, Elems(t))
    ensures InFlight(D2, m - {D[v].getInfo}, pend, outstanding) && Carried(D, m, D2, m - {D[v].getInfo})
    ensures NoneFits(D2, o, size) == NoneFits(D1, o, size) && BlocksOf(D2, o) == BlocksOf(D1, o)
  {
    hide Core, Handles, Sorted, InFlight, Carried, SameTags, NoneFits, BlocksOf;
    BlocksFrame(D1, D2, o);
    Evicted(D, D1, D2, m, pend, outstanding, v);
    CoreFrame(D1, D2, o, F, Elems(t), m - {D[v].getInfo}, M, region);
    HandlesFrame(D1, D2, t);
    SortedFrame(D1, D2, Elems(t));
    NoneFitsFrame(D1, D2, o, size);
  }

  lemma EvictionUses(h: Hash, T: seq<Slot>, T2: seq<Slot>, D: seq<Entry>, D1: seq<Entry>, D2: seq<Entry>,
                     m: map<Key, int>, v: int)
    requires IndexInv(h, T, D, m) && SameTags(D, D1) && 0 <= v < |D| && D[v].getInfo in m && m[D[v].getInfo] == v
    requires |D1| == |D| && D2 == D1[v := D1[v].(pending := -1)]
    requires 0 <= D1[v].htindex < |T| && T2 == T[D1[v].htindex := T[D1[v].htindex].(lasthit := 0)]
    ensures SameUse(T, D, m, T2, D2, m - {D[v].getInfo})
  {
    hide IndexInv, SameUse;
    RemovalKeepsUse(h, T, T2, D, D2, m, v);
  }

  // ---- using a region ----

  /** D' is D with `size` bytes cut off the front of region x, for descriptor n. */
  ghost predicate Cut(D: seq<Entry>, D': seq<Entry>, x: int, n: int, size: nat)
    requires 0 <= x < |D| && 0 <= n < |D|
  {
    && |D'| == |D| && n != x && D[x].mprev != n && D[x].mprev != x && D[x].size >= size
    && D'[n] == D[n].(mnext := x, mprev := D[x].mprev, offset := D[x].offset)
    && D'[x] == D[x].(mprev := n, offset := D[x].offset + size, size := D[x].size - size, tnode := D'[x].tnode)
    && (0 <= D[x].mprev < |D| ==> D'[D[x].mprev] == D[D[x].mprev].(mnext := n))
    && forall e :: 0 <= e < |D| && e != x && e != n && e != D[x].mprev ==> D'[e] == D[e]
  }

  lemma CutKeeps(D: seq<Entry>, D': seq<Entry>, x: int, n: int, size: nat, t: Shape)
    requires 0 <= x < |D| && 0 <= n < |D| && Cut(D, D', x, n, size) && D'[x].tnode == D[x].tnode
    requires Handles(D, t) && Sorted(D, Elems(t)) && x !in Elems(t)
    ensures Handles(D', t) && Sorted(D', Elems(t))
  {
  }

  lemma CutIndexed(D: seq<Entry>, D1: seq<Entry>, D2: seq<Entry>, x: int, n: int, size: nat)
    requires 0 <= x < |D| && 0 <= n < |D| && Cut(D, D1, x, n, size)
    requires |D2| == |D1| && D2 == D1[x := D1[x].(tnode := D2[x].tnode)]
    ensures Cut(D, D2, x, n, size)
  {
  }

  lemma CutIds(h: Hash, T: seq<Slot>, D: seq<Entry>, D': seq<Entry>, m: map<Key, int>, x: int, n: int, size: nat)
    requires IndexInv(h, T, D, m) && 0 <= x < |D| && 0 <= n < |D| && Cut(D, D', x, n, size)
    ensures IndexInv(h, T, D', m) && Keys(T, D') == Keys(T, D)
  {
  }

  /** There is a descriptor for the new entry, and a tree node for the rest of its region. */
  lemma CutReady(h: Hash, T: seq<Slot>, D: seq<Entry>, o: seq<int>, F: seq<int>, items: seq<int>, m: map<Key, int>,
                 M: nat,
                 x: int, key: Key, start: int)
    returns (k: nat)
    requires Core(D, o, F, items, m, M, x) && Free(D, x) && |D| == 2 * |T|
    requires IndexInv(h, T, D, m) && 0 <= start < TABLES && Insertable(h, Keys(T, D), key, start)
    ensures k < |o| && o[k] == x && NoDup(items) && x !in items && |items| < |T|
    ensures |F| > 0 && 0 <= F[|F| - 1] < |D| && F[|F| - 1] !in o && F[|F| - 1] != x
    ensures D[x].mprev == NOENTRY || (0 <= D[x].mprev < |D| && D[x].mprev in o && D[x].mprev != x)
  {
    hide Tiled, Keys, Insertable;
    InsertableHasRoom(h, T, D, m, key, start);
    DescriptorLeft(D, o, F, m, |T|);
    NodeLeft(D, o, m, items, x, |T|);
    k := Position(D, o, x);
    assert F[|F| - 1] in F;
  }

  lemma FilledIndex(D: seq<Entry>, D2: seq<Entry>, n: int, key: Key, p: int, t: Shape)
    requires 0 <= n < |D| && Filled(D[n := D[n].(kind := BUSY)], D2, key, n)
    requires Handles(D, t) && Sorted(D, Elems(t))
    ensures |D2| == |D|
    ensures var D3 := D2[n := D2[n].(pending := p)]; Handles(D3, t) && Sorted(D3, Elems(t))
  {
  }

  /** Entries of the index are not free regions, nor unused descriptors. */
  lemma LiveElsewhere(D: seq<Entry>, o: seq<int>, F: seq<int>, items: seq<int>, m: map<Key, int>, M: nat, x: int,
                      n: int)
    requires Core(D, o, F, items, m, M, x) && 0 <= n < |D| && (Free(D, n) || n !in o)
    ensures forall k :: k in m ==> 0 <= m[k] < |D| && m[k] != n && D[m[k]].getInfo == k
  {
  }

  /** Descriptors, region list, unused descriptors, and the free regions of the tree. */
  datatype Layout = Layout(D: seq<Entry>, o: seq<int>, F: seq<int>, items: seq<int>)

  /** A get in progress whose data are being cached: its key and origin, and the records of the
      pending copies and the gets in progress. */
  datatype Caching = Caching(key: Key, origin: nat, pend: seq<Pending>, outstanding: seq<Rma>)

  /** Entry n, now in D, is cached: it waits for its record, the newest one. */
  ghost predicate InPlace(x: Layout, y: Layout, m: map<Key, int>, M: nat, n: int, g: Caching) {
    && 0 <= n < |y.D| && Core(y.D, y.o, y.F, y.items, m[g.key := n], M, NOENTRY)
    && InFlight(y.D, m[g.key := n], g.pend + [Pending(n, y.D[n].offset, g.origin, g.key.size)], g.outstanding)
    && Carried(x.D, m, y.D, m[g.key := n])
  }

  /** What caching starts from: region x is held out of the tree, and the get is in progress. */
  ghost predicate ToPlace(x: Layout, m: map<Key, int>, M: nat, region: int, g: Caching) {
    && Core(x.D, x.o, x.F, x.items, m, M, region) && Free(x.D, region) && g.key !in m
    && InFlight(x.D, m, g.pend, g.outstanding) && Rma(g.origin, g.key) in g.outstanding
  }

  lemma WholeDone(x: Layout, y: Layout, D2: seq<Entry>, m: map<Key, int>, M: nat, n: int, g: Caching)
    requires ToPlace(x, m, M, n, g) && x.D[n].size == g.key.size && y.o == x.o && y.F == x.F && y.items == x.items
    requires Filled(x.D[n := x.D[n].(kind := BUSY)], D2, g.key, n) && y.D == D2[n := D2[n].(pending := |g.pend|)]
    ensures InPlace(x, y, m, M, n, g)
  {
    hide RegionInv, PoolInv, FreeIndex, InFlight;
    TakeWhole(x.D, y.D, x.o, x.F, x.items, m, M, n, g.key);
    LiveElsewhere(x.D, x.o, x.F, x.items, m, M, n, n);
    NewFlight(x.D, y.D, m, g.pend, g.outstanding, g.key, n, g.origin);
  }

  lemma CutDone(x: Layout, y: Layout, D1: seq<Entry>, D2: seq<Entry>, m: map<Key, int>, M: nat, k: nat, n: int,
                g: Caching)
    requires k < |x.o| && 0 <= n < |x.D| && n !in x.o && ToPlace(x, m, M, x.o[k], g)
    requires x.F == y.F + [n] && y.o == Inserted(x.o, k, n) && Cut(x.D, D1, x.o[k], n, g.key.size)
    requires NoDup(y.items) && forall e :: e in y.items <==> e in x.items || e == x.o[k]
    requires Filled(D1[n := D1[n].(kind := BUSY)], D2, g.key, n) && y.D == D2[n := D2[n].(pending := |g.pend|)]
    ensures InPlace(x, y, m, M, n, g)
  {
    hide RegionInv, PoolInv, FreeIndex, InFlight, Inserted;
    assert CutOff(x.D, y.D, x.o[k], n, g.key);
    CutState(x.D, y.D, x.o, y.F, x.items, y.items, m, M, k, n, g.key);
    LiveElsewhere(x.D, x.o, x.F, x.items, m, M, x.o[k], n);
    LiveElsewhere(x.D, x.o, x.F, x.items, m, M, x.o[k], x.o[k]);
    NewFlight(x.D, y.D, m, g.pend, g.outstanding, g.key, n, g.origin);
  }

  /** Region o[k] of x has become, whole or in part, region n of w, of `size` bytes. */
  ghost predicate Carved(x: Layout, w: Layout, k: nat, n: int, size: nat) {
    && k < |x.o| && 0 <= x.o[k] < |x.D| && 0 <= n < |x.D| == |w.D|
    && (n == x.o[k] ==> w == x && x.D[n].size == size)
    && (n != x.o[k] ==>
          && n !in x.o && x.F == w.F + [n] && w.o == Inserted(x.o, k, n) && Cut(x.D, w.D, x.o[k], n, size)
          && x.D[x.o[k]].size > size && NoDup(w.items) && forall e :: e in w.items <==> e in x.items || e == x.o[k])
  }

  /** In y it is the entry for key. */
  ghost predicate Allotted(x: Layout, w: Layout, y: Layout, k: nat, n: int, key: Key) {
    Carved(x, w, k, n, key.size) && y == w.(D := y.D) && Filled(w.D[n := w.D[n].(kind := BUSY)], y.D, key, n)
  }

  lemma CarvedUse(x: Layout, w: Layout, k: nat, n: int, size: nat, T: seq<Slot>, m: map<Key, int>)
    requires Carved(x, w, k, n, size)
    ensures SameUse(T, x.D, m, T, w.D, m)
  {
    hide SameUse;
    UseFrame(T, x.D, w.D, m);
  }

  /** A pending copy is noted: that is no use. */
  lemma PendingUse(T: seq<Slot>, D: seq<Entry>, m: map<Key, int>, T1: seq<Slot>, D1: seq<Entry>, m1: map<Key, int>,
                   n: int, p: int, key: Key, now: nat)
    requires UsedNow(T, D, m, T1, D1, m1, key, now) && 0 <= n < |D1|
    ensures UsedNow(T, D, m, T1, D1[n := D1[n].(pending := p)], m1, key, now)
  {
    UseFrame(T1, D1, D1[n := D1[n].(pending := p)], m1);
  }

  lemma BusyUse(T: seq<Slot>, D: seq<Entry>, m: map<Key, int>, n: int)
    requires 0 <= n < |D|
    ensures SameUse(T, D, m, T, D[n := D[n].(kind := BUSY)], m)
  {
    UseFrame(T, D, D[n := D[n].(kind := BUSY)], m);
  }

  lemma HandlesUse(T: seq<Slot>, D: seq<Entry>, D': seq<Entry>, m: map<Key, int>)
    requires HandlesOnly(D, D')
    ensures SameUse(T, D, m, T, D', m)
  {
    UseFrame(T, D, D', m);
  }

  lemma WholeBlocks(x: Layout, D2: seq<Entry>, k: nat, key: Key)
    requires k < |x.o| && NoDup(x.o) && Free(x.D, x.o[k]) && x.D[x.o[k]].size == key.size
    requires Filled(x.D[x.o[k] := x.D[x.o[k]].(kind := BUSY)], D2, key, x.o[k])
    ensures Uses(BlocksOf(x.D, x.o), BlocksOf(D2, x.o), k, key)
  {
  }

  lemma CutBlocks(x: Layout, D1: seq<Entry>, D2: seq<Entry>, k: nat, n: int, key: Key)
    requires k < |x.o| && NoDup(x.o) && Free(x.D, x.o[k]) && 0 <= n < |x.D| && n !in x.o
    requires Cut(x.D, D1, x.o[k], n, key.size) && x.D[x.o[k]].size > key.size
    requires Filled(D1[n := D1[n].(kind := BUSY)], D2, key, n)
    ensures Uses(BlocksOf(x.D, x.o), BlocksOf(D2, Inserted(x.o, k, n)), k, key)
  {
    InsertedAt(x.o, k, n);
  }

  /** The gap of the region becomes the entry, and what is left of it stays a gap, if anything is. */
  lemma AllottedBlocks(x: Layout, w: Layout, y: Layout, k: nat, n: int, key: Key)
    requires Allotted(x, w, y, k, n, key) && Linked(x.D, x.o) && Free(x.D, x.o[k])
    ensures Uses(BlocksOf(x.D, x.o), BlocksOf(y.D, y.o), k, key)
  {
    hide Filled, Cut, Uses, Inserted;
    if n == x.o[k] {
      WholeBlocks(x, y.D, k, key);
    } else {
      CutBlocks(x, w.D, y.D, k, n, key);
    }
  }

  lemma AllottedDone(x: Layout, w: Layout, y: Layout, z: Layout, m: map<Key, int>, M: nat, k: nat, n: int, g: Caching)
    requires Allotted(x, w, y, k, n, g.key) && ToPlace(x, m, M, x.o[k], g)
    requires |y.D| == |x.D| && z == y.(D := y.D[n := y.D[n].(pending := |g.pend|)])
    ensures InPlace(x, z, m, M, n, g)
    ensures Uses(BlocksOf(x.D, x.o), BlocksOf(z.D, z.o), k, g.key)
  {
    hide Core, InFlight, Carried, Filled, Cut, Inserted, NoDup, InPlace, Uses;
    if n == x.o[k] {
      WholeDone(x, z, y.D, m, M, n, g);
    } else {
      CutDone(x, z, w.D, y.D, m, M, k, n, g);
    }
    LinkedInCore(x.D, x.o, x.F, x.items, m, M, x.o[k]);
    AllottedBlocks(x, w, y, k, n, g.key);
    BlocksFrame(y.D, z.D, y.o);
  }

  // ---- the choice of a region ----

  lemma Chosen(D: seq<Entry>, o: seq<int>, F: seq<int>, items: seq<int>, m: map<Key, int>, M: nat, size: nat,
               region: int)
    requires Core(D, o, F, items, m, M, NOENTRY) && BestFit(D, items, size, region)
    ensures NoDup(items) && (region == NOENTRY <==> NoneFits(D, o, size))
    ensures region != NOENTRY ==> region in items && Free(D, region) && D[region].size >= size
    ensures forall e :: e in o && Free(D, e) && D[e].size >= size ==> region != NOENTRY && D[region].size <= D[e].size
  {
  }

  /** Where the chosen region is, and that it is the tightest. */
  lemma TightestBlock(D: seq<Entry>, o: seq<int>, F: seq<int>, items: seq<int>, m: map<Key, int>, M: nat, size: nat,
                      region: int)
    returns (h: int)
    requires Core(D, o, F, items, m, M, NOENTRY) && BestFit(D, items, size, region)
    ensures Tightest(BlocksOf(D, o), size, h) && (h == NOENTRY <==> region == NOENTRY)
    ensures region != NOENTRY ==> RegionAt(o, h, region)
  {
    LinkedInCore(D, o, F, items, m, M, NOENTRY);
    h := NOENTRY;
    if region != NOENTRY {
      h :| 0 <= h < |o| && o[h] == region;
    }
    var V := BlocksOf(D, o);
    forall i | FitsAt(V, i, size) ensures h != NOENTRY && Len(V[h]) <= Len(V[i]) {
      assert o[i] in items;
    }
  }

  lemma HandlesBlocks(D: seq<Entry>, D': seq<Entry>, o: seq<int>)
    requires HandlesOnly(D, D')
    ensures BlocksOf(D', o) == BlocksOf(D, o)
  {
    BlocksFrame(D, D', o);
  }

  lemma VictimTaken(D: seq<Entry>, o: seq<int>, F: seq<int>, items: seq<int>, m: map<Key, int>, M: nat, held: int,
                    v: int)
    requires Core(D, o, F, items, m, M, held) && 0 <= v < |D| && D[v].getInfo in m && m[D[v].getInfo] == v
    ensures forall i :: RegionAt(o, i, v) ==> BlocksOf(D, o)[i] == Taken(D[v].getInfo)
  {
  }

  lemma OrderInRange(D: seq<Entry>, o: seq<int>, F: seq<int>, items: seq<int>, m: map<Key, int>, M: nat, held: int)
    requires Core(D, o, F, items, m, M, held)
    ensures NoDup(o) && forall k :: 0 <= k < |o| ==> 0 <= o[k] < |D|
  {
  }

  lemma HeldFree(D: seq<Entry>, o: seq<int>, F: seq<int>, items: seq<int>, m: map<Key, int>, M: nat, held: int)
    requires Core(D, o, F, items, m, M, held)
    ensures held != NOENTRY ==> Free(D, held)
  {
  }

  lemma LiveInBuffer(D: seq<Entry>, o: seq<int>, F: seq<int>, items: seq<int>, m: map<Key, int>, M: nat, key: Key)
    requires Core(D, o, F, items, m, M, NOENTRY) && key in m
    ensures 0 <= m[key] < |D| && D[m[key]].offset + key.size <= M && D[m[key]].getInfo == key
  {
    EntryInBuffer(D, o, m, M, key);
  }

  lemma FirstSlotIn(h: Hash, T: seq<Slot>, D: seq<Entry>, m: map<Key, int>, t: int, key: Key)
    requires IndexInv(h, T, D, m) && 0 <= t < TABLES
    ensures 0 <= SlotOf(h, t, key) < |T|
  {
  }

  // ---- flush ----

  lemma DrainKeeps(h: Hash, T: seq<Slot>, D: seq<Entry>, D': seq<Entry>, o: seq<int>, F: seq<int>, t: Shape,
                   m: map<Key, int>,
                   M: nat, R: seq<Pending>, outstanding: seq<Rma>, outstanding': seq<Rma>, mem: seq<byte>,
                   mem': seq<byte>, app: seq<byte>)
    requires Draining(D, D', m, R, mem, mem', app, -1) && InFlight(D, m, R, outstanding) && IndexInv(h, T, D, m)
    requires Core(D, o, F, Elems(t), m, M, NOENTRY) && Handles(D, t) && Sorted(D, Elems(t))
    ensures Core(D', o, F, Elems(t), m, M, NOENTRY) && Handles(D', t) && Sorted(D', Elems(t))
    ensures IndexInv(h, T, D', m) && InFlight(D', m, [], outstanding') && BlocksOf(D', o) == BlocksOf(D, o)
  {
    hide Core, Handles, Sorted, InFlight, IndexInv, Drained, Copied, OnlyAwaited;
    DrainedOnly(D, D', R, -1);
    BlocksFrame(D, D', o);
    CoreFrame(D, D', o, F, Elems(t), m, M, NOENTRY);
    HandlesFrame(D, D', t);
    SortedFrame(D, D', Elems(t));
    IndexFrame(h, T, D, D', m);
    DrainEnds(D, D', m, R, outstanding, outstanding');
  }
}
