/** The cache of one window: a buffer whose regions are described by descriptors, the index
    of its entries, the tree of its free regions, and the copies still to be made. */
module ClampiCache {
  import opened Descriptors
  import opened Sequences
  import opened AvlShape
  import opened AvlOrder
  import opened AvlDelete
  import opened AvlTree
  import opened CuckooWalk
  import opened CuckooIndex
  import opened Regions
  import opened CacheState
  import opened Blocks
  import opened CacheFlight
  import opened CacheDrain
  import opened CacheSteps
  import opened CacheOutcomes
  import opened Window

  const PENDING_STACK := 64
  const CACHE_LINE := 64

  /** Rounded up to whole cache lines. */
  function Aligned(bytes: nat): (r: nat)
    ensures bytes <= r < bytes + 64 && r % 64 == 0
  {
    (bytes + CACHE_LINE - 1) / CACHE_LINE * CACHE_LINE
  }

  class Cache {
    const entries: nat
    const memSize: nat
    const transparent: bool
    const desc: array<Entry>
    const freeEntries: array<int>
    const tree: Tree
    const ht: HashTable
    const pending: array<Pending>
    const mem: array<byte>
    const win: RmaWindow

    var nextFree: int
    var getcount: nat
    var penptr: int
    ghost var order: seq<int>   // the regions from left to right

    ghost function Footprint(): set<object> {
      {this, desc, freeEntries, tree, tree.nodes, tree.freeNodes, ht, ht.table, pending, mem, win, win.app}
    }

    ghost function Stack(): seq<int>
      reads this, freeEntries
    {
      if -1 <= nextFree < freeEntries.Length then freeEntries[..nextFree + 1] else []
    }

    ghost function Laid(): Layout
      reads this, desc, freeEntries, tree
    {
      Layout(desc[..], order, Stack(), tree.Items())
    }

    ghost function Records(): seq<Pending>
      reads this, pending
    {
      if 0 <= penptr <= pending.Length then pending[..penptr] else []
    }

    /** The parts belong together and do not overlap. */
    ghost predicate Wired() {
      && entries >= TABLES && desc.Length == 2 * entries == freeEntries.Length
      && tree.desc == desc && ht.desc == desc && HashOk(ht.hash, entries)
      && tree.nodes.Length == entries == ht.table.Length == tree.freeNodes.Length
      && pending.Length == PENDING_STACK && mem.Length == memSize
      && freeEntries != tree.freeNodes && mem != win.app
    }

    ghost predicate TreeOk()
      reads tree, tree.nodes, tree.freeNodes, desc
    {
      tree.Valid() && Handles(desc[..], tree.shape) && Sorted(desc[..], tree.Items())
    }

    ghost predicate Counters()
      reads this
    {
      -1 <= nextFree < freeEntries.Length && 0 <= penptr <= pending.Length
    }

    /** The invariant, with region `held` out of the tree. */
    ghost predicate Inv(held: int)
      reads this, desc, freeEntries, tree, tree.nodes, tree.freeNodes, ht, ht.table, pending, win
    {
      && Wired() && Counters() && TreeOk() && ht.Valid() && win.Valid()
      && Core(desc[..], order, Stack(), tree.Items(), ht.contents, memSize, held)
      && InFlight(desc[..], ht.contents, Records(), win.outstanding)
    }

    ghost predicate Valid()
      reads this, desc, freeEntries, tree, tree.nodes, tree.freeNodes, ht, ht.table, pending, win
    {
      Inv(NOENTRY) && (transparent ==> AllWait(desc[..], ht.contents))
    }

    /** The invariant while region x is on its way to becoming free, as far as regions go. */
    ghost predicate FreeingInv(x: int, held: int, gone: bool, v: int)
      reads this, desc, freeEntries, tree, tree.nodes, tree.freeNodes, ht
    {
      && Wired() && Counters() && TreeOk()
      && Freeing(desc[..], order, Stack(), tree.Items(), ht.contents, memSize, x, held, gone, v)
    }

    /** Makes descriptor 0 the one free region, and puts the others on the stack. */
    method UnusedAll()
      requires Wired()
      modifies this`nextFree, desc, freeEntries
      ensures nextFree == 2 * entries - 2 && forall j :: 0 <= j <= nextFree ==> freeEntries[j] == j + 1
      ensures desc[0].kind == FREE && desc[0].size == memSize && desc[0].offset == 0
      ensures desc[0].mprev == NOENTRY && desc[0].mnext == NOENTRY
    {
      for i := 1 to 2 * entries
        invariant forall j :: 0 <= j < i - 1 ==> freeEntries[j] == j + 1
      {
        desc[i] := desc[i].(mprev := NOENTRY, mnext := NOENTRY);
        freeEntries[i - 1] := i;
      }
      nextFree := 2 * entries - 2;
      desc[0] := desc[0].(kind := FREE, size := memSize, offset := 0, mprev := NOENTRY, mnext := NOENTRY);
    }

    /** Puts region x into the tree, in front of those of its size. */
    method Reindex(x: int) returns (ghost at: nat)
      requires Wired() && TreeOk() && x !in tree.Items() && |tree.Items()| < entries && 0 <= x < desc.Length
      modifies tree, tree.nodes, desc
      ensures TreeOk() && (NoDup(old(tree.Items())) ==> NoDup(tree.Items()))
      ensures Smaller(desc[..], old(tree.Items()), at, desc[x].size)
      ensures tree.Items() == Inserted(old(tree.Items()), at, x) && |tree.Items()| == |old(tree.Items())| + 1
      ensures forall e :: e in tree.Items() <==> e in old(tree.Items()) || e == x
      ensures desc[x].tnode != NOENTRY && desc[..] == old(desc[..])[x := old(desc[x]).(tnode := desc[x].tnode)]
    {
      hide Handles, Sorted, TreeInv;
      ghost var t, D := tree.shape, desc[..];
      tree.SpareNode();
      var node;
      ghost var steps;
      node, at, steps := tree.Insert(x);
      desc[x] := desc[x].(tnode := node);
      InsertedAt(Elems(t), at, x);
      NewHandle(tree.nodes[..], tree.root, tree.shape, tree.freeNodes[..], tree.nextFreeNode, node, x);
      HandleSet(D, desc[..], t, tree.shape, node, x);
      SortedFrame(D, desc[..], tree.Items());
    }

    /** Empties the cache: one free region, nothing indexed, no copy to be made. */
    method Reset()
      requires Wired() && win.Valid()
      modifies this`nextFree, this`getcount, this`penptr, this`order
      modifies desc, freeEntries, tree, tree.nodes, tree.freeNodes, ht, ht.table
      ensures Valid() && ht.contents == map[] && penptr == 0 && getcount == 0 && order == [0]
      ensures BlocksOf(desc[..], order) == [Gap(memSize)]
    {
      hide Handles, Sorted, TreeInv, IndexInv, Core, InFlight, NoDup;
      tree.Empty();
      penptr := 0;
      getcount := 0;
      ht.Reset();
      ghost var T, D := ht.table[..], desc[..];
      UnusedAll();
      order := [0];
      NothingIndexed(tree.shape, desc[..]);
      ghost var at := Reindex(0);
      assert tree.Items()[0] in tree.Items() && tree.Items() == [0];
      CoreStarts(desc[..], Stack(), memSize);
      assert ht.table[..] == T;
      NoEntries(ht.hash, T, D, desc[..], win.outstanding);
      assert Records() == [] && tree.Valid();
    }

    /** A cache for `win` with room for `entries` entries and at least `bytes` bytes. */
    constructor (bytes: nat, entries: nat, transparent: bool, win: RmaWindow)
      requires entries >= TABLES && win.Valid()
      ensures Valid() && ht.contents == map[] && penptr == 0 && getcount == 0 && order == [0]
      ensures BlocksOf(desc[..], order) == [Gap(memSize)]
      ensures this.entries == entries && this.transparent == transparent && this.win == win
      ensures memSize == Aligned(bytes)
      ensures forall t, k :: ht.hash(t, k) == CmpiHash(t, k, entries)
      ensures fresh(desc) && fresh(freeEntries) && fresh(tree) && fresh(tree.nodes) && fresh(tree.freeNodes)
      ensures fresh(ht) && fresh(ht.table) && fresh(pending) && fresh(mem)
    {
      this.entries, this.transparent, this.win := entries, transparent, win;
      memSize := Aligned(bytes);
      mem := new byte[Aligned(bytes)];
      var d := new Entry[2 * entries];
      desc := d;
      freeEntries := new int[2 * entries];
      CmpiHashOk(entries);
      ht := new HashTable(entries, d, (t, k) => CmpiHash(t, k, entries));
      tree := new Tree(entries, d);
      pending := new Pending[PENDING_STACK];
      new;
      Reset();
    }

    // ---- eviction ----

    /** Takes region y out of the tree; D0 are the descriptors as the tree knows them. */
    method Unindex(y: int, ghost D0: seq<Entry>) returns (ghost at: nat)
      requires Wired() && tree.Valid() && Handles(desc[..], tree.shape) && Sorted(D0, tree.Items())
      requires y in tree.Items() && NoDup(tree.Items()) && |D0| == desc.Length
      requires 0 <= y < desc.Length
      requires forall e :: e in tree.Items() && 0 <= e < |D0| && e != y ==> desc[e].size == D0[e].size
      modifies tree, tree.nodes, tree.freeNodes, desc
      ensures TreeOk() && NoDup(tree.Items()) && |tree.Items()| == |old(tree.Items())| - 1
      ensures at < |old(tree.Items())| && old(tree.Items())[at] == y && tree.Items() == Without(old(tree.Items()), at)
      ensures forall e :: e in tree.Items() <==> e in old(tree.Items()) && e != y
      ensures OnlyHandles(old(desc[..]), desc[..], tree.Items()) && HandlesOnly(old(desc[..]), desc[..])
      ensures desc[y].tnode != NOENTRY
    {
      hide Handles, Sorted, TreeInv, Without;
      tree.HandleFound(y);
      ghost var items := tree.Items();
      ghost var steps;
      at, steps := tree.DeleteNode(desc[y].tnode);
      WithoutAt(items, at);
      SortedWithout(D0, desc[..], items, at);
    }

    /** Takes descriptor b out of the list, next to its left neighbour a, and gives it up. */
    method Bypass(a: int, b: int)
      requires Wired() && 0 <= a < desc.Length && 0 <= b < desc.Length && a != b
      requires desc[b].mnext == NOENTRY || (0 <= desc[b].mnext < desc.Length && desc[b].mnext != a)
      requires -1 <= nextFree < freeEntries.Length - 1
      modifies this`nextFree, desc, freeEntries
      ensures desc[..] == Bypassed(old(desc[..]), a, b)
      ensures nextFree == old(nextFree) + 1 && Stack() == old(Stack()) + [b]
    {
      desc[a] := desc[a].(mnext := desc[b].mnext);
      if desc[b].mnext != NOENTRY {
        desc[desc[b].mnext] := desc[desc[b].mnext].(mprev := a);
      }
      nextFree := nextFree + 1;
      freeEntries[nextFree] := b;
    }

    /** Region a grows by the size of its right neighbour b; y, one of them, leaves the tree
        unless it is held. */
    method Enlarge(a: int, b: int, y: int, held: int)
      requires Wired() && TreeOk() && 0 <= a < desc.Length && 0 <= b < desc.Length && 0 <= y < desc.Length
      requires NoDup(tree.Items()) && (y in tree.Items() <==> y != held) && (a in tree.Items() ==> a == y)
      modifies tree, tree.nodes, tree.freeNodes, desc
      ensures TreeOk() && NoDup(tree.Items())
      ensures forall e :: e in tree.Items() <==> e in old(tree.Items()) && e != y
      ensures OnlyHandles(old(desc[..])[a := old(desc[a].(size := desc[a].size + desc[b].size))], desc[..],
                          tree.Items())
    {
      hide Handles, Sorted, TreeInv, NoDup;
      ghost var D := desc[..];
      desc[a] := desc[a].(size := desc[a].size + desc[b].size);
      HandlesFrame(D, desc[..], tree.shape);
      if y != held {
        ghost var at := Unindex(y, D);
      } else {
        SortedFrame(D, desc[..], tree.Items());
      }
    }

    method Splice(a: int, b: int, y: int, held: int) returns (ghost D2: seq<Entry>)
      requires Wired() && TreeOk() && 0 <= a < desc.Length && 0 <= b < desc.Length && 0 <= y < desc.Length && a != b
      requires NoDup(tree.Items()) && (y in tree.Items() <==> y != held) && (a in tree.Items() ==> a == y)
      requires desc[b].mnext == NOENTRY || (0 <= desc[b].mnext < desc.Length && desc[b].mnext != a)
      requires -1 <= nextFree < freeEntries.Length - 1
      modifies this`nextFree, desc, freeEntries, tree, tree.nodes, tree.freeNodes
      ensures TreeOk() && NoDup(tree.Items())
      ensures forall e :: e in tree.Items() <==> e in old(tree.Items()) && e != y
      ensures OnlyHandles(old(desc[..])[a := old(desc[a].(size := desc[a].size + desc[b].size))], D2, tree.Items())
      ensures desc[..] == Bypassed(D2, a, b) && nextFree == old(nextFree) + 1 && Stack() == old(Stack()) + [b]
    {
      hide Handles, Sorted, TreeInv, NoDup, OnlyHandles, Bypassed, SameTags, SameKinds;
      ghost var D := desc[..];
      Enlarge(a, b, y, held);
      D2 := desc[..];
      Enlarged(D, D2, a, b, tree.Items());
      Bypass(a, b);
      BypassedIndex(D2, desc[..], a, b, tree.Items(), tree.shape);
    }

    /** Joins region b to its left neighbour a, where x is the one of them that is on its way
        to becoming free, and y the other one. */
    method Absorb(a: int, b: int, y: int, held: int, ghost x: int, ghost gone: bool, ghost v: int, ghost k: nat)
      requires FreeingInv(x, held, gone, v) && Free(desc[..], y)
      requires k + 1 < |order| && order[k] == a && order[k + 1] == b
      requires (x == a && y == b) || (x == b && y == a)
      modifies this`nextFree, this`order, desc, freeEntries, tree, tree.nodes, tree.freeNodes
      ensures FreeingInv(a, held, gone || y == held, v)
      ensures order == Without(old(order), k + 1) && Joined(old(desc[..]), desc[..], a, b)
    {
      hide Freeing, Handles, Sorted, TreeInv, IndexInv, InFlight, Without, NoDup, OnlyHandles, HandlesOnly, SameTags,
           SameKinds, Joined, Bypassed;
      ghost var D, items, F := desc[..], tree.Items(), Stack();
      JoinReady(D, order, F, items, ht.contents, memSize, k, x, y, held, gone, v);
      ghost var D2 := Splice(a, b, y, held);
      Enlarged(D, D2, a, b, tree.Items());
      JoinIsDone(D, D2, desc[..], a, b, tree.Items());
      JoinState(D, D[a := D[a].(size := D[a].size + D[b].size)], D2, order, F, items, tree.Items(), ht.contents,
                memSize, k, x, y, held, gone, v);
      order := Without(order, k + 1);
    }

    /** A free region that is not x has a handle, be it in the tree or just taken out. */
    lemma HasHandle(x: int, held: int, gone: bool, v: int, y: int)
      requires FreeingInv(x, held, gone, v) && y in order && Free(desc[..], y) && y != x
      ensures desc[y].tnode != NOENTRY
    {
      hide Linked, Tiled, Alternates, FreeingEntries, TreeInv, Handles, Sorted;
      if y in tree.Items() { tree.HandleFound(y); }
    }

    /** The victim v joins a free region to its left. */
    method MergePrev(v: int, held: int) returns (x: int, gone: bool, ghost i: nat, ghost j: nat)
      requires FreeingInv(v, held, false, v)
      modifies this`nextFree, this`order, desc, freeEntries, tree, tree.nodes, tree.freeNodes
      ensures FreeingInv(x, held, gone, v) && 0 <= x < desc.Length && !Free(desc[..], desc[x].mprev)
      ensures Swelled(old(desc[..]), old(order), desc[..], order, x) && SameTags(old(desc[..]), desc[..])
      ensures gone ==> held == x
      ensures RegionAt(old(order), i, v) && RegionAt(order, j, x)
      ensures LeftJoined(View(old(desc[..]), old(order), v), old(order), View(desc[..], order, x), order, i, j, held,
                         gone)
    {
      hide Tiled, PoolInv, FreeingItems, FreeingEntries, Handles, Sorted, TreeInv, Fused, Without;
      ghost var D, o := desc[..], order;
      ghost var k := Position(D, o, v);
      x, gone, i, j := v, false, k, k;
      GapsBeside(D, o, k, v);
      if desc[v].mprev != NOENTRY {
        var prev := desc[v].mprev;
        if desc[prev].kind == FREE {
          HasHandle(v, held, false, v, prev);
          assert desc[prev].tnode != NOENTRY;
          Absorb(prev, v, prev, held, v, false, v, k - 1);
          x, gone, j := prev, prev == held, k - 1;
          JoinedView(D, desc[..], o, k - 1, v);
          LeftDone(D, desc[..], o, k - 1, v);
          WithoutAt(o, k);
        }
      }
    }

    /** Region x joins a free region to its right. */
    method MergeNext(x: int, held: int, gone: bool, ghost v: int, ghost j: nat) returns (gone': bool)
      requires FreeingInv(x, held, gone, v) && 0 <= x < desc.Length && (gone ==> held == x)
      requires !Free(desc[..], desc[x].mprev) && RegionAt(order, j, x)
      modifies this`nextFree, this`order, desc, freeEntries, tree, tree.nodes, tree.freeNodes
      ensures FreeingInv(x, held, gone', v) && !Free(desc[..], desc[x].mprev) && !Free(desc[..], desc[x].mnext)
      ensures Swelled(old(desc[..]), old(order), desc[..], order, x) && SameTags(old(desc[..]), desc[..])
      ensures gone' ==> 0 <= held < desc.Length && desc[x].size >= old(desc[held].size)
      ensures RegionAt(order, j, x)
      ensures RightJoined(View(old(desc[..]), old(order), x), old(order), View(desc[..], order, x), order, j, held,
                          gone, gone')
    {
      hide Tiled, PoolInv, FreeingItems, FreeingEntries, Handles, Sorted, TreeInv, Fused, Without;
      ghost var D, o := desc[..], order;
      ghost var k := Position(D, o, x);
      GapsBeside(D, o, k, x);
      gone' := gone;
      if desc[x].mnext != NOENTRY {
        var next := desc[x].mnext;
        if desc[next].kind == FREE {
          HasHandle(x, held, gone, v, next);
          assert desc[next].tnode != NOENTRY;
          Absorb(x, next, next, held, x, gone, v, k);
          gone' := gone || next == held;
          JoinedView(D, desc[..], o, k, x);
          RightDone(D, desc[..], o, k, x);
          WithoutAt(o, k + 1);
        }
      }
    }

    /** Region x turns free.  It is the region to use if the one chosen before was joined to
        it, or if there was none and it is large enough; otherwise it goes into the tree. */
    method Settle(x: int, held: int, gone: bool, size: nat, ghost v: int) returns (region: int)
      requires FreeingInv(x, held, gone, v) && 0 <= x < desc.Length && 0 <= v < desc.Length
      requires !Free(desc[..], desc[x].mprev) && !Free(desc[..], desc[x].mnext) && |ht.contents| <= entries
      modifies tree, tree.nodes, desc
      ensures Wired() && Counters() && TreeOk() && SameTags(old(desc[..]), desc[..])
      ensures Core(desc[..], order, Stack(), tree.Items(), ht.contents - {old(desc[v].getInfo)}, memSize, region)
      ensures forall e :: 0 <= e < desc.Length ==>
                desc[e].size == old(desc[e].size) && desc[e].kind == if e == x then FREE else old(desc[e].kind)
      ensures region == if gone || (held == NOENTRY && desc[x].size >= size) then x else held
      ensures BlocksOf(desc[..], order) == View(old(desc[..]), order, x)
    {
      hide Freeing, Core, Handles, Sorted, TreeInv, NoDup;
      ghost var D, items := desc[..], tree.Items();
      FreeingDistinct(D, order, Stack(), items, ht.contents, memSize, x, held, gone, v);
      if !gone { RoomForFreed(D, order, Stack(), items, ht.contents, memSize, x, held, v, entries); }
      desc[x] := desc[x].(kind := FREE);
      HandlesFrame(D, desc[..], tree.shape);
      SortedFrame(D, desc[..], items);
      if (held == NOENTRY && desc[x].size >= size) || gone {
        region := x;
      } else {
        region := held;
        ghost var at := Reindex(x);
      }
      FreeingEnds(D, desc[..], order, Stack(), items, ht.contents, memSize, x, held, gone, v, tree.Items(), region);
      SettledView(D, desc[..], order, x);
    }

    /** The victim's descriptor becomes the descriptor of a region of its size. */
    method Doom(victim: int, held: int)
      requires Inv(held) && 0 <= victim < desc.Length && (0 <= held < desc.Length ==> desc[held].tnode != NOENTRY)
      requires desc[victim].getInfo in ht.contents && ht.contents[desc[victim].getInfo] == victim
      modifies desc
      ensures desc[..] == old(desc[..])[victim := old(desc[victim]).(size := old(desc[victim]).getInfo.size)]
      ensures FreeingInv(victim, held, false, victim) && |ht.contents| <= entries
      ensures old(desc[victim]).kind == BUSY && held != victim
    {
      hide Core, Freeing, Handles, Sorted, TreeInv, NoDup, InFlight, IndexInv;
      ghost var D := desc[..];
      BusyEntry(D, order, Stack(), tree.Items(), ht.contents, memSize, held, victim);
      IndexCapacity(ht.hash, ht.table[..], D, ht.contents);
      FreeingStarts(D, order, Stack(), tree.Items(), ht.contents, memSize, held, victim);
      desc[victim] := desc[victim].(size := desc[victim].getInfo.size);
      HandlesFrame(D, desc[..], tree.shape);
      SortedFrame(D, desc[..], tree.Items());
    }

    /** The victim is a live entry, and the choice of the held region was right. */
    ghost predicate Evictable(victim: int, held: int, size: nat)
      reads this, desc, ht
    {
      && 0 <= victim < desc.Length && desc[victim].getInfo in ht.contents && ht.contents[desc[victim].getInfo] == victim
      && (held == NOENTRY ==> NoneFits(desc[..], order, size))
      && (held != NOENTRY ==> 0 <= held < desc.Length && desc[held].tnode != NOENTRY && desc[held].size >= size)
    }

    /** Joins the region of the victim to its free neighbours. */
    method MergeBoth(victim: int, held: int)
      returns (x: int, gone: bool, ghost i: nat, ghost j: nat, ghost gone1: bool, ghost V1: seq<Block>,
               ghost o1: seq<int>)
      requires FreeingInv(victim, held, false, victim) && 0 <= victim < desc.Length
      modifies this`nextFree, this`order, desc, freeEntries, tree, tree.nodes, tree.freeNodes
      ensures FreeingInv(x, held, gone, victim) && 0 <= x < desc.Length
      ensures !Free(desc[..], desc[x].mprev) && !Free(desc[..], desc[x].mnext)
      ensures SameTags(old(desc[..]), desc[..]) && Swelled(old(desc[..]), old(order), desc[..], order, x)
      ensures gone ==> 0 <= held < desc.Length && desc[x].size >= old(desc[held].size)
      ensures RegionAt(old(order), i, victim) && RegionAt(order, j, x) && |V1| == |o1|
      ensures LeftJoined(View(old(desc[..]), old(order), victim), old(order), V1, o1, i, j, held, gone1)
      ensures RightJoined(V1, o1, View(desc[..], order, x), order, j, held, gone1, gone)
    {
      hide Freeing, Handles, Sorted, TreeInv, SameTags, SameKinds, Swelled, LeftJoined, RightJoined, View;
      ghost var D, o := desc[..], order;
      x, gone, i, j := MergePrev(victim, held);
      gone1 := gone;
      ghost var D1 := desc[..];
      o1, V1 := order, View(D1, order, x);
      gone := MergeNext(x, held, gone, victim, j);
      SameTagsTwice(D, D1, desc[..]);
      SwelledTwice(D, o, D1, o1, desc[..], order, x, held);
    }

    /** Turns the region of the victim, joined to its free neighbours, into a free region,
        and returns the region to use. */
    method FreeRegion(victim: int, held: int, size: nat) returns (region: int, ghost i: nat)
      requires Inv(held) && Evictable(victim, held, size)
      modifies this`nextFree, this`order, desc, freeEntries, tree, tree.nodes, tree.freeNodes
      ensures Wired() && Counters() && TreeOk() && SameTags(old(desc[..]), desc[..])
      ensures Core(desc[..], order, Stack(), tree.Items(), ht.contents - {old(desc[victim].getInfo)}, memSize, region)
      ensures region == NOENTRY ==> held == NOENTRY && NoneFits(desc[..], order, size)
      ensures region != NOENTRY ==> 0 <= region < desc.Length && desc[region].size >= size
      ensures RegionAt(old(order), i, victim)
      ensures GivenUp(BlocksOf(old(desc[..]), old(order)), old(order), BlocksOf(desc[..], order), order, i, held, size,
                      region)
    {
      hide Core, Freeing, Handles, Sorted, TreeInv, InFlight, IndexInv, SameTags, SameKinds, Swelled, NoneFits,
           LeftJoined, RightJoined, GivenUp, View, BlocksOf;
      ghost var D, o := desc[..], order;
      LinkedInCore(D, o, Stack(), tree.Items(), ht.contents, memSize, held);
      Doom(victim, held);
      ghost var D0 := desc[..];
      var x, gone;
      ghost var j, gone1, V1, o1;
      x, gone, i, j, gone1, V1, o1 := MergeBoth(victim, held);
      ghost var D2 := desc[..];
      DoomedTags(D, D0, D2, victim);
      region := Settle(x, held, gone, size, victim);
      SameTagsTwice(D, D2, desc[..]);
      RegionChosen(D, o, victim, D2, order, desc[..], x, held, gone, size, region);
      EvictedBlocks(D, D0, o, V1, o1, D2, order, victim, i, j, x, held, gone1, gone, size, region);
    }

    /** The same, as far as the rest of the cache is concerned. */
    method Unplace(victim: int, held: int, size: nat) returns (region: int, ghost i: nat)
      requires Inv(held) && Evictable(victim, held, size)
      modifies this`nextFree, this`order, desc, freeEntries, tree, tree.nodes, tree.freeNodes
      ensures Wired() && Counters() && TreeOk() && SameTags(old(desc[..]), desc[..]) && ht.Valid()
      ensures ht.Held() == old(ht.Held()) && desc[victim].getInfo == old(desc[victim].getInfo)
      ensures desc[victim].htindex == old(desc[victim].htindex)
      ensures Core(desc[..], order, Stack(), tree.Items(), ht.contents - {desc[victim].getInfo}, memSize, region)
      ensures region == NOENTRY ==> held == NOENTRY && NoneFits(desc[..], order, size)
      ensures region != NOENTRY ==> 0 <= region < desc.Length && desc[region].size >= size
      ensures RegionAt(old(order), i, victim)
      ensures GivenUp(BlocksOf(old(desc[..]), old(order)), old(order), BlocksOf(desc[..], order), order, i, held, size,
                      region)
    {
      hide Core, Handles, Sorted, TreeInv, InFlight, IndexInv, Keys, SameTags, NoneFits, GivenUp, BlocksOf;
      ghost var D := desc[..];
      region, i := FreeRegion(victim, held, size);
      SameTagsAt(D, desc[..], victim);
      TagsFrame(ht.hash, ht.table[..], D, desc[..], ht.contents, Records(), win.outstanding);
    }

    /** Drops the victim from the index; its pending copy, if any, will not be made. */
    method Forget(victim: int)
      requires Wired() && ht.Valid() && 0 <= victim < desc.Length
      requires desc[victim].getInfo in ht.contents && ht.contents[desc[victim].getInfo] == victim
      modifies desc, ht, ht.table
      ensures ht.Valid() && ht.contents == old(ht.contents) - {old(desc[victim].getInfo)}
      ensures 0 <= old(desc[victim].htindex) < |old(ht.Held())|
      ensures ht.Held() == old(ht.Held())[old(desc[victim].htindex) := Empty]
      ensures var s := old(desc[victim].htindex);
              s < ht.table.Length && ht.table[..] == old(ht.table[..])[s := old(ht.table[..])[s].(lasthit := 0)]
      ensures desc[..] == old(desc[..])[victim := old(desc[victim]).(pending := -1)]
    {
      hide IndexInv, Keys;
      ghost var D := desc[..];
      ht.Remove(victim);
      desc[victim] := desc[victim].(pending := -1);
      IndexFrame(ht.hash, ht.table[..], D, desc[..], ht.contents);
    }

    /** Evicts one entry, to make room for `size` bytes unless region `held` already has them. */
    method Evict(victim: int, held: int, size: nat) returns (region: int, ghost i: nat)
      requires Inv(held) && Evictable(victim, held, size)
      modifies this`nextFree, this`order, desc, freeEntries, tree, tree.nodes, tree.freeNodes, ht, ht.table
      ensures Inv(region)
      ensures ht.contents == old(ht.contents) - {old(desc[victim].getInfo)}
      ensures 0 <= old(desc[victim].htindex) < |old(ht.Held())|
      ensures ht.Held() == old(ht.Held())[old(desc[victim].htindex) := Empty]
      ensures region == NOENTRY ==> held == NOENTRY && NoneFits(desc[..], order, size)
      ensures region != NOENTRY ==> 0 <= region < desc.Length && desc[region].size >= size
      ensures Carried(old(desc[..]), old(ht.contents), desc[..], ht.contents)
      ensures SameUse(old(ht.table[..]), old(desc[..]), old(ht.contents), ht.table[..], desc[..], ht.contents)
      ensures RegionAt(old(order), i, victim)
      ensures GivenUp(BlocksOf(old(desc[..]), old(order)), old(order), BlocksOf(desc[..], order), order, i, held, size,
                      region)
    {
      hide Core, Handles, Sorted, TreeInv, InFlight, IndexInv, Keys, SameTags, Carried, NoneFits, Stack, Counters,
           GivenUp, BlocksOf, SameUse;
      ghost var T, D, m := ht.table[..], desc[..], ht.contents;
      EntriesInRange(ht.hash, T, D, m);
      region, i := Unplace(victim, held, size);
      ghost var D1 := desc[..];
      Forget(victim);
      EvictionDone(D, D1, desc[..], order, Stack(), tree.shape, m, memSize, region, Records(), win.outstanding, victim,
                   size);
      EvictionUses(ht.hash, T, ht.table[..], D, D1, desc[..], m, victim);
    }

    // ---- using a region ----

    /** Descriptor n takes the first `size` bytes of region x, and its place in the list. */
    method Split(x: int, n: int, size: nat)
      requires 0 <= x < desc.Length && 0 <= n < desc.Length && n != x && desc[x].mprev != n && desc[x].mprev != x
      requires desc[x].mprev == NOENTRY || 0 <= desc[x].mprev < desc.Length
      requires desc[x].size >= size
      modifies desc
      ensures Cut(old(desc[..]), desc[..], x, n, size) && desc[x].tnode == old(desc[x].tnode)
    {
      desc[n] := desc[n].(mnext := x);
      if desc[x].mprev != NOENTRY {
        desc[desc[x].mprev] := desc[desc[x].mprev].(mnext := n);
      }
      desc[n] := desc[n].(mprev := desc[x].mprev);
      desc[x] := desc[x].(mprev := n);
      desc[n] := desc[n].(offset := desc[x].offset);
      desc[x] := desc[x].(offset := desc[x].offset + size);
      desc[x] := desc[x].(size := desc[x].size - size);
    }

    /** Takes a new descriptor for the first `size` bytes of the free region x, and puts the
        rest of x into the tree. */
    method CutFront(x: int, size: nat) returns (n: int)
      requires Wired() && TreeOk() && 0 <= x < desc.Length && x !in tree.Items() && |tree.Items()| < entries
      requires 0 <= nextFree < freeEntries.Length && 0 <= freeEntries[nextFree] < desc.Length
      requires freeEntries[nextFree] != x && desc[x].mprev != freeEntries[nextFree] && desc[x].mprev != x
      requires desc[x].mprev == NOENTRY || 0 <= desc[x].mprev < desc.Length
      requires desc[x].size >= size
      modifies this`nextFree, desc, tree, tree.nodes
      ensures nextFree == old(nextFree) - 1 && n == freeEntries[old(nextFree)]
      ensures TreeOk() && (NoDup(old(tree.Items())) ==> NoDup(tree.Items()))
      ensures forall e :: e in tree.Items() <==> e in old(tree.Items()) || e == x
      ensures Cut(old(desc[..]), desc[..], x, n, size)
    {
      hide Handles, Sorted, TreeInv, NoDup, Cut;
      ghost var D := desc[..];
      n := freeEntries[nextFree];
      nextFree := nextFree - 1;
      Split(x, n, size);
      ghost var D1 := desc[..];
      CutKeeps(D, D1, x, n, size, tree.shape);
      ghost var at := Reindex(x);
      CutIndexed(D, D1, desc[..], x, n, size);
    }

    /** Makes descriptor n the entry for key. */
    method Fill(n: int, key: Key, start: int)
      requires Wired() && ht.Valid() && 0 <= n < desc.Length && 0 <= start < TABLES && getcount > 0
      requires key !in ht.contents && (forall k :: k in ht.contents ==> ht.contents[k] != n)
      requires Insertable(ht.hash, ht.Held(), key, start)
      modifies desc, ht, ht.table
      ensures ht.Valid() && ht.contents == old(ht.contents)[key := n]
      ensures Filled(old(desc[..])[n := old(desc[n]).(kind := BUSY)], desc[..], key, n)
      ensures UsedNow(old(ht.table[..]), old(desc[..]), old(ht.contents), ht.table[..], desc[..], ht.contents, key,
                      getcount)
    {
      hide IndexInv, Keys, Filled, Insertable, UsedNow, SameUse;
      ghost var T, D, m := ht.table[..], desc[..], ht.contents;
      desc[n] := desc[n].(kind := BUSY);
      ghost var D1 := desc[..];
      IndexFrame(ht.hash, T, D, D1, m);
      BusyUse(T, D, m, n);
      ghost var p := ht.Insert(key, start, n, getcount);
      SameUseThen(T, D, m, T, D1, m, ht.table[..], desc[..], ht.contents, key, getcount);
    }

    /** Notes that the bytes of entry n are to be copied from `origin` by the next flush. */
    method Push(n: int, origin: nat, size: nat)
      requires Wired() && 0 <= penptr < PENDING_STACK && 0 <= n < desc.Length && ht.Valid()
      modifies this`penptr, pending, desc
      ensures penptr == old(penptr) + 1 && ht.Valid()
      ensures desc[..] == old(desc[..])[n := old(desc[n]).(pending := old(penptr))]
      ensures pending[..penptr] == old(pending[..penptr]) + [Pending(n, desc[n].offset, origin, size)]
    {
      hide IndexInv;
      ghost var D := desc[..];
      desc[n] := desc[n].(pending := penptr);
      pending[penptr] := Pending(n, desc[n].offset, origin, size);
      penptr := penptr + 1;
      IndexFrame(ht.hash, ht.table[..], D, desc[..], ht.contents);
    }

    /** Makes a region of the size of key out of the free region: that one, exactly if it has the
        size, and otherwise its front. */
    method Carve(region: int, key: Key, ghost start: int) returns (n: int, ghost k: nat)
      requires Inv(region) && Free(desc[..], region) && desc[region].size >= key.size
      requires key !in ht.contents && 0 <= start < TABLES
      requires Insertable(ht.hash, ht.Held(), key, start)
      modifies this`nextFree, this`order, desc, tree, tree.nodes
      ensures RegionAt(old(order), k, region) && 0 <= n < desc.Length
      ensures n == region <==> old(desc[region].size) == key.size
      ensures Counters() && TreeOk() && ht.Valid() && ht.Held() == old(ht.Held())
      ensures forall x :: x in ht.contents ==> ht.contents[x] != n
      ensures Carved(old(Laid()), Laid(), k, n, key.size)
      ensures SameUse(ht.table[..], old(desc[..]), ht.contents, ht.table[..], desc[..], ht.contents)
    {
      hide Core, Handles, Sorted, TreeInv, NoDup, InFlight, IndexInv, Keys, Insertable, Cut, Inserted, SameUse;
      ghost var D, F, m, x := desc[..], Stack(), ht.contents, Laid();
      k := CutReady(ht.hash, ht.table[..], D, order, F, tree.Items(), m, memSize, region, key, start);
      n := region;
      if desc[region].size > key.size {
        n := CutFront(region, key.size);
        CutIds(ht.hash, ht.table[..], D, desc[..], m, region, n, key.size);
        assert F == F[..|F| - 1] + [n];
        order := Inserted(order, k, n);
      }
      LiveElsewhere(D, old(order), F, old(tree.Items()), m, memSize, region, n);
      CarvedUse(x, Laid(), k, n, key.size, ht.table[..], m);
    }

    /** Makes an entry for key out of the free region, whole or in part. */
    method Allot(region: int, key: Key, start: int) returns (n: int, ghost w: Layout, ghost k: nat)
      requires Inv(region) && Free(desc[..], region) && desc[region].size >= key.size
      requires key !in ht.contents && 0 <= start < TABLES && getcount > 0
      requires Insertable(ht.hash, ht.Held(), key, start)
      modifies this`nextFree, this`order, desc, tree, tree.nodes, ht, ht.table
      ensures RegionAt(old(order), k, region) && 0 <= n < desc.Length && |w.D| == desc.Length
      ensures n == region <==> old(desc[region].size) == key.size
      ensures Counters() && tree.Valid() && ht.Valid() && ht.contents == old(ht.contents)[key := n]
      ensures Handles(w.D, tree.shape) && Sorted(w.D, tree.Items())
      ensures Filled(w.D[n := w.D[n].(kind := BUSY)], desc[..], key, n)
      ensures Allotted(old(Laid()), w, Laid(), k, n, key)
      ensures UsedNow(old(ht.table[..]), old(desc[..]), old(ht.contents), ht.table[..], desc[..], ht.contents, key,
                      getcount)
    {
      hide Core, Handles, Sorted, TreeInv, NoDup, InFlight, IndexInv, Keys, Insertable, Filled, Carved,
           UsedNow, SameUse;
      ghost var T, D, m := ht.table[..], desc[..], ht.contents;
      n, k := Carve(region, key, start);
      w := Laid();
      Fill(n, key, start);
      SameUseThen(T, D, m, T, w.D, m, ht.table[..], desc[..], ht.contents, key, getcount);
    }

    /** The entry for key waits for the newest record, of a copy from `origin`; R are the records
        before it. */
    ghost predicate Noted(R: seq<Pending>, origin: nat, key: Key)
      reads this, desc, ht, pending
    {
      && key in ht.contents && 0 <= ht.contents[key] < desc.Length
      && var n := ht.contents[key];
         desc[n].pending == |R| && Records() == R + [Pending(n, desc[n].offset, origin, key.size)]
    }

    /** Makes an entry for key out of the free region, to be filled by the next flush.  Not so
        when there are too many pending copies: the program then exits. */
    method Place(region: int, key: Key, start: int, origin: nat) returns (ok: bool, ghost n: int, ghost k: nat)
      requires Inv(region) && Free(desc[..], region) && desc[region].size >= key.size
      requires key !in ht.contents && 0 <= start < TABLES && getcount > 0
      requires Insertable(ht.hash, ht.Held(), key, start) && Rma(origin, key) in win.outstanding
      modifies this`nextFree, this`order, this`penptr, desc, tree, tree.nodes, ht, ht.table, pending
      ensures ok == (old(penptr) < PENDING_STACK)
      ensures ok ==> Inv(NOENTRY) && ht.contents == old(ht.contents)[key := n]
      ensures ok ==> penptr == old(penptr) + 1 && Noted(old(Records()), origin, key)
      ensures ok ==> Carried(old(desc[..]), old(ht.contents), desc[..], ht.contents)
      ensures RegionAt(old(order), k, region)
      ensures ok ==> Uses(BlocksOf(old(desc[..]), old(order)), BlocksOf(desc[..], order), k, key)
      ensures ok ==>
                UsedNow(old(ht.table[..]), old(desc[..]), old(ht.contents), ht.table[..], desc[..], ht.contents, key,
                        getcount)
    {
      hide Core, Handles, Sorted, TreeInv, NoDup, InFlight, IndexInv, Keys, Carried, Insertable, Filled, Allotted,
           Uses, BlocksOf, UsedNow;
      ghost var T := ht.table[..];
      ghost var x, m, g := Laid(), ht.contents, Caching(key, origin, Records(), win.outstanding);
      var newe;
      ghost var w;
      newe, w, k := Allot(region, key, start);
      n := newe;
      if penptr >= PENDING_STACK {
        return false, n, k;
      }
      ok := true;
      ghost var y := Laid();
      Push(newe, origin, key.size);
      PendingUse(T, x.D, m, ht.table[..], y.D, ht.contents, newe, |g.pend|, key, getcount);
      FilledIndex(w.D, y.D, newe, key, |g.pend|, tree.shape);
      AllottedDone(x, w, y, Laid(), m, memSize, k, newe, g);
    }

    // ---- the calls of the application ----

    /** The free region for `size` bytes, taken out of the tree, if there is one. */
    method ChooseRegion(size: nat) returns (region: int, ghost h: int)
      requires Inv(NOENTRY)
      modifies tree, tree.nodes, tree.freeNodes, desc
      ensures Inv(region) && HandlesOnly(old(desc[..]), desc[..]) && ht.Held() == old(ht.Held())
      ensures region == NOENTRY ==> NoneFits(desc[..], order, size)
      ensures region != NOENTRY ==>
                && 0 <= region < desc.Length && Free(desc[..], region)
                && desc[region].tnode != NOENTRY && desc[region].size >= size
      ensures region == NOENTRY <==> NoneFits(old(desc[..]), order, size)
      ensures forall e :: e in order && Free(desc[..], e) && desc[e].size >= size ==> desc[region].size <= desc[e].size
      ensures region == Found(old(desc[..]), old(tree.shape), size, NIL)
      ensures BlocksOf(desc[..], order) == BlocksOf(old(desc[..]), order)
      ensures Tightest(BlocksOf(desc[..], order), size, h) && (h == NOENTRY <==> region == NOENTRY)
      ensures region != NOENTRY ==> RegionAt(order, h, region)
    {
      hide Handles, Sorted, TreeInv, NoDup, InFlight, IndexInv, Core, BestFit, BlocksOf, Tightest, Found;
      ghost var D, items := desc[..], tree.Items();
      ghost var steps;
      region, steps := tree.CSearchNode(size);
      Chosen(D, order, Stack(), items, ht.contents, memSize, size, region);
      h := TightestBlock(D, order, Stack(), items, ht.contents, memSize, size, region);
      if region != NOENTRY {
        ghost var at := Unindex(region, D);
        HeldTaken(D, desc[..], order, Stack(), items, tree.Items(), ht.contents, memSize, region);
        HandlesTags(D, desc[..]);
        HandlesBlocks(D, desc[..], order);
        TagsFrame(ht.hash, ht.table[..], D, desc[..], ht.contents, Records(), win.outstanding);
      }
    }

    /** Which entry has to go: the one that the dry run of the insertion names, or, when there
        is no space, one found by scanning the index. */
    method ChooseVictim(key: Key, start: int, region: int, score: Slot -> real) returns (victim: int, inIndex: bool)
      requires Inv(region) && 0 <= start < TABLES && key.size <= memSize
      requires region == NOENTRY ==> NoneFits(desc[..], order, key.size)
      ensures inIndex <==> !Insertable(ht.hash, ht.Held(), key, start)
      ensures victim == NOENTRY <==> region != NOENTRY && !inIndex
      ensures victim != NOENTRY ==>
                && 0 <= victim < desc.Length && desc[victim].getInfo in ht.contents
                && ht.contents[desc[victim].getInfo] == victim && 0 <= desc[victim].htindex < |ht.Held()|
                && Insertable(ht.hash, ht.Held()[desc[victim].htindex := Empty], key, start)
                && VictimFor(ht.hash, ht.table[..], ht.Held(), |ht.contents|, key, start, score, inIndex, victim)
    {
      hide Handles, Sorted, TreeInv, NoDup, InFlight, IndexInv, RegionInv, PoolInv, EntryIndex, Keys, Insertable,
           NoneFits, LeastOnWalk, LeastInSample;
      ghost var p, best;
      victim, p, best := ht.InsertCheck(key, start, score);
      inIndex := victim != NOENTRY;
      if victim == NOENTRY && region == NOENTRY {
        SomethingToEvict(desc[..], order, ht.contents, memSize, key.size);
        var idx :| 0 <= idx < entries;
        var scanned;
        victim, scanned, best := ht.SelectVictim(idx, score);
        assert victim != NOENTRY;
        EntryOf(ht.hash, ht.table[..], desc[..], ht.contents, desc[victim].getInfo);
        FirstSlotIn(ht.hash, ht.table[..], desc[..], ht.contents, start, key);
        RemovalKeepsInsertable(ht.hash, ht.Held(), key, start, desc[victim].htindex);
      }
    }

    /** Evicts one entry to find a free region, unless region `held`, which is block h, fits. */
    method Vacate(victim: int, held: int, size: nat, ghost h: int) returns (region: int, ghost c: Choice)
      requires Inv(held) && Evictable(victim, held, size)
      requires Tightest(BlocksOf(desc[..], order), size, h) && (h == NOENTRY <==> held == NOENTRY)
      requires held != NOENTRY ==> RegionAt(order, h, held)
      modifies this`nextFree, this`order, desc, freeEntries, tree, tree.nodes, tree.freeNodes, ht, ht.table
      ensures Inv(region)
      ensures ht.contents == old(ht.contents) - {old(desc[victim].getInfo)}
      ensures 0 <= old(desc[victim].htindex) < |old(ht.Held())|
      ensures ht.Held() == old(ht.Held())[old(desc[victim].htindex) := Empty]
      ensures region == NOENTRY ==> held == NOENTRY && NoneFits(desc[..], order, size)
      ensures region != NOENTRY ==>
                0 <= region < desc.Length && Free(desc[..], region) && desc[region].size >= size
      ensures Carried(old(desc[..]), old(ht.contents), desc[..], ht.contents)
      ensures SameUse(old(ht.table[..]), old(desc[..]), old(ht.contents), ht.table[..], desc[..], ht.contents)
      ensures Cleared(BlocksOf(old(desc[..]), old(order)), BlocksOf(desc[..], order), order, size, region, c)
      ensures RegionAt(old(order), c.victim, victim)
    {
      hide Handles, Sorted, TreeInv, NoDup, InFlight, IndexInv, Core, NoneFits, Carried, SameUse, GivenUp, BlocksOf,
           Tightest, Cleared;
      ghost var D, o := desc[..], order;
      VictimTaken(D, o, Stack(), tree.Items(), ht.contents, memSize, held, victim);
      ghost var i;
      region, i := Evict(victim, held, size);
      HeldFree(desc[..], order, Stack(), tree.Items(), ht.contents, memSize, region);
      OrderInRange(desc[..], order, Stack(), tree.Items(), ht.contents, memSize, region);
      assert BlocksOf(D, o)[i].Taken?;
      c := ClearedByEviction(BlocksOf(D, o), o, BlocksOf(desc[..], order), order, i, h, held, size, region);
    }

    /** The region and the victim, if any, for a new entry. */
    method Look(key: Key, score: Slot -> real)
      returns (region: int, start: int, victim: int, inIndex: bool, ghost h: int)
      requires Inv(NOENTRY) && key !in ht.contents && key.size <= memSize
      modifies tree, tree.nodes, tree.freeNodes, desc
      ensures Inv(region) && HandlesOnly(old(desc[..]), desc[..]) && ht.Held() == old(ht.Held()) && 0 <= start < TABLES
      ensures region == NOENTRY <==> NoneFits(old(desc[..]), order, key.size)
      ensures region != NOENTRY ==>
                0 <= region < desc.Length && Free(desc[..], region) && desc[region].size >= key.size
      ensures BlocksOf(desc[..], order) == BlocksOf(old(desc[..]), order)
      ensures Tightest(BlocksOf(desc[..], order), key.size, h) && (h == NOENTRY <==> region == NOENTRY)
      ensures region != NOENTRY ==> RegionAt(order, h, region)
      ensures inIndex <==> !Insertable(ht.hash, ht.Held(), key, start)
      ensures victim == NOENTRY <==> region != NOENTRY && !inIndex
      ensures victim != NOENTRY ==>
                && Evictable(victim, region, key.size) && 0 <= desc[victim].htindex < |ht.Held()|
                && Insertable(ht.hash, ht.Held()[desc[victim].htindex := Empty], key, start)
                && VictimFor(ht.hash, ht.table[..], ht.Held(), |ht.contents|, key, start, score, inIndex, victim)
      ensures SameUse(ht.table[..], old(desc[..]), ht.contents, ht.table[..], desc[..], ht.contents)
      ensures forall k :: k in ht.contents ==> 0 <= ht.contents[k] < desc.Length
    {
      hide Handles, Sorted, TreeInv, NoDup, InFlight, IndexInv, Core, Insertable, NoneFits, HandlesOnly, Free, SameUse,
           BlocksOf, Tightest, VictimFor;
      ghost var D := desc[..];
      region, h := ChooseRegion(key.size);
      HandlesUse(ht.table[..], D, desc[..], ht.contents);
      start :| 0 <= start < TABLES;
      victim, inIndex := ChooseVictim(key, start, region, score);
      EntriesInRange(ht.hash, ht.table[..], desc[..], ht.contents);
    }

    /** Finds a free region for a new entry and a way into the index, at the expense of at
        most one other entry. */
    method MakeRoom(key: Key, score: Slot -> real)
      returns (region: int, start: int, cause: Cause, ghost evicted: set<Key>, ghost c: Choice)
      requires Inv(NOENTRY) && key !in ht.contents && key.size <= memSize
      modifies this`nextFree, this`order, desc, freeEntries, tree, tree.nodes, tree.freeNodes, ht, ht.table
      ensures Inv(region) && 0 <= start < TABLES
      ensures region != NOENTRY ==> Insertable(ht.hash, ht.Held(), key, start)
      ensures RoomMade(key, Insertable(ht.hash, old(ht.Held()), key, start), region, cause, evicted,
                       old(desc[..]), old(order), old(ht.contents), desc[..], order, ht.contents)
      ensures Cleared(BlocksOf(old(desc[..]), old(order)), BlocksOf(desc[..], order), order, key.size, region, c)
      ensures VictimRight(ht.hash, old(ht.table[..]), old(ht.Held()), old(ht.contents), old(order), key, start, score,
                          cause, evicted, c)
      ensures SameUse(old(ht.table[..]), old(desc[..]), old(ht.contents), ht.table[..], desc[..], ht.contents)
    {
      hide Handles, Sorted, TreeInv, NoDup, InFlight, IndexInv, Core, Insertable, NoneFits, HandlesOnly, SameTags,
           Carried, RoomMade, Free, SameUse, BlocksOf, Cleared, Tightest, VictimFor, VictimRight;
      ghost var T, K, D, o, m := ht.table[..], ht.Held(), desc[..], order, ht.contents;
      var victim, inIndex;
      ghost var h;
      region, start, victim, inIndex, h := Look(key, score);
      ghost var D1, fine := desc[..], Insertable(ht.hash, ht.Held(), key, start);
      cause := if victim == NOENTRY then NoEviction else if inIndex then ForIndex else ForSpace;
      evicted := if victim == NOENTRY then {} else {desc[victim].getInfo};
      if victim == NOENTRY {
        RoomThere(key, fine, region, D, o, m, D1);
        c := Choice(h, NOENTRY, h);
        ClearedAtOnce(BlocksOf(D1, o), o, key.size, region, h);
        NoVictim(ht.hash, T, K, m, o, key, start, score, c);
      } else {
        ghost var held, gone := region, desc[victim].getInfo;
        region, c := Vacate(victim, region, key.size, h);
        OneVictim(ht.hash, T, K, m, o, key, start, score, inIndex, cause, gone, c);
        RoomByEviction(key, fine, held, region, cause, gone, D, o, m, D1, desc[..], order);
        SameUseThen(T, D, m, T, D1, m, ht.table[..], desc[..], ht.contents, key, 0);
      }
    }

    /** A get whose data are not cached: they will be, if there is room for them. */
    method Miss(origin: nat, key: Key, score: Slot -> real)
      returns (outcome: Outcome, ghost evicted: set<Key>, ghost start: int, ghost c: Choice)
      requires Inv(NOENTRY) && key !in ht.contents && key.size <= memSize && getcount > 0
      requires Rma(origin, key) in win.outstanding
      modifies this`nextFree, this`order, this`penptr, desc, freeEntries, tree, tree.nodes, tree.freeNodes, ht,
               ht.table, pending
      ensures Caches(outcome) || outcome.Exited? ==> (outcome.Exited? <==> old(penptr) == PENDING_STACK)
      ensures !outcome.Exited? ==> Inv(NOENTRY) && penptr == old(penptr) + if Caches(outcome) then 1 else 0
      ensures Caches(outcome) ==> Noted(old(Records()), origin, key)
      ensures 0 <= start < TABLES
      ensures !outcome.Exited? ==>
                MissDone(key, Insertable(ht.hash, old(ht.Held()), key, start), outcome, evicted,
                         old(desc[..]), old(order), old(ht.contents), desc[..], order, ht.contents)
      ensures !outcome.Exited? ==>
                Replaced(ht.hash, old(ht.table[..]), old(ht.Held()), old(ht.contents), old(order),
                         BlocksOf(old(desc[..]), old(order)), BlocksOf(desc[..], order), key, start, score, outcome,
                         evicted, c)
      ensures !outcome.Exited? ==>
                UsedNow(old(ht.table[..]), old(desc[..]), old(ht.contents), ht.table[..], desc[..], ht.contents, key,
                        getcount)
      ensures !outcome.Hit? && !outcome.StillInFlight? && !outcome.NotCached?
      ensures !NoneFits(old(desc[..]), old(order), key.size) ==> Caches(outcome) || outcome.Exited?
    {
      hide Handles, Sorted, TreeInv, NoDup, InFlight, IndexInv, Core, Insertable, NoneFits, Carried, RoomMade, MissDone,
           SameUse, UsedNow, BlocksOf, Cleared, Arranged, Uses, VictimRight;
      ghost var T, D, o, m := ht.table[..], desc[..], order, ht.contents;
      var region, table, cause;
      region, table, cause, evicted, c := MakeRoom(key, score);
      start := table;
      ghost var fine := Insertable(ht.hash, old(ht.Held()), key, start);
      ghost var T2, D2, o2, m2 := ht.table[..], desc[..], order, ht.contents;
      ghost var V, V2 := BlocksOf(D, o), BlocksOf(D2, o2);
      OrderInRange(D2, o2, Stack(), tree.Items(), m2, memSize, region);
      RoomFacts(key, fine, region, cause, evicted, D, o, m, D2, o2, m2);
      if region == NOENTRY || desc[region].size < key.size {
        outcome := if cause == ForIndex then NotCachedHT else NotCachedSpace;
        MissFails(key, fine, outcome, cause, evicted, D, o, m, D2, o2, m2);
        ArrangedBy(V, V2, o2, V2, key, region, c, 0);
        UnusedNow(T, D, m, T2, D2, m2, key, getcount);
        return;
      }
      var ok;
      ghost var n, k;
      ok, n, k := Place(region, key, table, origin);
      if !ok {
        outcome := Exited;
      } else {
        outcome := if cause == NoEviction then Cached else if cause == ForIndex then CachedRHT else CachedRSpace;
        MissCaches(key, fine, outcome, region, cause, evicted, D, o, m, D2, o2, m2, desc[..], order, n);
        ArrangedBy(V, V2, o2, BlocksOf(desc[..], order), key, region, c, k);
        SameUseThen(T, D, m, T2, D2, m2, ht.table[..], desc[..], ht.contents, key, getcount);
      }
    }

    /** The live entry for key, or NOENTRY; the get counts as its latest use. */
    method Find(key: Key) returns (el: int)
      requires Valid()
      modifies this`getcount, ht.table
      ensures Valid() && getcount == old(getcount) + 1 && ht.Held() == old(ht.Held())
      ensures el == if key in ht.contents then ht.contents[key] else NOENTRY
      ensures forall k :: k in ht.contents ==> 0 <= ht.contents[k] < desc.Length && desc[ht.contents[k]].getInfo == k
      ensures UsedNow(old(ht.table[..]), desc[..], ht.contents, ht.table[..], desc[..], ht.contents, key, getcount)
      ensures key !in ht.contents ==> ht.table[..] == old(ht.table[..])
    {
      hide Handles, Sorted, TreeInv, InFlight, IndexInv, Core, AllWait, UsedNow;
      getcount := getcount + 1;
      EntriesInRange(ht.hash, ht.table[..], desc[..], ht.contents);
      ghost var T := ht.table[..];
      el := ht.Lookup(key, getcount);
      LookupUses(ht.hash, T, ht.table[..], desc[..], ht.contents, key, getcount);
    }

    /** Fetches data that are not cached, or still on their way to entry el. */
    method Fetch(origin: nat, key: Key, el: int, score: Slot -> real, ghost T0: seq<Slot>)
      returns (outcome: Outcome, ghost evicted: set<Key>, ghost start: int, ghost c: Choice)
      requires Valid() && win.CanGet(origin, key) && getcount > 0
      requires el == (if key in ht.contents then ht.contents[key] else NOENTRY)
      requires key in ht.contents ==> Waiting(desc[..], ht.contents, key)
      requires UsedNow(T0, desc[..], ht.contents, ht.table[..], desc[..], ht.contents, key, getcount)
      modifies this`nextFree, this`order, this`penptr
      modifies desc, freeEntries, tree, tree.nodes, tree.freeNodes, ht, ht.table, pending, win`outstanding
      ensures !outcome.Hit? && win.outstanding == old(win.outstanding) + [Rma(origin, key)]
      ensures Caches(outcome) || outcome.Exited? ==> (outcome.Exited? <==> old(penptr) == PENDING_STACK)
      ensures outcome.Exited? ==> key !in old(ht.contents) && key.size <= memSize
      ensures !outcome.Exited? ==> Valid() && penptr == old(penptr) + if Caches(outcome) then 1 else 0
      ensures Caches(outcome) ==> Noted(old(Records()), origin, key)
      ensures 0 <= start < TABLES
      ensures !outcome.Exited? ==>
                GetDone(key, Insertable(ht.hash, old(ht.Held()), key, start), outcome, evicted, memSize,
                        old(desc[..]), old(order), old(ht.contents), desc[..], order, ht.contents)
      ensures key !in old(ht.contents) && key.size <= memSize && !NoneFits(old(desc[..]), old(order), key.size) ==>
                Caches(outcome) || outcome.Exited?
      ensures !outcome.Exited? ==>
                BlocksDone(ht.hash, old(ht.table[..]), old(ht.Held()), old(ht.contents), old(order),
                           BlocksOf(old(desc[..]), old(order)), BlocksOf(desc[..], order), key, start, score, memSize,
                           outcome, evicted, c)
      ensures !outcome.Exited? ==>
                UsedNow(T0, old(desc[..]), old(ht.contents), ht.table[..], desc[..], ht.contents, key, getcount)
    {
      hide Handles, Sorted, TreeInv, NoDup, InFlight, IndexInv, Core, NoneFits, Carried, AllWait, MissDone, GetDone,
           UsedNow, BlocksOf, Replaced;
      ghost var T, D, o, m := ht.table[..], desc[..], order, ht.contents;
      evicted, start, c := {}, 0, Choice(NOENTRY, NOENTRY, NOENTRY);
      MoreOutstanding(D, m, Records(), win.outstanding, Rma(origin, key));
      win.Get(origin, key);
      if el != NOENTRY {
        outcome := StillInFlight;
      } else if key.size > memSize {
        outcome := NotCached;
      } else {
        outcome, evicted, start, c := Miss(origin, key, score);
        if !outcome.Exited? {
          UsedTwice(T0, D, m, T, D, m, ht.table[..], desc[..], ht.contents, key, getcount);
        }
      }
      if !outcome.Exited? {
        FetchDone(key, Insertable(ht.hash, old(ht.Held()), key, start), outcome, evicted, memSize, D, o, m, desc[..],
                  order, ht.contents);
      }
    }

    /** The memory is what it was, but for the bytes of entry key, now also at `origin`. */
    ghost predicate HitDelivers(origin: nat, key: Key, D: seq<Entry>, m: map<Key, int>, app: seq<byte>)
      reads win.app, mem
    {
      && key in m && 0 <= m[key] < |D| && D[m[key]].offset + key.size <= mem.Length
      && win.app[..] == Write(app, origin, Bytes(D, m, mem[..], key))
    }

    method CopyOut(origin: nat, key: Key, el: int)
      requires Wired() && Core(desc[..], order, Stack(), tree.Items(), ht.contents, memSize, NOENTRY)
      requires key in ht.contents && el == ht.contents[key] && origin + key.size <= win.app.Length
      modifies win.app
      ensures HitDelivers(origin, key, desc[..], ht.contents, old(win.app[..]))
    {
      hide Core;
      LiveInBuffer(desc[..], order, Stack(), tree.Items(), ht.contents, memSize, key);
      MemCopy(win.app, origin, mem, desc[el].offset, desc[el].getInfo.size);
    }

    /** Reads `key` of the remote window into the application's memory at `origin`. */
    method Get(origin: nat, key: Key, score: Slot -> real)
      returns (outcome: Outcome, ghost evicted: set<Key>, ghost start: int, ghost c: Choice)
      requires Valid() && win.CanGet(origin, key)
      modifies this`nextFree, this`order, this`penptr, this`getcount
      modifies desc, freeEntries, tree, tree.nodes, tree.freeNodes, ht, ht.table, pending, win`outstanding, win.app
      ensures Caches(outcome) || outcome.Exited? ==> (outcome.Exited? <==> old(penptr) == 64)
      ensures outcome.Exited? ==> key !in old(ht.contents) && key.size <= memSize
      ensures !outcome.Exited? ==> Valid() && penptr == old(penptr) + if Caches(outcome) then 1 else 0
      ensures Caches(outcome) ==> Noted(old(Records()), origin, key)
      ensures 0 <= start < TABLES
      ensures !outcome.Exited? ==>
                GetDone(key, Insertable(ht.hash, old(ht.Held()), key, start), outcome, evicted, memSize,
                        old(desc[..]), old(order), old(ht.contents), desc[..], order, ht.contents)
      ensures key !in old(ht.contents) && key.size <= memSize && !NoneFits(old(desc[..]), old(order), key.size) ==>
                Caches(outcome) || outcome.Exited?
      ensures win.outstanding == old(win.outstanding) + if outcome.Hit? then [] else [Rma(origin, key)]
      ensures outcome.Hit? ==> HitDelivers(origin, key, old(desc[..]), old(ht.contents), old(win.app[..]))
      ensures !outcome.Hit? ==> win.app[..] == old(win.app[..])
      ensures getcount == old(getcount) + 1
      ensures !outcome.Exited? ==>
                BlocksDone(ht.hash, old(ht.table[..]), old(ht.Held()), old(ht.contents), old(order),
                           BlocksOf(old(desc[..]), old(order)), BlocksOf(desc[..], order), key, start, score, memSize,
                           outcome, evicted, c)
      ensures !outcome.Exited? ==>
                UsedNow(old(ht.table[..]), old(desc[..]), old(ht.contents), ht.table[..], desc[..], ht.contents, key,
                        getcount)
    {
      hide Handles, Sorted, TreeInv, InFlight, IndexInv, Core, AllWait, MissDone, UsedNow, BlocksOf, Replaced;
      ghost var T := ht.table[..];
      evicted, start, c := {}, 0, Choice(NOENTRY, NOENTRY, NOENTRY);
      var el := Find(key);
      if el != NOENTRY && desc[el].pending < 0 {
        CopyOut(origin, key, el);
        outcome := Hit;
        return;
      }
      outcome, evicted, start, c := Fetch(origin, key, el, score, T);
    }

    /** Makes the pending copies, for the entries that still wait for them. */
    method Drain(ghost outstanding: seq<Rma>)
      requires Wired() && Counters() && TreeOk() && ht.Valid() && win.Valid()
      requires Core(desc[..], order, Stack(), tree.Items(), ht.contents, memSize, NOENTRY)
      requires InFlight(desc[..], ht.contents, Records(), outstanding)
      requires forall g :: g in outstanding ==> Fits(g, win.app.Length)
      modifies this`penptr, desc, mem
      ensures Inv(NOENTRY) && penptr == 0
      ensures Draining(old(desc[..]), desc[..], ht.contents, old(Records()), old(mem[..]), mem[..], win.app[..], -1)
      ensures BlocksOf(desc[..], order) == BlocksOf(old(desc[..]), order)
    {
      hide Handles, Sorted, TreeInv, NoDup, InFlight, IndexInv, RegionInv, PoolInv, FreeIndex, EntryIndex, Draining;
      ghost var D, m, R, mem0, app := desc[..], ht.contents, Records(), mem[..], win.app[..];
      WaitingBounded(D, order, m, memSize, R, outstanding, win.app.Length);
      DrainStarts(D, m, R, mem0, app);
      var curr := penptr - 1;
      while curr >= 0
        invariant -1 <= curr < |R| && Draining(D, desc[..], m, R, mem0, mem[..], app, curr)
        modifies desc, mem
      {
        RecordInRange(D, m, R, outstanding, curr);
        var r := pending[curr];
        assert r == R[curr];
        if desc[r.entry].pending == curr {
          ghost var k := DrainCopies(D, desc[..], order, memSize, m, R, outstanding, mem0, mem[..], app, curr);
          desc[r.entry] := desc[r.entry].(pending := -1);
          MemCopy(mem, r.target, win.app, r.origin, r.size);
        } else {
          DrainSkips(D, desc[..], m, R, outstanding, mem0, mem[..], app, curr);
        }
        curr := curr - 1;
      }
      penptr := curr + 1;
      DrainKeeps(ht.hash, ht.table[..], D, desc[..], order, Stack(), tree.shape, m, memSize, R, outstanding,
                 win.outstanding, mem0, mem[..], app);
    }

    /** Empties the cache on behalf of the application. */
    method Invalidate()
      requires Inv(NOENTRY)
      modifies this`nextFree, this`getcount, this`penptr, this`order
      modifies desc, freeEntries, tree, tree.nodes, tree.freeNodes, ht, ht.table
      ensures Valid() && ht.contents == map[] && penptr == 0 && getcount == 0 && order == [0]
      ensures BlocksOf(desc[..], order) == [Gap(memSize)]
    {
      Reset();
    }

    /** Completes the gets from one rank, and moves what was fetched into the buffer.  In
        transparent mode the cache is then emptied. */
    method Flush(rank: int)
      requires Valid()
      modifies this`nextFree, this`getcount, this`penptr, this`order
      modifies desc, freeEntries, tree, tree.nodes, tree.freeNodes, ht, ht.table, mem, win`outstanding, win.app
      ensures Valid() && penptr == 0
      ensures win.outstanding == OfRank(old(win.outstanding), rank, false)
      ensures win.app[..] == Complete(old(win.app[..]), OfRank(old(win.outstanding), rank, true), win.remote)
      ensures transparent ==> ht.contents == map[]
      ensures !transparent ==> ht.contents == old(ht.contents) && order == old(order) && getcount == old(getcount)
      ensures !transparent ==>
                BlocksOf(desc[..], order) == BlocksOf(old(desc[..]), order) && ht.table[..] == old(ht.table[..])
      ensures transparent ==> BlocksOf(desc[..], order) == [Gap(memSize)] && getcount == 0
      ensures !transparent ==>
                Draining(old(desc[..]), desc[..], ht.contents, old(Records()), old(mem[..]), mem[..], win.app[..], -1)
    {
      hide Handles, Sorted, TreeInv, NoDup, InFlight, IndexInv, Core, Draining;
      win.Flush(rank);
      Drain(old(win.outstanding));
      if transparent {
        Invalidate();
      }
    }

    /** The figures the cache reports about itself: the number of free regions is right, and
        the number of entries is always one too high. */
    method GetStats() returns (freeRegions: int, reported: int)
      requires Valid()
      ensures freeRegions == CountFree(desc[..], order) && reported == |ht.contents| + 1
    {
      hide Handles, Sorted, TreeInv, InFlight, IndexInv, Core;
      Accounted(desc[..], order, Stack(), tree.Items(), ht.contents, memSize);
      freeRegions := tree.CountNodes();
      reported := entries * 2 - nextFree - freeRegions;
    }
  }
}
