/** The buffer of the cache as a plain list of blocks from left to right, and what a get does to
    it: which gap it uses, which entry it gives up, and where the new entry lies. */
module Blocks {
  import opened Descriptors
  import opened Sequences
  import opened Regions
  import opened CacheState

  datatype Block = Taken(key: Key) | Gap(size: nat)

  function Len(b: Block): nat {
    match b
    case Taken(key) => key.size
    case Gap(size) => size
  }

  ghost predicate GapAt(V: seq<Block>, i: int) { 0 <= i < |V| && V[i].Gap? }

  ghost predicate FitsAt(V: seq<Block>, i: int, size: nat) { GapAt(V, i) && Len(V[i]) >= size }

  /** The number of bytes in the blocks V. */
  ghost function Total(V: seq<Block>): nat {
    if V == [] then 0 else Total(V[..|V| - 1]) + Len(V[|V| - 1])
  }

  /** The number of bytes before block i. */
  ghost function StartOf(V: seq<Block>, i: nat): nat
    requires i <= |V|
  {
    Total(V[..i])
  }

  // ---- the regions as blocks ----

  /** The block of region e, where x is a region about to become free. */
  ghost function BlockOf(D: seq<Entry>, e: int, x: int): Block {
    if !(0 <= e < |D|) then Gap(0) else if e == x || D[e].kind == FREE then Gap(D[e].size) else Taken(D[e].getInfo)
  }

  ghost function View(D: seq<Entry>, o: seq<int>, x: int): (V: seq<Block>)
    ensures |V| == |o|
  {
    seq(|o|, k requires 0 <= k < |o| => BlockOf(D, o[k], x))
  }

  /** The blocks of a buffer, as they are whenever a call returns. */
  ghost function BlocksOf(D: seq<Entry>, o: seq<int>): (V: seq<Block>)
    ensures |V| == |o|
  {
    View(D, o, NOENTRY)
  }

  /** Where an entry begins. */
  lemma {:induction false} BlockStarts(D: seq<Entry>, o: seq<int>, M: nat, k: nat)
    requires Tiled(D, o, M, NOENTRY) && k < |o|
    ensures 0 <= o[k] < |D| && D[o[k]].offset == StartOf(BlocksOf(D, o), k)
  {
    if k == 0 {
    } else {
      BlockStarts(D, o, M, k - 1);
      assert BlocksOf(D, o)[..k][..k - 1] == BlocksOf(D, o)[..k - 1];
      assert D[o[k - 1]].offset + LengthBut(D, o[k - 1], NOENTRY) == EndOf(D, o, M, k - 1);
    }
  }

  /** Handles, slots, links and pending copies play no part. */
  lemma BlocksFrame(D: seq<Entry>, D': seq<Entry>, o: seq<int>)
    requires |D'| == |D|
    requires forall e :: 0 <= e < |D| ==>
               D'[e].kind == D[e].kind && D'[e].size == D[e].size && D'[e].getInfo == D[e].getInfo
    ensures BlocksOf(D', o) == BlocksOf(D, o)
  {
  }

  // ---- what calls do to blocks ----

  /** Blocks k and k + 1 become one gap. */
  ghost function Fused(V: seq<Block>, k: nat): seq<Block>
    requires k + 1 < |V|
  {
    Without(V, k + 1)[k := Gap(Len(V[k]) + Len(V[k + 1]))]
  }

  /** Where the gap begins that block i leaves. */
  ghost function LeftEnd(V: seq<Block>, i: nat): nat
    requires i < |V|
  {
    if GapAt(V, i - 1) then i - 1 else i
  }

  /** Block i is given up: with the gaps next to it, it becomes one gap. */
  ghost function Freed(V: seq<Block>, i: nat): seq<Block>
    requires i < |V|
  {
    var left := if GapAt(V, i - 1) then Len(V[i - 1]) else 0;
    var right := if GapAt(V, i + 1) then Len(V[i + 1]) else 0;
    V[..LeftEnd(V, i)] + [Gap(left + Len(V[i]) + right)] + V[if GapAt(V, i + 1) then i + 2 else i + 1..]
  }

  /** Which block h is when block i was given up. */
  ghost function Moved(V: seq<Block>, i: nat, h: nat): nat
    requires i < |V|
  {
    if h < LeftEnd(V, i) then h
    else if h <= i || (h == i + 1 && GapAt(V, h)) then LeftEnd(V, i)
    else h - (i - LeftEnd(V, i)) - (if GapAt(V, i + 1) then 1 else 0)
  }

  /** Gap u is used for key, from its front on; what is left of it stays a gap. */
  ghost function UsedFor(V: seq<Block>, u: nat, key: Key): seq<Block>
    requires FitsAt(V, u, key.size)
  {
    if V[u].size == key.size then V[u := Taken(key)]
    else V[..u] + [Taken(key), Gap(V[u].size - key.size)] + V[u + 1..]
  }

  /** The gap k of the blocks V is used for key. */
  ghost predicate Uses(V: seq<Block>, V': seq<Block>, k: nat, key: Key) {
    FitsAt(V, k, key.size) && V' == UsedFor(V, k, key)
  }

  // ---- the choice of a gap ----

  /** The indices of the gap found first, of the entry given up, and of the gap used in the end;
      each may be NOENTRY. */
  datatype Choice = Choice(held: int, victim: int, used: int)

  /** The tightest gap that fits, or NOENTRY exactly if none does. */
  ghost predicate Tightest(V: seq<Block>, size: nat, h: int) {
    && (h == NOENTRY || FitsAt(V, h, size))
    && forall i :: FitsAt(V, i, size) ==> h != NOENTRY && Len(V[h]) <= Len(V[i])
  }

  /** What is left after the eviction, if there is one. */
  ghost function Remaining(V: seq<Block>, victim: int): seq<Block>
    requires victim < |V|
  {
    if victim < 0 then V else Freed(V, victim)
  }

  /** The gap used is the one found first, grown perhaps by what the victim leaves next to it; if
      none was found, it is what the victim leaves, if that fits. */
  ghost predicate Picked(V: seq<Block>, size: nat, c: Choice) {
    && Tightest(V, size, c.held)
    && (c.victim == NOENTRY || (0 <= c.victim < |V| && V[c.victim].Taken?))
    && if c.victim == NOENTRY then c.held != NOENTRY && c.used == c.held
       else
         var at := Moved(V, c.victim, if c.held != NOENTRY then c.held else c.victim);
         c.used == if c.held != NOENTRY || FitsAt(Freed(V, c.victim), at, size) then at else NOENTRY
  }

  /** The blocks after a get for key that was not cached. */
  ghost predicate Arranged(V: seq<Block>, V': seq<Block>, key: Key, c: Choice) {
    && Picked(V, key.size, c)
    && var V1 := Remaining(V, c.victim);
       if c.used == NOENTRY then V' == V1 else FitsAt(V1, c.used, key.size) && V' == UsedFor(V1, c.used, key)
  }

  // ---- an eviction, on regions ----

  lemma MergedIs(a: seq<Block>, x: Block, y: Block, b: seq<Block>)
    ensures Fused(a + [x, y] + b, |a|) == a + [Gap(Len(x) + Len(y))] + b
  {
    WithoutAt(a + [x, y] + b, |a| + 1);
  }

  /** Block i is given up by joining it first to a gap on its left, and then to one on its right. */
  lemma FreedMerges(V: seq<Block>, i: nat)
    requires i < |V|
    ensures var V1 := V[i := Gap(Len(V[i]))];
            var V2 := if GapAt(V1, i - 1) then Fused(V1, i - 1) else V1;
            var j := LeftEnd(V, i);
            j < |V2| && GapAt(V2, j) && Freed(V, i) == if GapAt(V2, j + 1) then Fused(V2, j) else V2
  {
    hide Fused;
    var (V1, j, x) := (V[i := Gap(Len(V[i]))], LeftEnd(V, i), Gap(Len(V[i])));
    var a, b := V[..j], V[i + 1..];
    if GapAt(V1, i - 1) {
      assert V1 == a + [V[j], x] + b;
      MergedIs(a, V[j], x, b);
    } else {
      assert V1 == a + [x] + b;
    }
    var V2 := if GapAt(V1, i - 1) then Fused(V1, i - 1) else V1;
    var y := V2[j];
    assert V2 == a + [y] + b;
    assert GapAt(V2, j + 1) <==> GapAt(V, i + 1);
    if GapAt(V2, j + 1) {
      assert b == [b[0]] + b[1..] && V2 == a + [y, b[0]] + b[1..];
      MergedIs(a, y, b[0], b[1..]);
    }
  }

  lemma DoomedView(D: seq<Entry>, o: seq<int>, i: nat, v: int)
    requires NoDup(o) && i < |o| && o[i] == v && 0 <= v < |D| && D[v].kind == BUSY
    ensures View(D[v := D[v].(size := D[v].getInfo.size)], o, v) ==
            BlocksOf(D, o)[i := Gap(Len(BlocksOf(D, o)[i]))]
  {
  }

  /** Regions o[k] and o[k + 1] were joined: both are gaps, x being one of them. */
  lemma JoinedView(D: seq<Entry>, D': seq<Entry>, o: seq<int>, k: nat, x: int)
    requires NoDup(o) && k + 1 < |o| && SameKinds(D, D') && 0 <= o[k] < |D| && 0 <= o[k + 1] < |D|
    requires (x == o[k] && Free(D, o[k + 1])) || (x == o[k + 1] && Free(D, o[k]))
    requires forall e :: 0 <= e < |D| ==> D'[e].size == D[e].size + if e == o[k] then D[o[k + 1]].size else 0
    ensures View(D', Without(o, k + 1), o[k]) == Fused(View(D, o, x), k)
  {
    WithoutAt(o, k + 1);
    WithoutAt(View(D, o, x), k + 1);
  }

  lemma SettledView(D: seq<Entry>, D': seq<Entry>, o: seq<int>, x: int)
    requires |D'| == |D| && 0 <= x < |D| && x != NOENTRY
    requires forall e :: 0 <= e < |D| ==>
               && D'[e].size == D[e].size && D'[e].getInfo == D[e].getInfo
               && D'[e].kind == if e == x then FREE else D[e].kind
    ensures BlocksOf(D', o) == View(D, o, x)
  {
  }

  /** Which neighbours of region k are gaps. */
  lemma GapsBeside(D: seq<Entry>, o: seq<int>, k: nat, x: int)
    requires Linked(D, o) && k < |o| && o[k] == x
    ensures GapAt(View(D, o, x), k - 1) <==> Free(D, D[x].mprev)
    ensures GapAt(View(D, o, x), k + 1) <==> Free(D, D[x].mnext)
  {
    assert D[o[k]].mprev == LeftOf(o, k) && D[o[k]].mnext == RightOf(o, k);
  }

  /** Block i, and region o[i], was joined to the gap on its left, if there is one, and is number j
      now; `gone` says that this was the region held. */
  ghost predicate LeftJoined(V: seq<Block>, o: seq<int>, V': seq<Block>, o': seq<int>, i: nat, j: nat, held: int,
                             gone: bool)
  {
    && i < |V| == |o|
    && if GapAt(V, i - 1)
       then j == i - 1 && V' == Fused(V, i - 1) && o' == Without(o, i) && (gone <==> o[i - 1] == held)
       else j == i && V' == V && o' == o && !gone
  }

  /** Block j, and region o[j], was joined to the gap on its right, if there is one. */
  ghost predicate RightJoined(V: seq<Block>, o: seq<int>, V': seq<Block>, o': seq<int>, j: nat, held: int, gone: bool,
                              gone': bool)
  {
    && j < |V| == |o|
    && if GapAt(V, j + 1)
       then V' == Fused(V, j) && o' == Without(o, j + 1) && (gone' <==> gone || o[j + 1] == held)
       else V' == V && o' == o && gone' == gone
  }

  ghost predicate RegionAt(o: seq<int>, at: int, region: int) { 0 <= at < |o| && o[at] == region }

  /** Region i was given up, and `region` is to be used from now on. */
  ghost predicate GivenUp(V: seq<Block>, o: seq<int>, V': seq<Block>, o': seq<int>, i: nat, held: int, size: nat,
                          region: int)
  {
    && i < |V| == |o| && V' == Freed(V, i) && |V'| == |o'|
    && if held != NOENTRY then forall h :: RegionAt(o, h, held) ==> RegionAt(o', Moved(V, i, h), region)
       else if FitsAt(V', Moved(V, i, i), size) then RegionAt(o', Moved(V, i, i), region)
       else region == NOENTRY
  }

  /** Where regions are after both joins. */
  lemma JoinedOrder(V: seq<Block>, o: seq<int>, V2: seq<Block>, o2: seq<int>, V3: seq<Block>, o3: seq<int>, i: nat,
                    j: nat, held: int, gone: bool, gone': bool, h: nat)
    requires i < |V| == |o| && NoDup(o) && LeftJoined(V[i := Gap(Len(V[i]))], o, V2, o2, i, j, held, gone)
    requires RightJoined(V2, o2, V3, o3, j, held, gone, gone') && h < |o| && o[h] == held && h != i
    ensures gone' ==> RegionAt(o3, Moved(V, i, h), o3[j])
    ensures !gone' ==> RegionAt(o3, Moved(V, i, h), held)
  {
  }

  lemma MovedSelf(V: seq<Block>, i: nat)
    requires i < |V|
    ensures Moved(V, i, i) == LeftEnd(V, i)
  {
  }

  /** Both joins, and the choice of the region to use, on blocks. */
  lemma GivesUp(V: seq<Block>, o: seq<int>, V2: seq<Block>, o2: seq<int>, V3: seq<Block>, o3: seq<int>, i: nat,
                j: nat, held: int, gone: bool, gone': bool, size: nat, region: int)
    requires i < |V| == |o| && NoDup(o) && (forall k :: 0 <= k < |o| ==> o[k] >= 0) && o[i] != held
    requires LeftJoined(V[i := Gap(Len(V[i]))], o, V2, o2, i, j, held, gone)
    requires RightJoined(V2, o2, V3, o3, j, held, gone, gone') && |V2| == |o2| && |V3| == |o3|
    requires j < |o3| && region == if gone' || (held == NOENTRY && FitsAt(V3, j, size)) then o3[j] else held
    ensures GivenUp(V, o, V3, o3, i, held, size, region)
  {
    hide Fused, Without, Moved, Freed;
    FreedMerges(V, i);
    assert Moved(V, i, i) == j by { MovedSelf(V, i); }
    if i < |o| { WithoutAt(o, i); }
    forall h | RegionAt(o, h, held) ensures RegionAt(o3, Moved(V, i, h), region) {
      JoinedOrder(V, o, V2, o2, V3, o3, i, j, held, gone, gone', h);
    }
  }

  /** The same, of a victim's region. */
  lemma EvictedBlocks(D: seq<Entry>, D0: seq<Entry>, o: seq<int>, V2: seq<Block>, o2: seq<int>, D3: seq<Entry>,
                      o3: seq<int>, v: int, i: nat, j: nat, x: int, held: int, gone: bool, gone': bool, size: nat,
                      region: int)
    requires Linked(D, o) && RegionAt(o, i, v) && 0 <= v < |D| && D[v].kind == BUSY && held != v && 0 <= x < |D3|
    requires D0 == D[v := D[v].(size := D[v].getInfo.size)] && |V2| == |o2| && RegionAt(o3, j, x)
    requires LeftJoined(View(D0, o, v), o, V2, o2, i, j, held, gone)
    requires RightJoined(V2, o2, View(D3, o3, x), o3, j, held, gone, gone')
    requires region == if gone' || (held == NOENTRY && D3[x].size >= size) then x else held
    ensures GivenUp(BlocksOf(D, o), o, View(D3, o3, x), o3, i, held, size, region)
  {
    hide LeftJoined, RightJoined, GivenUp;
    DoomedView(D, o, i, v);
    GivesUp(BlocksOf(D, o), o, V2, o2, View(D3, o3, x), o3, i, j, held, gone, gone', size, region);
  }

  /** A gap that fits still does when a block is given up, perhaps as part of a larger one. */
  lemma HeldFits(V: seq<Block>, i: nat, h: nat, size: nat)
    requires i < |V| && V[i].Taken? && h < |V| && FitsAt(V, h, size)
    ensures FitsAt(Freed(V, i), Moved(V, i, h), size)
  {
  }

  /** The choice c was made among the blocks V, and V' is what is left; `region` of the list o' is
      the one to use. */
  ghost predicate Cleared(V: seq<Block>, V': seq<Block>, o': seq<int>, size: nat, region: int, c: Choice) {
    && Picked(V, size, c) && V' == Remaining(V, c.victim) && (region == NOENTRY <==> c.used == NOENTRY)
    && (region != NOENTRY ==> RegionAt(o', c.used, region) && FitsAt(V', c.used, size))
  }

  lemma ClearedAtOnce(V: seq<Block>, o: seq<int>, size: nat, region: int, h: int)
    requires Tightest(V, size, h) && h != NOENTRY && RegionAt(o, h, region) && region != NOENTRY
    ensures Cleared(V, V, o, size, region, Choice(h, NOENTRY, h))
  {
  }

  lemma ClearedByEviction(V: seq<Block>, o: seq<int>, V': seq<Block>, o': seq<int>, i: nat, h: int, held: int,
                          size: nat, region: int)
    returns (c: Choice)
    requires GivenUp(V, o, V', o', i, held, size, region) && V[i].Taken? && Tightest(V, size, h)
    requires (h == NOENTRY <==> held == NOENTRY) && (held != NOENTRY ==> RegionAt(o, h, held))
    requires forall k :: 0 <= k < |o'| ==> o'[k] >= 0
    ensures c.held == h && c.victim == i && Cleared(V, V', o', size, region, c)
  {
    hide Freed, Moved;
    var at := Moved(V, i, if h != NOENTRY then h else i);
    c := Choice(h, i, if h != NOENTRY || FitsAt(V', at, size) then at else NOENTRY);
    if h != NOENTRY {
      HeldFits(V, i, h, size);
    }
  }

  /** What is cleared is used, or, if nothing fits, left as it is. */
  lemma ArrangedBy(V: seq<Block>, V1: seq<Block>, o1: seq<int>, V2: seq<Block>, key: Key, region: int, c: Choice,
                   k: nat)
    requires Cleared(V, V1, o1, key.size, region, c) && NoDup(o1)
    ensures region == NOENTRY ==> Arranged(V, V1, key, c) && c.used == NOENTRY
    ensures region != NOENTRY && RegionAt(o1, k, region) && Uses(V1, V2, k, key) ==>
              Arranged(V, V2, key, c) && c.used != NOENTRY
  {
    hide Picked, Remaining, UsedFor, FitsAt;
    if region != NOENTRY && RegionAt(o1, k, region) && Uses(V1, V2, k, key) {
      assert k == c.used;
    }
  }

  // ---- what that means ----

  lemma {:induction false} TotalOf(a: seq<Block>, b: seq<Block>)
    ensures Total(a + b) == Total(a) + Total(b)
  {
    if b == [] {
      assert a + b == a;
    } else {
      assert (a + b)[..|a + b| - 1] == a + b[..|b| - 1];
      TotalOf(a, b[..|b| - 1]);
    }
  }

  lemma TotalOfOne(b: Block)
    ensures Total([b]) == Len(b)
  {
    assert [b][..0] == [];
  }

  lemma TotalOfThree(a: seq<Block>, b: seq<Block>, c: seq<Block>)
    ensures Total(a + b + c) == Total(a) + Total(b) + Total(c)
  {
    TotalOf(a + b, c);
    TotalOf(a, b);
  }

  /** The new entry begins where the gap began; nothing is lost; one block more is there exactly if
      the gap was larger. */
  lemma UsedForAt(V: seq<Block>, u: nat, key: Key)
    requires FitsAt(V, u, key.size)
    ensures var V' := UsedFor(V, u, key);
            && u < |V'| && V'[u] == Taken(key) && StartOf(V', u) == StartOf(V, u) && Total(V') == Total(V)
            && (|V'| == |V| <==> V[u].size == key.size)
  {
    var (a, b, V') := (V[..u], V[u + 1..], UsedFor(V, u, key));
    assert V == a + [V[u]] + b && V'[..u] == a;
    TotalOfThree(a, [V[u]], b);
    TotalOfOne(V[u]);
    TotalOfOne(Taken(key));
    if V[u].size == key.size {
      assert V' == a + [Taken(key)] + b;
      TotalOfThree(a, [Taken(key)], b);
    } else {
      var rest := Gap(V[u].size - key.size);
      TotalOfOne(rest);
      TotalOf([Taken(key)], [rest]);
      assert [Taken(key)] + [rest] == [Taken(key), rest];
      TotalOfThree(a, [Taken(key), rest], b);
    }
  }

  /** Where the gap ends that block i leaves. */
  ghost function RightEnd(V: seq<Block>, i: nat): nat
    requires i < |V|
  {
    if GapAt(V, i + 1) then i + 2 else i + 1
  }

  lemma FreedParts(V: seq<Block>, i: nat)
    requires i < |V|
    ensures var (j, k) := (LeftEnd(V, i), RightEnd(V, i));
            && j <= i < k <= |V|
            && Freed(V, i) == V[..j] + [Gap(Total(V[j..k]))] + V[k..]
  {
    var (j, k) := (LeftEnd(V, i), RightEnd(V, i));
    var left, right := V[j..i], V[i + 1..k];
    assert V[j..k] == left + [V[i]] + right;
    TotalOfThree(left, [V[i]], right);
    TotalOfOne(V[i]);
    if j < i {
      assert left == [V[j]];
      TotalOfOne(V[j]);
    }
    if i + 1 < k {
      assert right == [V[i + 1]];
      TotalOfOne(V[i + 1]);
    }
  }

  /** A part of the blocks V lies between two of its starts. */
  lemma StartAfter(V: seq<Block>, a: nat, b: nat)
    requires a <= b <= |V|
    ensures StartOf(V, b) == StartOf(V, a) + Total(V[a..b])
  {
    assert V[..b] == V[..a] + V[a..b];
    TotalOf(V[..a], V[a..b]);
  }

  lemma StartAfterFirst(a: seq<Block>, b: seq<Block>)
    ensures StartOf(a + b, |a|) == Total(a)
  {
    assert (a + b)[..|a|] == a;
  }

  /** The blocks w, with a before and b after them, become one gap. */
  lemma OneGap(a: seq<Block>, w: seq<Block>, b: seq<Block>)
    ensures Total(a + [Gap(Total(w))] + b) == Total(a + w + b)
    ensures StartOf(a + [Gap(Total(w))] + b, |a|) == Total(a)
    ensures StartOf(a + w + b, |a|) == Total(a) && StartOf(a + w + b, |a| + |w|) == Total(a) + Total(w)
  {
    hide Total, StartOf;
    var x := Gap(Total(w));
    TotalOfThree(a, w, b);
    TotalOfThree(a, [x], b);
    TotalOfOne(x);
    TotalOf(a, w);
    StartAfterFirst(a + w, b);
    assert a + w + b == a + (w + b) && a + [x] + b == a + ([x] + b);
    StartAfterFirst(a, w + b);
    StartAfterFirst(a, [x] + b);
  }

  /** The gap that block i leaves reaches from where the gap on its left began, or block i itself, to
      where the gap on its right ended, or block i itself; nothing is lost. */
  lemma FreedAt(V: seq<Block>, i: nat)
    requires i < |V|
    ensures var (V', j, k) := (Freed(V, i), LeftEnd(V, i), RightEnd(V, i));
            && j <= i < k <= |V| && j < |V'| && V'[j].Gap? && StartOf(V', j) == StartOf(V, j)
            && StartOf(V', j) + V'[j].size == StartOf(V, k) && Total(V') == Total(V)
  {
    hide Freed, StartOf, Total, LeftEnd, RightEnd;
    FreedParts(V, i);
    var (j, k) := (LeftEnd(V, i), RightEnd(V, i));
    assert V == V[..j] + V[j..k] + V[k..];
    OneGap(V[..j], V[j..k], V[k..]);
  }

  lemma StartNext(V: seq<Block>, a: nat)
    requires a < |V|
    ensures StartOf(V, a + 1) == StartOf(V, a) + Len(V[a])
  {
    assert V[..a + 1][..a] == V[..a];
  }

  lemma MovedTo(V: seq<Block>, i: nat, h: nat)
    requires i < |V| && h < |V|
    ensures var (j, k, g) := (LeftEnd(V, i), RightEnd(V, i), Moved(V, i, h));
            g == if h < j then h else if h < k then j else h - k + j + 1
  {
  }

  /** Wherever block h is afterwards, that block covers it. */
  lemma MovedCovers(V: seq<Block>, i: nat, h: nat)
    requires i < |V| && h < |V|
    ensures var (V', g) := (Freed(V, i), Moved(V, i, h));
            && g < |V'| && StartOf(V', g) <= StartOf(V, h)
            && StartOf(V, h) + Len(V[h]) <= StartOf(V', g) + Len(V'[g])
  {
    hide Freed, Total, LeftEnd, RightEnd, Moved;
    FreedParts(V, i);
    FreedAt(V, i);
    MovedTo(V, i, h);
    var (V', j, k, g) := (Freed(V, i), LeftEnd(V, i), RightEnd(V, i), Moved(V, i, h));
    if h < j {
      assert V'[..h] == V[..h];
    } else if h < k {
      StartAfter(V, j, h);
      StartNext(V, h);
      StartAfter(V, h + 1, k);
    } else {
      assert V'[j + 1..g] == V[k..h] && V'[g] == V[h];
      StartAfter(V, k, h);
      StartAfter(V', j + 1, g);
      StartNext(V', j);
    }
  }

  ghost predicate NoneEmpty(V: seq<Block>) { forall i :: 0 <= i < |V| ==> Len(V[i]) > 0 }

  lemma FreedNoneEmpty(V: seq<Block>, i: nat)
    requires i < |V| && NoneEmpty(V)
    ensures NoneEmpty(Freed(V, i))
  {
  }

  lemma UsedForNoneEmpty(V: seq<Block>, u: nat, key: Key)
    requires FitsAt(V, u, key.size) && NoneEmpty(V) && key.size > 0
    ensures NoneEmpty(UsedFor(V, u, key))
  {
  }

  /** Where no key is empty, no region is. */
  lemma NoRegionWasted(V: seq<Block>, V': seq<Block>, key: Key, c: Choice)
    requires Arranged(V, V', key, c) && NoneEmpty(V) && key.size > 0
    ensures NoneEmpty(V')
  {
    hide NoneEmpty, Freed, UsedFor;
    if c.victim != NOENTRY { FreedNoneEmpty(V, c.victim); }
    if c.used != NOENTRY { UsedForNoneEmpty(Remaining(V, c.victim), c.used, key); }
  }

  /** The entry for key in the buffer. */
  lemma EntryAt(D: seq<Entry>, o: seq<int>, m: map<Key, int>, M: nat, k: nat, key: Key)
    requires RegionInv(D, o, M) && EntryIndex(D, o, m) && k < |o| && BlocksOf(D, o)[k] == Taken(key)
    ensures key in m && m[key] == o[k] && 0 <= o[k] < |D| && D[o[k]].offset == StartOf(BlocksOf(D, o), k)
  {
    BlockStarts(D, o, M, k);
  }

  lemma TightestMeans(D: seq<Entry>, o: seq<int>, M: nat, size: nat, h: int)
    requires RegionInv(D, o, M) && Tightest(BlocksOf(D, o), size, h) && h != NOENTRY
    ensures 0 <= h < |o| && Free(D, o[h]) && D[o[h]].size >= size && Len(BlocksOf(D, o)[h]) == D[o[h]].size
    ensures forall e :: e in o && Free(D, e) && D[e].size >= size ==> D[o[h]].size <= D[e].size
  {
    forall e | e in o && Free(D, e) && D[e].size >= size ensures D[o[h]].size <= D[e].size {
      var i :| 0 <= i < |o| && o[i] == e;
      assert FitsAt(BlocksOf(D, o), i, size);
    }
  }

  /** Where a new entry begins. */
  lemma NewEntryStarts(D': seq<Entry>, o': seq<int>, m': map<Key, int>, M: nat, V: seq<Block>, key: Key, c: Choice)
    requires RegionInv(D', o', M) && EntryIndex(D', o', m') && Arranged(V, BlocksOf(D', o'), key, c)
    requires c.used != NOENTRY
    ensures 0 <= c.used < |o'| && FitsAt(Remaining(V, c.victim), c.used, key.size)
    ensures key in m' && m'[key] == o'[c.used] && 0 <= m'[key] < |D'|
    ensures D'[m'[key]].offset == StartOf(Remaining(V, c.victim), c.used)
  {
    hide Remaining, RegionInv, UsedFor, StartOf;
    UsedForAt(Remaining(V, c.victim), c.used, key);
    EntryAt(D', o', m', M, c.used, key);
  }

  /** A get that evicts nothing uses a free region that fits, and none that fits is smaller; the new
      entry begins where that region began, and there is one region more exactly if it was larger. */
  lemma BestFitUsed(D: seq<Entry>, o: seq<int>, D': seq<Entry>, o': seq<int>, m': map<Key, int>, M: nat, key: Key,
                    c: Choice)
    requires RegionInv(D, o, M) && RegionInv(D', o', M) && EntryIndex(D', o', m') && c.victim == NOENTRY
    requires Arranged(BlocksOf(D, o), BlocksOf(D', o'), key, c)
    ensures 0 <= c.used < |o| && Free(D, o[c.used]) && D[o[c.used]].size >= key.size
    ensures forall e :: e in o && Free(D, e) && D[e].size >= key.size ==> D[o[c.used]].size <= D[e].size
    ensures key in m' && 0 <= m'[key] < |D'| && D'[m'[key]].offset == D[o[c.used]].offset
    ensures |o'| == |o| <==> D[o[c.used]].size == key.size
  {
    var V := BlocksOf(D, o);
    NewEntryStarts(D', o', m', M, V, key, c);
    UsedForAt(V, c.used, key);
    BlockStarts(D, o, M, c.used);
    TightestMeans(D, o, M, key.size, c.used);
  }

  /** If a region was chosen before an eviction, the new entry begins in it, or in front of it in the
      larger one that it has become part of. */
  lemma HeldRegionUsed(D: seq<Entry>, o: seq<int>, D': seq<Entry>, o': seq<int>, m': map<Key, int>, M: nat, key: Key,
                       c: Choice)
    requires RegionInv(D, o, M) && RegionInv(D', o', M) && EntryIndex(D', o', m')
    requires c.victim != NOENTRY && c.held != NOENTRY && Arranged(BlocksOf(D, o), BlocksOf(D', o'), key, c)
    ensures 0 <= c.held < |o| && Free(D, o[c.held]) && D[o[c.held]].size >= key.size
    ensures forall e :: e in o && Free(D, e) && D[e].size >= key.size ==> D[o[c.held]].size <= D[e].size
    ensures c.used != NOENTRY && 0 <= c.victim < |o| && key in m' && 0 <= m'[key] < |D'|
    ensures var (V1, begin) := (Freed(BlocksOf(D, o), c.victim), D'[m'[key]].offset);
            && FitsAt(V1, c.used, key.size) && begin <= D[o[c.held]].offset
            && D[o[c.held]].offset + D[o[c.held]].size <= begin + Len(V1[c.used])
  {
    hide Freed, Moved, StartOf, UsedFor;
    var V := BlocksOf(D, o);
    HeldFits(V, c.victim, c.held, key.size);
    NewEntryStarts(D', o', m', M, V, key, c);
    MovedCovers(V, c.victim, c.held);
    BlockStarts(D, o, M, c.held);
    TightestMeans(D, o, M, key.size, c.held);
  }
}
