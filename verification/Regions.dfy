/** The regions that tile the cache buffer: a doubly linked list of descriptors. */
module Regions {
  import opened Descriptors
  import opened Sequences

  ghost function LeftOf(o: seq<int>, k: int): int
    requires 0 <= k < |o|
  {
    if k == 0 then NOENTRY else o[k - 1]
  }

  ghost function RightOf(o: seq<int>, k: int): int
    requires 0 <= k < |o|
  {
    if k == |o| - 1 then NOENTRY else o[k + 1]
  }

  /** o lists the descriptors of the regions from left to right, as linked by mprev and
      mnext. */
  ghost predicate Linked(D: seq<Entry>, o: seq<int>) {
    && |o| > 0 && NoDup(o)
    && (forall k :: 0 <= k < |o| ==> 0 <= o[k] < |D|)
    && (forall k {:trigger LeftOf(o, k)} {:trigger RightOf(o, k)} :: 0 <= k < |o| ==>
          D[o[k]].mprev == LeftOf(o, k) && D[o[k]].mnext == RightOf(o, k))
  }

  /** The length of region e, where x is a region about to become free. */
  ghost function LengthBut(D: seq<Entry>, e: int, x: int): nat
    requires 0 <= e < |D|
  {
    if e == x then D[e].size else Length(D[e])
  }

  /** Where the region after position k begins, in a buffer of M bytes. */
  ghost function EndOf(D: seq<Entry>, o: seq<int>, M: nat, k: int): nat
    requires 0 <= k < |o| && forall k :: 0 <= k < |o| ==> 0 <= o[k] < |D|
  {
    if k + 1 < |o| then D[o[k + 1]].offset else M
  }

  /** The regions are contiguous and cover [0, M). */
  ghost predicate Tiled(D: seq<Entry>, o: seq<int>, M: nat, x: int) {
    && |o| > 0 && (forall k :: 0 <= k < |o| ==> 0 <= o[k] < |D|)
    && D[o[0]].offset == 0
    && forall k {:trigger EndOf(D, o, M, k)} :: 0 <= k < |o| ==>
         D[o[k]].offset + LengthBut(D, o[k], x) == EndOf(D, o, M, k)
  }

  ghost predicate Free(D: seq<Entry>, e: int) {
    0 <= e < |D| && D[e].kind == FREE
  }

  /** The region at position k and its left neighbour are not both free, not counting x. */
  ghost predicate Separated(D: seq<Entry>, o: seq<int>, k: int, x: int)
    requires 0 < k < |o|
  {
    o[k - 1] != x && o[k] != x ==> !(Free(D, o[k - 1]) && Free(D, o[k]))
  }

  /** No two neighbours are free, not counting x. */
  ghost predicate Alternates(D: seq<Entry>, o: seq<int>, x: int) {
    forall k :: 0 < k < |o| ==> Separated(D, o, k, x)
  }

  /** The regions of a buffer of M bytes, as they are whenever a call returns. */
  ghost predicate RegionInv(D: seq<Entry>, o: seq<int>, M: nat) {
    Linked(D, o) && Tiled(D, o, M, NOENTRY) && Alternates(D, o, NOENTRY)
  }

  // ---- framing ----

  lemma LinkedFrame(D: seq<Entry>, D': seq<Entry>, o: seq<int>)
    requires Linked(D, o) && |D'| == |D|
    requires forall e :: 0 <= e < |D| && e in o ==> D'[e].mprev == D[e].mprev && D'[e].mnext == D[e].mnext
    ensures Linked(D', o)
  {
  }

  lemma TiledFrame(D: seq<Entry>, D': seq<Entry>, o: seq<int>, M: nat, x: int, x': int)
    requires Tiled(D, o, M, x) && |D'| == |D|
    requires forall e :: 0 <= e < |D| && e in o ==>
               D'[e].offset == D[e].offset && LengthBut(D', e, x') == LengthBut(D, e, x)
    ensures Tiled(D', o, M, x')
  {
    forall k | 0 <= k < |o| ensures D'[o[k]].offset + LengthBut(D', o[k], x') == EndOf(D', o, M, k) {
      assert D[o[k]].offset + LengthBut(D, o[k], x) == EndOf(D, o, M, k);
    }
  }

  lemma AlternatesFrame(D: seq<Entry>, D': seq<Entry>, o: seq<int>, x: int, x': int)
    requires Alternates(D, o, x) && |D'| == |D|
    requires forall e :: 0 <= e < |D| && e in o ==> D'[e].kind == D[e].kind
    requires (x == NOENTRY && NOENTRY !in o) || x == x'
    ensures Alternates(D', o, x')
  {
    forall k | 0 < k < |o| ensures Separated(D', o, k, x') {
      assert Separated(D, o, k, x);
    }
  }

  // ---- what tiling means ----

  lemma {:induction false} RegionsInOrder(D: seq<Entry>, o: seq<int>, M: nat, i: int, j: int)
    requires Tiled(D, o, M, NOENTRY) && 0 <= i < j < |o|
    ensures D[o[i]].offset + Length(D[o[i]]) <= D[o[j]].offset
    decreases j - i
  {
    assert D[o[i]].offset + LengthBut(D, o[i], NOENTRY) == EndOf(D, o, M, i);
    if i + 1 == j {
    } else {
      RegionsInOrder(D, o, M, i + 1, j);
    }
  }

  lemma {:induction false} RegionInBuffer(D: seq<Entry>, o: seq<int>, M: nat, i: int)
    requires Tiled(D, o, M, NOENTRY) && 0 <= i < |o|
    ensures D[o[i]].offset + Length(D[o[i]]) <= M
  {
    var last := |o| - 1;
    if i < last { RegionsInOrder(D, o, M, i, last); }
    assert D[o[last]].offset + LengthBut(D, o[last], NOENTRY) == EndOf(D, o, M, last);
  }

  ghost predicate Inside(D: seq<Entry>, e: int, a: int) {
    0 <= e < |D| && D[e].offset <= a < D[e].offset + Length(D[e])
  }

  /** Every byte of the buffer lies in exactly one region. */
  lemma EachByteOnce(D: seq<Entry>, o: seq<int>, M: nat, a: int)
    requires Tiled(D, o, M, NOENTRY) && 0 <= a < M
    ensures exists k :: 0 <= k < |o| && Inside(D, o[k], a)
    ensures forall i, j :: 0 <= i < j < |o| ==> !(Inside(D, o[i], a) && Inside(D, o[j], a))
  {
    var k := 0;
    while !Inside(D, o[k], a)
      invariant 0 <= k < |o| && D[o[k]].offset <= a
      decreases |o| - k
    {
      assert D[o[k]].offset + LengthBut(D, o[k], NOENTRY) == EndOf(D, o, M, k);
      k := k + 1;
    }
    forall i, j | 0 <= i < j < |o| ensures !(Inside(D, o[i], a) && Inside(D, o[j], a)) {
      RegionsInOrder(D, o, M, i, j);
    }
  }

  ghost function TotalLength(D: seq<Entry>, o: seq<int>): nat
    requires forall k :: 0 <= k < |o| ==> 0 <= o[k] < |D|
  {
    if o == [] then 0 else TotalLength(D, o[..|o| - 1]) + Length(D[o[|o| - 1]])
  }

  lemma {:induction false} TotalUpTo(D: seq<Entry>, o: seq<int>, M: nat, n: nat)
    requires Tiled(D, o, M, NOENTRY) && n <= |o|
    ensures TotalLength(D, o[..n]) == if n < |o| then D[o[n]].offset else M
  {
    if n == 0 {
    } else {
      TotalUpTo(D, o, M, n - 1);
      assert o[..n][..n - 1] == o[..n - 1];
      assert D[o[n - 1]].offset + LengthBut(D, o[n - 1], NOENTRY) == EndOf(D, o, M, n - 1);
    }
  }

  /** The lengths of the regions add up to the size of the buffer. */
  lemma LengthsAddUp(D: seq<Entry>, o: seq<int>, M: nat)
    requires Tiled(D, o, M, NOENTRY)
    ensures TotalLength(D, o) == M
  {
    TotalUpTo(D, o, M, |o|);
    assert o[..|o|] == o;
  }

  // ---- counting ----

  ghost function CountFree(D: seq<Entry>, o: seq<int>): nat {
    if o == [] then 0 else CountFree(D, o[..|o| - 1]) + if Free(D, o[|o| - 1]) then 1 else 0
  }

  /** Free regions are separated by busy ones, so there is at most one more of them. */
  lemma {:induction false} AlternationBound(D: seq<Entry>, o: seq<int>)
    requires Alternates(D, o, NOENTRY) && forall k :: 0 <= k < |o| ==> 0 <= o[k]
    ensures 2 * CountFree(D, o) <= |o| + if o != [] && Free(D, o[|o| - 1]) then 1 else 0
  {
    if |o| == 0 {
    } else if |o| == 1 {
      assert CountFree(D, o[..0]) == 0;
    } else {
      var r := o[..|o| - 1];
      assert r[|r| - 1] == o[|o| - 2];
      forall k | 0 < k < |r| ensures Separated(D, r, k, NOENTRY) {
        assert Separated(D, o, k, NOENTRY);
      }
      AlternationBound(D, r);
      assert Separated(D, o, |o| - 1, NOENTRY);
    }
  }

  lemma {:induction false} CountIsSize(D: seq<Entry>, o: seq<int>)
    requires NoDup(o)
    ensures CountFree(D, o) == |(set e | e in o && Free(D, e))|
    ensures |o| - CountFree(D, o) == |(set e | e in o && !Free(D, e))|
  {
    if o == [] {
      assert (set e | e in o && Free(D, e)) == {} && (set e | e in o && !Free(D, e)) == {};
    } else {
      var (r, x) := (o[..|o| - 1], o[|o| - 1]);
      CountIsSize(D, r);
      assert forall e :: e in o <==> e in r || e == x;
      if Free(D, x) {
        assert (set e | e in o && Free(D, e)) == (set e | e in r && Free(D, e)) + {x};
        assert (set e | e in o && !Free(D, e)) == (set e | e in r && !Free(D, e));
      } else {
        assert (set e | e in o && !Free(D, e)) == (set e | e in r && !Free(D, e)) + {x};
        assert (set e | e in o && Free(D, e)) == (set e | e in r && Free(D, e));
      }
    }
  }

  // ---- joining two neighbours ----

  /** b taken out of the list, from its left neighbour a's point of view. */
  ghost function Bypassed(D: seq<Entry>, a: int, b: int): (D': seq<Entry>)
    requires 0 <= a < |D| && 0 <= b < |D|
    ensures |D'| == |D|
  {
    var c := D[b].mnext;
    var D1 := D[a := D[a].(mnext := c)];
    if 0 <= c < |D| then D1[c := D1[c].(mprev := a)] else D1
  }

  lemma BypassLinked(D: seq<Entry>, o: seq<int>, k: nat)
    requires Linked(D, o) && k + 1 < |o|
    ensures Linked(Bypassed(D, o[k], o[k + 1]), Without(o, k + 1))
  {
    hide Without;
    WithoutAt(o, k + 1);
    var u := Without(o, k + 1);
    var D' := Bypassed(D, o[k], o[k + 1]);
    assert D[o[k + 1]].mnext == RightOf(o, k + 1);
    forall j | 0 <= j < |u|
      ensures 0 <= u[j] < |D'| && D'[u[j]].mprev == LeftOf(u, j) && D'[u[j]].mnext == RightOf(u, j)
    {
      var i := if j < k + 1 then j else j + 1;
      assert u[j] == o[i];
      assert D[o[i]].mprev == LeftOf(o, i) && D[o[i]].mnext == RightOf(o, i);
    }
  }

  /** The same for tiling: a now has the length of both. */
  lemma JoinedTiled(D: seq<Entry>, D': seq<Entry>, o: seq<int>, M: nat, k: nat, x: int)
    requires Linked(D, o) && Tiled(D, o, M, x) && k + 1 < |o| && (x == o[k] || x == o[k + 1])
    requires LengthBut(D, o[k], x) == D[o[k]].size && LengthBut(D, o[k + 1], x) == D[o[k + 1]].size
    requires |D'| == |D| && D'[o[k]].size == D[o[k]].size + D[o[k + 1]].size
    requires forall e :: 0 <= e < |D| ==>
               D'[e].offset == D[e].offset && D'[e].kind == D[e].kind && D'[e].getInfo == D[e].getInfo
    requires forall e :: 0 <= e < |D| && e != o[k] ==> D'[e].size == D[e].size
    ensures Tiled(D', Without(o, k + 1), M, o[k])
  {
    hide Without;
    WithoutAt(o, k + 1);
    var u := Without(o, k + 1);
    forall j | 0 <= j < |u| ensures 0 <= u[j] < |D'| {
    }
    forall j | 0 <= j < |u| ensures D'[u[j]].offset + LengthBut(D', u[j], o[k]) == EndOf(D', u, M, j) {
      var i := if j < k + 1 then j else j + 1;
      assert u[j] == o[i];
      assert D[o[i]].offset + LengthBut(D, o[i], x) == EndOf(D, o, M, i);
      if j == k { assert D[o[k + 1]].offset + LengthBut(D, o[k + 1], x) == EndOf(D, o, M, k + 1); }
      if j + 1 < |u| { assert u[j + 1] == o[if j < k then j + 1 else j + 2]; }
    }
  }

  lemma JoinedAlternates(D: seq<Entry>, D': seq<Entry>, o: seq<int>, k: nat, x: int)
    requires Linked(D, o) && Alternates(D, o, x) && k + 1 < |o| && (x == o[k] || x == o[k + 1])
    requires |D'| == |D| && forall e :: 0 <= e < |D| ==> D'[e].kind == D[e].kind
    ensures Alternates(D', Without(o, k + 1), o[k])
  {
    hide Without;
    WithoutAt(o, k + 1);
    var u := Without(o, k + 1);
    forall j | 0 < j < |u| ensures Separated(D', u, j, o[k]) {
      var i := if j < k + 1 then j else j + 1;
      assert u[j] == o[i];
      if u[j - 1] != o[k] {
        assert u[j - 1] == o[i - 1];
        assert Separated(D, o, i, x);
      }
    }
  }

  /** Region x becomes free between neighbours that are not. */
  lemma FreedAlternates(D: seq<Entry>, D': seq<Entry>, o: seq<int>, x: int)
    requires Linked(D, o) && Alternates(D, o, x) && x in o && !Free(D, D[x].mprev) && !Free(D, D[x].mnext)
    requires |D'| == |D| && forall e :: 0 <= e < |D| && e != x ==> D'[e].kind == D[e].kind
    ensures Alternates(D', o, NOENTRY)
  {
    forall j | 0 < j < |o| ensures Separated(D', o, j, NOENTRY) {
      assert Separated(D, o, j, x);
      assert D[o[j]].mprev == LeftOf(o, j) && D[o[j - 1]].mnext == RightOf(o, j - 1);
    }
  }

  /** The position of a region, and its neighbours. */
  lemma Position(D: seq<Entry>, o: seq<int>, x: int) returns (k: nat)
    requires Linked(D, o) && x in o
    ensures k < |o| && o[k] == x && D[x].mprev == LeftOf(o, k) && D[x].mnext == RightOf(o, k)
    ensures D[x].mprev != NOENTRY ==> k > 0 && o[k - 1] == D[x].mprev && 0 <= D[x].mprev < |D|
    ensures D[x].mnext != NOENTRY ==> k + 1 < |o| && o[k + 1] == D[x].mnext && 0 <= D[x].mnext < |D|
  {
    k :| 0 <= k < |o| && o[k] == x;
    assert D[o[k]].mprev == LeftOf(o, k);
  }

  // ---- cutting a piece off a free region ----

  /** D' has the new descriptor n just before the region at position k. */
  lemma SplitLinked(D: seq<Entry>, D': seq<Entry>, o: seq<int>, k: nat, n: int)
    requires Linked(D, o) && k < |o| && n !in o && 0 <= n < |D| == |D'|
    requires D'[n].mprev == D[o[k]].mprev && D'[n].mnext == o[k]
    requires D'[o[k]].mprev == n && D'[o[k]].mnext == D[o[k]].mnext
    requires k > 0 ==> D'[o[k - 1]].mprev == D[o[k - 1]].mprev && D'[o[k - 1]].mnext == n
    requires forall e :: 0 <= e < |D| && e != n && e != o[k] && (k > 0 ==> e != o[k - 1]) ==>
               D'[e].mprev == D[e].mprev && D'[e].mnext == D[e].mnext
    ensures Linked(D', Inserted(o, k, n))
  {
    hide Inserted;
    InsertedAt(o, k, n);
    var u := Inserted(o, k, n);
    forall j | 0 <= j < |u|
      ensures 0 <= u[j] < |D'| && D'[u[j]].mprev == LeftOf(u, j) && D'[u[j]].mnext == RightOf(u, j)
    {
      if j == k {
        assert D[o[k]].mprev == LeftOf(o, k);
      } else {
        var i := if j < k then j else j - 1;
        assert u[j] == o[i];
        assert D[o[i]].mprev == LeftOf(o, i) && D[o[i]].mnext == RightOf(o, i);
      }
    }
  }

  lemma SplitTiled(D: seq<Entry>, D': seq<Entry>, o: seq<int>, M: nat, k: nat, n: int)
    requires Linked(D, o) && Tiled(D, o, M, NOENTRY) && k < |o| && n !in o && 0 <= n < |D| == |D'|
    requires D[o[k]].kind == FREE && D'[o[k]].kind == FREE && D'[n].offset == D[o[k]].offset
    requires D'[o[k]].offset == D[o[k]].offset + Length(D'[n]) && D'[o[k]].size + Length(D'[n]) == D[o[k]].size
    requires forall e :: 0 <= e < |D| && e != n && e != o[k] ==>
               D'[e].offset == D[e].offset && Length(D'[e]) == Length(D[e])
    ensures Tiled(D', Inserted(o, k, n), M, NOENTRY)
  {
    hide Inserted;
    InsertedAt(o, k, n);
    var u := Inserted(o, k, n);
    forall j | 0 <= j < |u| ensures 0 <= u[j] < |D'| {
    }
    forall j | 0 <= j < |u| ensures D'[u[j]].offset + LengthBut(D', u[j], NOENTRY) == EndOf(D', u, M, j) {
      assert D[o[k]].offset + LengthBut(D, o[k], NOENTRY) == EndOf(D, o, M, k);
      if j != k {
        var i := if j < k then j else j - 1;
        assert u[j] == o[i];
        assert D[o[i]].offset + LengthBut(D, o[i], NOENTRY) == EndOf(D, o, M, i);
        if j + 1 < |u| { assert u[j + 1] == if j + 1 < k then o[j + 1] else if j + 1 == k then n else o[j]; }
      } else {
        assert u[j + 1] == o[k];
      }
    }
  }

  lemma SplitAlternates(D: seq<Entry>, D': seq<Entry>, o: seq<int>, k: nat, n: int)
    requires Linked(D, o) && Alternates(D, o, NOENTRY) && k < |o| && n !in o && 0 <= n < |D| == |D'|
    requires D'[n].kind == BUSY && forall e :: 0 <= e < |D| && e != n ==> D'[e].kind == D[e].kind
    ensures Alternates(D', Inserted(o, k, n), NOENTRY)
  {
    hide Inserted;
    InsertedAt(o, k, n);
    var u := Inserted(o, k, n);
    forall j | 0 < j < |u| ensures Separated(D', u, j, NOENTRY) {
      if j != k && j != k + 1 {
        var i := if j < k then j else j - 1;
        assert u[j] == o[i] && u[j - 1] == o[i - 1];
        assert Separated(D, o, i, NOENTRY);
      }
    }
  }

  /** A free region taken whole. */
  lemma FilledWhole(D: seq<Entry>, D': seq<Entry>, o: seq<int>, M: nat, x: int)
    requires RegionInv(D, o, M) && x in o && D[x].kind == FREE && |D'| == |D|
    requires D'[x].kind == BUSY && D'[x].getInfo.size == D[x].size
    requires forall e :: 0 <= e < |D| ==>
               D'[e].offset == D[e].offset && D'[e].mprev == D[e].mprev && D'[e].mnext == D[e].mnext
    requires forall e :: 0 <= e < |D| && e != x ==> D'[e].kind == D[e].kind && Length(D'[e]) == Length(D[e])
    ensures RegionInv(D', o, M)
  {
    forall k | 0 <= k < |o| ensures D'[o[k]].mprev == LeftOf(o, k) && D'[o[k]].mnext == RightOf(o, k) {
      assert D[o[k]].mprev == LeftOf(o, k);
    }
    forall k | 0 <= k < |o| ensures D'[o[k]].offset + LengthBut(D', o[k], NOENTRY) == EndOf(D', o, M, k) {
      assert D[o[k]].offset + LengthBut(D, o[k], NOENTRY) == EndOf(D, o, M, k);
    }
    forall j | 0 < j < |o| ensures Separated(D', o, j, NOENTRY) {
      assert Separated(D, o, j, NOENTRY);
    }
  }
}
