/** The AVL tree as the index of the free regions: its data are descriptors, ordered by
    size, and each datum knows the node that holds it. */
module AvlOrder {
  import opened AvlShape
  import opened AvlMoves
  import opened Descriptors
  import opened Sequences

  /** Descriptors in s, all in range, with non-decreasing sizes. */
  ghost predicate Sorted(D: seq<Entry>, s: seq<int>) {
    && (forall a :: 0 <= a < |s| ==> 0 <= s[a] < |D|)
    && forall a, b :: 0 <= a < b < |s| ==> D[s[a]].size <= D[s[b]].size
  }

  /** Every datum points back at the node that holds it. */
  ghost predicate Handles(D: seq<Entry>, t: Shape) {
    forall i, d :: (i, d) in Pairs(t) ==> 0 <= d < |D| && D[d].tnode == i
  }

  /** The free part of the node pool: F[0..k] are the unused nodes. */
  ghost predicate Pool(t: Shape, F: seq<int>, k: int, n: nat) {
    && -1 <= k < |F| == n && |Elems(t)| + k + 1 == n
    && (forall x :: 0 <= x <= k ==> 0 <= F[x] < n && F[x] !in Ids(t))
    && forall x, y :: 0 <= x < y <= k ==> F[x] != F[y]
  }

  ghost predicate TreeInv(N: seq<Node>, root: int, t: Shape, F: seq<int>, k: int) {
    Rep(N, t, NIL) && root == Root(t) && Pool(t, F, k, |N|)
  }

  lemma {:induction false} ElemsOfPairs(t: Shape, i: int, d: int)
    requires (i, d) in Pairs(t)
    ensures d in Elems(t) && i in Ids(t)
  {
    if (i, d) in Pairs(t.l) { ElemsOfPairs(t.l, i, d); }
    else if (i, d) in Pairs(t.r) { ElemsOfPairs(t.r, i, d); }
  }

  lemma {:induction false} PairsOfElems(t: Shape, d: int) returns (i: int)
    requires d in Elems(t)
    ensures (i, d) in Pairs(t)
  {
    if d in Elems(t.l) { i := PairsOfElems(t.l, d); }
    else if d in Elems(t.r) { i := PairsOfElems(t.r, d); }
    else { i := t.id; }
  }

  lemma {:induction false} PairsData(N: seq<Node>, t: Shape, p: int, i: int, d: int)
    requires Rep(N, t, p) && (i, d) in Pairs(t)
    ensures i in Ids(t) && 0 <= i < |N| && N[i].data == d
  {
    if (i, d) in Pairs(t.l) { PairsData(N, t.l, t.id, i, d); }
    else if (i, d) in Pairs(t.r) { PairsData(N, t.r, t.id, i, d); }
  }

  /** Starting from a datum: its handle leads to the node that holds it. */
  lemma HandleLeads(N: seq<Node>, D: seq<Entry>, t: Shape, d: int)
    requires Rep(N, t, NIL) && Handles(D, t) && d in Elems(t)
    ensures 0 <= d < |D| && D[d].tnode in Ids(t) && 0 <= D[d].tnode < |N| && N[D[d].tnode].data == d
  {
    var i := PairsOfElems(t, d);
    PairsData(N, t, NIL, i, d);
  }

  lemma HandlesFrame(D: seq<Entry>, D': seq<Entry>, t: Shape)
    requires Handles(D, t) && |D'| == |D|
    requires forall d :: d in Elems(t) && 0 <= d < |D| ==> D'[d].tnode == D[d].tnode
    ensures Handles(D', t)
  {
    forall i, d | (i, d) in Pairs(t) ensures 0 <= d < |D'| && D'[d].tnode == i {
      ElemsOfPairs(t, i, d);
    }
  }

  /** A new datum gets its handle. */
  lemma HandleSet(D: seq<Entry>, D': seq<Entry>, t: Shape, u: Shape, n: int, d: int)
    requires Handles(D, t) && |D'| == |D| && 0 <= d < |D| && D'[d].tnode == n && d !in Elems(t)
    requires Pairs(u) == Pairs(t) + {(n, d)}
    requires forall e :: 0 <= e < |D| && e != d ==> D'[e].tnode == D[e].tnode
    ensures Handles(D', u)
  {
    forall i, e | (i, e) in Pairs(u) ensures 0 <= e < |D'| && D'[e].tnode == i {
      if (i, e) in Pairs(t) { ElemsOfPairs(t, i, e); }
    }
  }

  lemma SortedFrame(D: seq<Entry>, D': seq<Entry>, s: seq<int>)
    requires Sorted(D, s) && |D'| == |D| && forall e :: e in s && 0 <= e < |D| ==> D'[e].size == D[e].size
    ensures Sorted(D', s)
  {
  }

  /** Taking out the datum whose size was changed leaves the others in order. */
  lemma SortedWithout(D: seq<Entry>, D': seq<Entry>, s: seq<int>, at: nat)
    requires Sorted(D, s) && at < |s| && |D'| == |D|
    requires forall e :: e in Without(s, at) && 0 <= e < |D| ==> D'[e].size == D[e].size
    ensures Sorted(D', Without(s, at))
  {
  }

  /** The subtree at a given node, with its surroundings. */
  lemma {:induction false} Zip(c0: Context, t: Shape, i: int) returns (c: Context, s: Shape)
    requires i in Ids(t)
    ensures Plug(c, s) == Plug(c0, t) && Base(c) == Base(c0) && s.Bin? && s.id == i
    decreases t
  {
    if i in Ids(t.l) {
      c, s := Zip(Frame(c0, true, t.id, t.data, t.r), t.l, i);
    } else if i in Ids(t.r) {
      c, s := Zip(Frame(c0, false, t.id, t.data, t.l), t.r, i);
    } else {
      c, s := c0, t;
    }
  }

  /** The subtree s of a well-formed tree, with everything the code reads at its root. */
  lemma FocusOn(N: seq<Node>, c: Context, s: Shape, root: int)
    requires Rep(N, Plug(c, s), NIL) && Base(c) == NIL && root == Root(Plug(c, s))
    ensures Lagging(N, c, s, Height(s), root)
    ensures s.Bin? ==> Focus(N, c, s, Height(s.r) - Height(s.l), Height(s), root)
    ensures s.Bin? ==> -1 <= Height(s.r) - Height(s.l) <= 1
  {
    PlugRep(N, c, s);
    PlugIds(c, s);
  }

  // ---- searching ----

  /** Data left of the hole are smaller, and data right of it no smaller, than `size`. */
  ghost predicate Around(D: seq<Entry>, c: Context, size: nat) {
    && (forall x :: x in Before(c) ==> 0 <= x < |D| && D[x].size < size)
    && (forall x :: x in After(c) ==> 0 <= x < |D| && size <= D[x].size)
  }

  lemma SortedSplit(D: seq<Entry>, a: seq<int>, x: int, b: seq<int>)
    requires Sorted(D, a + [x] + b)
    ensures 0 <= x < |D|
    ensures forall y :: y in a ==> 0 <= y < |D| && D[y].size <= D[x].size
    ensures forall y :: y in b ==> 0 <= y < |D| && D[x].size <= D[y].size
  {
    var e := a + [x] + b;
    assert e[|a|] == x;
    forall y | y in a ensures 0 <= y < |D| && D[y].size <= D[x].size {
      var k :| 0 <= k < |a| && a[k] == y;
      assert e[k] == y;
    }
    forall y | y in b ensures 0 <= y < |D| && D[x].size <= D[y].size {
      var k :| 0 <= k < |b| && b[k] == y;
      assert e[|a| + 1 + k] == y;
    }
  }

  lemma Regroup<T>(a: seq<T>, l: seq<T>, m: seq<T>, r: seq<T>, z: seq<T>)
    ensures a + (l + m + r) + z == (a + l) + m + (r + z)
  {
  }

  lemma SortedAt(D: seq<Entry>, c: Context, s: Shape)
    requires s.Bin? && Sorted(D, Elems(Plug(c, s)))
    ensures 0 <= s.data < |D|
    ensures forall x :: x in Before(c) + Elems(s.l) ==> 0 <= x < |D| && D[x].size <= D[s.data].size
    ensures forall x :: x in Elems(s.r) + After(c) ==> 0 <= x < |D| && D[s.data].size <= D[x].size
  {
    PlugElems(c, s);
    Regroup(Before(c), Elems(s.l), [s.data], Elems(s.r), After(c));
    SortedSplit(D, Before(c) + Elems(s.l), s.data, Elems(s.r) + After(c));
  }

  lemma GoLeft(D: seq<Entry>, c: Context, s: Shape, size: nat)
    requires s.Bin? && Sorted(D, Elems(Plug(c, s))) && Around(D, c, size)
    requires 0 <= s.data < |D| && size <= D[s.data].size
    ensures var f := Frame(c, true, s.id, s.data, s.r); Plug(f, s.l) == Plug(c, s) && Around(D, f, size)
  {
    SortedAt(D, c, s);
    var f := Frame(c, true, s.id, s.data, s.r);
    assert Before(f) == Before(c) && After(f) == [s.data] + Elems(s.r) + After(c);
    assert forall x :: x in After(f) ==> x == s.data || x in Elems(s.r) + After(c);
  }

  lemma GoRight(D: seq<Entry>, c: Context, s: Shape, size: nat)
    requires s.Bin? && Sorted(D, Elems(Plug(c, s))) && Around(D, c, size)
    requires 0 <= s.data < |D| && D[s.data].size < size
    ensures var f := Frame(c, false, s.id, s.data, s.l); Plug(f, s.r) == Plug(c, s) && Around(D, f, size)
  {
    SortedAt(D, c, s);
    var f := Frame(c, false, s.id, s.data, s.l);
    assert After(f) == After(c) && Before(f) == Before(c) + Elems(s.l) + [s.data];
    assert forall x :: x in Before(f) ==> x == s.data || x in Before(c) + Elems(s.l);
  }

  /** A search for `size` in the tree t has come down to the subtree s. */
  ghost predicate Descending(D: seq<Entry>, c: Context, s: Shape, t: Shape, size: nat) {
    Plug(c, s) == t && Base(c) == NIL && Around(D, c, size)
  }

  lemma DescendAt(N: seq<Node>, D: seq<Entry>, c: Context, s: Shape, t: Shape, size: nat)
    requires Rep(N, t, NIL) && Sorted(D, Elems(t)) && Descending(D, c, s, t, size) && s.Bin?
    ensures At(N, s.id) && N[s.id].left == Root(s.l) && N[s.id].right == Root(s.r)
    ensures N[s.id].data == s.data && 0 <= s.data < |D| && Height(s.l) < Height(s) && Height(s.r) < Height(s)
    ensures size <= D[s.data].size ==> Descending(D, Frame(c, true, s.id, s.data, s.r), s.l, t, size)
    ensures D[s.data].size < size ==> Descending(D, Frame(c, false, s.id, s.data, s.l), s.r, t, size)
    ensures s.l.Bin? ==> s.l.id != NIL
    ensures s.r.Bin? ==> s.r.id != NIL
  {
    PlugRep(N, c, s);
    SortedAt(D, c, s);
    if size <= D[s.data].size { GoLeft(D, c, s, size); }
    if D[s.data].size < size { GoRight(D, c, s, size); }
  }

  lemma RootNil(N: seq<Node>, c: Context, s: Shape, t: Shape)
    requires Rep(N, t, NIL) && Plug(c, s) == t && Base(c) == NIL && Root(s) == NIL
    ensures s.Leaf?
  {
    PlugRep(N, c, s);
  }

  /** All data left of the hole are too small, and min is the first one right of it, a smallest. */
  ghost predicate BestSoFar(D: seq<Entry>, c: Context, size: nat, min: int) {
    && (forall x :: x in Before(c) ==> 0 <= x < |D| && D[x].size < size)
    && (if After(c) == [] then min == NIL else min == After(c)[0] && 0 <= min < |D|)
    && forall x :: x in After(c) ==> 0 <= x < |D| && 0 <= min < |D| && size < D[x].size && D[min].size <= D[x].size
  }

  /** Of the data s, x is the first that has `size`. */
  ghost predicate FirstFit(D: seq<Entry>, s: seq<int>, size: nat, x: int) {
    exists at :: 0 <= at < |s| && s[at] == x && forall i :: 0 <= i < at ==> 0 <= s[i] < |D| && D[s[i]].size < size
  }

  /** The answer to a best-fit search among the data s: one of exactly that size, or the first
      that is larger. */
  ghost predicate BestFit(D: seq<Entry>, s: seq<int>, size: nat, min: int) {
    && (min != NIL ==> min in s && 0 <= min < |D| && size <= D[min].size)
    && (min != NIL ==> D[min].size == size || FirstFit(D, s, size, min))
    && forall x :: x in s ==> 0 <= x < |D| && (size <= D[x].size ==> 0 <= min < |D| && D[min].size <= D[x].size)
  }

  /** What a search for `size` finds: on the way down, a datum of exactly that size, or else the
      last one that is larger. */
  ghost function Found(D: seq<Entry>, t: Shape, size: nat, min: int): int {
    match t
    case Leaf => min
    case Bin(l, _, d, r) =>
      if !(0 <= d < |D|) then NIL
      else if D[d].size == size then d
      else if D[d].size > size then Found(D, l, size, d)
      else Found(D, r, size, min)
  }

  lemma SearchStarts(D: seq<Entry>, t: Shape, size: nat)
    ensures Descending(D, Top(NIL), t, t, size) && BestSoFar(D, Top(NIL), size, NIL)
  {
  }

  lemma BestLeft(D: seq<Entry>, c: Context, s: Shape, size: nat, min: int)
    requires s.Bin? && Sorted(D, Elems(Plug(c, s))) && BestSoFar(D, c, size, min)
    requires 0 <= s.data < |D| && size < D[s.data].size
    ensures BestSoFar(D, Frame(c, true, s.id, s.data, s.r), size,
                      if min == NIL then s.data else if D[min].size < D[s.data].size then min else s.data)
    ensures min != NIL ==> D[min].size >= D[s.data].size
  {
    SortedAt(D, c, s);
    var f := Frame(c, true, s.id, s.data, s.r);
    assert After(f) == [s.data] + Elems(s.r) + After(c);
    assert forall x :: x in After(f) ==> x == s.data || x in Elems(s.r) + After(c);
  }

  lemma BestRight(D: seq<Entry>, c: Context, s: Shape, size: nat, min: int)
    requires s.Bin? && Sorted(D, Elems(Plug(c, s))) && BestSoFar(D, c, size, min)
    requires 0 <= s.data < |D| && D[s.data].size < size
    ensures BestSoFar(D, Frame(c, false, s.id, s.data, s.l), size, min)
  {
    SortedAt(D, c, s);
    var f := Frame(c, false, s.id, s.data, s.l);
    assert Before(f) == Before(c) + Elems(s.l) + [s.data];
    assert forall x :: x in Before(f) ==> x == s.data || x in Before(c) + Elems(s.l);
  }

  lemma BestHere(D: seq<Entry>, c: Context, s: Shape, size: nat, min: int)
    requires s.Bin? && Sorted(D, Elems(Plug(c, s))) && BestSoFar(D, c, size, min)
    requires 0 <= s.data < |D| && D[s.data].size == size
    ensures BestFit(D, Elems(Plug(c, s)), size, s.data)
  {
    SortedAt(D, c, s);
    PlugElems(c, s);
    Regroup(Before(c), Elems(s.l), [s.data], Elems(s.r), After(c));
    var (a, b) := (Before(c) + Elems(s.l), Elems(s.r) + After(c));
    assert forall x :: x in a + [s.data] + b ==> x in a || x == s.data || x in b;
    assert (a + [s.data] + b)[|a|] == s.data;
  }

  lemma BestDone(D: seq<Entry>, c: Context, size: nat, min: int)
    requires BestSoFar(D, c, size, min)
    ensures BestFit(D, Elems(Plug(c, Leaf)), size, min)
  {
    PlugElems(c, Leaf);
    var (a, s) := (Before(c), Elems(Plug(c, Leaf)));
    assert Before(c) + Elems(Leaf) + After(c) == Before(c) + After(c);
    assert forall i :: 0 <= i < |a| ==> s[i] in a;
    if min != NIL { assert s[|a|] == min; }
  }

  // ---- insertion ----

  /** A new leaf hung into an empty place is a tree whose climb is about to start. */
  lemma AttachLeaf(N: seq<Node>, M: seq<Node>, c: Context, n: int, data: int, root: int)
    requires c.Frame? && Lagging(N, c, Leaf, 0, root) && |M| == |N|
    requires 0 <= n < |N| && n !in Ids'(c)
    requires M[n] == Node(c.id, NIL, NIL, data, 0)
    requires 0 <= c.id < |N| && M[c.id] == if c.left then N[c.id].(left := n) else N[c.id].(right := n)
    requires SameBut(N, M, {n, c.id})
    ensures Growing(M, c, Bin(Leaf, n, data, Leaf), root, c.id, Delta(c, 1))
  {
    Rehole(N, M, c, NIL, n, 0);
    RootOfSame(c, NIL, n);
    var t := Bin(Leaf, n, data, Leaf);
    assert Rep(M, t, c.id);
    assert Ids(t) == {n};
  }

  lemma InsertedSorted(D: seq<Entry>, a: seq<int>, b: seq<int>, data: int)
    requires Sorted(D, a + b) && 0 <= data < |D|
    requires forall x :: x in a ==> 0 <= x < |D| && D[x].size <= D[data].size
    requires forall x :: x in b ==> 0 <= x < |D| && D[data].size <= D[x].size
    ensures Sorted(D, a + [data] + b)
  {
    var s, u := a + [data] + b, a + b;
    forall i | 0 <= i < |s| ensures 0 <= s[i] < |D| {
      if i < |a| { assert s[i] == u[i]; } else if i > |a| { assert s[i] == u[i - 1]; }
    }
    forall i, j | 0 <= i < j < |s| ensures D[s[i]].size <= D[s[j]].size {
      if i == |a| { assert s[j] == b[j - |a| - 1]; }
      else if j == |a| { assert s[i] == a[i]; }
      else {
        assert s[i] == u[if i < |a| then i else i - 1] && s[j] == u[if j < |a| then j else j - 1];
      }
    }
  }

  lemma AttachSorted(D: seq<Entry>, c: Context, n: int, data: int)
    requires Sorted(D, Elems(Plug(c, Leaf))) && 0 <= data < |D| && Around(D, c, D[data].size)
    ensures |Before(c)| <= |Elems(Plug(c, Leaf))|
    ensures Elems(Plug(c, Bin(Leaf, n, data, Leaf))) == Inserted(Elems(Plug(c, Leaf)), |Before(c)|, data)
    ensures Sorted(D, Elems(Plug(c, Bin(Leaf, n, data, Leaf))))
    ensures Pairs(Plug(c, Bin(Leaf, n, data, Leaf))) == Pairs(Plug(c, Leaf)) + {(n, data)}
    ensures Ids(Plug(c, Bin(Leaf, n, data, Leaf))) == Ids(Plug(c, Leaf)) + {n}
  {
    var t := Bin(Leaf, n, data, Leaf);
    PlugElems(c, Leaf); PlugElems(c, t);
    PlugIds(c, Leaf); PlugIds(c, t);
    var (a, b) := (Before(c), After(c));
    assert Elems(Leaf) == [] && Elems(t) == [data] && Ids(t) == {n} && Pairs(t) == {(n, data)};
    assert a + Elems(Leaf) + b == a + b;
    assert (a + b)[..|a|] == a && (a + b)[|a|..] == b;
    InsertedSorted(D, a, b, data);
  }

  /** Everything that hanging a new leaf into the hole of c relies on. */
  lemma AttachReady(N: seq<Node>, D: seq<Entry>, c: Context, t: Shape, root: int, F: seq<int>, k: int, data: int)
    requires TreeInv(N, root, t, F, k) && k >= 0 && c.Frame? && 0 <= data < |D| && Sorted(D, Elems(t))
    requires Descending(D, c, Leaf, t, D[data].size)
    ensures 0 <= k < |F| && At(N, F[k]) && At(N, c.id) && F[k] != c.id && F[k] !in Ids(t) && F[k] !in Ids'(c)
    ensures Lagging(N, c, Leaf, 0, root)
    ensures var (n, at, u) := (F[k], |Before(c)|, Plug(c, Bin(Leaf, F[k], data, Leaf)));
      && at <= |Elems(t)| && Elems(u) == Inserted(Elems(t), at, data) && Sorted(D, Elems(u))
      && Pairs(u) == Pairs(t) + {(n, data)} && Ids(u) == Ids(t) + {n}
  {
    FocusOn(N, c, Leaf, root);
    LagFacts(N, c, Leaf, 0, root);
    PlugIds(c, Leaf);
    RootOfIn(c, NIL);
    AttachSorted(D, c, F[k], data);
  }

  /** The first n data of s are smaller than `size`. */
  ghost predicate Smaller(D: seq<Entry>, s: seq<int>, n: nat, size: nat) {
    n <= |s| && forall i :: 0 <= i < n ==> 0 <= s[i] < |D| && D[s[i]].size < size
  }

  /** A new datum comes before all of its size. */
  lemma PlaceIsFirst(D: seq<Entry>, c: Context, t: Shape, size: nat)
    requires Descending(D, c, Leaf, t, size)
    ensures Smaller(D, Elems(t), |Before(c)|, size)
  {
    PlugElems(c, Leaf);
    var (a, s) := (Before(c), Elems(t));
    forall i | 0 <= i < |a| ensures s[i] in a {
      assert s[i] == a[i];
    }
  }

  lemma FirstLeaf(N: seq<Node>, F: seq<int>, k: int, n: int, data: int)
    requires Pool(Leaf, F, k + 1, |N|) && 0 <= k + 1 && n == F[k + 1] && N[n] == Node(NIL, NIL, NIL, data, 0)
    ensures TreeInv(N, n, Bin(Leaf, n, data, Leaf), F, k)
    ensures Pairs(Bin(Leaf, n, data, Leaf)) == {(n, data)} && Elems(Bin(Leaf, n, data, Leaf)) == [data]
  {
  }

  lemma InsertDone(N: seq<Node>, root: int, t: Shape, u: Shape, v: Shape, F: seq<int>, k: int, n: nat, data: int,
                   at: nat)
    requires Pool(t, F, k, n) && k >= 0 && |N| == n
    requires at <= |Elems(t)| && Elems(u) == Inserted(Elems(t), at, data) && Ids(u) == Ids(t) + {F[k]}
    requires Rep(N, v, NIL) && root == Root(v) && Rearranged(u, v)
    ensures TreeInv(N, root, v, F, k - 1)
  {
  }
}
