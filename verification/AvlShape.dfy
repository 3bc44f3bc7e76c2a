/** The mathematics of the AVL tree: the shapes that the pointer structure of AvlTree.dfy
    stands for, and how a node pool represents them.

    A node is an index into the pool; NIL stands for the null pointer.  A Shape is the
    tree below a node; a Context is everything around it (a zipper), so that a loop that
    climbs parent pointers peels one frame off the context per step. */
module AvlShape {
  const NIL := -1

  datatype Node = Node(parent: int, left: int, right: int, data: int, balance: int)

  datatype Shape = Leaf | Bin(l: Shape, id: int, data: int, r: Shape)

  /** A frame is the node above the hole with its other subtree; `left` says that the hole
      is the left subtree.  Top carries the parent of the outermost node (NIL for a whole
      tree). */
  datatype Context =
    | Top(base: int)
    | Frame(up: Context, left: bool, id: int, data: int, sib: Shape)

  ghost function Max(a: int, b: int): int { if a < b then b else a }

  ghost function Root(t: Shape): int { if t.Leaf? then NIL else t.id }

  ghost function Height(t: Shape): nat {
    match t
    case Leaf => 0
    case Bin(l, _, _, r) => 1 + Max(Height(l), Height(r))
  }

  ghost function Ids(t: Shape): set<int> {
    match t
    case Leaf => {}
    case Bin(l, i, _, r) => Ids(l) + {i} + Ids(r)
  }

  /** The data of a tree, in order. */
  ghost function Elems(t: Shape): seq<int> {
    match t
    case Leaf => []
    case Bin(l, _, d, r) => Elems(l) + [d] + Elems(r)
  }

  /** Which node holds which datum. */
  ghost function Pairs(t: Shape): set<(int, int)> {
    match t
    case Leaf => {}
    case Bin(l, i, d, r) => Pairs(l) + {(i, d)} + Pairs(r)
  }

  // ---- contexts ----

  /** The node just above the hole. */
  ghost function Above(c: Context): int { if c.Top? then c.base else c.id }

  ghost function Ids'(c: Context): set<int> {
    match c
    case Top(_) => {}
    case Frame(up, _, i, _, sib) => Ids'(up) + {i} + Ids(sib)
  }

  ghost function Pairs'(c: Context): set<(int, int)> {
    match c
    case Top(_) => {}
    case Frame(up, _, i, d, sib) => Pairs'(up) + {(i, d)} + Pairs(sib)
  }

  /** The data to the left and to the right of the hole. */
  ghost function Before(c: Context): seq<int> {
    match c
    case Top(_) => []
    case Frame(up, left, _, d, sib) => if left then Before(up) else Before(up) + Elems(sib) + [d]
  }

  ghost function After(c: Context): seq<int> {
    match c
    case Top(_) => []
    case Frame(up, left, _, d, sib) => if left then [d] + Elems(sib) + After(up) else After(up)
  }

  /** The node of the frame with t in its hole. */
  ghost function Fill(c: Context, t: Shape): Shape
    requires c.Frame?
  {
    if c.left then Bin(t, c.id, c.data, c.sib) else Bin(c.sib, c.id, c.data, t)
  }

  ghost function Plug(c: Context, t: Shape): Shape {
    match c
    case Top(_) => t
    case Frame(up, _, _, _, _) => Plug(up, Fill(c, t))
  }

  /** The root of the whole tree when the hole's root is `hole`. */
  ghost function RootOf(c: Context, hole: int): int {
    match c
    case Top(_) => hole
    case Frame(up, _, i, _, _) => RootOf(up, i)
  }

  ghost function Base(c: Context): int {
    match c
    case Top(b) => b
    case Frame(up, _, _, _, _) => Base(up)
  }

  /** How many nodes there are above the hole. */
  ghost function Depth(c: Context): nat {
    match c
    case Top(_) => 0
    case Frame(up, _, _, _, _) => 1 + Depth(up)
  }

  lemma {:induction false} DepthHeight(c: Context, t: Shape)
    ensures Depth(c) + Height(t) <= Height(Plug(c, t))
  {
    match c
    case Top(_) =>
    case Frame(up, _, _, _, _) => DepthHeight(up, Fill(c, t));
  }

  // ---- representation ----

  /** The pool N holds the tree t below parent p: links both ways, data, and balance
      factors that are exactly height(right) - height(left) and within one. */
  ghost predicate Rep(N: seq<Node>, t: Shape, p: int) {
    match t
    case Leaf => true
    case Bin(l, i, d, r) =>
      && 0 <= i < |N|
      && N[i] == Node(p, Root(l), Root(r), d, Height(r) - Height(l))
      && -1 <= Height(r) - Height(l) <= 1
      && i !in Ids(l) && i !in Ids(r) && Ids(l) !! Ids(r)
      && Rep(N, l, i) && Rep(N, r, i)
  }

  /** The pool N holds the context c, linked to the node `hole` and with the balance
      factors that are right when the hole has height h. */
  ghost predicate Rep'(N: seq<Node>, c: Context, hole: int, h: int) {
    match c
    case Top(_) => true
    case Frame(up, left, i, d, sib) =>
      var k := Height(sib);
      && 0 <= i < |N|
      && N[i] == (if left then Node(Above(up), hole, Root(sib), d, k - h)
                  else Node(Above(up), Root(sib), hole, d, h - k))
      && -1 <= k - h <= 1
      && i !in Ids'(up) && i !in Ids(sib) && Ids(sib) !! Ids'(up)
      && Rep(N, sib, i) && Rep'(N, up, i, 1 + Max(h, k))
  }

  /** A node whose subtrees are in order but whose balance factor b need not be. */
  ghost predicate Open(N: seq<Node>, l: Shape, i: int, d: int, r: Shape, p: int, b: int) {
    && 0 <= i < |N|
    && N[i] == Node(p, Root(l), Root(r), d, b)
    && i !in Ids(l) && i !in Ids(r) && Ids(l) !! Ids(r)
    && Rep(N, l, i) && Rep(N, r, i)
  }

  ghost predicate SameOn(N: seq<Node>, M: seq<Node>, s: set<int>) {
    |N| == |M| && forall x :: x in s && 0 <= x < |N| ==> N[x] == M[x]
  }

  lemma RepOpens(N: seq<Node>, t: Shape, p: int)
    requires Rep(N, t, p) && t.Bin?
    ensures Open(N, t.l, t.id, t.data, t.r, p, Height(t.r) - Height(t.l))
    ensures Ids(t) == Ids(t.l) + {t.id} + Ids(t.r)
    ensures Height(t) == 1 + Max(Height(t.l), Height(t.r)) && -1 <= Height(t.r) - Height(t.l) <= 1
  {
  }

  lemma FrameFacts(N: seq<Node>, c: Context, hole: int, h: int)
    requires c.Frame? && Rep'(N, c, hole, h)
    ensures 0 <= c.id < |N| && -1 <= Height(c.sib) - h <= 1
    ensures N[c.id] == if c.left then Node(Above(c.up), hole, Root(c.sib), c.data, Height(c.sib) - h)
                       else Node(Above(c.up), Root(c.sib), hole, c.data, h - Height(c.sib))
    ensures Rep(N, c.sib, c.id) && Rep'(N, c.up, c.id, 1 + Max(h, Height(c.sib)))
    ensures c.id !in Ids'(c.up) && c.id !in Ids(c.sib) && Ids(c.sib) !! Ids'(c.up)
    ensures Ids'(c) == Ids'(c.up) + {c.id} + Ids(c.sib)
  {
  }

  lemma ContextIds(c: Context)
    requires c.Frame?
    ensures Ids'(c) == Ids'(c.up) + {c.id} + Ids(c.sib) && Base(c) == Base(c.up)
    ensures forall hole :: RootOf(c, hole) == RootOf(c.up, c.id)
  {
  }

  lemma IdsOpen(t: Shape)
    requires t.Bin?
    ensures Ids(t) == Ids(t.l) + {t.id} + Ids(t.r)
  {
  }

  lemma RootIn(t: Shape)
    ensures t.Bin? ==> t.id in Ids(t)
  {
  }

  // ---- framing ----

  lemma {:induction false} RepInRange(N: seq<Node>, t: Shape, p: int)
    requires Rep(N, t, p)
    ensures forall x :: x in Ids(t) ==> 0 <= x < |N|
  {
    match t
    case Leaf =>
    case Bin(l, i, _, r) => RepInRange(N, l, i); RepInRange(N, r, i);
  }

  lemma {:induction false} RepInRange'(N: seq<Node>, c: Context, hole: int, h: int)
    requires Rep'(N, c, hole, h)
    ensures forall x :: x in Ids'(c) ==> 0 <= x < |N|
  {
    match c
    case Top(_) =>
    case Frame(up, _, i, _, sib) =>
      RepInRange(N, sib, i);
      RepInRange'(N, up, i, 1 + Max(h, Height(sib)));
  }

  lemma {:induction false} RepFrame(N: seq<Node>, M: seq<Node>, t: Shape, p: int)
    requires Rep(N, t, p) && SameOn(N, M, Ids(t))
    ensures Rep(M, t, p)
  {
    match t
    case Leaf =>
    case Bin(l, i, _, r) => RepFrame(N, M, l, i); RepFrame(N, M, r, i);
  }

  lemma {:induction false} RepFrame'(N: seq<Node>, M: seq<Node>, c: Context, hole: int, h: int)
    requires Rep'(N, c, hole, h) && SameOn(N, M, Ids'(c))
    ensures Rep'(M, c, hole, h)
  {
    match c
    case Top(_) =>
    case Frame(up, _, i, _, sib) =>
      RepFrame(N, M, sib, i);
      RepFrame'(N, M, up, i, 1 + Max(h, Height(sib)));
  }

  /** A subtree moved below another parent: only its root's parent link changes. */
  lemma {:induction false} Reparent(N: seq<Node>, M: seq<Node>, t: Shape, p: int, q: int)
    requires Rep(N, t, p) && |N| == |M|
    requires t.Bin? ==> M[t.id] == N[t.id].(parent := q)
    requires SameOn(N, M, Ids(t) - {Root(t)})
    ensures Rep(M, t, q)
  {
    match t
    case Leaf =>
    case Bin(l, i, _, r) => RepFrame(N, M, l, i); RepFrame(N, M, r, i);
  }

  /** The context around a hole that was given another root. */
  lemma {:induction false} Rehole(N: seq<Node>, M: seq<Node>, c: Context, hole: int, hole': int, h: int)
    requires Rep'(N, c, hole, h) && |N| == |M|
    requires c.Frame? ==> M[c.id] == if c.left then N[c.id].(left := hole') else N[c.id].(right := hole')
    requires SameOn(N, M, Ids'(c) - {Above(c)})
    ensures Rep'(M, c, hole', h)
  {
    match c
    case Top(_) =>
    case Frame(up, _, i, _, sib) =>
      RepFrame(N, M, sib, i);
      RepFrame'(N, M, up, i, 1 + Max(h, Height(sib)));
  }

  // ---- plugging ----

  lemma FillElems(c: Context, t: Shape)
    requires c.Frame?
    ensures Before(c.up) + Elems(Fill(c, t)) + After(c.up) == Before(c) + Elems(t) + After(c)
  {
    var a, e, x, z, d := Before(c.up), Elems(t), Elems(c.sib), After(c.up), [c.data];
    if c.left {
      assert a + (e + d + x) + z == a + e + (d + x + z);
    } else {
      assert a + (x + d + e) + z == (a + x + d) + e + z;
    }
  }

  lemma {:induction false} PlugElems(c: Context, t: Shape)
    ensures Elems(Plug(c, t)) == Before(c) + Elems(t) + After(c)
    decreases c
  {
    if c.Top? {
    } else {
      PlugElems(c.up, Fill(c, t));
      FillElems(c, t);
    }
  }

  lemma {:induction false} PlugIds(c: Context, t: Shape)
    ensures Pairs(Plug(c, t)) == Pairs'(c) + Pairs(t)
    ensures Ids(Plug(c, t)) == Ids'(c) + Ids(t)
    ensures Root(Plug(c, t)) == RootOf(c, Root(t))
    decreases c
  {
    match c
    case Top(_) =>
    case Frame(up, _, _, _, _) => PlugIds(up, Fill(c, t));
  }

  lemma FillIds(c: Context, t: Shape)
    requires c.Frame?
    ensures c.id !in Ids(t) && c.id !in Ids(c.sib) && Ids(t) !! Ids(c.sib) && Ids(Fill(c, t)) !! Ids'(c.up) <==>
            c.id !in Ids'(c.up) && c.id !in Ids(c.sib) && Ids(c.sib) !! Ids'(c.up) && Ids(t) !! Ids'(c)
  {
  }

  /** The node of the frame c is linked and balanced around the subtree t. */
  ghost predicate Cell(N: seq<Node>, c: Context, t: Shape)
    requires c.Frame?
  {
    var (l, r) := if c.left then (t, c.sib) else (c.sib, t);
    && 0 <= c.id < |N|
    && N[c.id] == Node(Above(c.up), Root(l), Root(r), c.data, Height(r) - Height(l))
    && -1 <= Height(r) - Height(l) <= 1
  }

  lemma FillOpens(N: seq<Node>, c: Context, t: Shape)
    requires c.Frame?
    ensures Rep(N, Fill(c, t), Above(c.up)) <==>
            Cell(N, c, t) && Rep(N, t, c.id) && Rep(N, c.sib, c.id) &&
            c.id !in Ids(t) && c.id !in Ids(c.sib) && Ids(t) !! Ids(c.sib)
  {
  }

  lemma FrameOpens(N: seq<Node>, c: Context, t: Shape)
    requires c.Frame?
    ensures Rep'(N, c, Root(t), Height(t)) <==>
            Cell(N, c, t) && Rep(N, c.sib, c.id) && Rep'(N, c.up, c.id, Height(Fill(c, t))) &&
            c.id !in Ids'(c.up) && c.id !in Ids(c.sib) && Ids(c.sib) !! Ids'(c.up)
  {
    hide Rep, Ids, Root;
    assert Height(Fill(c, t)) == 1 + Max(Height(t), Height(c.sib));
  }

  lemma FillRep(N: seq<Node>, c: Context, t: Shape)
    requires c.Frame?
    ensures var f := Fill(c, t);
            Rep(N, f, Above(c.up)) && Rep'(N, c.up, c.id, Height(f)) && Ids(f) !! Ids'(c.up) <==>
            Rep(N, t, c.id) && Rep'(N, c, Root(t), Height(t)) && Ids(t) !! Ids'(c)
  {
    FillIds(c, t);
    FillOpens(N, c, t);
    FrameOpens(N, c, t);
  }

  /** A well-formed whole is exactly a well-formed context around a well-formed part. */
  lemma {:induction false} PlugRep(N: seq<Node>, c: Context, t: Shape)
    ensures Rep(N, Plug(c, t), Base(c)) <==>
            Rep(N, t, Above(c)) && Rep'(N, c, Root(t), Height(t)) && Ids(t) !! Ids'(c)
    decreases c
  {
    if c.Top? {
    } else {
      PlugRep(N, c.up, Fill(c, t));
      FillRep(N, c, t);
    }
  }

  // ---- rotations ----

  /** Right child raised above its parent. */
  ghost function RotL(t: Shape): Shape
    requires t.Bin? && t.r.Bin?
  {
    Bin(Bin(t.l, t.id, t.data, t.r.l), t.r.id, t.r.data, t.r.r)
  }

  ghost function RotR(t: Shape): Shape
    requires t.Bin? && t.l.Bin?
  {
    Bin(t.l.l, t.l.id, t.l.data, Bin(t.l.r, t.id, t.data, t.r))
  }

  /** Right child of the left child raised above both. */
  ghost function RotLR(t: Shape): Shape
    requires t.Bin? && t.l.Bin? && t.l.r.Bin?
  {
    RotR(Bin(RotL(t.l), t.id, t.data, t.r))
  }

  ghost function RotRL(t: Shape): Shape
    requires t.Bin? && t.r.Bin? && t.r.l.Bin?
  {
    RotL(Bin(t.l, t.id, t.data, RotR(t.r)))
  }

  /** Same nodes, same data in the same nodes, same order. */
  ghost predicate Rearranged(t: Shape, u: Shape) {
    Elems(t) == Elems(u) && Pairs(t) == Pairs(u) && Ids(t) == Ids(u)
  }

  lemma RotLKeeps(t: Shape)
    requires t.Bin? && t.r.Bin?
    ensures Rearranged(t, RotL(t))
  {
  }

  lemma RotRKeeps(t: Shape)
    requires t.Bin? && t.l.Bin?
    ensures Rearranged(t, RotR(t))
  {
  }

  lemma RotLRKeeps(t: Shape)
    requires t.Bin? && t.l.Bin? && t.l.r.Bin?
    ensures Rearranged(t, RotLR(t))
  {
    RotLKeeps(t.l);
    RotRKeeps(Bin(RotL(t.l), t.id, t.data, t.r));
  }

  lemma RotRLKeeps(t: Shape)
    requires t.Bin? && t.r.Bin? && t.r.l.Bin?
    ensures Rearranged(t, RotRL(t))
  {
    RotRKeeps(t.r);
    RotLKeeps(Bin(t.l, t.id, t.data, RotR(t.r)));
  }

  lemma PlugRearranged(c: Context, t: Shape, u: Shape)
    requires Rearranged(t, u)
    ensures Rearranged(Plug(c, t), Plug(c, u))
  {
  }

  // ---- height ----

  ghost function Fib(n: nat): nat {
    if n < 2 then n else Fib(n - 2) + Fib(n - 1)
  }

  lemma {:induction false} FibMonotone(m: nat, n: nat)
    requires m <= n
    ensures Fib(m) <= Fib(n)
    decreases n - m
  {
    if m == n {
    } else {
      FibMonotone(m + 1, n);
    }
  }

  lemma FibStep(a: nat, b: nat)
    requires -1 <= a - b <= 1
    ensures Fib(a + 2) + Fib(b + 2) >= Fib(1 + Max(a, b) + 2)
  {
  }

  /** A tree of height h holds at least Fib(h + 2) - 1 data, so that every search and every
      climb is logarithmic in the number of data. */
  lemma {:induction false} HeightBound(N: seq<Node>, t: Shape, p: int)
    requires Rep(N, t, p)
    ensures |Elems(t)| >= Fib(Height(t) + 2) - 1
  {
    if t.Leaf? {
    } else {
      HeightBound(N, t.l, t.id);
      HeightBound(N, t.r, t.id);
      FibStep(Height(t.l), Height(t.r));
    }
  }

  ghost function Pow2(n: nat): nat { if n == 0 then 1 else 2 * Pow2(n - 1) }

  lemma {:induction false} FibPow(n: nat)
    requires n >= 2
    ensures Fib(n) >= Pow2((n - 2) / 2)
  {
    if n < 4 {
    } else {
      FibPow(n - 2);
      FibMonotone(n - 2, n - 1);
    }
  }

  /** In powers of two: doubling the height squares the number of data. */
  lemma {:induction false} HeightLogarithmic(N: seq<Node>, t: Shape, p: int)
    requires Rep(N, t, p)
    ensures |Elems(t)| + 1 >= Pow2(Height(t) / 2)
  {
    HeightBound(N, t, p);
    FibPow(Height(t) + 2);
  }
}
