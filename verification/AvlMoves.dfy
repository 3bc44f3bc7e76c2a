/** What the rotations of the AVL tree do to the node pool, link by link, and what that
    means for the shapes the pool holds. */
module AvlMoves {
  import opened AvlShape

  ghost predicate At(N: seq<Node>, i: int) { 0 <= i < |N| }

  ghost predicate Link(N: seq<Node>, i: int) { i == NIL || At(N, i) }

  /** M is N outside the nodes in w. */
  ghost predicate SameBut(N: seq<Node>, M: seq<Node>, w: set<int>) {
    |M| == |N| && forall x :: 0 <= x < |N| && x !in w ==> M[x] == N[x]
  }

  /** Node n with its link to child i led to j instead. */
  ghost function Swing(n: Node, i: int, j: int): Node {
    if n.left == i then n.(left := j) else n.(right := j)
  }

  /** Node i is the root, or exactly one link of its parent leads to it. */
  ghost predicate Hangs(N: seq<Node>, i: int, root: int) {
    At(N, i) && (i != root ==> At(N, N[i].parent) && (N[N[i].parent].left == i) != (N[N[i].parent].right == i))
  }

  /** j has taken the place of i below i's parent, or as the root. */
  ghost predicate Swung(N: seq<Node>, M: seq<Node>, i: int, j: int, root: int, root': int)
    requires Hangs(N, i, root) && |M| == |N|
  {
    if i == root then root' == j else root' == root && M[N[i].parent] == Swing(N[N[i].parent], i, j)
  }

  ghost function Parents(N: seq<Node>, i: int, root: int): set<int>
    requires At(N, i)
  {
    if i == root then {} else {N[i].parent}
  }

  ghost predicate Adopted(N: seq<Node>, M: seq<Node>, b: int, p: int)
    requires |M| == |N|
  {
    b != NIL ==> At(N, b) && M[b] == N[b].(parent := p)
  }

  // ---- a tree seen at one of its nodes ----

  /** A whole tree seen at the root of its subtree s.  The balance factor of that node is
      b; the context has the balance factors that are right when s has height h. */
  ghost predicate Focus(N: seq<Node>, c: Context, s: Shape, b: int, h: int, root: int) {
    && s.Bin? && Base(c) == NIL && root == RootOf(c, s.id)
    && Open(N, s.l, s.id, s.data, s.r, Above(c), b)
    && Rep'(N, c, s.id, h) && Ids(s) !! Ids'(c)
  }

  lemma {:induction false} RootOfIn(c: Context, hole: int)
    ensures c.Frame? ==> RootOf(c, hole) in Ids'(c) && c.id in Ids'(c)
    decreases c
  {
    if c.Top? {
    } else {
      RootOfIn(c.up, c.id);
    }
  }

  lemma RootOfSame(c: Context, i: int, j: int)
    ensures RootOf(c, j) == if c.Top? then j else RootOf(c, i)
  {
  }

  /** Node i hangs at the hole of c, whose balance factors are right for height h there. */
  ghost predicate Hooked(N: seq<Node>, c: Context, i: int, h: int, root: int) {
    && At(N, i) && N[i].parent == Above(c) && i !in Ids'(c)
    && Base(c) == NIL && root == RootOf(c, i) && Rep'(N, c, i, h)
  }

  lemma HookedHangs(N: seq<Node>, c: Context, i: int, h: int, root: int)
    requires Hooked(N, c, i, h, root)
    ensures Hangs(N, i, root) && Parents(N, i, root) == (if c.Frame? then {c.id} else {})
    ensures c.Top? <==> i == root
    ensures c.Frame? ==> N[i].parent == c.id && c.id in Ids'(c)
  {
    RootOfIn(c, i);
    if c.Frame? {
      RootIn(c.sib);
      RepInRange(N, c.sib, c.id);
    }
  }

  /** The context after another node was hung in place of i. */
  lemma HookedSwung(N: seq<Node>, M: seq<Node>, c: Context, i: int, h: int, root: int, j: int, root': int)
    requires Hooked(N, c, i, h, root)
    requires |M| == |N| && Hangs(N, i, root) && Swung(N, M, i, j, root, root')
    requires SameOn(N, M, Ids'(c) - {Above(c)})
    ensures Rep'(M, c, j, h) && root' == RootOf(c, j)
  {
    HookedHangs(N, c, i, h, root);
    Rehole(N, M, c, i, j, h);
    RootOfSame(c, i, j);
  }

  lemma FocusHangs(N: seq<Node>, c: Context, s: Shape, b: int, h: int, root: int)
    requires Focus(N, c, s, b, h, root)
    ensures Hangs(N, s.id, root) && Parents(N, s.id, root) == (if c.Frame? then {c.id} else {})
    ensures c.Top? <==> s.id == root
    ensures c.Frame? ==> N[s.id].parent == c.id && c.id in Ids'(c)
  {
    HookedHangs(N, c, s.id, h, root);
  }

  lemma SwungRep(N: seq<Node>, M: seq<Node>, c: Context, s: Shape, b: int, h: int, root: int, j: int, root': int)
    requires Focus(N, c, s, b, h, root)
    requires |M| == |N| && Hangs(N, s.id, root) && Swung(N, M, s.id, j, root, root')
    requires SameOn(N, M, Ids'(c) - {Above(c)})
    ensures Rep'(M, c, j, h) && root' == RootOf(c, j)
  {
    HookedSwung(N, M, c, s.id, h, root, j, root');
  }

  // ---- left rotation ----

  ghost predicate CanRotateLeft(N: seq<Node>, i: int, root: int) {
    && Hangs(N, i, root) && At(N, N[i].right)
    && var (j, p) := (N[i].right, N[i].parent); var b := N[j].left;
    && Link(N, b) && j != i && b != i && b != j
    && (i != root ==> p != i && p != j && p != b)
  }

  ghost predicate RotatedLeft(N: seq<Node>, M: seq<Node>, i: int, root: int, root': int)
    requires CanRotateLeft(N, i, root)
  {
    var j := N[i].right; var b := N[j].left;
    && SameBut(N, M, {i, j, b} + Parents(N, i, root))
    && M[j] == Node(N[i].parent, i, N[j].right, N[j].data, N[j].balance - 1)
    && M[i] == Node(j, N[i].left, b, N[i].data, 1 - N[j].balance)
    && Adopted(N, M, b, i) && Swung(N, M, i, j, root, root')
  }

  lemma RotateLeftReady(N: seq<Node>, c: Context, s: Shape, b: int, h: int, root: int)
    requires Focus(N, c, s, b, h, root) && s.r.Bin?
    ensures CanRotateLeft(N, s.id, root)
  {
    FocusHangs(N, c, s, b, h, root);
    RootIn(s.r.l);
    RepInRange(N, s.r, s.id);
  }

  lemma RotateLeftTree(N: seq<Node>, M: seq<Node>, c: Context, s: Shape, h: int, root: int, root': int)
    requires Focus(N, c, s, 2, h, root) && s.r.Bin?
    requires Height(s.r) - Height(s.l) == 2 && Height(s.r.r) >= Height(s.r.l)
    requires CanRotateLeft(N, s.id, root) && RotatedLeft(N, M, s.id, root, root')
    ensures Rep(M, RotL(s), Above(c))
  {
    FocusHangs(N, c, s, 2, h, root);
    RootIn(s.r.l);
    RepFrame(N, M, s.l, s.id);
    Reparent(N, M, s.r.l, s.r.id, s.id);
    RepFrame(N, M, s.r.r, s.r.id);
  }

  lemma RotateLeftRep(N: seq<Node>, M: seq<Node>, c: Context, s: Shape, h: int, root: int, root': int)
    requires Focus(N, c, s, 2, h, root) && s.r.Bin?
    requires Height(s.r) - Height(s.l) == 2 && Height(s.r.r) >= Height(s.r.l)
    requires CanRotateLeft(N, s.id, root) && RotatedLeft(N, M, s.id, root, root')
    ensures Rep(M, RotL(s), Above(c)) && Rep'(M, c, s.r.id, h) && root' == RootOf(c, s.r.id)
  {
    RotateLeftTree(N, M, c, s, h, root, root');
    FocusHangs(N, c, s, 2, h, root);
    RootIn(s.r.l);
    SwungRep(N, M, c, s, 2, h, root, s.r.id, root');
  }

  // ---- right rotation ----

  ghost predicate CanRotateRight(N: seq<Node>, i: int, root: int) {
    && Hangs(N, i, root) && At(N, N[i].left)
    && var (j, p) := (N[i].left, N[i].parent); var b := N[j].right;
    && Link(N, b) && j != i && b != i && b != j
    && (i != root ==> p != i && p != j && p != b)
  }

  ghost predicate RotatedRight(N: seq<Node>, M: seq<Node>, i: int, root: int, root': int)
    requires CanRotateRight(N, i, root)
  {
    var j := N[i].left; var b := N[j].right;
    && SameBut(N, M, {i, j, b} + Parents(N, i, root))
    && M[j] == Node(N[i].parent, N[j].left, i, N[j].data, N[j].balance + 1)
    && M[i] == Node(j, b, N[i].right, N[i].data, -1 - N[j].balance)
    && Adopted(N, M, b, i) && Swung(N, M, i, j, root, root')
  }

  lemma RotateRightReady(N: seq<Node>, c: Context, s: Shape, b: int, h: int, root: int)
    requires Focus(N, c, s, b, h, root) && s.l.Bin?
    ensures CanRotateRight(N, s.id, root)
  {
    FocusHangs(N, c, s, b, h, root);
    RootIn(s.l.r);
    RepInRange(N, s.l, s.id);
  }

  lemma RotateRightTree(N: seq<Node>, M: seq<Node>, c: Context, s: Shape, h: int, root: int, root': int)
    requires Focus(N, c, s, -2, h, root) && s.l.Bin?
    requires Height(s.l) - Height(s.r) == 2 && Height(s.l.l) >= Height(s.l.r)
    requires CanRotateRight(N, s.id, root) && RotatedRight(N, M, s.id, root, root')
    ensures Rep(M, RotR(s), Above(c))
  {
    FocusHangs(N, c, s, -2, h, root);
    RootIn(s.l.r);
    RepFrame(N, M, s.r, s.id);
    Reparent(N, M, s.l.r, s.l.id, s.id);
    RepFrame(N, M, s.l.l, s.l.id);
  }

  lemma RotateRightRep(N: seq<Node>, M: seq<Node>, c: Context, s: Shape, h: int, root: int, root': int)
    requires Focus(N, c, s, -2, h, root) && s.l.Bin?
    requires Height(s.l) - Height(s.r) == 2 && Height(s.l.l) >= Height(s.l.r)
    requires CanRotateRight(N, s.id, root) && RotatedRight(N, M, s.id, root, root')
    ensures Rep(M, RotR(s), Above(c)) && Rep'(M, c, s.l.id, h) && root' == RootOf(c, s.l.id)
  {
    RotateRightTree(N, M, c, s, h, root, root');
    FocusHangs(N, c, s, -2, h, root);
    RootIn(s.l.r);
    SwungRep(N, M, c, s, -2, h, root, s.l.id, root');
  }

  // ---- double rotations ----

  ghost predicate CanRotateLeftRight(N: seq<Node>, i: int, root: int) {
    && Hangs(N, i, root) && At(N, N[i].left) && At(N, N[N[i].left].right)
    && var (j, p) := (N[i].left, N[i].parent); var k := N[j].right;
    && var (b, e) := (N[k].left, N[k].right);
    && Link(N, b) && Link(N, e) && i != j && i != k && j != k
    && b !in {i, j, k} && e !in {i, j, k} && (b == e ==> b == NIL)
    && (i != root ==> p !in {i, j, k, b, e})
  }

  ghost predicate RotatedLeftRight(N: seq<Node>, M: seq<Node>, i: int, root: int, root': int)
    requires CanRotateLeftRight(N, i, root)
  {
    var j := N[i].left; var k := N[j].right; var (b, e, x) := (N[k].left, N[k].right, N[k].balance);
    && SameBut(N, M, {i, j, k, b, e} + Parents(N, i, root))
    && M[k] == Node(N[i].parent, j, i, N[k].data, 0)
    && M[i] == Node(k, e, N[i].right, N[i].data, if x == 1 || x == 0 then 0 else 1)
    && M[j] == Node(k, N[j].left, b, N[j].data, if x == 1 then -1 else 0)
    && Adopted(N, M, e, i) && Adopted(N, M, b, j) && Swung(N, M, i, k, root, root')
  }

  /** The same before the balance factors are set. */
  ghost predicate LinkedLeftRight(N: seq<Node>, M: seq<Node>, i: int, root: int, root': int)
    requires CanRotateLeftRight(N, i, root)
  {
    var j := N[i].left; var k := N[j].right; var (b, e) := (N[k].left, N[k].right);
    && SameBut(N, M, {i, j, k, b, e} + Parents(N, i, root))
    && M[k] == Node(N[i].parent, j, i, N[k].data, N[k].balance)
    && M[i] == Node(k, e, N[i].right, N[i].data, N[i].balance)
    && M[j] == Node(k, N[j].left, b, N[j].data, N[j].balance)
    && Adopted(N, M, e, i) && Adopted(N, M, b, j) && Swung(N, M, i, k, root, root')
  }

  lemma RotateLeftRightReady(N: seq<Node>, c: Context, s: Shape, b: int, h: int, root: int)
    requires Focus(N, c, s, b, h, root) && s.l.Bin? && s.l.r.Bin?
    ensures CanRotateLeftRight(N, s.id, root)
  {
    FocusHangs(N, c, s, b, h, root);
    RepOpens(N, s.l, s.id);
    RepOpens(N, s.l.r, s.l.id);
    RootIn(s.l.r.l);
    RootIn(s.l.r.r);
    RepInRange(N, s.l, s.id);
  }

  /** Nodes i and j with subtrees a, b and e, f, joined below k. */
  lemma JoinRep(M: seq<Node>, a: Shape, j: int, dj: int, b: Shape, k: int, dk: int,
                e: Shape, i: int, d: int, f: Shape, p: int)
    requires Open(M, a, j, dj, b, k, Height(b) - Height(a)) && -1 <= Height(b) - Height(a) <= 1
    requires Open(M, e, i, d, f, k, Height(f) - Height(e)) && -1 <= Height(f) - Height(e) <= 1
    requires 0 <= k < |M| && M[k] == Node(p, j, i, dk, 0)
    requires Max(Height(a), Height(b)) == Max(Height(e), Height(f))
    requires (Ids(a) + {j} + Ids(b)) !! (Ids(e) + {i} + Ids(f)) && k !in Ids(a) + {j} + Ids(b) + Ids(e) + {i} + Ids(f)
    ensures Rep(M, Bin(Bin(a, j, dj, b), k, dk, Bin(e, i, d, f)), p)
  {
  }

  lemma FrameOutside(N: seq<Node>, M: seq<Node>, w: set<int>, t: Shape, p: int)
    requires SameBut(N, M, w) && Rep(N, t, p) && Ids(t) !! w
    ensures Rep(M, t, p)
  {
  }

  lemma AdoptOutside(N: seq<Node>, M: seq<Node>, w: set<int>, t: Shape, p: int, q: int)
    requires SameBut(N, M, w) && Rep(N, t, p) && Ids(t) - {Root(t)} !! w && Adopted(N, M, Root(t), q)
    ensures Rep(M, t, q)
  {
    RootIn(t);
    Reparent(N, M, t, p, q);
  }

  lemma RotateLeftRightParts(N: seq<Node>, M: seq<Node>, c: Context, s: Shape, h: int, root: int, root': int)
    requires Focus(N, c, s, -2, h, root) && s.l.Bin? && s.l.r.Bin?
    requires CanRotateLeftRight(N, s.id, root) && RotatedLeftRight(N, M, s.id, root, root')
    ensures Rep(M, s.l.l, s.l.id) && Rep(M, s.l.r.l, s.l.id) && Rep(M, s.l.r.r, s.id) && Rep(M, s.r, s.id)
  {
    FocusHangs(N, c, s, -2, h, root);
    var (j, k) := (s.l, s.l.r);
    RepOpens(N, j, s.id);
    RepOpens(N, k, j.id);
    RootIn(k.l);
    RootIn(k.r);
    RepInRange(N, s.r, s.id);
    RepInRange(N, j, s.id);
    var w := {s.id, j.id, k.id, Root(k.l), Root(k.r)} + Parents(N, s.id, root);
    assert SameBut(N, M, w);
    FrameOutside(N, M, w, s.r, s.id);
    FrameOutside(N, M, w, j.l, j.id);
    AdoptOutside(N, M, w, k.l, k.id, j.id);
    AdoptOutside(N, M, w, k.r, k.id, s.id);
  }

  lemma RotateLeftRightTree(N: seq<Node>, M: seq<Node>, c: Context, s: Shape, h: int, root: int, root': int)
    requires Focus(N, c, s, -2, h, root) && s.l.Bin? && s.l.r.Bin?
    requires Height(s.l) - Height(s.r) == 2 && Height(s.l.l) < Height(s.l.r)
    requires CanRotateLeftRight(N, s.id, root) && RotatedLeftRight(N, M, s.id, root, root')
    ensures Rep(M, RotLR(s), Above(c))
  {
    hide Rep, Rep', Ids, Ids', RootOf, Base;
    RotateLeftRightParts(N, M, c, s, h, root, root');
    var (j, k) := (s.l, s.l.r);
    IdsOpen(j);
    IdsOpen(k);
    RepOpens(N, j, s.id);
    RepOpens(N, k, j.id);
    JoinRep(M, j.l, j.id, j.data, k.l, k.id, k.data, k.r, s.id, s.data, s.r, Above(c));
  }

  lemma RotateLeftRightRep(N: seq<Node>, M: seq<Node>, c: Context, s: Shape, h: int, root: int, root': int)
    requires Focus(N, c, s, -2, h, root) && s.l.Bin? && s.l.r.Bin?
    requires Height(s.l) - Height(s.r) == 2 && Height(s.l.l) < Height(s.l.r)
    requires CanRotateLeftRight(N, s.id, root) && RotatedLeftRight(N, M, s.id, root, root')
    ensures Rep(M, RotLR(s), Above(c)) && Rep'(M, c, s.l.r.id, h) && root' == RootOf(c, s.l.r.id)
  {
    RotateLeftRightTree(N, M, c, s, h, root, root');
    FocusHangs(N, c, s, -2, h, root);
    RootIn(s.l.r.l);
    RootIn(s.l.r.r);
    SwungRep(N, M, c, s, -2, h, root, s.l.r.id, root');
  }

  ghost predicate CanRotateRightLeft(N: seq<Node>, i: int, root: int) {
    && Hangs(N, i, root) && At(N, N[i].right) && At(N, N[N[i].right].left)
    && var (j, p) := (N[i].right, N[i].parent); var k := N[j].left;
    && var (b, e) := (N[k].left, N[k].right);
    && Link(N, b) && Link(N, e) && i != j && i != k && j != k
    && b !in {i, j, k} && e !in {i, j, k} && (b == e ==> b == NIL)
    && (i != root ==> p !in {i, j, k, b, e})
  }

  ghost predicate RotatedRightLeft(N: seq<Node>, M: seq<Node>, i: int, root: int, root': int)
    requires CanRotateRightLeft(N, i, root)
  {
    var j := N[i].right; var k := N[j].left; var (b, e, x) := (N[k].left, N[k].right, N[k].balance);
    && SameBut(N, M, {i, j, k, b, e} + Parents(N, i, root))
    && M[k] == Node(N[i].parent, i, j, N[k].data, 0)
    && M[i] == Node(k, N[i].left, b, N[i].data, if x == -1 || x == 0 then 0 else -1)
    && M[j] == Node(k, e, N[j].right, N[j].data, if x == -1 then 1 else 0)
    && Adopted(N, M, b, i) && Adopted(N, M, e, j) && Swung(N, M, i, k, root, root')
  }

  ghost predicate LinkedRightLeft(N: seq<Node>, M: seq<Node>, i: int, root: int, root': int)
    requires CanRotateRightLeft(N, i, root)
  {
    var j := N[i].right; var k := N[j].left; var (b, e) := (N[k].left, N[k].right);
    && SameBut(N, M, {i, j, k, b, e} + Parents(N, i, root))
    && M[k] == Node(N[i].parent, i, j, N[k].data, N[k].balance)
    && M[i] == Node(k, N[i].left, b, N[i].data, N[i].balance)
    && M[j] == Node(k, e, N[j].right, N[j].data, N[j].balance)
    && Adopted(N, M, b, i) && Adopted(N, M, e, j) && Swung(N, M, i, k, root, root')
  }

  lemma RotateRightLeftReady(N: seq<Node>, c: Context, s: Shape, b: int, h: int, root: int)
    requires Focus(N, c, s, b, h, root) && s.r.Bin? && s.r.l.Bin?
    ensures CanRotateRightLeft(N, s.id, root)
  {
    FocusHangs(N, c, s, b, h, root);
    RepOpens(N, s.r, s.id);
    RepOpens(N, s.r.l, s.r.id);
    RootIn(s.r.l.l);
    RootIn(s.r.l.r);
    RepInRange(N, s.r, s.id);
  }

  lemma RotateRightLeftParts(N: seq<Node>, M: seq<Node>, c: Context, s: Shape, h: int, root: int, root': int)
    requires Focus(N, c, s, 2, h, root) && s.r.Bin? && s.r.l.Bin?
    requires CanRotateRightLeft(N, s.id, root) && RotatedRightLeft(N, M, s.id, root, root')
    ensures Rep(M, s.l, s.id) && Rep(M, s.r.l.l, s.id) && Rep(M, s.r.l.r, s.r.id) && Rep(M, s.r.r, s.r.id)
  {
    FocusHangs(N, c, s, 2, h, root);
    var (j, k) := (s.r, s.r.l);
    RepOpens(N, j, s.id);
    RepOpens(N, k, j.id);
    RootIn(k.l);
    RootIn(k.r);
    RepInRange(N, s.l, s.id);
    RepInRange(N, j, s.id);
    var w := {s.id, j.id, k.id, Root(k.l), Root(k.r)} + Parents(N, s.id, root);
    assert SameBut(N, M, w);
    FrameOutside(N, M, w, s.l, s.id);
    FrameOutside(N, M, w, j.r, j.id);
    AdoptOutside(N, M, w, k.l, k.id, s.id);
    AdoptOutside(N, M, w, k.r, k.id, j.id);
  }

  lemma RotateRightLeftTree(N: seq<Node>, M: seq<Node>, c: Context, s: Shape, h: int, root: int, root': int)
    requires Focus(N, c, s, 2, h, root) && s.r.Bin? && s.r.l.Bin?
    requires Height(s.r) - Height(s.l) == 2 && Height(s.r.r) < Height(s.r.l)
    requires CanRotateRightLeft(N, s.id, root) && RotatedRightLeft(N, M, s.id, root, root')
    ensures Rep(M, RotRL(s), Above(c))
  {
    hide Rep, Rep', Ids, Ids', RootOf, Base;
    RotateRightLeftParts(N, M, c, s, h, root, root');
    var (j, k) := (s.r, s.r.l);
    IdsOpen(j);
    IdsOpen(k);
    RepOpens(N, j, s.id);
    RepOpens(N, k, j.id);
    JoinRep(M, s.l, s.id, s.data, k.l, k.id, k.data, k.r, j.id, j.data, j.r, Above(c));
  }

  lemma RotateRightLeftRep(N: seq<Node>, M: seq<Node>, c: Context, s: Shape, h: int, root: int, root': int)
    requires Focus(N, c, s, 2, h, root) && s.r.Bin? && s.r.l.Bin?
    requires Height(s.r) - Height(s.l) == 2 && Height(s.r.r) < Height(s.r.l)
    requires CanRotateRightLeft(N, s.id, root) && RotatedRightLeft(N, M, s.id, root, root')
    ensures Rep(M, RotRL(s), Above(c)) && Rep'(M, c, s.r.l.id, h) && root' == RootOf(c, s.r.l.id)
  {
    RotateRightLeftTree(N, M, c, s, h, root, root');
    FocusHangs(N, c, s, 2, h, root);
    RootIn(s.r.l.l);
    RootIn(s.r.l.r);
    SwungRep(N, M, c, s, 2, h, root, s.r.l.id, root');
  }

  // ---- rebalancing, one step of the climb at a time ----

  /** The subtree t is well formed, but the nodes above it have balance factors that are
      right for height h in its place. */
  ghost predicate Lagging(N: seq<Node>, c: Context, t: Shape, h: int, root: int) {
    && Base(c) == NIL && root == RootOf(c, Root(t))
    && Rep(N, t, Above(c)) && Rep'(N, c, Root(t), h) && Ids(t) !! Ids'(c)
  }

  /** The correction that the node above the hole needs. */
  ghost function Delta(c: Context, grown: int): int
    requires c.Frame?
  {
    if c.left then -grown else grown
  }

  lemma Settled(N: seq<Node>, c: Context, t: Shape, root: int)
    requires Lagging(N, c, t, Height(t), root)
    ensures Rep(N, Plug(c, t), NIL) && root == Root(Plug(c, t))
  {
    PlugRep(N, c, t);
    PlugIds(c, t);
  }

  /** Correcting the balance factor of the node above moves the lag one level up. */
  lemma ClimbStep(N: seq<Node>, M: seq<Node>, c: Context, t: Shape, h: int, root: int)
    requires Lagging(N, c, t, h, root) && c.Frame?
    requires SameBut(N, M, {c.id})
    requires M[c.id] == N[c.id].(balance := N[c.id].balance + Delta(c, Height(t) - h))
    ensures var f := Fill(c, t);
            Focus(M, c.up, f, Height(f.r) - Height(f.l), 1 + Max(h, Height(c.sib)), root)
    ensures M[c.id].balance == if c.left then Height(c.sib) - Height(t) else Height(t) - Height(c.sib)
  {
    hide Rep, Rep', Ids, Ids', RootOf, Base;
    FrameFacts(N, c, Root(t), h);
    RepFrame(N, M, t, c.id);
    RepFrame(N, M, c.sib, c.id);
    RepFrame'(N, M, c.up, c.id, 1 + Max(h, Height(c.sib)));
    FillIds(c, t);
    ContextIds(c);
  }

  lemma FocusLags(N: seq<Node>, c: Context, s: Shape, h: int, root: int)
    requires s.Bin? && Focus(N, c, s, Height(s.r) - Height(s.l), h, root) && -1 <= Height(s.r) - Height(s.l) <= 1
    ensures Lagging(N, c, s, h, root)
  {
  }

  /** Which side the climb comes from, as the code finds out. */
  lemma SideOf(N: seq<Node>, c: Context, t: Shape, h: int, root: int)
    requires Lagging(N, c, t, h, root) && c.Frame? && t.Bin?
    ensures At(N, c.id) && (N[c.id].left == t.id <==> c.left)
  {
  }

  /** Where the climb goes on from the root of t, or that it is over. */
  lemma AboveOf(N: seq<Node>, c: Context, t: Shape, h: int, root: int)
    requires Lagging(N, c, t, h, root)
    ensures t.Bin? ==> At(N, t.id) && N[t.id].parent == Above(c)
    ensures c.Frame? ==> At(N, Above(c)) && Plug(c, t) == Plug(c.up, Fill(c, t))
    ensures c.Frame? ==> Fill(c, t).Bin? && Fill(c, t).id == c.id
    ensures c.Top? ==> Above(c) == NIL && Rep(N, t, NIL) && root == Root(t) && Plug(c, t) == t
  {
  }

  lemma RearrangedSelf(t: Shape)
    ensures Rearranged(t, t)
  {
  }

  /** The climb of an insertion: t has grown by one, node is above it, and balance is the
      correction due there. */
  ghost predicate Growing(N: seq<Node>, c: Context, t: Shape, root: int, node: int, balance: int) {
    && t.Bin? && Lagging(N, c, t, Height(t) - 1, root)
    && At(N, t.id) && (Height(t) == 1 || N[t.id].balance != 0)
    && node == Above(c)
    && (if c.Top? then node == NIL else At(N, node) && balance == Delta(c, 1))
  }

  lemma LagFacts(N: seq<Node>, c: Context, t: Shape, h: int, root: int)
    requires Lagging(N, c, t, h, root) && c.Frame?
    ensures At(N, c.id) && -1 <= h - Height(c.sib) <= 1
    ensures t.Bin? ==> At(N, t.id) && t.id != c.id
  {
  }

  ghost predicate LeftHeavy(s: Shape) { s.Bin? && s.l.Bin? && Height(s.l) == Height(s.r) + 2 }

  ghost predicate RightHeavy(s: Shape) { s.Bin? && s.r.Bin? && Height(s.r) == Height(s.l) + 2 }

  /** The three outcomes of one step of the insertion climb. */
  lemma ClimbInsert(N: seq<Node>, M: seq<Node>, c: Context, t: Shape, root: int)
    requires c.Frame? && Growing(N, c, t, root, c.id, Delta(c, 1))
    requires SameBut(N, M, {c.id})
    requires M[c.id] == N[c.id].(balance := N[c.id].balance + Delta(c, 1))
    ensures Plug(c, t) == Plug(c.up, Fill(c, t)) && Fill(c, t).Bin? && Fill(c, t).id == c.id
    ensures var f := Fill(c, t); var b := M[c.id].balance;
      if b == 0 then Rep(M, Plug(c, t), NIL) && root == Root(Plug(c, t))
      else if -1 <= b <= 1 then Lagging(M, c.up, f, Height(f) - 1, root)
      else Focus(M, c.up, f, b, Height(f) - 1, root) &&
           ((b == -2 && LeftHeavy(f) && At(M, f.l.id) && M[f.l.id].balance != 0) ||
            (b == 2 && RightHeavy(f) && At(M, f.r.id) && M[f.r.id].balance != 0))
  {
    hide Rep, Rep', Plug, Elems, Pairs, Ids, Ids', RootOf, Base, Focus, Lagging;
    var f, h := Fill(c, t), Height(t) - 1;
    LagFacts(N, c, t, h, root);
    ClimbStep(N, M, c, t, h, root);
    AboveOf(N, c, t, h, root);
    var b := Height(f.r) - Height(f.l);
    assert Height(f) == 1 + Max(Height(f.l), Height(f.r));
    if -1 <= b <= 1 {
      FocusLags(M, c.up, f, 1 + Max(h, Height(c.sib)), root);
      if b == 0 { Settled(M, c.up, f, root); }
    }
  }

  /** The climb of a deletion: t has shrunk by one.  Either node is above it and balance is
      the correction due there, or (`entry`) the climb is about to look at t's own root. */
  ghost predicate Shrinking(N: seq<Node>, c: Context, t: Shape, root: int, node: int, balance: int, entry: bool) {
    && Lagging(N, c, t, Height(t) + 1, root)
    && if entry then t.Bin? && node == t.id && At(N, node) && N[node].balance == 0 && balance == 0 && node != NIL
       else node == Above(c) && if c.Top? then node == NIL else At(N, node) && balance == Delta(c, -1)
  }

  lemma FocusOpens(N: seq<Node>, c: Context, s: Shape, b: int, h: int, root: int)
    requires Focus(N, c, s, b, h, root)
    ensures At(N, s.id) && N[s.id] == Node(Above(c), Root(s.l), Root(s.r), s.data, b)
    ensures s.l.Bin? ==> At(N, s.l.id) && -1 <= N[s.l.id].balance <= 1
    ensures s.r.Bin? ==> At(N, s.r.id) && -1 <= N[s.r.id].balance <= 1
  {
  }

  /** The three outcomes of one step of the deletion climb. */
  lemma ClimbDelete(N: seq<Node>, M: seq<Node>, c: Context, t: Shape, root: int)
    requires c.Frame? && Shrinking(N, c, t, root, c.id, Delta(c, -1), false)
    requires SameBut(N, M, {c.id})
    requires M[c.id] == N[c.id].(balance := N[c.id].balance + Delta(c, -1))
    ensures Plug(c, t) == Plug(c.up, Fill(c, t)) && Fill(c, t).Bin? && Fill(c, t).id == c.id
    ensures var f := Fill(c, t); var b := M[c.id].balance;
      if b == 0 then Lagging(M, c.up, f, Height(f) + 1, root)
      else if -1 <= b <= 1 then Rep(M, Plug(c, t), NIL) && root == Root(Plug(c, t))
      else Focus(M, c.up, f, b, Height(f), root) &&
           ((b == -2 && LeftHeavy(f) && At(M, f.l.id)) || (b == 2 && RightHeavy(f) && At(M, f.r.id)))
  {
    hide Rep, Rep', Plug, Elems, Pairs, Ids, Ids', RootOf, Base, Lagging;
    var f, h := Fill(c, t), Height(t) + 1;
    LagFacts(N, c, t, h, root);
    ClimbStep(N, M, c, t, h, root);
    AboveOf(N, c, t, h, root);
    var b := Height(f.r) - Height(f.l);
    assert Height(f) == 1 + Max(Height(f.l), Height(f.r));
    if -1 <= b <= 1 {
      FocusLags(M, c.up, f, 1 + Max(h, Height(c.sib)), root);
      if b != 0 { Settled(M, c.up, f, root); }
    } else {
      FocusOpens(M, c.up, f, b, 1 + Max(h, Height(c.sib)), root);
    }
  }

  lemma SingleHeights(s: Shape)
    requires s.Bin?
    ensures s.l.Bin? && Height(s.l) == Height(s.r) + 2 && Height(s.l.r) <= Height(s.l.l) <= Height(s.l.r) + 1 ==>
              Height(RotR(s)) == Height(s) - (if Height(s.l.l) == Height(s.l.r) then 0 else 1)
    ensures s.r.Bin? && Height(s.r) == Height(s.l) + 2 && Height(s.r.l) <= Height(s.r.r) <= Height(s.r.l) + 1 ==>
              Height(RotL(s)) == Height(s) - (if Height(s.r.l) == Height(s.r.r) then 0 else 1)
  {
  }

  lemma DoubleHeights(s: Shape)
    requires s.Bin?
    ensures s.l.Bin? && s.l.r.Bin? && Height(s.l) == Height(s.r) + 2 && Height(s.l.r) == Height(s.l.l) + 1
            && -1 <= Height(s.l.r.r) - Height(s.l.r.l) <= 1 ==>
              Height(RotLR(s)) == Height(s) - 1
    ensures s.r.Bin? && s.r.l.Bin? && Height(s.r) == Height(s.l) + 2 && Height(s.r.l) == Height(s.r.r) + 1
            && -1 <= Height(s.r.l.r) - Height(s.r.l.l) <= 1 ==>
              Height(RotRL(s)) == Height(s) - 1
  {
    if s.l.Bin? && s.l.r.Bin? { assert Height(s.l.r) == 1 + Max(Height(s.l.r.l), Height(s.l.r.r)); }
    if s.r.Bin? && s.r.l.Bin? { assert Height(s.r.l) == 1 + Max(Height(s.r.l.l), Height(s.r.l.r)); }
  }

  lemma RightRotated(N: seq<Node>, M: seq<Node>, c: Context, s: Shape, h: int, root: int, root': int)
    requires LeftHeavy(s) && Focus(N, c, s, -2, h, root) && N[s.l.id].balance <= 0
    requires CanRotateRight(N, s.id, root) && RotatedRight(N, M, s.id, root, root')
    ensures Lagging(M, c, RotR(s), h, root') && Rearranged(Plug(c, s), Plug(c, RotR(s)))
    ensures Height(RotR(s)) == Height(s) - (if N[s.l.id].balance == 0 then 0 else 1)
    ensures M[s.l.id].balance == N[s.l.id].balance + 1 && RotR(s).Bin? && RotR(s).id == s.l.id
  {
    RepOpens(N, s.l, s.id);
    RotateRightRep(N, M, c, s, h, root, root');
    SingleHeights(s);
    RotRKeeps(s);
    PlugRearranged(c, s, RotR(s));
  }

  lemma LeftRotated(N: seq<Node>, M: seq<Node>, c: Context, s: Shape, h: int, root: int, root': int)
    requires RightHeavy(s) && Focus(N, c, s, 2, h, root) && N[s.r.id].balance >= 0
    requires CanRotateLeft(N, s.id, root) && RotatedLeft(N, M, s.id, root, root')
    ensures Lagging(M, c, RotL(s), h, root') && Rearranged(Plug(c, s), Plug(c, RotL(s)))
    ensures Height(RotL(s)) == Height(s) - (if N[s.r.id].balance == 0 then 0 else 1)
    ensures M[s.r.id].balance == N[s.r.id].balance - 1 && RotL(s).Bin? && RotL(s).id == s.r.id
  {
    RepOpens(N, s.r, s.id);
    RotateLeftRep(N, M, c, s, h, root, root');
    SingleHeights(s);
    RotLKeeps(s);
    PlugRearranged(c, s, RotL(s));
  }

  lemma LeftRightReady(N: seq<Node>, c: Context, s: Shape, h: int, root: int)
    requires LeftHeavy(s) && Focus(N, c, s, -2, h, root) && N[s.l.id].balance > 0
    ensures s.l.r.Bin? && CanRotateLeftRight(N, s.id, root) && At(N, s.l.id) && N[s.l.id].right == s.l.r.id
  {
    RepOpens(N, s.l, s.id);
    RotateLeftRightReady(N, c, s, -2, h, root);
  }

  lemma LeftRightRotated(N: seq<Node>, M: seq<Node>, c: Context, s: Shape, h: int, root: int, root': int)
    requires LeftHeavy(s) && Focus(N, c, s, -2, h, root) && N[s.l.id].balance > 0 && s.l.r.Bin?
    requires CanRotateLeftRight(N, s.id, root) && RotatedLeftRight(N, M, s.id, root, root')
    ensures Lagging(M, c, RotLR(s), h, root') && Rearranged(Plug(c, s), Plug(c, RotLR(s)))
    ensures Height(RotLR(s)) == Height(s) - 1 && RotLR(s).Bin? && RotLR(s).id == s.l.r.id
  {
    RepOpens(N, s.l, s.id);
    RepOpens(N, s.l.r, s.l.id);
    RotateLeftRightRep(N, M, c, s, h, root, root');
    DoubleHeights(s);
    RotLRKeeps(s);
    PlugRearranged(c, s, RotLR(s));
  }

  lemma RightLeftReady(N: seq<Node>, c: Context, s: Shape, h: int, root: int)
    requires RightHeavy(s) && Focus(N, c, s, 2, h, root) && N[s.r.id].balance < 0
    ensures s.r.l.Bin? && CanRotateRightLeft(N, s.id, root) && At(N, s.r.id) && N[s.r.id].left == s.r.l.id
  {
    RepOpens(N, s.r, s.id);
    RotateRightLeftReady(N, c, s, 2, h, root);
  }

  lemma RightLeftRotated(N: seq<Node>, M: seq<Node>, c: Context, s: Shape, h: int, root: int, root': int)
    requires RightHeavy(s) && Focus(N, c, s, 2, h, root) && N[s.r.id].balance < 0 && s.r.l.Bin?
    requires CanRotateRightLeft(N, s.id, root) && RotatedRightLeft(N, M, s.id, root, root')
    ensures Lagging(M, c, RotRL(s), h, root') && Rearranged(Plug(c, s), Plug(c, RotRL(s)))
    ensures Height(RotRL(s)) == Height(s) - 1 && RotRL(s).Bin? && RotRL(s).id == s.r.l.id
  {
    RepOpens(N, s.r, s.id);
    RepOpens(N, s.r.l, s.r.id);
    RotateRightLeftRep(N, M, c, s, h, root, root');
    DoubleHeights(s);
    RotRLKeeps(s);
    PlugRearranged(c, s, RotRL(s));
  }
}
