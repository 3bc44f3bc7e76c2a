/** Taking one datum out of the AVL tree, given the node that holds it: the four structural
    cases, each up to the point where the climb that rebalances starts. */
module AvlDelete {
  import opened AvlShape
  import opened AvlMoves
  import opened AvlOrder
  import opened Descriptors
  import opened Sequences

  /** u is t without datum d, which node i held.  The node `gone`, which held e, is no
      longer used; when it is not i itself, its datum moved to i. */
  ghost predicate Deleted(t: Shape, u: Shape, i: int, gone: int, d: int, e: int, at: nat) {
    && at < |Elems(t)| && Elems(t)[at] == d && Elems(u) == Without(Elems(t), at)
    && gone in Ids(t) && Ids(u) == Ids(t) - {gone}
    && (gone, e) in Pairs(t) && Pairs(u) <= Pairs(t) + {(i, e)} && (gone == i ==> e == d)
  }

  lemma DeletedRearranged(t: Shape, u: Shape, v: Shape, i: int, gone: int, d: int, e: int, at: nat)
    requires Deleted(t, u, i, gone, d, e, at) && Rearranged(u, v)
    ensures Deleted(t, v, i, gone, d, e, at)
  {
  }

  lemma WithoutMiddle(a: seq<int>, d: int, b: seq<int>)
    ensures (a + [d] + b)[|a|] == d && Without(a + [d] + b, |a|) == a + b
  {
  }

  /** The node i of a tree, with everything the code reads there. */
  lemma Located(N: seq<Node>, t: Shape, root: int, i: int) returns (c: Context, s: Shape)
    requires Rep(N, t, NIL) && root == Root(t) && i in Ids(t)
    ensures Plug(c, s) == t && Base(c) == NIL && s.Bin? && s.id == i && t.Bin?
    ensures At(N, i) && N[i] == Node(Above(c), Root(s.l), Root(s.r), s.data, Height(s.r) - Height(s.l))
    ensures (s.l.Bin? ==> s.l.id != NIL) && (s.r.Bin? ==> s.r.id != NIL)
  {
    c, s := Zip(Top(NIL), t, i);
    FocusOn(N, c, s, root);
  }

  // ---- a leaf ----

  lemma DetachLeaf(N: seq<Node>, M: seq<Node>, c: Context, s: Shape, root: int)
    requires s.Bin? && s == Bin(Leaf, s.id, s.data, Leaf) && c.Frame? && Focus(N, c, s, 0, 1, root)
    requires At(N, c.id) && SameBut(N, M, {c.id})
    requires M[c.id] == if c.left then N[c.id].(left := NIL) else N[c.id].(right := NIL)
    ensures Shrinking(M, c, Leaf, root, c.id, Delta(c, -1), false)
  {
    Rehole(N, M, c, s.id, NIL, 1);
    RootOfSame(c, s.id, NIL);
  }

  lemma LeafSets(i: int, d: int)
    ensures var t := Bin(Leaf, i, d, Leaf); Elems(t) == [d] && Pairs(t) == {(i, d)} && Ids(t) == {i}
  {
  }

  lemma DetachedLeaf(c: Context, i: int, d: int)
    requires i !in Ids'(c)
    ensures Deleted(Plug(c, Bin(Leaf, i, d, Leaf)), Plug(c, Leaf), i, i, d, d, |Before(c)|)
  {
    hide Plug, Before, After, Without, Pairs', Ids';
    var s := Bin(Leaf, i, d, Leaf);
    PlugElems(c, s);
    PlugElems(c, Leaf);
    PlugIds(c, s);
    PlugIds(c, Leaf);
    LeafSets(i, d);
    WithoutMiddle(Before(c), d, After(c));
    assert Before(c) + [] == Before(c);
  }

  lemma LeafFacts(N: seq<Node>, c: Context, s: Shape, root: int)
    requires Rep(N, Plug(c, s), NIL) && Base(c) == NIL && root == Root(Plug(c, s))
    requires s.Bin? && s.l == Leaf && s.r == Leaf
    ensures Focus(N, c, s, 0, 1, root) && At(N, s.id) && (c.Top? <==> s.id == root)
    ensures c.Frame? ==> N[s.id].parent == c.id && At(N, c.id) && (N[c.id].left == s.id <==> c.left)
    ensures c.Top? ==> Plug(c, Leaf) == Leaf
    ensures Deleted(Plug(c, s), Plug(c, Leaf), s.id, s.id, s.data, s.data, |Before(c)|)
    ensures Rep(N, Leaf, NIL)
  {
    FocusOn(N, c, s, root);
    FocusHangs(N, c, s, 0, 1, root);
    DetachedLeaf(c, s.id, s.data);
    if c.Frame? { SideOf(N, c, s, 1, root); }
  }

  // ---- a node with one child ----

  /** An only child is a leaf. */
  lemma OnlyChild(N: seq<Node>, t: Shape, p: int)
    requires Rep(N, t, p) && Height(t) <= 1
    ensures t.Bin? ==> t == Bin(Leaf, t.id, t.data, Leaf)
  {
  }

  lemma CopyChild(N: seq<Node>, M: seq<Node>, c: Context, s: Shape, b: int, e: int, root: int)
    requires s.Bin? && Height(s) == 2 && Focus(N, c, s, b, 2, root)
    requires SameBut(N, M, {s.id}) && M[s.id] == Node(Above(c), NIL, NIL, e, 0)
    ensures Shrinking(M, c, Bin(Leaf, s.id, e, Leaf), root, s.id, 0, true)
  {
    var u := Bin(Leaf, s.id, e, Leaf);
    RepFrame'(N, M, c, s.id, 2);
    LeafSets(s.id, e);
    assert Rep(M, u, Above(c)) && Ids(u) == {s.id} && s.id in Ids(s) && Height(u) == 1;
  }

  lemma WithoutPair(a: seq<int>, d: int, e: int, z: seq<int>)
    ensures (a + [e, d] + z)[|a| + 1] == d && Without(a + [e, d] + z, |a| + 1) == a + [e] + z
    ensures (a + [d, e] + z)[|a|] == d && Without(a + [d, e] + z, |a|) == a + [e] + z
  {
  }

  lemma PairElems(s: Shape, j: int, e: int)
    requires s.Bin?
    ensures s.l == Bin(Leaf, j, e, Leaf) && s.r == Leaf ==>
            Elems(s) == [e, s.data] && Pairs(s) == {(s.id, s.data), (j, e)} && Ids(s) == {s.id, j}
    ensures s.r == Bin(Leaf, j, e, Leaf) && s.l == Leaf ==>
            Elems(s) == [s.data, e] && Pairs(s) == {(s.id, s.data), (j, e)} && Ids(s) == {s.id, j}
  {
  }

  lemma CopiedSets(c: Context, s: Shape, j: int, e: int)
    requires s.Bin? && ((s.l == Bin(Leaf, j, e, Leaf) && s.r == Leaf) || (s.r == Bin(Leaf, j, e, Leaf) && s.l == Leaf))
    requires j != s.id && j !in Ids'(c) && s.id !in Ids'(c)
    ensures var (t, u) := (Plug(c, s), Plug(c, Bin(Leaf, s.id, e, Leaf)));
            && j in Ids(t) && Ids(u) == Ids(t) - {j}
            && (j, e) in Pairs(t) && (s.id, e) in Pairs(u) && Pairs(u) <= Pairs(t) + {(s.id, e)}
  {
    hide Plug, Pairs, Ids, Ids', Pairs', Elems;
    var u := Bin(Leaf, s.id, e, Leaf);
    PairElems(s, j, e);
    LeafSets(s.id, e);
    PlugIds(c, s);
    PlugIds(c, u);
  }

  lemma CopiedChild(c: Context, s: Shape, j: int, e: int)
    requires s.Bin? && ((s.l == Bin(Leaf, j, e, Leaf) && s.r == Leaf) || (s.r == Bin(Leaf, j, e, Leaf) && s.l == Leaf))
    requires j != s.id && j !in Ids'(c) && s.id !in Ids'(c)
    ensures Deleted(Plug(c, s), Plug(c, Bin(Leaf, s.id, e, Leaf)), s.id, j, s.data, e,
                    |Before(c)| + if s.l.Bin? then 1 else 0)
    ensures (s.id, e) in Pairs(Plug(c, Bin(Leaf, s.id, e, Leaf)))
  {
    hide Plug, Before, After, Without, Elems, Pairs, Ids, Ids', Pairs';
    var u := Bin(Leaf, s.id, e, Leaf);
    PairElems(s, j, e);
    LeafSets(s.id, e);
    CopiedSets(c, s, j, e);
    PlugElems(c, s);
    PlugElems(c, u);
    WithoutPair(Before(c), s.data, e, After(c));
  }

  /** What CutByChild finds at the node s.id and its only child. */
  lemma ChildFacts(N: seq<Node>, c: Context, s: Shape, child: int, root: int) returns (e: int)
    requires Rep(N, Plug(c, s), NIL) && Base(c) == NIL && root == Root(Plug(c, s)) && s.Bin? && child != NIL
    requires (s.l == Leaf && child == Root(s.r)) || (s.r == Leaf && child == Root(s.l))
    ensures (s.l == Bin(Leaf, child, e, Leaf) && s.r == Leaf) || (s.r == Bin(Leaf, child, e, Leaf) && s.l == Leaf)
    ensures At(N, child) && N[child] == Node(s.id, NIL, NIL, e, 0) && child != s.id
    ensures At(N, s.id) && N[s.id].parent == Above(c) && N[s.id].data == s.data && Height(s) == 2
    ensures Focus(N, c, s, N[s.id].balance, 2, root) && s.id !in Ids'(c) && child !in Ids'(c)
    ensures (child, e) in Pairs(Plug(c, s)) && (s.id, s.data) in Pairs(Plug(c, s))
  {
    FocusOn(N, c, s, root);
    OnlyChild(N, s.l, s.id);
    OnlyChild(N, s.r, s.id);
    PlugIds(c, s);
    e := if s.l.Bin? then s.l.data else s.r.data;
  }

  // ---- a node with two children: its successor takes its place ----

  /** cc goes down from base along left links only. */
  ghost predicate Spine(cc: Context, base: Context) {
    cc == base || (cc.Frame? && cc.left && Spine(cc.up, base))
  }

  /** cc with base' in place of base. */
  ghost function Subst(cc: Context, base: Context, base': Context): Context {
    if cc == base then base' else if cc.Frame? then cc.(up := Subst(cc.up, base, base')) else cc
  }

  /** The node and the height just below base when cc's hole has the given ones. */
  ghost function SpineRoot(cc: Context, base: Context, hole: int): int {
    if cc == base || cc.Top? then hole else SpineRoot(cc.up, base, cc.id)
  }

  ghost function SpineHeight(cc: Context, base: Context, h: int): int {
    if cc == base || cc.Top? then h else SpineHeight(cc.up, base, 1 + Max(h, Height(cc.sib)))
  }

  ghost function SpineIds(cc: Context, base: Context): set<int> {
    if cc == base || cc.Top? then {} else SpineIds(cc.up, base) + {cc.id} + Ids(cc.sib)
  }

  lemma {:induction false} SpineBase(N: seq<Node>, cc: Context, base: Context, hole: int, h: int)
    requires Spine(cc, base) && Rep'(N, cc, hole, h)
    ensures Rep'(N, base, SpineRoot(cc, base, hole), SpineHeight(cc, base, h))
    ensures Ids'(cc) == SpineIds(cc, base) + Ids'(base) && SpineIds(cc, base) !! Ids'(base)
    ensures Base(cc) == Base(base) && RootOf(cc, hole) == RootOf(base, SpineRoot(cc, base, hole))
    decreases cc
  {
    if cc == base {
    } else {
      SpineBase(N, cc.up, base, cc.id, 1 + Max(h, Height(cc.sib)));
    }
  }

  lemma {:induction false} SpineSubst(cc: Context, base: Context, base': Context, hole: int)
    requires Spine(cc, base)
    ensures Ids'(Subst(cc, base, base')) == SpineIds(cc, base) + Ids'(base')
    ensures Base(Subst(cc, base, base')) == Base(base')
    ensures RootOf(Subst(cc, base, base'), hole) == RootOf(base', SpineRoot(cc, base, hole))
    ensures cc != base ==> SpineRoot(cc, base, hole) in SpineIds(cc, base)
    decreases cc
  {
    if cc == base {
    } else {
      SpineSubst(cc.up, base, base', cc.id);
    }
  }

  lemma SpineStep(N: seq<Node>, M: seq<Node>, cc: Context, up: Context, hole: int, h: int)
    requires cc.Frame? && Rep'(N, cc, hole, h) && |M| == |N|
    requires M[cc.id] == N[cc.id].(parent := Above(up)) && SameOn(N, M, Ids(cc.sib))
    requires Rep'(M, up, cc.id, 1 + Max(h, Height(cc.sib)))
    requires cc.id !in Ids'(up) && Ids(cc.sib) !! Ids'(up)
    ensures Rep'(M, cc.(up := up), hole, h)
  {
    RepFrame(N, M, cc.sib, cc.id);
  }

  /** The spine when base was replaced by base', and its topmost node got its new parent. */
  lemma {:induction false} SpineRep(N: seq<Node>, M: seq<Node>, cc: Context, base: Context, base': Context, hole: int,
                                    h: int)
    requires Spine(cc, base) && Rep'(N, cc, hole, h) && |M| == |N|
    requires Rep'(M, base', SpineRoot(cc, base, hole), SpineHeight(cc, base, h))
    requires SameOn(N, M, SpineIds(cc, base) - {SpineRoot(cc, base, hole)})
    requires cc != base ==> var r := SpineRoot(cc, base, hole); At(N, r) && M[r] == N[r].(parent := Above(base'))
    requires SpineIds(cc, base) !! Ids'(base')
    ensures Rep'(M, Subst(cc, base, base'), hole, h)
    decreases cc
  {
    if cc == base {
    } else {
      var h' := 1 + Max(h, Height(cc.sib));
      FrameFacts(N, cc, hole, h);
      SpineBase(N, cc.up, base, cc.id, h');
      SpineSubst(cc.up, base, base', cc.id);
      hide Rep, Rep', Ids, Ids', Height;
      SpineRep(N, M, cc.up, base, base', cc.id, h');
      SpineStep(N, M, cc, Subst(cc.up, base, base'), hole, h);
    }
  }

  /** What deletion by successor does to the pool: q takes over i's place, with the left
      subtree of i and the right subtree r. */
  ghost predicate CanPromote(N: seq<Node>, i: int, q: int, root: int) {
    && Hangs(N, i, root) && At(N, q) && At(N, N[i].left) && q != i
    && N[i].left != q && N[i].left != i
    && (i != root ==> N[i].parent !in {i, q, N[i].left})
  }

  ghost predicate PromotedNear(N: seq<Node>, M: seq<Node>, i: int, q: int, root: int, root': int)
    requires CanPromote(N, i, q, root)
  {
    && SameBut(N, M, {q, N[i].left} + Parents(N, i, root))
    && M[q] == Node(N[i].parent, N[i].left, N[q].right, N[q].data, N[i].balance)
    && Adopted(N, M, N[i].left, q) && Swung(N, M, i, q, root, root')
  }

  ghost predicate CanPromoteFar(N: seq<Node>, i: int, q: int, root: int) {
    && CanPromote(N, i, q, root) && At(N, N[i].right)
    && N[i].right !in {i, q, N[i].left} + Parents(N, i, root)
  }

  ghost predicate PromotedFar(N: seq<Node>, M: seq<Node>, i: int, q: int, root: int, root': int)
    requires CanPromoteFar(N, i, q, root)
  {
    && SameBut(N, M, {q, N[i].left, N[i].right} + Parents(N, i, root))
    && M[q] == Node(N[i].parent, N[i].left, N[i].right, N[q].data, N[i].balance)
    && Adopted(N, M, N[i].left, q) && Adopted(N, M, N[i].right, q) && Swung(N, M, i, q, root, root')
  }

  lemma NearReady(N: seq<Node>, c: Context, s: Shape, b: int, root: int)
    requires s.Bin? && s.l.Bin? && s.r.Bin? && Focus(N, c, s, b, Height(s), root)
    ensures CanPromote(N, s.id, s.r.id, root)
  {
  }

  /** Node q in the place of i, above the subtree l on its left and a hole on its right. */
  lemma NewBase(N: seq<Node>, M: seq<Node>, c: Context, i: int, l: Shape, q: int, e: int, hole: int, h: int, root: int,
                root': int)
    requires Hooked(N, c, i, 1 + Max(Height(l), h), root) && Rep(N, l, i) && Ids(l) !! Ids'(c)
    requires |M| == |N| && At(N, q) && q !in Ids'(c) && q !in Ids(l) && -1 <= h - Height(l) <= 1
    requires M[q] == Node(Above(c), Root(l), hole, e, h - Height(l))
    requires SameOn(N, M, Ids(l) - {Root(l)}) && SameOn(N, M, Ids'(c) - {Above(c)})
    requires Adopted(N, M, Root(l), q) && Hangs(N, i, root) && Swung(N, M, i, q, root, root')
    ensures Rep'(M, Frame(c, false, q, e, l), hole, h) && root' == RootOf(c, q)
  {
    HookedSwung(N, M, c, i, 1 + Max(Height(l), h), root, q, root');
    RootIn(l);
    Reparent(N, M, l, i, q);
  }

  lemma NearRep(N: seq<Node>, M: seq<Node>, c: Context, s: Shape, b: int, root: int, root': int)
    requires s.Bin? && s.l.Bin? && s.r.Bin? && s.r.l == Leaf && Focus(N, c, s, b, Height(s), root)
    requires b == Height(s.r) - Height(s.l) && -1 <= b <= 1
    requires CanPromote(N, s.id, s.r.id, root) && PromotedNear(N, M, s.id, s.r.id, root, root')
    ensures Shrinking(M, Frame(c, false, s.r.id, s.r.data, s.l), s.r.r, root', s.r.id, -1, false)
  {
    hide Rep, Rep', Ids, Ids', RootOf, Base;
    var (i, q) := (s.id, s.r.id);
    FocusHangs(N, c, s, b, Height(s), root);
    RepOpens(N, s.r, i);
    RepInRange(N, s.l, i);
    ContextIds(Frame(c, false, q, s.r.data, s.l));
    RootIn(s.l);
    RootIn(s.r);
    var w := {q, Root(s.l)} + Parents(N, i, root);
    IdsOpen(s);
    FrameOutside(N, M, w, s.r.r, q);
    NewBase(N, M, c, i, s.l, q, s.r.data, Root(s.r.r), Height(s.r.r) + 1, root, root');
  }

  lemma UnhookReady(N: seq<Node>, cc: Context, t: Shape, root: int)
    requires t.Bin? && cc.Frame? && cc.left && Lagging(N, cc, t, Height(t), root)
    ensures At(N, t.id) && At(N, cc.id) && N[t.id].parent == cc.id && N[cc.id].left == t.id
    ensures N[t.id].right == Root(t.r) && t.id != cc.id
    ensures t.r.Bin? ==> At(N, t.r.id) && t.r.id != cc.id && t.r.id != t.id
  {
    LagFacts(N, cc, t, Height(t), root);
    RootIn(t.r);
    RepInRange(N, t, cc.id);
  }

  /** The successor taken out of its old place. */
  lemma Unhooked(N: seq<Node>, M: seq<Node>, cc: Context, t: Shape, root: int)
    requires t.Bin? && t.l == Leaf && cc.Frame? && cc.left && Lagging(N, cc, t, Height(t), root)
    requires At(N, cc.id) && SameBut(N, M, {cc.id, Root(t.r)})
    requires M[cc.id] == N[cc.id].(left := Root(t.r)) && Adopted(N, M, Root(t.r), cc.id)
    ensures Lagging(M, cc, t.r, Height(t.r) + 1, root)
  {
    LagFacts(N, cc, t, Height(t), root);
    RepOpens(N, t, cc.id);
    RootIn(t.r);
    RepInRange'(N, cc, t.id, Height(t));
    Reparent(N, M, t.r, t.id, cc.id);
    Rehole(N, M, cc, t.id, Root(t.r), Height(t));
    RootOfSame(cc, t.id, Root(t.r));
  }

  /** The frame of a node with two children, around its right subtree. */
  lemma BaseFacts(N: seq<Node>, c: Context, s: Shape, root: int)
    requires Rep(N, Plug(c, s), NIL) && Base(c) == NIL && root == Root(Plug(c, s)) && s.Bin? && s.r.Bin?
    ensures var base := Frame(c, false, s.id, s.data, s.l);
            Plug(base, s.r) == Plug(c, s) && Base(base) == NIL && |Before(base)| > 0
    ensures At(N, s.id) && Focus(N, c, s, N[s.id].balance, Height(s), root) && -1 <= N[s.id].balance <= 1
    ensures N[s.id].balance == Height(s.r) - Height(s.l)
    ensures At(N, s.r.id) && N[s.r.id].left == Root(s.r.l) && N[s.id].left == Root(s.l)
    ensures s.r.l.Bin? ==> s.r.l.id != NIL
  {
    FocusOn(N, c, s, root);
    RepOpens(N, s.r, s.id);
  }

  /** Just before the successor takes its new place: the hole of cc lags, and cc's frame
      for i is base. */
  ghost predicate Vacated(N: seq<Node>, cc: Context, base: Context, t: Shape, root: int) {
    && base.Frame? && !base.left && base.sib.Bin? && Spine(cc, base) && cc != base
    && Lagging(N, cc, t, Height(t) + 1, root)
  }

  lemma FarHooked(N: seq<Node>, cc: Context, base: Context, t: Shape, root: int)
    requires Vacated(N, cc, base, t, root)
    ensures var h := SpineHeight(cc, base, Height(t) + 1); var r := SpineRoot(cc, base, Root(t));
      && Hooked(N, base.up, base.id, 1 + Max(Height(base.sib), h), root)
      && N[base.id] == Node(Above(base.up), Root(base.sib), r, base.data, h - Height(base.sib))
      && -1 <= h - Height(base.sib) <= 1
      && At(N, r) && r in SpineIds(cc, base) && Rep(N, base.sib, base.id)
      && base.id !in Ids(base.sib) && Ids(base.sib) !! Ids'(base.up)
      && Ids'(base) == Ids'(base.up) + {base.id} + Ids(base.sib)
      && Ids'(cc) == SpineIds(cc, base) + Ids'(base) && SpineIds(cc, base) !! Ids'(base)
  {
    SpineBase(N, cc, base, Root(t), Height(t) + 1);
    SpineSubst(cc, base, base, Root(t));
    RepInRange'(N, cc, Root(t), Height(t) + 1);
    RootOfSame(base, SpineRoot(cc, base, Root(t)), base.id);
  }

  lemma LeftmostFresh(N: seq<Node>, cc: Context, base: Context, t: Shape, root: int)
    requires t.Bin? && Lagging(N, cc, t, Height(t), root) && base.Frame? && Spine(cc, base) && cc != base
    ensures t.id !in Ids'(cc) && t.id !in Ids(t.r) && At(N, t.id) && N[t.id].data == t.data
    ensures cc.Frame? && cc.left && N[t.id].parent == cc.id && N[t.id].right == Root(t.r)
    ensures t.r.Bin? ==> t.r.id != t.id && t.r.id != base.id
    ensures base.id != t.id && base.id != cc.id && t.id != cc.id
  {
    RootIn(t.r);
    SpineBase(N, cc, base, t.id, Height(t));
    assert base.id in Ids'(base);
  }

  /** What the code reads at the node whose right subtree is r. */
  lemma BaseLinks(N: seq<Node>, base: Context, r: Shape, root: int)
    requires Rep(N, Plug(base, r), NIL) && Base(base) == NIL && root == Root(Plug(base, r))
    requires base.Frame? && !base.left && r.Bin?
    ensures At(N, base.id) && N[base.id].left == Root(base.sib) && N[base.id].right == r.id
  {
    FocusOn(N, base, r, root);
  }

  lemma FarReady(N: seq<Node>, cc: Context, base: Context, t: Shape, q: int, root: int)
    requires Vacated(N, cc, base, t, root) && At(N, q) && q !in Ids'(cc)
    ensures CanPromoteFar(N, base.id, q, root)
  {
    hide Rep, Rep', Ids, Ids', SpineIds, Spine, SpineHeight, SpineRoot, Lagging;
    FarHooked(N, cc, base, t, root);
    var (i, l, h) := (base.id, base.sib, SpineHeight(cc, base, Height(t) + 1));
    HookedHangs(N, base.up, i, 1 + Max(Height(l), h), root);
    RootIn(l);
    RepInRange(N, l, i);
  }

  lemma FarBase(N: seq<Node>, M: seq<Node>, cc: Context, base: Context, t: Shape, q: int, root: int, root': int)
    requires Vacated(N, cc, base, t, root) && At(N, q) && q !in Ids'(cc) && q !in Ids(t)
    requires CanPromoteFar(N, base.id, q, root) && PromotedFar(N, M, base.id, q, root, root')
    ensures var base' := Frame(base.up, false, q, N[q].data, base.sib); var r := SpineRoot(cc, base, Root(t));
      && Rep'(M, base', r, SpineHeight(cc, base, Height(t) + 1)) && root' == RootOf(base', r)
      && Base(base') == NIL && Ids'(base') !! SpineIds(cc, base) && Ids'(base') !! Ids(t)
      && At(N, r) && M[r] == N[r].(parent := q) && SameOn(N, M, SpineIds(cc, base) - {r}) && SameOn(N, M, Ids(t))
  {
    hide Rep, Rep', Ids, Ids', SpineIds, SpineHeight, SpineRoot, Spine, Height, RootOf;
    FarHooked(N, cc, base, t, root);
    var (c, i, l, h) := (base.up, base.id, base.sib, SpineHeight(cc, base, Height(t) + 1));
    var r := SpineRoot(cc, base, Root(t));
    HookedHangs(N, c, i, 1 + Max(Height(l), h), root);
    RootIn(l);
    NewBase(N, M, c, i, l, q, N[q].data, r, h, root, root');
    ContextIds(Frame(c, false, q, N[q].data, l));
  }

  lemma SubstFacts(cc: Context, base: Context, base': Context)
    requires Spine(cc, base) && cc != base
    ensures cc.Frame? && cc.left && Subst(cc, base, base').Frame? && Subst(cc, base, base').left
    ensures Subst(cc, base, base').id == cc.id
  {
  }

  lemma FarRep(N: seq<Node>, M: seq<Node>, cc: Context, base: Context, t: Shape, q: int, root: int, root': int)
    requires Vacated(N, cc, base, t, root) && At(N, q) && q !in Ids'(cc) && q !in Ids(t)
    requires CanPromoteFar(N, base.id, q, root) && PromotedFar(N, M, base.id, q, root, root')
    ensures Shrinking(M, Subst(cc, base, Frame(base.up, false, q, N[q].data, base.sib)), t, root', cc.id, 1, false)
  {
    hide Rep, Rep', Ids, Ids', SpineIds, SpineHeight, SpineRoot, Spine, Height, RootOf;
    var base' := Frame(base.up, false, q, N[q].data, base.sib);
    FarBase(N, M, cc, base, t, q, root, root');
    FarHooked(N, cc, base, t, root);
    SpineSubst(cc, base, base', Root(t));
    SpineRep(N, M, cc, base, base', Root(t), Height(t) + 1);
    SubstFacts(cc, base, base');
    RepFrame(N, M, t, cc.id);
    LagFacts(N, cc, t, Height(t) + 1, root);
  }

  lemma {:induction false} SubstDepth(cc: Context, base: Context, base': Context)
    requires Spine(cc, base) && Depth(base) == Depth(base')
    ensures Depth(Subst(cc, base, base')) == Depth(cc)
    decreases cc
  {
    if cc == base {
    } else {
      SubstDepth(cc.up, base, base');
    }
  }

  lemma {:induction false} SpineElems(cc: Context, base: Context, base': Context)
    requires Spine(cc, base) && After(base) == After(base')
    ensures Before(cc) == Before(base) && Before(Subst(cc, base, base')) == Before(base')
    ensures After(Subst(cc, base, base')) == After(cc)
    decreases cc
  {
    if cc == base {
    } else {
      SpineElems(cc.up, base, base');
    }
  }

  lemma {:induction false} SpinePairs(cc: Context, base: Context, base': Context)
    requires Spine(cc, base)
    ensures Ids'(Subst(cc, base, base')) == SpineIds(cc, base) + Ids'(base')
    ensures Ids'(cc) == SpineIds(cc, base) + Ids'(base)
    ensures Pairs'(Subst(cc, base, base')) <= Pairs'(cc) + Pairs'(base')
    ensures Pairs'(base) <= Pairs'(cc)
    decreases cc
  {
    if cc == base {
    } else {
      SpinePairs(cc.up, base, base');
    }
  }

  lemma SucceededSeq(a: seq<int>, d: int, e: int, r: seq<int>, z: seq<int>)
    ensures var s := (a + [d]) + ([e] + r) + z; s[|a|] == d && Without(s, |a|) == (a + [e]) + r + z
  {
  }

  /** The successor q of i with its datum e, when it has left its place t to take i's. */
  lemma SucceededElems(cc: Context, base: Context, t: Shape)
    requires t.Bin? && t.l == Leaf && base.Frame? && !base.left && Spine(cc, base)
    ensures var base' := Frame(base.up, false, t.id, t.data, base.sib);
            var (was, now) := (Elems(Plug(cc, t)), Elems(Plug(Subst(cc, base, base'), t.r)));
            var at := |Before(base)| - 1;
            0 <= at < |was| && was[at] == base.data && now == Without(was, at)
  {
    var base' := Frame(base.up, false, t.id, t.data, base.sib);
    var (a, r, z) := (Before(base.up) + Elems(base.sib), Elems(t.r), After(cc));
    SpineElems(cc, base, base');
    PlugElems(cc, t);
    PlugElems(Subst(cc, base, base'), t.r);
    assert Elems(t) == [t.data] + r by { assert [] + [t.data] == [t.data]; }
    SucceededSeq(a, base.data, t.data, r, z);
  }

  lemma SucceededIds(N: seq<Node>, cc: Context, base: Context, t: Shape, base': Context)
    requires t.Bin? && t.l == Leaf && base.Frame? && base' == Frame(base.up, false, t.id, t.data, base.sib)
    requires Rep(N, t, Above(cc)) && Ids(t) !! Ids'(cc) && Ids'(cc) == SpineIds(cc, base) + Ids'(base)
    requires SpineIds(cc, base) !! Ids'(base) && base.id !in Ids'(base.up) && base.id !in Ids(base.sib)
    requires Pairs'(base) <= Pairs'(cc)
    ensures SpineIds(cc, base) + Ids'(base') + Ids(t.r) == Ids'(cc) + Ids(t) - {base.id}
    ensures base.id in Ids'(cc) && (base.id, base.data) in Pairs'(cc)
    ensures Pairs'(base') + Pairs(t.r) <= Pairs'(cc) + Pairs(t)
  {
  }

  lemma Succeeded(N: seq<Node>, cc: Context, base: Context, t: Shape, root: int)
    requires t.Bin? && t.l == Leaf && base.Frame? && !base.left && Spine(cc, base)
    requires Rep(N, Plug(cc, t), NIL) && Base(cc) == NIL && root == Root(Plug(cc, t))
    ensures |Before(base)| > 0
    ensures Deleted(Plug(cc, t), Plug(Subst(cc, base, Frame(base.up, false, t.id, t.data, base.sib)), t.r),
                    base.id, base.id, base.data, base.data, |Before(base)| - 1)
  {
    var base' := Frame(base.up, false, t.id, t.data, base.sib);
    var cc' := Subst(cc, base, base');
    SucceededElems(cc, base, t);
    FocusOn(N, cc, t, root);
    SpineBase(N, cc, base, t.id, Height(t));
    SpinePairs(cc, base, base');
    PlugIds(cc, t);
    PlugIds(cc', t.r);
    SucceededIds(N, cc, base, t, base');
  }

  // ---- the index as a whole ----

  lemma PoolRoom(t: Shape, F: seq<int>, k: int, n: nat)
    requires Pool(t, F, k, n) && t.Bin?
    ensures k + 1 < |F|
  {
  }

  lemma KeptElem(t: Shape, u: Shape, i: int, gone: int, d: int, e: int, at: nat)
    requires Deleted(t, u, i, gone, d, e, at) && (i, e) in Pairs(u)
    ensures e in Elems(u)
  {
    ElemsOfPairs(u, i, e);
  }

  lemma DeleteDone(N: seq<Node>, root: int, t: Shape, u: Shape, F: seq<int>, F': seq<int>, k: int, i: int, gone: int,
                   d: int, e: int, at: nat)
    requires Pool(t, F, k, |N|) && Deleted(t, u, i, gone, d, e, at) && Rep(N, u, NIL) && root == Root(u)
    requires |F'| == |F| && 0 <= gone < |N| && (forall x :: 0 <= x <= k ==> F'[x] == F[x])
    requires k + 1 < |F'| ==> F'[k + 1] == gone
    ensures k + 1 < |F'| && TreeInv(N, root, u, F', k + 1)
  {
  }

  /** D' is D with new back-pointers for the data s, and nothing else changed. */
  ghost predicate OnlyHandles(D: seq<Entry>, D': seq<Entry>, s: seq<int>) {
    && |D'| == |D|
    && (forall x :: 0 <= x < |D| ==> D'[x] == D[x].(tnode := D'[x].tnode))
    && forall x :: 0 <= x < |D| && x !in s ==> D'[x] == D[x]
  }

  lemma HandleOf(D: seq<Entry>, t: Shape, i: int, d: int)
    requires Handles(D, t) && (i, d) in Pairs(t)
    ensures 0 <= d < |D| && D[d].tnode == i
  {
  }

  lemma HandlesKept(D: seq<Entry>, D': seq<Entry>, t: Shape, u: Shape, i: int, gone: int, d: int, e: int, at: nat)
    requires Handles(D, t) && Deleted(t, u, i, gone, d, e, at)
    requires gone == i ==> D' == D
    requires gone != i ==> 0 <= e < |D| && D' == D[e := D[e].(tnode := i)] && e in Elems(u)
    ensures Handles(D', u) && OnlyHandles(D, D', Elems(u))
  {
    forall x, y | (x, y) in Pairs(u) ensures 0 <= y < |D'| && D'[y].tnode == x {
      ElemsOfPairs(u, x, y);
    }
  }
}
