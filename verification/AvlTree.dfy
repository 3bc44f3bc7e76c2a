/** The AVL tree of the free regions, as nodes in a pool: search, insertion, and deletion of
    a datum given its node. */
module AvlTree {
  import opened AvlShape
  import opened AvlMoves
  import opened AvlOrder
  import opened AvlDelete
  import opened Descriptors
  import opened Sequences

  class Tree {
    var root: int

    const nodes: array<Node>
    const freeNodes: array<int>

    var nextFreeNode: int

    const desc: array<Entry>   // the data: descriptors, compared by size

    ghost var shape: Shape

    ghost predicate Valid()
      reads this, nodes, freeNodes
    {
      && TreeInv(nodes[..], root, shape, freeNodes[..], nextFreeNode)
      && freeNodes.Length == nodes.Length
    }

    ghost function Items(): seq<int>
      reads this
    {
      Elems(shape)
    }

    ghost function Placed(): set<(int, int)>
      reads this
    {
      Pairs(shape)
    }

    /** A tree over the given descriptors with room for n of them. */
    constructor (n: nat, desc: array<Entry>)
      ensures Valid() && Items() == [] && Placed() == {} && nextFreeNode == n - 1
      ensures this.desc == desc && fresh(nodes) && fresh(freeNodes) && nodes.Length == n
    {
      this.desc := desc;
      root := NIL;
      shape := Leaf;
      nodes := new Node[n](_ => Node(NIL, NIL, NIL, 0, 0));
      freeNodes := new int[n](i => i);
      nextFreeNode := n - 1;
    }

    /** Forgets all data. */
    method Empty()
      requires freeNodes.Length == nodes.Length
      modifies this, freeNodes
      ensures Valid() && Items() == [] && Placed() == {} && nextFreeNode == nodes.Length - 1
    {
      for i := 0 to nodes.Length
        invariant forall x :: 0 <= x < i ==> freeNodes[x] == x
      {
        freeNodes[i] := i;
      }
      nextFreeNode := nodes.Length - 1;
      root := NIL;
      shape := Leaf;
    }

    lemma SpareNode()
      requires Valid() && |Items()| < nodes.Length
      ensures nextFreeNode >= 0
    {
    }

    /** The height, which bounds the steps of every search and climb, is logarithmic in the size
        of the pool. */
    lemma HeightInPool()
      requires Valid()
      ensures Pow2(Height(shape) / 2) <= |Items()| + 1 <= nodes.Length + 1
    {
      HeightLogarithmic(nodes[..], shape, NIL);
    }

    /** A datum that is in the tree knows its node. */
    lemma HandleFound(d: int)
      requires Valid() && Handles(desc[..], shape) && d in Items()
      ensures 0 <= d < desc.Length && desc[d].tnode in Ids(shape) && 0 <= desc[d].tnode < nodes.Length
      ensures nodes[desc[d].tnode].data == d
    {
      hide Handles, Pool, Ids;
      HandleLeads(nodes[..], desc[..], shape, d);
    }

    // ---- the place of a new datum ----

    /** The node and the side where a new datum is to be hung. */
    method FindPlace(data: int) returns (node: int, left: bool, ghost c: Context, ghost steps: nat)
      requires Valid() && root != NIL
      requires 0 <= data < desc.Length && Sorted(desc[..], Items())
      ensures c.Frame? && c.id == node && c.left == left && Descending(desc[..], c, Leaf, shape, desc[data].size)
      ensures steps == Depth(c) <= Height(shape)
    {
      hide Rep, Plug, Elems, Pairs, Ids, Height, Base, Sorted, Around, Before, After, Pool;
      node := root;
      ghost var s;
      c, s, steps := Top(NIL), shape, 0;
      SearchStarts(desc[..], shape, desc[data].size);
      while true
        invariant steps == Depth(c)
        invariant s.Bin? && node == s.id && Descending(desc[..], c, s, shape, desc[data].size)
        decreases s
      {
        steps := steps + 1;
        DescendAt(nodes[..], desc[..], c, s, shape, desc[data].size);
        if Compare(desc[data].size, desc[nodes[node].data].size) <= 0 {
          c, s := Frame(c, true, s.id, s.data, s.r), s.l;
          var child := nodes[node].left;
          if child == NIL {
            left := true;
            DepthHeight(c, Leaf);
            return;
          }
          node := child;
        } else {
          c, s := Frame(c, false, s.id, s.data, s.l), s.r;
          var child := nodes[node].right;
          if child == NIL {
            left := false;
            DepthHeight(c, Leaf);
            return;
          }
          node := child;
        }
      }
    }

    /** Takes a node off the stack of unused nodes. */
    method NodeNew(data: int, parent: int) returns (n: int)
      requires 0 <= nextFreeNode < freeNodes.Length && At(nodes[..], freeNodes[nextFreeNode])
      modifies this`nextFreeNode, nodes
      ensures nextFreeNode == old(nextFreeNode) - 1 && n == freeNodes[old(nextFreeNode)]
      ensures nodes[..] == old(nodes[..])[n := Node(parent, NIL, NIL, data, 0)]
    {
      n := freeNodes[nextFreeNode];
      nextFreeNode := nextFreeNode - 1;
      nodes[n] := Node(parent, NIL, NIL, data, 0);
    }

    // ---- rebalancing ----

    /** One step up: the parent, and the correction that its balance factor needs when
        the subtree of `node` grew by `grown`. */
    method Climb(node: int, grown: int, ghost c: Context, ghost t: Shape, ghost h: int)
      returns (parent: int, balance: int)
      requires t.Bin? && node == t.id && Lagging(nodes[..], c, t, h, root)
      ensures parent == Above(c) && (c.Frame? ==> At(nodes[..], parent) && balance == Delta(c, grown))
      ensures At(nodes[..], node) && (c.Top? ==> parent == NIL)
    {
      AboveOf(nodes[..], c, t, h, root);
      balance := 0;
      parent := nodes[node].parent;
      if parent != NIL {
        SideOf(nodes[..], c, t, h, root);
        balance := if nodes[parent].left == node then -grown else grown;
      }
    }

    /** Gives the child, if there is one, its new parent. */
    method Adopt(child: int, parent: int)
      requires Link(nodes[..], child)
      modifies nodes
      ensures nodes[..] == if child == NIL then old(nodes[..])
                           else old(nodes[..])[child := old(nodes[child]).(parent := parent)]
    {
      if child != NIL {
        nodes[child] := nodes[child].(parent := parent);
      }
    }

    /** Lets the parent's link, or the root, lead to `child` instead of `node`. */
    method Rehang(node: int, parent: int, child: int)
      requires node != root ==>
        At(nodes[..], parent) && (nodes[parent].left == node) != (nodes[parent].right == node)
      modifies this`root, nodes
      ensures root == if node == old(root) then child else old(root)
      ensures nodes[..] == if node == old(root) then old(nodes[..])
                           else old(nodes[..])[parent := Swing(old(nodes[parent]), node, child)]
    {
      if node == root {
        root := child;
      } else if nodes[parent].left == node {
        nodes[parent] := nodes[parent].(left := child);
      } else {
        nodes[parent] := nodes[parent].(right := child);
      }
    }

    method RotateLeft(node: int) returns (right: int)
      requires CanRotateLeft(nodes[..], node, root)
      modifies this`root, nodes
      ensures right == old(nodes[node].right)
      ensures RotatedLeft(old(nodes[..]), nodes[..], node, old(root), root)
    {
      right := nodes[node].right;
      var rightLeft := nodes[right].left;
      var parent := nodes[node].parent;
      nodes[right] := nodes[right].(parent := parent);
      nodes[right] := nodes[right].(left := node);
      nodes[node] := nodes[node].(right := rightLeft);
      nodes[node] := nodes[node].(parent := right);
      Adopt(rightLeft, node);
      Rehang(node, parent, right);
      nodes[right] := nodes[right].(balance := nodes[right].balance - 1);
      nodes[node] := nodes[node].(balance := -nodes[right].balance);
    }

    method RotateRight(node: int) returns (left: int)
      requires CanRotateRight(nodes[..], node, root)
      modifies this`root, nodes
      ensures left == old(nodes[node].left)
      ensures RotatedRight(old(nodes[..]), nodes[..], node, old(root), root)
    {
      left := nodes[node].left;
      var leftRight := nodes[left].right;
      var parent := nodes[node].parent;
      nodes[left] := nodes[left].(parent := parent);
      nodes[left] := nodes[left].(right := node);
      nodes[node] := nodes[node].(left := leftRight);
      nodes[node] := nodes[node].(parent := left);
      Adopt(leftRight, node);
      Rehang(node, parent, left);
      nodes[left] := nodes[left].(balance := nodes[left].balance + 1);
      nodes[node] := nodes[node].(balance := -nodes[left].balance);
    }

    method LinkLeftRight(node: int, left: int, leftRight: int)
      requires CanRotateLeftRight(nodes[..], node, root)
      requires left == nodes[node].left && leftRight == nodes[left].right
      modifies this`root, nodes
      ensures LinkedLeftRight(old(nodes[..]), nodes[..], node, old(root), root)
    {
      var parent := nodes[node].parent;
      var leftRightRight := nodes[leftRight].right;
      var leftRightLeft := nodes[leftRight].left;
      nodes[leftRight] := nodes[leftRight].(parent := parent);
      nodes[node] := nodes[node].(left := leftRightRight);
      nodes[left] := nodes[left].(right := leftRightLeft);
      nodes[leftRight] := nodes[leftRight].(left := left);
      nodes[leftRight] := nodes[leftRight].(right := node);
      nodes[left] := nodes[left].(parent := leftRight);
      nodes[node] := nodes[node].(parent := leftRight);
      Adopt(leftRightRight, node);
      Adopt(leftRightLeft, left);
      Rehang(node, parent, leftRight);
    }

    method RotateLeftRight(node: int) returns (leftRight: int)
      requires CanRotateLeftRight(nodes[..], node, root)
      modifies this`root, nodes
      ensures leftRight == old(nodes[nodes[node].left].right)
      ensures RotatedLeftRight(old(nodes[..]), nodes[..], node, old(root), root)
    {
      var left := nodes[node].left;
      leftRight := nodes[left].right;
      LinkLeftRight(node, left, leftRight);
      if nodes[leftRight].balance == 1 {
        nodes[node] := nodes[node].(balance := 0);
        nodes[left] := nodes[left].(balance := -1);
      } else if nodes[leftRight].balance == 0 {
        nodes[node] := nodes[node].(balance := 0);
        nodes[left] := nodes[left].(balance := 0);
      } else {
        nodes[node] := nodes[node].(balance := 1);
        nodes[left] := nodes[left].(balance := 0);
      }
      nodes[leftRight] := nodes[leftRight].(balance := 0);
    }

    method LinkRightLeft(node: int, right: int, rightLeft: int)
      requires CanRotateRightLeft(nodes[..], node, root)
      requires right == nodes[node].right && rightLeft == nodes[right].left
      modifies this`root, nodes
      ensures LinkedRightLeft(old(nodes[..]), nodes[..], node, old(root), root)
    {
      var parent := nodes[node].parent;
      var rightLeftLeft := nodes[rightLeft].left;
      var rightLeftRight := nodes[rightLeft].right;
      nodes[rightLeft] := nodes[rightLeft].(parent := parent);
      nodes[node] := nodes[node].(right := rightLeftLeft);
      nodes[right] := nodes[right].(left := rightLeftRight);
      nodes[rightLeft] := nodes[rightLeft].(right := right);
      nodes[rightLeft] := nodes[rightLeft].(left := node);
      nodes[right] := nodes[right].(parent := rightLeft);
      nodes[node] := nodes[node].(parent := rightLeft);
      Adopt(rightLeftLeft, node);
      Adopt(rightLeftRight, right);
      Rehang(node, parent, rightLeft);
    }

    method RotateRightLeft(node: int) returns (rightLeft: int)
      requires CanRotateRightLeft(nodes[..], node, root)
      modifies this`root, nodes
      ensures rightLeft == old(nodes[nodes[node].right].left)
      ensures RotatedRightLeft(old(nodes[..]), nodes[..], node, old(root), root)
    {
      var right := nodes[node].right;
      rightLeft := nodes[right].left;
      LinkRightLeft(node, right, rightLeft);
      if nodes[rightLeft].balance == -1 {
        nodes[node] := nodes[node].(balance := 0);
        nodes[right] := nodes[right].(balance := 1);
      } else if nodes[rightLeft].balance == 0 {
        nodes[node] := nodes[node].(balance := 0);
        nodes[right] := nodes[right].(balance := 0);
      } else {
        nodes[node] := nodes[node].(balance := -1);
        nodes[right] := nodes[right].(balance := 0);
      }
      nodes[rightLeft] := nodes[rightLeft].(balance := 0);
    }

    /** The rotation that ends the climb of InsertBalance. */
    method InsertRotate(node: int, balance: int, ghost c: Context, ghost t: Shape) returns (ghost t': Shape)
      requires t.Bin? && node == t.id && Focus(nodes[..], c, t, balance, Height(t) - 1, root)
      requires (balance == -2 && LeftHeavy(t) && nodes[t.l.id].balance != 0) ||
               (balance == 2 && RightHeavy(t) && nodes[t.r.id].balance != 0)
      modifies this`root, nodes
      ensures Rep(nodes[..], t', NIL) && root == Root(t') && Rearranged(Plug(c, t), t')
    {
      hide Rep, Rep', Plug, Elems, Pairs, Ids, Ids', Height, Rearranged, RootOf, Base, Focus, Lagging;
      ghost var N, root0, h := nodes[..], root, Height(t) - 1;
      FocusOpens(N, c, t, balance, h, root);
      if balance == -2 {
        if nodes[nodes[node].left].balance == -1 {
          RotateRightReady(N, c, t, -2, h, root);
          var _ := RotateRight(node);
          RightRotated(N, nodes[..], c, t, h, root0, root);
          t' := RotR(t);
        } else {
          LeftRightReady(N, c, t, h, root);
          var _ := RotateLeftRight(node);
          LeftRightRotated(N, nodes[..], c, t, h, root0, root);
          t' := RotLR(t);
        }
      } else {
        if nodes[nodes[node].right].balance == 1 {
          RotateLeftReady(N, c, t, 2, h, root);
          var _ := RotateLeft(node);
          LeftRotated(N, nodes[..], c, t, h, root0, root);
          t' := RotL(t);
        } else {
          RightLeftReady(N, c, t, h, root);
          var _ := RotateRightLeft(node);
          RightLeftRotated(N, nodes[..], c, t, h, root0, root);
          t' := RotRL(t);
        }
      }
      Settled(nodes[..], c, t', root);
      t' := Plug(c, t');
    }

    method InsertBalance(start: int, delta: int, ghost c0: Context, ghost t0: Shape)
      returns (ghost t': Shape, ghost steps: nat)
      requires Growing(nodes[..], c0, t0, root, start, delta)
      modifies this`root, nodes
      ensures Rep(nodes[..], t', NIL) && root == Root(t') && Rearranged(Plug(c0, t0), t')
      ensures steps <= Depth(c0)
    {
      hide Rep, Rep', Plug, Elems, Pairs, Ids, Ids', Height, RootOf, Base, Focus, Lagging;
      var node, balance := start, delta;
      ghost var c, t := c0, t0;
      steps := 0;
      while node != NIL
        invariant steps + Depth(c) == Depth(c0)
        invariant Growing(nodes[..], c, t, root, node, balance) && Plug(c0, t0) == Plug(c, t)
        decreases c
      {
        ghost var N := nodes[..];
        balance := nodes[node].balance + balance;
        nodes[node] := nodes[node].(balance := balance);
        ClimbInsert(N, nodes[..], c, t, root);
        c, t, steps := c.up, Fill(c, t), steps + 1;
        if balance == 0 {
          return Plug(c, t), steps;
        } else if balance == -2 || balance == 2 {
          t' := InsertRotate(node, balance, c, t);
          return;
        }
        node, balance := Climb(node, 1, c, t, Height(t) - 1);
      }
      AboveOf(nodes[..], c, t, Height(t) - 1, root);
      t' := t;
    }

    // ---- insertion ----

    /** Hangs a new leaf below `node` and rebalances. */
    method Attach(node: int, left: bool, data: int, ghost c: Context)
      returns (newnode: int, ghost at: nat, ghost steps: nat)
      requires Valid() && nextFreeNode >= 0
      requires 0 <= data < desc.Length && Sorted(desc[..], Items())
      requires c.Frame? && c.id == node && c.left == left && Descending(desc[..], c, Leaf, shape, desc[data].size)
      modifies this, nodes
      ensures Valid() && nextFreeNode == old(nextFreeNode) - 1
      ensures at <= |old(Items())| && Items() == Inserted(old(Items()), at, data) && Sorted(desc[..], Items())
      ensures Smaller(desc[..], old(Items()), at, desc[data].size)
      ensures Placed() == old(Placed()) + {(newnode, data)} && newnode !in old(Ids(shape))
      ensures steps <= Depth(c)
    {
      hide Rep, Rep', Plug, Elems, Pairs, Ids, Ids', Height, RootOf, Base, Focus, Lagging, Sorted, Around, Growing,
           Inserted, Pool, Descending, Smaller;
      ghost var N, F, k := nodes[..], freeNodes[..], nextFreeNode;
      AttachReady(N, desc[..], c, shape, root, F, k, data);
      PlaceIsFirst(desc[..], c, shape, desc[data].size);
      newnode := NodeNew(data, node);
      if left {
        nodes[node] := nodes[node].(left := newnode);
      } else {
        nodes[node] := nodes[node].(right := newnode);
      }
      ghost var t := Bin(Leaf, newnode, data, Leaf);
      assert nodes[newnode] == Node(node, NIL, NIL, data, 0);
      AttachLeaf(N, nodes[..], c, newnode, data, root);
      ghost var t';
      t', steps := InsertBalance(node, if left then -1 else 1, c, t);
      at := |Before(c)|;
      InsertDone(nodes[..], root, shape, Plug(c, t), t', F, k, nodes.Length, data, at);
      shape := t';
    }

    /** Adds a datum, in front of those of its size, and returns the node that holds it. */
    method Insert(data: int) returns (newnode: int, ghost at: nat, ghost steps: nat)
      requires Valid() && nextFreeNode >= 0
      requires 0 <= data < desc.Length && Sorted(desc[..], Items())
      modifies this, nodes
      ensures Valid() && nextFreeNode == old(nextFreeNode) - 1
      ensures at <= |old(Items())| && Items() == Inserted(old(Items()), at, data) && Sorted(desc[..], Items())
      ensures Smaller(desc[..], old(Items()), at, desc[data].size)
      ensures Placed() == old(Placed()) + {(newnode, data)} && newnode !in old(Ids(shape))
      ensures steps <= 2 * old(Height(shape))
    {
      if root == NIL {
        RootNil(nodes[..], Top(NIL), shape, shape);
        newnode := NodeNew(data, NIL);
        at, steps := 0, 0;
        root := newnode;
        FirstLeaf(nodes[..], freeNodes[..], nextFreeNode, newnode, data);
        shape := Bin(Leaf, newnode, data, Leaf);
      } else {
        var node, left;
        ghost var c, down, up;
        node, left, c, down := FindPlace(data);
        newnode, at, up := Attach(node, left, data, c);
        steps := down + up;
      }
    }

    // ---- search ----

    /** The number of data. */
    method CountNodes() returns (n: int)
      requires Valid()
      ensures n == |Items()|
    {
      n := nodes.Length - nextFreeNode - 1;
    }

    /** A smallest free region of at least `size` bytes, or NIL when there is none. */
    method CSearchNode(size: nat) returns (min: int, ghost steps: nat)
      requires Valid() && Sorted(desc[..], Items())
      ensures BestFit(desc[..], Items(), size, min) && steps <= Height(shape)
      ensures min == Found(desc[..], shape, size, NIL)
    {
      hide Rep, Plug, Elems, Pairs, Ids, Height, Sorted, Around, Before, After, Pool, BestFit;
      var node := root;
      min, steps := NIL, 0;
      ghost var c, s := Top(NIL), shape;
      SearchStarts(desc[..], shape, size);
      while node != NIL
        invariant node == Root(s) && Descending(desc[..], c, s, shape, size)
        invariant BestSoFar(desc[..], c, size, min)
        invariant Found(desc[..], s, size, min) == Found(desc[..], shape, size, NIL)
        invariant steps + Height(s) <= Height(shape)
        decreases s
      {
        DescendAt(nodes[..], desc[..], c, s, shape, size);
        steps := steps + 1;
        var data := nodes[node].data;
        if Compare(size, desc[data].size) < 0 {
          BestLeft(desc[..], c, s, size, min);
          min := if min == NIL then data else if Compare(desc[min].size, desc[data].size) < 0 then min else data;
          c, s := Frame(c, true, s.id, s.data, s.r), s.l;
          node := nodes[node].left;
        } else if Compare(size, desc[data].size) > 0 {
          BestRight(desc[..], c, s, size, min);
          c, s := Frame(c, false, s.id, s.data, s.l), s.r;
          node := nodes[node].right;
        } else {
          BestHere(desc[..], c, s, size, min);
          min := data;
          return;
        }
      }
      assert s.Leaf? by { RootNil(nodes[..], c, s, shape); }
      BestDone(desc[..], c, size, min);
    }

    // ---- deletion ----

    /** The rotation inside the climb of DeleteBalance, which goes on unless the rotated
        subtree kept its height. */
    method DeleteRotateRight(node: int, ghost c: Context, ghost t: Shape)
      returns (node': int, done: bool, ghost t': Shape)
      requires LeftHeavy(t) && node == t.id && Focus(nodes[..], c, t, -2, Height(t), root)
      modifies this`root, nodes
      ensures t'.Bin? && node' == t'.id && Rearranged(Plug(c, t), Plug(c, t'))
      ensures done ==> Rep(nodes[..], Plug(c, t'), NIL) && root == Root(Plug(c, t'))
      ensures !done ==> Lagging(nodes[..], c, t', Height(t') + 1, root)
    {
      hide Rep, Rep', Plug, Elems, Pairs, Ids, Ids', Height, Rearranged, RootOf, Base, Focus, Lagging;
      ghost var N, root0, h := nodes[..], root, Height(t);
      FocusOpens(N, c, t, -2, h, root);
      if nodes[nodes[node].left].balance <= 0 {
        RotateRightReady(N, c, t, -2, h, root);
        node' := RotateRight(node);
        RightRotated(N, nodes[..], c, t, h, root0, root);
        t' := RotR(t);
        done := nodes[node'].balance == 1;
        if done { Settled(nodes[..], c, t', root); }
      } else {
        LeftRightReady(N, c, t, h, root);
        node' := RotateLeftRight(node);
        LeftRightRotated(N, nodes[..], c, t, h, root0, root);
        t' := RotLR(t);
        done := false;
      }
    }

    method DeleteRotateLeft(node: int, ghost c: Context, ghost t: Shape)
      returns (node': int, done: bool, ghost t': Shape)
      requires RightHeavy(t) && node == t.id && Focus(nodes[..], c, t, 2, Height(t), root)
      modifies this`root, nodes
      ensures t'.Bin? && node' == t'.id && Rearranged(Plug(c, t), Plug(c, t'))
      ensures done ==> Rep(nodes[..], Plug(c, t'), NIL) && root == Root(Plug(c, t'))
      ensures !done ==> Lagging(nodes[..], c, t', Height(t') + 1, root)
    {
      hide Rep, Rep', Plug, Elems, Pairs, Ids, Ids', Height, Rearranged, RootOf, Base, Focus, Lagging;
      ghost var N, root0, h := nodes[..], root, Height(t);
      FocusOpens(N, c, t, 2, h, root);
      if nodes[nodes[node].right].balance >= 0 {
        RotateLeftReady(N, c, t, 2, h, root);
        node' := RotateLeft(node);
        LeftRotated(N, nodes[..], c, t, h, root0, root);
        t' := RotL(t);
        done := nodes[node'].balance == -1;
        if done { Settled(nodes[..], c, t', root); }
      } else {
        RightLeftReady(N, c, t, h, root);
        node' := RotateRightLeft(node);
        RightLeftRotated(N, nodes[..], c, t, h, root0, root);
        t' := RotRL(t);
        done := false;
      }
    }

    method DeleteBalance(start: int, delta: int, ghost c0: Context, ghost t0: Shape, ghost entry0: bool)
      returns (ghost t': Shape, ghost steps: nat)
      requires Shrinking(nodes[..], c0, t0, root, start, delta, entry0)
      modifies this`root, nodes
      ensures Rep(nodes[..], t', NIL) && root == Root(t') && Rearranged(Plug(c0, t0), t')
      ensures steps <= Depth(c0) + if entry0 then 1 else 0
    {
      hide Rep, Rep', Plug, Elems, Pairs, Ids, Ids', Height, RootOf, Base, Focus, Lagging;
      var node, balance := start, delta;
      ghost var c, t, entry := c0, t0, entry0;
      steps := 0;
      while node != NIL
        invariant steps + Depth(c) + (if entry then 1 else 0) == Depth(c0) + if entry0 then 1 else 0
        invariant Shrinking(nodes[..], c, t, root, node, balance, entry)
        invariant Rearranged(Plug(c0, t0), Plug(c, t))
        decreases c, entry
      {
        ghost var N := nodes[..];
        steps := steps + 1;
        balance := nodes[node].balance + balance;
        nodes[node] := nodes[node].(balance := balance);
        if entry {
          assert nodes[..] == N;
        } else {
          ClimbDelete(N, nodes[..], c, t, root);
          c, t := c.up, Fill(c, t);
        }
        if balance == -2 {
          var done;
          node, done, t := DeleteRotateRight(node, c, t);
          if done {
            return Plug(c, t), steps;
          }
        } else if balance == 2 {
          var done;
          node, done, t := DeleteRotateLeft(node, c, t);
          if done {
            return Plug(c, t), steps;
          }
        } else if balance != 0 {
          return Plug(c, t), steps;
        }
        node, balance := Climb(node, -1, c, t, Height(t) + 1);
        entry := false;
      }
      AboveOf(nodes[..], c, t, Height(t) + 1, root);
      t' := t;
    }

    method CutLeaf(node: int, ghost c: Context, ghost s: Shape) returns (ghost at: nat, ghost steps: nat)
      requires Rep(nodes[..], shape, NIL) && root == Root(shape) && Handles(desc[..], shape)
      requires s.Bin? && s.id == node && s.l == Leaf && s.r == Leaf && Plug(c, s) == shape && Base(c) == NIL
      modifies this`root, this`shape, nodes
      ensures Rep(nodes[..], shape, NIL) && root == Root(shape)
      ensures Deleted(old(shape), shape, node, node, s.data, s.data, at)
      ensures Handles(desc[..], shape) && OnlyHandles(old(desc[..]), desc[..], Elems(shape))
      ensures steps <= old(Height(shape))
    {
      hide Rep, Rep', Plug, Elems, Pairs, Ids, Ids', RootOf, Base, Handles, Deleted, Before, After, Depth;
      ghost var N := nodes[..];
      DepthHeight(c, s);
      steps := 0;
      LeafFacts(N, c, s, root);
      at := |Before(c)|;
      ghost var u := Leaf;
      RearrangedSelf(u);
      if node == root {
        root := NIL;
      } else {
        var parent := nodes[node].parent;
        if nodes[parent].left == node {
          nodes[parent] := nodes[parent].(left := NIL);
          DetachLeaf(N, nodes[..], c, s, root);
          u, steps := DeleteBalance(parent, 1, c, Leaf, false);
        } else {
          nodes[parent] := nodes[parent].(right := NIL);
          DetachLeaf(N, nodes[..], c, s, root);
          u, steps := DeleteBalance(parent, -1, c, Leaf, false);
        }
      }
      DeletedRearranged(shape, Plug(c, Leaf), u, node, node, s.data, s.data, at);
      HandlesKept(desc[..], desc[..], shape, u, node, node, s.data, s.data, at);
      shape := u;
    }

    /** Copies node `source` over `target`, which adopts its children; the datum that moves
        gets its new handle. */
    method Replace(target: int, source: int)
      requires At(nodes[..], target) && At(nodes[..], source) && target != source
      requires Link(nodes[..], nodes[source].left) && Link(nodes[..], nodes[source].right)
      requires nodes[source].left != target && nodes[source].right != target
      requires 0 <= nodes[target].data < desc.Length && 0 <= nodes[source].data < desc.Length
      modifies nodes, desc
      ensures nodes[target] == old(nodes[source]).(parent := old(nodes[target].parent))
      ensures forall x :: 0 <= x < nodes.Length && x != target ==>
                && (x != old(nodes[source].left) && x != old(nodes[source].right) ==> nodes[x] == old(nodes[x]))
                && (x == old(nodes[source].left) || x == old(nodes[source].right) ==>
                      nodes[x] == old(nodes[x]).(parent := target))
      ensures desc[..] == old(desc[..])[old(nodes[source].data) :=
                            old(desc[nodes[source].data]).(tnode := old(desc[nodes[target].data].tnode))]
    {
      var left := nodes[source].left;
      var right := nodes[source].right;
      var (t, s) := (nodes[target].data, nodes[source].data);
      desc[s] := desc[s].(tnode := desc[t].tnode);
      nodes[target] := nodes[target].(balance := nodes[source].balance);
      nodes[target] := nodes[target].(data := nodes[source].data);
      nodes[target] := nodes[target].(left := left);
      nodes[target] := nodes[target].(right := right);
      Adopt(left, target);
      Adopt(right, target);
    }

    /** The only child, a leaf, is copied over its parent, and its node given up. */
    method CutByChild(node: int, child: int, ghost c: Context, ghost s: Shape)
      returns (ghost at: nat, ghost steps: nat)
      requires Rep(nodes[..], shape, NIL) && root == Root(shape) && Handles(desc[..], shape)
      requires s.Bin? && s.id == node && Plug(c, s) == shape && Base(c) == NIL && child != NIL
      requires (s.l == Leaf && child == Root(s.r)) || (s.r == Leaf && child == Root(s.l))
      modifies this`root, this`shape, nodes, desc
      ensures Rep(nodes[..], shape, NIL) && root == Root(shape)
      ensures 0 <= child < nodes.Length && child != node
      ensures Deleted(old(shape), shape, node, child, s.data, old(nodes[child].data), at)
      ensures Handles(desc[..], shape) && OnlyHandles(old(desc[..]), desc[..], Elems(shape))
      ensures steps <= old(Height(shape))
    {
      hide Rep, Rep', Plug, Elems, Pairs, Ids, Ids', Height, RootOf, Base, Deleted, Before, After, Focus, Shrinking,
           Handles, OnlyHandles;
      ghost var N, D := nodes[..], desc[..];
      ghost var e := ChildFacts(N, c, s, child, root);
      ghost var u := Bin(Leaf, node, e, Leaf);
      at := |Before(c)| + if s.l.Bin? then 1 else 0;
      CopiedChild(c, s, child, e);
      HandleOf(D, shape, node, s.data);
      HandleOf(D, shape, child, e);
      Replace(node, child);
      assert nodes[..] == N[node := Node(N[node].parent, NIL, NIL, e, 0)];
      CopyChild(N, nodes[..], c, s, N[node].balance, e, root);
      DepthHeight(c, s);
      ghost var v;
      v, steps := DeleteBalance(node, 0, c, u, true);
      DeletedRearranged(shape, Plug(c, u), v, node, child, s.data, e, at);
      KeptElem(shape, v, node, child, s.data, e, at);
      HandlesKept(D, desc[..], shape, v, node, child, s.data, e, at);
      shape := v;
    }

    /** Takes the successor out of its place; its right subtree moves up. */
    method Unhook(successor: int, successorParent: int, successorRight: int)
      requires At(nodes[..], successor) && At(nodes[..], successorParent) && Link(nodes[..], successorRight)
      requires nodes[successorParent].left == successor || nodes[successorParent].right == successor
      requires successorRight != successorParent
      modifies nodes
      ensures SameBut(old(nodes[..]), nodes[..], {successorParent, successorRight})
      ensures nodes[successorParent] == Swing(old(nodes[successorParent]), successor, successorRight)
      ensures Adopted(old(nodes[..]), nodes[..], successorRight, successorParent)
    {
      if nodes[successorParent].left == successor {
        nodes[successorParent] := nodes[successorParent].(left := successorRight);
      } else {
        nodes[successorParent] := nodes[successorParent].(right := successorRight);
      }
      Adopt(successorRight, successorParent);
    }

    method UnhookSuccessor(successor: int, ghost cc: Context, ghost t: Shape) returns (successorParent: int)
      requires t.Bin? && t.l == Leaf && t.id == successor && cc.Frame? && cc.left
      requires Lagging(nodes[..], cc, t, Height(t), root)
      modifies nodes
      ensures Lagging(nodes[..], cc, t.r, Height(t.r) + 1, root) && successorParent == cc.id
      ensures SameBut(old(nodes[..]), nodes[..], {cc.id, Root(t.r)})
    {
      hide Rep, Rep', Ids, Ids', RootOf, Base, Lagging, Height;
      ghost var N := nodes[..];
      UnhookReady(N, cc, t, root);
      successorParent := nodes[successor].parent;
      var successorRight := nodes[successor].right;
      Unhook(successor, successorParent, successorRight);
      Unhooked(N, nodes[..], cc, t, root);
    }

    /** A leftmost node, already unhooked, takes the place of `node`. */
    method PromoteFar(node: int, left: int, right: int, successor: int)
      requires CanPromoteFar(nodes[..], node, successor, root) && left == nodes[node].left && right == nodes[node].right
      modifies this`root, nodes
      ensures PromotedFar(old(nodes[..]), nodes[..], node, successor, old(root), root)
    {
      var parent := nodes[node].parent;
      nodes[successor] := nodes[successor].(parent := parent);
      nodes[successor] := nodes[successor].(left := left);
      nodes[successor] := nodes[successor].(balance := nodes[node].balance);
      nodes[successor] := nodes[successor].(right := right);
      nodes[right] := nodes[right].(parent := successor);
      Adopt(left, successor);
      Rehang(node, parent, successor);
    }

    method PromoteLeftmost(node: int, left: int, right: int, successor: int, ghost cc: Context, ghost base: Context,
                           ghost t: Shape)
      requires Vacated(nodes[..], cc, base, t, root) && base.id == node && At(nodes[..], node)
      requires left == nodes[node].left && right == nodes[node].right
      requires At(nodes[..], successor) && successor !in Ids'(cc) && successor !in Ids(t)
      modifies this`root, nodes
      ensures Shrinking(nodes[..],
                        Subst(cc, base, Frame(base.up, false, successor, old(nodes[successor].data), base.sib)),
                        t, root, cc.id, 1, false)
    {
      hide Rep, Rep', Plug, Ids, Ids', RootOf, Base, Lagging, Subst, Spine, Height, Shrinking, PromotedFar;
      ghost var N := nodes[..];
      FarReady(N, cc, base, t, successor, root);
      PromoteFar(node, left, right, successor);
      FarRep(N, nodes[..], cc, base, t, successor, old(root), root);
    }

    /** The leftmost node below `right`. */
    method Leftmost(right: int, ghost base: Context, ghost r: Shape)
      returns (successor: int, ghost cc: Context, ghost t: Shape, ghost steps: nat)
      requires Rep(nodes[..], shape, NIL) && root == Root(shape) && Plug(base, r) == shape && Base(base) == NIL
      requires base.Frame? && !base.left && r.Bin? && r.id == right && r.l.Bin?
      ensures t.Bin? && t.l == Leaf && successor == t.id && Plug(cc, t) == shape && Base(cc) == NIL
      ensures Spine(cc, base) && cc != base && steps <= Depth(cc)
    {
      hide Rep, Rep', Ids, Ids', Height, RootOf;
      successor := right;
      cc, t, steps := base, r, 0;
      FocusOn(nodes[..], cc, t, root);
      FocusOpens(nodes[..], cc, t, Height(t.r) - Height(t.l), Height(t), root);
      while nodes[successor].left != NIL
        invariant t.Bin? && successor == t.id && Plug(cc, t) == shape && Base(cc) == NIL
        invariant At(nodes[..], successor) && nodes[successor].left == Root(t.l) && (t.l.Bin? ==> t.l.id != NIL)
        invariant steps <= Depth(cc)
        invariant Spine(cc, base) && (cc != base || t.l.Bin?)
        decreases t
      {
        cc, t, steps := Frame(cc, true, t.id, t.data, t.r), t.l, steps + 1;
        successor := nodes[successor].left;
        FocusOn(nodes[..], cc, t, root);
        FocusOpens(nodes[..], cc, t, Height(t.r) - Height(t.l), Height(t), root);
      }
    }

    method CutByLeftmost(node: int, left: int, right: int, ghost base: Context, ghost r: Shape)
      returns (ghost u: Shape, ghost steps: nat)
      requires Rep(nodes[..], shape, NIL) && root == Root(shape) && Plug(base, r) == shape && Base(base) == NIL
      requires base.Frame? && !base.left && base.id == node && base.sib.Bin? && base.sib.id == left
      requires r.Bin? && r.id == right && r.l.Bin?
      modifies this`root, nodes
      ensures Rep(nodes[..], u, NIL) && root == Root(u) && |Before(base)| > 0
      ensures Deleted(shape, u, node, node, base.data, base.data, |Before(base)| - 1)
      ensures steps <= 2 * Height(shape)
    {
      hide Rep, Rep', Plug, Elems, Pairs, Ids, Ids', RootOf, Base, Deleted, Before, After, Lagging, Subst, Spine,
           Height, Shrinking;
      ghost var N := nodes[..];
      ghost var cc, t, down, up;
      var successor;
      successor, cc, t, down := Leftmost(right, base, r);
      DepthHeight(cc, t);
      Succeeded(N, cc, base, t, root);
      BaseLinks(N, base, r, root);
      FocusOn(N, cc, t, root);
      LeftmostFresh(N, cc, base, t, root);
      ghost var cc' := Subst(cc, base, Frame(base.up, false, t.id, t.data, base.sib));
      var successorParent := UnhookSuccessor(successor, cc, t);
      assert nodes[successor] == N[successor] && nodes[node] == N[node];
      PromoteLeftmost(node, left, right, successor, cc, base, t.r);
      SubstDepth(cc, base, Frame(base.up, false, t.id, t.data, base.sib));
      u, up := DeleteBalance(successorParent, 1, cc', t.r, false);
      steps := down + up;
      DeletedRearranged(shape, Plug(cc', t.r), u, node, node, base.data, base.data, |Before(base)| - 1);
    }

    /** The right child takes its parent's place. */
    method PromoteNear(node: int, left: int, successor: int)
      requires CanPromote(nodes[..], node, successor, root) && left == nodes[node].left
      modifies this`root, nodes
      ensures PromotedNear(old(nodes[..]), nodes[..], node, successor, old(root), root)
    {
      var parent := nodes[node].parent;
      nodes[successor] := nodes[successor].(parent := parent);
      nodes[successor] := nodes[successor].(left := left);
      nodes[successor] := nodes[successor].(balance := nodes[node].balance);
      Adopt(left, successor);
      Rehang(node, parent, successor);
    }

    /** The in-order successor takes the place of a node with two children. */
    method CutBySuccessor(node: int, left: int, right: int, ghost c: Context, ghost s: Shape)
      returns (ghost at: nat, ghost steps: nat)
      requires Rep(nodes[..], shape, NIL) && root == Root(shape) && Handles(desc[..], shape)
      requires s.Bin? && s.id == node && s.l.Bin? && s.r.Bin? && Plug(c, s) == shape && Base(c) == NIL
      requires left == s.l.id && right == s.r.id
      modifies this`root, this`shape, nodes
      ensures Rep(nodes[..], shape, NIL) && root == Root(shape)
      ensures Deleted(old(shape), shape, node, node, s.data, s.data, at)
      ensures Handles(desc[..], shape) && steps <= 2 * old(Height(shape))
    {
      hide Rep, Rep', Plug, Elems, Pairs, Ids, Ids', RootOf, Base, Handles, Deleted, Before, After;
      ghost var N := nodes[..];
      BaseFacts(N, c, s, root);
      ghost var base := Frame(c, false, node, s.data, s.l);
      at := |Before(base)| - 1;
      ghost var u;
      if nodes[right].left == NIL {
        Succeeded(N, base, base, s.r, root);
        NearReady(N, c, s, N[node].balance, root);
        PromoteNear(node, left, right);
        NearRep(N, nodes[..], c, s, N[node].balance, old(root), root);
        ghost var cc := Subst(base, base, Frame(c, false, s.r.id, s.r.data, s.l));
        DepthHeight(c, s);
        u, steps := DeleteBalance(right, -1, cc, s.r.r, false);
        DeletedRearranged(shape, Plug(cc, s.r.r), u, node, node, s.data, s.data, at);
      } else {
        u, steps := CutByLeftmost(node, left, right, base, s.r);
      }
      HandlesKept(desc[..], desc[..], shape, u, node, node, s.data, s.data, at);
      shape := u;
    }

    /** Takes out the datum that `node` holds.  The order of the data plays no part. */
    method DeleteNode(node: int) returns (ghost at: nat, ghost steps: nat)
      requires Valid() && node in Ids(shape) && Handles(desc[..], shape)
      modifies this, nodes, freeNodes, desc
      ensures Valid() && nextFreeNode == old(nextFreeNode) + 1
      ensures 0 <= node < nodes.Length && at < |old(Items())| && old(Items())[at] == old(nodes[node].data)
      ensures Items() == Without(old(Items()), at)
      ensures Handles(desc[..], shape) && OnlyHandles(old(desc[..]), desc[..], Items())
      ensures steps <= 2 * old(Height(shape))
    {
      hide Rep, Rep', Plug, Elems, Pairs, Ids, Ids', Height, RootOf, Base, Handles;
      ghost var N, F, k, t := nodes[..], freeNodes[..], nextFreeNode, shape;
      ghost var c, s := Located(N, shape, root, node);
      var left := nodes[node].left;
      var right := nodes[node].right;
      var toDelete := node;
      ghost var moved := s.data;
      if left == NIL {
        if right == NIL {
          at, steps := CutLeaf(node, c, s);
        } else {
          at, steps := CutByChild(node, right, c, s);
          toDelete, moved := right, N[right].data;
        }
      } else if right == NIL {
        at, steps := CutByChild(node, left, c, s);
        toDelete, moved := left, N[left].data;
      } else {
        at, steps := CutBySuccessor(node, left, right, c, s);
      }
      PoolRoom(t, F, k, |N|);
      nextFreeNode := nextFreeNode + 1;
      freeNodes[nextFreeNode] := toDelete;
      DeleteDone(nodes[..], root, t, shape, F, freeNodes[..], k, node, toDelete, s.data, moved, at);
    }
  }
}
