/** The red-black tree of src/core/ngx_rbtree.c on linked nodes with parent pointers and a shared
  * black sentinel.  The loops climb through `parent`; ghost values track where they stand as a
  * pair (t, c): the shape under the current pointer and the context above it. */
module RbTree {
  import opened RbShape

  /** Which of the two insertion functions the tree was initialised with. */
  datatype Order = ByValue | ByTimer

  /** The difference of two words read as a signed word. */
  function SignedDiff(a: Key, b: Key): int {
    var d := (a - b) % WORD;
    if d < WORD / 2 then d else d - WORD
  }

  /** The test that sends a new node with key a to the left of one with key b. */
  predicate GoesLeft(order: Order, a: Key, b: Key) {
    match order
    case ByValue => a < b
    case ByTimer => SignedDiff(a, b) < 0
  }

  /** k separates the entries that stay before a new key from those that come after it. */
  ghost predicate SplitsAt<X>(order: Order, s: seq<Entry<X>>, key: Key, k: nat) {
    && k <= |s|
    && (forall i :: 0 <= i < k ==> !GoesLeft(order, key, s[i].key))
    && (forall i :: k <= i < |s| ==> GoesLeft(order, key, s[i].key))
  }

  class Node {
    var key: Key
    var left: Node?
    var right: Node?
    var parent: Node?
    var red: bool

    constructor (key: Key)
      ensures this.key == key
    {
      this.key := key;
      left, right, parent, red := null, null, null, false;
    }
  }

  /** x stores what i says. */
  ghost predicate Stores(x: Node, i: Info<Node>)
    reads x
  {
    && x.left == i.left && x.right == i.right && x.red == i.red && x.key == i.key
    && (i.up.Under? ==> x.parent == i.up.node)
  }

  ghost predicate Mirrors(m: map<Node, Info<Node>>)
    reads m.Keys
  {
    forall x :: x in m ==> Stores(x, m[x])
  }

  class RbTree {
    var root: Node
    const sentinel: Node
    const order: Order
    ghost var shape: Shape<Node>

    /** The linked nodes form the shape w.  Nothing is said of root.parent and sentinel.parent,
      * which the code lets go stale. */
    ghost predicate InHeap(w: Shape<Node>)
      reads this`root, Nodes(w)
    {
      && Distinct(w) && sentinel !in Nodes(w) && root == Ptr(w, sentinel)
      && Mirrors(Links(w, Loose, sentinel))
    }

    ghost predicate Valid()
      reads this, sentinel, Nodes(shape)
    {
      InHeap(shape) && RedBlack(shape) && !sentinel.red
    }

    constructor (sentinel: Node, order: Order)
      modifies sentinel
      ensures Valid() && shape == Nil && this.sentinel == sentinel && this.order == order
    {
      this.sentinel, this.order := sentinel, order;
      root := sentinel;
      shape := Nil;
      new;
      sentinel.red := false;
    }

    /** What the code can read at a focus t in context c. */
    lemma See(t: Shape<Node>, c: Context<Node>)
      requires InHeap(Plug(c, t))
      ensures sentinel !in Nodes(Plug(c, t))
      ensures t.Bin? ==>
        && t.node in Nodes(Plug(c, t)) && t.node != sentinel
        && Stores(t.node, RootInfo(t, CtxUp(c), sentinel))
      ensures !c.Top? ==>
        && c.node in Nodes(Plug(c, t)) && c.node != sentinel
        && Stores(c.node, HoleInfo(c, Ptr(t, sentinel), sentinel))
      ensures t.Bin? && !c.Top? ==> t.node != c.node
    {
      Look(c, t, sentinel);
    }

    /** The root pointer is the focused node exactly in the empty context. */
    lemma RootIsTop(t: Shape<Node>, c: Context<Node>)
      requires InHeap(Plug(c, t))
      ensures root == Ptr(t, sentinel) <==> c.Top?
    {
      if !c.Top? {
        PlugNodes(c, t);
        PlugBin(c, t);
      }
    }

    /** A node is the left child of its parent exactly in a left context. */
    lemma ChildrenDiffer(t: Shape<Node>, c: Context<Node>)
      requires InHeap(Plug(c, t)) && t.Bin? && !c.Top?
      ensures t.node == c.node.left <==> c.InLeft?
      ensures t.node == c.node.right <==> c.InRight?
    {
      See(t, c);
      PlugNodes(c, t);
    }

    // ---------- local changes ----------

    /** ngx_rbt_red and ngx_rbt_black. */
    method SetColour(node: Node, red: bool, ghost m: map<Node, Info<Node>>)
      requires Mirrors(m) && node in m
      modifies node`red
      ensures Mirrors(m[node := m[node].(red := red)])
    {
      node.red := red;
    }

    method Paint(node: Node, red: bool, ghost t: Shape<Node>, ghost c: Context<Node>)
      requires InHeap(Plug(c, t)) && t.Bin? && t.node == node
      modifies node`red
      ensures InHeap(Plug(c, t.(red := red))) && Same(Plug(c, t), Plug(c, t.(red := red)))
    {
      PaintDelta(c, t, red, sentinel);
      Look(c, t, sentinel);
      if !c.Top? { PlugRoot(c, t, t.(red := red), sentinel); }
      SetColour(node, red, Links(Plug(c, t), Loose, sentinel));
    }

    ghost function Unless(near: Node): set<Node> { if near == sentinel then {} else {near} }

    ghost function Upper(above: Parent<Node>): set<Node> { if above.Under? then {above.node} else {} }

    /** The writes of ngx_rbtree_left_rotate. */
    method LeftLinks(node: Node, ghost child: Node, ghost near: Node, ghost above: Parent<Node>)
      requires child != node && near != node && near != child && node.right == child && child.left == near
      requires child != sentinel && (node == root <==> above.Loose?)
      requires above.Under? ==> node.parent == above.node && above.node !in {node, child, near, sentinel}
      requires above.Under? ==> (above.node.left == node <==> above.node.right != node)
      modifies this`root, node`right, node`parent, child`left, child`parent, Unless(near)`parent, Upper(above)`left,
        Upper(above)`right
      ensures node.right == near && node.parent == child && child.left == node
        && (near != sentinel ==> near.parent == node)
      ensures above.Under? ==> child.parent == above.node
      ensures above.Under? ==> above.node.left == if old(above.node.left) == node then child else old(above.node.left)
      ensures above.Under? ==> above.node.right == if old(above.node.left) == node then old(above.node.right) else child
      ensures root == if above.Loose? then child else old(root)
    {
      var temp := node.right;
      node.right := temp.left;
      if temp.left != sentinel {
        temp.left.parent := node;
      }
      temp.parent := node.parent;
      if node == root {
        root := temp;
      } else if node == node.parent.left {
        node.parent.left := temp;
      } else {
        node.parent.right := temp;
      }
      temp.left := node;
      node.parent := temp;
    }

    method LeftRotate(node: Node, ghost child: Node, ghost near: Node, ghost above: Parent<Node>,
                      ghost m: map<Node, Info<Node>>, ghost m': map<Node, Info<Node>>)
      requires Poised(m, node, child, near, above, sentinel) && Rotation(m, m', node, child, near, above, sentinel)
      requires Mirrors(m) && (node == root <==> above.Loose?)
      modifies this`root, m.Keys
      ensures Mirrors(m') && root == if above.Loose? then child else old(root)
    {
      assert Stores(node, m[node]) && Stores(child, m[child]);
      assert above.Under? ==> Stores(above.node, m[above.node]);
      assert near != sentinel ==> Stores(near, m[near]);
      LeftLinks(node, child, near, above);
      assert Stores(node, m'[node]) && Stores(child, m'[child]);
      assert above.Under? ==> Stores(above.node, m'[above.node]);
      assert near != sentinel ==> Stores(near, m'[near]);
      forall x | x in m' && x != node && x != child && x != near && above != Under(x) ensures Stores(x, m'[x]) {
        assert old(Stores(x, m[x]));
      }
    }

    /** The writes of ngx_rbtree_right_rotate. */
    method RightLinks(node: Node, ghost child: Node, ghost near: Node, ghost above: Parent<Node>)
      requires child != node && near != node && near != child && node.left == child && child.right == near
      requires child != sentinel && (node == root <==> above.Loose?)
      requires above.Under? ==> node.parent == above.node && above.node !in {node, child, near, sentinel}
      requires above.Under? ==> (above.node.left == node <==> above.node.right != node)
      modifies this`root, node`left, node`parent, child`right, child`parent, Unless(near)`parent, Upper(above)`left,
        Upper(above)`right
      ensures node.left == near && node.parent == child && child.right == node
        && (near != sentinel ==> near.parent == node)
      ensures above.Under? ==> child.parent == above.node
      ensures above.Under? ==> above.node.left == if old(above.node.left) == node then child else old(above.node.left)
      ensures above.Under? ==> above.node.right == if old(above.node.left) == node then old(above.node.right) else child
      ensures root == if above.Loose? then child else old(root)
    {
      var temp := node.left;
      node.left := temp.right;
      if temp.right != sentinel {
        temp.right.parent := node;
      }
      temp.parent := node.parent;
      if node == root {
        root := temp;
      } else if node == node.parent.right {
        node.parent.right := temp;
      } else {
        node.parent.left := temp;
      }
      temp.right := node;
      node.parent := temp;
    }

    /** The mirror image: m' is left-rotated into m. */
    method RightRotate(node: Node, ghost child: Node, ghost near: Node, ghost above: Parent<Node>,
                       ghost m: map<Node, Info<Node>>, ghost m': map<Node, Info<Node>>)
      requires Poised(m', child, node, near, above, sentinel) && Rotation(m', m, child, node, near, above, sentinel)
      requires Mirrors(m) && (node == root <==> above.Loose?)
      modifies this`root, m.Keys
      ensures Mirrors(m') && root == if above.Loose? then child else old(root)
    {
      assert Stores(node, m[node]) && Stores(child, m[child]);
      assert above.Under? ==> Stores(above.node, m[above.node]);
      assert near != sentinel ==> Stores(near, m[near]);
      RightLinks(node, child, near, above);
      assert Stores(node, m'[node]) && Stores(child, m'[child]);
      assert above.Under? ==> Stores(above.node, m'[above.node]);
      assert near != sentinel ==> Stores(near, m'[near]);
      forall x | x in m' && x != node && x != child && x != near && above != Under(x) ensures Stores(x, m'[x]) {
        assert old(Stores(x, m[x]));
      }
    }

    method RotateLeftAt(node: Node, ghost t: Shape<Node>, ghost c: Context<Node>)
      requires InHeap(Plug(c, t)) && t.Bin? && t.right.Bin? && t.node == node
      modifies this`root, Nodes(Plug(c, t))
      ensures InHeap(Plug(c, RotatedLeft(t))) && Same(Plug(c, t), Plug(c, RotatedLeft(t)))
    {
      LinksRotate(c, t, sentinel);
      RotateLeftSame(t, c);
      RootIsTop(t, c);
      if !c.Top? { PlugRoot(c, t, RotatedLeft(t), sentinel); }
      LeftRotate(node, t.right.node, Ptr(t.right.left, sentinel), CtxUp(c),
                 Links(Plug(c, t), Loose, sentinel), Links(Plug(c, RotatedLeft(t)), Loose, sentinel));
    }

    method RotateRightAt(node: Node, ghost t: Shape<Node>, ghost c: Context<Node>)
      requires InHeap(Plug(c, t)) && t.Bin? && t.left.Bin? && t.node == node
      modifies this`root, Nodes(Plug(c, t))
      ensures InHeap(Plug(c, RotatedRight(t))) && Same(Plug(c, t), Plug(c, RotatedRight(t)))
    {
      ghost var r := RotatedRight(t);
      RotateRightSame(t, c);
      assert RotatedLeft(r) == t;
      LinksRotate(c, r, sentinel);
      RootIsTop(t, c);
      if !c.Top? { PlugRoot(c, t, r, sentinel); }
      RightRotate(node, t.left.node, Ptr(t.left.right, sentinel), CtxUp(c),
                  Links(Plug(c, t), Loose, sentinel), Links(Plug(c, r), Loose, sentinel));
    }

    // ---------- insertion ----------

    /** One comparison of the descent narrows the room for the insertion point. */
    lemma Narrow(t: Shape<Node>, c: Context<Node>, key: Key, goLeft: bool)
      requires t.Bin? && goLeft == GoesLeft(order, key, t.key)
      ensures forall j: nat :: SplitsAt(order, Entries(Plug(c, t)), key, j) ==>
                if goLeft then j <= |Before(c)| + |Entries(t.left)|
                else |Before(c)| + |Entries(t.left)| + 1 <= j
    {
      PlugEntries(c, t);
      assert Entries(Plug(c, t))[|Before(c)| + |Entries(t.left)|] == Entry(t.node, t.key);
    }

    lemma SplitsWithin(key: Key)
      ensures forall j: nat :: SplitsAt(order, Entries(shape), key, j) ==> j <= |Entries(shape)|
    {
    }

    /** ngx_rbtree_insert_value and ngx_rbtree_insert_timer_value, which differ in the comparison. */
    method InsertBinary(root: Node, node: Node) returns (ghost t: Shape<Node>, ghost c: Context<Node>)
      requires InHeap(shape) && shape.Bin? && root == this.root
      requires node != sentinel && node !in Nodes(shape)
      modifies node`left, node`right, node`parent, node`red, Nodes(shape)
      ensures t == Bin(true, Nil, node, node.key, Nil) && InHeap(Plug(c, t)) && !c.Top?
      ensures Plug(c, Nil) == shape && Nodes(Plug(c, t)) == Nodes(shape) + {node}
      ensures forall j: nat :: SplitsAt(order, Entries(shape), node.key, j) ==> j == |Before(c)|
    {
      SplitsWithin(node.key);
      hide SplitsAt, Nodes, Mirrors, Distinct;
      var temp: Node := root;
      t, c := shape, Top;
      var goLeft;
      while true
        invariant InHeap(shape) && t.Bin? && t.node == temp && Plug(c, t) == shape
        invariant forall j: nat :: SplitsAt(order, Entries(shape), node.key, j)
                    ==> |Before(c)| <= j <= |Before(c)| + |Entries(t)|
        decreases t
      {
        See(t, c);
        goLeft := GoesLeft(order, node.key, temp.key);
        var p := if goLeft then temp.left else temp.right;
        Narrow(t, c, node.key, goLeft);
        if goLeft {
          t, c := t.left, LeftOf(t, c);
        } else {
          t, c := t.right, RightOf(t, c);
        }
        See(t, c);
        if p == sentinel {
          break;
        }
        temp := p;
      }
      t := Bin(true, Nil, node, node.key, Nil);
      PutBelow(temp, goLeft, node, c);
    }

    /** The new node becomes a child of the last node of the descent. */
    method PutBelow(temp: Node, goLeft: bool, node: Node, ghost c: Context<Node>)
      requires InHeap(Plug(c, Nil)) && !c.Top? && c.node == temp && (goLeft <==> c.InLeft?)
      requires node != sentinel && node !in Nodes(Plug(c, Nil))
      modifies node`left, node`right, node`parent, node`red, temp`left, temp`right
      ensures var t := Bin(true, Nil, node, node.key, Nil);
        InHeap(Plug(c, t)) && Nodes(Plug(c, t)) == Nodes(Plug(c, Nil)) + {node}
    {
      ghost var t := Bin(true, Nil, node, node.key, Nil);
      AttachDelta(c, t, sentinel);
      PlugRoot(c, t, Nil, sentinel);
      Look(c, Nil, sentinel);
      Attach(temp, goLeft, node, Links(Plug(c, Nil), Loose, sentinel));
    }

    method Attach(temp: Node, goLeft: bool, node: Node, ghost m: map<Node, Info<Node>>)
      requires Mirrors(m) && temp in m && node !in m && node != temp
      modifies node`left, node`right, node`parent, node`red, temp`left, temp`right
      ensures var i := if goLeft then m[temp].(left := node) else m[temp].(right := node);
        Mirrors(m[temp := i][node := Info(sentinel, sentinel, true, node.key, Under(temp))])
    {
      assert Stores(temp, m[temp]);
      if goLeft {
        temp.left := node;
      } else {
        temp.right := node;
      }
      node.parent := temp;
      node.left := sentinel;
      node.right := sentinel;
      node.red := true;
      assert forall x :: x in m && x != temp ==> Stores(x, m[x]);
    }

    method Insert(node: Node) returns (ghost k: nat)
      requires Valid() && node != sentinel && node !in Nodes(shape)
      modifies this, node, Nodes(shape)
      ensures Valid() && node.key == old(node.key)
      ensures k <= |old(Entries(shape))|
      ensures Entries(shape) == old(Entries(shape))[..k] + [Entry(node, node.key)] + old(Entries(shape))[k..]
      ensures forall j: nat :: SplitsAt(order, old(Entries(shape)), node.key, j) ==> j == k
      ensures Nodes(shape) == old(Nodes(shape)) + {node}
    {
      hide InHeap, Nodes, Entries, Distinct, Plug, Coloured;
      RootIsNil();
      if root == sentinel {
        InsertFirst(node);
        return 0;
      }
      ghost var t, c := InsertBinary(root, node);
      UnplugColours(c, Nil);
      LeafEntries(c, t);
      LeafFocus(t, c);
      k := |Before(c)|;
      InsertFixup(node, t, c);
      assert Entries(shape)[k] == Entry(node, old(node.key));
      KeysStored(Entries(shape)[k]);
    }

    lemma RootIsNil()
      requires InHeap(shape)
      ensures root == sentinel <==> shape.Nil?
      ensures sentinel !in Nodes(shape) && (shape.Nil? ==> Entries(shape) == [] && Nodes(shape) == {})
    {
    }

    method InsertFirst(node: Node)
      requires node != sentinel && !sentinel.red
      modifies this, node`left, node`right, node`parent, node`red
      ensures Valid() && Entries(shape) == [Entry(node, node.key)] && Nodes(shape) == {node}
    {
      node.parent := null;
      node.left := sentinel;
      node.right := sentinel;
      node.red := false;
      root := node;
      shape := Bin(false, Nil, node, node.key, Nil);
      LeafLinks(shape, Loose, sentinel);
      assert Coloured(shape.left) && Coloured(shape.right);
    }

    /** Every entry's key is the one its node stores. */
    lemma KeysStored(e: Entry<Node>)
      requires InHeap(shape) && e in Entries(shape)
      ensures e.node.key == e.key
    {
      EntryInfo(shape, Loose, e, sentinel);
    }

    method InsertFixup(node0: Node, ghost t0: Shape<Node>, ghost c0: Context<Node>)
      requires InHeap(Plug(c0, t0)) && RedFocus(t0, c0) && t0.node == node0 && !sentinel.red
      modifies this, Nodes(Plug(c0, t0))
      ensures Valid() && Same(Plug(c0, t0), shape)
    {
      hide InHeap, Plug, Nodes, Entries, Distinct, Coloured, Accepts, BlackHeight;
      var node := node0;
      ghost var t, c := t0, c0;
      RootIsTop(t, c);
      See(t, c);
      while node != root && node.parent.red
        invariant InHeap(Plug(c, t)) && RedFocus(t, c) && t.node == node && !sentinel.red
        invariant Same(Plug(c0, t0), Plug(c, t))
        invariant node == root <==> c.Top?
        invariant !c.Top? ==> node.parent == c.node && c.node.red == c.red
        decreases Depth(c)
      {
        See(t, c);
        Up(t, c);
        RedHasParent(t, c);
        See(Enclose(c, t), c.up);
        ChildrenDiffer(Enclose(c, t), c.up);
        if node.parent == node.parent.parent.left {
          node, t, c := InsertFixLeft(node, t, c);
        } else {
          node, t, c := InsertFixRight(node, t, c);
        }
        RootIsTop(t, c);
        See(t, c);
      }
      FinishInsert(t, c);
    }

    /** The root is painted black whatever it was. */
    method FinishInsert(ghost t: Shape<Node>, ghost c: Context<Node>)
      requires InHeap(Plug(c, t)) && RedFocus(t, c) && (c.Top? || !c.red) && !sentinel.red
      modifies this, Nodes(Plug(c, t))
      ensures Valid() && Same(Plug(c, t), shape)
    {
      if !c.Top? { PlugColours(c, t); PlugBin(c, t); }
      shape := Plug(c, t);
      Paint(root, false, shape, Top);
      shape := shape.(red := false);
    }

    method InsertFixLeft(node0: Node, ghost t0: Shape<Node>, ghost c0: Context<Node>)
      returns (node: Node, ghost t: Shape<Node>, ghost c: Context<Node>)
      requires InHeap(Plug(c0, t0)) && RedFocus(t0, c0) && t0.node == node0 && !sentinel.red
      requires !c0.Top? && c0.red && c0.up.InLeft?
      modifies this`root, Nodes(Plug(c0, t0))
      ensures InHeap(Plug(c, t)) && RedFocus(t, c) && t.node == node
      ensures Same(Plug(c0, t0), Plug(c, t))
      ensures Depth(c) < Depth(c0)
    {
      hide InHeap, Plug, Nodes, Entries, Distinct, Coloured, Accepts, BlackHeight;
      node, t, c := node0, t0, c0;
      ghost var top, p, g := c.up.up, Enclose(c, t), Enclose(c.up, Enclose(c, t));
      Up(t, c);
      Up(p, c.up);
      Down(g, top);
      See(t, c);
      ChildrenDiffer(t, c);
      See(g, top);
      See(g.right, RightOf(g, top));
      var temp := node.parent.parent.right;
      if temp.red {
        RecolourColours(t, c);
        Paint(node.parent, false, p, c.up);
        Up(p.(red := false), c.up);
        t, c := g.(left := p.(red := false)), top;
        Down(t, c);
        Paint(temp, false, t.right, RightOf(t, c));
        Up(t.right.(red := false), RightOf(t, c));
        t := t.(right := t.right.(red := false));
        Paint(node.parent.parent, true, t, c);
        t := t.(red := true);
        node := node.parent.parent;
      } else {
        if node == node.parent.right {
          OuterLeftColours(t, c);
          node := node.parent;
          RotateLeftAt(node, p, c.up);
          p := RotatedLeft(p);
          Down(p, c.up);
          t, c := p.left, LeftOf(p, c.up);
          See(t, c);
          See(p, c.up);
        }
        RaiseLeftColours(t, c);
        Paint(node.parent, false, p, c.up);
        Up(p.(red := false), c.up);
        g := g.(left := p.(red := false));
        Paint(node.parent.parent, true, g, top);
        g := g.(red := true);
        RotateRightAt(node.parent.parent, g, top);
        Down(RotatedRight(g), top);
        c := LeftOf(RotatedRight(g), top);
      }
    }

    method InsertFixRight(node0: Node, ghost t0: Shape<Node>, ghost c0: Context<Node>)
      returns (node: Node, ghost t: Shape<Node>, ghost c: Context<Node>)
      requires InHeap(Plug(c0, t0)) && RedFocus(t0, c0) && t0.node == node0 && !sentinel.red
      requires !c0.Top? && c0.red && c0.up.InRight?
      modifies this`root, Nodes(Plug(c0, t0))
      ensures InHeap(Plug(c, t)) && RedFocus(t, c) && t.node == node
      ensures Same(Plug(c0, t0), Plug(c, t))
      ensures Depth(c) < Depth(c0)
    {
      hide InHeap, Plug, Nodes, Entries, Distinct, Coloured, Accepts, BlackHeight;
      node, t, c := node0, t0, c0;
      ghost var top, p, g := c.up.up, Enclose(c, t), Enclose(c.up, Enclose(c, t));
      Up(t, c);
      Up(p, c.up);
      Down(g, top);
      See(t, c);
      ChildrenDiffer(t, c);
      See(g, top);
      See(g.left, LeftOf(g, top));
      var temp := node.parent.parent.left;
      if temp.red {
        RecolourColours(t, c);
        Paint(node.parent, false, p, c.up);
        Up(p.(red := false), c.up);
        t, c := g.(right := p.(red := false)), top;
        Down(t, c);
        Paint(temp, false, t.left, LeftOf(t, c));
        Up(t.left.(red := false), LeftOf(t, c));
        t := t.(left := t.left.(red := false));
        Paint(node.parent.parent, true, t, c);
        t := t.(red := true);
        node := node.parent.parent;
      } else {
        if node == node.parent.left {
          OuterRightColours(t, c);
          node := node.parent;
          RotateRightAt(node, p, c.up);
          p := RotatedRight(p);
          Down(p, c.up);
          t, c := p.right, RightOf(p, c.up);
          See(t, c);
          See(p, c.up);
        }
        RaiseRightColours(t, c);
        Paint(node.parent, false, p, c.up);
        Up(p.(red := false), c.up);
        g := g.(right := p.(red := false));
        Paint(node.parent.parent, true, g, top);
        g := g.(red := true);
        RotateLeftAt(node.parent.parent, g, top);
        Down(RotatedLeft(g), top);
        c := RightOf(RotatedLeft(g), top);
      }
    }

    // ---------- deletion ----------

    /** ngx_rbtree_min. */
    method Min(node0: Node, ghost t: Shape<Node>, ghost c: Context<Node>)
      returns (node: Node, ghost inner: Context<Node>, ghost s: Shape<Node>)
      requires InHeap(Plug(c, t)) && t.Bin? && t.node == node0
      ensures s.Bin? && s.left.Nil? && s.node == node && Plug(inner, s) == t && LeftSpine(inner)
      ensures InHeap(Plug(c, t))
    {
      node := node0;
      inner, s := Top, t;
      GraftPlug(inner, c, s);
      See(s, Graft(inner, c));
      while node.left != sentinel
        invariant InHeap(Plug(c, t))
        invariant s.Bin? && s.node == node && Plug(inner, s) == t && LeftSpine(inner)
        invariant node.left == Ptr(s.left, sentinel)
        decreases s
      {
        node := node.left;
        inner, s := LeftOf(s, inner), s.left;
        GraftPlug(inner, c, s);
        See(s, Graft(inner, c));
      }
      GraftPlug(inner, c, s);
      See(s, Graft(inner, c));
      See(s.left, LeftOf(s, Graft(inner, c)));
    }

    /** Bridge subst: the link that led to it leads to temp. */
    method Splice(subst: Node, temp: Node, newParent: Node,
                  ghost m: map<Node, Info<Node>>, ghost m': map<Node, Info<Node>>, ghost above: Node)
      requires Mirrors(m) && Spliced(m, m', subst, temp, above) && subst != temp
      modifies above`left, above`right, temp`parent
      ensures forall x :: x in m' && x != temp ==> Stores(x, m'[x])
      ensures temp in m' ==> Stores(temp, m'[temp].(up := Under(newParent)))
      ensures temp.parent == newParent
    {
      assert Stores(subst, m[subst]) && Stores(above, m[above]);
      assert temp in m ==> Stores(temp, m[temp]);
      if subst == subst.parent.left {
        subst.parent.left := temp;
      } else {
        subst.parent.right := temp;
      }
      temp.parent := newParent;
      assert Stores(above, m'[above]);
      forall x | x in m' && x != above && x != temp ensures Stores(x, m'[x]) {
        assert Stores(x, m[x]);
      }
    }

    /** subst takes over node's links, colour and place; the children still look to node. */
    method CopyPlace(node: Node, subst: Node, ghost m: map<Node, Info<Node>>, ghost m': map<Node, Info<Node>>)
      requires Renamed(m, m', node, subst, subst.key, sentinel)
      requires forall x :: x in m && x != m[node].left && x != m[node].right ==> Stores(x, m[x])
      requires forall x :: x in m && (x == m[node].left || x == m[node].right) ==> Stores(x, m[x].(up := Loose))
      requires node == root <==> m[node].up.Loose?
      modifies this`root, m.Keys, subst
      ensures forall x :: x in m' && x != m[node].left && x != m[node].right ==> Stores(x, m'[x])
      ensures forall x :: x in m' && (x == m[node].left || x == m[node].right) ==> Stores(x, m'[x].(up := Loose))
      ensures root == if m[node].up.Loose? then subst else old(root)
      ensures subst.key == old(subst.key)
    {
      ghost var i := m[node];
      assert Stores(node, i) && (i.up.Under? ==> Stores(i.up.node, m[i.up.node]));
      CopyLinks(node, subst, i.up);
      assert Stores(subst, m'[subst]);
      assert i.up.Under? ==> Stores(i.up.node, m'[i.up.node]);
      forall x | x in m' && x != subst && x != i.left && x != i.right && i.up != Under(x) ensures Stores(x, m'[x]) {
        assert old(Stores(x, m[x]));
      }
    }

    /** The writes. */
    method CopyLinks(node: Node, subst: Node, ghost up: Parent<Node>)
      requires node != subst && (node == root <==> up.Loose?)
      requires up.Under? ==> node.parent == up.node && up.node !in {node, subst}
      requires up.Under? ==> (up.node.left == node <==> up.node.right != node)
      modifies this`root, subst`left, subst`right, subst`parent, subst`red, Upper(up)`left, Upper(up)`right
      ensures subst.left == node.left && subst.right == node.right && subst.parent == node.parent
        && subst.red == node.red
      ensures up.Under? ==> up.node.left == if old(up.node.left) == node then subst else old(up.node.left)
      ensures up.Under? ==> up.node.right == if old(up.node.left) == node then old(up.node.right) else subst
      ensures root == if up.Loose? then subst else old(root)
    {
      subst.left := node.left;
      subst.right := node.right;
      subst.parent := node.parent;
      subst.red := node.red;
      if node == root {
        root := subst;
      } else {
        if node == node.parent.left {
          node.parent.left := subst;
        } else {
          node.parent.right := subst;
        }
      }
    }

    /** The children of subst look to it. */
    method AdoptChildren(subst: Node, ghost m: map<Node, Info<Node>>)
      requires subst in m && m[subst].left != subst && m[subst].right != subst
      requires forall x :: x in m && x != m[subst].left && x != m[subst].right ==> Stores(x, m[x])
      requires forall x :: x in m && (x == m[subst].left || x == m[subst].right) ==>
                 Stores(x, m[x].(up := Loose)) && m[x].up == Under(subst)
      requires forall x :: (x == m[subst].left || x == m[subst].right) && x != sentinel ==> x in m
      requires sentinel !in m
      modifies m.Keys
      ensures Mirrors(m) && subst.key == old(subst.key)
    {
      assert Stores(subst, m[subst]);
      if subst.left != sentinel {
        subst.left.parent := subst;
      }
      if subst.right != sentinel {
        subst.right.parent := subst;
      }
    }

    method Replace(node: Node, subst: Node, ghost m: map<Node, Info<Node>>, ghost m': map<Node, Info<Node>>)
      requires Renamed(m, m', node, subst, subst.key, sentinel)
      requires forall x :: x in m && x != m[node].left && x != m[node].right ==> Stores(x, m[x])
      requires forall x :: x in m && (x == m[node].left || x == m[node].right) ==> Stores(x, m[x].(up := Loose))
      requires node == root <==> m[node].up.Loose?
      modifies this`root, m.Keys, subst
      ensures Mirrors(m')
      ensures root == if m[node].up.Loose? then subst else old(root)
      ensures subst.key == old(subst.key)
    {
      CopyPlace(node, subst, m, m');
      AdoptChildren(subst, m');
    }

    /** The deleted node is its own subst: it has at most one subtree. */
    method UnlinkSelf(node: Node, temp: Node, ghost t: Shape<Node>, ghost c: Context<Node>, ghost rest: Shape<Node>)
      requires InHeap(Plug(c, t)) && !c.Top? && t.Bin? && t.node == node && temp == Ptr(rest, sentinel)
      requires (t.left.Nil? && rest == t.right) || (t.right.Nil? && rest == t.left)
      modifies Nodes(Plug(c, t)), sentinel`parent
      ensures InHeap(Plug(c, rest)) && Nodes(Plug(c, rest)) == Nodes(Plug(c, t)) - {node}
      ensures temp.parent == c.node
    {
      SpliceSets(c, t, rest);
      SpliceDelta(c, t, rest, sentinel);
      PlugRoot(c, t, rest, sentinel);
      See(t, c);
      Look(c, rest, sentinel);
      Splice(node, temp, node.parent, Links(Plug(c, t), Loose, sentinel), Links(Plug(c, rest), Loose, sentinel),
        c.node);
    }

    /** The links of w, except that node's children need not look to it. */
    ghost predicate Orphaned(w: Shape<Node>, node: Node)
      reads Nodes(w)
    {
      var m := Links(w, Loose, sentinel);
      && Distinct(w) && sentinel !in Nodes(w) && node in m
      && (forall x :: x in m && x != m[node].left && x != m[node].right ==> Stores(x, m[x]))
      && (forall x :: x in m && (x == m[node].left || x == m[node].right) ==> Stores(x, m[x].(up := Loose)))
    }

    /** The deleted node has two subtrees: its successor is bridged and takes its place. */
    method UnlinkSubst(node: Node, subst: Node, temp: Node, ghost t: Shape<Node>, ghost c: Context<Node>,
                       ghost inner: Context<Node>, ghost s: Shape<Node>)
      requires InHeap(Plug(c, t)) && t.Bin? && t.node == node && t.left.Bin?
      requires t.right == Plug(inner, s) && s.Bin? && s.node == subst && s.left.Nil? && temp == Ptr(s.right, sentinel)
      requires LeftSpine(inner)
      modifies this`root, Nodes(Plug(c, t)), sentinel`parent
      ensures var u := Bin(t.red, t.left, s.node, s.key, Plug(inner, s.right));
        InHeap(Plug(c, u)) && Nodes(Plug(c, u)) == Nodes(Plug(c, t)) - {node}
      ensures temp.parent == if inner.Top? then subst else inner.node
    {
      hide Nodes, Links, Distinct, Plug, Graft, Entries, Orphaned, InHeap;
      ghost var u := Bin(t.red, t.left, s.node, s.key, Plug(inner, s.right));
      ghost var v := t.(right := Plug(inner, s.right));
      if !c.Top? { PlugRoot(c, t, v, sentinel); }
      PlugTop(t);
      PlugTop(v);
      See(t, c);
      RootIsTop(t, c);
      RootPtr(Plug(c, t));
      BridgeSubst(node, subst, temp, t, c, inner, s);
      TakePlace(node, subst, v, u, c);
      InnerParent(u, c, inner, s.right);
    }

    lemma RootPtr(w: Shape<Node>)
      requires InHeap(w)
      ensures root == Ptr(w, sentinel)
    {
    }

    /** subst steps in for node. */
    method TakePlace(node: Node, subst: Node, ghost v: Shape<Node>, ghost u: Shape<Node>, ghost c: Context<Node>)
      requires Orphaned(Plug(c, v), node) && v.Bin? && v.node == node
      requires subst != sentinel && subst !in Nodes(Plug(c, v)) && u == v.(node := subst, key := subst.key)
      requires root == Ptr(Plug(c, v), sentinel) && (node == root <==> c.Top?)
      modifies this`root, Nodes(Plug(c, v)), subst
      ensures InHeap(Plug(c, u)) && Nodes(Plug(c, u)) == Nodes(Plug(c, v)) - {node} + {subst}
    {
      hide Nodes, Links, Distinct, Plug, Graft, Entries;
      RenameDelta(c, v, u, sentinel);
      if !c.Top? { PlugRoot(c, v, u, sentinel); }
      PlugTop(u);
      Look(c, v, sentinel);
      Replace(node, subst, Links(Plug(c, v), Loose, sentinel), Links(Plug(c, u), Loose, sentinel));
    }

    lemma InnerParent(u: Shape<Node>, c: Context<Node>, inner: Context<Node>, f: Shape<Node>)
      requires InHeap(Plug(c, u)) && u.Bin? && u.right == Plug(inner, f)
      ensures f.Bin? ==> f.node.parent == if inner.Top? then u.node else inner.node
    {
      hide InHeap, Nodes, Links, Distinct, Plug, Graft, Entries;
      GraftPlug(inner, RightOf(u, c), f);
      Down(u, c);
      See(f, Graft(inner, RightOf(u, c)));
      GraftNode(inner, RightOf(u, c));
    }

    /** The successor leaves its place; if that place was just below node, its subtree already
      * looks to it as the coming parent. */
    /** The spliced heap stores the shape w, but for the parent of the child that looks to subst. */
    lemma OrphanedBy(w: Shape<Node>, node: Node, temp: Node, newParent: Node, m: map<Node, Info<Node>>)
      requires Distinct(w) && sentinel !in Nodes(w) && m == Links(w, Loose, sentinel) && node in m
      requires forall x :: x in m && x != temp ==> Stores(x, m[x])
      requires temp in m ==> Stores(temp, m[temp].(up := Under(newParent)))
      requires temp in m ==> temp == m[node].right || m[temp].up == Under(newParent)
      ensures Orphaned(w, node)
    {
      forall x | x in m && (x == m[node].left || x == m[node].right) ensures Stores(x, m[x].(up := Loose)) {
        if x != temp { assert Stores(x, m[x]); }
      }
    }

    method BridgeSubst(node: Node, subst: Node, temp: Node, ghost t: Shape<Node>, ghost c: Context<Node>,
                       ghost inner: Context<Node>, ghost s: Shape<Node>)
      requires InHeap(Plug(c, t)) && t.Bin? && t.node == node
      requires t.right == Plug(inner, s) && s.Bin? && s.node == subst && s.left.Nil? && temp == Ptr(s.right, sentinel)
      modifies Nodes(Plug(c, t)), sentinel`parent
      ensures var v := t.(right := Plug(inner, s.right));
        && Orphaned(Plug(c, v), node) && Nodes(Plug(c, v)) == Nodes(Plug(c, t)) - {subst}
        && subst != sentinel && subst != node && subst in Nodes(Plug(c, t))
      ensures temp.parent == if inner.Top? then subst else inner.node
      ensures subst.key == s.key
    {
      ghost var around := Graft(inner, RightOf(t, c));
      ghost var v := t.(right := Plug(inner, s.right));
      ghost var m, m' := Links(Plug(c, t), Loose, sentinel), Links(Plug(c, v), Loose, sentinel);
      hide *;
      BridgePlan(node, subst, temp, t, c, inner, s);
      var newParent: Node := if subst.parent == node then subst else subst.parent;
      Splice(subst, temp, newParent, m, m', around.node);
      OrphanedBy(Plug(c, v), node, temp, newParent, m');
    }

    /** What bridging node's successor needs to know of the heap. */
    lemma BridgePlan(node: Node, subst: Node, temp: Node, t: Shape<Node>, c: Context<Node>,
                     inner: Context<Node>, s: Shape<Node>)
      requires InHeap(Plug(c, t)) && t.Bin? && t.node == node
      requires t.right == Plug(inner, s) && s.Bin? && s.node == subst && s.left.Nil? && temp == Ptr(s.right, sentinel)
      ensures var v, around := t.(right := Plug(inner, s.right)), Graft(inner, RightOf(t, c));
        var m, m' := Links(Plug(c, t), Loose, sentinel), Links(Plug(c, v), Loose, sentinel);
        && !around.Top? && Mirrors(m) && Spliced(m, m', subst, temp, around.node) && subst != temp
        && Nodes(Plug(c, v)) == Nodes(Plug(c, t)) - {subst} && Distinct(Plug(c, v)) && sentinel !in Nodes(Plug(c, v))
        && subst != sentinel && subst != node && subst in Nodes(Plug(c, t)) && subst.key == s.key
        && subst.parent == around.node && around.node == (if inner.Top? then node else inner.node)
        && (subst.parent == node <==> inner.Top?) && around.node in Nodes(Plug(c, t))
        && (temp == sentinel || temp in Nodes(Plug(c, t)))
        && node in m' && (temp in m' ==> m'[temp].up == Under(around.node))
        && (inner.Top? ==> m'[node].right == temp)
    {
      var v, around := t.(right := Plug(inner, s.right)), Graft(inner, RightOf(t, c));
      SuccessorDelta(c, t, inner, s, sentinel);
      See(s, around);
      Look(c, v, sentinel);
      SplicedUp(Links(Plug(c, t), Loose, sentinel), Links(Plug(c, v), Loose, sentinel), subst, temp, around.node);
      assert inner.Top? ==> Plug(inner, s.right) == s.right;
    }

    /** The two ways a node is chosen for bridging: node itself, or its successor s down a left spine. */
    ghost predicate Chosen(node: Node, subst: Node, temp: Node, t: Shape<Node>, inner: Context<Node>, s: Shape<Node>) {
      && t.Bin? && t.node == node && s.Bin? && s.node == subst
      && if subst == node then
           && s == t && inner == Top
           && ((t.left.Nil? && temp == Ptr(t.right, sentinel)) || (t.left.Bin? && t.right.Nil? && temp == t.left.node))
         else
           && t.left.Bin? && t.right == Plug(inner, s) && LeftSpine(inner) && s.left.Nil?
           && temp == Ptr(s.right, sentinel)
    }

    /** What is left of s once its node is bridged. */
    ghost function Rest(s: Shape<Node>): Shape<Node>
      requires s.Bin?
    {
      if s.left.Nil? then s.right else s.left
    }

    method Choose(node: Node, ghost t: Shape<Node>, ghost c: Context<Node>)
      returns (subst: Node, temp: Node, ghost inner: Context<Node>, ghost s: Shape<Node>)
      requires InHeap(Plug(c, t)) && t.Bin? && t.node == node
      ensures Chosen(node, subst, temp, t, inner, s) && (subst != node ==> subst != root)
      ensures InHeap(Plug(c, t)) && subst.red == s.red
    {
      See(t, c);
      See(t.left, LeftOf(t, c));
      See(t.right, RightOf(t, c));
      inner, s := Top, t;
      if node.left == sentinel {
        temp := node.right;
        subst := node;
      } else if node.right == sentinel {
        temp := node.left;
        subst := node;
      } else {
        subst, inner, s := Min(node.right, t.right, RightOf(t, c));
        GraftPlug(inner, RightOf(t, c), s);
        Down(t, c);
        See(s, Graft(inner, RightOf(t, c)));
        See(s.right, RightOf(s, Graft(inner, RightOf(t, c))));
        var left, right := subst.left, subst.right;
        var other := if left != sentinel then left else right;
        temp := other;
        InnerNode(inner, s, t, c);
      }
    }

    lemma InnerNode(inner: Context<Node>, s: Shape<Node>, t: Shape<Node>, c: Context<Node>)
      requires InHeap(Plug(c, t)) && t.Bin? && t.right == Plug(inner, s) && s.Bin?
      ensures s.node != t.node && s.node != root
    {
      PlugNodes(inner, s);
      PlugNodes(c, t);
      if !c.Top? { PlugBin(c, t); }
    }

    /** The structural part of the deletion, up to the colours. */
    method Unlink(node: Node, subst: Node, temp: Node, ghost t: Shape<Node>, ghost c: Context<Node>,
                  ghost inner: Context<Node>, ghost s: Shape<Node>)
      returns (ghost f: Shape<Node>, ghost fc: Context<Node>)
      requires InHeap(Plug(c, t)) && RedBlack(Plug(c, t)) && Chosen(node, subst, temp, t, inner, s)
      requires subst == node ==> !c.Top?
      modifies this`root, Nodes(Plug(c, t)), sentinel`parent
      ensures InHeap(Plug(fc, f)) && Nodes(Plug(fc, f)) == Nodes(Plug(c, t)) - {node}
      ensures var e, k := Entries(Plug(c, t)), |Before(c)| + |Entries(t.left)|;
        k < |e| && e[k] == Entry(node, t.key) && Entries(Plug(fc, f)) == RemoveAt(e, k)
      ensures !fc.Top? && temp == Ptr(f, sentinel) && temp.parent == fc.node
      ensures s.red ==> RedBlack(Plug(fc, f))
      ensures !s.red ==> Deficit(f, fc)
    {
      hide InHeap, Nodes, Entries, Distinct, Plug, Accepts, Coloured, RedBlack;
      if subst == node {
        f, fc := Rest(t), c;
        UnplugColours(c, t);
        BridgeColours(c, t, f);
        SpliceEntries(c, t, f);
        UnlinkSelf(node, temp, t, c, f);
      } else {
        ghost var u := Bin(t.red, t.left, s.node, s.key, Plug(inner, s.right));
        f, fc := s.right, Graft(inner, RightOf(u, c));
        SubstColours(c, t, inner, s);
        SubstEntries(c, t, inner, s, u);
        UnlinkSubst(node, subst, temp, t, c, inner, s);
      }
    }

    method Delete(node: Node) returns (ghost k: nat)
      requires Valid() && node in Nodes(shape)
      modifies this, sentinel, Nodes(shape)
      ensures Valid() && Nodes(shape) == old(Nodes(shape)) - {node}
      ensures k < |old(Entries(shape))| && old(Entries(shape))[k] == Entry(node, old(node.key))
      ensures Entries(shape) == RemoveAt(old(Entries(shape)), k)
      ensures node.left == null && node.right == null && node.parent == null && node.key == 0
    {
      hide InHeap, Nodes, Entries, Distinct, Plug, Accepts, Coloured, RedBlack;
      ghost var c, t := Locate(Top, shape, node);
      PlugTop(shape);
      k := |Before(c)| + |Entries(t.left)|;
      See(t, c);
      RootIsTop(t, c);
      var subst, temp;
      ghost var inner, s;
      subst, temp, inner, s := Choose(node, t, c);
      if subst == root {
        PlugTop(t);
        UnlinkRoot(node, temp, t);
        Detach(node, shape);
        return;
      }
      var red := subst.red;
      ghost var f, fc := Unlink(node, subst, temp, t, c, inner, s);
      See(f, fc);
      Detach(node, Plug(fc, f));
      if red {
        shape := Plug(fc, f);
        return;
      }
      DeleteFixup(temp, f, fc);
    }

    /** The DEBUG stuff: the removed node's links and key are wiped. */
    method Detach(node: Node, ghost w: Shape<Node>)
      requires InHeap(w) && node !in Nodes(w)
      modifies node`left, node`right, node`parent, node`key
      ensures InHeap(w)
      ensures node.left == null && node.right == null && node.parent == null && node.key == 0
    {
      node.left := null;
      node.right := null;
      node.parent := null;
      node.key := 0;
    }

    /** The deleted node is the root and has at most one subtree. */
    method UnlinkRoot(node: Node, temp: Node, ghost t: Shape<Node>)
      requires shape == t && InHeap(t) && RedBlack(t) && !sentinel.red
      requires t.Bin? && t.node == node && (t.left.Nil? || t.right.Nil?) && temp == Ptr(Rest(t), sentinel)
      modifies this, Nodes(t), sentinel
      ensures Valid() && Nodes(shape) == Nodes(t) - {node}
      ensures var k := |Entries(t.left)|;
        k < |Entries(t)| && Entries(t)[k] == Entry(node, t.key) && Entries(shape) == RemoveAt(Entries(t), k)
    {
      hide InHeap, Nodes, Links, Entries, Distinct, Coloured, RedBlack, Plug;
      ghost var rest := Rest(t);
      SentinelOut(t);
      RootGone(t, rest, sentinel);
      RootGoneColours(t, rest);
      PlugTop(rest);
      PlugTop(Blackened(rest));
      MoveRoot(temp, t);
      Blacken(temp, rest, Top);
      Settle(Blackened(rest));
    }

    lemma SentinelOut(w: Shape<Node>)
      requires InHeap(w)
      ensures sentinel !in Nodes(w) && Distinct(w)
    {
    }

    /** The object stands for w from now on. */
    method Settle(ghost w: Shape<Node>)
      requires InHeap(w) && RedBlack(w) && !sentinel.red
      modifies this`shape
      ensures Valid() && shape == w
    {
      shape := w;
    }

    method MoveRoot(temp: Node, ghost t: Shape<Node>)
      requires InHeap(t) && t.Bin? && (t.left.Nil? || t.right.Nil?) && temp == Ptr(Rest(t), sentinel)
      modifies this`root
      ensures InHeap(Rest(t))
    {
      RootGone(t, Rest(t), sentinel);
      LooseMirrors(Links(t, Loose, sentinel), Links(Rest(t), Loose, sentinel));
      root := temp;
    }

    static lemma LooseMirrors(m: map<Node, Info<Node>>, m': map<Node, Info<Node>>)
      requires Mirrors(m) && Loosens(m, m')
      ensures Mirrors(m')
    {
      forall x | x in m' ensures Stores(x, m'[x]) { assert Stores(x, m[x]); }
    }

    ghost function Blackened(t: Shape<Node>): Shape<Node> {
      if t.Nil? then Nil else t.(red := false)
    }

    /** ngx_rbt_black on a pointer that may be the sentinel. */
    method Blacken(temp: Node, ghost t: Shape<Node>, ghost c: Context<Node>)
      requires InHeap(Plug(c, t)) && temp == Ptr(t, sentinel)
      modifies temp`red
      ensures InHeap(Plug(c, Blackened(t))) && Same(Plug(c, t), Plug(c, Blackened(t)))
      ensures temp == sentinel ==> !sentinel.red
    {
      hide Nodes, Links, Distinct, Entries, Plug;
      See(t, c);
      if temp == sentinel {
        temp.red := false;
      } else {
        Paint(temp, false, t, c);
      }
    }

    method DeleteFixup(temp0: Node, ghost t0: Shape<Node>, ghost c0: Context<Node>)
      requires InHeap(Plug(c0, t0)) && Deficit(t0, c0) && temp0 == Ptr(t0, sentinel) && !sentinel.red
      requires !c0.Top? && temp0.parent == c0.node
      modifies this, Nodes(Plug(c0, t0)), sentinel`red
      ensures Valid() && Same(Plug(c0, t0), shape)
    {
      hide InHeap, Plug, Nodes, Entries, Distinct, Coloured, Accepts, BlackHeight;
      var temp := temp0;
      ghost var t, c := t0, c0;
      RootIsTop(t, c);
      See(t, c);
      while temp != root && !temp.red
        invariant InHeap(Plug(c, t)) && temp == Ptr(t, sentinel) && !sentinel.red
        invariant if c.Top? then RedBlack(Plug(c, t)) else Deficit(t, c)
        invariant Same(Plug(c0, t0), Plug(c, t))
        invariant temp == root <==> c.Top?
        invariant !c.Top? ==> temp.parent == c.node
        decreases Depth(c), if IsRed(t) then 0 else 1
      {
        See(t, c);
        LeftOrRight(t, c);
        if temp == temp.parent.left {
          temp, t, c := DeleteFixLeft(temp, t, c);
        } else {
          temp, t, c := DeleteFixRight(temp, t, c);
        }
        RootIsTop(t, c);
        See(t, c);
      }
      See(t, c);
      FinishDelete(temp, t, c);
    }

    /** Next to a deficit there is a real sibling, so the parent's child links tell the side. */
    lemma LeftOrRight(t: Shape<Node>, c: Context<Node>)
      requires InHeap(Plug(c, t)) && Deficit(t, c) && !c.Top?
      ensures Ptr(t, sentinel) == c.node.left <==> c.InLeft?
    {
      See(t, c);
      SiblingExists(t, c);
      PlugNodes(c, t);
    }

    method FinishDelete(temp: Node, ghost t: Shape<Node>, ghost c: Context<Node>)
      requires InHeap(Plug(c, t)) && temp == Ptr(t, sentinel) && !sentinel.red
      requires if c.Top? then RedBlack(Plug(c, t)) else Deficit(t, c) && IsRed(t)
      modifies this, Nodes(Plug(c, t)), sentinel`red
      ensures Valid() && Same(Plug(c, t), shape)
    {
      BlackenedColours(t, c);
      hide InHeap, Nodes, Links, Distinct, Entries, Plug, RedBlack;
      See(t, c);
      Blacken(temp, t, c);
      Settle(Plug(c, Blackened(t)));
    }

    lemma BlackenedColours(t: Shape<Node>, c: Context<Node>)
      requires if c.Top? then RedBlack(Plug(c, t)) else Deficit(t, c) && IsRed(t)
      ensures RedBlack(Plug(c, Blackened(t)))
    {
      if !c.Top? { PlugColours(c, t.(red := false)); }
    }

    method DeleteFixLeft(temp0: Node, ghost t0: Shape<Node>, ghost c0: Context<Node>)
      returns (temp: Node, ghost t: Shape<Node>, ghost c: Context<Node>)
      requires InHeap(Plug(c0, t0)) && Deficit(t0, c0) && temp0 == Ptr(t0, sentinel) && !sentinel.red
      requires c0.InLeft? && temp0.parent == c0.node && !IsRed(t0)
      modifies this`root, Nodes(Plug(c0, t0))
      ensures InHeap(Plug(c, t)) && temp == Ptr(t, sentinel)
      ensures if c.Top? then RedBlack(Plug(c, t)) else Deficit(t, c)
      ensures !c.Top? ==> temp.parent == c.node
      ensures Same(Plug(c0, t0), Plug(c, t))
      ensures Depth(c) < Depth(c0) || (Depth(c) == Depth(c0) && IsRed(t))
    {
      hide InHeap, Plug, Nodes, Entries, Distinct, Coloured, Accepts, BlackHeight;
      temp, t, c := temp0, t0, c0;
      SiblingExists(t, c);
      ghost var p := Enclose(c, t);
      Up(t, c);
      Down(p, c.up);
      See(t, c);
      See(c.right, RightOf(p, c.up));
      var w := temp.parent.right;
      if w.red {
        RedSiblingLeft(t, c);
        Paint(w, false, c.right, RightOf(p, c.up));
        p := p.(right := c.right.(red := false));
        Up(p.right, RightOf(p, c.up));
        Paint(temp.parent, true, p, c.up);
        p := p.(red := true);
        RotateLeftAt(temp.parent, p, c.up);
        p := RotatedLeft(p);
        Down(p, c.up);
        Down(p.left, LeftOf(p, c.up));
        c := LeftOf(p.left, LeftOf(p, c.up));
        p := p.left;
        See(t, c);
        See(c.right, RightOf(p, c.up));
        w := temp.parent.right;
      }
      temp, t, c := BlackSiblingLeft(temp, w, t, c);
    }

    method DeleteFixRight(temp0: Node, ghost t0: Shape<Node>, ghost c0: Context<Node>)
      returns (temp: Node, ghost t: Shape<Node>, ghost c: Context<Node>)
      requires InHeap(Plug(c0, t0)) && Deficit(t0, c0) && temp0 == Ptr(t0, sentinel) && !sentinel.red
      requires c0.InRight? && temp0.parent == c0.node && !IsRed(t0)
      modifies this`root, Nodes(Plug(c0, t0))
      ensures InHeap(Plug(c, t)) && temp == Ptr(t, sentinel)
      ensures if c.Top? then RedBlack(Plug(c, t)) else Deficit(t, c)
      ensures !c.Top? ==> temp.parent == c.node
      ensures Same(Plug(c0, t0), Plug(c, t))
      ensures Depth(c) < Depth(c0) || (Depth(c) == Depth(c0) && IsRed(t))
    {
      hide InHeap, Plug, Nodes, Entries, Distinct, Coloured, Accepts, BlackHeight;
      temp, t, c := temp0, t0, c0;
      SiblingExists(t, c);
      ghost var p := Enclose(c, t);
      Up(t, c);
      Down(p, c.up);
      See(t, c);
      See(c.left, LeftOf(p, c.up));
      var w := temp.parent.left;
      if w.red {
        RedSiblingRight(t, c);
        Paint(w, false, c.left, LeftOf(p, c.up));
        p := p.(left := c.left.(red := false));
        Up(p.left, LeftOf(p, c.up));
        Paint(temp.parent, true, p, c.up);
        p := p.(red := true);
        RotateRightAt(temp.parent, p, c.up);
        p := RotatedRight(p);
        Down(p, c.up);
        Down(p.right, RightOf(p, c.up));
        c := RightOf(p.right, RightOf(p, c.up));
        p := p.right;
        See(t, c);
        See(c.left, LeftOf(p, c.up));
        w := temp.parent.left;
      }
      temp, t, c := BlackSiblingRight(temp, w, t, c);
    }

    method BlackSiblingLeft(temp0: Node, w0: Node, ghost t0: Shape<Node>, ghost c0: Context<Node>)
      returns (temp: Node, ghost t: Shape<Node>, ghost c: Context<Node>)
      requires InHeap(Plug(c0, t0)) && Deficit(t0, c0) && temp0 == Ptr(t0, sentinel) && !sentinel.red
      requires c0.InLeft? && temp0.parent == c0.node && !IsRed(t0)
      requires c0.right.Bin? && !c0.right.red && w0 == c0.right.node
      modifies this`root, Nodes(Plug(c0, t0))
      ensures InHeap(Plug(c, t)) && temp == Ptr(t, sentinel)
      ensures if c.Top? then RedBlack(Plug(c, t)) else Deficit(t, c)
      ensures !c.Top? ==> temp.parent == c.node
      ensures Same(Plug(c0, t0), Plug(c, t))
      ensures Depth(c) < Depth(c0) && (c.Top? || (c == c0.up && IsRed(t) == c0.red))
    {
      hide InHeap, Plug, Nodes, Entries, Distinct, Coloured, Accepts, BlackHeight;
      temp, t, c := temp0, t0, c0;
      var w := w0;
      ghost var p := Enclose(c, t);
      ghost var wc := RightOf(p, c.up);
      Up(t, c);
      Down(p, c.up);
      See(t, c);
      See(c.right, wc);
      Down(c.right, wc);
      See(c.right.left, LeftOf(c.right, wc));
      See(c.right.right, RightOf(c.right, wc));
      if !w.left.red && !w.right.red {
        PaleSibling(t, c);
        Paint(w, true, c.right, wc);
        t := p.(right := c.right.(red := true));
        Up(t.right, RightOf(t, c.up));
        c := c.up;
        temp := temp.parent;
        See(t, c);
        PlugTop(t);
      } else {
        if !w.right.red {
          w, c := RedFarLeft(w, temp, t, c);
          p := Enclose(c, t);
          wc := RightOf(p, c.up);
          Up(t, c);
          Down(p, c.up);
          Down(c.right, wc);
          See(t, c);
          See(c.right, wc);
        }
        t := RepayLeft(temp, w, t, c);
        c := Top;
        temp := root;
      }
    }

    method BlackSiblingRight(temp0: Node, w0: Node, ghost t0: Shape<Node>, ghost c0: Context<Node>)
      returns (temp: Node, ghost t: Shape<Node>, ghost c: Context<Node>)
      requires InHeap(Plug(c0, t0)) && Deficit(t0, c0) && temp0 == Ptr(t0, sentinel) && !sentinel.red
      requires c0.InRight? && temp0.parent == c0.node && !IsRed(t0)
      requires c0.left.Bin? && !c0.left.red && w0 == c0.left.node
      modifies this`root, Nodes(Plug(c0, t0))
      ensures InHeap(Plug(c, t)) && temp == Ptr(t, sentinel)
      ensures if c.Top? then RedBlack(Plug(c, t)) else Deficit(t, c)
      ensures !c.Top? ==> temp.parent == c.node
      ensures Same(Plug(c0, t0), Plug(c, t))
      ensures Depth(c) < Depth(c0) && (c.Top? || (c == c0.up && IsRed(t) == c0.red))
    {
      hide InHeap, Plug, Nodes, Entries, Distinct, Coloured, Accepts, BlackHeight;
      temp, t, c := temp0, t0, c0;
      var w := w0;
      ghost var p := Enclose(c, t);
      ghost var wc := LeftOf(p, c.up);
      Up(t, c);
      Down(p, c.up);
      See(t, c);
      See(c.left, wc);
      Down(c.left, wc);
      See(c.left.right, RightOf(c.left, wc));
      See(c.left.left, LeftOf(c.left, wc));
      if !w.right.red && !w.left.red {
        PaleSibling(t, c);
        Paint(w, true, c.left, wc);
        t := p.(left := c.left.(red := true));
        Up(t.left, LeftOf(t, c.up));
        c := c.up;
        temp := temp.parent;
        See(t, c);
        PlugTop(t);
      } else {
        if !w.left.red {
          w, c := RedFarRight(w, temp, t, c);
          p := Enclose(c, t);
          wc := LeftOf(p, c.up);
          Up(t, c);
          Down(p, c.up);
          Down(c.left, wc);
          See(t, c);
          See(c.left, wc);
        }
        t := RepayRight(temp, w, t, c);
        c := Top;
        temp := root;
      }
    }

    /** The last rotation: the sibling takes the parent's colour and place. */
    method RepayLeft(temp: Node, w: Node, ghost t: Shape<Node>, ghost c: Context<Node>) returns (ghost u: Shape<Node>)
      requires InHeap(Plug(c, t)) && Deficit(t, c) && !IsRed(t) && temp == Ptr(t, sentinel)
      requires c.InLeft? && temp.parent == c.node && c.node.red == c.red && c.right.Bin? && w == c.right.node
      requires !c.right.red && IsRed(c.right.right) && w.right == c.right.right.node
      modifies this`root, Nodes(Plug(c, t))
      ensures InHeap(u) && RedBlack(u) && Same(Plug(c, t), u) && root == Ptr(u, sentinel) && Plug(Top, u) == u
    {
      hide InHeap, Plug, Nodes, Entries, Distinct, Coloured, Accepts, BlackHeight;
      ghost var p := Enclose(c, t);
      Up(t, c);
      Down(p, c.up);
      Down(p.right, RightOf(p, c.up));
      See(t, c);
      See(p.right, RightOf(p, c.up));
      See(p.right.right, RightOf(p.right, RightOf(p, c.up)));
      FarRedLeft(t, c);
      Paint(w, temp.parent.red, c.right, RightOf(p, c.up));
      p := p.(right := p.right.(red := c.red));
      Up(p.right, RightOf(p, c.up));
      Paint(temp.parent, false, p, c.up);
      p := p.(red := false);
      Down(p, c.up);
      Down(p.right, RightOf(p, c.up));
      Paint(w.right, false, p.right.right, RightOf(p.right, RightOf(p, c.up)));
      Up(p.right.right.(red := false), RightOf(p.right, RightOf(p, c.up)));
      p := p.(right := p.right.(right := p.right.right.(red := false)));
      Up(p.right, RightOf(p, c.up));
      RotateLeftAt(temp.parent, p, c.up);
      u := Plug(c.up, RotatedLeft(p));
      PlugTop(u);
      RootPtr(u);
    }

    method RepayRight(temp: Node, w: Node, ghost t: Shape<Node>, ghost c: Context<Node>) returns (ghost u: Shape<Node>)
      requires InHeap(Plug(c, t)) && Deficit(t, c) && !IsRed(t) && temp == Ptr(t, sentinel)
      requires c.InRight? && temp.parent == c.node && c.node.red == c.red && c.left.Bin? && w == c.left.node
      requires !c.left.red && IsRed(c.left.left) && w.left == c.left.left.node
      modifies this`root, Nodes(Plug(c, t))
      ensures InHeap(u) && RedBlack(u) && Same(Plug(c, t), u) && root == Ptr(u, sentinel) && Plug(Top, u) == u
    {
      hide InHeap, Plug, Nodes, Entries, Distinct, Coloured, Accepts, BlackHeight;
      ghost var p := Enclose(c, t);
      Up(t, c);
      Down(p, c.up);
      Down(p.left, LeftOf(p, c.up));
      See(t, c);
      See(p.left, LeftOf(p, c.up));
      See(p.left.left, LeftOf(p.left, LeftOf(p, c.up)));
      FarRedRight(t, c);
      Paint(w, temp.parent.red, c.left, LeftOf(p, c.up));
      p := p.(left := p.left.(red := c.red));
      Up(p.left, LeftOf(p, c.up));
      Paint(temp.parent, false, p, c.up);
      p := p.(red := false);
      Down(p, c.up);
      Down(p.left, LeftOf(p, c.up));
      Paint(w.left, false, p.left.left, LeftOf(p.left, LeftOf(p, c.up)));
      Up(p.left.left.(red := false), LeftOf(p.left, LeftOf(p, c.up)));
      p := p.(left := p.left.(left := p.left.left.(red := false)));
      Up(p.left, LeftOf(p, c.up));
      RotateRightAt(temp.parent, p, c.up);
      u := Plug(c.up, RotatedRight(p));
      PlugTop(u);
      RootPtr(u);
    }

    /** A rotation at the sibling makes its far child the red one. */
    method RedFarLeft(w0: Node, temp: Node, ghost t: Shape<Node>, ghost c0: Context<Node>)
      returns (w: Node, ghost c: Context<Node>)
      requires InHeap(Plug(c0, t)) && Deficit(t, c0) && temp == Ptr(t, sentinel)
      requires c0.InLeft? && temp.parent == c0.node && temp.parent != null
      requires c0.right.Bin? && !c0.right.red && w0 == c0.right.node && IsRed(c0.right.left) && !IsRed(c0.right.right)
      modifies this`root, Nodes(Plug(c0, t))
      ensures InHeap(Plug(c, t)) && Same(Plug(c0, t), Plug(c, t)) && Deficit(t, c)
      ensures c.InLeft? && c.up == c0.up && c.node == c0.node && c.red == c0.red
      ensures c.right.Bin? && !c.right.red && IsRed(c.right.right) && w == c.right.node
      ensures temp.parent == c.node && c.node.red == c.red && w.right == c.right.right.node
    {
      hide InHeap, Plug, Nodes, Entries, Distinct, Coloured, Accepts, BlackHeight;
      w, c := w0, c0;
      ghost var p := Enclose(c, t);
      ghost var wc, u := RightOf(p, c.up), c.right;
      NearRedLeft(t, c);
      Up(t, c);
      Down(p, c.up);
      Down(u, wc);
      See(t, c);
      See(u, wc);
      See(u.left, LeftOf(u, wc));
      Paint(w.left, false, u.left, LeftOf(u, wc));
      u := u.(left := u.left.(red := false));
      Up(u.left, LeftOf(u, wc));
      Paint(w, true, u, wc);
      u := u.(red := true);
      RotateRightAt(w, u, wc);
      u := RotatedRight(u);
      c := c.(right := u);
      Up(u, wc);
      Up(t, c);
      See(t, c);
      Down(Enclose(c, t), c.up);
      See(u, RightOf(Enclose(c, t), c.up));
      w := temp.parent.right;
    }

    method RedFarRight(w0: Node, temp: Node, ghost t: Shape<Node>, ghost c0: Context<Node>)
      returns (w: Node, ghost c: Context<Node>)
      requires InHeap(Plug(c0, t)) && Deficit(t, c0) && temp == Ptr(t, sentinel)
      requires c0.InRight? && temp.parent == c0.node && temp.parent != null
      requires c0.left.Bin? && !c0.left.red && w0 == c0.left.node && IsRed(c0.left.right) && !IsRed(c0.left.left)
      modifies this`root, Nodes(Plug(c0, t))
      ensures InHeap(Plug(c, t)) && Same(Plug(c0, t), Plug(c, t)) && Deficit(t, c)
      ensures c.InRight? && c.up == c0.up && c.node == c0.node && c.red == c0.red
      ensures c.left.Bin? && !c.left.red && IsRed(c.left.left) && w == c.left.node
      ensures temp.parent == c.node && c.node.red == c.red && w.left == c.left.left.node
    {
      hide InHeap, Plug, Nodes, Entries, Distinct, Coloured, Accepts, BlackHeight;
      w, c := w0, c0;
      ghost var p := Enclose(c, t);
      ghost var wc, u := LeftOf(p, c.up), c.left;
      NearRedRight(t, c);
      Up(t, c);
      Down(p, c.up);
      Down(u, wc);
      See(t, c);
      See(u, wc);
      See(u.right, RightOf(u, wc));
      Paint(w.right, false, u.right, RightOf(u, wc));
      u := u.(right := u.right.(red := false));
      Up(u.right, RightOf(u, wc));
      Paint(w, true, u, wc);
      u := u.(red := true);
      RotateLeftAt(w, u, wc);
      u := RotatedLeft(u);
      c := c.(left := u);
      Up(u, wc);
      Up(t, c);
      See(t, c);
      Down(Enclose(c, t), c.up);
      See(u, LeftOf(Enclose(c, t), c.up));
      w := temp.parent.left;
    }
  }
}
