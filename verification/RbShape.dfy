/** The mathematical side of the red-black tree: what a linked tree of nodes looks like as a value.
  *
  * A Shape is a snapshot of a (sub)tree; a Context is a shape with one hole, read from the hole
  * outwards, which is the order in which the code climbs through parent links.  Colours, order and
  * the sequence of entries are defined here and related to plugging a shape into a context.
  * X is the type of nodes; a node's identity is all that matters here. */
module RbShape {
  import opened Bits

  const WORD: int := 0x1_0000_0000_0000_0000

  /** ngx_rbtree_key_t: an unsigned machine word. */
  type Key = k: int | 0 <= k < WORD

  datatype Entry<X> = Entry(node: X, key: Key)

  datatype Shape<X> =
    | Nil
    | Bin(red: bool, left: Shape<X>, node: X, key: Key, right: Shape<X>)

  datatype Context<X> =
    | Top
    | InLeft(up: Context<X>, red: bool, node: X, key: Key, right: Shape<X>)
    | InRight(up: Context<X>, red: bool, left: Shape<X>, node: X, key: Key)

  // ---------- nodes and entries ----------

  ghost function Nodes<X>(t: Shape<X>): set<X> {
    match t
    case Nil => {}
    case Bin(_, l, x, _, r) => Nodes(l) + {x} + Nodes(r)
  }

  ghost predicate Distinct<X>(t: Shape<X>) {
    match t
    case Nil => true
    case Bin(_, l, x, _, r) =>
      Distinct(l) && Distinct(r) && x !in Nodes(l) && x !in Nodes(r) && Nodes(l) !! Nodes(r)
  }

  /** The nodes with their keys, from left to right. */
  ghost function Entries<X>(t: Shape<X>): seq<Entry<X>> {
    match t
    case Nil => []
    case Bin(_, l, x, k, r) => Entries(l) + [Entry(x, k)] + Entries(r)
  }

  ghost function CtxNodes<X>(c: Context<X>): set<X> {
    match c
    case Top => {}
    case InLeft(up, _, x, _, r) => CtxNodes(up) + {x} + Nodes(r)
    case InRight(up, _, l, x, _) => CtxNodes(up) + {x} + Nodes(l)
  }

  ghost predicate CtxDistinct<X>(c: Context<X>) {
    match c
    case Top => true
    case InLeft(up, _, x, _, r) =>
      CtxDistinct(up) && Distinct(r) && x !in Nodes(r) && x !in CtxNodes(up) && Nodes(r) !! CtxNodes(up)
    case InRight(up, _, l, x, _) =>
      CtxDistinct(up) && Distinct(l) && x !in Nodes(l) && x !in CtxNodes(up) && Nodes(l) !! CtxNodes(up)
  }

  /** The entries to the left and to the right of the hole. */
  ghost function Before<X>(c: Context<X>): seq<Entry<X>> {
    match c
    case Top => []
    case InLeft(up, _, _, _, _) => Before(up)
    case InRight(up, _, l, x, k) => Before(up) + Entries(l) + [Entry(x, k)]
  }

  ghost function After<X>(c: Context<X>): seq<Entry<X>> {
    match c
    case Top => []
    case InLeft(up, _, x, k, r) => [Entry(x, k)] + Entries(r) + After(up)
    case InRight(up, _, _, _, _) => After(up)
  }

  ghost function Depth<X>(c: Context<X>): nat {
    if c.Top? then 0 else 1 + Depth(c.up)
  }

  /** One step out of a context, and one step down on either side. */
  ghost function Enclose<X>(c: Context<X>, t: Shape<X>): (s: Shape<X>)
    requires !c.Top?
    ensures s.Bin?
  {
    if c.InLeft? then Bin(c.red, t, c.node, c.key, c.right) else Bin(c.red, c.left, c.node, c.key, t)
  }

  ghost function LeftOf<X>(t: Shape<X>, c: Context<X>): Context<X>
    requires t.Bin?
  {
    InLeft(c, t.red, t.node, t.key, t.right)
  }

  ghost function RightOf<X>(t: Shape<X>, c: Context<X>): Context<X>
    requires t.Bin?
  {
    InRight(c, t.red, t.left, t.node, t.key)
  }

  /** Fill the hole of c with t. */
  ghost function Plug<X>(c: Context<X>, t: Shape<X>): Shape<X> {
    if c.Top? then t else Plug(c.up, Enclose(c, t))
  }

  /** The hole of inner, seen from where outer ends. */
  ghost function Graft<X>(inner: Context<X>, outer: Context<X>): Context<X> {
    match inner
    case Top => outer
    case InLeft(up, red, x, k, r) => InLeft(Graft(up, outer), red, x, k, r)
    case InRight(up, red, l, x, k) => InRight(Graft(up, outer), red, l, x, k)
  }

  ghost predicate Apart<X>(t: Shape<X>, c: Context<X>) {
    Distinct(t) && CtxDistinct(c) && Nodes(t) !! CtxNodes(c)
  }

  lemma Concat3<T>(a: seq<T>, b: seq<T>, x: T, c: seq<T>, d: seq<T>)
    ensures a + (b + [x] + c) + d == a + b + [x] + c + d
    ensures a + (b + [x] + c) + d == a + b + ([x] + c + d)
  {
  }

  lemma {:induction false} PlugEntries<X>(c: Context<X>, t: Shape<X>)
    ensures Entries(Plug(c, t)) == Before(c) + Entries(t) + After(c)
    decreases c
  {
    if !c.Top? {
      PlugEntries(c.up, Enclose(c, t));
      if c.InLeft? {
        Concat3(Before(c.up), Entries(t), Entry(c.node, c.key), Entries(c.right), After(c.up));
      } else {
        Concat3(Before(c.up), Entries(c.left), Entry(c.node, c.key), Entries(t), After(c.up));
      }
    }
  }

  /** A leaf in an empty hole adds one entry, at the hole. */
  lemma LeafEntries<X>(c: Context<X>, t: Shape<X>)
    requires t.Bin? && t.left.Nil? && t.right.Nil?
    ensures var s, k := Entries(Plug(c, Nil)), |Before(c)|;
      k <= |s| && Entries(Plug(c, t)) == s[..k] + [Entry(t.node, t.key)] + s[k..]
  {
    PlugEntries(c, Nil);
    PlugEntries(c, t);
    assert Entries(t) == [Entry(t.node, t.key)];
    assert Entries(Plug(c, Nil)) == Before(c) + After(c);
  }

  /** A context made of left turns only: nothing comes before its hole. */
  ghost predicate LeftSpine<X>(c: Context<X>) {
    c.Top? || (c.InLeft? && LeftSpine(c.up))
  }

  lemma {:induction false} SpineBefore<X>(c: Context<X>)
    requires LeftSpine(c)
    ensures Before(c) == []
    decreases c
  {
    if !c.Top? { SpineBefore(c.up); }
  }

  ghost function RemoveAt<T>(s: seq<T>, k: nat): seq<T>
    requires k < |s|
  {
    s[..k] + s[k + 1..]
  }

  lemma RemoveInside<T>(p: seq<T>, l: seq<T>, x: T, r: seq<T>, q: seq<T>)
    ensures var s, k := p + (l + [x] + r) + q, |p| + |l|;
      k < |s| && s[k] == x && RemoveAt(s, k) == p + (l + r) + q
  {
    var s, k := p + (l + [x] + r) + q, |p| + |l|;
    assert s[..k] == p + l;
    assert s[k + 1..] == r + q;
  }

  /** Bridging a node with one subtree removes its entry. */
  lemma SpliceEntries<X>(c: Context<X>, t: Shape<X>, rest: Shape<X>)
    requires t.Bin?
    requires (t.left.Nil? && rest == t.right) || (t.right.Nil? && rest == t.left)
    ensures var s, k := Entries(Plug(c, t)), |Before(c)| + |Entries(t.left)|;
      k < |s| && s[k] == Entry(t.node, t.key) && Entries(Plug(c, rest)) == RemoveAt(s, k)
  {
    hide Entries, Plug, Before, After;
    PlugEntries(c, t);
    PlugEntries(c, rest);
    RootEntries(t);
    RemoveInside(Before(c), Entries(t.left), Entry(t.node, t.key), Entries(t.right), After(c));
    OnlyChildEntries(t, rest);
  }

  lemma RootEntries<X>(t: Shape<X>)
    requires t.Bin?
    ensures Entries(t) == Entries(t.left) + [Entry(t.node, t.key)] + Entries(t.right)
  {
  }

  lemma OnlyChildEntries<X>(t: Shape<X>, rest: Shape<X>)
    requires t.Bin?
    requires (t.left.Nil? && rest == t.right) || (t.right.Nil? && rest == t.left)
    ensures Entries(rest) == Entries(t.left) + Entries(t.right)
  {
  }

  /** Putting the successor s's node in place of t's, and bridging it where it was. */
  lemma SubstEntries<X>(c: Context<X>, t: Shape<X>, inner: Context<X>, s: Shape<X>, u: Shape<X>)
    requires t.Bin? && s.Bin? && s.left.Nil? && t.right == Plug(inner, s) && LeftSpine(inner)
    requires u == Bin(t.red, t.left, s.node, s.key, Plug(inner, s.right))
    ensures var e, k := Entries(Plug(c, t)), |Before(c)| + |Entries(t.left)|;
      k < |e| && e[k] == Entry(t.node, t.key) && Entries(Plug(c, u)) == RemoveAt(e, k)
  {
    hide Entries, Before, After, Plug, RemoveAt;
    RootEntries(u);
    SpineEntries(inner, s);
    ReplaceAt(c, t, u, Entry(s.node, s.key), Entries(Plug(inner, s.right)));
  }

  lemma ReplaceAt<X>(c: Context<X>, t: Shape<X>, u: Shape<X>, y: Entry<X>, z: seq<Entry<X>>)
    requires t.Bin? && Entries(t.right) == [y] + z && Entries(u) == Entries(t.left) + [y] + z
    ensures var e, k := Entries(Plug(c, t)), |Before(c)| + |Entries(t.left)|;
      k < |e| && e[k] == Entry(t.node, t.key) && Entries(Plug(c, u)) == RemoveAt(e, k)
  {
    hide Entries, Before, After, Plug, RemoveAt;
    PlugEntries(c, t);
    PlugEntries(c, u);
    RootEntries(t);
    RemoveInside(Before(c), Entries(t.left), Entry(t.node, t.key), Entries(t.right), After(c));
    Reassociate3(Entries(t.left), [y], z);
  }

  lemma Reassociate3<T>(a: seq<T>, b: seq<T>, c: seq<T>)
    ensures a + (b + c) == a + b + c
  {
  }

  lemma SpineEntries<X>(inner: Context<X>, s: Shape<X>)
    requires s.Bin? && s.left.Nil? && LeftSpine(inner)
    ensures Entries(Plug(inner, s)) == [Entry(s.node, s.key)] + Entries(Plug(inner, s.right))
  {
    PlugEntries(inner, s);
    PlugEntries(inner, s.right);
    SpineBefore(inner);
    Reassociate3([Entry(s.node, s.key)], Entries(s.right), After(inner));
  }

  lemma {:induction false} PlugNodes<X>(c: Context<X>, t: Shape<X>)
    ensures Nodes(Plug(c, t)) == CtxNodes(c) + Nodes(t)
    ensures Distinct(Plug(c, t)) <==> Apart(t, c)
    decreases c
  {
    if !c.Top? { PlugNodes(c.up, Enclose(c, t)); }
  }

  lemma GraftNode<X>(inner: Context<X>, outer: Context<X>)
    requires !outer.Top?
    ensures !Graft(inner, outer).Top?
    ensures Graft(inner, outer).node == if inner.Top? then outer.node else inner.node
  {
  }

  lemma {:induction false} GraftPlug<X>(inner: Context<X>, outer: Context<X>, t: Shape<X>)
    ensures Plug(Graft(inner, outer), t) == Plug(outer, Plug(inner, t))
    decreases inner
  {
    if !inner.Top? { GraftPlug(inner.up, outer, Enclose(inner, t)); }
  }

  lemma {:induction false} GraftTop<X>(c: Context<X>)
    ensures Graft(c, Top) == c
  {
    if !c.Top? { GraftTop(c.up); }
  }

  /** t rearranges s: the same nodes with the same entries in the same order. */
  ghost predicate Same<X>(s: Shape<X>, t: Shape<X>) {
    Nodes(s) == Nodes(t) && Entries(s) == Entries(t)
  }

  lemma SameInside<X>(c: Context<X>, s: Shape<X>, t: Shape<X>)
    requires Same(s, t)
    ensures Same(Plug(c, s), Plug(c, t))
  {
    PlugEntries(c, s);
    PlugEntries(c, t);
    PlugNodes(c, s);
    PlugNodes(c, t);
  }

  ghost function RotatedLeft<X>(t: Shape<X>): Shape<X>
    requires t.Bin? && t.right.Bin?
  {
    var u := t.right;
    Bin(u.red, Bin(t.red, t.left, t.node, t.key, u.left), u.node, u.key, u.right)
  }

  ghost function RotatedRight<X>(t: Shape<X>): Shape<X>
    requires t.Bin? && t.left.Bin?
  {
    var u := t.left;
    Bin(u.red, u.left, u.node, u.key, Bin(t.red, u.right, t.node, t.key, t.right))
  }

  lemma Reassociate<T>(a: seq<T>, b: seq<T>, c: seq<T>, x: T, y: T)
    ensures a + [x] + (b + [y] + c) == (a + [x] + b) + [y] + c
  {
  }

  lemma RotateLeftSame<X>(t: Shape<X>, c: Context<X>)
    requires t.Bin? && t.right.Bin? && Distinct(Plug(c, t))
    ensures Same(Plug(c, t), Plug(c, RotatedLeft(t))) && Distinct(Plug(c, RotatedLeft(t)))
  {
    var u, r := t.right, RotatedLeft(t);
    var v := r.left;
    PlugNodes(c, t);
    Reassociate(Entries(t.left), Entries(u.left), Entries(u.right), Entry(t.node, t.key), Entry(u.node, u.key));
    assert Entries(r) == Entries(t) by {
      assert Entries(v) == Entries(t.left) + [Entry(t.node, t.key)] + Entries(u.left);
    }
    assert Nodes(v) == Nodes(t.left) + {t.node} + Nodes(u.left);
    assert Nodes(u) == Nodes(u.left) + {u.node} + Nodes(u.right);
    assert Distinct(u);
    assert Distinct(v);
    assert Nodes(r) == Nodes(t);
    SameInside(c, t, r);
    PlugNodes(c, r);
  }

  lemma RotateRightSame<X>(t: Shape<X>, c: Context<X>)
    requires t.Bin? && t.left.Bin? && Distinct(Plug(c, t))
    ensures Same(Plug(c, t), Plug(c, RotatedRight(t))) && Distinct(Plug(c, RotatedRight(t)))
  {
    var u, r := t.left, RotatedRight(t);
    var v := r.right;
    PlugNodes(c, t);
    Reassociate(Entries(u.left), Entries(u.right), Entries(t.right), Entry(u.node, u.key), Entry(t.node, t.key));
    assert Entries(r) == Entries(t) by {
      assert Entries(v) == Entries(u.right) + [Entry(t.node, t.key)] + Entries(t.right);
    }
    assert Nodes(v) == Nodes(u.right) + {t.node} + Nodes(t.right);
    assert Nodes(u) == Nodes(u.left) + {u.node} + Nodes(u.right);
    assert Distinct(u);
    assert Distinct(v);
    assert Nodes(r) == Nodes(t);
    SameInside(c, t, r);
    PlugNodes(c, r);
  }

  lemma {:induction false} PlugBin<X>(c: Context<X>, t: Shape<X>)
    requires !c.Top?
    ensures Plug(c, t).Bin? && Plug(c, t).node in CtxNodes(c)
    decreases c
  {
    if !c.up.Top? { PlugBin(c.up, Enclose(c, t)); }
  }

  /** Below the root, what is plugged in does not change the root. */
  lemma {:induction false} PlugRoot<X>(c: Context<X>, t: Shape<X>, u: Shape<X>, sentinel: X)
    requires !c.Top?
    ensures Ptr(Plug(c, t), sentinel) == Ptr(Plug(c, u), sentinel)
    decreases c
  {
    if !c.up.Top? { PlugRoot(c.up, Enclose(c, t), Enclose(c, u), sentinel); }
  }

  lemma Up<X>(t: Shape<X>, c: Context<X>)
    requires !c.Top?
    ensures Plug(c, t) == Plug(c.up, Enclose(c, t))
  {
  }

  lemma PlugTop<X>(t: Shape<X>)
    ensures Plug(Top, t) == t
  {
  }

  lemma Down<X>(t: Shape<X>, c: Context<X>)
    requires t.Bin?
    ensures Plug(LeftOf(t, c), t.left) == Plug(c, t) == Plug(RightOf(t, c), t.right)
  {
  }

  /** Every node of a tree is the root of a subtree in some context. */
  lemma {:induction false} Locate<X>(outer: Context<X>, t: Shape<X>, x: X) returns (c: Context<X>, s: Shape<X>)
    requires x in Nodes(t)
    ensures s.Bin? && s.node == x && Plug(c, s) == Plug(outer, t)
    decreases t
  {
    if t.node == x {
      c, s := outer, t;
    } else if x in Nodes(t.left) {
      c, s := Locate(LeftOf(t, outer), t.left, x);
    } else {
      c, s := Locate(RightOf(t, outer), t.right, x);
    }
  }

  ghost predicate Lists<X>(s: seq<Entry<X>>, x: X) {
    exists i :: 0 <= i < |s| && s[i].node == x
  }

  lemma ListsSplit<X>(a: seq<Entry<X>>, e: Entry<X>, b: seq<Entry<X>>, x: X)
    ensures Lists(a + [e] + b, x) <==> Lists(a, x) || x == e.node || Lists(b, x)
  {
    var s := a + [e] + b;
    assert forall i :: 0 <= i < |a| ==> s[i] == a[i];
    assert s[|a|] == e;
    assert forall i :: 0 <= i < |b| ==> s[|a| + 1 + i] == b[i];
    if Lists(s, x) {
      var i :| 0 <= i < |s| && s[i].node == x;
      if i > |a| { assert b[i - |a| - 1].node == x; }
    }
  }

  lemma {:induction false} EntriesList<X>(t: Shape<X>, x: X)
    ensures x in Nodes(t) <==> Lists(Entries(t), x)
  {
    if t.Bin? {
      EntriesList(t.left, x);
      EntriesList(t.right, x);
      ListsSplit(Entries(t.left), Entry(t.node, t.key), Entries(t.right), x);
    }
  }

  // ---------- links ----------

  /** A node's parent link; Loose when nothing is required of it, as in the tree's root. */
  datatype Parent<X> = Loose | Under(node: X)

  /** The fields of one node. */
  datatype Info<X> = Info(left: X, right: X, red: bool, key: Key, up: Parent<X>)

  /** The pointer that stands for t. */
  ghost function Ptr<X>(t: Shape<X>, sentinel: X): X {
    if t.Nil? then sentinel else t.node
  }

  ghost function CtxUp<X>(c: Context<X>): Parent<X> {
    if c.Top? then Loose else Under(c.node)
  }

  ghost function RootInfo<X>(t: Shape<X>, up: Parent<X>, sentinel: X): Info<X>
    requires t.Bin?
  {
    Info(Ptr(t.left, sentinel), Ptr(t.right, sentinel), t.red, t.key, up)
  }

  ghost function HoleInfo<X>(c: Context<X>, hole: X, sentinel: X): Info<X>
    requires !c.Top?
  {
    if c.InLeft? then Info(hole, Ptr(c.right, sentinel), c.red, c.key, CtxUp(c.up))
    else Info(Ptr(c.left, sentinel), hole, c.red, c.key, CtxUp(c.up))
  }

  /** What every node of t must store for the linked structure to be t. */
  ghost function Links<X>(t: Shape<X>, up: Parent<X>, sentinel: X): (m: map<X, Info<X>>)
    ensures m.Keys == Nodes(t)
  {
    if t.Nil? then map[]
    else Links(t.left, Under(t.node), sentinel) + Links(t.right, Under(t.node), sentinel)
         + map[t.node := RootInfo(t, up, sentinel)]
  }

  ghost function CtxLinks<X>(c: Context<X>, hole: X, sentinel: X): (m: map<X, Info<X>>)
    ensures m.Keys == CtxNodes(c)
  {
    match c
    case Top => map[]
    case InLeft(up, _, x, _, r) =>
      CtxLinks(up, x, sentinel) + Links(r, Under(x), sentinel) + map[x := HoleInfo(c, hole, sentinel)]
    case InRight(up, _, l, x, _) =>
      CtxLinks(up, x, sentinel) + Links(l, Under(x), sentinel) + map[x := HoleInfo(c, hole, sentinel)]
  }

  lemma MergeLeft<K, V>(a: map<K, V>, b: map<K, V>, d: map<K, V>, x: K, v: V)
    requires a.Keys !! b.Keys && b.Keys !! d.Keys && a.Keys !! d.Keys && x !in a && x !in b && x !in d
    ensures a + (b + d + map[x := v]) == a + d + map[x := v] + b
    ensures a + (d + b + map[x := v]) == a + d + map[x := v] + b
  {
  }

  lemma MergeUpdate<K, V>(a: map<K, V>, b: map<K, V>, x: K, v: V)
    ensures a + b[x := v] == (a + b)[x := v]
    ensures x !in b ==> a[x := v] + b == (a + b)[x := v]
  {
  }

  lemma {:induction false} PlugLinks<X>(c: Context<X>, t: Shape<X>, sentinel: X)
    requires Distinct(Plug(c, t))
    ensures Links(Plug(c, t), Loose, sentinel)
         == CtxLinks(c, Ptr(t, sentinel), sentinel) + Links(t, CtxUp(c), sentinel)
    ensures Apart(t, c)
    decreases c
  {
    PlugNodes(c, t);
    if c.Top? {
      assert Links(t, Loose, sentinel) == map[] + Links(t, Loose, sentinel);
    } else {
      var side := if c.InLeft? then c.right else c.left;
      PlugLinks(c.up, Enclose(c, t), sentinel);
      MergeLeft(CtxLinks(c.up, c.node, sentinel), Links(t, Under(c.node), sentinel),
                Links(side, Under(c.node), sentinel), c.node, HoleInfo(c, Ptr(t, sentinel), sentinel));
    }
  }

  /** In the whole tree w, node x must store i. */
  ghost predicate Says<X>(w: Shape<X>, sentinel: X, x: X, i: Info<X>) {
    var m := Links(w, Loose, sentinel);
    x in m && m[x] == i
  }

  lemma {:induction false} EntryInfo<X>(t: Shape<X>, up: Parent<X>, e: Entry<X>, sentinel: X)
    requires Distinct(t) && e in Entries(t)
    ensures e.node in Nodes(t) && Links(t, up, sentinel)[e.node].key == e.key
    decreases t
  {
    if e in Entries(t.left) { EntryInfo(t.left, Under(t.node), e, sentinel); }
    else if e in Entries(t.right) { EntryInfo(t.right, Under(t.node), e, sentinel); }
  }

  /** What can be read around the focus. */
  lemma Look<X>(c: Context<X>, t: Shape<X>, sentinel: X)
    requires Distinct(Plug(c, t))
    ensures t.Bin? ==> Says(Plug(c, t), sentinel, t.node, RootInfo(t, CtxUp(c), sentinel))
    ensures !c.Top? ==> Says(Plug(c, t), sentinel, c.node, HoleInfo(c, Ptr(t, sentinel), sentinel))
    ensures t.Bin? && !c.Top? ==> t.node != c.node
  {
    PlugLinks(c, t, sentinel);
  }

  /** Recolouring changes one field of one node. */
  lemma PaintDelta<X>(c: Context<X>, t: Shape<X>, red: bool, sentinel: X)
    requires t.Bin? && Distinct(Plug(c, t))
    ensures var u := t.(red := red);
      && Distinct(Plug(c, u)) && Same(Plug(c, t), Plug(c, u))
      && Links(Plug(c, u), Loose, sentinel)
         == Links(Plug(c, t), Loose, sentinel)[t.node := RootInfo(u, CtxUp(c), sentinel)]
  {
    var u := t.(red := red);
    SameInside(c, t, u);
    PlugNodes(c, t);
    PlugNodes(c, u);
    PlugLinks(c, t, sentinel);
    PlugLinks(c, u, sentinel);
    RootDelta(t, u, CtxUp(c), CtxUp(c), sentinel);
    MergeUpdate(CtxLinks(c, t.node, sentinel), Links(t, CtxUp(c), sentinel), t.node, RootInfo(u, CtxUp(c), sentinel));
  }

  /** Shapes that agree below the root have links that agree below the root. */
  lemma RootDelta<X>(t: Shape<X>, u: Shape<X>, up: Parent<X>, up': Parent<X>, sentinel: X)
    requires t.Bin? && u.Bin? && t.left == u.left && t.right == u.right && t.node == u.node
    ensures Links(u, up', sentinel) == Links(t, up, sentinel)[t.node := RootInfo(u, up', sentinel)]
  {
  }

  /** Only the node next to the hole knows what is in the hole. */
  lemma HoleDelta<X>(c: Context<X>, hole: X, hole': X, sentinel: X)
    requires !c.Top?
    ensures CtxLinks(c, hole', sentinel) == CtxLinks(c, hole, sentinel)[c.node := HoleInfo(c, hole', sentinel)]
  {
  }

  /** m' differs from m at most at the given nodes. */
  ghost predicate OnlyChanged<X>(m: map<X, Info<X>>, m': map<X, Info<X>>, changed: set<X>) {
    m.Keys == m'.Keys && forall x :: x in m && x !in changed ==> m'[x] == m[x]
  }

  ghost function RootSet<X>(t: Shape<X>): set<X> {
    if t.Nil? then {} else {t.node}
  }

  ghost function HoleSet<X>(c: Context<X>): set<X> {
    if c.Top? then {} else {c.node}
  }

  lemma RebaseLinks<X>(t: Shape<X>, up: Parent<X>, up': Parent<X>, sentinel: X)
    ensures OnlyChanged(Links(t, up, sentinel), Links(t, up', sentinel), RootSet(t))
  {
  }

  lemma HoleOnly<X>(c: Context<X>, t: Shape<X>, u: Shape<X>, s: set<X>, sentinel: X)
    requires Distinct(Plug(c, t)) && Distinct(Plug(c, u))
    requires OnlyChanged(Links(t, CtxUp(c), sentinel), Links(u, CtxUp(c), sentinel), s)
    ensures OnlyChanged(Links(Plug(c, t), Loose, sentinel), Links(Plug(c, u), Loose, sentinel),
                        s + HoleSet(c))
  {
    PlugLinks(c, t, sentinel);
    PlugLinks(c, u, sentinel);
    if !c.Top? { HoleDelta(c, Ptr(t, sentinel), Ptr(u, sentinel), sentinel); }
  }

  lemma RotateLeftLocal<X>(t: Shape<X>, up: Parent<X>, sentinel: X)
    requires t.Bin? && t.right.Bin? && Distinct(t) && Distinct(RotatedLeft(t)) && Nodes(t) == Nodes(RotatedLeft(t))
    ensures OnlyChanged(Links(t, up, sentinel), Links(RotatedLeft(t), up, sentinel),
                        {t.node, t.right.node} + RootSet(t.right.left))
  {
    var near, child, r := t.right.left, t.right.node, RotatedLeft(t);
    RebaseLinks(near, Under(child), Under(t.node), sentinel);
    var n, n' := Links(near, Under(child), sentinel), Links(near, Under(t.node), sentinel);
    var l, f := Links(t.left, Under(t.node), sentinel), Links(t.right.right, Under(child), sentinel);
    var m, m' := Links(t, up, sentinel), Links(r, up, sentinel);
    var c, p := Links(t.right, Under(t.node), sentinel), Links(r.left, Under(child), sentinel);
    assert c == n + f + map[child := RootInfo(t.right, Under(t.node), sentinel)];
    assert p == l + n' + map[t.node := RootInfo(r.left, Under(child), sentinel)];
    assert m == l + c + map[t.node := RootInfo(t, up, sentinel)];
    assert m' == p + f + map[child := RootInfo(r, up, sentinel)];
    forall x | x in m && x != t.node && x != child && x !in RootSet(near) ensures m'[x] == m[x] {
      if x in l { assert x !in n && x !in f; }
      else if x in n { assert x !in f; }
    }
  }

  /** A rotation rewrites the links of t's root, of its child, of the root of the child's inner
    * subtree and of the node above, and of no other. */
  lemma RotateLeftDelta<X>(c: Context<X>, t: Shape<X>, sentinel: X)
    requires t.Bin? && t.right.Bin? && Distinct(Plug(c, t))
    ensures Distinct(Plug(c, RotatedLeft(t))) && Same(Plug(c, t), Plug(c, RotatedLeft(t)))
    ensures OnlyChanged(Links(Plug(c, t), Loose, sentinel), Links(Plug(c, RotatedLeft(t)), Loose, sentinel),
                        {t.node, t.right.node} + RootSet(t.right.left) + HoleSet(c))
  {
    RotateLeftSame(t, c);
    PlugNodes(c, t);
    PlugNodes(c, RotatedLeft(t));
    assert Distinct(t.right);
    RotateLeftLocal(t, CtxUp(c), sentinel);
    HoleOnly(c, t, RotatedLeft(t), {t.node, t.right.node} + RootSet(t.right.left), sentinel);
  }

  /** What the four touched nodes store before and after a left rotation. */
  lemma RotateLeftLooks<X>(c: Context<X>, t: Shape<X>, sentinel: X)
    requires t.Bin? && t.right.Bin? && Distinct(Plug(c, t))
    ensures var u, r, near := t.right, RotatedLeft(t), t.right.left;
      var w, w' := Plug(c, t), Plug(c, r);
      && Says(w, sentinel, t.node, RootInfo(t, CtxUp(c), sentinel))
      && Says(w, sentinel, u.node, RootInfo(u, Under(t.node), sentinel))
      && (near.Bin? ==> Says(w, sentinel, near.node, RootInfo(near, Under(u.node), sentinel)))
      && (!c.Top? ==> Says(w, sentinel, c.node, HoleInfo(c, t.node, sentinel)))
      && Says(w', sentinel, t.node, RootInfo(r.left, Under(u.node), sentinel))
      && Says(w', sentinel, u.node, RootInfo(r, CtxUp(c), sentinel))
      && (near.Bin? ==> Says(w', sentinel, near.node, RootInfo(near, Under(t.node), sentinel)))
      && (!c.Top? ==> Says(w', sentinel, c.node, HoleInfo(c, u.node, sentinel)))
      && u.node != t.node && (near.Bin? ==> near.node !in {u.node, t.node})
      && (!c.Top? ==> c.node !in {u.node, t.node} + RootSet(near))
  {
    RotateLeftSame(t, c);
    var u, r, near := t.right, RotatedLeft(t), t.right.left;
    Look(c, t, sentinel);
    Look(RightOf(t, c), u, sentinel);
    Look(LeftOf(u, RightOf(t, c)), near, sentinel);
    Look(c, r, sentinel);
    Look(LeftOf(r, c), r.left, sentinel);
    Look(RightOf(r.left, LeftOf(r, c)), near, sentinel);
    PlugNodes(c, t);
    assert Distinct(u);
  }

  /** Where node, its right child temp, temp's left child near and the node above stand before a
    * left rotation. */
  ghost predicate Poised<X>(m: map<X, Info<X>>, node: X, temp: X, near: X, above: Parent<X>, sentinel: X) {
    && sentinel !in m
    && node in m && temp in m && node != temp && near != node && near != temp
    && m[node].right == temp && m[temp].left == near
    && m[node].up == above && m[temp].up == Under(node)
    && (near != sentinel ==> near in m && m[near].up == Under(temp))
    && (above.Under? ==>
          && above.node in m && above.node != node && above.node != temp && above.node != near
          && (m[above.node].left == node <==> m[above.node].right != node)
          && m[above.node].left != temp && m[above.node].right != temp)
  }

  /** m' is m after a left rotation at node. */
  ghost predicate Rotation<X>(m: map<X, Info<X>>, m': map<X, Info<X>>, node: X, temp: X, near: X,
      above: Parent<X>, sentinel: X)
    requires Poised(m, node, temp, near, above, sentinel)
  {
    && m.Keys == m'.Keys
    && m'[node] == m[node].(right := near, up := Under(temp))
    && m'[temp] == m[temp].(left := node, up := above)
    && (near != sentinel ==> m'[near] == m[near].(up := Under(node)))
    && (above.Under? ==> m'[above.node] == if m[above.node].left == node then m[above.node].(left := temp)
                                           else m[above.node].(right := temp))
    && (forall x :: x in m && x != node && x != temp && x != near && above != Under(x) ==> m'[x] == m[x])
  }

  lemma LinksPoised<X>(c: Context<X>, t: Shape<X>, sentinel: X)
    requires t.Bin? && t.right.Bin? && Distinct(Plug(c, t)) && sentinel !in Nodes(Plug(c, t))
    ensures Poised(Links(Plug(c, t), Loose, sentinel), t.node, t.right.node, Ptr(t.right.left, sentinel),
                   CtxUp(c), sentinel)
  {
    RotateLeftLooks(c, t, sentinel);
    ContextApart(c, t);
  }

  /** The tables m and m' record the two sides of a left rotation of t. */
  ghost predicate BothSides<X>(m: map<X, Info<X>>, m': map<X, Info<X>>, c: Context<X>, t: Shape<X>, sentinel: X)
    requires t.Bin? && t.right.Bin?
  {
    var u, r, near := t.right, RotatedLeft(t), t.right.left;
    && OnlyChanged(m, m', {t.node, u.node} + RootSet(near) + HoleSet(c))
    && t.node in m && m[t.node] == RootInfo(t, CtxUp(c), sentinel)
    && m'[t.node] == RootInfo(r.left, Under(u.node), sentinel)
    && u.node in m && m[u.node] == RootInfo(u, Under(t.node), sentinel) && m'[u.node] == RootInfo(r, CtxUp(c), sentinel)
    && (near.Bin? ==> near.node in m && m[near.node] == RootInfo(near, Under(u.node), sentinel)
                      && m'[near.node] == RootInfo(near, Under(t.node), sentinel))
    && (!c.Top? ==> c.node in m && m[c.node] == HoleInfo(c, t.node, sentinel)
                    && m'[c.node] == HoleInfo(c, u.node, sentinel))
  }

  lemma RotationOfTables<X>(m: map<X, Info<X>>, m': map<X, Info<X>>, c: Context<X>, t: Shape<X>, sentinel: X)
    requires t.Bin? && t.right.Bin? && BothSides(m, m', c, t, sentinel)
    requires Poised(m, t.node, t.right.node, Ptr(t.right.left, sentinel), CtxUp(c), sentinel)
    ensures Rotation(m, m', t.node, t.right.node, Ptr(t.right.left, sentinel), CtxUp(c), sentinel)
  {
  }

  lemma LinksRotate<X>(c: Context<X>, t: Shape<X>, sentinel: X)
    requires t.Bin? && t.right.Bin? && Distinct(Plug(c, t)) && sentinel !in Nodes(Plug(c, t))
    ensures Poised(Links(Plug(c, t), Loose, sentinel), t.node, t.right.node, Ptr(t.right.left, sentinel),
                   CtxUp(c), sentinel)
    ensures Rotation(Links(Plug(c, t), Loose, sentinel), Links(Plug(c, RotatedLeft(t)), Loose, sentinel),
                     t.node, t.right.node, Ptr(t.right.left, sentinel), CtxUp(c), sentinel)
  {
    LinksPoised(c, t, sentinel);
    RotateLeftDelta(c, t, sentinel);
    RotateLeftLooks(c, t, sentinel);
    RotationOfTables(Links(Plug(c, t), Loose, sentinel), Links(Plug(c, RotatedLeft(t)), Loose, sentinel), c, t,
      sentinel);
  }

  /** A focus is not the other child of the node above it. */
  lemma ContextApart<X>(c: Context<X>, t: Shape<X>)
    requires t.Bin? && Distinct(Plug(c, t))
    ensures !c.Top? ==> {t.node} + RootSet(t.left) + RootSet(t.right) !! RootSet(if c.InLeft? then c.right else c.left)
  {
    PlugNodes(c, t);
  }

  lemma MergeSingle<K, V>(a: map<K, V>, x: K, i: V, y: K, j: V)
    ensures a[x := i] + map[y := j] == (a + map[])[x := i][y := j]
  {
  }

  /** A fresh leaf in an empty hole. */
  lemma AttachDelta<X>(c: Context<X>, t: Shape<X>, sentinel: X)
    requires !c.Top? && t.Bin? && t.left.Nil? && t.right.Nil?
    requires Distinct(Plug(c, Nil)) && t.node !in Nodes(Plug(c, Nil))
    ensures Distinct(Plug(c, t)) && Nodes(Plug(c, t)) == Nodes(Plug(c, Nil)) + {t.node}
    ensures var m, m' := Links(Plug(c, Nil), Loose, sentinel), Links(Plug(c, t), Loose, sentinel);
      m' == m[c.node := HoleInfo(c, t.node, sentinel)][t.node := RootInfo(t, Under(c.node), sentinel)]
  {
    PlugNodes(c, t);
    PlugNodes(c, Nil);
    assert Links(Nil, CtxUp(c), sentinel) == map[];
    hide Links, CtxLinks, Nodes, CtxNodes, Plug, Distinct, CtxDistinct;
    PlugLinks(c, t, sentinel);
    PlugLinks(c, Nil, sentinel);
    HoleDelta(c, sentinel, t.node, sentinel);
    LeafLinks(t, Under(c.node), sentinel);
    MergeSingle(CtxLinks(c, sentinel, sentinel), c.node, HoleInfo(c, t.node, sentinel),
                t.node, RootInfo(t, Under(c.node), sentinel));
  }

  lemma LeafLinks<X>(t: Shape<X>, up: Parent<X>, sentinel: X)
    requires t.Bin? && t.left.Nil? && t.right.Nil?
    ensures Links(t, up, sentinel) == map[t.node := RootInfo(t, up, sentinel)]
  {
  }

  /** m' is m once the row of gone has been bridged: above now leads to temp instead. */
  ghost predicate Spliced<X>(m: map<X, Info<X>>, m': map<X, Info<X>>, gone: X, temp: X, above: X) {
    && m'.Keys == m.Keys - {gone}
    && gone in m && m[gone].up == Under(above) && above in m' && above != temp
    && (m[above].left == gone <==> m[above].right != gone)
    && m'[above] == (if m[above].left == gone then m[above].(left := temp) else m[above].(right := temp))
    && (temp in m' ==> m'[temp] == m[temp].(up := Under(above)))
    && (forall x :: x in m' && x != above && x != temp ==> m'[x] == m[x])
  }

  lemma SplicedUp<X>(m: map<X, Info<X>>, m': map<X, Info<X>>, gone: X, temp: X, above: X)
    requires Spliced(m, m', gone, temp, above)
    ensures temp in m' ==> m'[temp].up == Under(above)
  {
  }

  lemma SpliceTables<X>(a: map<X, Info<X>>, l: map<X, Info<X>>, l': map<X, Info<X>>,
      gone: X, i: Info<X>, above: X, h: Info<X>, temp: X)
    requires a.Keys !! l.Keys && gone !in a && gone !in l && above in a && above != temp && temp !in a
    requires l.Keys == l'.Keys && (forall x :: x in l && x != temp ==> l'[x] == l[x])
    requires temp in l ==> l'[temp] == l[temp].(up := Under(above))
    requires i.up == Under(above) && (a[above].left == gone <==> a[above].right != gone)
    requires h == if a[above].left == gone then a[above].(left := temp) else a[above].(right := temp)
    ensures Spliced(a + l[gone := i], a[above := h] + l', gone, temp, above)
  {
  }

  lemma SpliceSets<X>(c: Context<X>, t: Shape<X>, rest: Shape<X>)
    requires t.Bin? && Distinct(Plug(c, t))
    requires (t.left.Nil? && rest == t.right) || (t.right.Nil? && rest == t.left)
    ensures Distinct(Plug(c, rest)) && Nodes(Plug(c, rest)) == Nodes(Plug(c, t)) - {t.node}
    ensures Nodes(rest) !! CtxNodes(c) && t.node !in Nodes(rest) && t.node !in CtxNodes(c)
  {
    PlugNodes(c, t);
    OnlyChild(t, rest);
    PlugNodes(c, rest);
    MinusOne(CtxNodes(c), Nodes(rest), t.node);
  }

  lemma MinusOne<X>(a: set<X>, b: set<X>, x: X)
    requires x !in a && x !in b
    ensures a + b == (a + (b + {x})) - {x}
  {
  }

  lemma OnlyChild<X>(t: Shape<X>, rest: Shape<X>)
    requires t.Bin? && Distinct(t)
    requires (t.left.Nil? && rest == t.right) || (t.right.Nil? && rest == t.left)
    ensures Distinct(rest) && t.node !in Nodes(rest) && Nodes(t) == Nodes(rest) + {t.node}
  {
  }

  lemma SpliceLinks<X>(t: Shape<X>, rest: Shape<X>, up: Parent<X>, sentinel: X)
    requires t.Bin? && Distinct(t)
    requires (t.left.Nil? && rest == t.right) || (t.right.Nil? && rest == t.left)
    ensures Links(t, up, sentinel) == Links(rest, Under(t.node), sentinel)[t.node := RootInfo(t, up, sentinel)]
  {
  }

  /** Replacing a node that has one subtree by that subtree. */
  lemma SpliceDelta<X>(c: Context<X>, t: Shape<X>, rest: Shape<X>, sentinel: X)
    requires !c.Top? && t.Bin? && Distinct(Plug(c, t)) && sentinel !in Nodes(Plug(c, t))
    requires (t.left.Nil? && rest == t.right) || (t.right.Nil? && rest == t.left)
    ensures Spliced(Links(Plug(c, t), Loose, sentinel), Links(Plug(c, rest), Loose, sentinel),
                    t.node, Ptr(rest, sentinel), c.node)
  {
    var temp := Ptr(rest, sentinel);
    SpliceSets(c, t, rest);
    PlugNodes(c, t);
    PlugLinks(c, t, sentinel);
    PlugLinks(c, rest, sentinel);
    HoleDelta(c, t.node, temp, sentinel);
    RebaseLinks(rest, Under(t.node), CtxUp(c), sentinel);
    SpliceLinks(t, rest, CtxUp(c), sentinel);
    ContextApart(c, t);
    TopRow(c, t.node, sentinel);
    var i, h := RootInfo(t, CtxUp(c), sentinel), HoleInfo(c, temp, sentinel);
    SpliceTables(CtxLinks(c, t.node, sentinel), Links(rest, Under(t.node), sentinel),
                 Links(rest, CtxUp(c), sentinel), t.node, i, c.node, h, temp);
  }

  lemma TopRow<X>(c: Context<X>, hole: X, sentinel: X)
    requires !c.Top?
    ensures c.node in CtxNodes(c) && CtxLinks(c, hole, sentinel)[c.node] == HoleInfo(c, hole, sentinel)
  {
  }

  /** node's children in m hang under it and are not the node above it. */
  ghost predicate ChildOf<X>(m: map<X, Info<X>>, node: X, x: X, sentinel: X)
    requires node in m
  {
    x != sentinel ==> x in m && x != node && m[x].up == Under(node) && m[node].up != Under(x)
  }

  /** m' is m with node's row taken over by subst; the rows next to it follow. */
  ghost predicate Renamed<X>(m: map<X, Info<X>>, m': map<X, Info<X>>, node: X, subst: X, key: Key, sentinel: X) {
    && node in m && subst !in m && sentinel !in m && subst != sentinel
    && m'.Keys == m.Keys - {node} + {subst}
    && var i := m[node];
    && m'[subst] == i.(key := key)
    && ChildOf(m, node, i.left, sentinel) && ChildOf(m, node, i.right, sentinel)
    && (i.left != sentinel ==> i.left != i.right && m'[i.left] == m[i.left].(up := Under(subst)))
    && (i.right != sentinel ==> m'[i.right] == m[i.right].(up := Under(subst)))
    && (i.up.Under? ==>
          && i.up.node in m && i.up.node != node
          && (m[i.up.node].left == node <==> m[i.up.node].right != node)
          && m'[i.up.node] == if m[i.up.node].left == node then m[i.up.node].(left := subst)
                              else m[i.up.node].(right := subst))
    && (forall x :: x in m && x != node && x != i.left && x != i.right && i.up != Under(x) ==> m'[x] == m[x])
  }

  lemma RenameTables<X>(a: map<X, Info<X>>, a': map<X, Info<X>>, l: map<X, Info<X>>, l': map<X, Info<X>>,
      node: X, i: Info<X>, subst: X, key: Key, sentinel: X)
    requires a.Keys !! l.Keys && node !in a && node !in l && subst !in a && subst !in l && subst != node
    requires sentinel !in a && sentinel !in l && sentinel != subst && sentinel != node
    requires a.Keys == a'.Keys && l.Keys == l'.Keys
    requires forall x :: x in l && x != i.left && x != i.right ==> l'[x] == l[x]
    requires i.left != sentinel ==> (i.left in l && i.left != i.right && l[i.left].up == Under(node)
                                     && l'[i.left] == l[i.left].(up := Under(subst)))
    requires i.right != sentinel ==> (i.right in l && l[i.right].up == Under(node)
                                      && l'[i.right] == l[i.right].(up := Under(subst)))
    requires forall x :: x in a && i.up != Under(x) ==> a'[x] == a[x]
    requires i.up.Under? ==> (
      && i.up.node in a && (a[i.up.node].left == node <==> a[i.up.node].right != node)
      && a'[i.up.node] == if a[i.up.node].left == node then a[i.up.node].(left := subst)
                          else a[i.up.node].(right := subst))
    ensures Renamed(a + l[node := i], a' + l'[subst := i.(key := key)], node, subst, key, sentinel)
  {
  }

  /** The rows of the two children, under one parent or another. */
  lemma ChildRows<X>(t: Shape<X>, y: X, sentinel: X)
    requires t.Bin? && Distinct(t) && sentinel !in Nodes(t)
    ensures var l := Links(t.left, Under(t.node), sentinel) + Links(t.right, Under(t.node), sentinel);
      var l' := Links(t.left, Under(y), sentinel) + Links(t.right, Under(y), sentinel);
      var p, q := Ptr(t.left, sentinel), Ptr(t.right, sentinel);
      && l.Keys == l'.Keys == Nodes(t) - {t.node}
      && (forall x :: x in l && x != p && x != q ==> l'[x] == l[x])
      && (p != sentinel ==> p in l && p != q && l[p].up == Under(t.node) && l'[p] == l[p].(up := Under(y)))
      && (q != sentinel ==> q in l && l[q].up == Under(t.node) && l'[q] == l[q].(up := Under(y)))
  {
    RebaseLinks(t.left, Under(t.node), Under(y), sentinel);
    RebaseLinks(t.right, Under(t.node), Under(y), sentinel);
  }

  /** Another node takes the place of t's root. */
  lemma RenameDelta<X>(c: Context<X>, t: Shape<X>, u: Shape<X>, sentinel: X)
    requires t.Bin? && u.Bin? && u == t.(node := u.node, key := u.key)
    requires Distinct(Plug(c, t)) && sentinel !in Nodes(Plug(c, t))
    requires u.node !in Nodes(Plug(c, t)) && u.node != sentinel
    ensures Distinct(Plug(c, u)) && Nodes(Plug(c, u)) == Nodes(Plug(c, t)) - {t.node} + {u.node}
    ensures Renamed(Links(Plug(c, t), Loose, sentinel), Links(Plug(c, u), Loose, sentinel),
                    t.node, u.node, u.key, sentinel)
  {
    RenameSets(c, t, u);
    hide Nodes, Distinct, Plug, CtxNodes, CtxDistinct, Renamed, Links;
    PlugLinks(c, t, sentinel);
    PlugLinks(c, u, sentinel);
    SplitRoot(t, CtxUp(c), sentinel);
    SplitRoot(u, CtxUp(c), sentinel);
    RenameParts(c, t, u, sentinel);
  }

  /** The rows above and below the root that is renamed. */
  lemma RenameParts<X>(c: Context<X>, t: Shape<X>, u: Shape<X>, sentinel: X)
    requires t.Bin? && u.Bin? && u == t.(node := u.node, key := u.key)
    requires Distinct(Plug(c, t)) && sentinel !in Nodes(Plug(c, t))
    requires u.node !in Nodes(Plug(c, t)) && u.node != sentinel
    ensures var l := Links(t.left, Under(t.node), sentinel) + Links(t.right, Under(t.node), sentinel);
      var l' := Links(t.left, Under(u.node), sentinel) + Links(t.right, Under(u.node), sentinel);
      var i := RootInfo(t, CtxUp(c), sentinel);
      Renamed(CtxLinks(c, t.node, sentinel) + l[t.node := i],
              CtxLinks(c, u.node, sentinel) + l'[u.node := i.(key := u.key)], t.node, u.node, u.key, sentinel)
  {
    PlugNodes(c, t);
    assert t.node in Nodes(t);
    hide Nodes, Distinct, Plug, CtxNodes, CtxDistinct, Renamed;
    ChildRows(t, u.node, sentinel);
    ContextApart(c, t);
    if !c.Top? {
      HoleDelta(c, t.node, u.node, sentinel);
      TopRow(c, t.node, sentinel);
    }
    var l := Links(t.left, Under(t.node), sentinel) + Links(t.right, Under(t.node), sentinel);
    var l' := Links(t.left, Under(u.node), sentinel) + Links(t.right, Under(u.node), sentinel);
    var i := RootInfo(t, CtxUp(c), sentinel);
    RenameTables(CtxLinks(c, t.node, sentinel), CtxLinks(c, u.node, sentinel), l, l', t.node, i, u.node, u.key,
      sentinel);
  }

  lemma SplitRoot<X>(t: Shape<X>, up: Parent<X>, sentinel: X)
    requires t.Bin?
    ensures Links(t, up, sentinel)
         == (Links(t.left, Under(t.node), sentinel)
           + Links(t.right, Under(t.node), sentinel))[t.node := RootInfo(t, up, sentinel)]
  {
  }

  lemma RenameSets<X>(c: Context<X>, t: Shape<X>, u: Shape<X>)
    requires t.Bin? && u.Bin? && u == t.(node := u.node, key := u.key)
    requires Distinct(Plug(c, t)) && u.node !in Nodes(Plug(c, t))
    ensures Distinct(Plug(c, u)) && Nodes(Plug(c, u)) == Nodes(Plug(c, t)) - {t.node} + {u.node}
  {
    PlugNodes(c, t);
    RenameRoot(t, u);
    PlugNodes(c, u);
    SwapOne(CtxNodes(c), Nodes(t), t.node, u.node);
  }

  lemma RenameRoot<X>(t: Shape<X>, u: Shape<X>)
    requires t.Bin? && u.Bin? && u == t.(node := u.node, key := u.key)
    requires Distinct(t) && u.node !in Nodes(t)
    ensures Distinct(u) && Nodes(u) == Nodes(t) - {t.node} + {u.node}
  {
  }

  lemma SwapOne<X>(a: set<X>, b: set<X>, x: X, y: X)
    requires x !in a
    ensures a + (b - {x} + {y}) == (a + b) - {x} + {y}
  {
  }

  /** The successor s of t's root, found down a left spine, is bridged. */
  lemma SuccessorDelta<X>(c: Context<X>, t: Shape<X>, inner: Context<X>, s: Shape<X>, sentinel: X)
    requires t.Bin? && s.Bin? && s.left.Nil? && t.right == Plug(inner, s)
    requires Distinct(Plug(c, t)) && sentinel !in Nodes(Plug(c, t))
    ensures var v := t.(right := Plug(inner, s.right)); var around := Graft(inner, RightOf(t, c));
      && Plug(around, s) == Plug(c, t) && !around.Top?
      && around.node == (if inner.Top? then t.node else inner.node)
      && Distinct(Plug(c, v)) && Nodes(Plug(c, v)) == Nodes(Plug(c, t)) - {s.node}
      && Spliced(Links(Plug(c, t), Loose, sentinel), Links(Plug(c, v), Loose, sentinel),
                 s.node, Ptr(s.right, sentinel), around.node)
      && s.node in Nodes(Plug(c, t)) && s.node != t.node && s.node != Ptr(s.right, sentinel)
      && (inner.Top? <==> around.node == t.node)
      && around.node in Nodes(Plug(c, t)) && (s.right.Bin? ==> s.right.node in Nodes(Plug(c, t)))
  {
    var around := Graft(inner, RightOf(t, c));
    GraftPlug(inner, RightOf(t, c), s);
    GraftPlug(inner, RightOf(t, c), s.right);
    SpliceSets(around, s, s.right);
    SpliceDelta(around, s, s.right, sentinel);
    Look(around, s, sentinel);
    PlugNodes(around, s);
    PlugNodes(c, t);
    PlugNodes(inner, s);
    assert Distinct(t.right);
  }

  // ---------- colours ----------

  ghost predicate IsRed<X>(t: Shape<X>) { t.Bin? && t.red }

  ghost function BlackHeight<X>(t: Shape<X>): nat {
    if t.Nil? then 0 else BlackHeight(t.left) + if t.red then 0 else 1
  }

  /** No red node with a red child, and equal black heights everywhere. */
  ghost predicate Coloured<X>(t: Shape<X>) {
    t.Bin? ==>
      && Coloured(t.left) && Coloured(t.right)
      && BlackHeight(t.left) == BlackHeight(t.right)
      && (t.red ==> !IsRed(t.left) && !IsRed(t.right))
  }

  /** The red-black invariant of a whole tree. */
  ghost predicate RedBlack<X>(t: Shape<X>) { Coloured(t) && !IsRed(t) }

  /** c becomes a red-black tree when filled with a coloured shape of black height h, as long as
    * the filling's root does not clash with a red node just above the hole. */
  ghost predicate Accepts<X>(c: Context<X>, h: nat) {
    match c
    case Top => true
    case InLeft(up, red, _, _, r) =>
      && Coloured(r) && BlackHeight(r) == h
      && (red ==> !IsRed(r) && !up.Top? && !up.red)
      && Accepts(up, if red then h else h + 1)
    case InRight(up, red, l, _, _) =>
      && Coloured(l) && BlackHeight(l) == h
      && (red ==> !IsRed(l) && !up.Top? && !up.red)
      && Accepts(up, if red then h else h + 1)
  }

  ghost predicate Clash<X>(t: Shape<X>, c: Context<X>) {
    IsRed(t) && (c.Top? || c.red)
  }

  lemma {:induction false} PlugColours<X>(c: Context<X>, t: Shape<X>)
    requires Coloured(t) && Accepts(c, BlackHeight(t)) && !Clash(t, c)
    ensures RedBlack(Plug(c, t))
    decreases c
  {
    if !c.Top? { PlugColours(c.up, Enclose(c, t)); }
  }

  lemma {:induction false} UnplugColours<X>(c: Context<X>, t: Shape<X>)
    requires RedBlack(Plug(c, t))
    ensures Coloured(t) && Accepts(c, BlackHeight(t)) && !Clash(t, c)
    decreases c
  {
    if !c.Top? { UnplugColours(c.up, Enclose(c, t)); }
  }

  /** Only colours matter for acceptance: a frame deep inside may hold another node. */
  lemma {:induction false} AcceptsRenamed<X>(inner: Context<X>, c: Context<X>, red: bool, l: Shape<X>,
      x: X, k: Key, y: X, j: Key, h: nat)
    requires Accepts(Graft(inner, InRight(c, red, l, x, k)), h)
    ensures Accepts(Graft(inner, InRight(c, red, l, y, j)), h)
    decreases inner
  {
    if !inner.Top? {
      AcceptsRenamed(inner.up, c, red, l, x, k, y, j, if inner.red then h else h + 1);
    }
  }

  /** A coloured red focus, possibly below a red node. */
  ghost predicate RedFocus<X>(t: Shape<X>, c: Context<X>) {
    IsRed(t) && Coloured(t) && Accepts(c, BlackHeight(t))
  }

  /** The root is black, so a red parent has a parent. */
  lemma RedHasParent<X>(t: Shape<X>, c: Context<X>)
    requires RedFocus(t, c) && !c.Top? && c.red
    ensures !c.up.Top? && !c.up.red
    ensures Accepts(c.up, BlackHeight(t)) && Accepts(c.up.up, BlackHeight(t) + 1)
  {
  }

  lemma LeafFocus<X>(t: Shape<X>, c: Context<X>)
    requires IsRed(t) && t.left.Nil? && t.right.Nil? && Accepts(c, 0)
    ensures RedFocus(t, c)
  {
  }

  /** Insertion, red uncle: blacken parent and uncle, redden the grandparent, go on from there. */
  lemma RecolourColours<X>(t: Shape<X>, c: Context<X>)
    requires RedFocus(t, c) && !c.Top? && c.red && !c.up.Top?
    requires IsRed(if c.up.InLeft? then c.up.right else c.up.left)
    ensures var g := Enclose(c.up, Enclose(c, t));
      RedFocus(g.(left := g.left.(red := false)).(right := g.right.(red := false)).(red := true), c.up.up)
  {
    RedHasParent(t, c);
    var p := Enclose(c, t);
    assert Coloured(p.left) && Coloured(p.right) && BlackHeight(p) == BlackHeight(t);
    assert Coloured(p.(red := false)) && BlackHeight(p.(red := false)) == BlackHeight(t) + 1;
  }

  /** Insertion, black uncle, inner grandchild: a rotation makes it an outer one. */
  lemma OuterLeftColours<X>(t: Shape<X>, c: Context<X>)
    requires RedFocus(t, c) && c.InRight? && c.red
    ensures var p := RotatedLeft(Enclose(c, t)); RedFocus(p.left, LeftOf(p, c.up))
  {
  }

  lemma OuterRightColours<X>(t: Shape<X>, c: Context<X>)
    requires RedFocus(t, c) && c.InLeft? && c.red
    ensures var p := RotatedRight(Enclose(c, t)); RedFocus(p.right, RightOf(p, c.up))
  {
  }

  /** Insertion, black uncle, outer grandchild: exchange colours and rotate the grandparent. */
  lemma RaiseLeftColours<X>(t: Shape<X>, c: Context<X>)
    requires RedFocus(t, c) && c.InLeft? && c.red && c.up.InLeft? && !IsRed(c.up.right)
    ensures var p := Enclose(c, t);
      var g := Enclose(c.up, p.(red := false));
      RedFocus(t, LeftOf(RotatedRight(g.(red := true)), c.up.up))
  {
    RedHasParent(t, c);
  }

  lemma RaiseRightColours<X>(t: Shape<X>, c: Context<X>)
    requires RedFocus(t, c) && c.InRight? && c.red && c.up.InRight? && !IsRed(c.up.left)
    ensures var p := Enclose(c, t);
      var g := Enclose(c.up, p.(red := false));
      RedFocus(t, RightOf(RotatedLeft(g.(red := true)), c.up.up))
  {
    RedHasParent(t, c);
  }

  /** Like Coloured, but the root's own colour is not compared with its children's. */
  ghost predicate Nearly<X>(t: Shape<X>) {
    t.Bin? ==> Coloured(t.left) && Coloured(t.right) && BlackHeight(t.left) == BlackHeight(t.right)
  }

  /** The focus is one black node short of what its context asks for. */
  ghost predicate Deficit<X>(t: Shape<X>, c: Context<X>) {
    Nearly(t) && Accepts(c, BlackHeight(t) + 1)
  }

  /** Bridging a black node leaves a deficit, bridging a red one does no harm. */
  lemma BridgeColours<X>(c: Context<X>, t: Shape<X>, rest: Shape<X>)
    requires t.Bin? && Coloured(t) && Accepts(c, BlackHeight(t)) && !Clash(t, c)
    requires (t.left.Nil? && rest == t.right) || (t.right.Nil? && rest == t.left)
    ensures t.red ==> RedBlack(Plug(c, rest))
    ensures !t.red ==> Deficit(rest, c)
  {
    if t.red { PlugColours(c, rest); }
  }

  /** The successor s is bridged, and its node takes the place and the colour of t's. */
  lemma SubstColours<X>(c: Context<X>, t: Shape<X>, inner: Context<X>, s: Shape<X>)
    requires t.Bin? && s.Bin? && s.left.Nil? && t.right == Plug(inner, s) && RedBlack(Plug(c, t))
    ensures var u := Bin(t.red, t.left, s.node, s.key, Plug(inner, s.right));
      var fc := Graft(inner, RightOf(u, c));
      && Plug(fc, s.right) == Plug(c, u)
      && (s.red ==> RedBlack(Plug(c, u))) && (!s.red ==> Deficit(s.right, fc))
  {
    var u := Bin(t.red, t.left, s.node, s.key, Plug(inner, s.right));
    var around, fc := Graft(inner, RightOf(t, c)), Graft(inner, RightOf(u, c));
    GraftPlug(inner, RightOf(t, c), s);
    GraftPlug(inner, RightOf(u, c), s.right);
    UnplugColours(around, s);
    AcceptsRenamed(inner, c, t.red, t.left, t.node, t.key, s.node, s.key, BlackHeight(s));
    if s.red { PlugColours(fc, s.right); }
  }

  /** The root goes: what is left below it, painted black, is a red-black tree. */
  lemma RootGoneColours<X>(t: Shape<X>, rest: Shape<X>)
    requires t.Bin? && RedBlack(t)
    requires (t.left.Nil? && rest == t.right) || (t.right.Nil? && rest == t.left)
    ensures if rest.Nil? then RedBlack(rest) else RedBlack(rest.(red := false))
  {
    assert Coloured(rest);
  }

  /** m' asks no more of its nodes than m. */
  ghost predicate Loosens<X>(m: map<X, Info<X>>, m': map<X, Info<X>>) {
    forall x :: x in m' ==> x in m && (m'[x] == m[x] || m'[x] == m[x].(up := Loose))
  }

  lemma RootGone<X>(t: Shape<X>, rest: Shape<X>, sentinel: X)
    requires t.Bin? && Distinct(t)
    requires (t.left.Nil? && rest == t.right) || (t.right.Nil? && rest == t.left)
    ensures Distinct(rest) && Nodes(rest) == Nodes(t) - {t.node} && (rest.Bin? ==> rest.node in Nodes(t))
    ensures Loosens(Links(t, Loose, sentinel), Links(rest, Loose, sentinel))
    ensures var k := |Entries(t.left)|;
      k < |Entries(t)| && Entries(t)[k] == Entry(t.node, t.key) && Entries(rest) == RemoveAt(Entries(t), k)
  {
    OnlyChild(t, rest);
    PlugTop(t);
    PlugTop(rest);
    SpliceEntries(Top, t, rest);
    hide Entries, Plug;
    SpliceLinks(t, rest, Loose, sentinel);
    RebaseLinks(rest, Under(t.node), Loose, sentinel);
    LooseRoot(rest, Under(t.node), sentinel);
  }

  lemma LooseRoot<X>(t: Shape<X>, p: Parent<X>, sentinel: X)
    ensures t.Bin? ==> Links(t, p, sentinel)[t.node].(up := Loose) == Links(t, Loose, sentinel)[t.node]
  {
  }

  lemma SiblingExists<X>(t: Shape<X>, c: Context<X>)
    requires Deficit(t, c) && !c.Top?
    ensures (if c.InLeft? then c.right else c.left).Bin?
  {
  }

  /** Deletion, red sibling: a rotation gives the focus a black sibling below a red parent. */
  lemma RedSiblingLeft<X>(t: Shape<X>, c: Context<X>)
    requires Deficit(t, c) && c.InLeft? && IsRed(c.right)
    ensures var p := Bin(true, t, c.node, c.key, c.right.(red := false));
      var r := RotatedLeft(p); var c' := LeftOf(r.left, LeftOf(r, c.up));
      Deficit(t, c') && c'.right.Bin? && !c'.right.red && c'.red && Depth(c') == Depth(c) + 1
  {
  }

  lemma RedSiblingRight<X>(t: Shape<X>, c: Context<X>)
    requires Deficit(t, c) && c.InRight? && IsRed(c.left)
    ensures var p := Bin(true, c.left.(red := false), c.node, c.key, t);
      var r := RotatedRight(p); var c' := RightOf(r.right, RightOf(r, c.up));
      Deficit(t, c') && c'.left.Bin? && !c'.left.red && c'.red && Depth(c') == Depth(c) + 1
  {
  }

  /** Deletion, black sibling with black children: the deficit moves up. */
  lemma PaleSibling<X>(t: Shape<X>, c: Context<X>)
    requires Deficit(t, c) && !c.Top? && !IsRed(t)
    requires var w := if c.InLeft? then c.right else c.left;
      w.Bin? && !w.red && !IsRed(w.left) && !IsRed(w.right)
    ensures var p := Enclose(c, t);
      var u := if c.InLeft? then p.(right := p.right.(red := true)) else p.(left := p.left.(red := true));
      Deficit(u, c.up) && (c.up.Top? ==> RedBlack(u))
  {
  }

  /** Deletion, black sibling, only its near child red: a rotation makes the far child red. */
  lemma NearRedLeft<X>(t: Shape<X>, c: Context<X>)
    requires Deficit(t, c) && c.InLeft? && c.right.Bin? && !c.right.red
    requires IsRed(c.right.left) && !IsRed(c.right.right)
    ensures var w := c.right.(left := c.right.left.(red := false)).(red := true);
      var c' := c.(right := RotatedRight(w));
      Deficit(t, c') && !c'.right.red && IsRed(c'.right.right)
  {
    var v := c.right.left;
    assert Coloured(v) && Coloured(v.left) && Coloured(v.right);
    assert Coloured(Bin(true, v.right, c.right.node, c.right.key, c.right.right));
  }

  lemma NearRedRight<X>(t: Shape<X>, c: Context<X>)
    requires Deficit(t, c) && c.InRight? && c.left.Bin? && !c.left.red
    requires IsRed(c.left.right) && !IsRed(c.left.left)
    ensures var w := c.left.(right := c.left.right.(red := false)).(red := true);
      var c' := c.(left := RotatedLeft(w));
      Deficit(t, c') && !c'.left.red && IsRed(c'.left.left)
  {
    var v := c.left.right;
    assert Coloured(v) && Coloured(v.left) && Coloured(v.right);
    assert Coloured(Bin(true, c.left.left, c.left.node, c.left.key, v.left));
  }

  /** Deletion, black sibling with a red far child: one rotation repays the deficit. */
  lemma FarRedLeft<X>(t: Shape<X>, c: Context<X>)
    requires Deficit(t, c) && !IsRed(t) && c.InLeft? && c.right.Bin? && !c.right.red && IsRed(c.right.right)
    ensures var w := c.right.(red := c.red).(right := c.right.right.(red := false));
      RedBlack(Plug(c.up, RotatedLeft(Bin(false, t, c.node, c.key, w))))
  {
    var w := c.right.(red := c.red).(right := c.right.right.(red := false));
    var v := c.right.right;
    assert Coloured(v);
    assert Coloured(v.(red := false));
    PlugColours(c.up, RotatedLeft(Bin(false, t, c.node, c.key, w)));
  }

  lemma FarRedRight<X>(t: Shape<X>, c: Context<X>)
    requires Deficit(t, c) && !IsRed(t) && c.InRight? && c.left.Bin? && !c.left.red && IsRed(c.left.left)
    ensures var w := c.left.(red := c.red).(left := c.left.left.(red := false));
      RedBlack(Plug(c.up, RotatedRight(Bin(false, w, c.node, c.key, t))))
  {
    var w := c.left.(red := c.red).(left := c.left.left.(red := false));
    var v := c.left.left;
    assert Coloured(v);
    assert Coloured(v.(red := false));
    PlugColours(c.up, RotatedRight(Bin(false, w, c.node, c.key, t)));
  }

  // ---------- height ----------

  ghost function Size<X>(t: Shape<X>): nat {
    if t.Nil? then 0 else Size(t.left) + 1 + Size(t.right)
  }

  ghost function Height<X>(t: Shape<X>): nat {
    if t.Nil? then 0
    else 1 + if Height(t.left) < Height(t.right) then Height(t.right) else Height(t.left)
  }

  lemma {:induction false} HeightAndSize<X>(t: Shape<X>)
    requires Coloured(t)
    ensures Height(t) <= 2 * BlackHeight(t) + if IsRed(t) then 1 else 0
    ensures Pow2(BlackHeight(t)) <= Size(t) + 1
  {
    if t.Bin? {
      HeightAndSize(t.left);
      HeightAndSize(t.right);
    }
  }

  /** height <= 2 log2(n + 1), in integers. */
  lemma {:induction false} LogarithmicHeight<X>(t: Shape<X>)
    requires RedBlack(t)
    ensures Pow2(Height(t)) <= (Size(t) + 1) * (Size(t) + 1)
  {
    HeightAndSize(t);
    var b := BlackHeight(t);
    PowMonotone(Height(t), b + b);
    PowerOfSum(b, b);
    SquareMonotone(Pow2(b), Size(t) + 1);
  }

  lemma SquareMonotone(p: nat, n: nat)
    requires p <= n
    ensures p * p <= n * n
  {
    assert p * p <= p * n <= n * n;
  }
}
