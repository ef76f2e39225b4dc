/** What the red-black tree is for: a sorted list, read off its entries.
  *
  * Both insertion functions are covered by one rank.  For plain values it is the key itself; for
  * timers it is the distance from a base on the circle of machine words, and the keys must lie in
  * less than half the circle. */
module RbOrder {
  import opened RbShape
  import opened RbTree

  function Rank(order: Order, base: Key, k: Key): (r: Key) {
    if order.ByValue? then k else (k - base) % WORD
  }

  predicate InWindow(order: Order, base: Key, k: Key) {
    order.ByTimer? ==> Rank(order, base, k) < WORD / 2
  }

  /** Inside the window the descent's comparison is the order of the ranks, wherever the counter wraps. */
  lemma ComparisonIsRank(order: Order, base: Key, a: Key, b: Key)
    requires InWindow(order, base, a) && InWindow(order, base, b)
    ensures GoesLeft(order, a, b) <==> Rank(order, base, a) < Rank(order, base, b)
  {
    if order.ByTimer? {
      var x, y := Rank(order, base, a), Rank(order, base, b);
      Congruent(a, base);
      Congruent(b, base);
      var i, j := (a - base) / WORD, (b - base) / WORD;
      assert a - b == (x - y) + (i - j) * WORD;
      ModShift(x - y, i - j);
    }
  }

  lemma Congruent(a: Key, base: Key)
    ensures a - base == (a - base) / WORD * WORD + (a - base) % WORD
  {
  }

  lemma ModShift(x: int, n: int)
    requires -WORD < x < WORD
    ensures (x + n * WORD) % WORD == if x >= 0 then x else x + WORD
  {
    var y := if x >= 0 then x else x + WORD;
    var m := if x >= 0 then n else n - 1;
    assert x + n * WORD == y + m * WORD;
    ModUnique(y + m * WORD, m, y);
  }

  lemma ModUnique(z: int, m: int, y: int)
    requires z == y + m * WORD && 0 <= y < WORD
    ensures z % WORD == y
  {
    var q, r := z / WORD, z % WORD;
    assert z == q * WORD + r && 0 <= r < WORD;
    assert (m - q) * WORD == r - y;
  }

  ghost predicate AllInWindow<X>(order: Order, base: Key, s: seq<Entry<X>>) {
    forall i :: 0 <= i < |s| ==> InWindow(order, base, s[i].key)
  }

  ghost predicate Sorted<X>(order: Order, base: Key, s: seq<Entry<X>>) {
    forall i, j :: 0 <= i < j < |s| ==> Rank(order, base, s[i].key) <= Rank(order, base, s[j].key)
  }

  /** Insertion into a sorted list, behind everything that is not greater. */
  ghost function InsertStable<X>(order: Order, base: Key, s: seq<Entry<X>>, e: Entry<X>): seq<Entry<X>> {
    if s == [] || Rank(order, base, e.key) < Rank(order, base, s[0].key) then [e] + s
    else [s[0]] + InsertStable(order, base, s[1..], e)
  }

  /** The place where InsertStable puts its entry. */
  ghost function Slot<X>(order: Order, base: Key, s: seq<Entry<X>>, key: Key): (k: nat)
    ensures k <= |s|
  {
    if s == [] || Rank(order, base, key) < Rank(order, base, s[0].key) then 0
    else 1 + Slot(order, base, s[1..], key)
  }

  lemma {:induction false} InsertAtSlot<X>(order: Order, base: Key, s: seq<Entry<X>>, e: Entry<X>)
    ensures var k := Slot(order, base, s, e.key); InsertStable(order, base, s, e) == s[..k] + [e] + s[k..]
  {
    if s != [] && !(Rank(order, base, e.key) < Rank(order, base, s[0].key)) {
      InsertAtSlot(order, base, s[1..], e);
      var k := Slot(order, base, s[1..], e.key);
      assert s[..k + 1] == [s[0]] + s[1..][..k];
    }
  }

  /** In a sorted list the slot is where the tree's descent must end up. */
  lemma {:induction false} SlotSplits<X>(order: Order, base: Key, s: seq<Entry<X>>, key: Key)
    requires Sorted(order, base, s) && AllInWindow(order, base, s) && InWindow(order, base, key)
    ensures SplitsAt(order, s, key, Slot(order, base, s, key))
  {
    SlotRanks(order, base, s, key);
    forall i | 0 <= i < |s| ensures GoesLeft(order, key, s[i].key)
                                   <==> Rank(order, base, key) < Rank(order, base, s[i].key) {
      ComparisonIsRank(order, base, key, s[i].key);
    }
  }

  lemma {:induction false} SlotRanks<X>(order: Order, base: Key, s: seq<Entry<X>>, key: Key)
    requires Sorted(order, base, s)
    ensures var k := Slot(order, base, s, key);
      && (forall i :: 0 <= i < k ==> Rank(order, base, s[i].key) <= Rank(order, base, key))
      && (forall i :: k <= i < |s| ==> Rank(order, base, key) < Rank(order, base, s[i].key))
  {
    if s != [] && !(Rank(order, base, key) < Rank(order, base, s[0].key)) {
      var t := s[1..];
      SlotRanks(order, base, t, key);
      var k := Slot(order, base, t, key);
      forall i | 0 <= i < |s| ensures
        if i < k + 1 then Rank(order, base, s[i].key) <= Rank(order, base, key)
        else Rank(order, base, key) < Rank(order, base, s[i].key)
      {
        if i > 0 { assert s[i] == t[i - 1]; }
      }
    }
  }

  lemma InsertKeepsSorted<X>(order: Order, base: Key, s: seq<Entry<X>>, e: Entry<X>)
    requires Sorted(order, base, s)
    ensures Sorted(order, base, InsertStable(order, base, s, e))
  {
    InsertAtSlot(order, base, s, e);
    SlotRanks(order, base, s, e.key);
  }

  lemma RemoveKeepsSorted<X>(order: Order, base: Key, s: seq<Entry<X>>, k: nat)
    requires Sorted(order, base, s) && k < |s|
    ensures Sorted(order, base, RemoveAt(s, k))
  {
  }

  /** The entries with a given key, in order. */
  ghost function WithKey<X>(s: seq<Entry<X>>, key: Key): seq<Entry<X>> {
    if s == [] then []
    else (if s[0].key == key then [s[0]] else []) + WithKey(s[1..], key)
  }

  /** Ties are first in, first out: an insertion queues up behind its equals and leaves the others alone. */
  lemma {:induction false} InsertQueuesUp<X>(order: Order, base: Key, s: seq<Entry<X>>, e: Entry<X>, key: Key)
    requires Sorted(order, base, s)
    ensures WithKey(InsertStable(order, base, s, e), key)
         == WithKey(s, key) + if e.key == key then [e] else []
  {
    if s == [] || Rank(order, base, e.key) < Rank(order, base, s[0].key) {
      assert ([e] + s)[1..] == s;
      if e.key == key { NoneWithKey(order, base, s, key); }
    } else {
      InsertQueuesUp(order, base, s[1..], e, key);
      var r := InsertStable(order, base, s[1..], e);
      assert ([s[0]] + r)[1..] == r;
    }
  }

  lemma {:induction false} NoneWithKey<X>(order: Order, base: Key, s: seq<Entry<X>>, key: Key)
    requires Sorted(order, base, s) && (s != [] ==> Rank(order, base, key) < Rank(order, base, s[0].key))
    ensures WithKey(s, key) == []
  {
    if s != [] { NoneWithKey(order, base, s[1..], key); }
  }

  // ---------- runs ----------

  /** One step of a client: give a node a key and insert it, or delete it.  The base says where on the circle
    * the keys lie at an insertion; it can be another one each time. */
  datatype Op<X> = Put(node: X, key: Key, base: Key) | Drop(node: X)

  ghost function Find<X>(s: seq<Entry<X>>, x: X): (k: nat)
    ensures k <= |s| && (k < |s| ==> s[k].node == x)
    ensures k == |s| <==> !Lists(s, x)
  {
    if s == [] || s[0].node == x then 0
    else
      var k := Find(s[1..], x);
      assert forall i :: 1 <= i < |s| ==> s[i] == s[1..][i - 1];
      assert Lists(s[1..], x) ==> Lists(s, x);
      1 + k
  }

  ghost function Forget<X>(s: seq<Entry<X>>, x: X): seq<Entry<X>> {
    var k := Find(s, x);
    if k < |s| then RemoveAt(s, k) else s
  }

  /** The sorted list after a run, last operation first. */
  ghost function Replay<X>(order: Order, ops: seq<Op<X>>): seq<Entry<X>> {
    if ops == [] then []
    else
      var s, op := Replay(order, ops[..|ops| - 1]), ops[|ops| - 1];
      if op.Put? then InsertStable(order, op.base, s, Entry(op.node, op.key)) else Forget(s, op.node)
  }

  /** The base of the last insertion. */
  ghost function LastBase<X>(ops: seq<Op<X>>): Key {
    if ops == [] then 0 else if ops[|ops| - 1].Put? then ops[|ops| - 1].base else LastBase(ops[..|ops| - 1])
  }

  /** The same run on a list that just keeps the order of arrival. */
  ghost function Arrivals<X>(ops: seq<Op<X>>): seq<Entry<X>> {
    if ops == [] then []
    else
      var s, op := Arrivals(ops[..|ops| - 1]), ops[|ops| - 1];
      if op.Put? then s + [Entry(op.node, op.key)] else Forget(s, op.node)
  }

  /** A client inserts only nodes that are out and deletes only nodes that are in, and at each insertion the
    * keys lie within the half circle from its base. */
  ghost predicate Legal<X>(order: Order, ops: seq<Op<X>>) {
    ops == [] ||
    var init, op := ops[..|ops| - 1], ops[|ops| - 1];
    Legal(order, init) &&
    var s := Replay(order, init);
    if op.Put? then !Lists(s, op.node) && AllInWindow(order, op.base, s) && InWindow(order, op.base, op.key)
    else Lists(s, op.node)
  }

  ghost predicate NoRepeats<X>(s: seq<Entry<X>>) {
    forall i, j :: 0 <= i < j < |s| ==> s[i].node != s[j].node
  }

  ghost predicate WellKept<X>(order: Order, base: Key, s: seq<Entry<X>>) {
    Sorted(order, base, s) && AllInWindow(order, base, s) && NoRepeats(s)
  }

  /** Wherever the half circle is taken to begin, the order of the list is the same. */
  lemma Rebase<X>(base: Key, base': Key, s: seq<Entry<X>>)
    requires WellKept(ByTimer, base, s) && AllInWindow(ByTimer, base', s)
    ensures WellKept(ByTimer, base', s)
  {
    forall i, j | 0 <= i < j < |s| ensures Rank(ByTimer, base', s[i].key) <= Rank(ByTimer, base', s[j].key) {
      ComparisonIsRank(ByTimer, base, s[j].key, s[i].key);
      ComparisonIsRank(ByTimer, base', s[j].key, s[i].key);
    }
  }

  lemma PutKeeps<X>(order: Order, base: Key, s: seq<Entry<X>>, e: Entry<X>)
    requires WellKept(order, base, s) && !Lists(s, e.node) && InWindow(order, base, e.key)
    ensures WellKept(order, base, InsertStable(order, base, s, e))
  {
    InsertKeepsSorted(order, base, s, e);
    InsertAtSlot(order, base, s, e);
    InsertDistinct(s, e, Slot(order, base, s, e.key));
  }

  lemma InsertDistinct<X>(s: seq<Entry<X>>, e: Entry<X>, k: nat)
    requires NoRepeats(s) && !Lists(s, e.node) && k <= |s|
    ensures NoRepeats(s[..k] + [e] + s[k..])
  {
    assert forall i :: 0 <= i < |s| ==> s[i].node != e.node;
  }

  lemma RemoveKeeps<X>(order: Order, base: Key, s: seq<Entry<X>>, k: nat)
    requires WellKept(order, base, s) && k < |s|
    ensures WellKept(order, base, RemoveAt(s, k))
  {
    RemoveKeepsSorted(order, base, s, k);
  }

  /** Over any run the list is sorted and names each node once. */
  lemma {:induction false} ReplaySorted<X>(order: Order, ops: seq<Op<X>>)
    requires Legal(order, ops)
    ensures WellKept(order, LastBase(ops), Replay(order, ops))
  {
    if ops == [] { return; }
    var init, op := ops[..|ops| - 1], ops[|ops| - 1];
    ReplaySorted(order, init);
    var s := Replay(order, init);
    hide InsertStable, Rank;
    if op.Put? {
      Moved(order, LastBase(init), op.base, s);
      PutKeeps(order, op.base, s, Entry(op.node, op.key));
    } else {
      RemoveKeeps(order, LastBase(init), s, Find(s, op.node));
    }
  }

  lemma Moved<X>(order: Order, base: Key, base': Key, s: seq<Entry<X>>)
    requires WellKept(order, base, s) && AllInWindow(order, base', s)
    ensures WellKept(order, base', s)
  {
    if order.ByTimer? { Rebase(base, base', s); }
  }

  lemma {:induction false} WithKeyConcat<X>(a: seq<Entry<X>>, b: seq<Entry<X>>, key: Key)
    ensures WithKey(a + b, key) == WithKey(a, key) + WithKey(b, key)
  {
    if a == [] {
      assert a + b == b;
    } else {
      assert (a + b)[1..] == a[1..] + b;
      WithKeyConcat(a[1..], b, key);
      var d := if a[0].key == key then [a[0]] else [];
      assert d + (WithKey(a[1..], key) + WithKey(b, key)) == d + WithKey(a[1..], key) + WithKey(b, key);
    }
  }

  /** Forgetting a node commutes with picking a key, when the node occurs at most once. */
  lemma {:induction false} ForgetWithKey<X>(s: seq<Entry<X>>, x: X, key: Key)
    requires NoRepeats(s)
    ensures WithKey(Forget(s, x), key) == Forget(WithKey(s, key), x)
  {
    if s == [] {
    } else if s[0].node == x {
      ForgetHead(s, x, key);
    } else {
      ForgetWithKey(s[1..], x, key);
      assert s == [s[0]] + s[1..];
      ForgetStep(s[0], s[1..], x, key);
    }
  }

  lemma ForgetStep<X>(h: Entry<X>, t: seq<Entry<X>>, x: X, key: Key)
    requires h.node != x && WithKey(Forget(t, x), key) == Forget(WithKey(t, key), x)
    ensures WithKey(Forget([h] + t, x), key) == Forget(WithKey([h] + t, key), x)
  {
    hide WithKey, Forget;
    ForgetCons(h, t, x);
    WithKeyCons(h, Forget(t, x), key);
    WithKeyCons(h, t, key);
    if h.key == key { ForgetCons(h, WithKey(t, key), x); }
  }

  lemma WithKeyCons<X>(h: Entry<X>, t: seq<Entry<X>>, key: Key)
    ensures WithKey([h] + t, key) == if h.key == key then [h] + WithKey(t, key) else WithKey(t, key)
  {
    assert ([h] + t)[1..] == t;
  }

  lemma ForgetCons<X>(h: Entry<X>, t: seq<Entry<X>>, x: X)
    requires h.node != x
    ensures Forget([h] + t, x) == [h] + Forget(t, x)
  {
    ForgetTail([h] + t, x);
    assert ([h] + t)[1..] == t;
  }

  lemma ForgetHead<X>(s: seq<Entry<X>>, x: X, key: Key)
    requires s != [] && s[0].node == x && NoRepeats(s)
    ensures WithKey(Forget(s, x), key) == Forget(WithKey(s, key), x)
  {
    var w := WithKey(s[1..], key);
    assert forall i :: 0 <= i < |s| - 1 ==> s[1..][i] == s[i + 1];
    Absent(s[1..], x, key);
    assert Forget(s, x) == s[1..];
    if s[0].key == key {
      assert RemoveAt([s[0]] + w, 0) == w;
    }
  }

  lemma ForgetTail<X>(s: seq<Entry<X>>, x: X)
    requires s != [] && s[0].node != x
    ensures Forget(s, x) == [s[0]] + Forget(s[1..], x)
  {
    var k := Find(s[1..], x);
    if k < |s| - 1 {
      assert s[..k + 1] + s[k + 2..] == [s[0]] + (s[1..][..k] + s[1..][k + 1..]);
    }
  }

  lemma {:induction false} Absent<X>(s: seq<Entry<X>>, x: X, key: Key)
    requires forall i :: 0 <= i < |s| ==> s[i].node != x
    ensures !Lists(WithKey(s, key), x)
  {
    if s != [] { Absent(s[1..], x, key); }
  }

  /** Over any run the entries with equal keys stand in their order of arrival: the tree is a
    * stable sort of what arrived and was not deleted. */
  lemma {:induction false} FirstInFirstOut<X>(order: Order, ops: seq<Op<X>>, key: Key)
    requires Legal(order, ops)
    ensures WithKey(Replay(order, ops), key) == WithKey(Arrivals(ops), key)
    ensures NoRepeats(Arrivals(ops))
    ensures forall x :: Lists(Arrivals(ops), x) <==> Lists(Replay(order, ops), x)
  {
    if ops == [] { return; }
    var init, op := ops[..|ops| - 1], ops[|ops| - 1];
    FirstInFirstOut(order, init, key);
    ReplaySorted(order, init);
    var s, a := Replay(order, init), Arrivals(init);
    if op.Put? {
      Moved(order, LastBase(init), op.base, s);
      ArrivalOfOne(order, op.base, s, a, Entry(op.node, op.key), key);
    } else {
      ForgetWithKey(s, op.node, key);
      ForgetWithKey(a, op.node, key);
      forall x ensures Lists(Forget(a, op.node), x) <==> Lists(Forget(s, op.node), x) {
        ForgetLists(a, op.node, x);
        ForgetLists(s, op.node, x);
      }
    }
  }

  lemma ArrivalOfOne<X>(order: Order, base: Key, s: seq<Entry<X>>, a: seq<Entry<X>>, e: Entry<X>, key: Key)
    requires Sorted(order, base, s) && NoRepeats(a) && WithKey(s, key) == WithKey(a, key)
    requires !Lists(s, e.node) && forall x :: Lists(a, x) <==> Lists(s, x)
    ensures WithKey(InsertStable(order, base, s, e), key) == WithKey(a + [e], key)
    ensures NoRepeats(a + [e])
    ensures forall x :: Lists(a + [e], x) <==> Lists(InsertStable(order, base, s, e), x)
  {
    InsertQueuesUp(order, base, s, e, key);
    WithKeyConcat(a, [e], key);
    WithKeyCons(e, [], key);
    assert [e] + [] == [e];
    assert !Lists(a, e.node);
    assert forall i :: 0 <= i < |a| ==> a[i].node != e.node;
    hide InsertStable, WithKey;
    forall x ensures Lists(a + [e], x) <==> Lists(InsertStable(order, base, s, e), x) {
      InsertLists(order, base, s, e, x);
      ListsSplit(a, e, [], x);
      assert a + [e] + [] == a + [e];
    }
  }

  lemma InsertLists<X>(order: Order, base: Key, s: seq<Entry<X>>, e: Entry<X>, x: X)
    ensures Lists(InsertStable(order, base, s, e), x) <==> Lists(s, x) || x == e.node
  {
    var k := Slot(order, base, s, e.key);
    InsertAtSlot(order, base, s, e);
    ListsSplit(s[..k], e, s[k..], x);
    ListsParts(s, k, x);
  }

  lemma ListsParts<X>(s: seq<Entry<X>>, k: nat, x: X)
    requires k <= |s|
    ensures Lists(s, x) <==> Lists(s[..k], x) || Lists(s[k..], x)
  {
    assert forall i :: 0 <= i < k ==> s[..k][i] == s[i];
    assert forall i :: k <= i < |s| ==> s[i] == s[k..][i - k];
  }

  lemma ForgetLists<X>(s: seq<Entry<X>>, y: X, x: X)
    requires NoRepeats(s)
    ensures Lists(Forget(s, y), x) <==> Lists(s, x) && x != y
  {
    var k := Find(s, y);
    if k < |s| {
      ListsSplit(s[..k], s[k], s[k + 1..], x);
      assert s == s[..k] + [s[k]] + s[k + 1..];
      ListsParts(RemoveAt(s, k), k, x);
      assert RemoveAt(s, k)[..k] == s[..k] && RemoveAt(s, k)[k..] == s[k + 1..];
    }
  }

  // ---------- the tree refines the sorted list ----------

  /** The client's own assignment to a node that is not in the tree. */
  method SetKey(tree: RbTree, node: Node, key: Key)
    requires tree.Valid() && node !in Nodes(tree.shape)
    modifies node`key
    ensures tree.Valid() && node.key == key
  {
    node.key := key;
  }

  /** One insertion into a tree kept in order. */
  method InsertKey(tree: RbTree, node: Node, key: Key, ghost base: Key)
    requires tree.Valid() && node != tree.sentinel && node !in Nodes(tree.shape)
    requires WellKept(tree.order, base, Entries(tree.shape)) && InWindow(tree.order, base, key)
    modifies tree, node, Nodes(tree.shape)
    ensures tree.Valid() && Nodes(tree.shape) == old(Nodes(tree.shape)) + {node}
    ensures Entries(tree.shape) == InsertStable(tree.order, base, old(Entries(tree.shape)), Entry(node, key))
    ensures WellKept(tree.order, base, Entries(tree.shape))
  {
    ghost var s := Entries(tree.shape);
    SetKey(tree, node, key);
    EntriesList(tree.shape, node);
    SlotSplits(tree.order, base, s, key);
    InsertAtSlot(tree.order, base, s, Entry(node, key));
    PutKeeps(tree.order, base, s, Entry(node, key));
    var k := tree.Insert(node);
  }

  /** One deletion from a tree kept in order. */
  method DeleteKey(tree: RbTree, node: Node, ghost base: Key)
    requires tree.Valid() && node in Nodes(tree.shape)
    requires WellKept(tree.order, base, Entries(tree.shape))
    modifies tree, tree.sentinel, Nodes(tree.shape)
    ensures tree.Valid() && Nodes(tree.shape) == old(Nodes(tree.shape)) - {node}
    ensures Entries(tree.shape) == Forget(old(Entries(tree.shape)), node)
    ensures WellKept(tree.order, base, Entries(tree.shape))
  {
    ghost var s := Entries(tree.shape);
    ghost var k := tree.Delete(node);
    assert Find(s, node) == k;
    RemoveKeeps(tree.order, base, s, k);
  }

  /** Over any run of a client the linked red-black tree holds the stable sorted list. */
  method Run(tree: RbTree, ops: seq<Op<Node>>)
    requires tree.Valid() && tree.shape == Nil && Legal(tree.order, ops)
    requires forall i :: 0 <= i < |ops| ==> ops[i].node != tree.sentinel
    modifies tree, tree.sentinel, set i | 0 <= i < |ops| :: ops[i].node
    ensures tree.Valid() && Entries(tree.shape) == Replay(tree.order, ops)
  {
    for i := 0 to |ops|
      invariant tree.Valid() && Entries(tree.shape) == Replay(tree.order, ops[..i])
      invariant Nodes(tree.shape) <= set j | 0 <= j < |ops| :: ops[j].node
    {
      assert ops[..i + 1][..i] == ops[..i];
      LegalPrefix(tree.order, ops, i + 1);
      ReplaySorted(tree.order, ops[..i]);
      EntriesList(tree.shape, ops[i].node);
      match ops[i] {
        case Put(node, key, base) =>
          Moved(tree.order, LastBase(ops[..i]), base, Entries(tree.shape));
          InsertKey(tree, node, key, base);
        case Drop(node) => DeleteKey(tree, node, LastBase(ops[..i]));
      }
    }
    assert ops[..|ops|] == ops;
  }

  lemma {:induction false} LegalPrefix<X>(order: Order, ops: seq<Op<X>>, n: nat)
    requires Legal(order, ops) && n <= |ops|
    ensures Legal(order, ops[..n])
    decreases |ops|
  {
    if n < |ops| {
      LegalPrefix(order, ops[..|ops| - 1], n);
      assert ops[..|ops| - 1][..n] == ops[..n];
    } else {
      assert ops[..n] == ops;
    }
  }
}
