/** The 32-bit radix tree: nodes stand at bit strings, the most significant bit of a key first, and a
  * lookup returns the value bound to the longest prefix of the key. */
module Radix {
  import opened Bits

  type Path = seq<bool>
  const NO_VALUE: nat := 0xffff_ffff_ffff_ffff
  const NODE_SIZE: nat := 32
  const PAGE_SIZE: nat := 4096

  datatype Status = OK | BUSY | ERROR

  class Node {
    var right: Node?
    var left: Node?
    var parent: Node?
    var value: nat
  }

  // ---------------------------------------------------------------- keys, masks and paths

  /** key & bit once bit has been shifted right d times; bit is zero from then on. */
  predicate BitAt(key: nat, d: nat) {
    d < 32 && Bit(key, 31 - d)
  }

  /** The first n bits of a key. */
  function Prefix(key: nat, n: nat): (p: Path)
    ensures |p| == n
  {
    if n == 0 then [] else Prefix(key, n - 1) + [BitAt(key, n - 1)]
  }

  /** A mask of n leading ones. */
  ghost predicate Contiguous(mask: nat, n: nat) {
    n <= 32 && forall d {:trigger BitAt(mask, d)} :: 0 <= d ==> (BitAt(mask, d) <==> d < n)
  }

  lemma MaskAt(mask: nat, n: nat, d: nat)
    requires Contiguous(mask, n)
    ensures n <= 32 && (BitAt(mask, d) <==> d < n)
  {
  }

  lemma {:induction false} BitHalves(w: nat, k: nat)
    ensures w / Pow2(k) == 2 * (w / Pow2(k + 1)) + if Bit(w, k) then 1 else 0
    decreases k
  {
    if k == 0 {
      assert Pow2(1) == 2;
    } else {
      BitHalves(w / 2, k - 1);
      DivTwice(w, Pow2(k - 1));
      DivTwice(w, Pow2(k));
    }
  }

  lemma DivTwice(w: nat, p: nat)
    requires p > 0
    ensures w / (2 * p) == w / 2 / p
  {
    var q, r := w / 2 / p, w / 2 % p;
    assert w == 2 * (q * p + r) + w % 2;
    assert 2 * (q * p) == q * (2 * p);
    Divide(w, 2 * p, q, 2 * r + w % 2);
  }

  /** Two keys have the same first n bits when they are the same number without their last 32 - n bits. */
  lemma {:induction false} PrefixMeans(a: nat, b: nat, n: nat)
    requires a < Pow2(32) && b < Pow2(32) && n <= 32
    ensures Prefix(a, n) == Prefix(b, n) <==> a / Pow2(32 - n) == b / Pow2(32 - n)
    decreases n
  {
    hide Pow2, Bit;
    if n == 0 {
      Divide(a, Pow2(32), 0, a);
      Divide(b, Pow2(32), 0, b);
    } else {
      PrefixMeans(a, b, n - 1);
      BitHalves(a, 32 - n);
      BitHalves(b, 32 - n);
      var p, q := Prefix(a, n), Prefix(b, n);
      assert p[..n - 1] == Prefix(a, n - 1) && q[..n - 1] == Prefix(b, n - 1);
      assert p[n - 1] == BitAt(a, n - 1) && q[n - 1] == BitAt(b, n - 1);
    }
  }

  lemma {:induction false} SameBits(a: nat, b: nat, n: nat)
    requires forall d :: 0 <= d < n ==> BitAt(a, d) == BitAt(b, d)
    ensures Prefix(a, n) == Prefix(b, n)
  {
    if n > 0 { SameBits(a, b, n - 1); }
  }

  lemma {:induction false} LowBits(high: nat, k: nat, j: nat)
    requires j < k
    ensures !Bit(high * Pow2(k), j)
    decreases k
  {
    assert high * Pow2(k) == 2 * (high * Pow2(k - 1));
    if j > 0 { LowBits(high, k - 1, j - 1); }
  }

  /** n ones above k zeros. */
  lemma OnesAbove(n: nat, k: nat, j: nat, ones: nat)
    requires ones == Pow2(n + k) - Pow2(k)
    ensures Bit(ones, j) <==> k <= j < n + k
  {
    PowerOfSum(n, k);
    hide Pow2, Bit;
    assert ones == (Pow2(n) - 1) * Pow2(k);
    if j < k {
      LowBits(Pow2(n) - 1, k, j);
    } else {
      HighBits(Pow2(n) - 1, 0, k, j - k);
      OnesBits(n, j - k);
    }
  }

  /** A mask of n leading ones is the number with n ones in front. */
  lemma ContiguousMeans(mask: nat, n: nat)
    requires mask < Pow2(32) && n <= 32
    ensures Contiguous(mask, n) <==> mask == Pow2(32) - Pow2(32 - n)
  {
    hide Pow2, Bit;
    PowMonotone(32 - n, 32);
    var ones: nat := Pow2(32) - Pow2(32 - n);
    forall d: nat ensures BitAt(ones, d) <==> d < n { OnesAbove(n, 32 - n, if d < 32 then 31 - d else 0, ones); }
    if Contiguous(mask, n) {
      SameBits(mask, ones, 32);
      PrefixMeans(mask, ones, 32);
      PowNone();
    }
  }

  lemma PowNone()
    ensures Pow2(0) == 1
  {
  }

  function Up(p: Path): Path
    requires p != []
  {
    p[..|p| - 1]
  }

  lemma PrefixNone(key: nat)
    ensures Prefix(key, 0) == []
  {
  }

  lemma UpPrefix(key: nat, n: nat)
    ensures Up(Prefix(key, n + 1)) == Prefix(key, n)
    ensures Prefix(key, n + 1) == Prefix(key, n) + [BitAt(key, n)]
  {
  }

  // ---------------------------------------------------------------- what a lookup means

  /** The value bound to the longest prefix of p. */
  function Longest(m: map<Path, nat>, p: Path): nat
    decreases |p|
  {
    if p in m then m[p] else if p == [] then NO_VALUE else Longest(m, Up(p))
  }

  /** What Longest returns is bound to a prefix of p and nothing longer is bound; NO_VALUE says that no
    * prefix is. */
  lemma {:induction false} LongestMeans(m: map<Path, nat>, p: Path)
    requires forall q :: q in m ==> m[q] != NO_VALUE
    ensures Longest(m, p) == NO_VALUE <==> forall n :: 0 <= n <= |p| ==> p[..n] !in m
    ensures Longest(m, p) != NO_VALUE ==>
      exists n :: 0 <= n <= |p| && p[..n] in m && m[p[..n]] == Longest(m, p) && forall k :: n < k <= |p| ==>
        p[..k] !in m
    decreases |p|
  {
    assert p[..|p|] == p;
    if p in m || p == [] {
    } else {
      var u := Up(p);
      LongestMeans(m, u);
      assert forall n :: 0 <= n <= |u| ==> u[..n] == p[..n];
    }
  }

  // ---------------------------------------------------------------- bindings

  /** The bindings among the values that the nodes carry. */
  function Bound(values: map<Path, nat>): (m: map<Path, nat>)
    ensures forall p :: p in m ==> m[p] != NO_VALUE
  {
    map p | p in values && values[p] != NO_VALUE :: values[p]
  }

  predicate IsLeaf(paths: set<Path>, p: Path) {
    p in paths && p + [false] !in paths && p + [true] !in paths
  }

  /** Every leaf but the root, and but q, carries a value. */
  ghost predicate TidyBut(values: map<Path, nat>, q: Path) {
    forall p :: p != [] && p != q && IsLeaf(values.Keys, p) ==> values[p] != NO_VALUE
  }

  ghost predicate Tidy(values: map<Path, nat>) {
    TidyBut(values, [])
  }

  /** In a tidy tree every node but the root leads to a binding. */
  lemma {:induction false} TidyLeads(values: map<Path, nat>, p: Path) returns (q: Path)
    requires Tidy(values) && p in values && p != [] && forall r :: r in values ==> |r| <= 32
    ensures q in Bound(values) && p <= q
    decreases 32 - |p|
  {
    if p + [false] in values {
      q := TidyLeads(values, p + [false]);
    } else if p + [true] in values {
      q := TidyLeads(values, p + [true]);
    } else {
      assert IsLeaf(values.Keys, p);
      q := p;
    }
  }

  lemma GrowTidy(values: map<Path, nat>, p: Path, b: bool)
    requires p in values && p + [b] !in values
    ensures TidyBut(values, p) ==> TidyBut(values[p + [b] := NO_VALUE], p + [b])
    ensures Bound(values[p + [b] := NO_VALUE]) == Bound(values)
  {
    var values' := values[p + [b] := NO_VALUE];
    forall r | r != [] && r != p + [b] && IsLeaf(values'.Keys, r) && TidyBut(values, p) ensures values'[r] != NO_VALUE {
      assert IsLeaf(values.Keys, r) && r != p;
    }
  }

  lemma SetTidy(values: map<Path, nat>, p: Path, value: nat)
    requires p in values && value != NO_VALUE
    ensures TidyBut(values, p) || Tidy(values) ==> Tidy(values[p := value])
    ensures Bound(values[p := value]) == Bound(values)[p := value]
  {
    assert values[p := value].Keys == values.Keys;
  }

  lemma UnsetTidy(values: map<Path, nat>, p: Path)
    requires p in values
    ensures Tidy(values) && !IsLeaf(values.Keys, p) ==> Tidy(values[p := NO_VALUE])
    ensures Bound(values[p := NO_VALUE]) == Bound(values) - {p}
  {
    assert values[p := NO_VALUE].Keys == values.Keys;
  }

  /** Cutting off the leaf q leaves at most the node above it without a reason to be there. */
  lemma CutTidy(values: map<Path, nat>, q: Path)
    requires q in values && q != []
    ensures TidyBut(values, q) ==> TidyBut(values - {q}, Up(q))
    ensures Bound(values - {q}) == Bound(values) - {q}
  {
    var values' := values - {q};
    forall r | r != [] && r != Up(q) && IsLeaf(values'.Keys, r) && TidyBut(values, q) ensures values'[r] != NO_VALUE {
      assert Up(r + [false]) == r && Up(r + [true]) == r;
      assert IsLeaf(values.Keys, r);
    }
  }

  lemma TidyFor(values: map<Path, nat>, q: Path)
    requires Tidy(values)
    ensures TidyBut(values, q)
  {
  }

  lemma Unbound(values: map<Path, nat>, q: Path)
    requires q in values && values[q] == NO_VALUE
    ensures Bound(values) - {q} == Bound(values)
  {
  }

  lemma TidyAll(values: map<Path, nat>, q: Path)
    requires TidyBut(values, q) && (q == [] || !IsLeaf(values.Keys, q) || (q in values && values[q] != NO_VALUE))
    ensures Tidy(values)
  {
  }

  // ---------------------------------------------------------------- the tree

  ghost function Child(at: map<Path, Node>, p: Path, b: bool): Node? {
    if p + [b] in at then at[p + [b]] else null
  }

  /** The links a node must have to stand at p. */
  ghost predicate Placed(at: map<Path, Node>, p: Path, left: Node?, right: Node?, parent: Node?) {
    && |p| <= 32 && left == Child(at, p, false) && right == Child(at, p, true)
    && (if p == [] then parent == null else Up(p) in at && parent == at[Up(p)])
  }

  lemma LastStep(r: Path, p: Path, b: bool)
    ensures r + [!b] != p + [b]
    ensures r != p ==> r + [b] != p + [b]
  {
    assert (r + [!b])[|r|] == !b && (p + [b])[|p|] == b;
    assert r == (r + [b])[..|r|] && p == (p + [b])[..|p|];
  }

  lemma ValuesGrow(at: map<Path, Node>, q: Path, next: Node)
    requires q !in at
    ensures at[q := next].Values == at.Values + {next}
  {
    var at' := at[q := next];
    assert at'[q] == next;
    forall v | v in at.Values ensures v in at'.Values {
      var r :| r in at && at[r] == v;
      assert at'[r] == v;
    }
  }

  /** Every node that no longer stands in the tree has been recycled, and the others stay where they are. */
  ghost predicate Shed(from: map<Path, Node>, at: map<Path, Node>, spare: seq<Node>) {
    && (forall q :: q in at ==> q in from && at[q] == from[q])
    && (forall q :: q in from && q !in at ==> from[q] in spare)
  }

  lemma ShedNone(at: map<Path, Node>, spare: seq<Node>)
    ensures Shed(at, at, spare)
  {
  }

  lemma ShedMore(from: map<Path, Node>, at: map<Path, Node>, spare: seq<Node>, q: Path)
    requires Shed(from, at, spare) && q in at
    ensures Shed(from, at - {q}, [at[q]] + spare)
  {
  }

  lemma ValuesShrink(at: map<Path, Node>, q: Path)
    requires q in at && forall p, r :: p in at && r in at && p != r ==> at[p] != at[r]
    ensures (at - {q}).Values == at.Values - {at[q]}
  {
    var at' := at - {q};
    forall v | v in at.Values && v != at[q] ensures v in at'.Values {
      var r :| r in at && at[r] == v;
      assert at'[r] == v;
    }
  }

  /** Cutting off the leaf below p concerns only p. */
  lemma PlacedWithout(at: map<Path, Node>, p: Path, b: bool, r: Path, left: Node?, right: Node?, parent: Node?)
    requires Placed(at, r, left, right, parent) && r in at && r != p + [b] && IsLeaf(at.Keys, p + [b])
    ensures Placed(at - {p + [b]}, r, if r == p && !b then null else left, if r == p && b then null else right, parent)
  {
    LastStep(r, p, b);
    LastStep(r, p, !b);
    NotAbove(at, p + [b], r);
  }

  /** Nothing stands below a leaf. */
  lemma NotAbove(at: map<Path, Node>, q: Path, r: Path)
    requires r in at && IsLeaf(at.Keys, q)
    ensures r != [] ==> Up(r) != q
  {
    if r != [] {
      var x := r[|r| - 1];
      assert r == Up(r) + [x];
      assert x == true || x == false;
    }
  }

  lemma PlacedNew(at: map<Path, Node>, p: Path, b: bool, next: Node)
    requires p in at && |p| < 32 && p + [b] + [false] !in at && p + [b] + [true] !in at
    ensures Placed(at[p + [b] := next], p + [b], null, null, at[p])
  {
    assert Up(p + [b]) == p;
    assert p != p + [b];
  }

  /** A new leaf below p concerns only p. */
  lemma PlacedAfter(at: map<Path, Node>, p: Path, b: bool, next: Node, r: Path, left: Node?, right: Node?,
      parent: Node?)
    requires Placed(at, r, left, right, parent)
    ensures Placed(at[p + [b] := next], r, if r == p && !b then next else left, if r == p && b then next else right,
                   if r != [] && Up(r) == p + [b] then next else parent)
  {
    LastStep(r, p, b);
    LastStep(r, p, !b);
  }

  // ---------------------------------------------------------------- a table of bindings

  /** A mask comes with its number of ones. */
  datatype Request =
    | Put(key: nat, mask: nat, n: nat, value: nat)
    | Remove(key: nat, mask: nat, n: nat)
    | Look(key: nat)

  datatype Reply = Did(status: Status) | Found(value: nat)

  /** What a table answers, and what it holds afterwards. */
  function Answer(m: map<Path, nat>, c: Request): (map<Path, nat>, Reply) {
    match c
    case Put(key, _, n, value) =>
      var p := Prefix(key, n);
      if p in m then (m, Did(BUSY)) else (m[p := value], Did(OK))
    case Remove(key, _, n) =>
      var p := Prefix(key, n);
      if p in m then (m - {p}, Did(OK)) else (m, Did(ERROR))
    case Look(key) => (m, Found(Longest(m, Prefix(key, 32))))
  }

  function Answers(m: map<Path, nat>, cs: seq<Request>): (r: (map<Path, nat>, seq<Reply>))
    ensures |r.1| == |cs|
  {
    if cs == [] then (m, []) else
      var before := Answers(m, cs[..|cs| - 1]);
      var last := Answer(before.0, cs[|cs| - 1]);
      (last.0, before.1 + [last.1])
  }

  lemma AnswersStep(m: map<Path, nat>, cs: seq<Request>, i: nat)
    requires i < |cs|
    ensures var before := Answers(m, cs[..i]);
      var last := Answer(before.0, cs[i]);
      Answers(m, cs[..i + 1]) == (last.0, before.1 + [last.1])
  {
    assert cs[..i + 1][..i] == cs[..i];
  }

  /** What a request must be: the empty prefix must not be removed while nothing longer is bound. */
  ghost predicate Proper(m: map<Path, nat>, c: Request) {
    match c
    case Put(_, mask, n, value) => Contiguous(mask, n) && value != NO_VALUE
    case Remove(_, mask, n) => Contiguous(mask, n) && (n == 0 ==> exists p :: p in m && p != [])
    case Look(_) => true
  }

  ghost predicate AllProper(m: map<Path, nat>, cs: seq<Request>) {
    forall i :: 0 <= i < |cs| ==> Proper(Answers(m, cs[..i]).0, cs[i])
  }

  class Tree {
    var root: Node
    var free: Node?
    var size: nat
    /** The node at each path. */
    ghost var at: map<Path, Node>
    ghost var spare: seq<Node>

    ghost function Footprint(): set<object>
      reads this
    {
      {this} + at.Values + (set n | n in spare)
    }

    /** The node at p is linked to the nodes at its neighbouring paths. */
    ghost predicate Wired(p: Path)
      requires p in at
      reads this, at[p]
    {
      Placed(at, p, at[p].left, at[p].right, at[p].parent)
    }

    ghost predicate Injective()
      reads this
    {
      forall p, q :: p in at && q in at && p != q ==> at[p] != at[q]
    }

    ghost predicate Chained(k: nat)
      requires k < |spare|
      reads this, spare
    {
      spare[k].right == if k + 1 < |spare| then spare[k + 1] else null
    }

    /** The recycled nodes hang on free through their right links. */
    ghost predicate SpareLinked()
      reads this, spare
    {
      && free == (if spare == [] then null else spare[0])
      && (forall j, k :: 0 <= j < k < |spare| ==> spare[j] != spare[k])
      && (forall k {:trigger Chained(k)} :: 0 <= k < |spare| ==> Chained(k))
    }

    ghost predicate Valid()
      reads Footprint()
    {
      && [] in at && at[[]] == root && Injective() && SpareLinked()
      && (forall p {:trigger Wired(p)} :: p in at ==> Wired(p))
      && (forall n :: n in spare ==> n !in at.Values)
    }

    /** The value word at each path. */
    ghost function Values(): (m: map<Path, nat>)
      reads this, at.Values
    {
      map p | p in at :: at[p].value
    }

    /** ngx_radix_tree_create without preallocation. */
    constructor ()
      ensures Valid() && Values() == map[[] := NO_VALUE] && spare == []
      ensures Tidy(Values()) && Bound(Values()) == map[] && fresh(Footprint())
    {
      root := new Node;
      free, size, spare := null, PAGE_SIZE - NODE_SIZE, [];
      new;
      root.right, root.left, root.parent, root.value := null, null, null, NO_VALUE;
      at := map[[] := root];
    }

    lemma NoLonger(p: Path)
      requires Valid() && p in at
      ensures |p| <= 32 && (|p| == 32 ==> IsLeaf(at.Keys, p))
    {
      assert Wired(p);
      if p + [false] in at { assert Wired(p + [false]); }
      if p + [true] in at { assert Wired(p + [true]); }
    }

    /** Once a path is missing, so are the longer ones. */
    lemma {:induction false} MissingBelow(key: nat, d: nat, n: nat)
      requires Valid() && d <= n && Prefix(key, d) !in at
      ensures Prefix(key, n) !in at
      decreases n
    {
      if d < n {
        MissingBelow(key, d, n - 1);
        UpPrefix(key, n - 1);
        assert Prefix(key, n) in at ==> Wired(Prefix(key, n));
      }
    }

    lemma {:induction false} LongestSkips(m: map<Path, nat>, key: nat, d: nat, n: nat)
      requires d <= n && forall k :: d < k <= n ==> Prefix(key, k) !in m
      ensures Longest(m, Prefix(key, n)) == Longest(m, Prefix(key, d))
      decreases n
    {
      if d < n {
        UpPrefix(key, n - 1);
        LongestSkips(m, key, d, n - 1);
      }
    }

    /** ngx_radix32tree_find: the value of the longest bound prefix. */
    method Find(key: nat) returns (value: nat)
      requires Valid()
      ensures value == Longest(Bound(Values()), Prefix(key, 32))
    {
      hide Valid, Bound, Values, Prefix, BitAt;
      ghost var m := Bound(Values());
      PrefixNone(key);
      RootAt();
      value := NO_VALUE;
      var node: Node? := root;
      var d := 0;
      while node != null
        invariant Valid() && Bound(Values()) == m
        invariant node != null ==> Prefix(key, d) in at && node == at[Prefix(key, d)] && d <= 32
        invariant node != null ==> value == if d == 0 then NO_VALUE else Longest(m, Prefix(key, d - 1))
        invariant node == null ==> value == Longest(m, Prefix(key, 32))
        decreases node != null, 33 - d
      {
        ghost var p := Prefix(key, d);
        NodeAt(p);
        UpPrefix(key, d);
        if d > 0 { UpPrefix(key, d - 1); }
        if node.value != NO_VALUE { value := node.value; }
        assert value == Longest(m, p);
        if BitAt(key, d) {
          node := node.right;
        } else {
          node := node.left;
        }
        if node == null {
          forall k | d < k <= 32 ensures Prefix(key, k) !in m {
            MissingBelow(key, d + 1, k);
            Absent(Prefix(key, k));
          }
          LongestSkips(m, key, d, 32);
        }
        d := d + 1;
      }
    }

    /** ngx_radix_alloc: a recycled node, or one carved from a page. */
    method Alloc() returns (n: Node)
      requires Valid()
      modifies this
      ensures at == old(at) && root == old(root) && n !in at.Values && n !in spare && Valid()
      ensures if old(spare) == [] then fresh(n) && spare == [] else [n] + spare == old(spare)
    {
      if free != null {
        assert Chained(0);
        n := free;
        free := free.right;
        spare := spare[1..];
        forall k {:trigger Chained(k)} | 0 <= k < |spare| ensures Chained(k) { assert old(Chained(k + 1)); }
        forall p {:trigger Wired(p)} | p in at ensures Wired(p) { assert old(Wired(p)); }
      } else {
        if size < NODE_SIZE { size := PAGE_SIZE; }
        size := size - NODE_SIZE;
        n := new Node;
        forall p {:trigger Wired(p)} | p in at ensures Wired(p) { assert old(Wired(p)); }
      }
    }

    /** A new node without a value, below the one at p. */
    method AddChild(node: Node, ghost p: Path, b: bool) returns (next: Node)
      requires Valid() && p in at && at[p] == node && p + [b] !in at && |p| < 32
      modifies Footprint()
      ensures Valid() && at == old(at)[p + [b] := next] && Values() == old(Values())[p + [b] := NO_VALUE]
      ensures Footprint() <= old(Footprint()) + {next} && (next in old(Footprint()) || fresh(next))
      ensures if old(spare) == [] then fresh(next) && spare == [] else [next] + spare == old(spare)
    {
      ValuesGrow(at, p + [b], node);
      next := Alloc();
      ghost var was := at;
      Attach(node, p, b, next);
      ValuesGrow(was, p + [b], next);
    }

    method Attach(node: Node, ghost p: Path, b: bool, next: Node)
      requires Valid() && p in at && at[p] == node && p + [b] !in at && |p| < 32
      requires next !in at.Values && next !in spare
      modifies `at, node, next
      ensures Valid() && at == old(at)[p + [b] := next] && next.value == NO_VALUE && node.value == old(node.value)
    {
      ghost var q := p + [b];
      NoneBelow(q);
      forall r | r in at ensures r != [] ==> Up(r) != q { NotUp(r, q); }
      assert node in at.Values && node !in spare;
      next.right, next.left, next.parent, next.value := null, null, node, NO_VALUE;
      if b { node.right := next; } else { node.left := next; }
      at := at[q := next];
      forall k {:trigger Chained(k)} | 0 <= k < |spare| ensures Chained(k) { assert old(Chained(k)); }
      hide Placed, Child;
      forall r {:trigger Wired(r)} | r in at ensures Wired(r) {
        if r != q {
          assert old(Wired(r));
          PlacedAfter(old(at), p, b, next, r, old(at[r].left), old(at[r].right), old(at[r].parent));
        } else {
          PlacedNew(old(at), p, b, next);
        }
      }
      ValuesGrow(old(at), q, next);
    }

    /** Nothing stands below a missing path. */
    lemma NotUp(r: Path, q: Path)
      requires Valid() && r in at && q !in at
      ensures r != [] ==> Up(r) != q
    {
      assert Wired(r);
    }

    lemma NoneBelow(q: Path)
      requires Valid() && q !in at
      ensures q + [false] !in at && q + [true] !in at
    {
      assert q + [false] in at ==> Wired(q + [false]);
      assert q + [true] in at ==> Wired(q + [true]);
      assert q != [] ==> Up(q + [false]) == q && Up(q + [true]) == q;
    }

    method SetValue(node: Node, ghost p: Path, value: nat)
      requires Valid() && p in at && at[p] == node
      modifies node`value
      ensures Valid() && Values() == old(Values())[p := value]
    {
      node.value := value;
      forall r {:trigger Wired(r)} | r in at ensures Wired(r) { assert old(Wired(r)); }
      forall k {:trigger Chained(k)} | 0 <= k < |spare| ensures Chained(k) { assert old(Chained(k)); }
    }

    /** Adds the missing nodes from depth d down to depth n. */
    method Extend(top: Node, key: nat, mask: nat, depth: nat, ghost n: nat) returns (node: Node)
      requires Valid() && Contiguous(mask, n) && depth < n
      requires Prefix(key, depth) in at && at[Prefix(key, depth)] == top && Prefix(key, depth + 1) !in at
      modifies Footprint()
      ensures Valid() && Prefix(key, n) in at && at[Prefix(key, n)] == node
      ensures Bound(Values()) == old(Bound(Values())) && Values()[Prefix(key, n)] == NO_VALUE
      ensures old(TidyBut(Values(), Prefix(key, depth))) ==> TidyBut(Values(), Prefix(key, n))
      ensures node in Footprint() && fresh(Footprint() - old(Footprint()))
    {
      hide Valid, Footprint, Bound, TidyBut, Contiguous;
      node := top;
      var d := depth;
      ghost var news: set<object> := {};
      MaskAt(mask, n, d);
      while BitAt(mask, d)
        invariant depth <= d <= n && Valid() && Prefix(key, d) in at && node == at[Prefix(key, d)]
        invariant BitAt(mask, d) <==> d < n
        invariant d < n ==> Prefix(key, d + 1) !in at
        invariant Bound(Values()) == old(Bound(Values())) && (d > depth ==> Values()[Prefix(key, d)] == NO_VALUE)
        invariant old(TidyBut(Values(), Prefix(key, depth))) ==> TidyBut(Values(), Prefix(key, d))
        invariant fresh(news) && Footprint() <= old(Footprint()) + news
        decreases n - d
      {
        UpPrefix(key, d);
        UpPrefix(key, d + 1);
        MaskAt(mask, n, d + 1);
        NoneBelow(Prefix(key, d + 1));
        GrowTidy(Values(), Prefix(key, d), BitAt(key, d));
        ghost var mid := Footprint();
        node := AddChild(node, Prefix(key, d), BitAt(key, d));
        if node !in mid { news := news + {node}; }
        d := d + 1;
      }
      assert node in Footprint() by { NodeOwned(Prefix(key, d)); }
    }

    lemma NodeOwned(p: Path)
      requires p in at
      ensures at[p] in Footprint()
    {
    }

    /** The first part of an insertion: down the existing nodes as far as the mask and the tree reach. */
    method Descend(key: nat, mask: nat, ghost n: nat) returns (node: Node, d: nat, next: Node?)
      requires Valid() && Contiguous(mask, n)
      ensures d <= n && Prefix(key, d) in at && node == at[Prefix(key, d)]
      ensures if next == null then d < n && Prefix(key, d + 1) !in at && Prefix(key, n) !in at else d == n
    {
      node, d, next := root, 0, root;
      while BitAt(mask, d)
        invariant 0 <= d <= n && Prefix(key, d) in at && node == at[Prefix(key, d)] && next == node
        decreases n - d
      {
        MaskAt(mask, n, d);
        assert Wired(Prefix(key, d));
        UpPrefix(key, d);
        if BitAt(key, d) { next := node.right; } else { next := node.left; }
        if next == null {
          MissingBelow(key, d + 1, n);
          return;
        }
        node, d := next, d + 1;
      }
      MaskAt(mask, n, d);
    }

    /** ngx_radix32tree_insert: BUSY exactly when the prefix is bound; otherwise the new binding is added
      * and no other changes. */
    method Insert(key: nat, mask: nat, value: nat, ghost n: nat) returns (status: Status)
      requires Valid() && Contiguous(mask, n) && value != NO_VALUE
      modifies Footprint()
      ensures Valid() && (status == OK || status == BUSY)
      ensures status == BUSY <==> Prefix(key, n) in old(Bound(Values()))
      ensures status == BUSY ==> Values() == old(Values())
      ensures status == OK ==> Bound(Values()) == old(Bound(Values()))[Prefix(key, n) := value]
      ensures old(Tidy(Values())) ==> Tidy(Values())
      ensures fresh(Footprint() - old(Footprint()))
    {
      hide Wired, Injective, SpareLinked, Contiguous, TidyBut;
      var node, d, next := Descend(key, mask, n);
      if next != null {
        if node.value != NO_VALUE { return BUSY; }
        SetTidy(Values(), Prefix(key, n), value);
        SetValue(node, Prefix(key, n), value);
        return OK;
      }
      if Tidy(Values()) { TidyFor(Values(), Prefix(key, d)); }
      node := Extend(node, key, mask, d, n);
      SetTidy(Values(), Prefix(key, n), value);
      SetValue(node, Prefix(key, n), value);
      status := OK;
    }

    /** Unlinks the leaf at q and puts it on the free list. */
    method DropLeaf(node: Node, ghost q: Path) returns (up: Node)
      requires Valid() && q in at && at[q] == node && q != [] && IsLeaf(at.Keys, q)
      modifies Footprint()
      ensures Valid() && Up(q) in at && at == old(at) - {q} && up == at[Up(q)]
      ensures Values() == old(Values()) - {q} && spare == [node] + old(spare) && Footprint() == old(Footprint())
    {
      assert Wired(q);
      up := node.parent;
      ghost var p, b := Up(q), q[|q| - 1];
      assert q == p + [b];
      Cut(node, q, up, p, b);
    }

    method Cut(node: Node, ghost q: Path, up: Node, ghost p: Path, ghost b: bool)
      requires Valid() && q in at && at[q] == node && q == p + [b] && IsLeaf(at.Keys, q)
      requires p in at && at[p] == up
      modifies this, node, up
      ensures Valid() && at == old(at) - {q} && spare == [node] + old(spare) && root == old(root)
      ensures Values() == old(Values()) - {q} && Footprint() == old(Footprint())
    {
      Unhook(node, q, up, p, b);
      Recycle(node);
    }

    method Unhook(node: Node, ghost q: Path, up: Node, ghost p: Path, ghost b: bool)
      requires Valid() && q in at && at[q] == node && q == p + [b] && IsLeaf(at.Keys, q)
      requires p in at && at[p] == up
      modifies `at, up
      ensures Valid() && at == old(at) - {q} && at.Values == old(at.Values) - {node} && node !in spare
      ensures Values() == old(Values()) - {q}
    {
      CutLinks(q, p, b);
      hide Placed;
      ghost var from := at;
      if up.right == node { up.right := null; } else { up.left := null; }
      at := at - {q};
      ValuesShrink(from, q);
      forall k {:trigger Chained(k)} | 0 <= k < |spare| ensures Chained(k) { assert old(Chained(k)); }
      forall r {:trigger Wired(r)} | r in at ensures Wired(r) {
        assert old(Wired(r));
        PlacedWithout(from, p, b, r, old(at[r].left), old(at[r].right), old(at[r].parent));
      }
    }

    /** Puts a node that stands nowhere on the free list. */
    method Recycle(node: Node)
      requires Valid() && node !in at.Values && node !in spare
      modifies `free, `spare, node
      ensures Valid() && spare == [node] + old(spare) && Values() == old(Values())
    {
      hide Placed;
      node.right := free;
      free := node;
      spare := [node] + spare;
      forall k {:trigger Chained(k)} | 0 <= k < |spare| ensures Chained(k) {
        if k > 0 { assert old(Chained(k - 1)); }
      }
      forall r {:trigger Wired(r)} | r in at ensures Wired(r) { assert old(Wired(r)); }
    }

    lemma CutLinks(q: Path, p: Path, b: bool)
      requires Valid() && q in at && p in at && q == p + [b]
      ensures at[p] != at[q] && at[p] !in spare && at[q] !in spare && q != p
      ensures at[p].right == at[q] <==> b
    {
      assert Wired(p) && Wired(q);
      LastStep(p, p, b);
      assert at[p] in at.Values && at[q] in at.Values;
      assert p != q;
    }

    method Locate(key: nat, mask: nat, ghost n: nat) returns (here: Node?)
      requires Valid() && Contiguous(mask, n)
      ensures here == if Prefix(key, n) in at then at[Prefix(key, n)] else null
    {
      var d := 0;
      here := root;
      MaskAt(mask, n, 0);
      while here != null && BitAt(mask, d)
        invariant 0 <= d <= n && (BitAt(mask, d) <==> d < n)
        invariant if here == null then Prefix(key, n) !in at else Prefix(key, d) in at && here == at[Prefix(key, d)]
        decreases n - d
      {
        MaskAt(mask, n, d + 1);
        assert Wired(Prefix(key, d));
        UpPrefix(key, d);
        if BitAt(key, d) { here := here.right; } else { here := here.left; }
        if here == null { MissingBelow(key, d + 1, n); }
        d := d + 1;
      }
    }

    /** Removes the leaf at p, and then every node above it that is left without children or value. */
    method Prune(leaf: Node, ghost p: Path)
      requires Valid() && p in at && at[p] == leaf && p != [] && IsLeaf(at.Keys, p)
      modifies Footprint()
      ensures Valid() && Bound(Values()) == old(Bound(Values())) - {p}
      ensures old(Tidy(Values())) ==> Tidy(Values())
      ensures Footprint() == old(Footprint()) && Shed(old(at), at, spare)
    {
      hide Valid, Footprint, Bound, TidyBut, Tidy, IsLeaf, Shed, Values;
      ghost var values, from, foot, q := Values(), at, Footprint(), p;
      AtWired(p);
      CutTidy(values, q);
      ShedNone(at, spare);
      ShedMore(at, at, spare, q);
      ghost var bound, tidy := Bound(values) - {p}, TidyBut(values, q);
      var node := DropLeaf(leaf, q);
      q := Up(q);
      var more := Bare(node, q);
      while more
        invariant Valid() && q in at && node == at[q] && Footprint() == foot && Shed(from, at, spare)
        invariant Bound(Values()) == bound && (tidy ==> TidyBut(Values(), q))
        invariant more ==> q != [] && IsLeaf(at.Keys, q) && q in Values() && Values()[q] == NO_VALUE
        invariant !more ==> (q == [] || !IsLeaf(Values().Keys, q) || (q in Values() && Values()[q] != NO_VALUE))
        decreases |q|
      {
        CutTidy(Values(), q);
        Unbound(Values(), q);
        ShedMore(from, at, spare, q);
        node := DropLeaf(node, q);
        q := Up(q);
        more := Bare(node, q);
      }
      if TidyBut(Values(), q) { TidyAll(Values(), q); }
      if Tidy(values) { TidyFor(values, p); }
    }

    /** The node at q has no children, no value and a parent. */
    method Bare(node: Node, ghost q: Path) returns (bare: bool)
      requires Valid() && q in at && at[q] == node
      ensures Valid() && q in Values() && Values().Keys == at.Keys && Values() == old(Values())
        && Footprint() == old(Footprint())
      ensures bare <==> q != [] && IsLeaf(at.Keys, q) && Values()[q] == NO_VALUE
    {
      AtWired(q);
      bare := !(node.right != null || node.left != null) && node.value == NO_VALUE && node.parent != null;
    }

    /** What a node's links say about its path. */
    lemma AtWired(q: Path)
      requires Valid() && q in at
      ensures at[q].left == null && at[q].right == null <==> IsLeaf(Values().Keys, q)
      ensures at[q].parent == null <==> q == []
      ensures q in Values() && Values()[q] == at[q].value && Values().Keys == at.Keys
      ensures q in Bound(Values()) <==> at[q].value != NO_VALUE
    {
      assert Wired(q);
    }

    /** What stands at p and below it. */
    lemma NodeAt(p: Path)
      requires Valid() && p in at
      ensures at[p].left == Child(at, p, false) && at[p].right == Child(at, p, true)
      ensures |p| <= 32 && (|p| == 32 ==> at[p].left == null && at[p].right == null)
      ensures at[p].value == if p in Bound(Values()) then Bound(Values())[p] else NO_VALUE
    {
      assert Wired(p);
      NoLonger(p);
    }

    lemma RootAt()
      requires Valid()
      ensures [] in at && at[[]] == root
    {
    }

    lemma Absent(p: Path)
      requires p !in at
      ensures p !in Bound(Values())
    {
    }

    /** ngx_radix32tree_delete, which must not be asked to remove a childless root: removes that binding
      * and no other, and recycles every node that no longer leads to one. */
    method Delete(key: nat, mask: nat, ghost n: nat) returns (status: Status)
      requires Valid() && Contiguous(mask, n) && !(n == 0 && IsLeaf(at.Keys, []))
      modifies Footprint()
      ensures Valid() && (status == OK || status == ERROR)
      ensures var p := Prefix(key, n);
        status == ERROR <==> (p !in old(at) || (!IsLeaf(old(at).Keys, p) && p !in old(Bound(Values()))))
      ensures Bound(Values()) == old(Bound(Values())) - {Prefix(key, n)}
      ensures old(Tidy(Values())) ==> Tidy(Values()) && (status == OK <==> Prefix(key, n) in old(Bound(Values())))
      ensures Footprint() == old(Footprint()) && Shed(old(at), at, spare)
    {
      hide Wired, Injective, SpareLinked, Bound, IsLeaf, Prefix;
      var here := Locate(key, mask, n);
      ghost var p := Prefix(key, n);
      PrefixNone(key);
      if here == null {
        Absent(p);
        return ERROR;
      }
      AtWired(p);
      var node: Node := here;
      if node.right != null || node.left != null {
        if node.value == NO_VALUE { return ERROR; }
        UnsetTidy(Values(), p);
        SetValue(node, p, NO_VALUE);
        return OK;
      }
      Prune(node, p);
      status := OK;
    }

    lemma {:induction false} RootInner(p: Path)
      requires Valid() && p in at && p != []
      ensures !IsLeaf(at.Keys, [])
      decreases |p|
    {
      assert Wired(p);
      if |p| == 1 {
        assert if p[0] then p == [] + [true] else p == [] + [false];
      } else {
        RootInner(Up(p));
      }
    }

    /** One request is answered as by a table of bindings. */
    method Serve(c: Request) returns (reply: Reply)
      requires Valid() && Tidy(Values()) && Proper(Bound(Values()), c)
      modifies Footprint()
      ensures Valid() && Tidy(Values()) && fresh(Footprint() - old(Footprint()))
      ensures (Bound(Values()), reply) == Answer(old(Bound(Values())), c)
    {
      match c {
        case Put(key, mask, n, value) =>
          var status := Insert(key, mask, value, n);
          reply := Did(status);
        case Remove(key, mask, n) =>
          if n == 0 {
            ghost var p :| p in Bound(Values()) && p != [];
            RootInner(p);
          }
          ghost var m, p := Bound(Values()), Prefix(key, n);
          var status := Delete(key, mask, n);
          assert p !in m ==> m - {p} == m;
          reply := Did(status);
        case Look(key) =>
          var value := Find(key);
          reply := Found(value);
      }
    }

    /** Any run of requests is answered as by a table of bindings. */
    method Run(cs: seq<Request>) returns (replies: seq<Reply>)
      requires Valid() && Tidy(Values()) && AllProper(Bound(Values()), cs)
      modifies Footprint()
      ensures Valid() && Tidy(Values()) && fresh(Footprint() - old(Footprint()))
      ensures (Bound(Values()), replies) == Answers(old(Bound(Values())), cs)
    {
      hide Valid, Tidy, Bound, Values, Answer, Proper;
      replies := [];
      for i := 0 to |cs|
        invariant Valid() && Tidy(Values()) && fresh(Footprint() - old(Footprint()))
        invariant (Bound(Values()), replies) == Answers(old(Bound(Values())), cs[..i])
      {
        AnswersStep(old(Bound(Values())), cs, i);
        var reply := Serve(cs[i]);
        replies := replies + [reply];
      }
      assert cs[..|cs|] == cs;
    }
  }
}
