/** Circular doubly linked queues: links embedded in their elements, a header that is its own neighbour
  * when the queue is empty, and the stable insertion sort that relinks the elements in place. */
module Queue {
  class Link {
    var prev: Link?
    var next: Link?
  }

  // ---------------------------------------------------------------- what a queue holds

  function At(h: Link, s: seq<Link>, k: int): Link {
    if 0 <= k < |s| then s[k] else h
  }

  ghost predicate Distinct(s: seq<Link>) {
    forall j, k :: 0 <= j < k < |s| ==> s[j] != s[k]
  }

  ghost predicate Seated(h: Link, s: seq<Link>, k: int)
    reads h, s
  {
    At(h, s, k).next == At(h, s, k + 1) && At(h, s, k + 1).prev == At(h, s, k)
  }

  /** The queue on h holds the elements s, in order, linked both ways and back to h. */
  ghost predicate Ring(h: Link, s: seq<Link>)
    reads h, s
  {
    h !in s && Distinct(s) && forall k {:trigger Seated(h, s, k)} :: -1 <= k < |s| ==> Seated(h, s, k)
  }

  lemma Differ(h: Link, s: seq<Link>, j: int, k: int)
    requires h !in s && Distinct(s) && -1 <= j < |s| && -1 <= k < |s| && j != k
    ensures At(h, s, j) != At(h, s, k)
  {
  }

  function Without(s: seq<Link>, k: nat): seq<Link>
    requires k < |s|
  {
    s[..k] + s[k + 1..]
  }

  function Inserted(s: seq<Link>, k: nat, x: Link): seq<Link>
    requires k <= |s|
  {
    s[..k] + [x] + s[k..]
  }

  lemma WithoutAt(h: Link, s: seq<Link>, k: nat, j: int)
    requires k < |s|
    ensures At(h, Without(s, k), j) == At(h, s, if j < k then j else j + 1)
  {
  }

  lemma InsertedAt(h: Link, s: seq<Link>, k: nat, x: Link, j: int)
    requires k <= |s|
    ensures At(h, Inserted(s, k, x), j) == if j == k then x else At(h, s, if j < k then j else j - 1)
  {
  }

  lemma WithoutMembers(s: seq<Link>, k: nat)
    requires k < |s| && Distinct(s)
    ensures |Without(s, k)| == |s| - 1 && Distinct(Without(s, k))
    ensures forall x :: x in Without(s, k) <==> x in s && x != s[k]
  {
    var r := Without(s, k);
    forall x | x in s && x != s[k] ensures x in r {
      var j :| 0 <= j < |s| && s[j] == x;
      assert r[if j < k then j else j - 1] == x;
    }
  }

  lemma InsertedMembers(s: seq<Link>, k: nat, x: Link)
    requires k <= |s| && Distinct(s) && x !in s
    ensures |Inserted(s, k, x)| == |s| + 1 && Distinct(Inserted(s, k, x))
    ensures forall y :: y in Inserted(s, k, x) <==> y in s || y == x
  {
    var r := Inserted(s, k, x);
    assert r[k] == x;
    forall y | y in s ensures y in r {
      var j :| 0 <= j < |s| && s[j] == y;
      assert r[if j < k then j else j + 1] == y;
    }
  }

  // ---------------------------------------------------------------- the operations

  /** ngx_queue_init. */
  method Init(h: Link)
    modifies h
    ensures Ring(h, [])
  {
    h.prev, h.next := h, h;
  }

  /** ngx_queue_insert_head, which is also ngx_queue_insert_after: x goes right after p, the k-th place. */
  method InsertAfter(p: Link, x: Link, ghost h: Link, ghost s: seq<Link>, ghost k: nat)
    requires Ring(h, s) && k <= |s| && p == At(h, s, k - 1) && x != h && x !in s
    modifies h, s, x
    ensures Ring(h, Inserted(s, k, x))
  {
    hide Distinct, Inserted;
    assert Seated(h, s, k - 1);
    InsertedMembers(s, k, x);
    ghost var r := Inserted(s, k, x);
    x.next := p.next;
    x.next.prev := x;
    x.prev := p;
    p.next := x;
    forall j {:trigger Seated(h, r, j)} | -1 <= j < |r| ensures Seated(h, r, j) {
      InsertedAt(h, s, k, x, j);
      InsertedAt(h, s, k, x, j + 1);
      if j < k - 1 {
        assert old(Seated(h, s, j));
        Differ(h, s, j, k - 1);
        Differ(h, s, j + 1, if k == |s| then -1 else k);
      } else if j > k {
        assert old(Seated(h, s, j - 1));
        Differ(h, s, j - 1, k - 1);
        if j < |s| { Differ(h, s, j, k); }
      }
    }
  }

  /** ngx_queue_remove; the removed element keeps its own links. */
  method Remove(x: Link, ghost h: Link, ghost s: seq<Link>, ghost k: nat)
    requires Ring(h, s) && k < |s| && x == s[k]
    modifies h, s
    ensures Ring(h, Without(s, k))
  {
    hide Distinct, Without;
    assert Seated(h, s, k - 1) && Seated(h, s, k);
    WithoutMembers(s, k);
    ghost var r := Without(s, k);
    x.next.prev := x.prev;
    x.prev.next := x.next;
    forall j {:trigger Seated(h, r, j)} | -1 <= j < |r| ensures Seated(h, r, j) {
      WithoutAt(h, s, k, j);
      WithoutAt(h, s, k, j + 1);
      if j < k - 1 {
        assert old(Seated(h, s, j));
        Differ(h, s, j, k - 1);
        Differ(h, s, j + 1, if k + 1 == |s| then -1 else k + 1);
      } else if j > k - 1 {
        assert old(Seated(h, s, j + 1));
        Differ(h, s, j + 1, k - 1);
        if j + 2 < |s| { Differ(h, s, j + 2, k + 1); }
      }
    }
  }

  /** ngx_queue_insert_tail. */
  method InsertTail(h: Link, x: Link, ghost s: seq<Link>)
    requires Ring(h, s) && x != h && x !in s
    modifies h, s, x
    ensures Ring(h, s + [x])
  {
    assert Seated(h, s, |s| - 1);
    assert Inserted(s, |s|, x) == s + [x];
    InsertAfter(h.prev, x, h, s, |s|);
  }

  /** ngx_queue_middle: of n elements the one at n / 2, or the header when there is none. */
  method Middle(h: Link, ghost s: seq<Link>) returns (middle: Link)
    requires Ring(h, s)
    ensures middle == if s == [] then h else s[|s| / 2]
  {
    assert Seated(h, s, -1) && Seated(h, s, |s| - 1);
    middle := h.next;
    if middle == h.prev { return; }
    var next := h.next;
    ghost var i := 0;
    while true
      invariant 0 <= i && 2 * i + 1 < |s| && middle == s[i] && next == s[2 * i]
      decreases |s| - i
    {
      assert Seated(h, s, i) && Seated(h, s, 2 * i) && Seated(h, s, 2 * i + 1);
      middle := middle.next;
      next := next.next;
      if 2 * i + 2 < |s| { Differ(h, s, 2 * i + 1, |s| - 1); }
      if next == h.prev { return; }
      next := next.next;
      if 2 * i + 3 < |s| { Differ(h, s, 2 * i + 2, |s| - 1); }
      if next == h.prev { return; }
      i := i + 1;
    }
  }

  /** ngx_queue_split: the elements from q on move to the queue on n. */
  method Split(h: Link, q: Link, n: Link, ghost s: seq<Link>, ghost k: nat)
    requires Ring(h, s) && k < |s| && q == s[k] && n != h && n !in s
    modifies h, n, s
    ensures Ring(h, s[..k]) && Ring(n, s[k..])
  {
    hide Distinct;
    assert Seated(h, s, k - 1) && Seated(h, s, |s| - 1);
    assert Distinct(s[..k]) && Distinct(s[k..]) by { Parts(s, k); }
    n.prev := h.prev;
    n.prev.next := n;
    n.next := q;
    h.prev := q.prev;
    h.prev.next := h;
    q.prev := n;
    ghost var front, back := s[..k], s[k..];
    forall j {:trigger Seated(h, front, j)} | -1 <= j < k ensures Seated(h, front, j) {
      assert old(Seated(h, s, j));
      if j < k - 1 { Differ(h, s, j, k - 1); }
      Differ(h, s, j, |s| - 1);
      if j + 1 < k { Differ(h, s, j + 1, k); }
    }
    forall j {:trigger Seated(n, back, j)} | -1 <= j < |back| ensures Seated(n, back, j) {
      if j >= 0 {
        assert old(Seated(h, s, k + j));
        Differ(h, s, k + j, k - 1);
        if j + 1 < |back| {
          Differ(h, s, k + j, |s| - 1);
          Differ(h, s, k + j + 1, k);
        }
      }
    }
  }

  lemma Parts(s: seq<Link>, k: nat)
    requires Distinct(s) && k <= |s|
    ensures Distinct(s[..k]) && Distinct(s[k..])
  {
  }

  /** ngx_queue_add: the elements of a non-empty queue n go to the end of the queue on h. */
  method Add(h: Link, n: Link, ghost s: seq<Link>, ghost t: seq<Link>)
    requires Ring(h, s) && Ring(n, t) && t != [] && h != n && h !in t && n !in s && forall x :: x in s ==> x !in t
    modifies h, s, t
    ensures Ring(h, s + t)
  {
    hide Distinct;
    assert Seated(h, s, |s| - 1) && Seated(n, t, -1) && Seated(n, t, |t| - 1);
    assert Distinct(s + t) by { Whole(s, t); }
    ghost var all := s + t;
    assert h !in all;
    h.prev.next := n.next;
    n.next.prev := h.prev;
    h.prev := n.prev;
    h.prev.next := h;
    forall j {:trigger Seated(h, all, j)} | -1 <= j < |all| ensures Seated(h, all, j) {
      if j < |s| - 1 {
        assert old(Seated(h, s, j));
        Differ(h, s, j, |s| - 1);
        assert At(h, all, j) == At(h, s, j) && At(h, all, j + 1) == s[j + 1];
      } else if j >= |s| && j + 1 < |all| {
        assert old(Seated(n, t, j - |s|));
        Differ(n, t, j - |s|, |t| - 1);
        assert At(h, all, j) == t[j - |s|] && At(h, all, j + 1) == t[j - |s| + 1];
        Differ(n, t, j - |s| + 1, 0);
      }
    }
  }

  lemma Whole(s: seq<Link>, t: seq<Link>)
    requires Distinct(s) && Distinct(t) && forall x :: x in s ==> x !in t
    ensures Distinct(s + t)
  {
    var all := s + t;
    forall j, k | 0 <= j < k < |all| ensures all[j] != all[k] {
      if j < |s| <= k { assert all[j] in s && all[k] in t; }
    }
  }

  // ---------------------------------------------------------------- sorting

  type Cmp = (Link, Link) -> int

  ghost predicate TotalPreorder(cmp: Cmp, s: seq<Link>) {
    && (forall a, b :: a in s && b in s ==> cmp(a, b) <= 0 || cmp(b, a) <= 0)
    && (forall a, b, c :: a in s && b in s && c in s && cmp(a, b) <= 0 && cmp(b, c) <= 0 ==> cmp(a, c) <= 0)
  }

  ghost predicate Sorted(cmp: Cmp, s: seq<Link>) {
    forall j, k :: 0 <= j < k < |s| ==> cmp(s[j], s[k]) <= 0
  }

  /** a stands before b in s. */
  ghost predicate Before(s: seq<Link>, a: Link, b: Link) {
    exists j, k :: 0 <= j < k < |s| && s[j] == a && s[k] == b
  }

  /** r holds the elements of s in order, and those that were in order already, equal ones among them,
    * have not passed each other. */
  ghost predicate StableSort(cmp: Cmp, s: seq<Link>, r: seq<Link>) {
    && Sorted(cmp, r) && |r| == |s| && Distinct(r)
    && (forall x :: x in r ==> x in s) && (forall x :: x in s ==> x in r)
    && forall a, b :: a in s && b in s && Before(s, a, b) && cmp(a, b) <= 0 ==> Before(r, a, b)
  }

  /** Inserting the next element after the last one that is not greater keeps the sort stable. */
  lemma InsertStable(cmp: Cmp, s: seq<Link>, r: seq<Link>, x: Link, k: nat)
    requires StableSort(cmp, s, r) && Distinct(s + [x]) && TotalPreorder(cmp, s + [x]) && k <= |r|
    requires k > 0 ==> cmp(r[k - 1], x) <= 0
    requires forall j :: k <= j < |r| ==> cmp(r[j], x) > 0
    ensures StableSort(cmp, s + [x], Inserted(r, k, x))
  {
    var r', all := Inserted(r, k, x), s + [x];
    assert all[|s|] == x;
    assert Distinct(s) && x !in s by {
      forall j | 0 <= j < |s| ensures all[j] == s[j] {}
    }
    assert forall y :: y in all <==> y in s || y == x;
    InsertedMembers(r, k, x);
    InsertSorted(cmp, r, x, k, all);
    forall a, b | a in all && b in all && Before(all, a, b) && cmp(a, b) <= 0 ensures Before(r', a, b) {
      PairKept(cmp, s, r, x, k, a, b);
    }
  }

  lemma PairKept(cmp: Cmp, s: seq<Link>, r: seq<Link>, x: Link, k: nat, a: Link, b: Link)
    requires StableSort(cmp, s, r) && k <= |r| && x !in s
    requires forall j :: k <= j < |r| ==> cmp(r[j], x) > 0
    requires Before(s + [x], a, b) && cmp(a, b) <= 0
    ensures Before(Inserted(r, k, x), a, b)
  {
    var r', all := Inserted(r, k, x), s + [x];
    var i, j :| 0 <= i < j < |all| && all[i] == a && all[j] == b;
    assert all[i] == s[i];
    if j == |s| {
      assert a in r;
      var m :| 0 <= m < |r| && r[m] == a;
      assert r'[m] == a && r'[k] == x;
    } else {
      assert all[j] == s[j] && Before(s, a, b);
      InsertBefore(r, x, k, a, b);
    }
  }

  lemma InsertSorted(cmp: Cmp, r: seq<Link>, x: Link, k: nat, all: seq<Link>)
    requires Sorted(cmp, r) && TotalPreorder(cmp, all) && x in all && k <= |r| && forall y :: y in r ==> y in all
    requires k > 0 ==> cmp(r[k - 1], x) <= 0
    requires forall j :: k <= j < |r| ==> cmp(r[j], x) > 0
    ensures Sorted(cmp, Inserted(r, k, x))
  {
    var r' := Inserted(r, k, x);
    hide TotalPreorder;
    forall i, j | 0 <= i < j < |r'| ensures cmp(r'[i], r'[j]) <= 0 {
      if j == k {
        Below(cmp, r, x, k, all, i);
      } else if i == k {
        Above(cmp, r, x, all, j - 1);
      }
    }
  }

  lemma Below(cmp: Cmp, r: seq<Link>, x: Link, k: nat, all: seq<Link>, i: nat)
    requires Sorted(cmp, r) && TotalPreorder(cmp, all) && x in all && forall y :: y in r ==> y in all
    requires i < k <= |r| && cmp(r[k - 1], x) <= 0
    ensures cmp(r[i], x) <= 0
  {
    assert r[i] in all && r[k - 1] in all;
    assert cmp(r[i], r[k - 1]) <= 0 || i == k - 1;
  }

  lemma Above(cmp: Cmp, r: seq<Link>, x: Link, all: seq<Link>, j: nat)
    requires TotalPreorder(cmp, all) && x in all && (forall y :: y in r ==> y in all) && j < |r| && cmp(r[j], x) > 0
    ensures cmp(x, r[j]) <= 0
  {
    assert r[j] in all;
  }

  lemma InsertBefore(r: seq<Link>, x: Link, k: nat, a: Link, b: Link)
    requires Before(r, a, b) && k <= |r|
    ensures Before(Inserted(r, k, x), a, b)
  {
    var r' := Inserted(r, k, x);
    var i, j :| 0 <= i < j < |r| && r[i] == a && r[j] == b;
    assert r'[if i < k then i else i + 1] == a && r'[if j < k then j else j + 1] == b;
  }

  /** There is only one stable sort. */
  lemma StableSortUnique(cmp: Cmp, s: seq<Link>, r: seq<Link>, t: seq<Link>)
    requires StableSort(cmp, s, r) && StableSort(cmp, s, t)
    ensures r == t
  {
    if r != t {
      var p := FirstDifference(r, t);
      var i := Later(r, t, p);
      var j := Later(t, r, p);
      Passed(cmp, s, r, t, p, i, j);
      Passed(cmp, s, t, r, p, j, i);
      EitherFirst(s, r[p], t[p]);
    }
  }

  lemma {:induction false} FirstDifference(r: seq<Link>, t: seq<Link>) returns (p: nat)
    requires |r| == |t| && r != t
    ensures p < |r| && r[p] != t[p] && forall m :: 0 <= m < p ==> r[m] == t[m]
    decreases |r|
  {
    if r[0] != t[0] {
      p := 0;
    } else {
      assert r == [r[0]] + r[1..] && t == [t[0]] + t[1..];
      var q := FirstDifference(r[1..], t[1..]);
      p := q + 1;
    }
  }

  /** What stands at p in t stands later in r. */
  lemma Later(r: seq<Link>, t: seq<Link>, p: nat) returns (i: nat)
    requires |r| == |t| && p < |r| && r[p] != t[p] && Distinct(t) && t[p] in r
    requires forall m :: 0 <= m < p ==> r[m] == t[m]
    ensures p < i < |r| && r[i] == t[p]
  {
    i :| 0 <= i < |r| && r[i] == t[p];
  }

  lemma EitherFirst(s: seq<Link>, a: Link, b: Link)
    requires a in s && b in s && a != b
    ensures Before(s, a, b) || Before(s, b, a)
  {
    var u :| 0 <= u < |s| && s[u] == a;
    var v :| 0 <= v < |s| && s[v] == b;
  }

  /** If a leads b in some sorted order and follows it in a stable sort, a did not stand before b. */
  lemma Passed(cmp: Cmp, s: seq<Link>, r: seq<Link>, t: seq<Link>, p: nat, i: nat, j: nat)
    requires Sorted(cmp, r) && (forall x :: x in r ==> x in s) && StableSort(cmp, s, t)
    requires p < i < |r| && p < j < |t| && r[i] == t[p] && t[j] == r[p]
    ensures r[p] in s && t[p] in s && !Before(s, r[p], t[p])
  {
    var a, b := r[p], t[p];
    assert a in r && b in r && cmp(a, b) <= 0;
    forall u, v | 0 <= u < v < |t| ensures t[u] != a || t[v] != b {
      if u == j { assert v != p; }
    }
    assert !Before(t, a, b);
  }

  lemma InsertNext(cmp: Cmp, s: seq<Link>, i: nat, done: seq<Link>, k: nat)
    requires i < |s| && StableSort(cmp, s[..i], done) && Distinct(s) && TotalPreorder(cmp, s) && k <= |done|
    requires k > 0 ==> cmp(done[k - 1], s[i]) <= 0
    requires forall j :: k <= j < |done| ==> cmp(done[j], s[i]) > 0
    ensures StableSort(cmp, s[..i + 1], Inserted(done, k, s[i]))
  {
    var all := s[..i] + [s[i]];
    assert all == s[..i + 1] && forall x :: x in all ==> x in s;
    InsertStable(cmp, s[..i], done, s[i], k);
  }

  lemma StartStable(cmp: Cmp, s: seq<Link>)
    requires s != []
    ensures StableSort(cmp, s[..1], s[..1])
  {
  }

  lemma StableMembers(cmp: Cmp, s: seq<Link>, i: nat, done: seq<Link>)
    requires i <= |s| && StableSort(cmp, s[..i], done)
    ensures forall x :: x in done + s[i..] ==> x in s
  {
  }

  lemma Rejoin(done: seq<Link>, rest: seq<Link>, k: nat, q: Link)
    requires k <= |done|
    ensures Inserted(done + rest, k, q) == Inserted(done, k, q) + rest
  {
  }

  lemma Detach(h: Link, done: seq<Link>, s: seq<Link>, i: nat)
    requires 0 < i < |s| && |done| == i
    ensures var all, rest := done + s[i..], done + s[i + 1..];
      && |all| == |s| && all[i] == s[i] && Without(all, i) == rest && |rest| == |s| - 1
      && At(h, all, i - 1) == done[i - 1] == rest[i - 1] && At(h, all, i + 1) == At(h, s, i + 1)
      && forall j :: 0 <= j < i ==> rest[j] == done[j]
  {
  }

  /** The inner loop: back from prev over the greater elements, then q goes in. */
  method SinkIn(q: Link, last: Link, h: Link, cmp: Cmp, ghost rest: seq<Link>, ghost i: nat) returns (ghost k: nat)
    requires Ring(h, rest) && 0 < i <= |rest| && last == rest[i - 1] && q != h && q !in rest
    modifies h, rest, q
    ensures k <= i && Ring(h, Inserted(rest, k, q))
    ensures k > 0 ==> cmp(rest[k - 1], q) <= 0
    ensures forall j :: k <= j < i ==> cmp(rest[j], q) > 0
  {
    hide Distinct, Inserted;
    var prev := last;
    k := i;
    while prev != h && cmp(prev, q) > 0
      invariant 0 <= k <= i && prev == At(h, rest, k - 1) && Ring(h, rest)
      invariant forall j :: k <= j < i ==> cmp(rest[j], q) > 0
      decreases k
    {
      assert Seated(h, rest, k - 2);
      prev, k := prev.prev, k - 1;
    }
    InsertAfter(prev, q, h, rest, k);
  }

  /** One round of the outer loop: the next element leaves its place and sinks into the sorted part. */
  method SortStep(q: Link, h: Link, cmp: Cmp, ghost s: seq<Link>, ghost i: nat, ghost done: seq<Link>)
    returns (next: Link, ghost done': seq<Link>)
    requires 0 < i < |s| && |done| == i && q == s[i] && Ring(h, done + s[i..]) && h !in s && Distinct(s)
    requires StableSort(cmp, s[..i], done) && TotalPreorder(cmp, s)
    modifies h, s
    ensures Ring(h, done' + s[i + 1..]) && StableSort(cmp, s[..i + 1], done')
    ensures |done'| == i + 1 && next == At(h, s, i + 1)
  {
    ghost var all, rest := done + s[i..], done + s[i + 1..];
    hide Inserted, Without, TotalPreorder, StableSort, Distinct;
    Detach(h, done, s, i);
    StableMembers(cmp, s, i, done);
    assert Seated(h, all, i - 1) && Seated(h, all, i);
    var prev;
    prev, next := q.prev, q.next;
    assert forall j :: 0 <= j < |all| ==> all[j] in s;
    Remove(q, h, all, i);
    WithoutMembers(all, i);
    hide Ring, Seated;
    assert forall j :: 0 <= j < |rest| ==> rest[j] in s;
    ghost var k := SinkIn(q, prev, h, cmp, rest, i);
    InsertNext(cmp, s, i, done, k);
    Rejoin(done, s[i + 1..], k, q);
    done' := Inserted(done, k, q);
    InsertedLength(done, k, q);
  }

  lemma InsertedLength(s: seq<Link>, k: nat, x: Link)
    requires k <= |s|
    ensures |Inserted(s, k, x)| == |s| + 1
  {
  }

  /** ngx_queue_sort: a stable insertion sort that only relinks. */
  method Sort(h: Link, cmp: Cmp, ghost s: seq<Link>) returns (ghost r: seq<Link>)
    requires Ring(h, s) && TotalPreorder(cmp, s)
    modifies h, s
    ensures Ring(h, r) && StableSort(cmp, s, r)
  {
    assert Seated(h, s, -1) && Seated(h, s, |s| - 1);
    r := s;
    var q := h.next;
    if q == h.prev { return; }
    ghost var done: seq<Link>, i := s[..1], 1;
    assert s == done + s[1..] && Seated(h, s, 0);
    q := q.next;
    StartStable(cmp, s);
    hide TotalPreorder, StableSort, Seated;
    while q != h
      invariant 1 <= i <= |s| && |done| == i && q == At(h, s, i)
      invariant Ring(h, done + s[i..]) && StableSort(cmp, s[..i], done)
      decreases |s| - i
    {
      q, done := SortStep(q, h, cmp, s, i, done);
      i := i + 1;
    }
    assert s[..i] == s;
    r := done;
    assert done + s[i..] == done;
  }
}
