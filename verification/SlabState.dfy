/** The slab pool's linked descriptors: the circular lists that pages hang on, what each descriptor says
  * about its run, and the steps that keep both: linking, unlinking, relabelling and splitting a run. */
module SlabState {
  import opened Bits
  import opened SlabShape

  type Table = map<Ref, Desc>
  type Area = map<nat, seq<nat>>
  type Lists = map<Ref, seq<Ref>>

  // ---------------------------------------------------------------- circular lists

  /** The k-th member of a circular list; the header stands before the first and after the last. */
  function At(list: seq<Ref>, h: Ref, k: int): Ref {
    if 0 <= k < |list| then list[k] else h
  }

  ghost predicate Distinct(list: seq<Ref>) {
    forall j, k :: 0 <= j < k < |list| ==> list[j] != list[k]
  }

  ghost predicate Node(desc: Table, h: Ref, list: seq<Ref>, k: nat)
    requires k < |list| && list[k] in desc
  {
    && desc[list[k]].next == At(list, h, k + 1)
    && desc[list[k]].prev == At(list, h, k - 1)
  }

  /** The list hangs on header h: following next from h visits exactly its pages and returns to h, and
    * prev goes back.  The header's own prev is never read and is not constrained. */
  ghost predicate Ring(desc: Table, h: Ref, list: seq<Ref>) {
    && !h.Page? && h in desc && Distinct(list)
    && (forall k :: 0 <= k < |list| ==> list[k].Page? && list[k] in desc)
    && desc[h].next == At(list, h, 0)
    && (forall k :: 0 <= k < |list| ==> Node(desc, h, list, k))
  }

  ghost predicate Linked(desc: Table, x: Ref) {
    x in desc && desc[x].prev in desc && desc[x].next in desc
  }

  /** Taking x out of its list: its neighbours are joined, the tag travelling with the prev word. */
  function Bypass(desc: Table, x: Ref): Table
    requires Linked(desc, x)
  {
    var d := desc[x];
    var m := desc[d.prev := desc[d.prev].(next := d.next)];
    m[d.next := m[d.next].(prev := d.prev, tag := d.tag)]
  }

  /** Putting x at the head of the list on h. */
  function Pushed(desc: Table, h: Ref, x: Ref, tag: Tag): Table
    requires h in desc && x in desc && desc[h].next in desc
  {
    var next := desc[h].next;
    var m := desc[x := desc[x].(next := next, prev := h, tag := tag)];
    var m := m[h := m[h].(next := x)];
    m[next := m[next].(prev := x, tag := tag)]
  }

  /** Putting y in x's place. */
  function Replaced(desc: Table, x: Ref, y: Ref): Table
    requires Linked(desc, x) && y in desc
  {
    var d := desc[x];
    var m := desc[y := desc[y].(next := d.next, prev := d.prev, tag := d.tag)];
    var m := m[d.prev := m[d.prev].(next := y)];
    m[d.next := m[d.next].(prev := y, tag := d.tag)]
  }

  function Removed(list: seq<Ref>, k: nat): seq<Ref>
    requires k < |list|
  {
    list[..k] + list[k + 1..]
  }

  /** Only the header, the members and x may change, and no page's slab word or tag does, but x's. */
  ghost predicate Touches(desc: Table, desc': Table, h: Ref, list: seq<Ref>, x: Ref) {
    && desc'.Keys == desc.Keys
    && (forall r :: r in desc && r != h && r !in list && r != x ==> desc'[r] == desc[r])
    && (forall r :: r in desc && r.Page? && r != x ==> desc'[r].slab == desc[r].slab && desc'[r].tag == desc[r].tag)
  }

  ghost predicate Tagged(desc: Table, list: seq<Ref>, tag: Tag) {
    forall r :: r in list ==> r in desc && desc[r].tag == tag
  }

  lemma Differ(list: seq<Ref>, j: nat, k: nat)
    requires Distinct(list) && j < |list| && k < |list| && j != k
    ensures list[j] != list[k]
  {
  }

  lemma RemovedAt(list: seq<Ref>, h: Ref, k: nat, j: int)
    requires k < |list|
    ensures At(Removed(list, k), h, j) == if j < k then At(list, h, j) else At(list, h, j + 1)
  {
  }

  lemma RemovedDistinct(list: seq<Ref>, k: nat)
    requires k < |list| && Distinct(list)
    ensures Distinct(Removed(list, k))
    ensures forall r :: r in Removed(list, k) <==> r in list && r != list[k]
  {
    var rest := Removed(list, k);
    forall j | 0 <= j < |rest| ensures rest[j] == list[if j < k then j else j + 1] {}
    forall r | r in list && r != list[k] ensures r in rest {
      var j :| 0 <= j < |list| && list[j] == r;
      assert rest[if j < k then j else j - 1] == r;
    }
  }

  ghost predicate Joined(desc: Table, desc': Table, p: Ref, n: Ref) {
    && desc'.Keys == desc.Keys
    && (forall r :: r in desc ==> desc'[r].next == if r == p then n else desc[r].next)
    && (forall r :: r in desc ==> desc'[r].prev == if r == n then p else desc[r].prev)
  }

  lemma JoinedRing(desc: Table, desc': Table, h: Ref, list: seq<Ref>, k: nat)
    requires Ring(desc, h, list) && k < |list|
    requires Joined(desc, desc', At(list, h, k - 1), At(list, h, k + 1))
    ensures Ring(desc', h, Removed(list, k))
  {
    hide Distinct, Removed;
    var rest := Removed(list, k);
    RemovedDistinct(list, k);
    assert |rest| == |list| - 1 by { RemovedLength(list, k); }
    RemovedAt(list, h, k, 0);
    forall j | 0 <= j < |rest|
      ensures rest[j].Page? && rest[j] in desc' && Node(desc', h, rest, j)
    {
      RemovedNode(desc, desc', h, list, k, j);
    }
  }

  lemma RemovedNode(desc: Table, desc': Table, h: Ref, list: seq<Ref>, k: nat, j: nat)
    requires Ring(desc, h, list) && k < |list| && j < |list| - 1
    requires Joined(desc, desc', At(list, h, k - 1), At(list, h, k + 1))
    ensures |Removed(list, k)| == |list| - 1
    ensures var r := Removed(list, k)[j]; r.Page? && r in desc' && Node(desc', h, Removed(list, k), j)
  {
    hide Distinct, Removed;
    RemovedLength(list, k);
    RemovedAt(list, h, k, j);
    RemovedAt(list, h, k, j + 1);
    RemovedAt(list, h, k, j - 1);
    var i := if j < k then j else j + 1;
    assert Removed(list, k)[j] == list[i] && Node(desc, h, list, i);
    if i != k - 1 && k > 0 { Differ(list, i, k - 1); }
    if i != k + 1 && k + 1 < |list| { Differ(list, i, k + 1); }
  }

  lemma RemovedLength(list: seq<Ref>, k: nat)
    requires k < |list|
    ensures |Removed(list, k)| == |list| - 1
  {
  }

  lemma BypassRing(desc: Table, h: Ref, list: seq<Ref>, k: nat)
    requires Ring(desc, h, list) && k < |list| && Tagged(desc, list, desc[list[k]].tag)
    ensures Linked(desc, list[k])
    ensures Ring(Bypass(desc, list[k]), h, Removed(list, k))
    ensures Touches(desc, Bypass(desc, list[k]), h, list, list[k])
    ensures Bypass(desc, list[k])[list[k]] == desc[list[k]]
  {
    Neighbours(desc, h, list, k);
    hide Distinct, Removed, Ring, Bypass;
    BypassMeans(desc, list[k]);
    JoinedRing(desc, Bypass(desc, list[k]), h, list, k);
  }

  /** What stands before and behind a member. */
  lemma Neighbours(desc: Table, h: Ref, list: seq<Ref>, k: nat)
    requires Ring(desc, h, list) && k < |list|
    ensures var x := list[k];
      && Linked(desc, x) && desc[x].prev == At(list, h, k - 1) && desc[x].next == At(list, h, k + 1)
      && desc[x].prev != x && desc[x].next != x && !h.Page?
      && (desc[x].prev == h || desc[x].prev in list) && (desc[x].next == h || desc[x].next in list)
  {
    hide Distinct;
    assert Node(desc, h, list, k);
    if k > 0 { Differ(list, k - 1, k); }
    if k + 1 < |list| { Differ(list, k, k + 1); }
  }

  lemma BypassMeans(desc: Table, x: Ref)
    requires Linked(desc, x) && desc[x].prev != x && desc[x].next != x
    ensures var p, n, after := desc[x].prev, desc[x].next, Bypass(desc, x);
      && Joined(desc, after, p, n) && (forall r :: r in desc && r != p && r != n ==> after[r] == desc[r])
      && forall r :: r in desc ==>
        after[r].slab == desc[r].slab && after[r].tag == if r == n then desc[x].tag else desc[r].tag
  {
  }

  lemma PushedMeans(desc: Table, h: Ref, x: Ref, tag: Tag)
    requires h in desc && x in desc && desc[h].next in desc && x != h && desc[h].next != x
    ensures var n, after := desc[h].next, Pushed(desc, h, x, tag);
      && after.Keys == desc.Keys && after[x] == Desc(desc[x].slab, n, h, tag)
      && (forall r :: r in desc && r != h && r != n && r != x ==> after[r] == desc[r])
      && (forall r :: r in desc && r != x ==> after[r].next == if r == h then x else desc[r].next)
      && (forall r :: r in desc && r != x ==> after[r].prev == if r == n then x else desc[r].prev)
      && forall r :: r in desc && r != x ==>
        after[r].slab == desc[r].slab && after[r].tag == if r == n then tag else desc[r].tag
  {
  }

  lemma ReplacedMeans(desc: Table, x: Ref, y: Ref)
    requires Linked(desc, x) && y in desc && x != y && desc[x].prev != x && desc[x].next != x
    requires desc[x].prev != y && desc[x].next != y
    ensures var p, n, after := desc[x].prev, desc[x].next, Replaced(desc, x, y);
      && Swapped(desc, after, p, y, n) && (forall r :: r in desc && r != p && r != n && r != y ==> after[r] == desc[r])
      && after[y].slab == desc[y].slab && after[y].tag == desc[x].tag
      && forall r :: r in desc && r != y ==>
        after[r].slab == desc[r].slab && after[r].tag == if r == n then desc[x].tag else desc[r].tag
  {
  }

  lemma PushRing(desc: Table, h: Ref, list: seq<Ref>, x: Ref, tag: Tag)
    requires Ring(desc, h, list) && x.Page? && x in desc && x !in list && Tagged(desc, list, tag)
    ensures desc[h].next in desc
    ensures Ring(Pushed(desc, h, x, tag), h, [x] + list)
    ensures Touches(desc, Pushed(desc, h, x, tag), h, list, x)
    ensures Pushed(desc, h, x, tag)[x] == Desc(desc[x].slab, desc[h].next, h, tag)
  {
    var all, after := [x] + list, Pushed(desc, h, x, tag);
    assert forall j :: 0 <= j < |list| ==> all[j + 1] == list[j];
    PushDistinct(list, x);
    if list != [] { assert Node(desc, h, list, 0); }
    PushedMeans(desc, h, x, tag);
    hide Distinct, Pushed;
    forall j | 0 <= j < |all| ensures all[j].Page? && all[j] in after && Node(after, h, all, j) {
      if j > 0 {
        assert all[j] == list[j - 1] && Node(desc, h, list, j - 1);
        if j > 1 { Differ(list, 0, j - 1); }
      }
    }
  }

  lemma PushDistinct(list: seq<Ref>, x: Ref)
    requires Distinct(list) && x !in list
    ensures Distinct([x] + list)
  {
  }

  ghost predicate Swapped(desc: Table, desc': Table, p: Ref, y: Ref, n: Ref) {
    && desc'.Keys == desc.Keys
    && (forall r :: r in desc ==> desc'[r].next == if r == p then y else if r == y then n else desc[r].next)
    && (forall r :: r in desc ==> desc'[r].prev == if r == n then y else if r == y then p else desc[r].prev)
  }

  lemma SwappedRing(desc: Table, desc': Table, h: Ref, list: seq<Ref>, k: nat, y: Ref)
    requires Ring(desc, h, list) && k < |list| && y.Page? && y in desc && y !in list
    requires Swapped(desc, desc', At(list, h, k - 1), y, At(list, h, k + 1))
    ensures Ring(desc', h, list[k := y])
  {
    var all := list[k := y];
    ReplaceDistinct(list, k, y);
    hide Distinct;
    forall j | 0 <= j < |all| ensures all[j].Page? && all[j] in desc' && Node(desc', h, all, j) {
      assert Node(desc, h, list, j);
      if k > 0 && j != k - 1 { Differ(list, j, k - 1); }
      if k + 1 < |list| && j != k + 1 { Differ(list, j, k + 1); }
    }
  }

  lemma ReplaceRing(desc: Table, h: Ref, list: seq<Ref>, k: nat, y: Ref)
    requires Ring(desc, h, list) && k < |list| && y.Page? && y in desc && y !in list
    requires Tagged(desc, list, desc[list[k]].tag)
    ensures Linked(desc, list[k])
    ensures Ring(Replaced(desc, list[k], y), h, list[k := y])
    ensures Touches(desc, Replaced(desc, list[k], y), h, list, y)
    ensures var after := Replaced(desc, list[k], y);
      && after[y].slab == desc[y].slab && after[y].tag == desc[list[k]].tag && after[list[k]] == desc[list[k]]
  {
    Neighbours(desc, h, list, k);
    RingIn(desc, h, list);
    hide Distinct, Ring, Replaced, Swapped;
    ReplacedMeans(desc, list[k], y);
    SwappedRing(desc, Replaced(desc, list[k], y), h, list, k, y);
    SwappedKeys(desc, Replaced(desc, list[k], y), desc[list[k]].prev, y, desc[list[k]].next);
  }

  lemma RingIn(desc: Table, h: Ref, list: seq<Ref>)
    requires Ring(desc, h, list)
    ensures !h.Page? && h in desc && forall r :: r in list ==> r.Page? && r in desc
  {
  }

  lemma SwappedKeys(desc: Table, desc': Table, p: Ref, y: Ref, n: Ref)
    requires Swapped(desc, desc', p, y, n)
    ensures desc'.Keys == desc.Keys
  {
  }

  lemma ReplaceDistinct(list: seq<Ref>, k: nat, y: Ref)
    requires Distinct(list) && k < |list| && y !in list
    ensures Distinct(list[k := y])
    ensures forall r :: r in list[k := y] <==> r == y || (r in list && r != list[k])
  {
    var all := list[k := y];
    assert all[k] == y;
    forall r | r in list && r != list[k] ensures r in all {
      var j :| 0 <= j < |list| && list[j] == r;
      assert all[j] == r;
    }
  }

  // ---------------------------------------------------------------- what descriptors say

  function TagFor(s: Shift): Tag {
    if s < EXACT_SHIFT then AsSmall else if s == EXACT_SHIFT then AsExact else AsBig
  }

  ghost predicate Tail(desc: Table, i: nat, len: nat, slab: nat) {
    forall j :: i < j < i + len ==> Page(j) in desc && desc[Page(j)] == Desc(slab, Null, Null, AsPage)
  }

  /** The descriptors of the run that starts at page i, and the first words of a small page. */
  ghost predicate Described(desc: Table, area: Area, i: nat, run: Run) {
    && Page(i) in desc && i in area && Words(area[i])
    && var d := desc[Page(i)];
      match run
      case FreeRun(len) => d.slab == len && d.tag == AsPage && Tail(desc, i, len, 0)
      case Whole(len) => d == Desc(len + PAGE_START, Null, Null, AsPage) && Tail(desc, i, len, BUSY)
      case Chunks(s, used) => used != {} && d.tag == TagFor(s) && Encodes(d.slab, area[i], s, used)
  }

  /** The list a run's first page hangs on: the free list, the slot of its chunk size as long as it has
    * a free chunk, or none. */
  ghost function Home(g: Geometry, run: Run): Ref {
    match run
    case FreeRun(_) => FreeHead
    case Whole(_) => Null
    case Chunks(s, used) => if Full(s, used) || s < g.min then Null else Slot(s - g.min)
  }

  predicate IsRef(g: Geometry, r: Ref) {
    r.FreeHead? || (r.Slot? && g.min + r.k < PAGE_SHIFT) || (r.Page? && r.i < g.pages)
  }

  datatype State = State(desc: Table, area: Area, runs: map<nat, Run>, lists: Lists)

  ghost predicate Complete(g: Geometry, st: State) {
    && (forall r :: r in st.desc <==> IsRef(g, r))
    && (forall i :: i in st.area <==> i < g.pages)
    && (forall i :: i in st.area ==> Words(st.area[i]))
    && (forall h :: h in st.lists <==> IsRef(g, h) && !h.Page?)
  }

  ghost function HomeBut(g: Geometry, runs: map<nat, Run>, x: nat, home: Ref, i: nat): Ref
    requires i in runs
  {
    if i == x then home else Home(g, runs[i])
  }

  /** Every list holds exactly the pages whose home it is, except that page x is held to hang on home. */
  ghost predicate Listed(g: Geometry, runs: map<nat, Run>, lists: Lists, x: nat, home: Ref) {
    forall h, r :: h in lists ==> (r in lists[h] <==> r.Page? && r.i in runs && HomeBut(g, runs, x, home, r.i) == h)
  }

  ghost predicate Rings(desc: Table, lists: Lists) {
    forall h :: h in lists ==> Ring(desc, h, lists[h])
  }

  /** Pages of the run that starts at i which hang on no list have no links. */
  ghost predicate Unlinked(desc: Table, i: nat) {
    Page(i) in desc && desc[Page(i)].next == Null && desc[Page(i)].prev == Null
  }

  /** Everything holds, but what concerns the run at page x: that one hangs on home, and nothing is said
    * of its descriptor, nor of its links when home is Null. */
  ghost predicate Open(g: Geometry, st: State, x: nat, home: Ref) {
    && Complete(g, st) && Tiled(g, st.runs) && x in st.runs
    && Rings(st.desc, st.lists) && Listed(g, st.runs, st.lists, x, home)
    && (forall i :: i in st.runs && i != x ==> Described(st.desc, st.area, i, st.runs[i]))
    && (forall i :: i in st.runs && i != x && Home(g, st.runs[i]) == Null ==> Unlinked(st.desc, i))
  }

  /** The state between operations. */
  ghost predicate Sound(g: Geometry, st: State) {
    && Complete(g, st) && Tiled(g, st.runs)
    && Rings(st.desc, st.lists)
    && (forall h, r :: h in st.lists ==>
      (r in st.lists[h] <==> r.Page? && r.i in st.runs && Home(g, st.runs[r.i]) == h))
    && (forall i :: i in st.runs ==> Described(st.desc, st.area, i, st.runs[i]))
    && (forall i :: i in st.runs && Home(g, st.runs[i]) == Null ==> Unlinked(st.desc, i))
  }

  lemma OpenAt(g: Geometry, st: State, x: nat)
    requires x in st.runs && Described(st.desc, st.area, x, st.runs[x])
    requires Home(g, st.runs[x]) == Null ==> Unlinked(st.desc, x)
    ensures Sound(g, st) <==> Open(g, st, x, Home(g, st.runs[x]))
  {
    var home := Home(g, st.runs[x]);
    assert forall i :: i in st.runs ==> HomeBut(g, st.runs, x, home, i) == Home(g, st.runs[i]);
  }

  // ---------------------------------------------------------------- the steps

  lemma Parts(g: Geometry, st: State, x: nat, home: Ref)
    requires Open(g, st, x, home)
    ensures Complete(g, st) && Tiled(g, st.runs) && x in st.runs && RunLength(st.runs[x]) > 0
    ensures Rings(st.desc, st.lists) && Listed(g, st.runs, st.lists, x, home)
    ensures forall i :: i in st.area ==> Words(st.area[i])
    ensures Null !in st.lists && forall h :: h in st.lists ==> h in st.desc && !h.Page?
  {
  }

  /** What Open says of a run other than the open one. */
  ghost predicate Other(g: Geometry, desc: Table, area: Area, i: nat, run: Run) {
    Described(desc, area, i, run) && (Home(g, run) == Null ==> Unlinked(desc, i))
  }

  lemma Assemble(g: Geometry, st: State, x: nat, home: Ref)
    requires Complete(g, st) && Tiled(g, st.runs) && x in st.runs
    requires Rings(st.desc, st.lists) && Listed(g, st.runs, st.lists, x, home)
    requires forall i :: i in st.runs && i != x ==> Other(g, st.desc, st.area, i, st.runs[i])
    ensures Open(g, st, x, home)
  {
    hide Complete, Tiled, Rings, Listed, Described, Unlinked, Home;
  }

  lemma RingFrame(desc: Table, desc': Table, h: Ref, list: seq<Ref>)
    requires Ring(desc, h, list) && h in desc' && desc'[h].next == desc[h].next
    requires forall r :: r in list ==> r in desc' && desc'[r].next == desc[r].next && desc'[r].prev == desc[r].prev
    ensures Ring(desc', h, list)
  {
    hide Distinct, At;
    forall k | 0 <= k < |list| ensures Node(desc', h, list, k) {
      assert Node(desc, h, list, k) && list[k] in list;
    }
  }

  /** No page hangs on two lists, and only pages that start a run hang on any. */
  lemma OneList(g: Geometry, runs: map<nat, Run>, lists: Lists, x: nat, home: Ref, h: Ref, y: nat)
    requires Listed(g, runs, lists, x, home) && h in lists && (y !in runs || (y == x && (home == h || home == Null)))
    requires Null !in lists
    ensures forall k, r :: k in lists && k != h && r in lists[k] ==> r !in lists[h] && r != Page(y)
  {
    forall k, r | k in lists && k != h && r in lists[k] ensures r !in lists[h] && r != Page(y) {
      assert r.i in runs && HomeBut(g, runs, x, home, r.i) == k;
    }
  }

  lemma MemberIs(desc: Table, h: Ref, list: seq<Ref>, r: Ref)
    requires Ring(desc, h, list) && r in list
    ensures r.Page? && r in desc
  {
  }

  lemma HeadApart(desc: Table, h: Ref, list: seq<Ref>, k: Ref)
    requires Ring(desc, h, list) && !k.Page?
    ensures k !in list
  {
  }

  lemma RingsAfter(desc: Table, desc': Table, lists: Lists, h: Ref, list': seq<Ref>, x: Ref)
    requires Rings(desc, lists) && h in lists && Ring(desc', h, list') && Touches(desc, desc', h, lists[h], x)
    requires x.Page?
    requires forall k, r :: k in lists && k != h && r in lists[k] ==> r !in lists[h] && r != x
    ensures Rings(desc', lists[h := list'])
  {
    forall k | k in lists && k != h ensures Ring(desc', k, lists[k]) {
      assert Ring(desc, k, lists[k]) && Ring(desc', h, list');
      HeadApart(desc, h, lists[h], k);
      assert desc'[k] == desc[k];
      forall r | r in lists[k] ensures r in desc' && desc'[r] == desc[r] {
        assert r in lists[k];
        MemberIs(desc, k, lists[k], r);
        assert r !in lists[h] && r != x && r != h;
      }
      RingFrame(desc, desc', k, lists[k]);
    }
  }

  /** Relinking the pages of one list leaves what is said of the other runs as it was. */
  lemma DescribedKeep(g: Geometry, st: State, desc': Table, h: Ref, x: nat, y: nat, home: Ref, i: nat)
    requires Open(g, st, x, home) && h in st.lists && i in st.runs && i != x
    requires x <= y < x + RunLength(st.runs[x]) && Touches(st.desc, desc', h, st.lists[h], Page(y))
    ensures Other(g, desc', st.area, i, st.runs[i])
  {
    var len := RunLength(st.runs[i]);
    assert Described(st.desc, st.area, i, st.runs[i]);
    forall j | i < j < i + len ensures Page(j) in desc' && desc'[Page(j)] == st.desc[Page(j)] {
      assert j !in st.runs;
      assert Page(j) !in st.lists[h];
      assert IsRef(g, Page(j));
    }
  }

  function ListTag(g: Geometry, h: Ref): Tag {
    if h.Slot? && g.min + h.k <= 11 then TagFor(g.min + h.k) else AsPage
  }

  ghost predicate Outside(r: Ref, i: nat, len: nat) {
    !r.Page? || r.i < i || i + len <= r.i
  }

  ghost predicate SameLinks(desc: Table, desc': Table, x: Ref) {
    x in desc && x in desc' && desc'[x].next == desc[x].next && desc'[x].prev == desc[x].prev
  }

  /** Only the descriptors of one run change, and not the links of its first page if it hangs on a list. */
  ghost predicate Rewrites(desc: Table, desc': Table, x: nat, len: nat, home: Ref) {
    && desc'.Keys == desc.Keys
    && (forall r :: r in desc && Outside(r, x, len) ==> desc'[r] == desc[r])
    && (home != Null ==> SameLinks(desc, desc', Page(x)))
  }

  lemma RelabelTiled(g: Geometry, runs: map<nat, Run>, x: nat, run: Run)
    requires Tiled(g, runs) && x in runs && RunLength(run) == RunLength(runs[x])
    requires run.Chunks? ==> g.min <= run.shift && InRange(run)
    ensures Tiled(g, runs[x := run])
  {
    hide InRange;
    var runs' := runs[x := run];
    assert forall i :: i in runs ==> RunLength(runs'[i]) == RunLength(runs[i]);
    forall i {:trigger Follows(g, runs', i)} | i in runs' ensures Follows(g, runs', i) { assert Follows(g, runs, i); }
    forall i, j | i in runs' && j in runs' && i < j ensures i + RunLength(runs'[i]) <= j {}
    hide Follows;
  }

  lemma RelabelRings(g: Geometry, st: State, x: nat, home: Ref, desc': Table)
    requires Open(g, st, x, home) && Rewrites(st.desc, desc', x, RunLength(st.runs[x]), home)
    ensures Rings(desc', st.lists)
  {
    forall h | h in st.lists ensures Ring(desc', h, st.lists[h]) {
      assert Ring(st.desc, h, st.lists[h]);
      forall r | r in st.lists[h]
        ensures r in desc' && desc'[r].next == st.desc[r].next && desc'[r].prev == st.desc[r].prev
      {
        assert r.i in st.runs && HomeBut(g, st.runs, x, home, r.i) == h;
      }
      RingFrame(st.desc, desc', h, st.lists[h]);
    }
  }

  lemma RelabelDescribed(g: Geometry, st: State, x: nat, home: Ref, desc': Table, area': Area, i: nat)
    requires Open(g, st, x, home) && Rewrites(st.desc, desc', x, RunLength(st.runs[x]), home)
    requires i in st.runs && i != x && i in st.area && i in area' && area'[i] == st.area[i]
    ensures Other(g, desc', area', i, st.runs[i])
  {
    assert Described(st.desc, st.area, i, st.runs[i]);
    forall j | i <= j < i + RunLength(st.runs[i])
      ensures Page(j) in desc' && desc'[Page(j)] == st.desc[Page(j)]
    {
      assert IsRef(g, Page(j));
    }
  }

  lemma RelabelListed(g: Geometry, runs: map<nat, Run>, lists: Lists, x: nat, home: Ref, run: Run)
    requires Listed(g, runs, lists, x, home) && x in runs
    ensures Listed(g, runs[x := run], lists, x, home)
  {
    assert forall i :: i in runs ==> HomeBut(g, runs, x, home, i) == HomeBut(g, runs[x := run], x, home, i);
  }

  lemma InArea(g: Geometry, st: State, i: nat)
    requires Tiled(g, st.runs) && Complete(g, st) && i in st.runs
    ensures i in st.area && Page(i) in st.desc
  {
    assert IsRef(g, Page(i));
  }

  lemma CompleteAfter(g: Geometry, st: State, st': State)
    requires Complete(g, st) && st'.desc.Keys == st.desc.Keys && st'.area.Keys == st.area.Keys
    requires st'.lists.Keys == st.lists.Keys
    requires forall i :: i in st'.area ==> Words(st'.area[i])
    ensures Complete(g, st')
  {
    assert forall r :: r in st.desc <==> r in st.desc.Keys;
    assert forall r :: r in st'.desc <==> r in st'.desc.Keys;
    assert forall r :: r in st'.area <==> r in st'.area.Keys;
    assert forall r :: r in st.area <==> r in st.area.Keys;
    assert forall r :: r in st'.lists <==> r in st'.lists.Keys;
    assert forall r :: r in st.lists <==> r in st.lists.Keys;
  }

  /** Rewriting the descriptors and words of one run, but not the links of a page that hangs on a list. */
  lemma Relabel(g: Geometry, st: State, x: nat, home: Ref, run: Run, desc': Table, area': Area)
    requires Open(g, st, x, home) && RunLength(run) == RunLength(st.runs[x])
    requires run.Chunks? ==> g.min <= run.shift && InRange(run)
    requires Rewrites(st.desc, desc', x, RunLength(run), home)
    requires area'.Keys == st.area.Keys && x in area' && Words(area'[x])
    requires forall i :: i in st.area && i != x ==> area'[i] == st.area[i]
    ensures Open(g, State(desc', area', st.runs[x := run], st.lists), x, home)
  {
    assert desc'.Keys == st.desc.Keys;
    hide *;
    var st' := State(desc', area', st.runs[x := run], st.lists);
    Parts(g, st, x, home);
    CompleteAfter(g, st, st');
    RelabelTiled(g, st.runs, x, run);
    RelabelRings(g, st, x, home, desc');
    RelabelListed(g, st.runs, st.lists, x, home, run);
    forall i | i in st.runs && i != x ensures Other(g, desc', area', i, st.runs[i]) {
      InArea(g, st, i);
      RelabelDescribed(g, st, x, home, desc', area', i);
    }
    Assemble(g, st', x, home);
  }

  /** Every page on a list carries that list's tag. */
  lemma TaggedList(g: Geometry, st: State, x: nat, home: Ref, h: Ref)
    requires Open(g, st, x, home) && h in st.lists
    requires home == h ==> Page(x) in st.desc && st.desc[Page(x)].tag == ListTag(g, h)
    ensures Tagged(st.desc, st.lists[h], ListTag(g, h))
  {
    forall r | r in st.lists[h] ensures r in st.desc && st.desc[r].tag == ListTag(g, h) {
      assert r.Page? && r.i in st.runs && HomeBut(g, st.runs, x, home, r.i) == h;
      if r.i != x { assert Described(st.desc, st.area, r.i, st.runs[r.i]); }
    }
  }

  lemma ListedAfter(g: Geometry, runs: map<nat, Run>, lists: Lists, x: nat, home: Ref, h: Ref, list': seq<Ref>,
      home': Ref)
    requires Listed(g, runs, lists, x, home) && h in lists && x in runs && Null !in lists
    requires (home == h && home' == Null) || (home == Null && home' == h)
    requires forall r :: r in list' <==> (r in lists[h] && r != Page(x)) || (home' == h && r == Page(x))
    ensures Listed(g, runs, lists[h := list'], x, home')
  {
    assert forall i :: i in runs && i != x ==> HomeBut(g, runs, x, home, i) == HomeBut(g, runs, x, home', i);
  }

  lemma Rehung(g: Geometry, st: State, x: nat, home: Ref, h: Ref, list': seq<Ref>, home': Ref, desc': Table)
    requires Open(g, st, x, home) && h in st.lists && ((home == h && home' == Null) || (home == Null && home' == h))
    requires Ring(desc', h, list') && Touches(st.desc, desc', h, st.lists[h], Page(x))
    requires forall r :: r in list' <==> (r in st.lists[h] && r != Page(x)) || (home' == h && r == Page(x))
    ensures Open(g, State(desc', st.area, st.runs, st.lists[h := list']), x, home')
  {
    hide *;
    var st' := State(desc', st.area, st.runs, st.lists[h := list']);
    Parts(g, st, x, home);
    SameKeys(st.desc, desc', h, st.lists[h], Page(x));
    CompleteAfter(g, st, st');
    OneList(g, st.runs, st.lists, x, home, h, x);
    RingsAfter(st.desc, desc', st.lists, h, list', Page(x));
    ListedAfter(g, st.runs, st.lists, x, home, h, list', home');
    forall i | i in st.runs && i != x ensures Other(g, desc', st.area, i, st.runs[i]) {
      DescribedKeep(g, st, desc', h, x, x, home, i);
    }
    Assemble(g, st', x, home');
  }

  lemma SameKeys(desc: Table, desc': Table, h: Ref, list: seq<Ref>, x: Ref)
    requires Touches(desc, desc', h, list, x)
    ensures desc'.Keys == desc.Keys
  {
  }

  /** The pages of the run at x but its first stay as they are. */
  ghost predicate KeepsTail(desc: Table, desc': Table, x: nat, len: nat) {
    forall j :: x < j < x + len ==> Page(j) in desc && Page(j) in desc' && desc'[Page(j)] == desc[Page(j)]
  }

  lemma TailKept(g: Geometry, st: State, x: nat, home: Ref, h: Ref, desc': Table)
    requires Open(g, st, x, home) && h in st.lists && Touches(st.desc, desc', h, st.lists[h], Page(x))
    ensures KeepsTail(st.desc, desc', x, RunLength(st.runs[x]))
  {
    forall j | x < j < x + RunLength(st.runs[x]) ensures Page(j) in st.desc && desc'[Page(j)] == st.desc[Page(j)] {
      assert IsRef(g, Page(j)) && j !in st.runs && Page(j) !in st.lists[h];
    }
  }

  /** Taking page x off its list. */
  lemma TakeOut(g: Geometry, st: State, x: nat, h: Ref) returns (lists': Lists)
    requires Open(g, st, x, h) && h in st.lists
    requires Page(x) in st.desc && st.desc[Page(x)].tag == ListTag(g, h)
    ensures Linked(st.desc, Page(x))
    ensures Open(g, State(Bypass(st.desc, Page(x)), st.area, st.runs, lists'), x, Null)
    ensures Page(x) in Bypass(st.desc, Page(x)) && Bypass(st.desc, Page(x))[Page(x)] == st.desc[Page(x)]
    ensures KeepsTail(st.desc, Bypass(st.desc, Page(x)), x, RunLength(st.runs[x]))
  {
    var list := st.lists[h];
    assert Page(x) in list && Ring(st.desc, h, list);
    var k :| 0 <= k < |list| && list[k] == Page(x);
    TaggedList(g, st, x, h, h);
    hide Listed, Tiled, Described, Unlinked, Bypass, Linked, Removed;
    BypassRing(st.desc, h, list, k);
    RemovedDistinct(list, k);
    hide Rings, Ring, Touches, Open;
    lists' := st.lists[h := Removed(list, k)];
    TailKept(g, st, x, h, h, Bypass(st.desc, Page(x)));
    Rehung(g, st, x, h, h, Removed(list, k), Null, Bypass(st.desc, Page(x)));
  }

  /** Putting page x, which hangs on no list, at the head of the list on h. */
  lemma PutIn(g: Geometry, st: State, x: nat, h: Ref) returns (lists': Lists)
    requires Open(g, st, x, Null) && h in st.lists
    ensures Page(x) in st.desc && h in st.desc && st.desc[h].next in st.desc
    ensures var desc' := Pushed(st.desc, h, Page(x), ListTag(g, h));
      && Open(g, State(desc', st.area, st.runs, lists'), x, h)
      && Page(x) in desc' && desc'[Page(x)].slab == st.desc[Page(x)].slab && desc'[Page(x)].tag == ListTag(g, h)
      && h in lists' && KeepsTail(st.desc, desc', x, RunLength(st.runs[x]))
  {
    var list := st.lists[h];
    assert IsRef(g, Page(x)) && Page(x) !in list && Ring(st.desc, h, list);
    TaggedList(g, st, x, Null, h);
    hide Listed, Tiled, Described, Unlinked, Pushed;
    PushRing(st.desc, h, list, Page(x), ListTag(g, h));
    hide Rings, Ring, Touches, Open;
    lists' := st.lists[h := [Page(x)] + list];
    TailKept(g, st, x, Null, h, Pushed(st.desc, h, Page(x), ListTag(g, h)));
    Rehung(g, st, x, Null, h, [Page(x)] + list, h, Pushed(st.desc, h, Page(x), ListTag(g, h)));
  }

  function Halves(runs: map<nat, Run>, x: nat, pages: nat, total: nat): map<nat, Run>
    requires pages < total
  {
    runs[x := Whole(pages)][x + pages := FreeRun(total - pages)]
  }

  lemma HalvesAt(runs: map<nat, Run>, x: nat, pages: nat, total: nat, i: nat)
    requires x in runs && 0 < pages < total
    ensures i in Halves(runs, x, pages, total) <==> i in runs || i == x + pages
    ensures i in Halves(runs, x, pages, total) ==>
      Halves(runs, x, pages, total)[i]
        == (if i == x then Whole(pages) else if i == x + pages then FreeRun(total - pages) else runs[i])
  {
  }

  lemma SplitTiled(g: Geometry, runs: map<nat, Run>, x: nat, pages: nat, total: nat)
    requires Tiled(g, runs) && x in runs && runs[x] == FreeRun(total) && 0 < pages < total
    ensures x + pages !in runs
    ensures Tiled(g, Halves(runs, x, pages, total))
  {
    hide InRange, Halves, Follows;
    var runs', y := Halves(runs, x, pages, total), x + pages;
    assert y !in runs;
    HalvesAt(runs, x, pages, total, 0);
    assert forall j :: j in runs ==>
      j in runs' by { forall j | j in runs ensures j in runs' { HalvesAt(runs, x, pages, total, j); } }
    forall i {:trigger Follows(g, runs', i)} | i in runs' ensures Follows(g, runs', i) {
      HalvesAt(runs, x, pages, total, i);
      HalvesAt(runs, x, pages, total, y);
      SplitFollows(g, runs, runs', x, pages, i);
    }
    forall i | i in runs'
      ensures RunLength(runs'[i]) > 0 && i + RunLength(runs'[i]) <= g.pages
      ensures runs'[i].Chunks? ==> g.min <= runs'[i].shift && InRange(runs'[i])
    {
      HalvesAt(runs, x, pages, total, i);
    }
    forall i, j | i in runs' && j in runs' && i < j ensures i + RunLength(runs'[i]) <= j {
      HalvesAt(runs, x, pages, total, i);
      HalvesAt(runs, x, pages, total, j);
      if i != x && j == y { assert i < x; }
      if i == y { assert x < j; }
    }
  }

  lemma SplitFollows(g: Geometry, runs: map<nat, Run>, runs': map<nat, Run>, x: nat, pages: nat, i: nat)
    requires Tiled(g, runs) && x in runs && pages < RunLength(runs[x]) && i in runs'
    requires i in runs || i == x + pages
    requires x + pages in runs' && forall j :: j in runs ==> j in runs'
    requires i == x ==> RunLength(runs'[i]) == pages
    requires i == x + pages ==> RunLength(runs'[i]) == RunLength(runs[x]) - pages
    requires i != x && i != x + pages ==> RunLength(runs'[i]) == RunLength(runs[i])
    ensures Follows(g, runs', i)
  {
    if i in runs { assert Follows(g, runs, i); }
    if i == x + pages { assert Follows(g, runs, x); }
  }

  lemma SplitListed(g: Geometry, runs: map<nat, Run>, lists: Lists, x: nat, pages: nat, total: nat, list': seq<Ref>)
    requires Listed(g, runs, lists, x, FreeHead) && FreeHead in lists && Null !in lists
    requires x in runs && 0 < pages < total && x + pages !in runs
    requires forall r :: r in list' <==> r == Page(x + pages) || (r in lists[FreeHead] && r != Page(x))
    ensures Listed(g, Halves(runs, x, pages, total), lists[FreeHead := list'], x, Null)
  {
    var runs' := Halves(runs, x, pages, total);
    assert forall i :: i in runs && i != x ==>
      i in runs' && HomeBut(g, runs', x, Null, i) == HomeBut(g, runs, x, FreeHead, i);
    assert HomeBut(g, runs', x, Null, x + pages) == FreeHead;
  }

  /** What splitting does to everything but the list itself. */
  lemma SplitRehung(g: Geometry, st: State, x: nat, pages: nat, total: nat, list': seq<Ref>, desc': Table)
    requires Open(g, st, x, FreeHead) && st.runs[x] == FreeRun(total) && 0 < pages < total
    requires FreeHead in st.lists && Page(x + pages) in st.desc
    requires Ring(desc', FreeHead, list') && Touches(st.desc, desc', FreeHead, st.lists[FreeHead], Page(x + pages))
    requires forall r :: r in list' <==> r == Page(x + pages) || (r in st.lists[FreeHead] && r != Page(x))
    requires Described(desc', st.area, x + pages, FreeRun(total - pages))
    ensures Open(g, State(desc', st.area, Halves(st.runs, x, pages, total), st.lists[FreeHead := list']), x, Null)
  {
    hide *;
    var h, y, runs' := FreeHead, x + pages, Halves(st.runs, x, pages, total);
    var st' := State(desc', st.area, runs', st.lists[h := list']);
    Parts(g, st, x, h);
    SplitTiled(g, st.runs, x, pages, total);
    SameKeys(st.desc, desc', h, st.lists[h], Page(y));
    CompleteAfter(g, st, st');
    OneList(g, st.runs, st.lists, x, h, h, y);
    RingsAfter(st.desc, desc', st.lists, h, list', Page(y));
    SplitListed(g, st.runs, st.lists, x, pages, total, list');
    HalvesAt(st.runs, x, pages, total, x);
    forall i | i in runs' && i != x ensures Other(g, desc', st.area, i, runs'[i]) {
      SplitDescribed(g, st, x, pages, total, desc', i);
    }
    Assemble(g, st', x, Null);
  }

  lemma SplitDescribed(g: Geometry, st: State, x: nat, pages: nat, total: nat, desc': Table, i: nat)
    requires Open(g, st, x, FreeHead) && st.runs[x] == FreeRun(total) && 0 < pages < total
    requires FreeHead in st.lists && i in Halves(st.runs, x, pages, total) && i != x
    requires Touches(st.desc, desc', FreeHead, st.lists[FreeHead], Page(x + pages))
    requires Described(desc', st.area, x + pages, FreeRun(total - pages))
    ensures Other(g, desc', st.area, i, Halves(st.runs, x, pages, total)[i])
  {
    hide Ring, Tiled, Described, Unlinked, Halves, Listed, Rings, Touches, Complete;
    HalvesAt(st.runs, x, pages, total, i);
    if i != x + pages { DescribedKeep(g, st, desc', FreeHead, x, x + pages, FreeHead, i); }
  }

  /** Splitting the free run at x: its first pages leave the free list, the rest takes its place there. */
  lemma SplitRun(g: Geometry, st: State, x: nat, pages: nat, total: nat) returns (lists': Lists)
    requires Open(g, st, x, FreeHead) && st.runs[x] == FreeRun(total) && 0 < pages < total
    requires Page(x) in st.desc && Page(x + pages) in st.desc && st.desc[Page(x)].tag == AsPage
    requires st.desc[Page(x + pages)].slab == total - pages && Tail(st.desc, x + pages, total - pages, 0)
    ensures Linked(st.desc, Page(x))
    ensures var desc' := Replaced(st.desc, Page(x), Page(x + pages));
      && Open(g, State(desc', st.area, Halves(st.runs, x, pages, total), lists'), x, Null)
      && desc'[Page(x)] == st.desc[Page(x)]
      && forall r :: r in st.desc && r.Page? && x < r.i < x + total && r.i != x + pages ==> desc'[r] == st.desc[r]
  {
    hide *;
    var k := SplitRing(g, st, x, pages, total);
    var y, list := x + pages, st.lists[FreeHead];
    var desc', list' := Replaced(st.desc, Page(x), Page(y)), list[k := Page(y)];
    lists' := st.lists[FreeHead := list'];
    assert Described(desc', st.area, y, FreeRun(total - pages))
      by { RestDescribed(st.desc, desc', st.area, x, pages, total); }
    SplitRehung(g, st, x, pages, total, list', desc');
  }

  lemma RestDescribed(desc: Table, desc': Table, area: Area, x: nat, pages: nat, total: nat)
    requires 0 < pages < total && desc'.Keys == desc.Keys && x + pages in area && Words(area[x + pages])
    requires Tail(desc, x + pages, total - pages, 0) && Page(x + pages) in desc
    requires desc'[Page(x + pages)].slab == total - pages && desc'[Page(x + pages)].tag == AsPage
    requires forall r :: r in desc && r.Page? && x < r.i < x + total && r.i != x + pages ==> desc'[r] == desc[r]
    ensures Described(desc', area, x + pages, FreeRun(total - pages))
  {
  }

  lemma SplitRing(g: Geometry, st: State, x: nat, pages: nat, total: nat) returns (k: nat)
    requires Open(g, st, x, FreeHead) && st.runs[x] == FreeRun(total) && 0 < pages < total
    requires Page(x) in st.desc && Page(x + pages) in st.desc && st.desc[Page(x)].tag == AsPage
    ensures Linked(st.desc, Page(x))
    ensures FreeHead in st.lists && k < |st.lists[FreeHead]|
    ensures var desc', list, list' := Replaced(st.desc, Page(x), Page(x + pages)), st.lists[FreeHead],
      st.lists[FreeHead][k := Page(x + pages)];
      && Ring(desc', FreeHead, list') && Touches(st.desc, desc', FreeHead, list, Page(x + pages))
      && (forall r :: r in list' <==> r == Page(x + pages) || (r in list && r != Page(x)))
      && desc'[Page(x)] == st.desc[Page(x)]
      && desc'[Page(x + pages)].slab == st.desc[Page(x + pages)].slab && desc'[Page(x + pages)].tag == AsPage
      && desc'.Keys == st.desc.Keys && x + pages in st.area && Words(st.area[x + pages])
      && forall r :: r in st.desc && r.Page? && x < r.i < x + total && r.i != x + pages ==> desc'[r] == st.desc[r]
  {
    k := SplitReady(g, st, x, pages, total);
    var list, y := st.lists[FreeHead], Page(x + pages);
    Neighbours(st.desc, FreeHead, list, k);
    hide *;
    ReplaceRing(st.desc, FreeHead, list, k, y);
    ReplaceDistinct(list, k, y);
    TouchesMeans(st.desc, Replaced(st.desc, Page(x), y), FreeHead, list, y);
  }

  /** A run that is split stands on the free list, and nothing within it stands anywhere. */
  lemma SplitReady(g: Geometry, st: State, x: nat, pages: nat, total: nat) returns (k: nat)
    requires Open(g, st, x, FreeHead) && st.runs[x] == FreeRun(total) && 0 < pages < total
    requires Page(x) in st.desc && Page(x + pages) in st.desc && st.desc[Page(x)].tag == AsPage
    ensures FreeHead in st.lists && k < |st.lists[FreeHead]| && st.lists[FreeHead][k] == Page(x)
    ensures Ring(st.desc, FreeHead, st.lists[FreeHead]) && Distinct(st.lists[FreeHead])
    ensures Tagged(st.desc, st.lists[FreeHead], AsPage)
    ensures forall r :: r in st.lists[FreeHead] ==> r.Page? && !(x < r.i < x + total)
    ensures x + pages in st.area && Words(st.area[x + pages])
  {
    assert IsRef(g, Page(x + pages));
    ListFacts(g, st, x, FreeHead, FreeHead);
    SplitTiled(g, st.runs, x, pages, total);
    assert forall j :: x < j < x + total ==> j !in st.runs;
    k :| 0 <= k < |st.lists[FreeHead]| && st.lists[FreeHead][k] == Page(x);
  }

  lemma TouchesMeans(desc: Table, desc': Table, h: Ref, list: seq<Ref>, x: Ref)
    requires Touches(desc, desc', h, list, x)
    ensures desc'.Keys == desc.Keys && forall r :: r in desc && r != h && r !in list && r != x ==> desc'[r] == desc[r]
  {
  }

  lemma ListFacts(g: Geometry, st: State, x: nat, home: Ref, h: Ref)
    requires Open(g, st, x, home) && h in st.lists
    requires home == h ==> Page(x) in st.desc && st.desc[Page(x)].tag == ListTag(g, h)
    ensures Ring(st.desc, h, st.lists[h]) && Tagged(st.desc, st.lists[h], ListTag(g, h))
    ensures home == h ==> Page(x) in st.lists[h]
    ensures forall r :: r in st.lists[h] ==> r.Page? && r.i in st.runs
  {
    TaggedList(g, st, x, home, h);
  }

  /** Hanging page x on an empty list without touching the header's prev. */
  function Hung(desc: Table, h: Ref, x: Ref, tag: Tag): Table
    requires h in desc && x in desc
  {
    var m := desc[x := desc[x].(next := h, prev := h, tag := tag)];
    m[h := m[h].(next := x)]
  }

  lemma HangFirst(g: Geometry, st: State, x: nat, h: Ref) returns (lists': Lists)
    requires Open(g, st, x, Null) && h in st.lists && st.lists[h] == []
    ensures Page(x) in st.desc && h in st.desc
    ensures var desc' := Hung(st.desc, h, Page(x), ListTag(g, h));
      && Open(g, State(desc', st.area, st.runs, lists'), x, h)
      && Page(x) in desc' && desc'[Page(x)].slab == st.desc[Page(x)].slab && desc'[Page(x)].tag == ListTag(g, h)
  {
    Parts(g, st, x, Null);
    InArea(g, st, x);
    assert Ring(st.desc, h, []);
    hide *;
    var all, desc' := [Page(x)], Hung(st.desc, h, Page(x), ListTag(g, h));
    HungRing(st.desc, h, Page(x), ListTag(g, h));
    lists' := st.lists[h := all];
    Rehung(g, st, x, Null, h, all, h, desc');
  }

  lemma HungRing(desc: Table, h: Ref, x: Ref, tag: Tag)
    requires h in desc && x in desc && x.Page? && !h.Page?
    ensures var desc' := Hung(desc, h, x, tag);
      && Ring(desc', h, [x]) && Touches(desc, desc', h, [], x)
      && desc'[x].slab == desc[x].slab && desc'[x].tag == tag
  {
    assert Node(Hung(desc, h, x, tag), h, [x], 0);
  }
}
