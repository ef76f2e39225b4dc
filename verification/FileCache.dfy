/** The open-file cache: a search tree and a queue over the same entries, entries that have left both but
  * are still in use, and the descriptors that the entries own. */
module FileCache {
  import opened Wrappers

  type Name = seq<char>

  const INVALID: int := -1

  // ---------------------------------------------------------------- lists of entries

  ghost predicate Distinct<F>(s: seq<F>) {
    forall i, j :: 0 <= i < j < |s| ==> s[i] != s[j]
  }

  ghost function Elements<F>(s: seq<F>): set<F> { set f | f in s }

  function IndexOf<F(==)>(s: seq<F>, f: F): (k: nat)
    requires f in s
    ensures k < |s| && s[k] == f
  {
    if s[0] == f then 0 else 1 + IndexOf(s[1..], f)
  }

  function Without<F(==)>(s: seq<F>, f: F): seq<F>
    requires f in s
  {
    s[..IndexOf(s, f)] + s[IndexOf(s, f) + 1..]
  }

  lemma WithoutMembers<F>(s: seq<F>, f: F)
    requires f in s && Distinct(s)
    ensures Distinct(Without(s, f)) && |Without(s, f)| == |s| - 1
    ensures forall g :: g in Without(s, f) ==> g in s && g != f
    ensures forall g :: g in s && g != f ==> g in Without(s, f)
  {
    var k, r := IndexOf(s, f), Without(s, f);
    assert forall i :: 0 <= i < |r| ==> r[i] == s[if i < k then i else i + 1];
    forall g | g in s && g != f ensures g in r {
      var i :| 0 <= i < |s| && s[i] == g;
      assert r[if i < k then i else i - 1] == g;
    }
  }

  // ---------------------------------------------------------------- what is kept about the entries

  /** What an entry owns: its descriptor, its kind, and the descriptors it has handed out. */
  datatype Rec = Rec(fd: int, err: int, isDir: bool, close: bool, count: nat, out: multiset<int>)

  /** The cache at one moment.  Entries that are parted have left the tree and the queue but have users. */
  datatype View<F> = View(tree: seq<F>, expire: seq<F>, parted: set<F>, recs: map<F, Rec>, open: set<int>,
    lost: set<int>)

  /** The tree and the queue hold the same entries; those aside may be missing from the queue. */
  ghost predicate Lists<F>(v: View<F>, aside: set<F>) {
    && Distinct(v.tree) && Distinct(v.expire)
    && (forall f :: f in v.expire ==> f in v.tree && f !in aside)
    && (forall f :: f in v.tree ==> f !in v.parted && (f in v.expire || f in aside))
    && (forall f :: f in v.recs ==> f in v.tree || f in v.parted)
    && (forall f :: f in v.tree ==> f in v.recs) && (forall f :: f in v.parted ==> f in v.recs)
  }

  /** An entry in the tree. */
  ghost predicate Fine(r: Rec) {
    && r.count == |r.out|
    && (r.count > 0 ==> r.fd != INVALID)
    && (r.fd != INVALID ==> r.err == 0 && !r.isDir)
    && (r.err == 0 ==> !r.close)
  }

  /** An entry that is parted: it is closed and freed with its last user. */
  ghost predicate Lingering(r: Rec) {
    r.close && r.count == |r.out| && (r.count > 0 ==> r.fd != INVALID)
  }

  ghost predicate Records<F>(v: View<F>, aside: set<F>) {
    forall f :: f in v.recs ==>
      if f in v.parted then Lingering(v.recs[f]) && (v.recs[f].count > 0 || f in aside) else Fine(v.recs[f])
  }

  ghost predicate Owned<F>(recs: map<F, Rec>, d: int) {
    exists f :: f in recs && recs[f].fd == d
  }

  /** Every open descriptor is owned by exactly one entry, or held by the caller, or lost; every descriptor
    * that is handed out is open. */
  ghost predicate Descriptors<F>(recs: map<F, Rec>, open: set<int>, lost: set<int>, held: set<int>) {
    && INVALID !in open && lost <= open && held <= open && lost !! held
    && (forall f :: f in recs && recs[f].fd != INVALID ==>
      recs[f].fd in open && recs[f].fd !in lost && recs[f].fd !in held)
    && (forall f, g :: f in recs && g in recs && f != g && recs[f].fd != INVALID ==> recs[f].fd != recs[g].fd)
    && (forall f, d :: f in recs && d in recs[f].out ==> d == recs[f].fd || d in lost)
    && (forall d :: d in open ==> d in lost || d in held || Owned(recs, d))
  }

  ghost predicate Good<F>(v: View<F>, aside: set<F>, held: set<int>) {
    Lists(v, aside) && Records(v, aside) && Descriptors(v.recs, v.open, v.lost, held)
  }

  // ---------------------------------------------------------------- descriptors change hands

  /** An entry without users gives up its descriptor, which is closed. */
  lemma GiveUp<F>(recs: map<F, Rec>, open: set<int>, lost: set<int>, held: set<int>, f: F)
    requires Descriptors(recs, open, lost, held) && f in recs && recs[f].fd != INVALID && recs[f].out == multiset{}
    ensures Descriptors(recs[f := recs[f].(fd := INVALID)], open - {recs[f].fd}, lost, held)
    ensures Descriptors(recs - {f}, open - {recs[f].fd}, lost, held)
  {
    var fd := recs[f].fd;
    var a, b := recs[f := recs[f].(fd := INVALID)], recs - {f};
    forall d | d in open - {fd} && Owned(recs, d) ensures Owned(a, d) && Owned(b, d) {
      var g :| g in recs && recs[g].fd == d;
      assert g in a && a[g].fd == d && g in b && b[g].fd == d;
    }
  }

  /** An entry that owns nothing and has no users leaves. */
  lemma LeaveEmpty<F>(recs: map<F, Rec>, open: set<int>, lost: set<int>, held: set<int>, f: F)
    requires Descriptors(recs, open, lost, held) && f in recs && recs[f].fd == INVALID
    ensures Descriptors(recs - {f}, open, lost, held)
  {
    forall d | d in open && Owned(recs, d) ensures Owned(recs - {f}, d) {
      var g :| g in recs && recs[g].fd == d;
      assert g in recs - {f} && (recs - {f})[g].fd == d;
    }
  }

  /** The record of an entry changes, its descriptor does not. */
  lemma SameDescriptor<F>(recs: map<F, Rec>, open: set<int>, lost: set<int>, held: set<int>, f: F, r: Rec)
    requires Descriptors(recs, open, lost, held) && f in recs && r.fd == recs[f].fd
    requires forall d :: d in r.out ==> d == r.fd || d in lost
    ensures Descriptors(recs[f := r], open, lost, held)
  {
    forall d | d in open && Owned(recs, d) ensures Owned(recs[f := r], d) {
      var g :| g in recs && recs[g].fd == d;
      assert g in recs[f := r] && recs[f := r][g].fd == d;
    }
  }

  /** An entry that owns nothing, or a new one, takes over what the caller holds. */
  lemma TakeOver<F>(recs: map<F, Rec>, open: set<int>, lost: set<int>, held: set<int>, f: F, r: Rec)
    requires Descriptors(recs, open, lost, held) && (f in recs ==> recs[f].fd == INVALID)
    requires r.fd == INVALID || r.fd in held
    requires forall d :: d in r.out ==> d == r.fd || d in lost
    ensures Descriptors(recs[f := r], open, lost, held - {r.fd})
  {
    var a := recs[f := r];
    forall d | d in open ensures d in lost || d in held - {r.fd} || Owned(a, d) {
      if d == r.fd {
        assert f in a && a[f].fd == d;
      } else if d !in lost && d !in held {
        var g :| g in recs && recs[g].fd == d;
        assert g in a && a[g].fd == d;
      }
    }
  }

  /** An entry leaves, and the caller holds its descriptor. */
  lemma HandOver<F>(recs: map<F, Rec>, open: set<int>, lost: set<int>, held: set<int>, f: F)
    requires Descriptors(recs, open, lost, held) && f in recs
    ensures Descriptors(recs - {f}, open, lost, held + Only(recs[f].fd)) && recs[f].fd !in held
  {
    var a := recs - {f};
    forall d | d in open && d != recs[f].fd && Owned(recs, d) ensures Owned(a, d) {
      var g :| g in recs && recs[g].fd == d;
      assert g in a && a[g].fd == d;
    }
  }

  function Only(d: int): set<int> { if d == INVALID then {} else {d} }

  /** The entry changes over to another descriptor and forgets its own, which nobody will ever close. */
  lemma Forget<F>(recs: map<F, Rec>, open: set<int>, lost: set<int>, held: set<int>, f: F)
    requires Descriptors(recs, open, lost, held) && f in recs && recs[f].fd != INVALID
    ensures Descriptors(recs[f := recs[f].(fd := INVALID)], open, lost + {recs[f].fd}, held)
  {
    var fd := recs[f].fd;
    var a := recs[f := recs[f].(fd := INVALID)];
    forall d | d in open && d != fd && Owned(recs, d) ensures Owned(a, d) {
      var g :| g in recs && recs[g].fd == d;
      assert g in a && a[g].fd == d;
    }
  }

  // ---------------------------------------------------------------- entries come and go

  lemma LeaveQueue<F>(v: View<F>, f: F)
    requires Lists(v, {}) && f in v.tree
    ensures f in v.expire && Lists(v.(expire := Without(v.expire, f)), {f})
  {
    WithoutMembers(v.expire, f);
  }

  lemma JoinQueue<F>(v: View<F>, f: F)
    requires Lists(v, {f}) && f in v.tree
    ensures f !in v.expire && Lists(v.(expire := [f] + v.expire), {})
  {
    var e := [f] + v.expire;
    assert forall i :: 0 < i < |e| ==> e[i] == v.expire[i - 1];
    assert e[0] == f;
    forall g | g in v.expire ensures g in e {
      var i :| 0 <= i < |v.expire| && v.expire[i] == g;
      assert e[i + 1] == g;
    }
  }

  lemma LeaveTree<F>(v: View<F>, f: F, r: Rec)
    requires Lists(v, {f}) && f in v.tree
    ensures Lists(v.(tree := Without(v.tree, f), recs := v.recs - {f}), {})
    ensures Lists(v.(tree := Without(v.tree, f), parted := v.parted + {f}, recs := v.recs[f := r]), {})
  {
    WithoutMembers(v.tree, f);
  }

  lemma JoinTree<F>(v: View<F>, f: F, k: nat, r: Rec)
    requires Lists(v, {}) && f !in v.recs && k <= |v.tree|
    ensures Lists(v.(tree := v.tree[..k] + [f] + v.tree[k..], recs := v.recs[f := r]), {f})
  {
    var t := v.tree[..k] + [f] + v.tree[k..];
    assert forall i :: 0 <= i < |t| ==> t[i] == if i < k then v.tree[i] else if i == k then f else v.tree[i - 1];
    assert t[k] == f;
    forall g | g in v.tree ensures g in t {
      var i :| 0 <= i < |v.tree| && v.tree[i] == g;
      assert t[if i < k then i else i + 1] == g;
    }
  }

  lemma LeaveParted<F>(v: View<F>, f: F, aside: set<F>)
    requires Lists(v, aside) && f in v.parted
    ensures Lists(v.(parted := v.parted - {f}, recs := v.recs - {f}), aside - {f})
  {
  }

  // ---------------------------------------------------------------- whole steps

  lemma ToFront<F>(v: View<F>, f: F, held: set<int>)
    requires Good(v, {}, held) && f in v.tree
    ensures f in v.expire && Good(v.(expire := [f] + Without(v.expire, f)), {}, held)
  {
    LeaveQueue(v, f);
    JoinQueue(v.(expire := Without(v.expire, f)), f);
  }

  /** An idle entry stays, but its descriptor is closed. */
  lemma CloseIdle<F>(v: View<F>, f: F, held: set<int>) returns (w: View<F>)
    requires Good(v, {}, held) && f in v.tree && v.recs[f].count == 0 && v.recs[f].fd != INVALID
    ensures v.recs[f].fd in v.open && Good(w, {}, held)
    ensures w.tree == v.tree && w.expire == v.expire && w.parted == v.parted && w.lost == v.lost
    ensures w.open == v.open - {v.recs[f].fd} && w.recs.Keys == v.recs.Keys && w.recs[f] == v.recs[f].(fd := INVALID)
    ensures forall g :: g in w.recs && g != f ==> w.recs[g] == v.recs[g]
  {
    GiveUp(v.recs, v.open, v.lost, held, f);
    w := v.(recs := v.recs[f := v.recs[f].(fd := INVALID)], open := v.open - {v.recs[f].fd});
  }

  /** A parted entry goes with its last user. */
  lemma FreeParted<F>(v: View<F>, f: F, held: set<int>)
    requires Good(v, {f}, held) && f in v.parted && v.recs[f].count == 0
    ensures v.recs[f].fd == INVALID || v.recs[f].fd in v.open
    ensures INVALID !in v.open
    ensures Good(v.(parted := v.parted - {f}, recs := v.recs - {f}, open := v.open - {v.recs[f].fd}), {}, held)
  {
    if v.recs[f].fd != INVALID {
      GiveUp(v.recs, v.open, v.lost, held, f);
    } else {
      LeaveEmpty(v.recs, v.open, v.lost, held, f);
      assert v.open - {INVALID} == v.open;
    }
    LeaveParted(v, f, {f});
  }

  lemma StayParted<F>(v: View<F>, f: F, held: set<int>)
    requires Good(v, {f}, held) && f in v.parted && v.recs[f].count > 0
    ensures Good(v, {}, held)
  {
  }

  /** An entry leaves the queue for a while. */
  lemma SetAside<F>(v: View<F>, f: F, held: set<int>)
    requires Good(v, {}, held) && f in v.tree
    ensures f in v.expire && Good(v.(expire := Without(v.expire, f)), {f}, held)
  {
    LeaveQueue(v, f);
  }

  /** It leaves the tree too, and the caller holds its descriptor. */
  lemma DropAside<F>(v: View<F>, f: F, held: set<int>)
    requires Good(v, {f}, held) && f in v.tree
    ensures Good(v.(tree := Without(v.tree, f), recs := v.recs - {f}), {}, held + Only(v.recs[f].fd))
    ensures f !in v.parted && f !in v.expire && Fine(v.recs[f]) && v.recs[f].fd !in held
    ensures forall d :: d in v.recs[f].out ==> d == v.recs[f].fd || d in v.lost
  {
    LeaveTree(v, f, v.recs[f]);
    HandOver(v.recs, v.open, v.lost, held, f);
  }

  /** It stays with its users, if there are any. */
  lemma Linger<F>(v: View<F>, f: F, r: Rec, held: set<int>) returns (w: View<F>)
    requires Good(v, {}, held) && f !in v.recs && Lingering(r) && (r.fd == INVALID || r.fd in held)
    requires forall d :: d in r.out ==> d == r.fd || d in v.lost
    ensures Good(w, {f}, held - {r.fd})
    ensures w.tree == v.tree && w.expire == v.expire && w.open == v.open && w.lost == v.lost
      && w.parted == v.parted + {f}
    ensures w.recs.Keys == v.recs.Keys + {f} && w.recs[f] == r && forall g :: g in v.recs ==> w.recs[g] == v.recs[g]
  {
    TakeOver(v.recs, v.open, v.lost, held, f, r);
    w := v.(parted := v.parted + {f}, recs := v.recs[f := r]);
  }

  lemma SplitBack<F>(tree: seq<F>, f: F)
    requires f in tree
    ensures var k, w := IndexOf(tree, f), Without(tree, f); k <= |w| && tree == w[..k] + [f] + w[k..]
  {
  }

  lemma JoinAgain<F>(v: View<F>, tree: seq<F>, f: F, r: Rec)
    requires Lists(v, {}) && f in tree && v.tree == Without(tree, f) && f !in v.recs
    ensures Lists(v.(tree := tree, expire := [f] + v.expire, recs := v.recs[f := r]), {}) && f !in v.parted
  {
    SplitBack(tree, f);
    JoinTree(v, f, IndexOf(tree, f), r);
    JoinQueue(v.(tree := tree, recs := v.recs[f := r]), f);
  }

  /** An entry that was set aside takes its place again, at the front of the queue. */
  lemma Rejoin<F>(v: View<F>, tree: seq<F>, f: F, r: Rec, held: set<int>)
    requires Good(v, {}, held) && f in tree && v.tree == Without(tree, f) && f !in v.recs
    requires Fine(r) && (r.fd == INVALID || r.fd in held) && forall d :: d in r.out ==> d == r.fd || d in v.lost
    ensures Good(v.(tree := tree, expire := [f] + v.expire, recs := v.recs[f := r]), {}, held - {r.fd})
  {
    hide Lists, Descriptors, Without, Fine, Lingering;
    JoinAgain(v, tree, f, r);
    TakeOver(v.recs, v.open, v.lost, held, f, r);
  }

  lemma Opens<F>(v: View<F>, d: int, held: set<int>)
    requires Good(v, {}, held) && d !in v.open && d != INVALID
    ensures Good(v.(open := v.open + {d}), {}, held + {d})
  {
  }

  lemma Closes<F>(v: View<F>, d: int, held: set<int>)
    requires Good(v, {}, held) && d in held
    ensures d in v.open && Good(v.(open := v.open - {d}), {}, held - {d})
  {
  }

  /** What nobody holds any more stays open for good. */
  lemma Loses<F>(v: View<F>, d: int, held: set<int>)
    requires Good(v, {}, held) && d in held
    ensures Good(v.(lost := v.lost + {d}), {}, held - {d})
  {
  }

  lemma LastWithout<F>(s: seq<F>)
    requires s != [] && Distinct(s)
    ensures Without(s, s[|s| - 1]) == s[..|s| - 1]
  {
    assert IndexOf(s, s[|s| - 1]) == |s| - 1;
  }

  lemma InRecs<F>(v: View<F>, f: F, aside: set<F>, held: set<int>)
    requires Good(v, aside, held)
    ensures f in v.recs <==> f in v.tree || f in v.parted
    ensures f in v.parted ==> f !in v.tree
  {
  }

  // ---------------------------------------------------------------- the order of the tree

  /** ngx_strcmp(a, b) < 0. */
  predicate Smaller(a: Name, b: Name) {
    if b == [] then false
    else if a == [] then true
    else a[0] < b[0] || (a[0] == b[0] && Smaller(a[1..], b[1..]))
  }

  lemma {:induction false} SmallerTransitive(a: Name, b: Name, c: Name)
    requires Smaller(a, b) && Smaller(b, c)
    ensures Smaller(a, c)
    decreases a
  {
    if a != [] && a[0] == b[0] == c[0] { SmallerTransitive(a[1..], b[1..], c[1..]); }
  }

  lemma {:induction false} SmallerTotal(a: Name, b: Name)
    ensures !(Smaller(a, b) && Smaller(b, a)) && (a == b <==> !Smaller(a, b) && !Smaller(b, a))
    decreases a
  {
    if a != [] && b != [] {
      SmallerTotal(a[1..], b[1..]);
      assert a == b <==> a[0] == b[0] && a[1..] == b[1..] by {
        assert a == [a[0]] + a[1..] && b == [b[0]] + b[1..];
      }
    }
  }

  /** Where an entry belongs: by hash, and by name among equal hashes. */
  datatype Place = Place(key: nat, name: Name)

  predicate Before(a: Place, b: Place) {
    a.key < b.key || (a.key == b.key && Smaller(a.name, b.name))
  }

  lemma BeforeOrder(a: Place, b: Place, c: Place)
    ensures Before(a, b) && Before(b, c) ==> Before(a, c)
    ensures !(Before(a, b) && Before(b, a)) && (a == b <==> !Before(a, b) && !Before(b, a))
  {
    SmallerTotal(a.name, b.name);
    if Before(a, b) && Before(b, c) && a.key == b.key == c.key { SmallerTransitive(a.name, b.name, c.name); }
  }

  // ---------------------------------------------------------------- the file system's part

  datatype Info = Info(uniq: int, isDir: bool, mtime: int, size: int)

  /** What the system calls of one request answer, if they are made: stat by name, open, and stat by
    * descriptor.  err is the error number of a call that fails. */
  datatype Replies = Replies(stat: Option<Info>, fd: int, fstat: Option<Info>, err: int)

  /** What the caller asks for: 0 is any file; errors says whether errors are to be cached. */
  datatype Request = Request(uniq: int, valid: int, minUses: nat, errors: bool, testDir: bool)

  datatype Opened = Opened(ok: bool, fd: int, err: int, info: Info)

  /** Errors are cached at the caller's request. */
  predicate Lasting(o: Opened, q: Request) {
    o.ok || (o.err != 0 && q.errors)
  }

  const NOTHING := Info(0, false, 0, 0)

  /** The outcome of ngx_open_and_stat_file: with a descriptor at hand the file is opened anew only if the
    * name now stands for another file. */
  function OpenedBy(fd: int, uniq: int, testDir: bool, r: Replies): Opened {
    if fd != INVALID && r.stat.None? then Opened(false, INVALID, r.err, NOTHING)
    else if fd != INVALID && r.stat.value.uniq == uniq then Opened(true, fd, 0, r.stat.value)
    else if fd == INVALID && testDir && r.stat.None? then Opened(false, INVALID, r.err, NOTHING)
    else if fd == INVALID && testDir && r.stat.value.isDir then Opened(true, INVALID, 0, r.stat.value)
    else if r.fd == INVALID then Opened(false, INVALID, r.err, NOTHING)
    else if r.fstat.None? then Opened(false, INVALID, 0, NOTHING)
    else Opened(true, if r.fstat.value.isDir then INVALID else r.fd, 0, r.fstat.value)
  }

  datatype Kept = Kept(out: multiset<int>, err: int, info: Info)

  class File {
    const key: nat
    const name: Name
    var created: int
    var accessed: int
    var fd: int
    var uniq: int
    var mtime: int
    var size: int
    var err: int
    var uses: nat
    var count: nat
    var close: bool
    var isDir: bool
    /** The descriptors handed out and not given back. */
    ghost var out: multiset<int>

    /** The other fields of a new entry are whatever the memory held. */
    constructor (key: nat, name: Name)
      ensures this.key == key && this.name == name && uses == 1 && count == 0 && out == multiset{}
    {
      this.key, this.name := key, name;
      uses, count, out := 1, 0, multiset{};
    }

    function At(): Place { Place(key, name) }

    /** Whether something is cached; otherwise the file was not used often enough to stay open. */
    predicate Filled()
      reads this
    {
      fd != INVALID || err != 0 || isDir
    }

    /** What a caller is given. */
    ghost function Handed(): multiset<int>
      reads this
    {
      if err == 0 && !isDir then multiset{fd} else multiset{}
    }

    /** What the file system answers when the entry is opened or compared. */
    function Asked(q: Request, r: Replies): Opened
      reads this
    {
      if Filled() then OpenedBy(fd, uniq, q.testDir || isDir, r) else OpenedBy(INVALID, q.uniq, q.testDir, r)
    }

    /** What is cached about the file. */
    function Known(): Info
      reads this
    {
      Info(uniq, isDir, mtime, size)
    }

    /** What a request for another name leaves alone. */
    ghost function Keeps(): Kept
      reads this
    {
      Kept(out, err, Known())
    }

    /** What is cached is what the system has answered: of the file that is opened, what its descriptor says; of
      * one that is open already, under that descriptor, what its name says. */
    ghost predicate Learnt(was: int, r: Replies)
      reads this
    {
      if err != 0 then err == r.err && fd == INVALID
      else if fd == INVALID then isDir && (r.stat == Some(Known()) || r.fstat == Some(Known()))
      else if fd == was then r.stat == Some(Known())
      else fd == r.fd && r.fstat == Some(Known())
    }

    /** The entry holds what has been opened. */
    ghost predicate Took(o: Opened, now: int)
      reads this
    {
      fd == o.fd && err == o.err && created == now && (o.err == 0 ==> Known() == o.info)
    }

    /** What has been opened is what is cached, or no file is cached. */
    predicate Agrees(o: Opened)
      reads this
    {
      fd == INVALID || err != 0 || isDir || (o.err == 0 && !o.info.isDir && o.info.uniq == uniq)
    }

    predicate Current(q: Request, now: int)
      reads this
    {
      (q.uniq == 0 || q.uniq == uniq) && now - created < q.valid
    }

    /** What is known is new, or as young as the request allows and under the number it asks for. */
    predicate Fresh(q: Request, now: int)
      reads this
    {
      created == now || (now - created < q.valid && (q.uniq == 0 || q.uniq == uniq))
    }

    lemma Asks(q: Request) returns (was: int, uniq: int, testDir: bool)
      ensures was == fd && forall r :: Asked(q, r) == OpenedBy(was, uniq, testDir, r)
    {
      was, uniq, testDir := fd, if Filled() then this.uniq else q.uniq, q.testDir || (Filled() && isDir);
    }

    predicate Retested(q: Request, now: int)
      reads this
    {
      Filled() && !Current(q, now)
    }

    /** The name now stands for a directory with the number of the file that is open. */
    predicate Reused(q: Request, r: Replies, now: int)
      reads this
    {
      Retested(q, now) && fd != INVALID && r.stat.Some? && r.stat.value.uniq == uniq && r.stat.value.isDir
    }

    /** The name stands for another file, but for the file that is open again by the time it is opened. */
    predicate Raced(q: Request, r: Replies, now: int)
      reads this
    {
      && Retested(q, now) && fd != INVALID && r.stat.Some? && r.stat.value.uniq != uniq
      && r.fd != INVALID && r.fstat.Some? && !r.fstat.value.isDir && r.fstat.value.uniq == uniq
    }

    method Write(o: Opened, now: int)
      modifies `fd, `err, `uniq, `mtime, `size, `close, `isDir, `count, `out, `created
      ensures fd == o.fd && err == o.err && created == now
      ensures o.err == 0 ==> Known() == o.info && !close
      ensures if o.err == 0 && !o.info.isDir then count == old(count) + 1 && out == old(out) + multiset{o.fd}
              else count == old(count) && out == old(out)
    {
      fd, err := o.fd, o.err;
      if o.err == 0 {
        uniq, mtime, size := o.info.uniq, o.info.mtime, o.info.size;
        close := false;
        isDir := o.info.isDir;
        if !o.info.isDir {
          count := count + 1;
          out := out + multiset{o.fd};
        }
      }
      created := now;
    }

    ghost function Snap(): Rec
      reads this
    {
      Rec(fd, err, isDir, close, count, out)
    }
  }

  /** A queue with an entry, if there is one, put in front. */
  function Behind(e: File?, q: seq<File>): seq<File> { if e == null then q else [e] + q }

  /** What is kept of an entry in the queue. */
  datatype Mark = Mark(fd: int, accessed: int)

  ghost predicate SortedFiles(s: seq<File>) {
    forall i, j :: 0 <= i < j < |s| ==> Before(s[i].At(), s[j].At())
  }

  class Cache {
    const max: nat
    const inactive: int
    const hash: Name -> nat
    /** The entries in the order of the search tree. */
    var tree: seq<File>
    /** The queue, the last used entry first. */
    var expire: seq<File>
    var current: int
    /** The descriptors the cache has opened and not closed. */
    var open: set<int>
    ghost var parted: set<File>
    ghost var lost: set<int>

    ghost function Live(): set<File>
      reads this
    {
      Elements(tree) + parted
    }

    /** The entries with users. */
    ghost function Users(): set<File>
      reads this, Live()
    {
      set f | f in Live() && f.count > 0
    }

    ghost function Now(): View<File>
      reads this, Live()
    {
      View(tree, expire, parted, map f | f in Live() :: f.Snap(), open, lost)
    }

    ghost predicate Indexed()
      reads this
    {
      && SortedFiles(tree) && current == |tree|
      && forall f :: f in tree ==> f.key == hash(f.name)
    }

    ghost predicate Valid()
      reads this, Live()
    {
      Good(Now(), {}, {}) && Indexed() && (max > 0 ==> current <= max)
    }

    /** The queue runs from the last used entry to the least recently used one. */
    ghost predicate Recent(now: int)
      reads this, expire
    {
      && (forall f :: f in expire ==> f.accessed <= now)
      && (forall i, j :: 0 <= i < j < |expire| ==> expire[i].accessed >= expire[j].accessed)
    }

    constructor (max: nat, inactive: int, hash: Name -> nat)
      ensures Valid() && Live() == {} && tree == expire == [] && open == lost == {} && this.max == max
        && this.inactive == inactive && this.hash == hash
    {
      this.max, this.inactive, this.hash := max, inactive, hash;
      tree, expire, current, open, parted, lost := [], [], 0, {}, {}, {};
    }

    /** A descent through a search tree whose shape is unknown: at each node one of the entries that are
      * still possible is compared. */
    method Lookup(name: Name, key: nat) returns (file: File?)
      requires Indexed() && key == hash(name)
      ensures file != null ==> file in tree && file.name == name
      ensures file == null ==> forall f :: f in tree ==> f.name != name
    {
      var lo: nat, hi: nat := 0, |tree|;
      while lo < hi
        invariant lo <= hi <= |tree|
        invariant forall i :: 0 <= i < lo ==> Before(tree[i].At(), Place(key, name))
        invariant forall i :: hi <= i < |tree| ==> Before(Place(key, name), tree[i].At())
      {
        var node: nat :| lo <= node < hi;
        var f := tree[node];
        BeforeOrder(Place(key, name), f.At(), f.At());
        if key < f.key || (key == f.key && Smaller(name, f.name)) {
          AllBehind(tree, node, Place(key, name));
          hi := node;
        } else if key > f.key || name != f.name {
          AllInFront(tree, node, Place(key, name));
          lo := node + 1;
        } else {
          return f;
        }
      }
      file := null;
      forall f | f in tree ensures f.name != name {
        var i :| 0 <= i < |tree| && tree[i] == f;
        BeforeOrder(Place(key, name), f.At(), f.At());
      }
    }

    method Find(name: Name) returns (file: File?)
      requires Valid()
      ensures Valid() && Live() == old(Live()) && Users() == old(Users())
      ensures file != null ==> file in tree && file.name == name
      ensures file == null ==> forall f :: f in tree ==> f.name != name
    {
      hide Good, SortedFiles, Before;
      file := Lookup(name, hash(name));
    }

    /** The descent of ngx_open_file_cache_rbtree_insert_value. */
    method Position(file: File) returns (lo: nat)
      requires Indexed() && forall f :: f in tree ==> f.name != file.name
      ensures lo <= |tree|
      ensures forall i :: 0 <= i < lo ==> Before(tree[i].At(), file.At())
      ensures forall i :: lo <= i < |tree| ==> Before(file.At(), tree[i].At())
    {
      lo := 0;
      var hi: nat := |tree|;
      while lo < hi
        invariant lo <= hi <= |tree|
        invariant forall i :: 0 <= i < lo ==> Before(tree[i].At(), file.At())
        invariant forall i :: hi <= i < |tree| ==> Before(file.At(), tree[i].At())
      {
        var node: nat :| lo <= node < hi;
        var temp := tree[node];
        assert temp in tree && temp.name != file.name;
        BeforeOrder(file.At(), temp.At(), temp.At());
        if file.key < temp.key || (file.key == temp.key && Smaller(file.name, temp.name)) {
          AllBehind(tree, node, file.At());
          hi := node;
        } else {
          AllInFront(tree, node, file.At());
          lo := node + 1;
        }
      }
    }

    /** ngx_rbtree_insert. */
    method TreeInsert(file: File) returns (k: nat)
      requires Indexed() && file.key == hash(file.name) && forall f :: f in tree ==> f.name != file.name
      modifies this`tree, this`current
      ensures Indexed() && k <= |old(tree)| && tree == old(tree[..k] + [file] + tree[k..])
    {
      k := Position(file);
      ghost var was := tree;
      tree, current := tree[..k] + [file] + tree[k..], current + 1;
      assert forall i :: 0 <= i < |tree| ==> tree[i] == if i < k then was[i] else if i == k then file else was[i - 1];
    }

    /** ngx_rbtree_delete. */
    method TreeDelete(file: File)
      requires Indexed() && file in tree
      modifies this`tree, this`current
      ensures Indexed() && tree == Without(old(tree), file) && current == old(current) - 1
    {
      var k := IndexOf(tree, file);
      ghost var was := tree;
      tree, current := tree[..k] + tree[k + 1..], current - 1;
      assert forall i :: 0 <= i < |tree| ==> tree[i] == was[if i < k then i else i + 1];
    }

    method CloseFile(fd: int)
      requires fd in open
      modifies this`open
      ensures open == old(open) - {fd}
    {
      open := open - {fd};
    }

    lemma Shows(v: View<File>)
      requires v == Now()
      ensures v.tree == tree && v.expire == expire && v.parted == parted && v.open == open && v.lost == lost
      ensures v.recs.Keys == Live() && forall f :: f in Live() ==> v.recs[f] == f.Snap()
    {
    }

    lemma ShowsIf(v: View<File>)
      requires v.tree == tree && v.expire == expire && v.parted == parted && v.open == open && v.lost == lost
      requires v.recs.Keys == Live() && forall f :: f in Live() ==> v.recs[f] == f.Snap()
      ensures v == Now()
    {
    }

    /** ngx_queue_remove. */
    method QueueRemove(file: File, ghost now: int)
      requires file in expire
      modifies this`expire
      ensures expire == Without(old(expire), file) && (old(Recent(now)) ==> Recent(now))
    {
      WithoutAt(expire, file);
      hide Without, IndexOf;
      expire := Without(expire, file);
    }

    /** ngx_queue_insert_head, with the time of the last use. */
    method QueueInsertHead(file: File, now: int)
      modifies this`expire, file`accessed
      ensures expire == [file] + old(expire) && file.accessed == now
      ensures file !in old(expire) && old(Recent(now)) ==> Recent(now)
    {
      file.accessed := now;
      expire := [file] + expire;
    }

    lemma InQueueToo(file: File, held: set<int>)
      requires Good(Now(), {}, held) && file in tree
      ensures file in expire && file !in Without(expire, file)
        && Elements([file] + Without(expire, file)) == Elements(expire)
    {
      ToFront(Now(), file, held);
      WithoutMembers(expire, file);
      var e := [file] + Without(expire, file);
      assert forall g :: g in e <==> g == file || g in Without(expire, file);
    }

    /** The entry moves to the front of the queue. */
    method Touch(file: File, now: int, ghost held: set<int>)
      requires Good(Now(), {}, held) && file in tree
      modifies this`expire, file`accessed
      ensures Good(Now(), {}, held) && file.accessed == now
      ensures old(file in expire) && expire == [file] + Without(old(expire), file)
      ensures Elements(expire) == old(Elements(expire)) && (old(Recent(now)) ==> Recent(now))
    {
      hide Good, Without, Now, SortedFiles, IndexOf, Recent;
      ghost var v := Now();
      Shows(v);
      InQueueToo(file, held);
      ToFront(v, file, held);
      QueueRemove(file, now);
      QueueInsertHead(file, now);
      ShowsIf(v.(expire := [file] + Without(v.expire, file)));
    }

    method CloseIdleFile(file: File, ghost held: set<int>)
      requires Good(Now(), {}, held) && file in tree && file.count == 0 && file.fd != INVALID
      modifies this`open, file`fd
      ensures Good(Now(), {}, held) && file.fd == INVALID && open == old(open) - {old(file.fd)}
    {
      hide Good, Now, SortedFiles;
      ghost var v := Now();
      Shows(v);
      v := CloseIdle(v, file, held);
      CloseFile(file.fd);
      file.fd := INVALID;
      ShowsIf(v);
    }

    method FreePartedFile(file: File, ghost held: set<int>)
      requires Good(Now(), {file}, held) && file in parted && file.count == 0
      modifies this`open, this`parted, file`fd
      ensures Good(Now(), {}, held) && file.fd == INVALID && open == old(open) - {old(file.fd)}
        && parted == old(parted) - {file}
      ensures file !in tree
    {
      hide Good, Now, SortedFiles;
      ghost var v := Now();
      Shows(v);
      InRecs(v, file, {file}, held);
      FreeParted(v, file, held);
      if file.fd != INVALID {
        CloseFile(file.fd);
        file.fd := INVALID;
      }
      assert open == v.open - {v.recs[file].fd};
      parted := parted - {file};
      ShowsIf(v.(parted := parted, recs := v.recs - {file}, open := open));
    }

    lemma StaysParted(file: File, held: set<int>)
      requires Good(Now(), {file}, held) && file in parted && file.count > 0
      ensures Good(Now(), {}, held)
    {
      StayParted(Now(), file, held);
    }

    lemma KnownOf(file: File, held: set<int>)
      requires Good(Now(), if file in parted then {file} else {}, held)
      ensures file in parted ==> file !in tree
      ensures INVALID !in open
    {
      Ends(Now(), file, if file in parted then {file} else {}, held);
      InRecs(Now(), file, if file in parted then {file} else {}, held);
    }

    /** What is left to do when a user of the entry is gone or the entry has been expired. */
    method CloseCachedFile(file: File, minUses: nat, now: int, ghost held: set<int>)
      requires Good(Now(), if file in parted then {file} else {}, held) && file in Live()
        && (file.close <==> file in parted)
      modifies this`expire, this`open, this`parted, file`accessed, file`fd
      ensures Good(Now(), {}, held)
      ensures var closes := file.count == 0 && (old(file.close) || file.uses < minUses);
        && file.fd == (if closes then INVALID else old(file.fd))
        && open == old(open) - (if closes then {old(file.fd)} else {})
      ensures old(Indexed()) ==> Indexed()
      ensures old(Users()) <= Users() && Live() <= old(Live()) && (file.count > 0 ==> file in Users())
      ensures file in Live() <==> !(old(file.close) && file.count == 0)
      ensures Elements(expire) == old(Elements(expire)) && (old(Recent(now)) ==> Recent(now))
      ensures if old(file.close) then
          && expire == old(expire) && file.accessed == old(file.accessed)
          && parted == old(parted) - (if file.count == 0 then {file} else {})
        else
          && old(file in expire) && expire == [file] + Without(old(expire), file)
          && file.accessed == now && parted == old(parted)
    {
      hide Good, Without, Now, SortedFiles;
      KnownOf(file, held);
      if !file.close {
        Touch(file, now, held);
        if file.uses >= minUses || file.count > 0 { return; }
      }
      if file.count > 0 {
        StaysParted(file, held);
        return;
      }
      if file.close {
        FreePartedFile(file, held);
      } else if file.fd != INVALID {
        CloseIdleFile(file, held);
      }
    }

    method Unqueue(file: File, ghost now: int, ghost held: set<int>)
      requires Good(Now(), {}, held) && file in tree
      modifies this`expire
      ensures Good(Now(), {file}, held) && old(file in expire) && expire == Without(old(expire), file)
      ensures Live() == old(Live()) && old(Users()) <= Users() && (old(Recent(now)) ==> Recent(now))
      ensures old(Indexed()) ==> Indexed()
    {
      hide Good, Without, Now, SortedFiles, Recent;
      ghost var v := Now();
      Shows(v);
      SetAside(v, file, held);
      QueueRemove(file, now);
      ShowsIf(v.(expire := expire));
    }

    /** Everything but one entry of the tree that is being worked on. */
    ghost function Rest(file: File): View<File>
      requires file in tree
      reads this, Live()
    {
      View(Without(tree, file), expire, parted, map f | f in Live() && f != file :: f.Snap(), open, lost)
    }

    ghost predicate Apart(file: File, held: set<int>)
      reads this, Live()
    {
      file in tree && Good(Rest(file), {}, held)
    }

    lemma RestIf(v: View<File>, file: File)
      requires file in tree && v.tree == Without(tree, file)
      requires v.expire == expire && v.parted == parted && v.open == open && v.lost == lost
      requires v.recs.Keys == Live() - {file} && forall f :: f in Live() && f != file ==> v.recs[f] == f.Snap()
      ensures v == Rest(file)
    {
    }

    lemma RestShows(v: View<File>, file: File)
      requires file in tree && v == Rest(file)
      ensures v.tree == Without(tree, file)
      ensures v.expire == expire && v.parted == parted && v.open == open && v.lost == lost
      ensures v.recs.Keys == Live() - {file} && forall f :: f in Live() && f != file ==> v.recs[f] == f.Snap()
    {
    }

    /** An entry that has left the queue is taken out; its descriptor is in the caller's hands. */
    lemma Isolate(file: File, held: set<int>)
      requires Good(Now(), {file}, held) && file in tree
      ensures Apart(file, held + Only(file.fd)) && Fine(file.Snap()) && file.fd !in held && file !in parted
      ensures forall d :: d in file.out ==> d == file.fd || d in lost
    {
      var v := Now();
      Shows(v);
      DropAside(v, file, held);
      RestIf(v.(tree := Without(v.tree, file), recs := v.recs - {file}), file);
    }

    /** It leaves the tree. */
    method Withdraw(file: File, ghost now: int, ghost held: set<int>)
      requires Apart(file, held) && Indexed()
      modifies this`tree, this`current
      ensures Good(Now(), {}, held) && Indexed() && tree == Without(old(tree), file) && current == old(current) - 1
      ensures old(Users()) - {file} <= Users() && Live() == old(Live()) - {file} && (old(Recent(now)) ==> Recent(now))
      ensures forall f :: f in tree ==> old(f in tree) && f != file
    {
      hide Good, Without, Now, Rest, SortedFiles;
      ghost var v := Rest(file);
      RestShows(v, file);
      AllBut(tree, file);
      TreeDelete(file);
      KeysOf(v, {}, held);
      ShowsIf(v);
    }

    method MarkParted(file: File, ghost now: int)
      modifies this`parted, file`close
      ensures file.close && parted == old(parted) + {file} && (old(Recent(now)) ==> Recent(now))
    {
      file.close := true;
      parted := parted + {file};
    }

    /** An entry that has left the tree stays with its users, if there are any. */
    method Part(file: File, ghost now: int, ghost held: set<int>)
      requires Good(Now(), {}, held) && file !in Live() && Fine(file.Snap()) && (file.fd == INVALID || file.fd in held)
      requires forall d :: d in file.out ==> d == file.fd || d in lost
      modifies this`parted, file`close
      ensures Good(Now(), {file}, held - {file.fd}) && file.close && parted == old(parted) + {file}
      ensures old(Recent(now)) ==> Recent(now)
    {
      hide Good, Now, Recent;
      ghost var v, live := Now(), Live();
      Shows(v);
      MarkParted(file, now);
      assert Live() == live + {file};
      ghost var w := Linger(v, file, file.Snap(), held);
      forall f | f in live ensures w.recs[f] == f.Snap() { assert v.recs[f] == old(f.Snap()); }
      ShowsIf(w);
    }

    lemma Tail(held: set<int>)
      requires Good(Now(), {}, held) && expire != []
      ensures expire[|expire| - 1] in tree && Without(expire, expire[|expire| - 1]) == expire[..|expire| - 1]
    {
      InQueue(Now(), expire[|expire| - 1], held);
      LastOut(Now(), held);
    }

    /** The entry at the end of the queue is expired. */
    method ExpireLast(now: int, ghost held: set<int>) returns (file: File)
      requires Good(Now(), {}, held) && Indexed() && expire != []
      modifies this`tree, this`current, this`expire, this`open, this`parted
      modifies Last(expire)`close, Last(expire)`fd, Last(expire)`accessed
      ensures Good(Now(), {}, held) && Indexed() && file == old(expire[|expire| - 1])
      ensures expire == old(expire[..|expire| - 1]) && old(file in tree) && tree == Without(old(tree), file)
      ensures current == old(current) - 1 && Marks(expire) == old(Marks(expire))[..|expire|]
      ensures parted == old(parted) + if file.count > 0 then {file} else {}
      ensures open <= old(open) && old(Live()) - {file} <= Live() <= old(Live()) && old(Users()) <= Users()
      ensures forall f :: f in tree ==> old(f in tree) && f != file
      ensures old(Recent(now)) ==> Recent(now)
    {
      hide Good, Without, Now, Indexed, Live, Users, Recent;
      Tail(held);
      LastApart(held);
      MarksBefore(expire);
      file := expire[|expire| - 1];
      Discard(file, now, held);
    }

    /** An entry leaves the queue and the tree; its descriptor is in the caller's hands. */
    method TakeOut(file: File, ghost now: int, ghost held: set<int>)
      requires Good(Now(), {}, held) && Indexed() && file in tree
      modifies this`tree, this`current, this`expire
      ensures Good(Now(), {}, held + Only(file.fd)) && Fine(file.Snap()) && file.fd !in held && file !in Live()
      ensures forall d :: d in file.out ==> d == file.fd || d in lost
      ensures Indexed() && current == old(current) - 1 && tree == Without(old(tree), file)
      ensures old(file in expire) && expire == Without(old(expire), file)
      ensures Live() == old(Live()) - {file} && old(Users()) - {file} <= Users() && (old(Recent(now)) ==> Recent(now))
      ensures forall f :: f in tree ==> old(f in tree) && f != file
    {
      hide Good, Without, Now, Indexed, Live, Users, Recent, Fine, Only;
      Unqueue(file, now, held);
      Isolate(file, held);
      Withdraw(file, now, held + Only(file.fd));
    }

    /** An entry leaves the cache: it is closed, or stays with its users. */
    method Discard(file: File, now: int, ghost held: set<int>)
      requires Good(Now(), {}, held) && Indexed() && file in tree
      modifies this`tree, this`current, this`expire, this`open, this`parted, file`close, file`fd, file`accessed
      ensures Good(Now(), {}, held) && Indexed() && old(file in expire) && expire == Without(old(expire), file)
      ensures tree == Without(old(tree), file) && current == old(current) - 1 && open <= old(open)
      ensures parted == old(parted) + if file.count > 0 then {file} else {}
      ensures old(Live()) - {file} <= Live() <= old(Live()) && old(Users()) <= Users()
      ensures forall f :: f in tree ==> old(f in tree) && f != file
      ensures old(Recent(now)) ==> Recent(now)
    {
      hide Good, Without, Now, Indexed, Live, Users, Recent, Fine, Only;
      NoUser(file);
      TreeLive(file);
      TakeOut(file, now, held);
      Settle(file, now, held);
    }

    lemma MarksBefore(q: seq<File>)
      requires q != []
      ensures Marks(q[..|q| - 1]) == Marks(q)[..|q| - 1]
    {
    }

    lemma NoUser(file: File)
      ensures file.count == 0 ==> file !in Users()
    {
    }

    /** An entry that is taken out of the cache is closed, or stays with its users. */
    method Settle(file: File, now: int, ghost held: set<int>)
      requires Good(Now(), {}, held + Only(file.fd)) && file !in Live() && Fine(file.Snap()) && file.fd !in held
      requires forall d :: d in file.out ==> d == file.fd || d in lost
      modifies this`expire, this`open, this`parted, file`close, file`fd, file`accessed
      ensures Good(Now(), {}, held) && expire == old(expire) && open <= old(open)
      ensures parted == old(parted) + if file.count > 0 then {file} else {}
      ensures Live() == old(Live()) + if file.count > 0 then {file} else {}
      ensures old(Users()) + (if file.count > 0 then {file} else {}) <= Users()
      ensures (old(Indexed()) ==> Indexed()) && (old(Recent(now)) ==> Recent(now))
    {
      hide Good, Now, SortedFiles, Recent;
      assert file.fd == INVALID ==> held + Only(file.fd) == held;
      if file.err == 0 && !file.isDir {
        Part(file, now, held + Only(file.fd));
        assert held + Only(file.fd) - {file.fd} == held;
        CloseCachedFile(file, 0, now, held);
      }
    }

    function Last(e: seq<File>): File
      requires e != []
    {
      e[|e| - 1]
    }

    /** The descriptors of the entries of a queue, and when the entries were last used. */
    ghost function Marks(q: seq<File>): (m: seq<Mark>)
      reads q
      ensures |m| == |q| && forall i :: 0 <= i < |q| ==> m[i] == Mark(q[i].fd, q[i].accessed)
    {
      if q == [] then [] else [Mark(q[0].fd, q[0].accessed)] + Marks(q[1..])
    }

    /** The last k of the entries with these marks, but for the very last one if n = 0, were used too long ago. */
    ghost predicate Idle(marks: seq<Mark>, n: nat, k: nat, now: int)
      requires k <= |marks|
    {
      k == 0 || (Idle(marks, n, k - 1, now) && (n + k > 1 ==> now - marks[|marks| - k].accessed > inactive))
    }

    /** What is taken from the end of a queue with these marks: with n = 0 the last entry in any case, then up
      * to two that have been idle for too long, and no fewer. */
    ghost predicate CutFrom(marks: seq<Mark>, n: nat, k: nat, now: int) {
      && n + k <= 3 && k <= |marks| && Idle(marks, n, k, now)
      && (n + k < 3 && k < |marks| ==> n + k > 0 && now - marks[|marks| - 1 - k].accessed <= inactive)
    }

    /** A queue has these entries and marks.  The last k of them are expired, none or as many as make room; the
      * others stay as they are; and e, if there is one, goes before them. */
    ghost predicate Turned(q: seq<File>, marks: seq<Mark>, e: File?, k: nat, now: int)
      reads this`expire, q
    {
      && k <= |q| == |marks| && (k == 0 || CutFrom(marks, 0, k, now))
      && expire == Behind(e, q[..|q| - k]) && Marks(q[..|q| - k]) == marks[..|q| - k]
    }

    lemma NoneExpired(q: seq<File>, e: File?, now: int)
      requires expire == Behind(e, q)
      ensures Turned(q, Marks(q), e, 0, now)
    {
      assert q[..|q|] == q && Marks(q)[..|q|] == Marks(q);
    }

    lemma TurnedMeans(q: seq<File>, marks: seq<Mark>, k: nat, now: int)
      requires Turned(q, marks, null, k, now)
      ensures k <= |q| == |marks| && (k == 0 || CutFrom(marks, 0, k, now))
      ensures expire == q[..|q| - k] && Marks(expire) == marks[..|q| - k]
    {
    }

    lemma TurnedIf(q: seq<File>, marks: seq<Mark>, e: File?, k: nat, now: int)
      requires k <= |q| == |marks| && (k == 0 || CutFrom(marks, 0, k, now))
      requires expire == Behind(e, q[..|q| - k]) && Marks(q[..|q| - k]) == marks[..|q| - k]
      ensures Turned(q, marks, e, k, now)
    {
    }

    /** Up to two entries that have been idle for too long are expired; with n = 0 the least recently used
      * entry goes before them in any case. */
    method ExpireOld(n0: nat, now: int, ghost held: set<int>) returns (ghost k: nat)
      requires Good(Now(), {}, held) && Indexed() && n0 <= 1
      modifies this`tree, this`current, this`expire, this`open, this`parted
      modifies Elements(expire)`close, Elements(expire)`fd, Elements(expire)`accessed
      ensures Good(Now(), {}, held) && Indexed() && current == old(current) - k
      ensures open <= old(open) && old(parted) <= parted && Live() <= old(Live()) && forall f :: f in tree ==>
        old(f in tree)
      ensures old(Users()) <= Users()
      ensures CutFrom(old(Marks(expire)), n0, k, now) && k <= |old(expire)|
        && expire == old(expire)[..|old(expire)| - k]
      ensures Marks(expire) == old(Marks(expire))[..|expire|]
      ensures old(Recent(now)) ==> Recent(now)
    {
      hide Good, Now, Indexed, Live, Users, Recent, Distinct, Marks, Idle, CutFrom;
      QueueInTree(held);
      var n := n0;
      k := 0;
      ghost var marks := Marks(expire);
      IdleNone(marks, n0, now);
      while n < 3 && |expire| > 0
        invariant n == n0 + k <= 3 && k <= |marks| == |old(expire)| && expire == old(expire)[..|marks| - k]
        invariant Good(Now(), {}, held) && Indexed() && current == old(current) - k
        invariant open <= old(open) && old(parted) <= parted && Live() <= old(Live())
        invariant old(Users()) <= Users()
        invariant Idle(marks, n0, k, now)
        invariant Marks(expire) == marks[..|marks| - k]
        invariant old(Recent(now)) ==> Recent(now)
      {
        var file := expire[|expire| - 1];
        assert file.accessed == Marks(expire)[|expire| - 1].accessed == marks[|marks| - 1 - k].accessed;
        if n != 0 && now - file.accessed <= inactive {
          break;
        }
        n := n + 1;
        IdleMore(marks, n0, k, now);
        var gone := ExpireLast(now, held);
        k := k + 1;
      }
      CutHere(marks, n0, k, now);
      assert Marks(expire) == marks[..|expire|];
      QueueInTree(held);
    }

    lemma IdleNone(marks: seq<Mark>, n: nat, now: int)
      ensures Idle(marks, n, 0, now)
    {
    }

    lemma IdleMore(marks: seq<Mark>, n: nat, k: nat, now: int)
      requires k < |marks| && Idle(marks, n, k, now) && (n + k > 0 ==> now - marks[|marks| - 1 - k].accessed > inactive)
      ensures Idle(marks, n, k + 1, now)
    {
    }

    lemma CutHere(marks: seq<Mark>, n: nat, k: nat, now: int)
      requires n + k <= 3 && k <= |marks| && Idle(marks, n, k, now)
      requires n + k < 3 && k < |marks| ==> n + k > 0 && now - marks[|marks| - 1 - k].accessed <= inactive
      ensures CutFrom(marks, n, k, now)
    {
    }

    lemma LastApart(held: set<int>)
      requires Good(Now(), {}, held) && expire != []
      ensures expire[|expire| - 1] !in expire[..|expire| - 1]
    {
    }

    lemma QueueInTree(held: set<int>)
      requires Good(Now(), {}, held)
      ensures forall f :: f in expire <==> f in tree
      ensures forall f :: f in parted ==> f !in tree
      ensures (tree != [] ==> expire != []) && Distinct(expire)
    {
      if tree != [] { assert tree[0] in expire; }
    }

    /** What is handed out is open, each open descriptor that is not lost has one owner, and no two entries
      * own the same one. */
    lemma HandlesOpen(f: File)
      requires Valid() && f in Live()
      ensures f.count == |f.out| && forall d :: d in f.out ==> d in open && (d == f.fd || d in lost)
      ensures f.fd != INVALID ==> f.fd in open - lost && forall g :: g in Live() && g != f ==> g.fd != f.fd
    {
      Shows(Now());
    }

    lemma EveryDescriptorOwned(d: int)
      requires Valid() && d in open
      ensures d in lost || exists f :: f in Live() && f.fd == d
    {
      Shows(Now());
      if d !in lost {
        var f :| f in Now().recs && Now().recs[f].fd == d;
        assert f in Live() && f.fd == d;
      }
    }

    /** The tree and the queue hold the same entries, each under its own name. */
    lemma SameEntries()
      requires Valid()
      ensures forall f :: f in tree <==> f in expire
      ensures current == |tree| == |expire| && (max > 0 ==> |expire| <= max)
      ensures forall f, g :: f in tree && g in tree && f != g ==> f.name != g.name
    {
      QueueInTree({});
      SameLength(tree, expire);
      forall f, g | f in tree && g in tree && f != g ensures f.name != g.name { OthersNamed(f); }
    }

    /** What is taken from the end of the queue was not used later than what stays. */
    lemma LeastRecent(now: int, k: nat)
      requires Recent(now) && k <= |expire|
      ensures forall f, g :: f in expire[|expire| - k..] && g in expire[..|expire| - k] ==> f.accessed <= g.accessed
    {
      forall f, g | f in expire[|expire| - k..] && g in expire[..|expire| - k] ensures f.accessed <= g.accessed {
        var j :| 0 <= j < k && expire[|expire| - k..][j] == f;
        var i :| 0 <= i < |expire| - k && expire[i] == g;
        assert expire[|expire| - k + j] == f;
      }
    }

    /** A user gives an entry back. */
    method Cleanup(file: File, fd: int, minUses: nat, now: int)
      requires Valid() && file in Live() && fd in file.out
      modifies this`tree, this`current, this`expire, this`open, this`parted, file`count, file`out, file`fd, file`close,
        file`accessed
      modifies Elements(expire)`close, Elements(expire)`fd, Elements(expire)`accessed
      ensures Valid() && file.count == old(file.count) - 1 && file.out == old(file.out) - multiset{fd}
      ensures old(parted) - {file} <= parted && Live() <= old(Live()) && forall f :: f in tree ==> old(f in tree)
      ensures old(Users()) - {file} <= Users() && (file.count > 0 ==> file in Users())
      ensures old(file.close) && file.count == 0 ==> file !in Live()
      ensures inactive >= 0 ==> (old(file.fd) !in open <==> file.count == 0 && (old(file.close) || file.uses < minUses))
      ensures old(Recent(now)) ==> Recent(now)
    {
      hide Good, Now, SortedFiles, Without, Live, Users;
      OneLess(file, fd);
      KnownOf(file, {});
      CloseCachedFile(file, minUses, now, {});
      QueueInTree({});
      Trim(file, now);
      if file in Live() && file.fd != INVALID { OwnedOpen(file); }
    }

    /** What has been idle for too long is expired; what has just been used is not, as no time is so long ago
      * as not to have come yet. */
    method Trim(file: File, now: int)
      requires Good(Now(), {}, {}) && Indexed() && (file !in expire || (expire[0] == file && file.accessed == now))
      modifies this`tree, this`current, this`expire, this`open, this`parted
      modifies Elements(expire)`close, Elements(expire)`fd, Elements(expire)`accessed
      ensures Good(Now(), {}, {}) && Indexed() && current <= old(current) && open <= old(open) && old(parted) <= parted
      ensures old(Users()) <= Users() && Live() <= old(Live()) && forall f :: f in tree ==> old(f in tree)
      ensures inactive >= 0 && file in old(Live()) ==> file in Live() && file.fd == old(file.fd)
      ensures old(Recent(now)) ==> Recent(now)
    {
      hide Good, Now, SortedFiles, Users, Recent, CutFrom;
      QueueInTree({});
      ghost var marks := Marks(expire);
      var k := ExpireOld(1, now, {});
      QueueInTree({});
      if inactive >= 0 && old(file in expire) { FirstStays(marks, k, now); }
    }

    lemma FirstStays(marks: seq<Mark>, k: nat, now: int)
      requires inactive >= 0 && marks != [] && marks[0].accessed == now && CutFrom(marks, 1, k, now)
      ensures k < |marks|
    {
    }

    lemma OwnedOpen(file: File)
      requires Good(Now(), {}, {}) && file in Live() && file.fd != INVALID
      ensures file.fd in open
    {
      Shows(Now());
    }

    method OneLess(file: File, fd: int)
      requires Good(Now(), {}, {}) && file in Live() && fd in file.out
      modifies file`count, file`out
      ensures Good(Now(), if file in parted then {file} else {}, {})
      ensures file.count == old(file.count) - 1 && file.out == old(file.out) - multiset{fd}
      ensures old(Users()) - {file} <= Users() && Live() == old(Live())
      ensures (file.close <==> file in parted) && file.fd != INVALID
    {
      hide Good, Now;
      ghost var v := Now();
      Shows(v);
      assert v.recs[file] == file.Snap();
      v := ReturnOne(v, file, fd);
      file.count := file.count - 1;
      file.out := file.out - multiset{fd};
      assert v.recs[file] == file.Snap();
      assert forall f :: f in Live() && f != file ==> v.recs[f] == f.Snap();
      ShowsIf(v);
    }

    // -------------------------------------------------------------- opening

    /** Descriptors that are opened and not passed on are closed again. */
    method OpenAndStat(fd0: int, uniq: int, testDir: bool, r: Replies) returns (o: Opened)
      requires (r.fd == INVALID || r.fd !in open) && (fd0 == INVALID || fd0 in open)
      modifies this`open
      ensures o == OpenedBy(fd0, uniq, testDir, r)
      ensures open == old(open) + if o.fd == fd0 then {} else Only(o.fd)
    {
      if fd0 != INVALID {
        if r.stat.None? { return Opened(false, INVALID, r.err, NOTHING); }
        if uniq == r.stat.value.uniq { return Opened(true, fd0, 0, r.stat.value); }
      } else if testDir {
        if r.stat.None? { return Opened(false, INVALID, r.err, NOTHING); }
        if r.stat.value.isDir { return Opened(true, INVALID, 0, r.stat.value); }
      }
      if r.fd == INVALID { return Opened(false, INVALID, r.err, NOTHING); }
      open := open + {r.fd};
      if r.fstat.None? {
        CloseFile(r.fd);
        return Opened(false, INVALID, 0, NOTHING);
      }
      if r.fstat.value.isDir {
        CloseFile(r.fd);
        return Opened(true, INVALID, 0, r.fstat.value);
      }
      o := Opened(true, r.fd, 0, r.fstat.value);
    }

    /** The same with an entry taken out: the caller then holds the new descriptor. */
    method Reopen(file: File, uniq: int, testDir: bool, r: Replies, ghost now: int, ghost held: set<int>)
        returns (o: Opened)
      requires Apart(file, held) && (r.fd == INVALID || r.fd !in open) && (file.fd == INVALID || file.fd in held)
      modifies this`open
      ensures o == OpenedBy(file.fd, uniq, testDir, r)
      ensures open == old(open) + NewIn(file.fd, o) && Apart(file, held + NewIn(file.fd, o))
      ensures Live() == old(Live()) && old(Users()) <= Users()
      ensures forall d :: d in NewIn(file.fd, o) ==> d !in old(open)
      ensures (old(Recent(now)) ==> Recent(now)) && (old(Indexed()) ==> Indexed())
    {
      HeldOpen(Rest(file), held);
      hide Good, Rest, Without;
      ghost var v := Rest(file);
      RestShows(v, file);
      o := OpenAndStat(file.fd, uniq, testDir, r);
      if NewIn(file.fd, o) == {} {
        assert open == v.open && held + NewIn(file.fd, o) == held;
      } else {
        Opens(v, o.fd, held);
        v := v.(open := v.open + {o.fd});
      }
      RestIf(v, file);
    }

    method OpenNew(uniq: int, testDir: bool, r: Replies, ghost now: int) returns (o: Opened)
      requires Good(Now(), {}, {}) && (r.fd == INVALID || r.fd !in open)
      modifies this`open
      ensures Live() == old(Live()) && old(Users()) <= Users()
      ensures (old(Recent(now)) ==> Recent(now)) && (old(Indexed()) ==> Indexed())
      ensures o == OpenedBy(INVALID, uniq, testDir, r) && open == old(open) + Only(o.fd) && Good(Now(), {}, Only(o.fd))
    {
      hide Good, Now;
      ghost var v := Now();
      Shows(v);
      o := OpenAndStat(INVALID, uniq, testDir, r);
      if o.fd == INVALID {
        assert open == v.open;
      } else {
        Opens(v, o.fd, {});
        v := v.(open := v.open + {o.fd});
        assert {} + {o.fd} == Only(o.fd);
      }
      ShowsIf(v);
    }

    /** A descriptor that the caller holds is closed. */
    method CloseApart(file: File, d: int, ghost held: set<int>)
      requires Apart(file, held) && d in held
      modifies this`open
      ensures Apart(file, held - {d}) && open == old(open) - {d}
    {
      hide Good, Rest, Without;
      ghost var v := Rest(file);
      RestShows(v, file);
      Closes(v, d, held);
      CloseFile(d);
      RestIf(v.(open := v.open - {d}), file);
    }

    method CloseHeld(d: int, ghost now: int, ghost held: set<int>)
      requires Good(Now(), {}, held) && d in open
      modifies this`open
      ensures d in held ==> Good(Now(), {}, held - {d})
      ensures open == old(open) - {d} && (old(Recent(now)) ==> Recent(now))
    {
      hide Good, Now;
      ghost var v := Now();
      Shows(v);
      CloseFile(d);
      if d in held {
        Closes(v, d, held);
        ShowsIf(v.(open := v.open - {d}));
      }
    }

    ghost method Lose(file: File, d: int, held: set<int>)
      requires Apart(file, held) && d in held
      modifies this`lost
      ensures Apart(file, held - {d}) && lost == old(lost) + {d}
    {
      hide Good, Rest, Without;
      var v := Rest(file);
      RestShows(v, file);
      Loses(v, d, held);
      lost := lost + {d};
      RestIf(v.(lost := v.lost + {d}), file);
    }

    /** Whether an entry can take up what has been opened. */
    ghost predicate Sound(file: File, o: Opened, held: set<int>)
      reads this`lost, file
    {
      && file.count == |file.out| && (o.fd == INVALID || o.fd in held)
      && (if o.err == 0 && !o.info.isDir then o.fd != INVALID else o.fd == INVALID && file.count == 0)
      && forall d :: d in file.out ==> d == o.fd || d in lost
    }

    /** An entry that can stand in the cache, its descriptor being held. */
    ghost predicate Ready(file: File, held: set<int>)
      reads this`lost, file
    {
      Fine(file.Snap()) && (file.fd == INVALID || file.fd in held) && forall d :: d in file.out ==>
        d == file.fd || d in lost
    }

    /** The entry goes to the front of the queue. */
    method Requeue(file: File, now: int, ghost held: set<int>)
      requires Apart(file, held)
      modifies this`expire, file`accessed
      ensures old(Ready(file, held)) ==> Good(Now(), {}, held - {file.fd})
      ensures expire == [file] + old(expire) && file.accessed == now
      ensures file !in old(expire) && old(Recent(now)) ==> Recent(now)
    {
      hide Good, Rest, Now, Without, Recent;
      ghost var v, ready := Rest(file), Ready(file, held);
      RestShows(v, file);
      QueueInsertHead(file, now);
      if ready {
        Rejoin(v, tree, file, file.Snap(), held);
        v := v.(tree := tree, expire := [file] + v.expire, recs := v.recs[file := file.Snap()]);
        ShowsIf(v);
      }
    }

    /** The entry takes up what has been opened. */
    method Fill(file: File, o: Opened, now: int, ghost held: set<int>)
      requires Apart(file, held)
      modifies file`fd, file`err, file`uniq, file`mtime, file`size, file`close, file`isDir, file`count, file`out,
        file`created
      ensures Apart(file, held) && (old(Sound(file, o, held)) ==> Ready(file, held))
      ensures file.fd == o.fd && file.err == o.err && file.created == now
      ensures o.err == 0 ==> file.Known() == o.info && !file.close
      ensures if o.err == 0 && !o.info.isDir then file.count == old(file.count) + 1
        && file.out == old(file.out) + multiset{o.fd}
              else file.count == old(file.count) && file.out == old(file.out)
    {
      hide Good, Rest, Without, Fine;
      ghost var v := Rest(file);
      RestShows(v, file);
      ghost var was, sound := file.Snap(), Sound(file, o, held);
      file.Write(o, now);
      RestIf(v, file);
      if sound { SoundReady(was, file.Snap(), o, lost, held); }
    }

    /** What the request ends with once the entry is known. */
    method Update(file: File, o: Opened, now: int, ghost held: set<int>)
      requires Apart(file, held)
      modifies this`expire
      modifies file`fd, file`err, file`uniq, file`mtime, file`size, file`close, file`isDir, file`count, file`out
      modifies file`created, file`accessed
      ensures old(Sound(file, o, held)) ==> Good(Now(), {}, held - {o.fd})
      ensures file.count >= old(file.count) && file.out == old(file.out) + file.Handed()
      ensures expire == [file] + old(expire) && (file !in old(expire) && old(Recent(now)) ==> Recent(now))
      ensures file.fd == o.fd && file.err == o.err && file.accessed == file.created == now
      ensures file.Took(o, now) && (o.err == 0 ==> !file.close)
    {
      hide Good, Rest, Now, Without, Sound, Ready;
      Fill(file, o, now, held);
      Requeue(file, now, held);
    }

    /** A new entry in the tree, not yet in the queue. */
    method Admit(name: Name, key: nat, ghost now: int, ghost held: set<int>) returns (file: File)
      requires Good(Now(), {}, held) && Indexed() && key == hash(name) && forall f :: f in tree ==> f.name != name
      modifies this`tree, this`current
      ensures fresh(file) && file.key == key && file.name == name && file.uses == 1 && file.count == 0
        && file.out == multiset{}
      ensures Apart(file, held) && Indexed() && Live() == old(Live()) + {file} && current == old(current) + 1
      ensures old(Users()) <= Users() && (old(Recent(now)) ==> Recent(now))
    {
      hide Good, Now, Rest, SortedFiles, Without;
      ghost var v := Now();
      Shows(v);
      file := new File(key, name);
      var k := TreeInsert(file);
      InsertedThere(v.tree, tree, k, file);
      RestIf(v, file);
    }

    lemma LastGoes(marks: seq<Mark>, k: nat, now: int)
      requires CutFrom(marks, 0, k, now) && marks != []
      ensures k > 0
    {
    }

    method MakeRoom(now: int, ghost held: set<int>) returns (ghost k: nat)
      requires Good(Now(), {}, held) && Indexed() && (max > 0 ==> current <= max)
      modifies this`tree, this`current, this`expire, this`open, this`parted
      modifies Elements(expire)`close, Elements(expire)`fd, Elements(expire)`accessed
      ensures Good(Now(), {}, held) && Indexed() && (max > 0 ==> current < max) && (k > 0 ==> old(current) >= max)
      ensures Turned(old(expire), old(Marks(expire)), null, k, now)
      ensures open <= old(open) && old(parted) <= parted && Live() <= old(Live()) && forall f :: f in tree ==>
        old(f in tree)
      ensures old(Users()) <= Users()
      ensures old(Recent(now)) ==> Recent(now)
    {
      hide Good, Now, SortedFiles, Recent, CutFrom, Turned, Marks, Users;
      QueueInTree(held);
      k := 0;
      if current >= max {
        ghost var q, marks := expire, Marks(expire);
        k := ExpireOld(0, now, held);
        if max > 0 { LastGoes(marks, k, now); }
        TurnedIf(q, marks, null, k, now);
      } else {
        NoneExpired(expire, null, now);
      }
    }

    /** An entry for what has been opened; the least recently used one makes room for it.  keeper is a parted
      * entry that owns the descriptor, if the caller does not hold it. */
    method Create(name: Name, key: nat, o: Opened, now: int, room: bool, ghost held: set<int>, ghost keeper: File?)
        returns (file: File?, ghost k: nat)
      requires Good(Now(), {}, held) && Indexed() && key == hash(name) && (max > 0 ==> current <= max)
      requires (forall f :: f in tree ==> f.name != name) && (held == {} || held == Only(o.fd))
      requires o.fd == INVALID || o.fd in held
        || (keeper != null && keeper in parted && keeper.count > 0 && keeper.fd == o.fd)
      modifies this`tree, this`current, this`expire, this`open, this`parted
      modifies Elements(expire)`close, Elements(expire)`fd, Elements(expire)`accessed
      ensures Indexed() && (max > 0 ==> current <= max) && old(parted) <= parted && (old(Recent(now)) ==> Recent(now))
      ensures old(Users()) <= Users()
      ensures file != null <==> room
      ensures Turned(old(expire), old(Marks(expire)), file, k, now)
      ensures k > 0 ==> old(current) >= max
      ensures Live() <= old(Live()) + if file == null then {} else {file}
      ensures room ==> Front(file, name, now) && fresh(file) && file.Took(o, now) && file.out == file.Handed()
      ensures room ==> file.uses == 1
      ensures room && Proper(o) && (o.fd == INVALID || o.fd in held) ==> Good(Now(), {}, {})
      ensures !room ==> (forall f :: f in tree ==> f.name != name) && (o.fd == INVALID || o.fd !in open)
      ensures !room && (o.fd == INVALID || o.fd in held) ==> Good(Now(), {}, {})
    {
      hide Good, Now, Live, Users, SortedFiles, CutFrom, Turned, Marks, Front, File.Took, File.Handed;
      ghost var q, marks := expire, Marks(expire);
      QueueInTree(held);
      k := MakeRoom(now, held);
      TurnedMeans(q, marks, k, now);
      file := Enter(name, key, o, now, room, held, keeper);
      TurnedIf(q, marks, file, k, now);
    }

    method Enter(name: Name, key: nat, o: Opened, now: int, room: bool, ghost held: set<int>, ghost keeper: File?)
        returns (file: File?)
      requires Good(Now(), {}, held) && Indexed() && key == hash(name) && (max > 0 ==> current < max)
      requires (forall f :: f in tree ==> f.name != name) && (held == {} || held == Only(o.fd))
      requires o.fd == INVALID || o.fd in held
        || (keeper != null && keeper in parted && keeper.count > 0 && keeper.fd == o.fd)
      modifies this`tree, this`current, this`expire, this`open
      ensures Indexed() && (max > 0 ==> current <= max) && (old(Recent(now)) ==> Recent(now))
      ensures old(Users()) <= Users() && Live() == old(Live()) + (if file == null then {} else {file})
        && (file != null <==> room)
      ensures expire == Behind(file, old(expire)) && Marks(old(expire)) == old(Marks(expire))
      ensures room ==> Front(file, name, now) && fresh(file) && file.Took(o, now) && file.out == file.Handed()
      ensures room ==> file.uses == 1
      ensures room && Proper(o) && (o.fd == INVALID || o.fd in held) ==> Good(Now(), {}, {})
      ensures !room ==> (forall f :: f in tree ==> f.name != name) && (o.fd == INVALID || o.fd !in open)
      ensures !room && (o.fd == INVALID || o.fd in held) ==> Good(Now(), {}, {})
    {
      hide Good, Now, Recent, Rest, SortedFiles, File.Took, File.Handed;
      assert held - {o.fd} == {};
      if !room {
        if o.fd != INVALID {
          KeeperOpen(o.fd, held, keeper);
          CloseHeld(o.fd, now, held);
        }
        return null;
      }
      file := Admit(name, key, now, held);
      Update(file, o, now, held);
    }

    lemma KeeperOpen(d: int, held: set<int>, keeper: File?)
      requires Good(Now(), {}, held)
      requires d in held || (keeper != null && keeper in parted && keeper.count > 0 && keeper.fd == d)
      ensures d in open
    {
      Shows(Now());
    }

    /** The entry leaves the cache, because the file cannot be opened any more. */
    method Fail(file: File, ghost now: int)
      requires Apart(file, Only(file.fd)) && Indexed() && Fine(file.Snap())
      requires forall d :: d in file.out ==> d == file.fd || d in lost
      modifies this`tree, this`current, this`open, this`parted, file`close
      ensures Good(Now(), {}, {}) && Indexed() && current == old(current) - 1 && (old(Recent(now)) ==> Recent(now))
      ensures forall f :: f in tree ==> f.name != file.name
      ensures old(parted) <= parted && Live() <= old(Live())
      ensures old(Users()) <= Users()
    {
      hide Good, Now, SortedFiles, Rest, Without;
      OthersNamed(file);
      Withdraw(file, now, Only(file.fd));
      if file.count == 0 {
        if file.fd != INVALID {
          KeeperOpen(file.fd, {file.fd}, null);
          CloseHeld(file.fd, now, {file.fd});
        }
        assert Only(file.fd) - {file.fd} == {};
      } else {
        StayWithUsers(file, now, Only(file.fd));
        assert Only(file.fd) - {file.fd} == {};
      }
    }

    lemma TreeLive(file: File)
      ensures file in tree || file in parted ==> file in Live()
    {
    }

    /** The entry has left the tree and stays with its users. */
    method StayWithUsers(file: File, ghost now: int, ghost held: set<int>)
      requires Good(Now(), {}, held) && file !in Live() && Fine(file.Snap()) && file.count > 0 && file.fd in held
      requires forall d :: d in file.out ==> d == file.fd || d in lost
      modifies this`parted, file`close
      ensures old(Users()) + {file} <= Users() && (old(Recent(now)) ==> Recent(now))
      ensures Good(Now(), {}, held - {file.fd}) && file.close && parted == old(parted) + {file}
        && Live() == old(Live()) + {file}
    {
      hide Good, Now;
      Part(file, now, held);
      StaysParted(file, held - {file.fd});
    }

    /** The entry of that name was used last. */
    ghost predicate Front(e: File, name: Name, now: int)
      reads this, e
    {
      e in tree && e.name == name && expire != [] && expire[0] == e && e.accessed == now
    }

    lemma NotGood(f: File)
      requires f in Live() && f.fd != INVALID
      requires (f in tree && f.isDir) || f.fd !in open
      ensures !Good(Now(), {}, {})
    {
      Shows(Now());
    }

    lemma NotGoodDirectory(e: File, o: Opened, now: int)
      requires e in tree && e.Took(o, now) && o.err == 0 && o.info.isDir && o.fd != INVALID
      ensures !Good(Now(), {}, {})
    {
      TreeLive(e);
      NotGood(e);
    }

    method CountUse(file: File, ghost now: int)
      modifies file`uses
      ensures file.uses == old(file.uses) + 1 && (old(Recent(now)) ==> Recent(now))
    {
      file.uses := file.uses + 1;
    }

    /** An entry that is found counts a use and is taken out of the queue. */
    method Take(file: File, ghost now: int)
      requires Good(Now(), {}, {}) && Indexed() && file in tree
      modifies this`expire, file`uses
      ensures Apart(file, Only(file.fd)) && Fine(file.Snap()) && Indexed() && file !in parted && file !in expire
      ensures file.uses == old(file.uses) + 1
      ensures Live() == old(Live()) && old(Users()) <= Users()
      ensures Elements(expire) == old(Elements(expire)) - {file} && (old(Recent(now)) ==> Recent(now))
      ensures expire == Others(old(expire), file.name) && Marks(expire) == old(Marks(Others(expire, file.name)))
      ensures forall d :: d in file.out ==> d == file.fd || d in lost
    {
      hide Good, Without, Now, SortedFiles, Rest, Others, Recent;
      OthersHere(file);
      ghost var v := Now();
      Shows(v);
      Aside(file);
      ghost var marks := Marks(Others(expire, file.name));
      CountUse(file, now);
      ShowsIf(v);
      Unqueue(file, now, {});
      assert Marks(expire) == marks;
      Isolate(file, {});
      assert {} + Only(file.fd) == Only(file.fd);
    }

    lemma OthersHere(file: File)
      requires Good(Now(), {}, {}) && Indexed() && file in tree
      ensures file in expire && Others(expire, file.name) == Without(expire, file)
    {
      hide Good, Now, Others, Without;
      QueueInTree({});
      OthersNamed(file);
      OthersAre(expire, file.name, file);
    }

    lemma Aside(file: File)
      requires Good(Now(), {}, {}) && file in tree
      ensures file in expire && file !in Without(expire, file)
        && Elements(Without(expire, file)) == Elements(expire) - {file}
    {
      ToFront(Now(), file, {});
      WithoutMembers(expire, file);
    }

    /** An entry that is too old, or for another file than the caller wants, is compared with the file system. */
    method Retest(file: File, q: Request, r: Replies, now: int, room: bool) returns (e: File?, ghost k: nat)
      requires Apart(file, Only(file.fd)) && Indexed() && Fine(file.Snap()) && file !in parted && file !in expire
      requires (forall d :: d in file.out ==> d == file.fd || d in lost) && (max > 0 ==> current <= max)
      requires file.Retested(q, now) && (r.fd == INVALID || r.fd !in open)
      modifies this`tree, this`current, this`expire, this`open, this`parted, this`lost, file
      modifies Elements(expire)`close, Elements(expire)`fd, Elements(expire)`accessed
      ensures Indexed() && (max > 0 ==> current <= max) && (old(Recent(now)) ==> Recent(now))
      ensures Good(Now(), {}, {}) <==> !old(file.Reused(q, r, now))
      ensures lost == old(lost) + if old(file.Raced(q, r, now)) then {old(file.fd)} else {}
      ensures e != null ==> (e == file || fresh(e)) && Front(e, file.name, now)
      ensures e != null ==> e.out == (if e == file then old(file.out) else multiset{}) + e.Handed()
      ensures e != null ==> e.uses == if e == file then old(file.uses) else 1
      ensures e != file ==> file.out == old(file.out) && file.count == old(file.count)
      ensures e != file ==> file.err == old(file.err) && file.Known() == old(file.Known())
      ensures e == null ==> forall f :: f in tree ==> f.name != file.name
      ensures old(Users()) <= Users()
      ensures var o := old(OpenedBy(file.fd, file.uniq, q.testDir || file.isDir, r));
        && (e != null ==> e.Took(o, now))
        && if !Lasting(o, q) then e == null
           else if old(file.Agrees(o)) || old(file.count) == 0 then e == file else e != file && (e != null <==> room)
      ensures Turned(old(expire), old(Marks(expire)), e, k, now)
      ensures k > 0 ==> old(current) - 1 >= max
      ensures Live() <= old(Live()) + if e == null then {} else {e}
    {
      hide Good, Now, Live, Users, Recent, Indexed, Fine, Rest, Without, OpenedBy, Front, File.Took, File.Handed,
        File.Agrees, File.Current, Marks, Turned;
      ghost var rest := expire;
      RestShows(Rest(file), file);
      HeldOpen(Rest(file), Only(file.fd));
      Outcome(file.fd, file.uniq, q.testDir || file.isDir, r);
      var o := Reopen(file, file.uniq, q.testDir || file.isDir, r, now, Only(file.fd));
      if !Lasting(o, q) {
        assert Only(file.fd) + NewIn(file.fd, o) == Only(file.fd);
        Fail(file, now);
        e, k := null, 0;
        NoneExpired(rest, null, now);
      } else {
        e, k := Compare(file, o, now, room);
      }
    }

    /** What has been opened against what is cached. */
    method Compare(file: File, o: Opened, now: int, room: bool) returns (e: File?, ghost k: nat)
      requires Apart(file, Only(file.fd) + NewIn(file.fd, o)) && Indexed() && Fine(file.Snap()) && file !in expire
      requires (forall d :: d in file.out ==> d == file.fd || d in lost) && (max > 0 ==> current <= max)
      requires file.Filled() && file !in parted && if o.fd == file.fd != INVALID then o.err == 0
        && o.info.uniq == file.uniq else Proper(o)
      modifies this`tree, this`current, this`expire, this`open, this`parted, this`lost, file
      modifies Elements(expire)`close, Elements(expire)`fd, Elements(expire)`accessed
      ensures Indexed() && (max > 0 ==> current <= max) && (old(Recent(now)) ==> Recent(now))
      ensures Good(Now(), {}, {}) <==> !(o.fd == old(file.fd) != INVALID && o.info.isDir)
      ensures lost == old(lost) + if o.fd != old(file.fd) && old(file.fd) != INVALID && o.err == 0 && !o.info.isDir
        && o.info.uniq == old(file.uniq) then {old(file.fd)} else {}
      ensures e != null ==> (e == file || fresh(e)) && Front(e, file.name, now)
      ensures e != null ==> e.out == (if e == file then old(file.out) else multiset{}) + e.Handed()
      ensures e != null ==> e.uses == if e == file then old(file.uses) else 1
      ensures e != file ==> file.out == old(file.out) && file.count == old(file.count)
      ensures e != file ==> file.err == old(file.err) && file.Known() == old(file.Known())
      ensures e == null ==> forall f :: f in tree ==> f.name != file.name
      ensures old(Users()) <= Users()
      ensures e != null ==> e.Took(o, now)
      ensures old(file.Agrees(o)) || old(file.count) == 0 ==> e == file
      ensures !old(file.Agrees(o)) && old(file.count) == 0 ==> old(file.fd) !in open
      ensures !old(file.Agrees(o)) && old(file.count) > 0 ==>
        e != file && (e != null <==> room) && file in parted && file.fd == old(file.fd)
      ensures Turned(old(expire), old(Marks(expire)), e, k, now)
      ensures k > 0 ==> old(current) - 1 >= max
      ensures Live() <= old(Live()) + if e == null then {} else {e}
    {
      hide Good, Now, Live, Users, SortedFiles, Rest, Without, Turned, File.Took, File.Handed;
      ghost var rest := expire;
      if file.Agrees(o) || file.count == 0 {
        if file.Agrees(o) {
          Renew(file, o, now);
        } else {
          Replace(file, o, now);
        }
        e, k := file, 0;
        NoneExpired(rest, e, now);
      } else {
        e, k := Detach(file, o, now, room);
      }
    }

    /** The entry is still right, or was of another kind and owns nothing. */
    method Renew(file: File, o: Opened, now: int)
      requires Apart(file, Only(file.fd) + NewIn(file.fd, o)) && Indexed() && Fine(file.Snap()) && file !in expire
      requires forall d :: d in file.out ==> d == file.fd || d in lost
      requires Proper(o) && (file.fd != INVALID ==> o.fd != INVALID)
      modifies this`expire, this`lost, file
      ensures Indexed() && (old(Recent(now)) ==> Recent(now)) && Good(Now(), {}, {}) && expire == [file] + old(expire)
      ensures lost == old(lost) + if old(file.fd) != INVALID && o.fd != old(file.fd) then {old(file.fd)} else {}
      ensures Live() == old(Live()) && old(Users()) <= Users() && file.Took(o, now)
      ensures file.out == old(file.out) + file.Handed() && file.accessed == now && file.uses == old(file.uses)
    {
      hide Good, Now, SortedFiles, Rest, Without;
      ghost var held := Only(file.fd) + NewIn(file.fd, o);
      if file.fd != INVALID && o.fd != file.fd {
        Lose(file, file.fd, held);
        held := held - {file.fd};
      }
      assert held == Only(o.fd) && held - {o.fd} == {};
      Update(file, o, now, held);
    }

    /** The file has changed and nobody uses the entry: its descriptor is closed. */
    method Replace(file: File, o: Opened, now: int)
      requires Apart(file, Only(file.fd) + NewIn(file.fd, o)) && Indexed() && Fine(file.Snap()) && file !in expire
      requires file.count == 0 && file.fd != INVALID && if o.fd == file.fd then o.err == 0
        && o.info.isDir else Proper(o)
      modifies this`expire, this`open, file
      ensures Indexed() && (old(Recent(now)) ==> Recent(now)) && (Good(Now(), {}, {}) <==> o.fd != old(file.fd))
      ensures expire == [file] + old(expire) && old(file.fd) in old(open) && open == old(open) - {old(file.fd)}
      ensures Live() == old(Live()) && old(Users()) <= Users() && file.Took(o, now)
      ensures file.out == old(file.out) + file.Handed() && file.accessed == now && file.uses == old(file.uses)
    {
      hide Good, Now, SortedFiles, Rest, Without;
      var fd := file.fd;
      ghost var held := Only(fd) + NewIn(fd, o);
      RestShows(Rest(file), file);
      HeldOpen(Rest(file), held);
      CloseApart(file, fd, held);
      assert held - {fd} == if o.fd == fd then {} else Only(o.fd);
      assert held - {fd} - {o.fd} == {};
      Update(file, o, now, held - {fd});
      if o.fd == fd { NotGood(file); }
    }

    /** The file has changed while the entry is in use: it stays with its users and a new entry takes its
      * place. */
    method Detach(file: File, o: Opened, now: int, room: bool) returns (e: File?, ghost k: nat)
      requires Apart(file, Only(file.fd) + NewIn(file.fd, o)) && Indexed() && Fine(file.Snap()) && file !in expire
      requires (forall d :: d in file.out ==> d == file.fd || d in lost) && (max > 0 ==> current <= max)
      requires file.count > 0 && if o.fd == file.fd then o.err == 0 && o.info.isDir else Proper(o)
      modifies this`tree, this`current, this`expire, this`open, this`parted, file`close
      modifies Elements(expire)`close, Elements(expire)`fd, Elements(expire)`accessed
      ensures Indexed() && (max > 0 ==> current <= max) && (old(Recent(now)) ==> Recent(now))
      ensures Good(Now(), {}, {}) <==> o.fd != file.fd
      ensures file in parted && (e != null <==> room)
      ensures old(Users()) <= Users()
      ensures room ==> fresh(e) && Front(e, file.name, now) && e.Took(o, now) && e.out == e.Handed() && e.uses == 1
      ensures !room ==> forall f :: f in tree ==> f.name != file.name
      ensures Turned(old(expire), old(Marks(expire)), e, k, now)
      ensures k > 0 ==> old(current) - 1 >= max
      ensures Live() <= old(Live()) + if e == null then {} else {e}
    {
      hide Good, Now, Live, Users, SortedFiles, Rest, Without, Turned, File.Took, File.Handed;
      ghost var held := Only(file.fd) + NewIn(file.fd, o);
      OthersNamed(file);
      TreeLive(file);
      Withdraw(file, now, held);
      StayWithUsers(file, now, held);
      assert held - {file.fd} == NewIn(file.fd, o);
      e, k := Create(file.name, file.key, o, now, room, held - {file.fd}, file);
      if o.fd == file.fd {
        TreeLive(file);
        if room {
          NotGoodDirectory(e, o, now);
        } else {
          NotGood(file);
        }
      }
    }

    lemma OthersNamed(file: File)
      requires Indexed() && file in tree
      ensures file.key == hash(file.name) && forall f :: f in tree && f != file ==> f.name != file.name
    {
      var i :| 0 <= i < |tree| && tree[i] == file;
      forall f | f in tree && f != file ensures f.name != file.name {
        var j :| 0 <= j < |tree| && tree[j] == f;
        assert i != j && f.key == hash(f.name);
        if i < j { BeforeOrder(file.At(), f.At(), f.At()); } else { BeforeOrder(f.At(), file.At(), f.At()); }
      }
    }

    method AddUser(file: File, ghost now: int)
      requires Fine(file.Snap()) && file.Filled() && file !in expire && forall d :: d in file.out ==>
        d == file.fd || d in lost
      modifies file`count, file`out
      ensures Ready(file, Only(file.fd))
      ensures file.out == old(file.out) + file.Handed() && file.count == old(file.count) + |file.Handed()|
      ensures (old(Recent(now)) ==> Recent(now)) && (old(Indexed()) ==> Indexed())
    {
      if file.err == 0 && !file.isDir {
        file.count := file.count + 1;
        file.out := file.out + multiset{file.fd};
      }
    }

    /** What is cached is taken as it is. */
    method Hit(file: File, now: int)
      requires Apart(file, Only(file.fd)) && Indexed() && Fine(file.Snap()) && file.Filled() && file !in expire
      requires forall d :: d in file.out ==> d == file.fd || d in lost
      modifies this`expire, file`accessed, file`count, file`out
      ensures Good(Now(), {}, {}) && Indexed() && (old(Recent(now)) ==> Recent(now))
      ensures Live() == old(Live()) && old(Users()) <= Users()
      ensures file.out == old(file.out) + file.Handed() && Front(file, file.name, now) && expire == [file] + old(expire)
      ensures Marks(old(expire)) == old(Marks(expire))
    {
      hide Good, Now, SortedFiles, Recent, Rest, Without, Ready, Fine;
      ghost var v := Rest(file);
      RestShows(v, file);
      AddUser(file, now);
      RestIf(v, file);
      assert Only(file.fd) - {file.fd} == {};
      Requeue(file, now, Only(file.fd));
    }

    /** The entry of that name, or null if there is none. */
    ghost predicate Answers(name: Name, file: File?)
      reads this
    {
      if file == null then forall f :: f in tree ==> f.name != name else file in tree && file.name == name
    }

    ghost function Named(name: Name): set<File>
      reads this
    {
      set f | f in tree && f.name == name
    }

    /** ngx_open_cached_file; room says whether memory for a new entry is to be had.  was is the entry that is
      * found under the name, and k is how many other entries are expired to make room. */
    method OpenCachedFile(name: Name, q: Request, r: Replies, now: int, room: bool)
        returns (ok: bool, e: File?, ghost was: File?, ghost k: nat)
      requires Valid() && (r.fd == INVALID || r.fd !in open)
      modifies this`tree, this`current, this`expire, this`open, this`parted, this`lost, Named(name)
      modifies Elements(expire)`close, Elements(expire)`fd, Elements(expire)`accessed
      ensures if was == null then forall f :: f in old(tree) ==> f.name != name
              else was in old(tree) && was.name == name
      ensures Valid() <==> was == null || !old(was.Reused(q, r, now))
      ensures Indexed() && (max > 0 ==> current <= max) && (old(Recent(now)) ==> Recent(now))
      ensures lost == old(lost) + if was != null && old(was.Raced(q, r, now)) then {old(was.fd)} else {}
      ensures ok <==> e != null && e.err == 0
      ensures e != null ==> (e == was || fresh(e)) && Front(e, name, now)
      ensures e != null ==> e.out == (if e == was then old(was.out) else multiset{}) + e.Handed()
      ensures e == null ==> forall f :: f in tree ==> f.name != name
      ensures old(Users()) <= Users()
      ensures e != null ==> e.uses == if e == was then old(was.uses) + 1 else 1
      ensures was != null && was != e ==> was.out == old(was.out) && was.count == old(was.count)
      ensures was != null && was != e ==> was.err == old(was.err) && was.Known() == old(was.Known())
      ensures e != null && (was == null || !old(was.Filled() && was.Current(q, now))) ==>
        e.Learnt(if was == null then INVALID else old(was.fd), r)
      ensures was == null || !old(was.Filled() && was.Current(q, now)) ==>
        (room && r.stat.Some? && r.fd != INVALID && r.fstat.Some? ==> ok)
      ensures was != null && old(was.Filled() && was.Current(q, now)) ==>
        && e == was && k == 0 && tree == old(tree) && open == old(open)
        && was.fd == old(was.fd) && was.err == old(was.err) && was.Known() == old(was.Known())
        && was.created == old(was.created)
      ensures was == null ==>
        var o := OpenedBy(INVALID, q.uniq, q.testDir, r);
        (e != null <==> room && Lasting(o, q)) && (e != null ==> e.Took(o, now))
      ensures was != null && !old(was.Filled() && was.Current(q, now)) ==>
        var o := old(was.Asked(q, r));
        && (e != null ==> e.Took(o, now))
        && if !Lasting(o, q) then e == null
           else if old(was.Agrees(o)) || old(was.count) == 0 then e == was else e != was && (e != null <==> room)
      ensures e != null ==> e.Fresh(q, now)
      ensures was != null && old(was.Filled() && was.Fresh(q, now) && was.created < now) ==>
        e == was && open == old(open)
      ensures k > 0 && max > 0 ==> was == null
      ensures Turned(old(Others(expire, name)), old(Marks(Others(expire, name))), e, k, now)
      ensures k > 0 ==> old(current) >= max
      ensures Live() <= old(Live()) + (if e == null then {} else {e}) && fresh(Live() - old(Live()))
    {
      hide Good, Now, Live, Users, SortedFiles, Others, Turned, Front, File.Took, File.Handed, File.Agrees, File.Learnt,
        File.Fresh, OpenedBy, File.Asked, Lasting;
      ghost var marks := Marks(Others(expire, name));
      var file := Find(name);
      assert Marks(Others(expire, name)) == marks;
      was := file;
      QueueInTree({});
      if file == null {
        OthersAre(expire, name, null);
        OpensAll(INVALID, q.uniq, q.testDir, q, r);
        e, k := OpenFirst(name, q, r, now, room);
        if e != null {
          LearntFrom(e, INVALID, q.uniq, q.testDir, q, r, now);
          TookFresh(e, q, now);
        }
      } else {
        TreeLive(file);
        HandlesOpen(file);
        ghost var fd, uniq, testDir := file.Asks(q);
        ghost var hit := file.Filled() && file.Current(q, now);
        OpensAll(fd, uniq, testDir, q, r);
        e, k := OpenKnown(file, q, r, now, room);
        if e != null && !hit { LearntFrom(e, fd, uniq, testDir, q, r, now); }
      }
      ok := e != null && e.err == 0;
    }

    /** A name that is in the cache. */
    method OpenKnown(file: File, q: Request, r: Replies, now: int, room: bool) returns (e: File?, ghost k: nat)
      requires Valid() && file in tree && (r.fd == INVALID || r.fd !in open)
      modifies this`tree, this`current, this`expire, this`open, this`parted, this`lost, file
      modifies Elements(expire)`close, Elements(expire)`fd, Elements(expire)`accessed
      ensures Good(Now(), {}, {}) <==> !old(file.Reused(q, r, now))
      ensures Indexed() && (max > 0 ==> current <= max) && (old(Recent(now)) ==> Recent(now))
      ensures lost == old(lost) + if old(file.Raced(q, r, now)) then {old(file.fd)} else {}
      ensures e != null ==> (e == file || fresh(e)) && Front(e, file.name, now)
      ensures e != null ==> e.out == (if e == file then old(file.out) else multiset{}) + e.Handed()
      ensures e != null ==> e.uses == if e == file then old(file.uses) + 1 else 1
      ensures e != file ==> file.out == old(file.out) && file.count == old(file.count)
      ensures e != file ==> file.err == old(file.err) && file.Known() == old(file.Known())
      ensures e == null ==> forall f :: f in tree ==> f.name != file.name
      ensures old(Users()) <= Users()
      ensures if old(file.Filled() && file.Current(q, now)) then
          && e == file && k == 0 && tree == old(tree) && open == old(open)
          && file.fd == old(file.fd) && file.err == old(file.err) && file.Known() == old(file.Known())
          && file.created == old(file.created)
        else
          var o := old(file.Asked(q, r));
          && (e != null ==> e.Took(o, now))
          && if !Lasting(o, q) then e == null
             else if old(file.Agrees(o)) || old(file.count) == 0 then e == file else e != file && (e != null <==> room)
      ensures Turned(old(Others(expire, file.name)), old(Marks(Others(expire, file.name))), e, k, now)
      ensures k > 0 ==> old(current) - 1 >= max
      ensures Live() <= old(Live()) + if e == null then {} else {e}
      ensures e != null ==> e.Fresh(q, now)
      ensures old(file.Filled() && file.Fresh(q, now) && file.created < now) ==> e == file && open == old(open)
    {
      hide Good, Now, Live, Users, Recent, Indexed, Fine, Rest, Without, Others, OpenedBy, Turned, File.Took,
        File.Handed, Front, Lasting, Marks, File.Fresh;
      QueueInTree({});
      TookFresh(file, q, now);
      Take(file, now);
      ghost var rest := expire;
      if file.Filled() && !file.Current(q, now) {
        e, k := Retest(file, q, r, now, room);
      } else {
        if file.Filled() {
          Hit(file, now);
          e := file;
        } else {
          e := OpenAgain(file, q, r, now);
        }
        k := 0;
        NoneExpired(rest, e, now);
      }
      if e != null { TookFresh(e, q, now); }
    }

    lemma TookFresh(e: File, q: Request, now: int)
      ensures e.Current(q, now) || (exists o :: e.Took(o, now)) ==> e.Fresh(q, now)
      ensures e.Fresh(q, now) && e.created < now ==> e.Current(q, now)
    {
    }

    /** A name that is not in the cache. */
    method OpenFirst(name: Name, q: Request, r: Replies, now: int, room: bool) returns (e: File?, ghost k: nat)
      requires Valid() && (r.fd == INVALID || r.fd !in open) && forall f :: f in tree ==> f.name != name
      modifies this`tree, this`current, this`expire, this`open, this`parted
      modifies Elements(expire)`close, Elements(expire)`fd, Elements(expire)`accessed
      ensures Valid() && (old(Recent(now)) ==> Recent(now))
      ensures e != null ==> fresh(e) && Front(e, name, now) && e.out == e.Handed() && e.uses == 1
      ensures e == null ==> forall f :: f in tree ==> f.name != name
      ensures old(Users()) <= Users()
      ensures var o := OpenedBy(INVALID, q.uniq, q.testDir, r);
        (e != null <==> room && Lasting(o, q)) && (e != null ==> e.Took(o, now))
      ensures Turned(old(expire), old(Marks(expire)), e, k, now)
      ensures k > 0 ==> old(current) >= max
      ensures Live() <= old(Live()) + if e == null then {} else {e}
    {
      hide Good, Now, Live, Users, Recent, Indexed, OpenedBy, Turned, File.Took, File.Handed, Front;
      Outcome(INVALID, q.uniq, q.testDir, r);
      var o := OpenNew(q.uniq, q.testDir, r, now);
      if !Lasting(o, q) {
        e, k := null, 0;
        NoneExpired(expire, null, now);
        return;
      }
      e, k := Create(name, hash(name), o, now, room, Only(o.fd), null);
    }

    /** An entry whose file was not used often enough to stay open. */
    method OpenAgain(file: File, q: Request, r: Replies, now: int) returns (e: File?)
      requires Apart(file, Only(file.fd)) && Indexed() && Fine(file.Snap()) && !file.Filled() && file !in expire
      requires r.fd == INVALID || r.fd !in open
      modifies this`tree, this`current, this`expire, this`open, this`parted, this`lost, file
      ensures Good(Now(), {}, {}) && Indexed() && (old(Recent(now)) ==> Recent(now)) && current <= old(current)
        && lost == old(lost)
      ensures e != null ==> e == file && Front(e, file.name, now) && e.out == old(file.out) + e.Handed()
      ensures file.uses == old(file.uses)
      ensures e == null ==> file.out == old(file.out) && file.count == old(file.count)
      ensures e == null ==> file.err == old(file.err) && file.Known() == old(file.Known())
      ensures e == null ==> forall f :: f in tree ==> f.name != file.name
      ensures old(Users()) <= Users()
      ensures var o := OpenedBy(INVALID, q.uniq, q.testDir, r);
        (e != null <==> Lasting(o, q)) && (e != null ==> e.Took(o, now))
      ensures expire == Behind(e, old(expire)) && Live() <= old(Live()) && Marks(old(expire)) == old(Marks(expire))
    {
      hide Good, Now, Live, Users, SortedFiles, Rest, Without, OpenedBy;
      assert file.out == multiset{};
      Outcome(INVALID, q.uniq, q.testDir, r);
      OthersNamed(file);
      var o := Reopen(file, q.uniq, q.testDir, r, now, {});
      assert {} + NewIn(file.fd, o) == Only(file.fd) + NewIn(file.fd, o);
      assert !o.ok ==> Only(file.fd) + NewIn(file.fd, o) == Only(file.fd);
      if !Lasting(o, q) {
        Fail(file, now);
        return null;
      }
      Renew(file, o, now);
      e := file;
    }

    lemma Stray(d: int)
      requires Valid() && d in lost
      ensures d in open && forall f :: f in Live() ==> f.fd != d
    {
      Shows(Now());
      forall f | f in Live() ensures f.fd != d { assert d != INVALID; }
    }

    lemma OnlyOne(e: File)
      requires Valid() && Live() <= {e} && e in tree && lost == {} && e.fd != INVALID
      ensures tree == [e] && Live() == {e} && open == {e.fd}
    {
      SameEntries();
      Shows(Now());
      assert forall f :: f in tree ==> f == e;
      SameLength(tree, [e]);
      forall d | d in open ensures d == e.fd { EveryDescriptorOwned(d); }
      HandlesOpen(e);
    }

    // -------------------------------------------------------------- runs

    /** What the callers have is what the entries count as handed out. */
    ghost predicate Owed(held: seq<Handle>)
      reads this, Live()
    {
      && (forall h :: h in held ==> h.file in Live())
      && forall f :: f in Live() ==> f.out == GivenBy(held, f)
    }

    /** What holds whenever no request is being served. */
    lemma Steady(held: seq<Handle>)
      requires Valid() && Owed(held)
      ensures forall f :: f in Live() ==> f.count == |GivenBy(held, f)|
      ensures forall h :: h in held ==> h.fd in open && h.file in Live() && h.file.count > 0
      ensures forall f :: f in parted ==> exists h :: h in held && h.file == f
    {
      forall f | f in Live() ensures f.count == |GivenBy(held, f)| { HandlesOpen(f); }
      forall h | h in held ensures h.fd in open && h.file.count > 0 {
        var i :| 0 <= i < |held| && held[i] == h;
        GivenIn(held, i);
        HandlesOpen(h.file);
        OutLess(h.file.out, h.fd);
      }
      forall f | f in parted ensures exists h :: h in held && h.file == f {
        PartedUsed(f);
        if forall h :: h in held ==> h.file != f { NoneGiven(held, f); }
      }
    }

    lemma OwedMeans(held: seq<Handle>)
      requires Valid() && Owed(held)
      ensures forall h :: h in held ==> h.file in Users() && h.file in Live()
      ensures forall f :: f in Live() ==> f.out == GivenBy(held, f)
    {
      Steady(held);
    }

    lemma UsersLive()
      ensures Users() <= Live()
    {
    }

    lemma PartedUsed(f: File)
      requires Valid() && f in parted
      ensures f in Live() && f.count == |f.out| > 0
    {
      Shows(Now());
    }

    /** Every entry without an error carries what was taken last for its name. */
    ghost predicate Reported(log: seq<Taken>)
      reads this, tree
    {
      forall f :: f in tree && f.err == 0 ==> LastTaken(log, f.name) == Some(f.Known())
    }

    /** A request to open, unless it is one of those that spoil the cache; no reply can name a descriptor that
      * is open. */
    method ServeOpen(name: Name, q: Request, r: Replies, now: int, room: bool, held0: seq<Handle>,
        ghost log0: seq<Taken>)
        returns (held: seq<Handle>, ghost log: seq<Taken>)
      requires Valid() && Owed(held0) && Reported(log0)
      modifies this, Live()
      ensures Valid() && Owed(held) && Reported(log) && fresh(Live() - old(Live()))
      ensures log == log0 || exists t :: log == log0 + [t] && Says(Open(name, q, r, now, room), t)
    {
      hide Good, Now, Indexed, GivenBy, LastTaken;
      held, log := held0, log0;
      var file := Find(name);
      if (r.fd == INVALID || r.fd !in open) && (file == null || !file.Reused(q, r, now)) {
        ghost var t;
        held, t := Grant(name, q, r, now, room, held, log0, file);
        log := log0 + t;
        assert t == [] ==> log == log0;
      }
    }

    method Grant(name: Name, q: Request, r: Replies, now: int, room: bool, held0: seq<Handle>, ghost log0: seq<Taken>,
        ghost file: File?)
        returns (held: seq<Handle>, ghost t: seq<Taken>)
      requires Valid() && Owed(held0) && Reported(log0) && (r.fd == INVALID || r.fd !in open)
      requires Answers(name, file) && (file != null ==> !file.Reused(q, r, now))
      modifies this, Live()
      ensures Valid() && Owed(held) && Reported(log0 + t) && fresh(Live() - old(Live()))
      ensures t == [] || (|t| == 1 && Says(Open(name, q, r, now, room), t[0]))
    {
      hide Good, Now, Indexed, Recent, Live, Users, File.Handed, GivenBy, Owed, Others, LastTaken, Says, Valid, Answers;
      ghost var users, others := Users(), Others(expire, name);
      ghost var was: map<File, Kept> := LiveKeeps();
      BeforeGrant(held0, log0, name, was);
      var ok, e;
      ghost var hit;
      ok, e, hit := AskFor(name, q, r, now, room, was, file);
      var gift := if ok && !e.isDir then [Handle(e, e.fd)] else [];
      held := held0 + gift;
      if e != null { GiftOf(e); }
      OwedAgain(held0, gift, was, users, e);
      t := if ok && !hit then [Taken(name, e.Known())] else [];
      ReportedAgain(log0, t, was, others, e, name);
    }

    ghost function LiveKeeps(): (was: map<File, Kept>)
      reads this, Live()
      ensures was.Keys == Live() && forall f :: f in Live() ==> was[f] == f.Keeps()
    {
      map f | f in Live() :: f.Keeps()
    }

    /** What a request leaves alone, and what it learns. */
    method AskFor(name: Name, q: Request, r: Replies, now: int, room: bool, ghost was: map<File, Kept>,
        ghost file: File?)
        returns (ok: bool, e: File?, ghost hit: bool)
      requires Valid() && (r.fd == INVALID || r.fd !in open) && was == LiveKeeps()
      requires Answers(name, file) && (file != null ==> !file.Reused(q, r, now))
      modifies this, Live()
      ensures Valid() && old(Users()) <= Users() && fresh(Live() - old(Live()))
      ensures Live() <= was.Keys + (if e == null then {} else {e}) && (ok <==> e != null && e.err == 0)
      ensures forall f :: f in was && f != e ==> f.Keeps() == was[f]
      ensures forall f :: f in tree ==> f == e || f in old(Others(expire, name))
      ensures e != null ==> e in tree && e in Live() && e.name == name
      ensures e != null ==> e.out == (if e in was then was[e].out else multiset{}) + e.Handed()
      ensures hit <==> file != null && old(file.Filled() && file.Current(q, now))
      ensures ok && !hit ==> Says(Open(name, q, r, now, room), Taken(name, e.Known()))
      ensures ok && hit ==> e in old(tree) && e in was && was[e].err == 0 && was[e].info == e.Known()
    {
      hide Good, Now, Indexed, Recent, Users, Turned, File.Took, File.Handed, File.Agrees, OpenedBy, File.Asked;
      hide Lasting, Others, Marks, File.Filled, File.Current, File.Reused, File.Raced, File.Learnt, Says;
      ghost var others, marks := Others(expire, name), Marks(Others(expire, name));
      hit := file != null && file.Filled() && file.Current(q, now);
      ghost var fd := if file == null then INVALID else file.fd;
      NamedIs(name, file);
      QueueInTree({});
      SameEntries();
      ghost var found, k;
      ok, e, found, k := OpenCachedFile(name, q, r, now, room);
      assert found == file;
      if ok && !hit { LearntSays(e, fd, Open(name, q, r, now, room)); }
      TurnedIn(others, marks, e, k, now);
      QueueInTree({});
    }

    lemma BeforeGrant(held: seq<Handle>, log: seq<Taken>, name: Name, was: map<File, Kept>)
      requires Valid() && Owed(held) && Reported(log) && was == LiveKeeps()
      ensures forall h :: h in held ==> h.file in Users() && h.file in was
      ensures forall f :: f in was ==> was[f].out == GivenBy(held, f)
      ensures forall f :: f in Others(expire, name) ==>
        f in was && f.name != name && (was[f].err == 0 ==> LastTaken(log, f.name) == Some(was[f].info))
      ensures forall f :: f in tree ==> f in was && (was[f].err == 0 ==> LastTaken(log, f.name) == Some(was[f].info))
    {
      OwedMeans(held);
      OthersIn(expire, name);
      QueueInTree({});
    }

    /** At most one entry has a name. */
    lemma NamedIs(name: Name, file: File?)
      requires Valid() && Answers(name, file)
      ensures Named(name) == (if file == null then {} else {file})
    {
      SameEntries();
    }

    lemma GiftOf(e: File)
      ensures GivenBy(if e.err != 0 || e.isDir then [] else [Handle(e, e.fd)], e) == e.Handed()
    {
    }

    lemma OwedAgain(held: seq<Handle>, gift: seq<Handle>, was: map<File, Kept>, users: set<File>, e: File?)
      requires users <= Users() && Live() <= was.Keys + if e == null then {} else {e}
      requires forall h :: h in held ==> h.file in users && h.file in was
      requires forall f :: f in was ==> was[f].out == GivenBy(held, f)
      requires forall f :: f in was && f != e ==> f.Keeps() == was[f]
      requires forall h :: h in gift ==> h.file == e
      requires e != null ==> e in Live() && e.out == (if e in was then was[e].out else multiset{}) + GivenBy(gift, e)
      ensures Owed(held + gift)
    {
      hide GivenBy;
      forall f | f in Live() ensures f.out == GivenBy(held + gift, f) {
        GivenParts(held, gift, f);
        if f != e {
          NoneGiven(gift, f);
        } else if f !in was {
          NoneGiven(held, f);
        }
      }
      UsersLive();
    }

    method ServeRelease(i: nat, minUses: nat, now: int, held0: seq<Handle>, ghost log: seq<Taken>)
        returns (held: seq<Handle>)
      requires Valid() && Owed(held0) && Reported(log) && i < |held0|
      modifies this, Live()
      ensures Valid() && Owed(held) && Reported(log) && Live() <= old(Live()) && held == held0[..i] + held0[i + 1..]
    {
      hide Good, Now, Indexed, Live, Users, GivenBy, LastTaken, Valid, Owed;
      held := GiveBack(i, minUses, now, held0);
    }

    method GiveBack(i: nat, minUses: nat, now: int, held0: seq<Handle>) returns (held: seq<Handle>)
      requires Valid() && Owed(held0) && i < |held0|
      modifies this, Live()
      ensures Valid() && Owed(held) && Live() <= old(Live()) && held == held0[..i] + held0[i + 1..]
      ensures forall f :: f in tree ==> f in old(tree) && f.err == old(f.err) && f.Known() == old(f.Known())
    {
      hide Good, Now, Indexed, Recent, Live, Users, GivenBy, Valid, Owed;
      OwedMeans(held0);
      GivenIn(held0, i);
      held := held0[..i] + held0[i + 1..];
      var file, fd := held0[i].file, held0[i].fd;
      ghost var users, was := Users(), LiveKeeps();
      TreeIn();
      ReturnTo(file, fd, minUses, now, was);
      OwedLess(held0, i, was, users);
    }

    lemma TreeIn()
      ensures forall f :: f in tree ==> f in Live()
    {
    }

    method ReturnTo(file: File, fd: int, minUses: nat, now: int, ghost was: map<File, Kept>)
      requires Valid() && file in Live() && fd in file.out && was == LiveKeeps()
      modifies this, Live()
      ensures Valid() && Live() <= old(Live()) && old(Users()) - {file} <= Users()
      ensures forall f :: f in tree ==> f in old(tree)
      ensures forall f :: f in was && f != file ==> f.Keeps() == was[f]
      ensures file.Keeps() == was[file].(out := was[file].out - multiset{fd})
      ensures |file.out| > 0 ==> file in Users()
    {
      hide Good, Now, Indexed, Recent, Users;
      QueueInTree({});
      HandlesOpen(file);
      OutLess(file.out, fd);
      Cleanup(file, fd, minUses, now);
    }

    lemma OwedLess(held0: seq<Handle>, i: nat, was: map<File, Kept>, users: set<File>)
      requires i < |held0| && held0[i].file in was && users - {held0[i].file} <= Users() && Live() <= was.Keys
      requires forall h :: h in held0 ==> h.file in users
      requires forall f :: f in was ==> was[f].out == GivenBy(held0, f)
      requires forall f :: f in was && f != held0[i].file ==> f.Keeps() == was[f]
      requires held0[i].file.out == was[held0[i].file].out - multiset{held0[i].fd}
      requires |held0[i].file.out| > 0 ==> held0[i].file in Users()
      ensures Owed(held0[..i] + held0[i + 1..])
    {
      hide GivenBy;
      var held, file := held0[..i] + held0[i + 1..], held0[i].file;
      UsersLive();
      hide Live, Users;
      forall f | f in Live() ensures f.out == GivenBy(held, f) {
        GivenLess(held0, i, f);
        if f == file { Less(GivenBy(held, f), held0[i].fd); }
      }
      forall h | h in held ensures h.file in Live() {
        if h.file == file {
          var j :| 0 <= j < |held| && held[j] == h;
          GivenIn(held, j);
          GivenLess(held0, i, file);
          Less(GivenBy(held, file), held0[i].fd);
          OutLess(file.out, h.fd);
        } else {
          assert h in held0;
        }
      }
    }

    /** Any run of requests, from any state in which the callers have what is handed out, and the entries what was
      * taken for their names. */
    method Serve(asks: seq<Ask>, held0: seq<Handle>, ghost log0: seq<Taken>)
        returns (held: seq<Handle>, ghost log: seq<Taken>)
      requires Valid() && Owed(held0) && Reported(log0)
      modifies this, Live()
      ensures Valid() && Owed(held) && fresh(Live() - old(Live()))
      ensures forall f :: f in Live() ==> f.count == |GivenBy(held, f)|
      ensures forall h :: h in held ==> h.fd in open && h.file in Live()
      ensures forall f :: f in parted ==> exists h :: h in held && h.file == f
      ensures log0 <= log && Drawn(log[|log0|..], asks)
      ensures forall f :: f in tree && f.err == 0 ==> LastTaken(log, f.name) == Some(f.Known())
    {
      hide Good, Now, Indexed, GivenBy, Valid, Owed, LastTaken, Drawn, Says;
      held, log := held0, log0;
      DrawnNone();
      assert log[|log0|..] == [] && asks[..0] == [];
      for n := 0 to |asks|
        invariant Valid() && Owed(held) && Reported(log) && fresh(Live() - old(Live()))
        invariant log0 <= log && Drawn(log[|log0|..], asks[..n])
      {
        ghost var before := log[|log0|..];
        match asks[n] {
          case Open(name, q, r, now, room) =>
            held, log := ServeOpen(name, q, r, now, room, held, log);
          case Release(i, minUses, now) =>
            if i < |held| { held := ServeRelease(i, minUses, now, held, log); }
        }
        assert asks[..n + 1] == asks[..n] + [asks[n]];
        DrawnMore(before, asks[..n], log[|log0|..], asks[n]);
      }
      assert asks[..|asks|] == asks;
      Steady(held);
    }

    lemma TurnedIn(q: seq<File>, marks: seq<Mark>, e: File?, k: nat, now: int)
      requires Turned(q, marks, e, k, now)
      ensures forall f :: f in expire ==> f == e || f in q
    {
    }

    lemma ReportedAgain(log: seq<Taken>, t: seq<Taken>, was: map<File, Kept>, others: seq<File>, e: File?, name: Name)
      requires forall f :: f in others ==>
        f in was && f.name != name && (was[f].err == 0 ==> LastTaken(log, f.name) == Some(was[f].info))
      requires forall f :: f in tree ==> f == e || f in others
      requires forall f :: f in was && f != e ==> f.Keeps() == was[f]
      requires t == [] || (|t| == 1 && t[0].name == name)
      requires e != null && e.err == 0 ==>
        e.name == name && Some(e.Known()) == if t == [] then LastTaken(log, name) else Some(t[0].info)
      ensures Reported(log + t)
    {
      hide LastTaken;
      forall f | f in tree && f.err == 0 ensures LastTaken(log + t, f.name) == Some(f.Known()) {
        if t == [] {
          assert log + t == log;
        } else {
          assert log + t == log + [t[0]];
          TakenMore(log, t[0], f.name);
        }
      }
    }
  }

  lemma {:induction false} OthersIn(s: seq<File>, name: Name)
    ensures forall f :: f in Others(s, name) ==> f in s && f.name != name
  {
    if s != [] { OthersIn(s[..|s| - 1], name); }
  }

  lemma DrawnNone()
    ensures Drawn([], [])
  {
  }

  /** A cache after one request, with a file open. */
  method OneOpen(name: Name, info: Info) returns (c: Cache, e: File)
    requires !info.isDir
    ensures fresh(c) && fresh(e) && c.Valid() && c.Live() == {e} && c.tree == [e] && e.name == name
    ensures e.fd == 3 && e.err == 0 && !e.isDir && e.uniq == info.uniq && e.created == 0 && e.out == multiset{3}
    ensures c.lost == {} && c.open == {3}
  {
    c := new Cache(0, 60, n => 0);
    var ok, f, was, k := c.OpenCachedFile(name, Request(0, 60, 1, true, false), Replies(None, 3, Some(info), 0), 0,
      true);
    e := f;
    c.OnlyOne(e);
  }

  /** A request may leave an entry for a directory that has a descriptor, and the cache is no longer valid. */
  method ReusedHappens(info: Info) returns (c: Cache, e: File)
    requires !info.isDir
    ensures fresh(c) && !c.Valid() && e in c.tree && e.isDir && e.fd == 3
  {
    hide Cache.Turned, Cache.Users, Good, Cache.Now, Cache.Indexed;
    var f;
    c, f := OneOpen("file", info);
    c.SameEntries();
    var ok, g, was, k := c.OpenCachedFile("file", Request(0, 0, 1, true, false),
      Replies(Some(info.(isDir := true)), INVALID, None, 0), 0, true);
    e := g;
  }

  /** A request may leave a descriptor open that no entry has. */
  method RacedHappens(info: Info) returns (c: Cache)
    requires !info.isDir
    ensures fresh(c) && c.Valid() && 3 in c.open && forall f :: f in c.Live() ==> f.fd != 3
  {
    hide Cache.Turned, Cache.Users, Good, Cache.Now, Cache.Indexed;
    var f;
    c, f := OneOpen("file", info);
    c.SameEntries();
    var ok, g, was, k := c.OpenCachedFile("file", Request(0, 0, 1, true, false),
      Replies(Some(info.(uniq := info.uniq + 1)), 4, Some(info), 0), 0, true);
    c.Stray(3);
  }

  /** What a caller has: a descriptor, and the entry that gave it. */
  datatype Handle = Handle(file: File, fd: int)

  datatype Ask =
    | Open(name: Name, q: Request, r: Replies, now: int, room: bool)
    | Release(i: nat, minUses: nat, now: int)

  /** What the system answered about the file of a name, and was cached. */
  datatype Taken = Taken(name: Name, info: Info)

  /** What was taken last for a name. */
  function LastTaken(log: seq<Taken>, name: Name): Option<Info> {
    if log == [] then None
    else if log[|log| - 1].name == name then Some(log[|log| - 1].info)
    else LastTaken(log[..|log| - 1], name)
  }

  lemma TakenMore(log: seq<Taken>, t: Taken, name: Name)
    ensures LastTaken(log + [t], name) == if t.name == name then Some(t.info) else LastTaken(log, name)
  {
    assert (log + [t])[..|log|] == log;
  }

  /** A request whose reply says this about the file. */
  predicate Says(ask: Ask, t: Taken) {
    ask.Open? && ask.name == t.name && (ask.r.stat == Some(t.info) || ask.r.fstat == Some(t.info))
  }

  /** What is taken comes, in order, from the replies of some of the requests. */
  ghost predicate Drawn(log: seq<Taken>, asks: seq<Ask>) {
    if asks == [] then log == []
    else
      var before := asks[..|asks| - 1];
      Drawn(log, before)
      || (log != [] && Says(asks[|asks| - 1], log[|log| - 1]) && Drawn(log[..|log| - 1], before))
  }

  lemma LearntSays(e: File, was: int, ask: Ask)
    requires ask.Open? && e.Learnt(was, ask.r) && e.err == 0
    ensures Says(ask, Taken(ask.name, e.Known()))
  {
  }

  lemma DrawnMore(log: seq<Taken>, asks: seq<Ask>, log': seq<Taken>, ask: Ask)
    requires Drawn(log, asks) && (log' == log || exists t :: log' == log + [t] && Says(ask, t))
    ensures Drawn(log', asks + [ask])
  {
    assert (asks + [ask])[..|asks|] == asks;
    if log' != log { assert log'[..|log'| - 1] == log; }
  }

  /** The descriptors among these that one entry gave. */
  ghost function GivenBy(held: seq<Handle>, f: File): multiset<int> {
    if held == [] then multiset{}
    else (if held[0].file == f then multiset{held[0].fd} else multiset{}) + GivenBy(held[1..], f)
  }

  lemma {:induction false} GivenParts(a: seq<Handle>, b: seq<Handle>, f: File)
    ensures GivenBy(a + b, f) == GivenBy(a, f) + GivenBy(b, f)
  {
    if a == [] {
      assert a + b == b;
    } else {
      assert (a + b)[1..] == a[1..] + b;
      GivenParts(a[1..], b, f);
    }
  }

  lemma {:induction false} NoneGiven(held: seq<Handle>, f: File)
    requires forall h :: h in held ==> h.file != f
    ensures GivenBy(held, f) == multiset{}
  {
    if held != [] {
      assert held[0] in held;
      NoneGiven(held[1..], f);
    }
  }

  lemma GivenLess(held: seq<Handle>, i: nat, f: File)
    requires i < |held|
    ensures GivenBy(held, f) == GivenBy(held[..i] + held[i + 1..], f) + if held[i].file == f then multiset{held[i].fd}
      else multiset{}
  {
    assert held == held[..i] + ([held[i]] + held[i + 1..]);
    GivenParts(held[..i], [held[i]] + held[i + 1..], f);
    GivenParts([held[i]], held[i + 1..], f);
    GivenParts(held[..i], held[i + 1..], f);
  }

  lemma Less(out: multiset<int>, d: int)
    ensures out + multiset{d} - multiset{d} == out
  {
  }

  lemma GivenIn(held: seq<Handle>, i: nat)
    requires i < |held|
    ensures held[i].fd in GivenBy(held, held[i].file)
  {
    GivenLess(held, i, held[i].file);
  }

  /** The entries under other names. */
  ghost function Others(s: seq<File>, name: Name): seq<File> {
    if s == [] then [] else Others(s[..|s| - 1], name) + if s[|s| - 1].name == name then [] else [s[|s| - 1]]
  }

  lemma {:induction false} OthersAll(s: seq<File>, name: Name)
    requires forall f :: f in s ==> f.name != name
    ensures Others(s, name) == s
  {
    if s != [] {
      assert s[|s| - 1] in s;
      OthersAll(s[..|s| - 1], name);
    }
  }

  lemma {:induction false} OthersSplit(a: seq<File>, b: seq<File>, name: Name)
    ensures Others(a + b, name) == Others(a, name) + Others(b, name)
    decreases |b|
  {
    if b == [] {
      assert a + b == a;
    } else {
      assert (a + b)[..|a + b| - 1] == a + b[..|b| - 1];
      OthersSplit(a, b[..|b| - 1], name);
    }
  }

  lemma OthersAre(s: seq<File>, name: Name, file: File?)
    requires if file == null then forall f :: f in s ==> f.name != name
             else file in s && file.name == name && Distinct(s) && forall f :: f in s && f != file ==> f.name != name
    ensures Others(s, name) == if file == null then s else Without<File>(s, file)
  {
    if file == null {
      OthersAll(s, name);
    } else {
      OthersParts(s, name, file);
      var k := IndexOf(s, file);
      var a, b := s[..k], s[k + 1..];
      hide Others;
      assert s == a + [file] + b && a + [] + b == a + b && a + [] == a;
      OthersSplit(a + [file], b, name);
      OthersSplit(a, [file], name);
      OthersAll(a, name);
      OthersAll(b, name);
    }
  }

  lemma OthersParts(s: seq<File>, name: Name, file: File)
    requires file in s && file.name == name && Distinct(s) && forall f :: f in s && f != file ==> f.name != name
    ensures var k := IndexOf(s, file);
      && (forall f :: f in s[..k] ==> f.name != name) && (forall f :: f in s[k + 1..] ==> f.name != name)
      && Others([file], name) == []
  {
    var k := IndexOf(s, file);
    forall f | f in s[..k] ensures f.name != name {
      var i :| 0 <= i < k && s[i] == f;
      assert f in s && f != file;
    }
    forall f | f in s[k + 1..] ensures f.name != name {
      var i :| 0 <= i < |s[k + 1..]| && s[k + 1..][i] == f;
      assert s[k + 1 + i] == f && f in s && f != file;
    }
  }

  lemma Outcome(fd: int, uniq: int, testDir: bool, r: Replies)
    requires fd != INVALID ==> r.fd != fd
    ensures var o := OpenedBy(fd, uniq, testDir, r);
      && (o.ok ==> o.err == 0 && (fd != INVALID ==> r.stat.Some?)) && (!o.ok ==> o.fd == INVALID && !o.info.isDir)
      && (o.fd == fd != INVALID <==> fd != INVALID && r.stat.Some? && r.stat.value.uniq == uniq)
      && (o.fd == fd != INVALID ==> o.ok && o.info == r.stat.value)
      && (o.fd != INVALID && o.fd != fd ==> o.ok && r.fstat == Some(o.info) && !o.info.isDir && o.fd == r.fd)
      && (o.ok && o.fd == INVALID ==> o.info.isDir)
      && (fd != INVALID && r.stat.Some? && r.stat.value.uniq != uniq
          && r.fd != INVALID && r.fstat.Some? && !r.fstat.value.isDir
        ==> o.ok && o.fd == r.fd && o.info == r.fstat.value)
  {
  }

  /** When every call succeeds so does the whole. */
  lemma OpensAll(fd: int, uniq: int, testDir: bool, q: Request, r: Replies)
    requires fd != INVALID ==> r.fd != fd
    ensures r.stat.Some? && r.fd != INVALID && r.fstat.Some? ==>
      Lasting(OpenedBy(fd, uniq, testDir, r), q) && OpenedBy(fd, uniq, testDir, r).err == 0
  {
  }

  lemma LearntFrom(e: File, fd: int, uniq: int, testDir: bool, q: Request, r: Replies, now: int)
    requires fd != INVALID ==> r.fd != fd
    requires var o := OpenedBy(fd, uniq, testDir, r); Lasting(o, q) && e.Took(o, now)
    ensures e.Learnt(fd, r) && e.err == OpenedBy(fd, uniq, testDir, r).err
  {
  }

  lemma InsertedThere(was: seq<File>, tree: seq<File>, k: nat, f: File)
    requires k <= |was| && tree == was[..k] + [f] + was[k..] && f !in was
    ensures f in tree && Without(tree, f) == was && Elements(tree) == Elements(was) + {f}
  {
    assert tree[k] == f;
    assert forall i :: 0 <= i < |tree| ==> tree[i] == if i < k then was[i] else if i == k then f else was[i - 1];
    assert IndexOf(tree, f) == k;
    forall g | g in was ensures g in tree {
      var i :| 0 <= i < |was| && was[i] == g;
      assert tree[if i < k then i else i + 1] == g;
    }
  }

  /** What is opened has a descriptor unless it is a directory. */
  predicate Proper(o: Opened) {
    if o.err == 0 && !o.info.isDir then o.fd != INVALID else o.fd == INVALID
  }

  /** The descriptor that is new, if one is. */
  ghost function NewIn(fd: int, o: Opened): set<int> { if o.fd == fd then {} else Only(o.fd) }

  lemma HeldOpen<F>(v: View<F>, held: set<int>)
    requires Good(v, {}, held)
    ensures held <= v.open
  {
  }

  lemma OutLess(out: multiset<int>, d: int)
    requires d in out
    ensures |out| > 0 && |out - multiset{d}| == |out| - 1 && forall e :: e in out - multiset{d} ==> e in out
  {
  }

  lemma OutMore(out: multiset<int>, d: int)
    ensures |out + multiset{d}| == |out| + 1 && forall e :: e in out + multiset{d} ==> e in out || e == d
  {
  }

  lemma SoundReady(was: Rec, r: Rec, o: Opened, lost: set<int>, held: set<int>)
    requires was.count == |was.out| && (o.fd == INVALID || o.fd in held)
    requires if o.err == 0 && !o.info.isDir then o.fd != INVALID else o.fd == INVALID && was.count == 0
    requires forall d :: d in was.out ==> d == o.fd || d in lost
    requires r.fd == o.fd && r.err == o.err && (o.err == 0 ==> !r.close && r.isDir == o.info.isDir)
    requires if o.err == 0 && !o.info.isDir then r.count == was.count + 1 && r.out == was.out + multiset{o.fd}
             else r.count == was.count && r.out == was.out
    ensures Fine(r) && (r.fd == INVALID || r.fd in held) && forall d :: d in r.out ==> d == r.fd || d in lost
  {
    OutMore(was.out, o.fd);
  }

  /** A user less. */
  lemma ReturnOne<F>(v: View<F>, f: F, d: int) returns (w: View<F>)
    requires Good(v, {}, {}) && f in v.recs && d in v.recs[f].out
    ensures v.recs[f].count > 0 && v.recs[f].fd != INVALID
    ensures (v.recs[f].close <==> f in v.parted) && Good(w, if f in v.parted then {f} else {}, {})
    ensures w.tree == v.tree && w.expire == v.expire && w.open == v.open && w.lost == v.lost && w.parted == v.parted
    ensures w.recs.Keys == v.recs.Keys && forall g :: g in v.recs && g != f ==> w.recs[g] == v.recs[g]
    ensures w.recs[f] == v.recs[f].(count := v.recs[f].count - 1, out := v.recs[f].out - multiset{d})
  {
    var out := v.recs[f].out;
    OutLess(out, d);
    UsersCounted(v, f);
    var r := v.recs[f].(count := v.recs[f].count - 1, out := out - multiset{d});
    w := v.(recs := v.recs[f := r]);
    LessRecords(v, f, r, w);
    LessDescriptors(v, f, r);
    hide Lists, Records, Descriptors;
  }

  lemma LessDescriptors<F>(v: View<F>, f: F, r: Rec)
    requires Good(v, {}, {}) && f in v.recs && r.fd == v.recs[f].fd && forall d :: d in r.out ==> d in v.recs[f].out
    ensures Descriptors(v.recs[f := r], v.open, v.lost, {})
  {
    SameDescriptor(v.recs, v.open, v.lost, {}, f, r);
  }

  lemma LessRecords<F>(v: View<F>, f: F, r: Rec, w: View<F>)
    requires Good(v, {}, {}) && f in v.recs && v.recs[f].count > 0 && w == v.(recs := v.recs[f := r])
    requires r == v.recs[f].(count := v.recs[f].count - 1, out := r.out) && |r.out| == r.count
    ensures (v.recs[f].close <==> f in v.parted)
    ensures Lists(w, if f in v.parted then {f} else {}) && Records(w, if f in v.parted then {f} else {})
  {
    hide Descriptors;
  }

  lemma UsersCounted<F>(v: View<F>, f: F)
    requires Good(v, {}, {}) && f in v.recs
    ensures v.recs[f].count == |v.recs[f].out| && (v.recs[f].count > 0 ==> v.recs[f].fd != INVALID)
  {
    hide Descriptors, Lists;
  }

  lemma WithoutAt<F>(s: seq<F>, f: F)
    requires f in s
    ensures |Without(s, f)| == |s| - 1 && forall g :: g in Without(s, f) ==> g in s
    ensures forall i :: 0 <= i < |s| - 1 ==> Without(s, f)[i] == s[if i < IndexOf(s, f) then i else i + 1]
  {
  }

  lemma SameLength<F>(s: seq<F>, t: seq<F>)
    requires Distinct(s) && Distinct(t) && forall f :: f in s <==> f in t
    ensures |s| == |t|
    decreases |s|
  {
    if s != [] {
      var f := s[0];
      assert s[1..] == Without(s, f);
      WithoutMembers(s, f);
      WithoutMembers(t, f);
      SameLength(Without(s, f), Without(t, f));
    }
    assert t != [] ==> t[0] in s;
  }

  lemma AllBut<F>(tree: seq<F>, f: F)
    requires f in tree
    ensures forall g :: g in Without(tree, f) ==> g in tree
  {
  }

  lemma KeysOf<F>(v: View<F>, aside: set<F>, held: set<int>)
    requires Good(v, aside, held)
    ensures v.recs.Keys == Elements(v.tree) + v.parted
  {
  }

  lemma InQueue<F>(v: View<F>, f: F, held: set<int>)
    requires Good(v, {}, held) && f in v.expire
    ensures f in v.tree && f !in v.parted
  {
  }

  lemma LastOut<F>(v: View<F>, held: set<int>)
    requires Good(v, {}, held) && v.expire != []
    ensures Without(v.expire, v.expire[|v.expire| - 1]) == v.expire[..|v.expire| - 1]
  {
    LastWithout(v.expire);
  }

  lemma Ends<F>(v: View<F>, f: F, aside: set<F>, held: set<int>)
    requires Good(v, aside, held)
    ensures INVALID !in v.open
  {
  }

  lemma AllBehind(s: seq<File>, k: nat, p: Place)
    requires SortedFiles(s) && k < |s| && Before(p, s[k].At())
    ensures forall i :: k <= i < |s| ==> Before(p, s[i].At())
  {
    forall i | k < i < |s| ensures Before(p, s[i].At()) { BeforeOrder(p, s[k].At(), s[i].At()); }
  }

  lemma AllInFront(s: seq<File>, k: nat, p: Place)
    requires SortedFiles(s) && k < |s| && Before(s[k].At(), p)
    ensures forall i :: 0 <= i <= k ==> Before(s[i].At(), p)
  {
    forall i | 0 <= i < k ensures Before(s[i].At(), p) { BeforeOrder(s[i].At(), s[k].At(), p); }
  }
}
