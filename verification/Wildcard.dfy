/** Wildcard host names: the nested tables that are built from sorted reversed names, and the lookup that
  * walks them from the last label of a name. */
module Wildcard {
  import opened Wrappers
  import PackedHash

  type Str = seq<char>

  /** A reversed wildcard name: "com.example" stands for ".example.com", "com.example." for
    * "*.example.com". */
  datatype Key<V> = Key(name: Str, value: V)

  /** The four meanings of the two low bits of a value: data for the name and below, data for below only,
    * a table for the name and below, a table for below only. */
  datatype Entry<V> =
    | Data(data: V) | DataBelow(data: V)
    | Nested(table: Table<V>) | NestedBelow(table: Table<V>)

  /** A hash from labels to entries, and the value of the name that leads to it. */
  datatype Table<V> = Table(cells: seq<Cell<V>>, value: Option<V>)
  datatype Cell<V> = Cell(key: Str, entry: Entry<V>)

  // ---------------------------------------------------------------- labels

  /** Where the last label of a name begins. */
  function LabelStart(q: Str): (n: nat)
    ensures n <= |q| && (n > 0 ==> q[n - 1] == '.') && forall k :: n <= k < |q| ==> q[k] != '.'
  {
    if q == [] || q[|q| - 1] == '.' then |q| else LabelStart(q[..|q| - 1])
  }

  /** Where the first label of a reversed name ends. */
  function LabelEnd(p: Str): (n: nat)
    ensures n <= |p| && (n < |p| ==> p[n] == '.') && forall k :: 0 <= k < n ==> p[k] != '.'
  {
    if p == [] || p[0] == '.' then 0 else 1 + LabelEnd(p[1..])
  }

  function Head(p: Str): Str { p[..LabelEnd(p)] }

  predicate Dotted(p: Str) { LabelEnd(p) < |p| }

  function Rest(p: Str): Str
    requires Dotted(p)
  {
    p[LabelEnd(p) + 1..]
  }

  /** A single label, with or without the dot that stands for "below only". */
  predicate Terminal(p: Str) { !Dotted(p) || Rest(p) == [] }

  ghost predicate WellFormed(p: Str)
    decreases |p|
  {
    Head(p) != [] && (!Terminal(p) ==> WellFormed(Rest(p)))
  }

  function Depth(p: Str): nat
    decreases |p|
  {
    if Terminal(p) then 1 else 1 + Depth(Rest(p))
  }

  /** Whether a reversed wildcard name matches a name. */
  predicate Matches(p: Str, q: Str)
    decreases |p|
  {
    var n := LabelStart(q);
    q[n..] == Head(p) && (Dotted(p) ==> n > 0 && (Rest(p) == [] || Matches(Rest(p), q[..n - 1])))
  }

  /** r is the value of the longest matching name, if any name matches. */
  ghost predicate Best<V>(names: seq<Key<V>>, q: Str, r: Option<V>) {
    if r.None? then forall k :: 0 <= k < |names| ==> !Matches(names[k].name, q)
    else exists k :: 0 <= k < |names| && Longest(names, q, k) && names[k].value == r.value
  }

  ghost predicate Longest<V>(names: seq<Key<V>>, q: Str, k: nat)
    requires k < |names|
  {
    Matches(names[k].name, q)
    && forall j :: 0 <= j < |names| && Matches(names[j].name, q) ==> Depth(names[j].name) <= Depth(names[k].name)
  }

  // ---------------------------------------------------------------- lookup

  /** What a hash of labels finds: the first cell with that label. */
  function Lookup<V>(cells: seq<Cell<V>>, name: Str): Option<Entry<V>> {
    if cells == [] then None
    else if cells[0].key == name then Some(cells[0].entry)
    else Lookup(cells[1..], name)
  }

  /** ngx_hash_find_wc_head. */
  function Answer<V>(t: Table<V>, q: Str): Option<V>
    decreases |q|, 1
  {
    var e := Lookup(t.cells, q[LabelStart(q)..]);
    if e.None? then t.value else EntryAnswer(e.value, q)
  }

  /** What the entry of the last label answers. */
  function EntryAnswer<V>(e: Entry<V>, q: Str): Option<V>
    decreases |q|, 0
  {
    var n := LabelStart(q);
    match e
    case Data(v) => Some(v)
    case DataBelow(v) => if n == 0 then None else Some(v)
    case Nested(u) => if n == 0 then u.value else OrElse(Answer(u, q[..n - 1]), u.value)
    case NestedBelow(u) => if n == 0 then None else OrElse(Answer(u, q[..n - 1]), u.value)
  }

  function OrElse<V>(a: Option<V>, b: Option<V>): Option<V> {
    if a.Some? then a else b
  }

  /** The search for the last label and the walk, as the source has them. */
  method FindHead<V>(t: Table<V>, q: Str) returns (r: Option<V>)
    ensures r == Answer(t, q)
    decreases |q|
  {
    var n: nat := |q|;
    assert q[..|q|] == q;
    while n > 0 && q[n - 1] != '.'
      invariant n <= |q| && LabelStart(q[..n]) == LabelStart(q)
    {
      assert q[..n][..n - 1] == q[..n - 1];
      n := n - 1;
    }
    match Lookup(t.cells, q[n..])
    case None => r := t.value;
    case Some(Data(v)) => r := Some(v);
    case Some(DataBelow(v)) => r := if n == 0 then None else Some(v);
    case Some(Nested(u)) =>
      if n == 0 { return u.value; }
      r := FindHead(u, q[..n - 1]);
      if r == None { r := u.value; }
    case Some(NestedBelow(u)) =>
      if n == 0 { return None; }
      r := FindHead(u, q[..n - 1]);
      if r == None { r := u.value; }
  }

  // ---------------------------------------------------------------- order

  /** The dot comes before every other character. */
  function Place(c: char): int { if c == '.' then -1 else c as int }

  predicate Less(a: Str, b: Str) {
    if b == [] then false
    else if a == [] then true
    else if a[0] == b[0] then Less(a[1..], b[1..])
    else Place(a[0]) < Place(b[0])
  }

  /** Names between two with a common beginning share it. */
  lemma {:induction false} Between(p: Str, a: Str, b: Str, c: Str)
    requires p <= a && p <= c && Less(a, b) && Less(b, c)
    ensures p <= b
    decreases p
  {
    if p != [] {
      assert p[0] == a[0] == c[0] && b != [];
      assert p[1..] <= a[1..] && p[1..] <= c[1..];
      Between(p[1..], a[1..], b[1..], c[1..]);
      assert p == [p[0]] + p[1..] && b == [b[0]] + b[1..];
    }
  }

  /** What stands between a name and its extensions by a dot is such an extension. */
  lemma {:induction false} BetweenDot(l: Str, b: Str, c: Str)
    requires Less(l, b) && Less(b, c) && l + ['.'] <= c
    ensures l + ['.'] <= b
    decreases l
  {
    if l == [] {
      assert c[0] == '.';
      assert b[0] == '.';
    } else {
      assert c[0] == l[0] && l[1..] + ['.'] <= c[1..] by { assert (l + ['.'])[1..] == l[1..] + ['.']; }
      BetweenDot(l[1..], b[1..], c[1..]);
      assert l == [l[0]] + l[1..] && b == [b[0]] + b[1..];
    }
  }

  /** Taking a common beginning away keeps the order. */
  lemma {:induction false} Stripped(p: Str, a: Str, b: Str)
    requires p <= a && p <= b && Less(a, b)
    ensures Less(a[|p|..], b[|p|..])
    decreases p
  {
    if p == [] {
      assert a[0..] == a && b[0..] == b;
    } else {
      assert a[0] == p[0] == b[0] && p[1..] <= a[1..] && p[1..] <= b[1..];
      assert Less(a[1..], b[1..]);
      hide Less;
      Stripped(p[1..], a[1..], b[1..]);
      Shifted(a, |p|);
      Shifted(b, |p|);
    }
  }

  lemma Shifted(a: Str, n: nat)
    requires 0 < n <= |a|
    ensures a[1..][n - 1..] == a[n..]
  {
  }

  lemma {:induction false} NotBelow(a: Str, b: Str)
    requires a <= b
    ensures !Less(b, a)
    decreases a
  {
    if a != [] {
      assert a[1..] <= b[1..];
      NotBelow(a[1..], b[1..]);
    }
  }

  lemma {:induction false} LessTransitive(a: Str, b: Str, c: Str)
    requires Less(a, b) && Less(b, c)
    ensures Less(a, c)
    decreases a
  {
    if a != [] && a[0] == b[0] == c[0] { LessTransitive(a[1..], b[1..], c[1..]); }
  }

  /** A name without its final dot. */
  function Stem(p: Str): Str {
    if p != [] && p[|p| - 1] == '.' then p[..|p| - 1] else p
  }

  /** What ngx_hash_wildcard_init is given: well-formed names in order, no two for the same host name. */
  ghost predicate Good<V>(names: seq<Key<V>>) {
    && (forall k :: 0 <= k < |names| ==> WellFormed(names[k].name))
    && (forall j, k :: 0 <= j < k < |names| ==> Ordered(names[j].name, names[k].name))
  }

  /** a comes first, and the two are not for the same host name. */
  ghost predicate Ordered(a: Str, b: Str) {
    Less(a, b) && Stem(a) != Stem(b)
  }

  // ---------------------------------------------------------------- one group of names

  /** The names from n to i share the first label of names[n] and no later one has it; every one but
    * perhaps names[n] goes on after that label. */
  ghost predicate Group<V>(names: seq<Key<V>>, n: nat, i: nat) {
    && n < i <= |names|
    && (forall j :: n <= j < i ==> Head(names[j].name) == Head(names[n].name))
    && (forall j :: n < j < i ==> !Terminal(names[j].name))
    && (forall j :: i <= j < |names| ==> Head(names[j].name) != Head(names[n].name))
  }

  lemma HeadOfPrefix(l: Str, p: Str)
    requires forall k :: 0 <= k < |l| ==> l[k] != '.'
    ensures l + ['.'] <= p ==> Head(p) == l && Dotted(p) && Rest(p) == p[|l| + 1..]
    ensures p == l ==> Head(p) == l && !Dotted(p)
  {
    if l + ['.'] <= p {
      assert forall k :: 0 <= k < |l| ==> p[k] == (l + ['.'])[k];
      assert p[|l|] == (l + ['.'])[|l|];
      assert LabelEnd(p) == |l|;
    }
    if p == l { assert LabelEnd(p) == |l|; }
  }

  lemma PrefixOfHead(p: Str)
    ensures if Dotted(p) then Head(p) + ['.'] <= p else p == Head(p)
  {
  }

  /** The source's test, comparing len characters and then, if names[n] has no dot, looking for one. */
  predicate SameGroup(first: Str, len: nat, dot: bool, p: Str)
    requires len <= |first|
  {
    first[..len] <= p && (!dot && |p| > len ==> p[len] == '.')
  }

  /** Up to where the test holds, and no further, the names have the first label of names[n]. */
  lemma GroupFound<V>(names: seq<Key<V>>, n: nat, i: nat)
    requires Good(names) && n < i <= |names|
    requires var first, dot := names[n].name, Dotted(names[n].name);
      var len := LabelEnd(first) + (if dot then 1 else 0);
      && (forall j :: n < j < i ==> SameGroup(first, len, dot, names[j].name))
      && (i < |names| ==> !SameGroup(first, len, dot, names[i].name))
    ensures Group(names, n, i)
  {
    var first := names[n].name;
    var l := Head(first);
    PrefixOfHead(first);
    forall j | n < j < i ensures Head(names[j].name) == l && !Terminal(names[j].name) {
      MemberOfGroup(names, n, j);
    }
    forall j | i <= j < |names| ensures Head(names[j].name) != l {
      if Head(names[j].name) == l { PastGroup(names, n, i, j); }
    }
  }

  lemma MemberOfGroup<V>(names: seq<Key<V>>, n: nat, j: nat)
    requires Good(names) && n < j < |names|
    requires var first, dot := names[n].name, Dotted(names[n].name);
      SameGroup(first, LabelEnd(first) + (if dot then 1 else 0), dot, names[j].name)
    ensures Head(names[j].name) == Head(names[n].name) && !Terminal(names[j].name)
  {
    var first, p := names[n].name, names[j].name;
    var l := Head(first);
    PrefixOfHead(first);
    assert Ordered(first, p);
    if Dotted(first) {
      assert first[..LabelEnd(first) + 1] == l + ['.'];
    } else {
      assert first[..|first|] == first && first <= p;
      if p == first { NotBelow(first, first); }
      assert p[..|l| + 1] == l + ['.'];
    }
    assert l + ['.'] <= p;
    HeadOfPrefix(l, p);
    if Rest(p) == [] {
      assert p == l + ['.'] && Stem(p) == l;
      if Dotted(first) { NotBelow(p, first); }
    }
  }

  lemma PastGroup<V>(names: seq<Key<V>>, n: nat, i: nat, j: nat)
    requires Good(names) && n < i <= j < |names| && Head(names[j].name) == Head(names[n].name)
    ensures var first, dot := names[n].name, Dotted(names[n].name);
      SameGroup(first, LabelEnd(first) + (if dot then 1 else 0), dot, names[i].name)
  {
    var first, b, c := names[n].name, names[i].name, names[j].name;
    var l := Head(first);
    PrefixOfHead(first);
    PrefixOfHead(c);
    assert Ordered(first, b) && Ordered(first, c) && (i < j ==> Ordered(b, c));
    if !Dotted(c) { NotBelow(c, first); }
    assert l + ['.'] <= c;
    if Dotted(first) {
      assert first[..LabelEnd(first) + 1] == l + ['.'];
      if i < j { Between(l + ['.'], first, b, c); }
    } else {
      assert first[..|first|] == first;
      if i < j { BetweenDot(l, b, c); }
      assert b[|l|] == (l + ['.'])[|l|];
    }
  }

  // ---------------------------------------------------------------- the table of a group

  /** A name without its first label. */
  function Strip<V>(k: Key<V>): Key<V> {
    if Dotted(k.name) then Key(Rest(k.name), k.value) else k
  }

  /** The names from a to b without their first label. */
  function Rests<V>(names: seq<Key<V>>, a: nat, b: nat): (r: seq<Key<V>>)
    requires a <= b <= |names|
    ensures |r| == b - a && forall j :: 0 <= j < b - a ==> r[j] == Strip(names[a + j])
    decreases b - a
  {
    if a == b then [] else [Strip(names[a])] + Rests(names, a + 1, b)
  }

  /** Where the names that go on after the label begin. */
  function OnFrom<V>(names: seq<Key<V>>, n: nat): nat
    requires n < |names|
  {
    if Terminal(names[n].name) then n + 1 else n
  }

  lemma StemOfRest(p: Str)
    requires !Terminal(p)
    ensures Stem(p) == Head(p) + ['.'] + Stem(Rest(p))
  {
    PrefixOfHead(p);
    assert p == Head(p) + ['.'] + Rest(p);
    assert p[|p| - 1] == Rest(p)[|Rest(p)| - 1];
  }

  lemma StripPair(x: Str, y: Str)
    requires !Terminal(x) && !Terminal(y) && Head(x) == Head(y) && Ordered(x, y)
    ensures Ordered(Rest(x), Rest(y))
  {
    var p := Head(x) + ['.'];
    PrefixOfHead(x);
    PrefixOfHead(y);
    Stripped(p, x, y);
    assert x[|p|..] == Rest(x) && y[|p|..] == Rest(y);
    hide Less, Stem;
    StemOfRest(x);
    StemOfRest(y);
  }

  lemma GroupAt<V>(names: seq<Key<V>>, n: nat, i: nat, j: nat)
    requires Group(names, n, i) && OnFrom(names, n) <= j < i
    ensures j < |names| && !Terminal(names[j].name) && Dotted(names[j].name)
      && Head(names[j].name) == Head(names[n].name)
    ensures Strip(names[j]) == Key(Rest(names[j].name), names[j].value)
  {
  }

  lemma GoodPair<V>(names: seq<Key<V>>, j: nat, k: nat)
    requires Good(names) && j < k < |names|
    ensures Ordered(names[j].name, names[k].name)
  {
  }

  lemma GoodOne<V>(names: seq<Key<V>>, k: nat)
    requires Good(names) && k < |names| && !Terminal(names[k].name)
    ensures WellFormed(Rest(names[k].name))
  {
    assert WellFormed(names[k].name);
  }

  lemma RestsPair<V>(names: seq<Key<V>>, n: nat, i: nat, j: nat, k: nat)
    requires Good(names) && Group(names, n, i) && OnFrom(names, n) <= j < k < i
    ensures k < |names| && Ordered(Strip(names[j]).name, Strip(names[k]).name)
  {
    GroupAt(names, n, i, j);
    GroupAt(names, n, i, k);
    GoodPair(names, j, k);
    hide *;
    StripPair(names[j].name, names[k].name);
  }

  lemma RestsOne<V>(names: seq<Key<V>>, n: nat, i: nat, j: nat)
    requires Good(names) && Group(names, n, i) && OnFrom(names, n) <= j < i
    ensures j < |names| && WellFormed(Strip(names[j]).name)
  {
    hide *;
    GroupAt(names, n, i, j);
    GoodOne(names, j);
  }

  lemma GoodFrom<V>(names: seq<Key<V>>)
    requires forall k :: 0 <= k < |names| ==> WellFormed(names[k].name)
    requires forall j, k :: 0 <= j < k < |names| ==> Ordered(names[j].name, names[k].name)
    ensures Good(names)
  {
    hide Ordered, WellFormed;
  }

  lemma RestsGood<V>(names: seq<Key<V>>, n: nat, i: nat)
    requires n < i <= |names| && Good(names) && Group(names, n, i) && OnFrom(names, n) <= i
    ensures Good(Rests(names, OnFrom(names, n), i))
  {
    hide *;
    var a: nat := OnFrom(names, n);
    var r := Rests(names, a, i);
    forall k | 0 <= k < |r| ensures WellFormed(r[k].name) {
      RestsOne(names, n, i, a + k);
    }
    forall j, k | 0 <= j < k < |r| ensures Ordered(r[j].name, r[k].name) {
      RestsPair(names, n, i, a + j, a + k);
    }
    GoodFrom(r);
  }

  /** The value of a table only steps in where its cells have none. */
  lemma WithValue<V>(cells: seq<Cell<V>>, v: Option<V>, q: Str)
    ensures OrElse(Answer(Table(cells, v), q), v) == OrElse(Answer(Table(cells, None), q), v)
  {
  }

  /** The entry that ngx_hash_wildcard_init makes of a group. */
  function GroupEntry<V>(first: Key<V>, inner: Option<seq<Cell<V>>>): Entry<V> {
    if inner.None? then if Dotted(first.name) then DataBelow(first.value) else Data(first.value)
    else
      var t := Table(inner.value, if Terminal(first.name) then Some(first.value) else None);
      if Dotted(first.name) then NestedBelow(t) else Nested(t)
  }

  /** It answers, for names that end in the label, with the best match of the group. */
  lemma GroupBest<V>(names: seq<Key<V>>, n: nat, i: nat, inner: Option<seq<Cell<V>>>, q: Str)
    requires Group(names, n, i) && q[LabelStart(q)..] == Head(names[n].name)
    requires inner.None? <==> OnFrom(names, n) == i
    requires inner.Some? && LabelStart(q) > 0 ==>
      Best(Rests(names, OnFrom(names, n), i), q[..LabelStart(q) - 1],
        Answer(Table(inner.value, None), q[..LabelStart(q) - 1]))
    ensures Best(names[n..i], q, EntryAnswer(GroupEntry(names[n], inner), q))
  {
    var first, m, a, g := names[n], LabelStart(q), OnFrom(names, n), names[n..i];
    var e := GroupEntry(first, inner);
    assert g[0] == first;
    if inner.None? {
      assert |g| == 1;
      if Matches(first.name, q) { assert Longest(g, q, 0); }
    } else if m == 0 {
      forall k | 0 < k < |g| ensures !Matches(g[k].name, q) { assert g[k] == names[n + k]; }
      if Matches(first.name, q) { assert Longest(g, q, 0); }
    } else {
      NestedBest(names, n, i, inner.value, q);
    }
  }

  lemma NestedBest<V>(names: seq<Key<V>>, n: nat, i: nat, inner: seq<Cell<V>>, q: Str)
    requires Group(names, n, i) && q[LabelStart(q)..] == Head(names[n].name) && LabelStart(q) > 0
      && OnFrom(names, n) < i
    requires Best(Rests(names, OnFrom(names, n), i), q[..LabelStart(q) - 1],
      Answer(Table(inner, None), q[..LabelStart(q) - 1]))
    ensures Best(names[n..i], q, EntryAnswer(GroupEntry(names[n], Some(inner)), q))
  {
    hide *;
    GroupFirst(names, n, i, q);
    NestedParts(names, n, i, q);
    NestedAnswer(names[n], inner, q);
    var a: nat, q' := OnFrom(names, n), q[..LabelStart(q) - 1];
    ShiftedBest(names[n..i], q, Rests(names, a, i), q', a - n, Answer(Table(inner, None), q'));
  }

  lemma NestedParts<V>(names: seq<Key<V>>, n: nat, i: nat, q: Str)
    requires Group(names, n, i) && q[LabelStart(q)..] == Head(names[n].name) && LabelStart(q) > 0
    requires n <= OnFrom(names, n) < i <= |names|
    ensures var o, g, next := OnFrom(names, n) - n, names[n..i], Rests(names, OnFrom(names, n), i);
      && |g| == o + |next|
      && (forall k :: 0 <= k < |next| ==>
        next[k].value == g[o + k].value && Depth(g[o + k].name) == 1 + Depth(next[k].name))
      && forall k :: 0 <= k < |next| ==> (Matches(g[o + k].name, q) <==> Matches(next[k].name, q[..LabelStart(q) - 1]))
  {
    hide Matches, Depth, Strip, Head, LabelStart, Terminal, Group;
    var a: nat, g := OnFrom(names, n), names[n..i];
    var next := Rests(names, a, i);
    forall k | 0 <= k < |next|
      ensures next[k].value == g[a - n + k].value && Depth(g[a - n + k].name) == 1 + Depth(next[k].name)
      ensures Matches(g[a - n + k].name, q) <==> Matches(next[k].name, q[..LabelStart(q) - 1])
    {
      OneFurther(names, n, i, q, a + k);
    }
  }

  lemma OneFurther<V>(names: seq<Key<V>>, n: nat, i: nat, q: Str, j: nat)
    requires Group(names, n, i) && q[LabelStart(q)..] == Head(names[n].name) && LabelStart(q) > 0
    requires OnFrom(names, n) <= j < i
    ensures n <= j < |names| && Strip(names[j]).value == names[j].value
    ensures Depth(names[j].name) == 1 + Depth(Strip(names[j]).name)
    ensures Matches(names[j].name, q) <==> Matches(Strip(names[j]).name, q[..LabelStart(q) - 1])
  {
    GroupAt(names, n, i, j);
    hide Matches, Depth, Strip, Head, LabelStart, Terminal, Group;
    MatchBelow(names[j].name, q);
  }

  lemma NestedAnswer<V>(first: Key<V>, inner: seq<Cell<V>>, q: Str)
    requires LabelStart(q) > 0
    ensures EntryAnswer(GroupEntry(first, Some(inner)), q)
      == OrElse(Answer(Table(inner, None), q[..LabelStart(q) - 1]), if Terminal(first.name) then Some(first.value)
        else None)
  {
    WithValue(inner, if Terminal(first.name) then Some(first.value) else None, q[..LabelStart(q) - 1]);
  }

  lemma GroupFirst<V>(names: seq<Key<V>>, n: nat, i: nat, q: Str)
    requires Group(names, n, i) && q[LabelStart(q)..] == Head(names[n].name) && LabelStart(q) > 0
    ensures n < i <= |names| && n <= OnFrom(names, n) <= n + 1
      && (OnFrom(names, n) == n + 1 <==> Terminal(names[n].name))
    ensures Terminal(names[n].name) ==> Matches(names[n].name, q) && Depth(names[n].name) == 1
  {
  }

  lemma MatchBelow(p: Str, q: Str)
    requires !Terminal(p) && Head(p) == q[LabelStart(q)..] && LabelStart(q) > 0
    ensures Matches(p, q) <==> Matches(Rest(p), q[..LabelStart(q) - 1])
    ensures Depth(p) == 1 + Depth(Rest(p))
  {
  }

  /** The best match one label further on is the best match here, if there is one; else the name that ends
    * with this label, which matches, is. */
  lemma ShiftedBest<V>(g: seq<Key<V>>, q: Str, next: seq<Key<V>>, q': Str, o: nat, r: Option<V>)
    requires Best(next, q', r) && o <= 1 && |g| == o + |next|
    requires forall k :: 0 <= k < |next| ==>
      next[k].value == g[o + k].value && Depth(g[o + k].name) == 1 + Depth(next[k].name)
    requires forall k :: 0 <= k < |next| ==> (Matches(g[o + k].name, q) <==> Matches(next[k].name, q'))
    requires o == 1 ==> Matches(g[0].name, q) && Depth(g[0].name) == 1
    ensures Best(g, q, OrElse(r, if o == 1 then Some(g[0].value) else None))
  {
    hide Matches, Depth;
    assert forall k :: o <= k < |g| ==> g[o + (k - o)] == g[k];
    if r.Some? {
      var k :| 0 <= k < |next| && Longest(next, q', k) && next[k].value == r.value;
      forall j | 0 <= j < |g| && Matches(g[j].name, q) ensures Depth(g[j].name) <= Depth(g[o + k].name) {
        if j >= o { assert Matches(next[j - o].name, q') && Depth(g[o + (j - o)].name) == 1 + Depth(next[j - o].name); }
      }
      assert Longest(g, q, o + k);
    } else {
      forall j | o <= j < |g| ensures !Matches(g[j].name, q) { assert !Matches(next[j - o].name, q'); }
      if o == 1 { assert Longest(g, q, 0); }
    }
  }

  // ---------------------------------------------------------------- building

  lemma {:induction false} LookupAppend<V>(cells: seq<Cell<V>>, c: Cell<V>, name: Str)
    ensures Lookup(cells + [c], name)
      == if Lookup(cells, name).Some? then Lookup(cells, name) else if c.key == name then Some(c.entry) else None
    decreases |cells|
  {
    if cells != [] {
      assert (cells + [c])[1..] == cells[1..] + [c];
      LookupAppend(cells[1..], c, name);
    }
  }

  lemma {:induction false} LookupAbsent<V>(cells: seq<Cell<V>>, name: Str)
    requires forall k :: 0 <= k < |cells| ==> cells[k].key != name
    ensures Lookup(cells, name).None?
    decreases |cells|
  {
    if cells != [] { LookupAbsent(cells[1..], name); }
  }

  ghost predicate NoMatch<V>(names: seq<Key<V>>, q: Str) {
    forall k :: 0 <= k < |names| ==> !Matches(names[k].name, q)
  }

  /** Names that do not match do not matter. */
  lemma BestAround<V>(before: seq<Key<V>>, s: seq<Key<V>>, after: seq<Key<V>>, q: Str, r: Option<V>)
    requires NoMatch(before, q) && NoMatch(after, q) && Best(s, q, r)
    ensures Best(before + s + after, q, r)
  {
    hide Matches, Depth;
    var all, o := before + s + after, |before|;
    assert forall k :: 0 <= k < |all| ==>
      all[k] == if k < o then before[k] else if k < o + |s| then s[k - o] else after[k - o - |s|];
    if r.Some? {
      var k :| 0 <= k < |s| && Longest(s, q, k) && s[k].value == r.value;
      assert all[o + k] == s[k];
      assert Longest(all, q, o + k);
    }
  }

  /** Heads before n differ from heads behind it, and so do the labels of the cells. */
  ghost predicate Apart<V>(names: seq<Key<V>>, n: nat, cells: seq<Cell<V>>) {
    && n <= |names|
    && (forall k, j :: 0 <= k < n <= j < |names| ==> Head(names[k].name) != Head(names[j].name))
    && (forall c, j :: 0 <= c < |cells| && n <= j < |names| ==> cells[c].key != Head(names[j].name))
  }

  ghost predicate AnswersBest<V>(names: seq<Key<V>>, cells: seq<Cell<V>>) {
    forall q :: Best(names, q, Answer(Table(cells, None), q))
  }

  /** One more group, one more cell. */
  lemma AddGroup<V>(names: seq<Key<V>>, n: nat, i: nat, cells: seq<Cell<V>>, e: Entry<V>)
    requires Group(names, n, i) && Apart(names, n, cells) && AnswersBest(names[..n], cells)
    requires forall q :: q[LabelStart(q)..] == Head(names[n].name) ==> Best(names[n..i], q, EntryAnswer(e, q))
    ensures Apart(names, i, cells + [Cell(Head(names[n].name), e)])
    ensures AnswersBest(names[..i], cells + [Cell(Head(names[n].name), e)])
  {
    var cells' := cells + [Cell(Head(names[n].name), e)];
    forall q ensures Best(names[..i], q, Answer(Table(cells', None), q)) {
      AddGroupAt(names, n, i, cells, e, q);
    }
  }

  lemma AddGroupAt<V>(names: seq<Key<V>>, n: nat, i: nat, cells: seq<Cell<V>>, e: Entry<V>, q: Str)
    requires Group(names, n, i) && Apart(names, n, cells) && Best(names[..n], q, Answer(Table(cells, None), q))
    requires q[LabelStart(q)..] == Head(names[n].name) ==> Best(names[n..i], q, EntryAnswer(e, q))
    ensures Best(names[..i], q, Answer(Table(cells + [Cell(Head(names[n].name), e)], None), q))
  {
    var l, last := Head(names[n].name), q[LabelStart(q)..];
    LookupAbsent(cells, l);
    LookupAppend(cells, Cell(l, e), last);
    hide EntryAnswer, Lookup, LabelStart, Best;
    if last == l {
      assert NoMatch(names[..n], q);
      assert names[..i] == names[..n] + names[n..i] + [];
      BestAround(names[..n], names[n..i], [], q, EntryAnswer(e, q));
    } else {
      assert NoMatch(names[n..i], q);
      assert names[..i] == [] + names[..n] + names[n..i];
      BestAround([], names[..n], names[n..i], q, Answer(Table(cells, None), q));
    }
  }

  /** The characters of the names from a to b. */
  ghost function Weight<V>(names: seq<Key<V>>, a: nat, b: nat): nat
    requires a <= b <= |names|
    decreases b - a
  {
    if a == b then 0 else |names[a].name| + Weight(names, a + 1, b)
  }

  lemma {:induction false} WeightLess<V>(names: seq<Key<V>>, a: nat, b: nat, c: nat)
    requires a <= b <= c <= |names|
    ensures Weight(names, a, c) == Weight(names, a, b) + Weight(names, b, c)
    decreases b - a
  {
    if a < b { WeightLess(names, a + 1, b, c); }
  }

  lemma {:induction false} RestsLighterFrom<V>(names: seq<Key<V>>, next: seq<Key<V>>, a: nat, k: nat)
    requires k <= |next| && a + |next| <= |names|
    requires forall j :: 0 <= j < |next| ==> |next[j].name| < |names[a + j].name|
    ensures Weight(next, k, |next|) + (|next| - k) <= Weight(names, a + k, a + |next|)
    decreases |next| - k
  {
    if k < |next| { RestsLighterFrom(names, next, a, k + 1); }
  }

  /** The names of a nested table have fewer characters in all. */
  lemma RestsLighter<V>(names: seq<Key<V>>, a: nat, b: nat)
    requires a < b <= |names| && forall j :: a <= j < b ==> Dotted(names[j].name)
    ensures Weight(Rests(names, a, b), 0, |Rests(names, a, b)|) < Weight(names, 0, |names|)
  {
    var next := Rests(names, a, b);
    forall j | 0 <= j < |next| ensures |next[j].name| < |names[a + j].name| { assert Dotted(names[a + j].name); }
    hide Rests;
    RestsLighterFrom(names, next, a, 0);
    WeightLess(names, 0, a, |names|);
    WeightLess(names, a, b, |names|);
  }

  /** ngx_hash_wildcard_init: nested tables that answer every name with its best match. */
  method Init<V>(names: seq<Key<V>>) returns (cells: seq<Cell<V>>)
    requires Good(names)
    ensures AnswersBest(names, cells)
    decreases Weight(names, 0, |names|)
  {
    hide *;
    cells := [];
    var n: nat := 0;
    assert Apart(names, 0, cells) && AnswersBest(names[..0], cells) by { NothingYet(names); }
    while n < |names|
      invariant n <= |names| && Apart(names, n, cells) && AnswersBest(names[..n], cells)
    {
      var first := names[n];
      var i, name, next := GatherGroup(names, n);
      var inner: Option<seq<Cell<V>>> := None;
      if next != [] {
        RestsGood(names, n, i);
        OnDotted(names, n, i);
        RestsLighter(names, OnFrom(names, n), i);
        var nested := Init(next);
        inner := Some(nested);
      }
      forall q | q[LabelStart(q)..] == Head(first.name)
        ensures Best(names[n..i], q, EntryAnswer(GroupEntry(first, inner), q)) {
        if inner.Some? && LabelStart(q) > 0 { AnswersFor(next, inner.value, q[..LabelStart(q) - 1]); }
        GroupBest(names, n, i, inner, q);
      }
      AddGroup(names, n, i, cells, GroupEntry(first, inner));
      cells := cells + [Cell(name, GroupEntry(first, inner))];
      n := i;
    }
    assert names[..n] == names;
  }

  lemma NothingYet<V>(names: seq<Key<V>>)
    ensures Apart(names, 0, []) && AnswersBest(names[..0], [])
  {
  }

  lemma AnswersFor<V>(names: seq<Key<V>>, cells: seq<Cell<V>>, q: Str)
    requires AnswersBest(names, cells)
    ensures Best(names, q, Answer(Table(cells, None), q))
  {
  }

  lemma OnDotted<V>(names: seq<Key<V>>, n: nat, i: nat)
    requires Group(names, n, i)
    ensures forall j :: OnFrom(names, n) <= j < i ==> Dotted(names[j].name)
  {
  }

  /** The names that share the first label of names[n], and what they leave once it is taken away. */
  method GatherGroup<V>(names: seq<Key<V>>, n: nat) returns (i: nat, name: Str, next: seq<Key<V>>)
    requires Good(names) && n < |names|
    ensures Group(names, n, i) && n < i <= |names| && OnFrom(names, n) <= i && name == Head(names[n].name)
    ensures next == Rests(names, OnFrom(names, n), i) && |next| == i - OnFrom(names, n)
  {
    hide Good, Less, Stem, WellFormed, LabelEnd, Group;
    var first := names[n];
    var len, dot := FirstLabel(first.name);
    var dotLen := len + 1;
    name := first.name[..len];
    if dot { len := len + 1; }
    next := if |first.name| != len then [Key(first.name[len..], first.value)] else [];
    i := n + 1;
    while i < |names| && SameGroup(first.name, len, dot, names[i].name)
      invariant n < i <= |names| && OnFrom(names, n) <= i && next == Rests(names, OnFrom(names, n), i)
      invariant forall j :: n < j < i ==> SameGroup(first.name, len, dot, names[j].name)
    {
      MemberOfGroup(names, n, i);
      RestsMore(names, OnFrom(names, n), i);
      assert names[i].name[dotLen..] == Rest(names[i].name) by { SameEnd(names[i].name, first.name); }
      next := next + [Key(names[i].name[dotLen..], names[i].value)];
      i := i + 1;
    }
    GroupFound(names, n, i);
  }

  lemma SameEnd(p: Str, first: Str)
    requires Head(p) == Head(first) && Dotted(p)
    ensures LabelEnd(p) == LabelEnd(first)
  {
    assert |Head(p)| == |Head(first)|;
  }

  /** The scan for the first dot. */
  method FirstLabel(p: Str) returns (len: nat, dot: bool)
    ensures len == LabelEnd(p) && dot == Dotted(p)
  {
    len, dot := 0, false;
    while len < |p|
      invariant len <= |p| && LabelEnd(p) == len + LabelEnd(p[len..])
    {
      if p[len] == '.' { return len, true; }
      assert p[len..][1..] == p[len + 1..];
      len := len + 1;
    }
  }

  lemma {:induction false} RestsMore<V>(names: seq<Key<V>>, a: nat, i: nat)
    requires a <= i < |names|
    ensures Rests(names, a, i + 1) == Rests(names, a, i) + [Strip(names[i])]
    decreases i - a
  {
    if a < i { RestsMore(names, a + 1, i); }
  }

  // ---------------------------------------------------------------- the cells in memory

  /** The names that are packed into one hash table. */
  function Packed<V>(cells: seq<Cell<V>>, hash: Str -> nat): (names: seq<PackedHash.Key<Entry<V>>>)
    ensures |names| == |cells|
    ensures forall k :: 0 <= k < |cells| ==>
      names[k] == PackedHash.Key(cells[k].key, false, hash(cells[k].key), cells[k].entry)
  {
    if cells == [] then []
    else
      var c := cells[0];
      [PackedHash.Key(c.key, false, hash(c.key), c.entry)] + Packed(cells[1..], hash)
  }

  ghost predicate LowerCase<V>(cells: seq<Cell<V>>) {
    forall k :: 0 <= k < |cells| ==> PackedHash.Lower(cells[k].key) == cells[k].key
  }

  lemma {:induction false} AllListed<V>(names: seq<PackedHash.Key<V>>)
    requires forall k :: 0 <= k < |names| ==> !names[k].gone
    ensures PackedHash.Listed(names) == names
  {
    if names != [] { AllListed(names[..|names| - 1]); }
  }

  lemma {:induction false} FirstPacked<V>(cells: seq<Cell<V>>, hash: Str -> nat, q: Str)
    requires LowerCase(cells)
    ensures PackedHash.First(Packed(cells, hash), q) == Lookup(cells, q)
  {
    if cells != [] {
      assert Packed(cells, hash)[1..] == Packed(cells[1..], hash);
      FirstPacked(cells[1..], hash, q);
    }
  }

  /** Finding a label in the packed table of a level is looking it up among the cells. */
  method FindCell<V>(h: PackedHash.Hash<Entry<V>>, cells: seq<Cell<V>>, hash: Str -> nat, q: Str)
      returns (r: Option<Entry<V>>)
    requires PackedHash.Answers(h, Packed(cells, hash)) && LowerCase(cells)
    requires forall k :: 0 <= k < |cells| ==> |cells[k].key| < PackedHash.SHORT
    ensures r == Lookup(cells, q)
  {
    r := PackedHash.FindListed(h, Packed(cells, hash), hash, q);
    AllListed(Packed(cells, hash));
    FirstPacked(cells, hash, q);
  }

  // ---------------------------------------------------------------- from patterns to reversed names

  predicate EndsWith(q: Str, s: Str) {
    |s| <= |q| && q[|q| - |s|..] == s
  }

  /** A wildcard as it is written: "*.example.com" (below only) or ".example.com" (also the name itself). */
  datatype Pattern = Pattern(domain: Str, below: bool)

  function Written(p: Pattern): Str {
    if p.below then "*." + p.domain else "." + p.domain
  }

  /** What the pattern promises. */
  predicate Covers(p: Pattern, q: Str) {
    EndsWith(q, "." + p.domain) || (!p.below && q == p.domain)
  }

  /** The labels of a domain in reverse order. */
  function Reversed(d: Str): Str
    decreases |d|
  {
    var n := LabelStart(d);
    if n == 0 then d else d[n..] + "." + Reversed(d[..n - 1])
  }

  function ReversedName(p: Pattern): Str {
    if p.below then Reversed(p.domain) + "." else Reversed(p.domain)
  }

  /** No label of the domain is empty. */
  ghost predicate NoEmptyLabel(d: Str)
    decreases |d|
  {
    var n := LabelStart(d);
    n < |d| && (n > 0 ==> NoEmptyLabel(d[..n - 1]))
  }

  /** A reversed name matches exactly the names that its pattern covers, and is well formed. */
  lemma {:induction false} ReversedMeans(p: Pattern, q: Str)
    requires NoEmptyLabel(p.domain)
    ensures WellFormed(ReversedName(p)) && (Matches(ReversedName(p), q) <==> Covers(p, q))
    decreases |p.domain|
  {
    var n, m := LabelStart(p.domain), LabelStart(q);
    hide Reversed, ReversedName, Covers, WellFormed, Matches;
    if n == 0 {
      ReversedOne(p, q);
    } else {
      ReversedMeans(Pattern(p.domain[..n - 1], p.below), if m > 0 then q[..m - 1] else q);
      ReversedMore(p, q);
    }
  }

  lemma ReversedOne(p: Pattern, q: Str)
    requires NoEmptyLabel(p.domain) && LabelStart(p.domain) == 0
    ensures WellFormed(ReversedName(p)) && (Matches(ReversedName(p), q) <==> Covers(p, q))
  {
    var d := p.domain;
    assert d[0..] == d;
    LastLabelEnds(d, q);
    HeadOfPrefix(d, ReversedName(p));
  }

  lemma ReversedShape(p: Pattern)
    requires LabelStart(p.domain) > 0
    ensures var n := LabelStart(p.domain);
      var x, p' := p.domain[n..], Pattern(p.domain[..n - 1], p.below);
      && p.domain == p'.domain + "." + x && ReversedName(p) == x + "." + ReversedName(p')
  {
    var n := LabelStart(p.domain);
    Regroup(p.domain[n..], ".", Reversed(p.domain[..n - 1]), ".");
  }

  lemma ReversedMore(p: Pattern, q: Str)
    requires NoEmptyLabel(p.domain) && LabelStart(p.domain) > 0
    requires var p' := Pattern(p.domain[..LabelStart(p.domain) - 1], p.below);
      && WellFormed(ReversedName(p'))
      && (LabelStart(q) > 0 ==>
        (Matches(ReversedName(p'), q[..LabelStart(q) - 1]) <==> Covers(p', q[..LabelStart(q) - 1])))
    ensures WellFormed(ReversedName(p)) && (Matches(ReversedName(p), q) <==> Covers(p, q))
  {
    hide *;
    var n, m := LabelStart(p.domain), LabelStart(q);
    var x, p' := p.domain[n..], Pattern(p.domain[..n - 1], p.below);
    ReversedShape(p);
    LabelsFull(p.domain);
    var r, r' := ReversedName(p), ReversedName(p');
    LastLabelEnds(x, q);
    HeadOfPrefix(x, r);
    assert Rest(r) == r' && Head(r) == x && x != [];
    MatchesDotted(r, q);
    if m > 0 && q[m..] == x { CoversBelow(p', q, m, x); } else { NotCovered(p, q, x); }
  }

  lemma LabelsFull(d: Str)
    requires NoEmptyLabel(d)
    ensures LabelStart(d) < |d| && (LabelStart(d) > 0 ==> NoEmptyLabel(d[..LabelStart(d) - 1]))
  {
  }

  /** What follows the first label decides with it. */
  lemma MatchesDotted(r: Str, q: Str)
    requires Dotted(r) && WellFormed(Rest(r)) && Head(r) != []
    ensures WellFormed(r)
    ensures var m := LabelStart(q); Matches(r, q) <==> q[m..] == Head(r) && m > 0 && Matches(Rest(r), q[..m - 1])
  {
    assert Head(Rest(r)) != [];
  }

  /** A name ends with a dot and a label exactly when that label is its last and not its only one. */
  lemma LastLabelEnds(x: Str, q: Str)
    requires forall k :: 0 <= k < |x| ==> x[k] != '.'
    ensures EndsWith(q, "." + x) <==> LabelStart(q) > 0 && q[LabelStart(q)..] == x
    ensures q == x ==> LabelStart(q) == 0
  {
    var m, s := LabelStart(q), "." + x;
    if EndsWith(q, s) {
      var o := |q| - |s|;
      assert q[o..][0] == '.' && forall k :: 0 < k < |s| ==> q[o + k] == s[k];
      assert m == o + 1;
      assert q[o..][1..] == x;
    }
    if m > 0 && q[m..] == x { assert q[m - 1..] == s; }
  }

  /** Under an equal last label the rest decides. */
  lemma CoversBelow(p': Pattern, q: Str, m: nat, x: Str)
    requires 0 < m <= |q| && q[m..] == x && q[m - 1] == '.'
    ensures Covers(Pattern(p'.domain + "." + x, p'.below), q) <==> Covers(p', q[..m - 1])
  {
    var d := p'.domain + "." + x;
    var q' := q[..m - 1];
    assert q == q' + "." + x;
    assert "." + d == "." + p'.domain + "." + x;
    if EndsWith(q', "." + p'.domain) {
      assert q[|q| - |d| - 1..] == q'[|q'| - |p'.domain| - 1..] + "." + x;
    }
    if EndsWith(q, "." + d) {
      assert q'[|q'| - |p'.domain| - 1..] == q[|q| - |d| - 1..][..|p'.domain| + 1];
    }
    if q == d { assert q' == d[..m - 1]; }
  }

  lemma NotCovered(p: Pattern, q: Str, x: Str)
    requires |x| < |p.domain| && p.domain[|p.domain| - |x| - 1] == '.' && p.domain[|p.domain| - |x|..] == x
    requires !EndsWith(q, "." + x)
    ensures !Covers(p, q)
  {
    var d := p.domain;
    assert d[|d| - |x| - 1..] == "." + x;
    if |q| > |d| { assert q[|q| - |x| - 1..] == q[|q| - |d| - 1..][|d| - |x|..]; }
    assert ("." + d)[|d| - |x|..] == "." + x;
  }

  // ---------------------------------------------------------------- the answer in terms of the patterns

  datatype Rule<V> = Rule(pattern: Pattern, value: V)

  function Turned<V>(r: Rule<V>): Key<V> { Key(ReversedName(r.pattern), r.value) }

  /** The names are those of the rules, in whatever order the sort leaves them. */
  ghost predicate FromRules<V>(rules: seq<Rule<V>>, names: seq<Key<V>>) {
    && (forall k :: 0 <= k < |rules| ==> Turned(rules[k]) in names)
    && (forall k :: 0 <= k < |names| ==> exists j :: 0 <= j < |rules| && names[k] == Turned(rules[j]))
  }

  /** No other rule that covers q has a longer domain. */
  ghost predicate Widest<V>(rules: seq<Rule<V>>, q: Str, k: nat)
    requires k < |rules|
  {
    Covers(rules[k].pattern, q)
    && forall j :: 0 <= j < |rules| && Covers(rules[j].pattern, q) ==>
      |rules[j].pattern.domain| <= |rules[k].pattern.domain|
  }

  ghost predicate BestRule<V>(rules: seq<Rule<V>>, q: Str, r: Option<V>) {
    if r.None? then forall k :: 0 <= k < |rules| ==> !Covers(rules[k].pattern, q)
    else exists k :: 0 <= k < |rules| && Widest(rules, q, k) && rules[k].value == r.value
  }

  /** Of two names that match the same host name the one with more labels is the longer one. */
  lemma {:induction false} DeeperIsLonger(a: Str, b: Str, q: Str)
    requires Matches(a, q) && Matches(b, q) && Depth(a) <= Depth(b)
    ensures |Stem(a)| <= |Stem(b)|
    decreases |a|
  {
    if Terminal(a) {
      assert |Stem(a)| <= |Head(a)| by { PrefixOfHead(a); }
      assert |Head(b)| <= |Stem(b)| by { PrefixOfHead(b); }
    } else {
      DeeperIsLonger(Rest(a), Rest(b), q[..LabelStart(q) - 1]);
      StemOfRest(a);
      StemOfRest(b);
    }
  }

  lemma {:induction false} ReversedLength(d: Str)
    requires NoEmptyLabel(d)
    ensures |Reversed(d)| == |d| && Reversed(d) != [] && Reversed(d)[|d| - 1] != '.'
    decreases |d|
  {
    var n := LabelStart(d);
    if n > 0 { ReversedLength(d[..n - 1]); }
  }

  lemma LongestIsWidest(p: Pattern, p': Pattern, q: Str)
    requires NoEmptyLabel(p.domain) && NoEmptyLabel(p'.domain)
    requires Matches(ReversedName(p), q) && Matches(ReversedName(p'), q)
      && Depth(ReversedName(p)) <= Depth(ReversedName(p'))
    ensures |p.domain| <= |p'.domain|
  {
    hide Matches, Depth;
    DeeperIsLonger(ReversedName(p), ReversedName(p'), q);
    ReversedLength(p.domain);
    ReversedLength(p'.domain);
  }

  /** The tables answer with the value of the longest pattern that covers the host name, and with nothing
    * when none does. */
  lemma LongestPattern<V>(rules: seq<Rule<V>>, names: seq<Key<V>>, q: Str, r: Option<V>)
    requires forall k :: 0 <= k < |rules| ==> NoEmptyLabel(rules[k].pattern.domain)
    requires FromRules(rules, names) && Best(names, q, r)
    ensures BestRule(rules, q, r)
  {
    hide Matches, Covers, ReversedName, Depth, NoEmptyLabel;
    forall k | 0 <= k < |rules| ensures Matches(ReversedName(rules[k].pattern), q) <==> Covers(rules[k].pattern, q) {
      ReversedMeans(rules[k].pattern, q);
    }
    if r.Some? {
      var n :| 0 <= n < |names| && Longest(names, q, n) && names[n].value == r.value;
      var k :| 0 <= k < |rules| && names[n] == Turned(rules[k]);
      forall j | 0 <= j < |rules| && Covers(rules[j].pattern, q)
        ensures |rules[j].pattern.domain| <= |rules[k].pattern.domain|
      {
        assert Turned(rules[j]) in names;
        LongestIsWidest(rules[j].pattern, rules[k].pattern, q);
      }
      assert Widest(rules, q, k);
    }
  }

  // ---------------------------------------------------------------- the loop that reverses

  /** The last label of d taken off and put in front. */
  lemma ReverseStep(d: Str, k: nat, below: bool)
    requires NoEmptyLabel(d) && k <= |d| && (k > 0 ==> d[k - 1] == '.') && forall j :: k <= j < |d| ==> d[j] != '.'
    ensures k < |d| && (k > 0 ==> NoEmptyLabel(d[..k - 1]))
    ensures ReversedName(Pattern(d, below))
      == if k > 0 then d[k..] + "." + ReversedName(Pattern(d[..k - 1], below)) else d + if below then "." else ""
  {
    hide *;
    LabelsFull(d);
    StartsAt(d, k);
    ReversedUnfold(d, below);
  }

  lemma StartsAt(d: Str, k: nat)
    requires k <= |d| && (k > 0 ==> d[k - 1] == '.') && forall j :: k <= j < |d| ==> d[j] != '.'
    ensures LabelStart(d) == k
  {
    hide LabelStart;
  }

  lemma ReversedUnfold(d: Str, below: bool)
    ensures var k := LabelStart(d);
      ReversedName(Pattern(d, below))
      == if k > 0 then d[k..] + "." + ReversedName(Pattern(d[..k - 1], below)) else d + if below then "." else ""
  {
    var k := LabelStart(d);
    if k > 0 {
      Regroup(d[k..], ".", Reversed(d[..k - 1]), ".");
    } else {
      assert d + [] == d;
    }
  }

  lemma Regroup(a: Str, b: Str, c: Str, d: Str)
    ensures a + b + c + d == a + b + (c + d)
    ensures a + (b + c + d) == a + b + c + d
  {
  }

  /** Midway through the loop: r, and the reversal of what the loop has still to see together with the
    * len characters behind place i, make up the whole; or everything has been seen. */
  ghost predicate Turning(p: Pattern, r: Str, i: nat, len: nat) {
    var key, o := Written(p), if p.below then 2 else 1;
    && i + len < |key| && (forall k :: i < k <= i + len ==> key[k] != '.')
    && if i + 1 < o then r == ReversedName(p) && len == 0 else
         o <= i + 1 + len && NoEmptyLabel(key[o..i + 1 + len])
         && r + ReversedName(Pattern(key[o..i + 1 + len], p.below)) == ReversedName(p)
  }

  /** A dot at place i, behind which a label of that length ends what the loop has seen. */
  lemma LastLabel(key: Str, o: nat, i: nat, len: nat, below: bool)
    requires o <= i + 1 && i + len < |key| && key[i] == '.' && forall k :: i < k <= i + len ==> key[k] != '.'
    requires NoEmptyLabel(key[o..i + 1 + len])
    ensures i >= o ==> NoEmptyLabel(key[o..i])
    ensures ReversedName(Pattern(key[o..i + 1 + len], below))
      == key[i + 1..i + 1 + len] + if i >= o then "." + ReversedName(Pattern(key[o..i], below)) else if below then "."
        else ""
  {
    hide *;
    var d, x := key[o..i + 1 + len], key[i + 1..i + 1 + len];
    assert d[i + 1 - o..] == x;
    if i >= o { assert d[..i - o] == key[o..i] && d[i - o] == key[i]; }
    forall j | i + 1 - o <= j < |d| ensures d[j] != '.' { assert d[j] == key[o + j]; }
    ReverseStep(d, i + 1 - o, below);
    if i >= o { Regroup(x, ".", ReversedName(Pattern(key[o..i], below)), []); }
  }

  lemma TurnDot(p: Pattern, r: Str, i: nat, len: nat)
    requires Turning(p, r, i, len) && i > 0 && Written(p)[i] == '.'
    ensures Turning(p, r + Written(p)[i + 1..i + 1 + len] + ".", i - 1, 0)
  {
    hide *;
    var key, o := Written(p), if p.below then 2 else 1;
    TurningMeans(p, r, i, len);
    var x := key[i + 1..i + 1 + len];
    LastLabel(key, o, i, len, p.below);
    if i >= o {
      Regroup(r, x, ".", ReversedName(Pattern(key[o..i], p.below)));
    } else {
      Regroup(r, x, ".", []);
    }
    TurnedAt(p, r + x + ".", i);
  }

  lemma TurningMeans(p: Pattern, r: Str, i: nat, len: nat)
    requires Turning(p, r, i, len) && i > 0
    ensures var key, o := Written(p), if p.below then 2 else 1;
      && i + len < |key| && (forall k :: i < k <= i + len ==> key[k] != '.')
      && o <= i + 1 && NoEmptyLabel(key[o..i + 1 + len])
      && r + ReversedName(Pattern(key[o..i + 1 + len], p.below)) == ReversedName(p)
  {
    hide NoEmptyLabel, ReversedName, Written;
  }

  lemma TurnedAt(p: Pattern, r: Str, i: nat)
    requires 0 < i < |Written(p)|
    requires var o := if p.below then 2 else 1;
      if i < o then r == ReversedName(p)
      else NoEmptyLabel(Written(p)[o..i]) && r + ReversedName(Pattern(Written(p)[o..i], p.below)) == ReversedName(p)
    ensures Turning(p, r, i - 1, 0)
  {
    hide NoEmptyLabel, ReversedName, Written;
  }

  lemma TurnOther(p: Pattern, r: Str, i: nat, len: nat)
    requires Turning(p, r, i, len) && i > 0 && i < |Written(p)| && Written(p)[i] != '.'
    ensures Turning(p, r, i - 1, len + 1) && i + len < |Written(p)|
  {
    var key := Written(p);
    hide ReversedName, NoEmptyLabel;
    assert i - 1 + 1 + (len + 1) == i + 1 + len;
  }

  lemma TurnEnd(p: Pattern, r: Str, len: nat)
    requires Turning(p, r, 0, len)
    ensures (if len > 0 then r + Written(p)[1..1 + len] else r) == ReversedName(p)
  {
    if !p.below {
      var d := Written(p)[1..1 + len];
      ReverseStep(d, 0, false);
      assert d + "" == d;
    }
  }

  lemma TurnStart(p: Pattern)
    requires NoEmptyLabel(p.domain)
    ensures |Written(p)| > 0 && Turning(p, [], |Written(p)| - 1, 0)
  {
    var key, o := Written(p), if p.below then 2 else 1;
    assert key[o..|key|] == p.domain && [] + ReversedName(p) == ReversedName(p);
  }

  /** The loop of ngx_hash_add_key that turns a wildcard into its reversed name. */
  method Reverse(p: Pattern) returns (r: Str)
    requires NoEmptyLabel(p.domain)
    ensures r == ReversedName(p)
  {
    hide *;
    TurnStart(p);
    var key := Written(p);
    r := [];
    var len: nat, i: nat := 0, |key| - 1;
    while i > 0
      invariant i + len < |key| && Turning(p, r, i, len)
      decreases i
    {
      if key[i] == '.' {
        TurnDot(p, r, i, len);
        r := r + key[i + 1..i + 1 + len] + ".";
        len := 0;
      } else {
        TurnOther(p, r, i, len);
        len := len + 1;
      }
      i := i - 1;
    }
    TurnEnd(p, r, len);
    if len > 0 { r := r + key[1..1 + len]; }
  }
}
