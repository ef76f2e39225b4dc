/** Event timers on the red-black tree: src/event/ngx_event_timer.{h,c}.
  *
  * Times are machine words that wrap.  A ghost base fixes where the circle of words is cut: armed
  * keys and the current time lie in less than half the circle from there. */
module EventTimer {
  import opened RbShape
  import opened RbTree
  import opened RbOrder
  import opened Wrappers

  const LAZY_DELAY := 300

  datatype Call = Arm(ev: Event, delay: Key) | Disarm(ev: Event)

  class Event {
    /** The tree node embedded in the event. */
    const timer: Node
    /** What the event's handler does with timers. */
    const script: seq<Call>
    var timerSet: bool
    var timedout: bool

    constructor (timer: Node, script: seq<Call>)
      ensures this.timer == timer && this.script == script && !timerSet
    {
      this.timer, this.script := timer, script;
      timerSet, timedout := false, false;
    }
  }

  // ---------- the timer list as a value ----------

  ghost function RankT(base: Key, k: Key): Key { Rank(ByTimer, base, k) }

  ghost predicate Due(base: Key, now: Key, e: Entry<Node>) {
    RankT(base, e.key) <= RankT(base, now)
  }

  /** A call that arms for a strictly later moment inside the window. */
  ghost predicate Future(base: Key, now: Key, call: Call) {
    call.Arm? ==> 0 < call.delay && RankT(base, now) + call.delay < WORD / 2
  }

  function Deadline(now: Key, delay: Key): Key { (now + delay) % WORD }

  predicate TooClose(a: Key, b: Key) {
    -LAZY_DELAY < SignedDiff(a, b) < LAZY_DELAY
  }

  /** Arming a timer that is already armed for about the same moment changes nothing. */
  ghost function Armed(base: Key, s: seq<Entry<Node>>, node: Node, key: Key): seq<Entry<Node>> {
    if Lists(s, node) && TooClose(key, s[Find(s, node)].key) then s
    else InsertStable(ByTimer, base, Forget(s, node), Entry(node, key))
  }

  ghost function Called(base: Key, now: Key, s: seq<Entry<Node>>, call: Call): seq<Entry<Node>> {
    match call
    case Arm(ev, delay) => Armed(base, s, ev.timer, Deadline(now, delay))
    case Disarm(ev) => Forget(s, ev.timer)
  }

  ghost function CalledAll(base: Key, now: Key, s: seq<Entry<Node>>, calls: seq<Call>): seq<Entry<Node>>
    decreases |calls|
  {
    if calls == [] then s
    else CalledAll(base, now, Called(base, now, s, calls[0]), calls[1..])
  }

  ghost predicate Kept(base: Key, s: seq<Entry<Node>>) { WellKept(ByTimer, base, s) }

  lemma ForgetKeeps(base: Key, s: seq<Entry<Node>>, x: Node)
    requires Kept(base, s)
    ensures Kept(base, Forget(s, x)) && !Lists(Forget(s, x), x)
  {
    if Find(s, x) < |s| { RemoveKeeps(ByTimer, base, s, Find(s, x)); }
    ForgetLists(s, x, x);
  }

  lemma DeadlineRank(base: Key, now: Key, delay: Key)
    requires RankT(base, now) + delay < WORD / 2
    ensures RankT(base, Deadline(now, delay)) == RankT(base, now) + delay
    ensures InWindow(ByTimer, base, Deadline(now, delay))
  {
    var q, p := (now - base) / WORD, (now + delay) / WORD;
    Congruent(now, base);
    assert now + delay == p * WORD + Deadline(now, delay);
    assert Deadline(now, delay) - base == (RankT(base, now) + delay) + (q - p) * WORD;
    ModUnique(Deadline(now, delay) - base, q - p, RankT(base, now) + delay);
  }

  lemma CallKeeps(base: Key, now: Key, s: seq<Entry<Node>>, call: Call)
    requires Kept(base, s) && Future(base, now, call)
    ensures Kept(base, Called(base, now, s, call))
  {
    ForgetKeeps(base, s, call.ev.timer);
    if call.Arm? {
      DeadlineRank(base, now, call.delay);
      PutKeeps(ByTimer, base, Forget(s, call.ev.timer), Entry(call.ev.timer, Deadline(now, call.delay)));
    }
  }

  /** How many timers are due; the due ones come first in a sorted list. */
  ghost function DueCount(base: Key, now: Key, s: seq<Entry<Node>>): (n: nat)
    ensures n <= |s|
  {
    if s == [] then 0 else (if Due(base, now, s[0]) then 1 else 0) + DueCount(base, now, s[1..])
  }

  lemma {:induction false} DueConcat(base: Key, now: Key, a: seq<Entry<Node>>, b: seq<Entry<Node>>)
    ensures DueCount(base, now, a + b) == DueCount(base, now, a) + DueCount(base, now, b)
  {
    if a == [] {
      assert a + b == b;
    } else {
      assert (a + b)[1..] == a[1..] + b;
      DueConcat(base, now, a[1..], b);
    }
  }

  lemma ForgetDue(base: Key, now: Key, s: seq<Entry<Node>>, x: Node)
    ensures DueCount(base, now, Forget(s, x)) <= DueCount(base, now, s)
  {
    var k := Find(s, x);
    if k < |s| {
      DueConcat(base, now, s[..k], s[k..]);
      DueConcat(base, now, s[..k], s[k + 1..]);
      assert s == s[..k] + s[k..];
    }
  }

  /** Calls that arm for the future make no timer due. */
  lemma CallDue(base: Key, now: Key, s: seq<Entry<Node>>, call: Call)
    requires Future(base, now, call)
    ensures DueCount(base, now, Called(base, now, s, call)) <= DueCount(base, now, s)
  {
    var node := call.ev.timer;
    ForgetDue(base, now, s, node);
    if call.Arm? {
      var e := Entry(node, Deadline(now, call.delay));
      var f := Forget(s, node);
      DeadlineRank(base, now, call.delay);
      InsertAtSlot(ByTimer, base, f, e);
      var k := Slot(ByTimer, base, f, e.key);
      DueConcat(base, now, f[..k], f[k..]);
      DueConcat(base, now, f[..k] + [e], f[k..]);
      DueConcat(base, now, f[..k], [e]);
      assert f == f[..k] + f[k..];
      assert DueCount(base, now, [e]) == 0;
    }
  }

  lemma {:induction false} CallsKeep(base: Key, now: Key, s: seq<Entry<Node>>, calls: seq<Call>)
    requires Kept(base, s) && forall i :: 0 <= i < |calls| ==> Future(base, now, calls[i])
    ensures Kept(base, CalledAll(base, now, s, calls))
    ensures DueCount(base, now, CalledAll(base, now, s, calls)) <= DueCount(base, now, s)
    decreases |calls|
  {
    if calls != [] {
      CallKeeps(base, now, s, calls[0]);
      CallDue(base, now, s, calls[0]);
      CallsKeep(base, now, Called(base, now, s, calls[0]), calls[1..]);
    }
  }

  ghost predicate Polite(base: Key, now: Key, owner: map<Node, Event>) {
    forall n, i :: n in owner && 0 <= i < |owner[n].script| ==> Future(base, now, owner[n].script[i])
  }

  /** The list after the first timer has been taken out and its handler has run. */
  ghost function AfterFirst(base: Key, now: Key, owner: map<Node, Event>, s: seq<Entry<Node>>): seq<Entry<Node>>
    requires s != []
  {
    CalledAll(base, now, s[1..], if s[0].node in owner then owner[s[0].node].script else [])
  }

  lemma AfterFirstKeeps(base: Key, now: Key, owner: map<Node, Event>, s: seq<Entry<Node>>)
    requires s != [] && Kept(base, s) && Polite(base, now, owner) && Due(base, now, s[0])
    ensures Kept(base, AfterFirst(base, now, owner, s))
    ensures DueCount(base, now, AfterFirst(base, now, owner, s)) < DueCount(base, now, s)
  {
    RemoveKeeps(ByTimer, base, s, 0);
    assert RemoveAt(s, 0) == s[1..];
    CallsKeep(base, now, s[1..], if s[0].node in owner then owner[s[0].node].script else []);
  }

  /** Expiry: fire the first timer while it is due, let its handler run, and look again. */
  ghost function Expired(base: Key, now: Key, owner: map<Node, Event>, s: seq<Entry<Node>>)
    : (r: (seq<Entry<Node>>, seq<Entry<Node>>))
    requires Kept(base, s) && Polite(base, now, owner)
    decreases DueCount(base, now, s)
  {
    if s == [] || !Due(base, now, s[0]) then ([], s)
    else
      AfterFirstKeeps(base, now, owner, s);
      var (fired, rest) := Expired(base, now, owner, AfterFirst(base, now, owner, s));
      ([s[0]] + fired, rest)
  }

  /** What is left is strictly in the future, everything fired was due. */
  lemma {:induction false} ExpiredLeavesFuture(base: Key, now: Key, owner: map<Node, Event>, s: seq<Entry<Node>>)
    requires Kept(base, s) && Polite(base, now, owner)
    ensures var (fired, rest) := Expired(base, now, owner, s);
      && Kept(base, rest)
      && (forall i :: 0 <= i < |rest| ==> RankT(base, now) < RankT(base, rest[i].key))
      && (forall i :: 0 <= i < |fired| ==> Due(base, now, fired[i]))
    decreases DueCount(base, now, s)
  {
    if s != [] && Due(base, now, s[0]) {
      AfterFirstKeeps(base, now, owner, s);
      ExpiredLeavesFuture(base, now, owner, AfterFirst(base, now, owner, s));
    }
  }

  ghost predicate NotBefore(base: Key, low: Key, s: seq<Entry<Node>>) {
    forall i :: 0 <= i < |s| ==> low <= RankT(base, s[i].key)
  }

  lemma CallNotBefore(base: Key, now: Key, s: seq<Entry<Node>>, call: Call, low: Key)
    requires Future(base, now, call) && NotBefore(base, low, s) && low <= RankT(base, now)
    ensures NotBefore(base, low, Called(base, now, s, call))
  {
    var f := Forget(s, call.ev.timer);
    assert NotBefore(base, low, f);
    if call.Arm? {
      var e := Entry(call.ev.timer, Deadline(now, call.delay));
      DeadlineRank(base, now, call.delay);
      InsertAtSlot(ByTimer, base, f, e);
      InsertNotBefore(base, low, f, e, Slot(ByTimer, base, f, e.key));
    }
  }

  lemma InsertNotBefore(base: Key, low: Key, s: seq<Entry<Node>>, e: Entry<Node>, k: nat)
    requires NotBefore(base, low, s) && low <= RankT(base, e.key) && k <= |s|
    ensures NotBefore(base, low, s[..k] + [e] + s[k..])
  {
  }

  lemma {:induction false} CallsNotBefore(base: Key, now: Key, s: seq<Entry<Node>>, calls: seq<Call>, low: Key)
    requires forall i :: 0 <= i < |calls| ==> Future(base, now, calls[i])
    requires NotBefore(base, low, s) && low <= RankT(base, now)
    ensures NotBefore(base, low, CalledAll(base, now, s, calls))
    decreases |calls|
  {
    if calls != [] {
      CallNotBefore(base, now, s, calls[0], low);
      CallsNotBefore(base, now, Called(base, now, s, calls[0]), calls[1..], low);
    }
  }

  lemma PrependSorted(base: Key, e: Entry<Node>, s: seq<Entry<Node>>)
    requires Sorted(ByTimer, base, s) && NotBefore(base, RankT(base, e.key), s)
    ensures Sorted(ByTimer, base, [e] + s)
  {
  }

  lemma AfterFirstNotBefore(base: Key, now: Key, owner: map<Node, Event>, s: seq<Entry<Node>>)
    requires s != [] && Kept(base, s) && Polite(base, now, owner) && Due(base, now, s[0])
    ensures NotBefore(base, RankT(base, s[0].key), AfterFirst(base, now, owner, s))
  {
    CallsNotBefore(base, now, s[1..], if s[0].node in owner then owner[s[0].node].script else [],
                   RankT(base, s[0].key));
  }

  /** Timers fire in order of deadline, whatever the handlers arm for later. */
  lemma {:induction false} ExpiredInOrder(base: Key, now: Key, owner: map<Node, Event>, s: seq<Entry<Node>>, low: Key)
    requires Kept(base, s) && Polite(base, now, owner) && NotBefore(base, low, s)
    ensures var fired := Expired(base, now, owner, s).0;
      Sorted(ByTimer, base, fired) && NotBefore(base, low, fired)
    decreases DueCount(base, now, s)
  {
    if s != [] && Due(base, now, s[0]) {
      hide Kept, AfterFirst, Polite;
      var next, first := AfterFirst(base, now, owner, s), RankT(base, s[0].key);
      AfterFirstKeeps(base, now, owner, s);
      AfterFirstNotBefore(base, now, owner, s);
      ExpiredInOrder(base, now, owner, next, first);
      PrependSorted(base, s[0], Expired(base, now, owner, next).0);
    }
  }

  /** a is what is left of b when some of it is taken out. */
  ghost predicate Sub<T>(a: seq<T>, b: seq<T>)
    decreases |b|
  {
    a == [] || (b != [] && (Sub(a, b[1..]) || (a[0] == b[0] && Sub(a[1..], b[1..]))))
  }

  lemma {:induction false} SubSelf<T>(a: seq<T>)
    ensures Sub(a, a)
  {
    if a != [] { SubSelf(a[1..]); }
  }

  lemma {:induction false} SubTail<T>(a: seq<T>, b: seq<T>)
    requires a != [] && Sub(a, b)
    ensures Sub(a[1..], b)
    decreases |b|
  {
    if Sub(a, b[1..]) { SubTail(a, b[1..]); }
  }

  lemma {:induction false} SubTransitive<T>(a: seq<T>, b: seq<T>, c: seq<T>)
    requires Sub(a, b) && Sub(b, c)
    ensures Sub(a, c)
    decreases |c|
  {
    if a != [] {
      if Sub(b, c[1..]) {
        SubTransitive(a, b, c[1..]);
      } else if Sub(a, b[1..]) {
        SubTransitive(a, b[1..], c[1..]);
      } else {
        SubTransitive(a[1..], b[1..], c[1..]);
      }
    }
  }

  lemma {:induction false} SubAround<T>(a: seq<T>, b: seq<T>, c: seq<T>)
    ensures Sub(a + c, a + b + c)
    decreases |a| + |b|
  {
    if a != [] {
      SubAround(a[1..], b, c);
      assert (a + c)[1..] == a[1..] + c && (a + b + c)[1..] == a[1..] + b + c;
    } else if b != [] {
      SubAround([], b[1..], c);
      assert [] + c == c && ([] + b + c)[1..] == [] + b[1..] + c;
    } else {
      assert [] + c == c && [] + [] + c == c;
      SubSelf(c);
    }
  }

  /** The due timers, in the order of the list. */
  ghost function DueOf(base: Key, now: Key, s: seq<Entry<Node>>): seq<Entry<Node>> {
    if s == [] then [] else (if Due(base, now, s[0]) then [s[0]] else []) + DueOf(base, now, s[1..])
  }

  lemma {:induction false} DueOfConcat(base: Key, now: Key, a: seq<Entry<Node>>, b: seq<Entry<Node>>)
    ensures DueOf(base, now, a + b) == DueOf(base, now, a) + DueOf(base, now, b)
  {
    hide Due;
    if a == [] {
      assert a + b == b;
    } else {
      assert (a + b)[1..] == a[1..] + b;
      DueOfConcat(base, now, a[1..], b);
      var d := if Due(base, now, a[0]) then [a[0]] else [];
      assert d + (DueOf(base, now, a[1..]) + DueOf(base, now, b)) == d + DueOf(base, now, a[1..]) + DueOf(base, now, b);
    }
  }

  lemma DueOfOne(base: Key, now: Key, e: Entry<Node>)
    ensures DueOf(base, now, [e]) == if Due(base, now, e) then [e] else []
  {
    assert [e][1..] == [];
  }

  lemma ForgetSub(base: Key, now: Key, s: seq<Entry<Node>>, x: Node)
    ensures Sub(DueOf(base, now, Forget(s, x)), DueOf(base, now, s))
  {
    var k := Find(s, x);
    if k < |s| {
      var a, b, c := s[..k], [s[k]], s[k + 1..];
      assert s == a + b + c;
      hide Sub, DueOf;
      DueOfConcat(base, now, a + b, c);
      DueOfConcat(base, now, a, b);
      DueOfConcat(base, now, a, c);
      SubAround(DueOf(base, now, a), DueOf(base, now, b), DueOf(base, now, c));
    } else {
      SubSelf(DueOf(base, now, s));
    }
  }

  /** A timer that is armed for the future is not among the due ones. */
  lemma InsertLater(base: Key, now: Key, f: seq<Entry<Node>>, e: Entry<Node>)
    requires !Due(base, now, e)
    ensures DueOf(base, now, InsertStable(ByTimer, base, f, e)) == DueOf(base, now, f)
  {
    InsertAtSlot(ByTimer, base, f, e);
    var k := Slot(ByTimer, base, f, e.key);
    var x, y := DueOf(base, now, f[..k]), DueOf(base, now, f[k..]);
    assert f == f[..k] + f[k..];
    hide DueOf, InsertStable;
    DueOfConcat(base, now, f[..k], f[k..]);
    DueOfConcat(base, now, f[..k] + [e], f[k..]);
    DueOfConcat(base, now, f[..k], [e]);
    DueOfOne(base, now, e);
    assert x + [] == x;
  }

  /** A call of a polite handler takes due timers out, but puts none in and moves none. */
  lemma CallSub(base: Key, now: Key, s: seq<Entry<Node>>, call: Call)
    requires Future(base, now, call)
    ensures Sub(DueOf(base, now, Called(base, now, s, call)), DueOf(base, now, s))
  {
    ForgetSub(base, now, s, call.ev.timer);
    SubSelf(DueOf(base, now, s));
    if call.Arm? {
      DeadlineRank(base, now, call.delay);
      InsertLater(base, now, Forget(s, call.ev.timer), Entry(call.ev.timer, Deadline(now, call.delay)));
    }
    hide Sub, DueOf, InsertStable, Forget;
  }

  lemma {:induction false} CallsSub(base: Key, now: Key, s: seq<Entry<Node>>, calls: seq<Call>)
    requires forall i :: 0 <= i < |calls| ==> Future(base, now, calls[i])
    ensures Sub(DueOf(base, now, CalledAll(base, now, s, calls)), DueOf(base, now, s))
    decreases |calls|
  {
    hide Sub, DueOf, Called;
    if calls == [] {
      SubSelf(DueOf(base, now, s));
    } else {
      var t := Called(base, now, s, calls[0]);
      CallSub(base, now, s, calls[0]);
      CallsSub(base, now, t, calls[1..]);
      SubTransitive(DueOf(base, now, CalledAll(base, now, t, calls[1..])), DueOf(base, now, t), DueOf(base, now, s));
    }
  }

  ghost function Script(owner: map<Node, Event>, n: Node): seq<Call> {
    if n in owner then owner[n].script else []
  }

  /** Timers fire in the order of the list, which is that of deadlines with ties in arming order; handlers
    * can only make some due timers drop out. */
  lemma {:induction false} ExpiredSub(base: Key, now: Key, owner: map<Node, Event>, s: seq<Entry<Node>>)
    requires Kept(base, s) && Polite(base, now, owner)
    ensures Sub(Expired(base, now, owner, s).0, DueOf(base, now, s))
    decreases DueCount(base, now, s)
  {
    if s != [] && Due(base, now, s[0]) {
      var next := AfterFirst(base, now, owner, s);
      AfterFirstKeeps(base, now, owner, s);
      ExpiredSub(base, now, owner, next);
      CallsSub(base, now, s[1..], Script(owner, s[0].node));
      hide Kept, AfterFirst, Polite, Due;
      var fired := Expired(base, now, owner, next).0;
      SubTransitive(fired, DueOf(base, now, next), DueOf(base, now, s[1..]));
      SubPrepend(s[0], fired, DueOf(base, now, s[1..]));
    }
  }

  lemma SubPrepend<T>(x: T, a: seq<T>, b: seq<T>)
    requires Sub(a, b)
    ensures Sub([x] + a, [x] + b)
  {
    assert ([x] + a)[1..] == a && ([x] + b)[1..] == b;
  }

  /** Some call of the script is about the timer. */
  ghost predicate Touches(calls: seq<Call>, n: Node) {
    exists i :: 0 <= i < |calls| && calls[i].ev.timer == n
  }

  lemma ForgetLeaves(s: seq<Entry<Node>>, x: Node, e: Entry<Node>)
    requires e in s && x != e.node
    ensures e in Forget(s, x)
  {
    var f, k := Forget(s, x), Find(s, x);
    var i :| 0 <= i < |s| && s[i] == e;
    if k < |s| { assert f[if i < k then i else i - 1] == e; }
  }

  lemma InsertLeaves(base: Key, f: seq<Entry<Node>>, d: Entry<Node>, e: Entry<Node>)
    requires e in f
    ensures e in InsertStable(ByTimer, base, f, d)
  {
    InsertAtSlot(ByTimer, base, f, d);
    var m := Slot(ByTimer, base, f, d.key);
    var j :| 0 <= j < |f| && f[j] == e;
    assert (f[..m] + [d] + f[m..])[if j < m then j else j + 1] == e;
  }

  lemma CallLeaves(base: Key, now: Key, s: seq<Entry<Node>>, call: Call, e: Entry<Node>)
    requires e in s && call.ev.timer != e.node
    ensures e in Called(base, now, s, call)
  {
    hide Forget, InsertStable;
    ForgetLeaves(s, call.ev.timer, e);
    if call.Arm? {
      InsertLeaves(base, Forget(s, call.ev.timer), Entry(call.ev.timer, Deadline(now, call.delay)), e);
    }
  }

  lemma {:induction false} CallsLeave(base: Key, now: Key, s: seq<Entry<Node>>, calls: seq<Call>, e: Entry<Node>)
    requires e in s && !Touches(calls, e.node)
    ensures e in CalledAll(base, now, s, calls)
    decreases |calls|
  {
    if calls != [] {
      assert calls[0].ev.timer != e.node;
      CallLeaves(base, now, s, calls[0], e);
      assert forall i :: 0 <= i < |calls[1..]| ==> calls[1..][i] == calls[i + 1];
      CallsLeave(base, now, Called(base, now, s, calls[0]), calls[1..], e);
    }
  }

  /** A due timer that does not fire was disarmed or armed anew by the handler of one that did. */
  lemma {:induction false} MissedWasTouched(base: Key, now: Key, owner: map<Node, Event>, s: seq<Entry<Node>>,
      e: Entry<Node>)
    requires Kept(base, s) && Polite(base, now, owner) && e in s && Due(base, now, e)
    ensures var fired := Expired(base, now, owner, s).0;
      e in fired || exists d :: d in fired && Touches(Script(owner, d.node), e.node)
    decreases DueCount(base, now, s)
  {
    DueFirst(base, now, s, e);
    AfterFirstKeeps(base, now, owner, s);
    var next := AfterFirst(base, now, owner, s);
    var later := Expired(base, now, owner, next).0;
    hide Kept, Polite, Due;
    assert s[0] in [s[0]] + later;
    if e != s[0] && !Touches(Script(owner, s[0].node), e.node) {
      assert e in s[1..];
      CallsLeave(base, now, s[1..], Script(owner, s[0].node), e);
      MissedWasTouched(base, now, owner, next, e);
      if e !in later {
        var d :| d in later && Touches(Script(owner, d.node), e.node);
        assert d in [s[0]] + later;
      }
    }
  }

  lemma DueFirst(base: Key, now: Key, s: seq<Entry<Node>>, e: Entry<Node>)
    requires Kept(base, s) && e in s && Due(base, now, e)
    ensures Due(base, now, s[0])
  {
    var i :| 0 <= i < |s| && s[i] == e;
    assert RankT(base, s[0].key) <= RankT(base, s[i].key);
  }

  lemma KeptTail(base: Key, s: seq<Entry<Node>>)
    requires Kept(base, s) && s != []
    ensures Kept(base, s[1..])
  {
    RemoveKeeps(ByTimer, base, s, 0);
    assert RemoveAt(s, 0) == s[1..];
  }

  /** With handlers that touch no timers, exactly the due prefix fires, ties in arming order. */
  lemma {:induction false} QuietExpiry(base: Key, now: Key, owner: map<Node, Event>, s: seq<Entry<Node>>)
    requires Kept(base, s) && forall n :: n in owner ==> owner[n].script == []
    ensures Polite(base, now, owner)
    ensures var k := DueCount(base, now, s); Expired(base, now, owner, s) == (s[..k], s[k..])
    decreases |s|
  {
    hide Kept;
    if s == [] {
    } else if Due(base, now, s[0]) {
      KeptTail(base, s);
      assert AfterFirst(base, now, owner, s) == s[1..];
      QuietExpiry(base, now, owner, s[1..]);
      var k := DueCount(base, now, s[1..]);
      assert [s[0]] + s[1..][..k] == s[..k + 1];
    } else {
      NoneDue(base, now, s);
      assert s[..0] == [] && s[0..] == s;
    }
  }

  lemma {:induction false} NoneDue(base: Key, now: Key, s: seq<Entry<Node>>)
    requires Kept(base, s) && (s != [] ==> !Due(base, now, s[0]))
    ensures DueCount(base, now, s) == 0
  {
    if s != [] {
      KeptTail(base, s);
      NoneDue(base, now, s[1..]);
    }
  }

  // ---------- the timer tree ----------

  class Timers {
    const tree: RbTree
    /** From an embedded node back to its event. */
    const owner: map<Node, Event>
    var now: Key

    ghost predicate Wired()
      reads this, tree, owner.Keys, owner.Values, tree.sentinel, Nodes(tree.shape)
    {
      && tree.order == ByTimer && tree.Valid() && tree.sentinel !in owner
      && Nodes(tree.shape) <= owner.Keys
      && (forall n :: n in owner ==> owner[n].timer == n && owner[n].timerSet == (n in Nodes(tree.shape)))
    }

    ghost predicate Valid(base: Key)
      reads this, tree, owner.Keys, owner.Values, tree.sentinel, Nodes(tree.shape)
    {
      Wired() && Kept(base, Entries(tree.shape)) && InWindow(ByTimer, base, now)
    }

    ghost predicate Owns(ev: Event) { ev.timer in owner && owner[ev.timer] == ev }

    constructor (sentinel: Node, owner: map<Node, Event>, now: Key)
      requires sentinel !in owner && forall n :: n in owner ==> owner[n].timer == n && !owner[n].timerSet
      modifies sentinel
      ensures Valid(now) && tree.shape == Nil && this.owner == owner && this.now == now && fresh(tree)
    {
      this.owner, this.now := owner, now;
      tree := new RbTree(sentinel, ByTimer);
    }

    /** The clock moves on, and with it the half circle in which the deadlines lie. */
    method Tick(time: Key, ghost base: Key, ghost base': Key)
      requires Valid(base) && InWindow(ByTimer, base', time) && AllInWindow(ByTimer, base', Entries(tree.shape))
      modifies this`now
      ensures Valid(base') && now == time
    {
      Rebase(base, base', Entries(tree.shape));
      hide WellKept, AllInWindow;
      now := time;
    }

    /** ngx_event_del_timer. */
    method DelTimer(ev: Event, ghost base: Key)
      requires Valid(base) && Owns(ev) && ev.timerSet
      modifies tree, tree.sentinel, owner.Keys, ev`timerSet
      ensures Valid(base) && Entries(tree.shape) == Forget(old(Entries(tree.shape)), ev.timer)
      ensures !ev.timerSet
    {
      hide Nodes, Entries, WellKept, Forget, InsertStable;
      DeleteKey(tree, ev.timer, base);
      Disarm(ev, base);
    }

    method Disarm(ev: Event, ghost base: Key)
      requires tree.order == ByTimer && tree.Valid() && tree.sentinel !in owner && Owns(ev)
      requires Kept(base, Entries(tree.shape)) && InWindow(ByTimer, base, now)
      requires Nodes(tree.shape) <= owner.Keys && ev.timer !in Nodes(tree.shape)
      requires forall n :: n in owner ==> owner[n].timer == n
      requires forall n :: n in owner && n != ev.timer ==> owner[n].timerSet == (n in Nodes(tree.shape))
      modifies ev`timerSet
      ensures Valid(base) && !ev.timerSet
    {
      ev.timerSet := false;
    }

    /** ngx_event_add_timer. */
    method AddTimer(ev: Event, delay: Key, ghost base: Key)
      requires Valid(base) && Owns(ev) && RankT(base, now) + delay < WORD / 2
      modifies tree, tree.sentinel, owner.Keys, ev`timerSet
      ensures Valid(base) && ev.timerSet
      ensures Entries(tree.shape) == Armed(base, old(Entries(tree.shape)), ev.timer, Deadline(now, delay))
      ensures Entry(ev.timer, ev.timer.key) in Entries(tree.shape)
      ensures -300 < RankT(base, ev.timer.key) - (RankT(base, now) + delay) < 300
      ensures ev.timer.key ==
        if old(ev.timerSet) && -300 < RankT(base, old(ev.timer.key)) - (RankT(base, now) + delay) < 300
        then old(ev.timer.key) else (now + delay) % WORD
    {
      hide Nodes, Entries, Kept, Forget, InsertStable, RankT, Lists, Find, Armed;
      ghost var s := Entries(tree.shape);
      var key := Deadline(now, delay);
      DeadlineRank(base, now, delay);
      StoredKey(ev);
      Rearm(ev, key, base);
      NearKey(ev, s, key, base);
    }

    /** An armed timer is left alone when its deadline is near the new one. */
    method Rearm(ev: Event, key: Key, ghost base: Key)
      requires Valid(base) && Owns(ev) && InWindow(ByTimer, base, key)
      modifies tree, tree.sentinel, owner.Keys, ev`timerSet
      ensures Valid(base) && ev.timerSet
      ensures Entries(tree.shape) == Armed(base, old(Entries(tree.shape)), ev.timer, key)
    {
      hide Nodes, Entries, Kept, Forget, InsertStable, RankT, Lists, Find, Armed;
      ghost var s := Entries(tree.shape);
      StoredKey(ev);
      ForgetAbsent(s, ev.timer);
      ArmedIs(base, s, ev.timer, key);
      if ev.timerSet {
        var diff := SignedDiff(key, ev.timer.key);
        if (if diff >= 0 then diff else -diff) < LAZY_DELAY {
          return;
        }
        DelTimer(ev, base);
      }
      Link(ev, key, base);
    }

    lemma ArmedIs(base: Key, s: seq<Entry<Node>>, node: Node, key: Key)
      ensures Armed(base, s, node, key) ==
        if Lists(s, node) && -LAZY_DELAY < SignedDiff(key, s[Find(s, node)].key) < LAZY_DELAY then s
        else InsertStable(ByTimer, base, Forget(s, node), Entry(node, key))
    {
    }

    lemma NearKey(ev: Event, s: seq<Entry<Node>>, key: Key, base: Key)
      requires Valid(base) && Owns(ev) && Kept(base, s) && InWindow(ByTimer, base, key)
      requires Entries(tree.shape) == Armed(base, s, ev.timer, key)
      ensures Entry(ev.timer, ev.timer.key) in Entries(tree.shape)
      ensures -300 < RankT(base, ev.timer.key) - RankT(base, key) < 300
      ensures ev.timer.key ==
        if Lists(s, ev.timer) && -300 < RankT(base, s[Find(s, ev.timer)].key) - RankT(base, key) < 300
        then s[Find(s, ev.timer)].key else key
    {
      ArmedNear(base, s, ev.timer, key);
      StoredKey(ev);
      ghost var t := Entries(tree.shape);
      EntriesList(tree.shape, ev.timer);
      assert t[Find(t, ev.timer)] == Entry(ev.timer, ev.timer.key);
    }

    lemma StoredKey(ev: Event)
      requires Wired() && Owns(ev)
      ensures var s := Entries(tree.shape);
        && (ev.timerSet <==> Lists(s, ev.timer))
        && (ev.timerSet ==> Find(s, ev.timer) < |s| && s[Find(s, ev.timer)].key == ev.timer.key)
    {
      var s := Entries(tree.shape);
      EntriesList(tree.shape, ev.timer);
      if ev.timerSet { tree.KeysStored(s[Find(s, ev.timer)]); }
    }

    lemma ForgetAbsent(s: seq<Entry<Node>>, x: Node)
      ensures !Lists(s, x) ==> Forget(s, x) == s
    {
    }

    /** Put the event's node, which is out of the tree, into it. */
    method Link(ev: Event, key: Key, ghost base: Key)
      requires Valid(base) && Owns(ev) && !ev.timerSet && InWindow(ByTimer, base, key)
      modifies tree, tree.sentinel, owner.Keys, ev`timerSet
      ensures Valid(base) && ev.timerSet
      ensures Entries(tree.shape) == InsertStable(ByTimer, base, old(Entries(tree.shape)), Entry(ev.timer, key))
    {
      InsertKey(tree, ev.timer, key, base);
      ev.timerSet := true;
    }

    /** ngx_rbtree_min on the whole tree finds the first entry. */
    method First() returns (node: Node)
      requires Wired() && tree.shape.Bin?
      ensures Entries(tree.shape) != [] && Entries(tree.shape)[0] == Entry(node, node.key)
      ensures node in Nodes(tree.shape) && Wired()
    {
      PlugTop(tree.shape);
      ghost var inner, s;
      node, inner, s := tree.Min(tree.root, tree.shape, Top);
      SpineEntries(inner, s);
      EntriesList(tree.shape, node);
      tree.KeysStored(Entries(tree.shape)[0]);
    }

    /** ngx_event_find_timer: how long to sleep; None stands for NGX_TIMER_INFINITE. */
    method FindTimer(ghost base: Key) returns (timer: Option<Key>)
      requires Valid(base)
      ensures timer.None? <==> Entries(tree.shape) == []
      ensures timer.Some? ==> Soonest(base, now, Entries(tree.shape), timer.value)
    {
      if tree.root == tree.sentinel {
        return None;
      }
      var node := First();
      var d := SignedDiff(node.key, now);
      DiffIsDistance(base, node.key, now);
      return Some(if d > 0 then d else 0);
    }

    ghost predicate Scripted()
    {
      forall n, i :: n in owner && 0 <= i < |owner[n].script| ==> Owns(owner[n].script[i].ev)
    }

    /** ev->handler(ev): the calls of its script, in order. */
    method Handle(ev: Event, ghost base: Key)
      requires Valid(base) && Owns(ev) && Scripted() && Polite(base, now, owner)
      modifies tree, tree.sentinel, owner.Keys, owner.Values`timerSet
      ensures Valid(base)
      ensures Entries(tree.shape) == CalledAll(base, now, old(Entries(tree.shape)), ev.script)
    {
      hide Wired, Kept, Entries, Called;
      ghost var s := Entries(tree.shape);
      for i := 0 to |ev.script|
        invariant Valid(base)
        invariant CalledAll(base, now, s, ev.script) == CalledAll(base, now, Entries(tree.shape), ev.script[i..])
      {
        assert ev.script[i..][1..] == ev.script[i + 1..];
        Perform(ev.script[i], base);
      }
    }

    method Perform(call: Call, ghost base: Key)
      requires Valid(base) && Owns(call.ev) && Future(base, now, call)
      modifies tree, tree.sentinel, owner.Keys, call.ev`timerSet
      ensures Valid(base)
      ensures Entries(tree.shape) == Called(base, now, old(Entries(tree.shape)), call)
    {
      match call {
        case Arm(ev, delay) => AddTimer(ev, delay, base);
        case Disarm(ev) =>
          StoredKey(ev);
          ForgetAbsent(Entries(tree.shape), ev.timer);
          if ev.timerSet {
            DelTimer(ev, base);
          }
      }
    }

    /** ngx_event_expire_timers. */
    method ExpireTimers(ghost base: Key) returns (ghost fired: seq<Entry<Node>>)
      requires Valid(base) && Scripted() && Polite(base, now, owner)
      modifies tree, tree.sentinel, owner.Keys, owner.Values`timerSet, owner.Values`timedout
      ensures Valid(base)
      ensures (fired, Entries(tree.shape)) == Expired(base, now, owner, old(Entries(tree.shape)))
      ensures forall n :: n in owner ==> owner[n].timedout == (old(owner[n].timedout) || Lists(fired, n))
    {
      hide Wired, Kept, Entries, AfterFirst, Lists;
      ghost var s := Entries(tree.shape);
      fired := [];
      NoneListed();
      while true
        invariant Valid(base)
        invariant Kept(base, Entries(tree.shape))
        invariant Expired(base, now, owner, s).0 == fired + Expired(base, now, owner, Entries(tree.shape)).0
        invariant Expired(base, now, owner, s).1 == Expired(base, now, owner, Entries(tree.shape)).1
        invariant forall n :: n in owner ==> owner[n].timedout == (old(owner[n].timedout) || Lists(fired, n))
        decreases DueCount(base, now, Entries(tree.shape))
      {
        RootEmpty();
        assert fired + [] == fired;
        if tree.root == tree.sentinel {
          return;
        }
        var node := First();
        ghost var e := Entries(tree.shape)[0];
        FirstDue(base);
        if SignedDiff(node.key, now) > 0 {
          return;
        }
        AfterFirstKeeps(base, now, owner, Entries(tree.shape));
        ghost var later := Expired(base, now, owner, AfterFirst(base, now, owner, Entries(tree.shape))).0;
        assert fired + ([e] + later) == (fired + [e]) + later;
        Fire(owner[node], base);
        ListsOneMore(fired, e);
        fired := fired + [e];
      }
    }

    lemma RootEmpty()
      requires Wired()
      ensures tree.root == tree.sentinel <==> Entries(tree.shape) == []
      ensures tree.root != tree.sentinel ==> tree.shape.Bin?
    {
    }

    lemma FirstDue(base: Key)
      requires Valid(base) && Entries(tree.shape) != []
      ensures var e := Entries(tree.shape)[0]; SignedDiff(e.key, now) <= 0 <==> Due(base, now, e)
    {
      DiffIsDistance(base, Entries(tree.shape)[0].key, now);
    }

    /** The first timer is due: take it out, mark its event and run the handler. */
    method Fire(ev: Event, ghost base: Key)
      requires Valid(base) && Owns(ev) && Scripted() && Polite(base, now, owner)
      requires Entries(tree.shape) != [] && Entries(tree.shape)[0].node == ev.timer
      modifies tree, tree.sentinel, owner.Keys, owner.Values`timerSet, ev`timedout
      ensures Valid(base) && ev.timedout
      ensures forall n :: n in owner && n != ev.timer ==> owner[n].timedout == old(owner[n].timedout)
      ensures Entries(tree.shape) == AfterFirst(base, now, owner, old(Entries(tree.shape)))
    {
      hide Entries, Kept, Wired, CalledAll;
      ghost var s := Entries(tree.shape);
      FirstIsSet(ev);
      DelTimer(ev, base);
      MarkTimedOut(ev, base);
      Handle(ev, base);
    }

    method MarkTimedOut(ev: Event, ghost base: Key)
      requires Valid(base) && Owns(ev)
      modifies ev`timedout
      ensures Valid(base) && ev.timedout
      ensures forall n :: n in owner && n != ev.timer ==> owner[n].timedout == old(owner[n].timedout)
    {
      ev.timedout := true;
    }

    lemma FirstIsSet(ev: Event)
      requires Wired() && Owns(ev) && Entries(tree.shape) != [] && Entries(tree.shape)[0].node == ev.timer
      ensures ev.timerSet && Forget(Entries(tree.shape), ev.timer) == Entries(tree.shape)[1..]
    {
      StoredKey(ev);
      assert Find(Entries(tree.shape), ev.timer) == 0;
    }
  }

  /** The time left until a deadline, zero once it has passed. */
  ghost function Remaining(base: Key, now: Key, e: Entry<Node>): Key {
    if Due(base, now, e) then 0 else RankT(base, e.key) - RankT(base, now)
  }

  ghost predicate Soonest(base: Key, now: Key, s: seq<Entry<Node>>, t: Key) {
    && (forall i :: 0 <= i < |s| ==> t <= Remaining(base, now, s[i]))
    && (exists i :: 0 <= i < |s| && t == Remaining(base, now, s[i]))
  }

  /** Inside the window the signed difference of two times is their distance. */
  lemma DiffIsDistance(base: Key, a: Key, b: Key)
    requires InWindow(ByTimer, base, a) && InWindow(ByTimer, base, b)
    ensures SignedDiff(a, b) == RankT(base, a) - RankT(base, b)
  {
    Congruent(a, base);
    Congruent(b, base);
    var x, y := RankT(base, a), RankT(base, b);
    var i, j := (a - base) / WORD, (b - base) / WORD;
    assert a - b == (x - y) + (i - j) * WORD;
    ModShift(x - y, i - j);
  }

  lemma NoneListed()
    ensures forall n :: !Lists<Node>([], n)
  {
  }

  lemma ListsOneMore(s: seq<Entry<Node>>, e: Entry<Node>)
    ensures forall n :: Lists(s + [e], n) <==> Lists(s, n) || n == e.node
  {
    var t := s + [e];
    assert t[|s|] == e && forall i :: 0 <= i < |s| ==> t[i] == s[i];
  }

  lemma FindInserted(base: Key, s: seq<Entry<Node>>, e: Entry<Node>)
    requires !Lists(s, e.node)
    ensures var t := InsertStable(ByTimer, base, s, e); Lists(t, e.node) && t[Find(t, e.node)] == e
  {
    var k, t := Slot(ByTimer, base, s, e.key), InsertStable(ByTimer, base, s, e);
    InsertAtSlot(ByTimer, base, s, e);
    assert t[k] == e;
    forall i | 0 <= i < |t| && i != k ensures t[i].node != e.node {
      assert t[i] == if i < k then s[i] else s[i - 1];
    }
  }

  /** An armed timer's deadline is less than 300 away from the one asked for, on either side, and is that one unless
    * the timer was armed for a moment so near. */
  lemma ArmedNear(base: Key, s: seq<Entry<Node>>, node: Node, key: Key)
    requires Kept(base, s) && InWindow(ByTimer, base, key)
    ensures Lists(Armed(base, s, node, key), node)
    ensures var t := Armed(base, s, node, key);
      var k := t[Find(t, node)].key;
      && -300 < RankT(base, k) - RankT(base, key) < 300
      && k == if Lists(s, node) && -300 < RankT(base, s[Find(s, node)].key) - RankT(base, key) < 300
              then s[Find(s, node)].key else key
  {
    if Lists(s, node) { DiffIsDistance(base, key, s[Find(s, node)].key); }
    ForgetKeeps(base, s, node);
    hide RankT, SignedDiff, Forget;
    FindInserted(base, Forget(s, node), Entry(node, key));
  }
}
