/** The shared-memory mutex of src/core/ngx_shmtx.c, atomic-operations branch, as the interleaved
  * steps of any number of processes.  One step is one access to shared memory: a read of the lock
  * word, a compare-and-set, a semaphore wait or a semaphore post. */
module Shmtx {
  const LOCK: nat := 0x8000_0000
  const UINT_LIMIT: nat := 0x1_0000_0000_0000_0000

  type Pid = nat

  /** What is fixed for a run: the per-mutex spin limit, the number of CPUs, and whether the
    * semaphore could be initialised. */
  datatype Config = Config(spin: nat, manyCpus: bool, semaphore: bool)

  /** Where a process stands; val and seen are the word it last read. */
  datatype Pc =
    | Idle
    | TryRead | TryCas(val: nat)
    | LockRead | LockCas(val: nat)
    | SpinRead(n: nat) | SpinCas(n: nat, val: nat)
    | WaitRead | WaitCas(val: nat)
    | Sleeping
    | Owner
    | UnlockRead | UnlockCas(seen: nat)
    | Posting

  datatype State = State(word: nat, sem: nat, procs: map<Pid, Pc>)

  /** What an idle process decides to call; an owner can only unlock. */
  datatype Want = Rest | Trylock | Lock | Unlock

  predicate Locked(w: nat) { w / LOCK % 2 == 1 }

  function Waiters(w: nat): nat { w % LOCK }

  function SetLock(w: nat): nat { if Locked(w) then w else w + LOCK }

  /** The word an unlock leaves: lock bit clear, one waiter fewer. */
  function Released(w: nat): nat { if Waiters(w) != 0 then Waiters(w) - 1 else 0 }

  /** Where a lock attempt goes when a compare-and-set fails. */
  function AfterMiss(c: Config, n: nat): Pc {
    if c.manyCpus && n < c.spin then SpinRead(n)
    else if c.semaphore then WaitRead
    else LockRead
  }

  function Goto(s: State, p: Pid, pc: Pc): State { s.(procs := s.procs[p := pc]) }

  /** One step of process p. */
  function Step(c: Config, s: State, p: Pid, want: Want): State
    requires p in s.procs
  {
    match s.procs[p]
    case Idle =>
      if want.Trylock? then Goto(s, p, TryRead)
      else if want.Lock? then Goto(s, p, LockRead)
      else s
    case TryRead => Goto(s, p, TryCas(s.word))
    case TryCas(val) =>
      if !Locked(val) && s.word == val then Goto(s, p, Owner).(word := SetLock(val))
      else Goto(s, p, Idle)
    case LockRead => Goto(s, p, LockCas(s.word))
    case LockCas(val) =>
      if !Locked(val) && s.word == val then Goto(s, p, Owner).(word := SetLock(val))
      else Goto(s, p, AfterMiss(c, 1))
    case SpinRead(n) => Goto(s, p, SpinCas(n, s.word))
    case SpinCas(n, val) =>
      if !Locked(val) && s.word == val then Goto(s, p, Owner).(word := SetLock(val))
      else Goto(s, p, AfterMiss(c, n * 2 % UINT_LIMIT))
    case WaitRead => Goto(s, p, WaitCas(s.word))
    case WaitCas(val) =>
      if Locked(val) && s.word == val then Goto(s, p, Sleeping).(word := val + 1)
      else Goto(s, p, LockRead)
    case Sleeping =>
      if s.sem > 0 then Goto(s, p, LockRead).(sem := s.sem - 1)
      else s
    case Owner =>
      if want.Unlock? then Goto(s, p, UnlockRead) else s
    case UnlockRead => Goto(s, p, UnlockCas(s.word))
    case UnlockCas(seen) =>
      if s.word != seen then Goto(s, p, UnlockRead)
      else if Waiters(seen) == 0 || !c.semaphore then Goto(s, p, Idle).(word := Released(seen))
      else Goto(s, p, Posting).(word := Released(seen))
    case Posting => Goto(s, p, Idle).(sem := s.sem + 1)
  }

  // ---------- who is where ----------

  /** Between a successful compare-and-set and the one that releases. */
  predicate Holds(pc: Pc) { pc.Owner? || pc.UnlockRead? || pc.UnlockCas? }

  /** In the loop of ngx_shmtx_lock, awake. */
  predicate Competes(pc: Pc) {
    pc.LockRead? || pc.LockCas? || pc.SpinRead? || pc.SpinCas? || pc.WaitRead? || pc.WaitCas?
  }

  function Holders(s: State): set<Pid> { set p | p in s.procs && Holds(s.procs[p]) }
  function Sleepers(s: State): set<Pid> { set p | p in s.procs && s.procs[p].Sleeping? }
  function Posters(s: State): set<Pid> { set p | p in s.procs && s.procs[p].Posting? }
  function Competitors(s: State): set<Pid> { set p | p in s.procs && Competes(s.procs[p]) }

  predicate Initial(s: State) {
    s.word == 0 && s.sem == 0 && |s.procs| < LOCK && forall p :: p in s.procs ==> s.procs[p].Idle?
  }

  /** The safety invariant in numbers: the word, the semaphore, and how many processes hold,
    * sleep, owe a post and compete. */
  predicate Balanced(c: Config, word: nat, sem: nat, holders: nat, sleepers: nat, posters: nat, competitors: nat) {
    && word < 2 * LOCK
    && holders == (if Locked(word) then 1 else 0)
    && sleepers == Waiters(word) + sem + posters
    && (!c.semaphore ==> sleepers == 0)
    && (Waiters(word) > 0 && !Locked(word) ==> sem + posters + competitors > 0)
  }

  predicate Safe(c: Config, s: State) {
    && |s.procs| < LOCK
    && Balanced(c, s.word, s.sem, |Holders(s)|, |Sleepers(s)|, |Posters(s)|, |Competitors(s)|)
    && (!c.semaphore ==> forall p :: p in s.procs ==> !s.procs[p].WaitRead? && !s.procs[p].WaitCas?)
  }

  lemma WordFacts(w: nat)
    requires w < 2 * LOCK
    ensures w == Waiters(w) + if Locked(w) then LOCK else 0
    ensures SetLock(w) < 2 * LOCK && Locked(SetLock(w)) && Waiters(SetLock(w)) == Waiters(w)
    ensures !Locked(Released(w)) && Released(w) < LOCK && Waiters(Released(w)) == Released(w)
    ensures Waiters(w) + 1 < LOCK ==>
      w + 1 < 2 * LOCK && Waiters(w + 1) == Waiters(w) + 1 && (Locked(w + 1) <==> Locked(w))
  {
  }

  function One(b: bool): nat { if b then 1 else 0 }

  /** Moving one process changes each count by that process only. */
  lemma Recount(s: State, p: Pid, pc: Pc)
    requires p in s.procs
    ensures var t, was := Goto(s, p, pc), s.procs[p];
      && |t.procs| == |s.procs|
      && |Holders(t)| + One(Holds(was)) == |Holders(s)| + One(Holds(pc))
      && |Sleepers(t)| + One(was.Sleeping?) == |Sleepers(s)| + One(pc.Sleeping?)
      && |Posters(t)| + One(was.Posting?) == |Posters(s)| + One(pc.Posting?)
      && |Competitors(t)| + One(Competes(was)) == |Competitors(s)| + One(Competes(pc))
  {
    var t := Goto(s, p, pc);
    assert t.procs.Keys == s.procs.Keys;
    SameButOne(Holders(s), Holders(t), p);
    SameButOne(Sleepers(s), Sleepers(t), p);
    SameButOne(Posters(s), Posters(t), p);
    SameButOne(Competitors(s), Competitors(t), p);
  }

  lemma SameButOne<T>(a: set<T>, b: set<T>, x: T)
    requires a - {x} == b - {x}
    ensures |b| + One(x in a) == |a| + One(x in b)
  {
    assert a == a - {x} + if x in a then {x} else {};
    assert b == b - {x} + if x in b then {x} else {};
  }

  /** Sleepers are processes, so the waiter count cannot run into the lock bit. */
  lemma SleepersBound(s: State, p: Pid)
    requires p in s.procs && !s.procs[p].Sleeping?
    ensures |Sleepers(s)| < |s.procs|
  {
    assert Sleepers(s) <= s.procs.Keys - {p};
    SubsetSize(Sleepers(s), s.procs.Keys - {p});
  }

  lemma {:induction false} SubsetSize<T>(a: set<T>, b: set<T>)
    requires a <= b
    ensures |a| <= |b|
    decreases a
  {
    if x :| x in a { SubsetSize(a - {x}, b - {x}); }
  }

  lemma Present(s: State, p: Pid)
    requires p in s.procs
    ensures Holds(s.procs[p]) ==> |Holders(s)| > 0
    ensures s.procs[p].Sleeping? ==> |Sleepers(s)| > 0
    ensures s.procs[p].Posting? ==> |Posters(s)| > 0
  {
    assert Holds(s.procs[p]) ==> p in Holders(s);
    assert s.procs[p].Sleeping? ==> p in Sleepers(s);
    assert s.procs[p].Posting? ==> p in Posters(s);
  }

  // ---------- the kinds of step ----------

  /** A step that moves p and leaves word and semaphore alone. */
  lemma Moved(c: Config, s: State, p: Pid, pc: Pc)
    requires Safe(c, s) && p in s.procs && (!c.semaphore ==> !pc.WaitRead? && !pc.WaitCas?)
    requires Holds(s.procs[p]) == Holds(pc) && s.procs[p].Sleeping? == pc.Sleeping?
    requires s.procs[p].Posting? == pc.Posting? && (Competes(s.procs[p]) ==> Competes(pc))
    ensures Safe(c, Goto(s, p, pc))
  {
    hide Holders, Sleepers, Posters, Competitors, Locked, Waiters;
    Recount(s, p, pc);
  }

  lemma Acquired(c: Config, s: State, p: Pid)
    requires Safe(c, s) && p in s.procs && !Locked(s.word)
    requires Competes(s.procs[p]) || s.procs[p].TryCas?
    ensures Safe(c, Goto(s, p, Owner).(word := SetLock(s.word)))
  {
    hide Holders, Sleepers, Posters, Competitors, Locked, Waiters, SetLock;
    WordFacts(s.word);
    Recount(s, p, Owner);
    Regroup(s, p, Goto(s, p, Owner).(word := SetLock(s.word)));
  }

  lemma Queued(c: Config, s: State, p: Pid)
    requires Safe(c, s) && p in s.procs && Locked(s.word) && s.procs[p].WaitCas?
    ensures Safe(c, Goto(s, p, Sleeping).(word := s.word + 1))
  {
    hide Holders, Sleepers, Posters, Competitors, Locked, Waiters;
    WordFacts(s.word);
    SleepersBound(s, p);
    Recount(s, p, Sleeping);
    Regroup(s, p, Goto(s, p, Sleeping).(word := s.word + 1));
  }

  lemma Woken(c: Config, s: State, p: Pid)
    requires Safe(c, s) && p in s.procs && s.procs[p].Sleeping? && s.sem > 0
    ensures Safe(c, Goto(s, p, LockRead).(sem := s.sem - 1))
  {
    hide Holders, Sleepers, Posters, Competitors, Locked, Waiters;
    Recount(s, p, LockRead);
    Regroup(s, p, Goto(s, p, LockRead).(sem := s.sem - 1));
  }

  lemma Freed(c: Config, s: State, p: Pid)
    requires Safe(c, s) && p in s.procs && s.procs[p] == UnlockCas(s.word)
    ensures Safe(c, Step(c, s, p, Rest))
  {
    hide Holders, Sleepers, Posters, Competitors, Locked, Waiters;
    WordFacts(s.word);
    Present(s, p);
    var t := Step(c, s, p, Rest);
    Recount(s, p, t.procs[p]);
    Regroup(s, p, t);
  }

  lemma Posted(c: Config, s: State, p: Pid)
    requires Safe(c, s) && p in s.procs && s.procs[p].Posting?
    ensures Safe(c, Goto(s, p, Idle).(sem := s.sem + 1))
  {
    hide Holders, Sleepers, Posters, Competitors, Locked, Waiters;
    Present(s, p);
    Recount(s, p, Idle);
    Regroup(s, p, Goto(s, p, Idle).(sem := s.sem + 1));
  }

  /** Every step of every process keeps the invariant. */
  lemma StepSafe(c: Config, s: State, p: Pid, want: Want)
    requires Safe(c, s) && p in s.procs
    ensures Safe(c, Step(c, s, p, want))
  {
    hide Balanced, Locked;
    var t := Step(c, s, p, want);
    match s.procs[p]
    case Posting => Posted(c, s, p);
    case Sleeping => if s.sem > 0 { Woken(c, s, p); }
    case UnlockCas(seen) => if s.word == seen { Freed(c, s, p); } else { Moved(c, s, p, UnlockRead); }
    case WaitCas(val) =>
      if Locked(val) && s.word == val { Queued(c, s, p); } else { Moved(c, s, p, LockRead); }
    case TryCas(val) => if !Locked(val) && s.word == val { Acquired(c, s, p); } else { Moved(c, s, p, Idle); }
    case LockCas(val) =>
      if !Locked(val) && s.word == val { Acquired(c, s, p); } else { Moved(c, s, p, t.procs[p]); }
    case SpinCas(n, val) =>
      if !Locked(val) && s.word == val { Acquired(c, s, p); } else { Moved(c, s, p, t.procs[p]); }
    case _ => if t != s { Moved(c, s, p, t.procs[p]); }
  }

  /** The groups depend on the processes only. */
  lemma Regroup(s: State, p: Pid, t: State)
    requires p in s.procs && p in t.procs
    requires t.procs == s.procs[p := t.procs[p]]
    ensures var u := Goto(s, p, t.procs[p]);
      Holders(t) == Holders(u) && Sleepers(t) == Sleepers(u) && Posters(t) == Posters(u)
        && Competitors(t) == Competitors(u)
  {
  }

  // ---------- runs ----------

  /** An interleaving: which process steps next, and what it wants if it is free to choose. */
  function Run(c: Config, s: State, schedule: seq<(Pid, Want)>): (t: State)
    requires forall i :: 0 <= i < |schedule| ==> schedule[i].0 in s.procs
    ensures t.procs.Keys == s.procs.Keys
    decreases |schedule|
  {
    if schedule == [] then s
    else Run(c, Step(c, s, schedule[0].0, schedule[0].1), schedule[1..])
  }

  lemma {:induction false} RunSafe(c: Config, s: State, schedule: seq<(Pid, Want)>)
    requires Safe(c, s) && forall i :: 0 <= i < |schedule| ==> schedule[i].0 in s.procs
    ensures Safe(c, Run(c, s, schedule))
    decreases |schedule|
  {
    if schedule != [] {
      StepSafe(c, s, schedule[0].0, schedule[0].1);
      RunSafe(c, Step(c, s, schedule[0].0, schedule[0].1), schedule[1..]);
    }
  }

  lemma InitialSafe(c: Config, s: State)
    requires Initial(s)
    ensures Safe(c, s)
  {
    assert Holders(s) == {} && Sleepers(s) == {} && Posters(s) == {};
  }

  /** In every interleaving: one holder exactly when bit 31 is set, and sleepers, counted waiters,
    * semaphore and owed posts in balance. */
  lemma MutualExclusion(c: Config, s: State, schedule: seq<(Pid, Want)>)
    requires Initial(s) && forall i :: 0 <= i < |schedule| ==> schedule[i].0 in s.procs
    ensures var t := Run(c, s, schedule);
      && (forall p, q :: p in t.procs && q in t.procs && Holds(t.procs[p]) && Holds(t.procs[q]) ==> p == q)
      && (Locked(t.word) <==> exists p :: p in t.procs && Holds(t.procs[p]))
      && |Sleepers(t)| == Waiters(t.word) + t.sem + |Posters(t)|
  {
    InitialSafe(c, s);
    RunSafe(c, s, schedule);
    var t := Run(c, s, schedule);
    AtMostOne(Holders(t));
    forall p, q | p in t.procs && q in t.procs && Holds(t.procs[p]) && Holds(t.procs[q]) ensures p == q {
      assert p in Holders(t) && q in Holders(t);
    }
    if Locked(t.word) {
      var p :| p in Holders(t);
      assert p in t.procs && Holds(t.procs[p]);
    }
    if p :| p in t.procs && Holds(t.procs[p]) { assert p in Holders(t); }
  }

  lemma AtMostOne<T>(a: set<T>)
    requires |a| <= 1
    ensures forall x, y :: x in a && y in a ==> x == y
  {
    forall x, y | x in a && y in a ensures x == y {
      if x != y { SubsetSize({x, y}, a); }
    }
  }

  // ---------- progress ----------

  /** How many of its own steps a process in the lock loop is away from a free lock. */
  function Distance(s: State, p: Pid): nat
    requires p in s.procs
  {
    match s.procs[p]
    case Owner => 0
    case LockCas(val) => if val == s.word then 1 else 5
    case SpinCas(_, val) => if val == s.word then 1 else 5
    case LockRead => 2
    case SpinRead(_) => 2
    case WaitCas(_) => 3
    case WaitRead => 4
    case _ => 6
  }

  function Times(p: Pid, k: nat): seq<(Pid, Want)> { seq(k, _ => (p, Lock)) }

  /** A competitor that runs alone on a free lock takes it within five of its own steps. */
  lemma {:induction false} SoloAcquires(c: Config, s: State, p: Pid) returns (k: nat)
    requires p in s.procs && ((Competes(s.procs[p]) && !Locked(s.word)) || s.procs[p].Owner?)
    ensures k <= 5 && k <= Distance(s, p) && Run(c, s, Times(p, k)).procs[p].Owner?
    decreases Distance(s, p)
  {
    if s.procs[p].Owner? { return 0; }
    var t := Step(c, s, p, Lock);
    var j := SoloAcquires(c, t, p);
    k := j + 1;
    assert Times(p, k)[0] == (p, Lock) && Times(p, k)[1..] == Times(p, j);
  }

  /** No wakeup is lost: from every safe state with a free lock in which somebody waits, asleep or
    * awake, some continuation of at most five steps lets a waiting process own the lock. */
  lemma FreeLockIsTaken(c: Config, s: State) returns (schedule: seq<(Pid, Want)>, p: Pid)
    requires Safe(c, s) && !Locked(s.word) && (Sleepers(s) != {} || Competitors(s) != {})
    ensures |schedule| <= 5 && forall i :: 0 <= i < |schedule| ==> schedule[i].0 in s.procs
    ensures p in s.procs && (s.procs[p].Sleeping? || Competes(s.procs[p]))
    ensures Run(c, s, schedule).procs[p].Owner?
  {
    if Competitors(s) != {} {
      p :| p in Competitors(s);
      var k := SoloAcquires(c, s, p);
      return Times(p, k), p;
    }
    p :| p in Sleepers(s);
    if s.sem > 0 {
      schedule := WakeAndAcquire(c, s, p);
    } else {
      assert Sleepers(s) == {} <==> |Sleepers(s)| == 0;
      assert |Posters(s)| > 0;
      var q :| q in Posters(s);
      var t := Step(c, s, q, Rest);
      var rest := WakeAndAcquire(c, t, p);
      schedule := [(q, Rest)] + rest;
      assert schedule[1..] == rest;
    }
  }

  lemma WakeAndAcquire(c: Config, s: State, p: Pid) returns (schedule: seq<(Pid, Want)>)
    requires p in s.procs && s.procs[p].Sleeping? && s.sem > 0 && !Locked(s.word)
    ensures |schedule| <= 3 && forall i :: 0 <= i < |schedule| ==> schedule[i].0 in s.procs
    ensures Run(c, s, schedule).procs[p].Owner?
  {
    var t := Step(c, s, p, Rest);
    var k := SoloAcquires(c, t, p);
    schedule := [(p, Rest)] + Times(p, k);
    assert schedule[1..] == Times(p, k);
  }

  // ---------- whole calls ----------

  /** The steps of one call of p when nobody else steps: what it wants at first, then two accesses. */
  function Call(p: Pid, want: Want): seq<(Pid, Want)> { [(p, want), (p, Rest), (p, Rest)] }

  lemma RunCall(c: Config, s: State, p: Pid, want: Want)
    requires p in s.procs
    ensures Run(c, s, Call(p, want)) == Step(c, Step(c, Step(c, s, p, want), p, Rest), p, Rest)
  {
    var t := Step(c, s, p, want);
    var u := Step(c, t, p, Rest);
    RunFirst(c, s, (p, want), [(p, Rest), (p, Rest)]);
    RunFirst(c, t, (p, Rest), [(p, Rest)]);
    RunFirst(c, u, (p, Rest), []);
    hide Run;
    assert Call(p, want) == [(p, want)] + [(p, Rest), (p, Rest)] && [(p, Rest), (p, Rest)] == [(p, Rest)] + [(p, Rest)];
    assert [(p, Rest)] == [(p, Rest)] + [];
    RunNone(c, Step(c, u, p, Rest));
  }

  lemma RunFirst(c: Config, s: State, first: (Pid, Want), rest: seq<(Pid, Want)>)
    requires first.0 in s.procs && forall i :: 0 <= i < |rest| ==> rest[i].0 in s.procs
    ensures Run(c, s, [first] + rest) == Run(c, Step(c, s, first.0, first.1), rest)
  {
    assert ([first] + rest)[1..] == rest;
  }

  lemma RunNone(c: Config, s: State)
    ensures Run(c, s, []) == s
  {
  }

  /** An unlock clears the lock bit and counts one waiter less; the process is then idle, or owes a post
    * exactly when there were waiters and a semaphore. */
  lemma UnlockFrees(c: Config, s: State, p: Pid)
    requires Safe(c, s) && p in s.procs && s.procs[p].Owner?
    ensures var t := Run(c, s, Call(p, Unlock));
      && Locked(s.word) && !Locked(t.word)
      && Waiters(t.word) == (if Waiters(s.word) > 0 then Waiters(s.word) - 1 else 0)
      && t.procs == s.procs[p := if Waiters(s.word) > 0 && c.semaphore then Posting else Idle] && t.sem == s.sem
  {
    hide Holders, Sleepers, Posters, Competitors, Locked, Waiters;
    Present(s, p);
    WordFacts(s.word);
    RunCall(c, s, p, Unlock);
  }

  /** The post that is owed wakes a sleeper: the semaphore is one higher, and nothing else changes. */
  lemma PostRaises(c: Config, s: State, p: Pid, want: Want)
    requires p in s.procs && s.procs[p].Posting?
    ensures var t := Step(c, s, p, want); t.sem == s.sem + 1 && t.word == s.word && t.procs == s.procs[p := Idle]
  {
  }

  /** Whoever steps, a process leaves the unlock loop only by clearing the lock bit and counting a waiter less;
    * the steps of others can only make it read again, and its compare-and-set fails only if the word is another. */
  lemma UnlockEnds(c: Config, s: State, p: Pid, q: Pid, want: Want)
    requires Safe(c, s) && p in s.procs && q in s.procs && (s.procs[p].UnlockRead? || s.procs[p].UnlockCas?)
    ensures var t := Step(c, s, q, want);
      if q == p && s.procs[p] == UnlockCas(s.word) then
        && Locked(s.word) && !Locked(t.word)
        && Waiters(t.word) == (if Waiters(s.word) > 0 then Waiters(s.word) - 1 else 0)
        && t.procs[p] == if Waiters(s.word) > 0 && c.semaphore then Posting else Idle
      else
        t.procs[p] == if q != p then s.procs[p] else if s.procs[p].UnlockRead? then UnlockCas(s.word) else UnlockRead
  {
    hide Holders, Sleepers, Posters, Competitors, Locked, Waiters;
    Present(s, p);
    WordFacts(s.word);
  }

  /** Both ways in take a free lock in three accesses and leave the waiters as they are. */
  lemma FreeLockIsEntered(c: Config, s: State, p: Pid, want: Want)
    requires Safe(c, s) && p in s.procs && s.procs[p].Idle? && !Locked(s.word) && (want.Trylock? || want.Lock?)
    ensures var t := Run(c, s, Call(p, want));
      t.procs == s.procs[p := Owner] && Locked(t.word) && Waiters(t.word) == Waiters(s.word) && t.sem == s.sem
  {
    hide Holders, Sleepers, Posters, Competitors, Locked, Waiters;
    WordFacts(s.word);
    RunCall(c, s, p, want);
  }

  /** On a held lock trylock gives up and leaves everything as it was. */
  lemma HeldLockRefusesTrylock(c: Config, s: State, p: Pid)
    requires p in s.procs && s.procs[p].Idle? && Locked(s.word)
    ensures Run(c, s, Call(p, Trylock)) == s
  {
    RunCall(c, s, p, Trylock);
    assert s.procs[p := TryRead][p := TryCas(s.word)][p := Idle] == s.procs;
  }

  /** How far a competitor is from its semaphore while the lock is held: the rounds of spinning that are left,
    * each of two accesses, and the accesses around them. */
  function ToSleep(c: Config, s: State, p: Pid): nat
    requires p in s.procs
  {
    match s.procs[p]
    case Sleeping => 0
    case WaitCas(_) => 1
    case WaitRead => 2
    case SpinCas(n, _) => 1 + 2 * SpinsLeft(c, n)
    case SpinRead(n) => 2 + 2 * SpinsLeft(c, n)
    case LockCas(_) => 3 + 2 * SpinsLeft(c, 1)
    case _ => 4 + 2 * SpinsLeft(c, 1)
  }

  /** How often n can be doubled before it reaches the spin limit. */
  function SpinsLeft(c: Config, n: nat): nat
    decreases c.spin - n
  {
    if c.manyCpus && 0 < n < c.spin then 1 + SpinsLeft(c, 2 * n) else 0
  }

  /** Against a held lock a competitor that runs alone ends asleep, counted as one waiter more, after spinning
    * at most as often as the limit says; a spin limit above 2^63, where the doubled count wraps, is excepted. */
  lemma {:induction false} HeldLockSleeps(c: Config, s: State, p: Pid) returns (k: nat)
    requires c.semaphore && c.spin <= UINT_LIMIT / 2 && Locked(s.word) && p in s.procs && Spinning(c, s, p)
    ensures k == ToSleep(c, s, p)
    ensures var t := Run(c, s, Times(p, k));
      t.procs == s.procs[p := Sleeping] && t.word == s.word + 1 && t.sem == s.sem
    decreases ToSleep(c, s, p)
  {
    var t := Step(c, s, p, Lock);
    OneCloser(c, s, p);
    hide Spinning, ToSleep, Step, Run, Locked;
    if t.procs[p].Sleeping? {
      k := 1;
      assert Times(p, 1) == [(p, Lock)] + [];
      RunFirst(c, s, (p, Lock), []);
      RunNone(c, t);
    } else {
      var j := HeldLockSleeps(c, t, p);
      k := j + 1;
      assert Times(p, k) == [(p, Lock)] + Times(p, j);
      RunFirst(c, s, (p, Lock), Times(p, j));
      assert s.procs[p := t.procs[p]][p := Sleeping] == s.procs[p := Sleeping];
    }
  }

  lemma OneCloser(c: Config, s: State, p: Pid)
    requires c.semaphore && c.spin <= UINT_LIMIT / 2 && Locked(s.word) && p in s.procs && Spinning(c, s, p)
    ensures var t := Step(c, s, p, Lock);
      && t.procs == s.procs[p := t.procs[p]] && t.sem == s.sem && 0 < ToSleep(c, s, p)
      && if t.procs[p].Sleeping? then ToSleep(c, s, p) == 1 && t.word == s.word + 1
         else t.word == s.word && Spinning(c, t, p) && ToSleep(c, t, p) == ToSleep(c, s, p) - 1
  {
    hide Locked;
    if s.procs[p].SpinCas? {
      var n := s.procs[p].n;
      assert n * 2 % UINT_LIMIT == n * 2;
      assert SpinsLeft(c, n) == 1 + SpinsLeft(c, n * 2);
    }
  }

  /** In the lock loop, with a spin count that is a doubled one below the limit and, before a wait, the word. */
  predicate Spinning(c: Config, s: State, p: Pid)
    requires p in s.procs
  {
    match s.procs[p]
    case LockRead => true
    case LockCas(_) => true
    case SpinRead(n) => 0 < n < c.spin && c.manyCpus
    case SpinCas(n, _) => 0 < n < c.spin && c.manyCpus
    case WaitRead => true
    case WaitCas(val) => val == s.word
    case _ => false
  }

  /** So a state in which everybody is idle or asleep and the semaphore is zero has no sleepers. */
  lemma NobodySleepsForever(c: Config, s: State)
    requires Safe(c, s) && s.sem == 0
    requires forall p :: p in s.procs ==> s.procs[p].Idle? || s.procs[p].Sleeping?
    ensures Sleepers(s) == {} && s.word == 0
  {
    assert Posters(s) == {} && Competitors(s) == {} && Holders(s) == {};
    WordFacts(s.word);
  }
}
