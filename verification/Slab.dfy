/** The slab allocator of a shared memory zone: descriptors on circular lists, in-page bitmaps, and the
  * allocation and release operations that change them in place. */
module Slab {
  import opened Bits
  import opened SlabShape
  import opened SlabState
  import opened Wrappers

  /** What is live and how large it is, as the runs of pages say it. */
  ghost predicate Ledger(start: nat, runs: map<nat, Run>, live: map<nat, nat>) {
    && (forall p :: p in live ==> p >= start && live[p] > 0 && live[p] == SizeAt(runs, p - start))
    && (forall q: nat :: SizeAt(runs, q) > 0 ==> start + q in live)
  }

  /** Where ngx_slab_init puts the page area, given the first byte after the pool header and the pool's
    * end: after the slots and the descriptors, on a page boundary, with as many pages as still fit. */
  const DESC_SIZE: nat := 24

  function Slots(min: Shift): nat { PAGE_SHIFT - min }

  function Planned(base: nat, end: nat): nat
    requires base <= end
  {
    (end - base) / (PAGE_SIZE + DESC_SIZE)
  }

  function AlignPage(a: nat): nat {
    (a + PAGE_SIZE - 1) / PAGE_SIZE * PAGE_SIZE
  }

  function AreaStart(base: nat, end: nat, min: Shift): nat
    requires base <= end
  {
    AlignPage(base + Slots(min) * DESC_SIZE + Planned(base, end) * DESC_SIZE)
  }

  function AreaPages(base: nat, end: nat, min: Shift): int
    requires base <= end
  {
    var m := Planned(base, end) - (end - AreaStart(base, end, min)) / PAGE_SIZE;
    if m > 0 then Planned(base, end) - m else Planned(base, end)
  }

  /** With room for three pages and their descriptors the area starts after all descriptors, ends inside
    * the pool, and loses at most two of the pages that were planned. */
  lemma AreaFits(base: nat, end: nat, min: Shift)
    requires base + 3 * (PAGE_SIZE + DESC_SIZE) <= end
    ensures base + (Slots(min) + Planned(base, end)) * DESC_SIZE <= AreaStart(base, end, min)
    ensures AreaStart(base, end, min) % PAGE_SIZE == 0
    ensures AreaStart(base, end, min) + AreaPages(base, end, min) * PAGE_SIZE <= end
    ensures 1 <= Planned(base, end) - 2 <= AreaPages(base, end, min) <= Planned(base, end)
  {
    var planned, start := Planned(base, end), AreaStart(base, end, min);
    assert planned * (PAGE_SIZE + DESC_SIZE) <= end - base;
    assert start <= base + Slots(min) * DESC_SIZE + planned * DESC_SIZE + PAGE_SIZE - 1;
    assert end - start >= (planned - 2) * PAGE_SIZE;
  }

  class Pool {
    const min: Shift
    const pages: nat
    const start: nat
    var desc: Table
    var area: Area
    ghost var runs: map<nat, Run>
    ghost var lists: Lists
    ghost var live: map<nat, nat>

    constructor (base: nat, end: nat, minShift: Shift, memory: Area)
      requires base + 3 * (PAGE_SIZE + DESC_SIZE) <= end <= BUSY
      requires forall i :: i in memory <==> i < AreaPages(base, end, minShift)
      requires forall i :: i in memory ==> Words(memory[i])
      ensures Valid() && live == map[] && runs == map[0 := FreeRun(pages)]
      ensures min == minShift && start == AreaStart(base, end, minShift) && pages == AreaPages(base, end, minShift)
    {
      AreaFits(base, end, minShift);
      var count: nat := AreaPages(base, end, minShift);
      var table := Blank(Slots(minShift), count);
      ghost var rings := FirstLists(Slots(minShift));
      min, pages, start := minShift, count, AreaStart(base, end, minShift);
      desc, area, live, runs, lists := table, memory, map[], map[0 := FreeRun(count)], rings;
      new;
      hide Sound, AreaPages, AreaStart, Ledger, SizeAt, FirstLists;
      InitialSound(Geo(), View());
      FirstLedger(start, pages);
    }

    /** The first descriptors: every slot empty, all pages one free run. */
    static method Blank(n: nat, count: nat) returns (table: Table)
      requires count > 0
      ensures forall r :: r in table <==> r.FreeHead? || (r.Slot? && r.k < n) || (r.Page? && r.i < count)
      ensures forall r :: r in table && r.Slot? ==> table[r].next == r
      ensures forall r :: r in table && r.Page? && r.i > 0 ==> table[r] == Desc(0, Null, Null, AsPage)
      ensures table[FreeHead].next == Page(0) && table[Page(0)] == Desc(count, FreeHead, FreeHead, AsPage)
    {
      table := map[];
      var i := 0;
      while i < n
        invariant i <= n
        invariant forall r :: r in table <==> r.Slot? && r.k < i
        invariant forall r :: r in table ==> table[r].next == r
      {
        table := table[Slot(i) := Desc(0, Slot(i), Null, AsPage)];
        i := i + 1;
      }
      i := 0;
      while i < count
        invariant i <= count
        invariant forall r :: r in table <==> (r.Slot? && r.k < n) || (r.Page? && r.i < i)
        invariant forall r :: r in table && r.Slot? ==> table[r].next == r
        invariant forall r :: r in table && r.Page? ==> table[r] == Desc(0, Null, Null, AsPage)
      {
        table := table[Page(i) := Desc(0, Null, Null, AsPage)];
        i := i + 1;
      }
      table := table[FreeHead := Desc(0, Page(0), Null, AsPage)];
      table := table[Page(0) := Desc(count, FreeHead, FreeHead, AsPage)];
    }

    ghost function Geo(): Geometry {
      Geometry(min, pages)
    }

    ghost function View(): State
      reads this
    {
      State(desc, area, runs, lists)
    }

    ghost predicate Valid()
      reads this
    {
      start % PAGE_SIZE == 0 && start + pages * PAGE_SIZE <= BUSY
      && Sound(Geo(), View()) && Ledger(start, runs, live)
    }

    // -------------------------------------------------------------- marking and clearing chunks

    method FirstClear(w: nat) returns (i: nat)
      requires w < BUSY
      ensures i < WORD_BITS && !Bit(w, i)
    {
      i := 0;
      WordPowers();
      Saturated(w, WORD_BITS);
      while i < WORD_BITS && Bit(w, i)
        invariant i <= WORD_BITS
        invariant forall j :: 0 <= j < i ==> Bit(w, j)
      {
        i := i + 1;
      }
    }

    method MarkSmall(x: nat, s: Shift, ghost used: set<nat>) returns (c: nat, full: bool)
      requires s < EXACT_SHIFT && !Full(s, used) && Proper(s, used)
      requires Page(x) in desc && x in area && Words(area[x]) && Encodes(desc[Page(x)].slab, area[x], s, used)
      modifies `area
      ensures area.Keys == old(area).Keys && forall i :: i in area && i != x ==> area[i] == old(area)[i]
      ensures Reserved(s) <= c < Count(s) && c !in used
      ensures x in area && Words(area[x]) && Encodes(desc[Page(x)].slab, area[x], s, used + {c})
      ensures full <==> Full(s, used + {c})
    {
      hide *;
      ChunkGeometry(s);
      SmallFull(desc[Page(x)].slab, area[x], s, used);
      assert |area[x]| == PAGE_WORDS by { WordsLength(area[x]); }
      var map' := Count(s) / WORD_BITS;
      var n := SkipBusy(area[x], 0, map');
      assert area[x][n] < BUSY by { WordAt(area[x], n); }
      var i := FirstClear(area[x][n]);
      c := n * WORD_BITS + i;
      ClearIsFree(desc[Page(x)].slab, area[x], s, used, n, i);
      SmallMark(desc[Page(x)].slab, area[x], s, used, n, i);
      var row: seq<nat> := area[x][n := With(area[x][n], i)];
      area := area[x := row];
      SmallFull(desc[Page(x)].slab, area[x], s, used + {c});
      full := area[x][n] == BUSY;
      if full {
        n := SkipBusy(area[x], n + 1, map');
        full := n == map';
      }
    }

    /** The first word of a bitmap, from a position on, with a clear bit. */
    static method SkipBusy(words: seq<nat>, first: nat, limit: nat) returns (n: nat)
      requires first <= limit <= |words|
      ensures first <= n <= limit && (n < limit ==> words[n] != BUSY)
      ensures forall j :: first <= j < n ==> words[j] == BUSY
    {
      n := first;
      while n < limit && words[n] == BUSY
        invariant first <= n <= limit
        invariant forall j :: first <= j < n ==> words[j] == BUSY
      {
        n := n + 1;
      }
    }

    method MarkExact(x: nat, ghost used: set<nat>) returns (c: nat, full: bool)
      requires !Full(EXACT_SHIFT, used) && Proper(EXACT_SHIFT, used)
      requires Page(x) in desc && x in area && Encodes(desc[Page(x)].slab, area[x], EXACT_SHIFT, used)
      modifies `desc
      ensures Page(x) in desc && desc == old(desc)[Page(x) := old(desc)[Page(x)].(slab := desc[Page(x)].slab)]
      ensures Reserved(EXACT_SHIFT) <= c < Count(EXACT_SHIFT) && c !in used
      ensures Encodes(desc[Page(x)].slab, area[x], EXACT_SHIFT, used + {c})
      ensures full <==> Full(EXACT_SHIFT, used + {c})
    {
      hide Pow2, Bit, Encodes, Words, Full, Proper, With, Without;
      ChunkGeometry(EXACT_SHIFT);
      var d := desc[Page(x)];
      ExactWord(d.slab, area[x], EXACT_SHIFT, used);
      ExactBits(d.slab, area[x], used);
      c := FirstClear(d.slab);
      ExactMark(d.slab, area[x], EXACT_SHIFT, used, c);
      ProperAdd(EXACT_SHIFT, used, c);
      desc := desc[Page(x) := d.(slab := With(d.slab, c))];
      ExactWord(desc[Page(x)].slab, area[x], EXACT_SHIFT, used + {c});
      full := desc[Page(x)].slab == BUSY;
    }

    method MarkBig(x: nat, s: Shift, ghost used: set<nat>) returns (c: nat, full: bool)
      requires s > EXACT_SHIFT && !Full(s, used) && Proper(s, used)
      requires Page(x) in desc && x in area && Encodes(desc[Page(x)].slab, area[x], s, used)
      modifies `desc
      ensures Page(x) in desc && desc == old(desc)[Page(x) := old(desc)[Page(x)].(slab := desc[Page(x)].slab)]
      ensures Reserved(s) <= c < Count(s) && c !in used
      ensures Encodes(desc[Page(x)].slab, area[x], s, used + {c})
      ensures full <==> Full(s, used + {c})
    {
      hide Pow2, Bit, Encodes, Words, Full, Proper, With, Without;
      ChunkGeometry(s);
      var d := desc[Page(x)];
      BigShift(d.slab, area[x], s, used);
      var n := Pow2(PAGE_SHIFT - d.slab % 16);
      var mask := (Pow2(n) - 1) * MAP_BASE;
      c := 0;
      while c < n && MapBit(d.slab, c)
        invariant c <= n
        invariant forall j :: 0 <= j < c ==> MapBit(d.slab, j)
      {
        c := c + 1;
      }
      BigFree(d.slab, area[x], s, used, c);
      BigMark(d.slab, area[x], s, used, c);
      ProperAdd(s, used, c);
      desc := desc[Page(x) := d.(slab := With(d.slab, 32 + c))];
      BigWord(desc[Page(x)].slab, area[x], s, used + {c});
      full := desc[Page(x)].slab - desc[Page(x)].slab % MAP_BASE == mask;
    }

    method ClearSmall(x: nat, s: Shift, c: nat, ghost used: set<nat>) returns (idle: bool)
      requires s < EXACT_SHIFT && c in used && Proper(s, used)
      requires Page(x) in desc && x in area && Words(area[x]) && Encodes(desc[Page(x)].slab, area[x], s, used)
      modifies `area
      ensures area.Keys == old(area).Keys && forall i :: i in area && i != x ==> area[i] == old(area)[i]
      ensures x in area && Words(area[x]) && Encodes(desc[Page(x)].slab, area[x], s, used - {c})
      ensures idle <==> used - {c} == {}
    {
      hide Pow2, Bit, Encodes, Words, Full, Proper, With, Without;
      ChunkGeometry(s);
      ProperSub(s, used, c);
      var n, b := c / WORD_BITS, c % WORD_BITS;
      SmallMark(desc[Page(x)].slab, area[x], s, used, n, b);
      assert |area[x]| == PAGE_WORDS by { WordsLength(area[x]); }
      var row: seq<nat> := area[x][n := Without(area[x][n], b)];
      area := area[x := row];
      SmallIdle(desc[Page(x)].slab, area[x], s, used - {c});
      idle := area[x][0] - area[x][0] % Pow2(Reserved(s)) == 0;
      if idle {
        n := 1;
        while n < Count(s) / WORD_BITS && area[x][n] == 0
          invariant 1 <= n <= Count(s) / WORD_BITS
          invariant forall j :: 1 <= j < n ==> area[x][j] == 0
        {
          n := n + 1;
        }
        idle := n == Count(s) / WORD_BITS;
      }
    }

    method ClearExact(x: nat, c: nat, ghost used: set<nat>) returns (idle: bool)
      requires c in used && Proper(EXACT_SHIFT, used)
      requires Page(x) in desc && x in area && Encodes(desc[Page(x)].slab, area[x], EXACT_SHIFT, used)
      modifies `desc
      ensures Page(x) in desc && desc == old(desc)[Page(x) := old(desc)[Page(x)].(slab := desc[Page(x)].slab)]
      ensures Encodes(desc[Page(x)].slab, area[x], EXACT_SHIFT, used - {c})
      ensures idle <==> used - {c} == {}
    {
      hide Pow2, Bit, Encodes, Words, Full, Proper, With, Without;
      ProperSub(EXACT_SHIFT, used, c);
      var d := desc[Page(x)];
      ExactMark(d.slab, area[x], EXACT_SHIFT, used, c);
      desc := desc[Page(x) := d.(slab := Without(d.slab, c))];
      ExactWord(desc[Page(x)].slab, area[x], EXACT_SHIFT, used - {c});
      idle := desc[Page(x)].slab == 0;
    }

    method ClearBig(x: nat, s: Shift, c: nat, ghost used: set<nat>) returns (idle: bool)
      requires s > EXACT_SHIFT && c in used && Proper(s, used)
      requires Page(x) in desc && x in area && Encodes(desc[Page(x)].slab, area[x], s, used)
      modifies `desc
      ensures Page(x) in desc && desc == old(desc)[Page(x) := old(desc)[Page(x)].(slab := desc[Page(x)].slab)]
      ensures Encodes(desc[Page(x)].slab, area[x], s, used - {c})
      ensures idle <==> used - {c} == {}
    {
      hide Pow2, Bit, Encodes, Words, Full, Proper, With, Without;
      ProperSub(s, used, c);
      var d := desc[Page(x)];
      BigMark(d.slab, area[x], s, used, c);
      desc := desc[Page(x) := d.(slab := Without(d.slab, 32 + c))];
      BigWord(desc[Page(x)].slab, area[x], s, used - {c});
      idle := desc[Page(x)].slab - desc[Page(x)].slab % MAP_BASE == 0;
    }

    // -------------------------------------------------------------- whole pages

    method Unlink(x: Ref)
      requires Linked(desc, x)
      modifies `desc
      ensures desc == Bypass(old(desc), x)
    {
      var d := desc[x];
      desc := desc[d.prev := desc[d.prev].(next := d.next)];
      desc := desc[d.next := desc[d.next].(prev := d.prev, tag := d.tag)];
    }

    method Link(h: Ref, x: Ref, tag: Tag)
      requires h in desc && x in desc && desc[h].next in desc
      modifies `desc
      ensures desc == Pushed(old(desc), h, x, tag)
    {
      var next := desc[h].next;
      desc := desc[x := desc[x].(next := next, prev := h, tag := tag)];
      desc := desc[h := desc[h].(next := x)];
      desc := desc[next := desc[next].(prev := x, tag := tag)];
    }

    method FillTail(x: nat, len: nat, slab: nat)
      requires len > 0 && forall j :: x < j < x + len ==> Page(j) in desc
      modifies `desc
      ensures Filled(old(desc), desc, x, len, slab)
    {
      var j := 1;
      while j < len
        invariant 1 <= j <= len
        invariant Filled(old(desc), desc, x, j, slab)
      {
        desc := desc[Page(x + j) := Desc(slab, Null, Null, AsPage)];
        j := j + 1;
      }
    }

    /** The first run on the free list that is long enough. */
    method FindRun(n: nat) returns (r: Ref, ghost k: nat)
      requires Sound(Geo(), View())
      ensures FreeHead in lists && k <= |lists[FreeHead]| && r == At(lists[FreeHead], FreeHead, k)
      ensures forall j :: 0 <= j < k ==> IsFreeRun(runs, lists[FreeHead][j]) && runs[lists[FreeHead][j].i].len < n
      ensures k < |lists[FreeHead]| ==> r.Page? && IsFreeRun(runs, r) && r in desc && desc[r].slab == runs[r.i].len >= n
      ensures k == |lists[FreeHead]| ==> forall i :: i in runs && runs[i].FreeRun? ==> runs[i].len < n
    {
      hide Sound, At, IsFreeRun;
      FreeListed(Geo(), View());
      ghost var list := lists[FreeHead];
      Walk(Geo(), View(), 0);
      r, k := desc[FreeHead].next, 0;
      while r != FreeHead && desc[r].slab < n
        invariant 0 <= k <= |list| && r == At(list, FreeHead, k) && r in desc
        invariant forall j :: 0 <= j < k ==> IsFreeRun(runs, list[j]) && runs[list[j].i].len < n
        decreases |list| - k
      {
        Walk(Geo(), View(), k);
        r, k := desc[r].next, k + 1;
        Walk(Geo(), View(), k);
      }
      Walk(Geo(), View(), k);
      FreeIndex(Geo(), View());
    }

    method TakePlace(x: Ref, y: Ref)
      requires Linked(desc, x) && y in desc
      modifies `desc
      ensures desc == Replaced(old(desc), x, y)
    {
      var d := desc[x];
      desc := desc[y := desc[y].(next := d.next, prev := d.prev, tag := d.tag)];
      desc := desc[d.prev := desc[d.prev].(next := y)];
      desc := desc[d.next := desc[d.next].(prev := y, tag := d.tag)];
    }

    /** Takes the first n pages of the free run at x off the free list, leaving the rest there. */
    method CarveOff(x: nat, n: nat)
      requires Sound(Geo(), View()) && x in runs && runs[x].FreeRun? && runs[x].len >= n > 0
      modifies `desc, `runs, `lists
      ensures Open(Geo(), View(), x, Null) && runs == Carved(old(runs), x, n)
    {
      hide Sound, Open, Ring, Linked, Replaced, Bypass, Halves, Home, Tail, ListTag;
      ghost var st, total := View(), runs[x].len;
      FreeRunOpen(Geo(), st, x);
      var rest := desc[Page(x)].slab;
      if rest > n {
        desc := desc[Page(x + n) := desc[Page(x + n)].(slab := rest - n)];
        ghost var mid := View();
        RestSized(Geo(), st, mid, x, n);
        lists := SplitRun(Geo(), mid, x, n, total);
        TakePlace(Page(x), Page(x + n));
        runs := Halves(runs, x, n, total);
      } else {
        lists := TakeOut(Geo(), st, x, FreeHead);
        Unlink(Page(x));
        ghost var out := View();
        runs := runs[x := Whole(n)];
        Relabelled(Geo(), out, x, Whole(n));
      }
    }

    /** First fit: n pages from the first free run on the list that has them. */
    method AllocPages(n: nat) returns (r: Option<nat>)
      requires Sound(Geo(), View()) && n > 0
      modifies `desc, `runs, `lists
      ensures Sound(Geo(), View())
      ensures r.None? ==> desc == old(desc) && runs == old(runs) && lists == old(lists) && NoRun(runs, n)
      ensures r.Some? ==> HasRun(old(runs), r.value, n) && runs == Carved(old(runs), r.value, n)
    {
      hide Sound, Open, Carved, At, Distinct;
      var page, k := FindRun(n);
      if page == FreeHead {
        AtHeader(Geo(), View(), k);
        return None;
      }
      AtPage(Geo(), View(), k);
      var x := page.i;
      CarveOff(x, n);
      ghost var st := View();
      CarvedAt(Geo(), old(runs), x, n);
      OpenPages(Geo(), st, x);
      desc := desc[Page(x) := Desc(n + PAGE_START, Null, Null, AsPage)];
      FillTail(x, n, BUSY);
      WholeRun(Geo(), st, desc, x, n);
      r := Some(x);
    }

    /** Makes the run at x, which hangs on home, the first free run. */
    method FreePages(x: nat, len: nat, ghost home: Ref)
      requires Open(Geo(), View(), x, home) && RunLength(runs[x]) == len && Page(x) in desc
      requires home == Null || (home in lists && desc[Page(x)].tag == ListTag(Geo(), home))
      requires home == Null <==> desc[Page(x)].next == Null
      modifies `desc, `runs, `lists
      ensures Sound(Geo(), View()) && runs == old(runs)[x := FreeRun(len)]
    {
      hide Sound, Open, Linked, Bypass, Pushed, ListTag, Tail, Filled;
      ghost var st := View();
      OpenPages(Geo(), st, x);
      desc := desc[Page(x) := desc[Page(x)].(slab := len)];
      FillTail(x, len, 0);
      FreedRun(Geo(), st, desc, x, len, home);
      runs := runs[x := FreeRun(len)];
      ghost var mid := View();
      if desc[Page(x)].next != Null {
        lists := TakeOut(Geo(), mid, x, home);
        Unlink(Page(x));
        TailStays(mid.desc, desc, x, len, 0);
      }
      ghost var out := View();
      OpenPages(Geo(), out, x);
      lists := PutIn(Geo(), out, x, FreeHead);
      Link(FreeHead, Page(x), AsPage);
      TailStays(out.desc, desc, x, len, 0);
      OpenPages(Geo(), View(), x);
      FreeRunSound(Geo(), View(), x);
    }

    // -------------------------------------------------------------- chunks

    method HangOn(h: Ref, x: Ref, tag: Tag)
      requires h in desc && x in desc
      modifies `desc
      ensures desc == Hung(old(desc), h, x, tag)
    {
      desc := desc[x := desc[x].(next := h, prev := h, tag := tag)];
      desc := desc[h := desc[h].(next := x)];
    }

    /** Writes the bitmap of a fresh small page: the chunks it occupies itself, and the first real one. */
    method StampSmall(x: nat, s: Shift)
      requires s < EXACT_SHIFT && x in area && Words(area[x])
      modifies `area
      ensures area.Keys == old(area).Keys && forall i :: i in area && i != x ==> area[i] == old(area)[i]
      ensures x in area && Words(area[x]) && Encodes(s, area[x], s, {Reserved(s)})
    {
      ChunkGeometry(s);
      ReservedBits(s);
      hide Pow2, Bit, Encodes, Reserved, Count;
      var row: seq<nat> := area[x][0 := 2 * Pow2(Reserved(s)) - 1];
      var i := 1;
      while i < Count(s) / WORD_BITS
        invariant 1 <= i <= Count(s) / WORD_BITS && Words(row)
        invariant row[0] == 2 * Pow2(Reserved(s)) - 1 && forall j :: 1 <= j < i ==> row[j] == 0
      {
        row := row[i := 0];
        i := i + 1;
      }
      SmallFresh(row, s);
      area := area[x := row];
    }

    /** Declares a fresh page of chunks in its descriptor word and, if small, in its bitmap. */
    method Stamp(x: nat, s: Shift)
      requires Page(x) in desc && x in area && Words(area[x])
      modifies `desc, `area
      ensures Page(x) in desc && desc == old(desc)[Page(x) := old(desc)[Page(x)].(slab := desc[Page(x)].slab)]
      ensures area.Keys == old(area).Keys && forall i :: i in area && i != x ==> area[i] == old(area)[i]
      ensures x in area && Words(area[x]) && Encodes(desc[Page(x)].slab, area[x], s, {Reserved(s)})
    {
      hide Encodes, Words, Reserved;
      var slab: nat;
      if s < EXACT_SHIFT {
        StampSmall(x, s);
        slab := s;
      } else if s == EXACT_SHIFT {
        slab := 1;
        ExactFresh(area[x], s) by { WordsLength(area[x]); }
      } else {
        slab := MAP_BASE + s;
        BigFresh(area[x], s) by { WordsLength(area[x]); }
      }
      desc := desc[Page(x) := desc[Page(x)].(slab := slab)];
      NoneReserved(s);
    }

    /** A fresh page of chunks of 2^s bytes, its first chunk taken, hung on the empty slot. */
    method FreshPage(s: Shift) returns (r: Option<nat>)
      requires Sound(Geo(), View()) && min <= s && Slot(s - min) in lists && lists[Slot(s - min)] == []
      modifies `desc, `area, `runs, `lists
      ensures Sound(Geo(), View())
      ensures r.None? ==> View() == old(View()) && NoRun(runs, 1)
      ensures r.Some? ==> HasRun(old(runs), r.value, 1)
      ensures r.Some? ==> runs == Carved(old(runs), r.value, 1)[r.value := Chunks(s, {Reserved(s)})]
    {
      hide Sound, Open, Carved, Encodes, Hung, Words, Described, ListTag, TagFor, Linked;
      ghost var before := View();
      r := AllocPages(1);
      if r == None { return; }
      var x, h := r.value, Slot(s - min);
      CarvedAt(Geo(), before.runs, x, 1);
      SlotStaysEmpty(Geo(), before, View(), x, h);
      ghost var st := View();
      OpenWhole(Geo(), st, x);
      Stamp(x, s);
      Rechunk(Geo(), st, View(), x, Null, s, {Reserved(s)}) by { FreshProper(s); }
      runs := runs[x := Chunks(s, {Reserved(s)})];
      ghost var mid := View();
      SlotTag(Geo(), s);
      lists := HangFirst(Geo(), mid, x, h);
      HangOn(h, Page(x), TagFor(s));
      FreshProper(s);
      CloseChunks(Geo(), View(), x, h);
    }

    /** Takes the first free chunk of a page on its slot; a page that becomes full leaves the slot. */
    method TakeChunk(x: nat, s: Shift) returns (c: nat)
      requires Sound(Geo(), View()) && x in runs && runs[x].Chunks? && runs[x].shift == s && !Full(s, runs[x].used)
      modifies `desc, `area, `runs, `lists
      ensures Sound(Geo(), View())
      ensures Reserved(s) <= c < Count(s) && c !in old(runs)[x].used
      ensures runs == old(runs)[x := Chunks(s, old(runs)[x].used + {c})]
    {
      hide Sound, Open, Encodes, Words, Linked, Bypass, Full, Proper, Reserved, Count, ListTag, TagFor, Home;
      ghost var used, st := runs[x].used, View();
      ChunkPage(Geo(), st, x);
      ghost var h := Slot(s - min);
      var full;
      if s < EXACT_SHIFT {
        c, full := MarkSmall(x, s, used);
        assert desc == st.desc[Page(x) := st.desc[Page(x)].(slab := desc[Page(x)].slab)];
      } else if s == EXACT_SHIFT {
        c, full := MarkExact(x, used);
      } else {
        c, full := MarkBig(x, s, used);
      }
      ProperAdd(s, used, c);
      Rechunk(Geo(), st, View(), x, h, s, used + {c});
      runs := runs[x := Chunks(s, used + {c})];
      if full {
        lists := TakeOut(Geo(), View(), x, h);
        Unlink(Page(x));
        ghost var out := View();
        desc := desc[Page(x) := Desc(desc[Page(x)].slab, Null, Null, TagFor(s))];
        Detached(Geo(), out, View(), x);
        CloseChunks(Geo(), View(), x, Null);
      } else {
        CloseChunks(Geo(), View(), x, h);
      }
    }

    /** Gives chunk c of page x back: a full page returns to its slot, an idle one becomes a free run. */
    method GiveChunk(x: nat, s: Shift, c: nat)
      requires Sound(Geo(), View()) && x in runs && runs[x].Chunks? && runs[x].shift == s && c in runs[x].used
      modifies `desc, `area, `runs, `lists
      ensures Sound(Geo(), View())
      ensures var rest := old(runs)[x].used - {c};
        runs == old(runs)[x := if rest == {} then FreeRun(1) else Chunks(s, rest)]
    {
      hide Sound, Open, Encodes, Words, Linked, Pushed, Full, Proper, Reserved, Count, ListTag, TagFor, Home;
      ghost var used, st := runs[x].used, View();
      ChunkPage(Geo(), st, x);
      ghost var h := Slot(s - min);
      if s == EXACT_SHIFT { ExactWord(desc[Page(x)].slab, area[x], s, used); }
      if (if s == EXACT_SHIFT then desc[Page(x)].slab == BUSY else desc[Page(x)].next == Null) {
        lists := PutIn(Geo(), st, x, h);
        Link(Slot(s - min), Page(x), TagFor(s));
      }
      ghost var mid := View();
      var idle;
      if s < EXACT_SHIFT {
        idle := ClearSmall(x, s, c, used);
        assert desc == mid.desc[Page(x) := mid.desc[Page(x)].(slab := desc[Page(x)].slab)];
      } else if s == EXACT_SHIFT {
        idle := ClearExact(x, c, used);
      } else {
        idle := ClearBig(x, s, c, used);
      }
      ProperSub(s, used, c);
      Rechunk(Geo(), mid, View(), x, h, s, used - {c});
      runs := runs[x := Chunks(s, used - {c})];
      if idle {
        OnList(Geo(), View(), x, h);
        FreePages(x, 1, h);
      } else {
        NotFull(s, used, c);
        CloseChunks(Geo(), View(), x, h);
      }
    }

    // -------------------------------------------------------------- the two operations

    /** The power of two that a size is rounded up to. */
    method ShiftFor(size: nat) returns (shift: nat)
      requires 2 <= size
      ensures shift > 0 && Pow2(shift - 1) < size <= Pow2(shift)
    {
      shift := 1;
      var s: nat := (size - 1) / 2;
      while s != 0
        invariant shift > 0 && shift + Length(s) == Length(size - 1)
      {
        s, shift := s / 2, shift + 1;
      }
      LengthBounds(size - 1);
    }

    method AllocChunk(s: Shift) returns (p: Option<nat>)
      requires Valid() && min <= s
      modifies this
      ensures Valid()
      ensures p.None? ==> live == old(live) && View() == old(View()) && NoRun(runs, 1) && NoChunk(runs, s)
      ensures p.Some? ==> p.value !in old(live) && live == old(live)[p.value := Size(s)]
    {
      hide Sound, Open, Ledger, Full, Reserved, Count, SizeAt, ListTag, Carved, Tiled;
      ghost var before := View();
      var slot := Slot(s - min);
      SoundTiled(Geo(), before);
      SlotFacts(Geo(), before, s);
      var page := desc[slot].next;
      if desc[page].next != page {
        var x := page.i;
        var c := TakeChunk(x, s);
        TookChunk(Geo(), before.runs, start, live, x, c);
        live := live[start + ChunkOffset(x, s, c) := Size(s)];
        p := Some(start + ChunkOffset(x, s, c));
      } else {
        var r := FreshPage(s);
        if r == None { return None; }
        TookFresh(Geo(), before.runs, start, live, r.value, s);
        live := live[start + ChunkOffset(r.value, s, Reserved(s)) := Size(s)];
        p := Some(start + ChunkOffset(r.value, s, Reserved(s)));
      }
    }

    /** Allocation fails only when no free run and, for chunks, no page of that size has room. */
    method AllocLocked(size: nat) returns (p: Option<nat>)
      requires Valid() && size + PAGE_SIZE - 1 <= BUSY
      modifies this
      ensures Valid()
      ensures p.None? ==> live == old(live) && View() == old(View()) && NoRoom(runs, min, size)
      ensures p.Some? ==> p.value !in old(live) && p.value in live && Fits(min, size, live[p.value])
      ensures p.Some? ==> live == old(live)[p.value := live[p.value]]
    {
      hide Sound, Open, Ledger, Full, SizeAt, Carved;
      if size >= MAX_SIZE {
        var n := (size + PAGE_SIZE - 1) % (BUSY + 1) / PAGE_SIZE;
        ghost var before := View();
        SoundTiled(Geo(), before);
        var r := AllocPages(n);
        if r == None { return None; }
        TookPages(Geo(), before.runs, start, live, r.value, n);
        live := live[start + r.value * PAGE_SIZE := n * PAGE_SIZE];
        p := Some(start + r.value * PAGE_SIZE);
      } else {
        var shift: nat := min;
        SmallPowers();
        if size > Size(min) {
          shift := ShiftFor(size);
          PowOrder(min, shift);
          PowOrder(shift - 1, 11);
        }
        p := AllocChunk(shift);
      }
    }

    /** Releases a live allocation, found from its address alone, and nothing else. */
    method FreeLocked(p: nat)
      requires Valid() && p in live
      modifies this
      ensures Valid() && live == old(live) - {p}
    {
      hide Sound, Open, Ledger, Full, SizeAt, Encodes, Words, ListTag;
      ghost var before := View();
      LiveFacts(Geo(), before, start, live, p);
      assert start <= p <= start + pages * PAGE_SIZE;
      var n := (p - start) / PAGE_SIZE;
      var d := desc[Page(n)];
      match d.tag
      case AsPage =>
        assert p % PAGE_SIZE == 0 && d.slab != 0 && d.slab != BUSY;
        FreePages(n, d.slab - PAGE_START, Null);
        GavePages(before.runs, start, live, n);
        live := live - {p};
      case AsExact =>
        assert p % Size(EXACT_SHIFT) == 0;
        Release(p, n, EXACT_SHIFT, p % PAGE_SIZE / Size(EXACT_SHIFT));
      case _ =>
        var s: Shift := d.slab % 16;
        assert p % Size(s) == 0;
        Release(p, n, s, p % PAGE_SIZE / Size(s));
    }

    method Release(p: nat, n: nat, s: Shift, c: nat)
      requires Valid() && n in runs && runs[n].Chunks? && runs[n].shift == s && c in runs[n].used
      requires p == start + ChunkOffset(n, s, c) && c < Count(s)
      modifies this
      ensures Valid() && live == old(live) - {p}
    {
      hide Sound, Ledger, SizeAt, Count;
      ghost var before := View();
      GiveChunk(n, s, c);
      GaveChunk(before.runs, start, live, n, c);
      live := live - {p};
    }

    // -------------------------------------------------------------- clients

    /** A client that writes a word inside memory it was given disturbs nothing. */
    method Store(q: nat, value: nat, ghost p: nat)
      requires Valid() && value <= BUSY && q % 8 == 0
      requires p in live && p <= start + q && start + q + 8 <= p + live[p]
      modifies `area
      ensures Valid() && q / PAGE_SIZE in old(area) && |old(area)[q / PAGE_SIZE]| == PAGE_WORDS
      ensures area == old(area)[q / PAGE_SIZE := Poke(old(area)[q / PAGE_SIZE], q % PAGE_SIZE / 8, value)]
    {
      ghost var before := View();
      var i, k := q / PAGE_SIZE, q % PAGE_SIZE / 8;
      StoreApart(Geo(), before, start, live, p, q);
      area := area[i := Poke(area[i], k, value)];
      Stored(Geo(), before, i, k, value);
    }
  }

  lemma WordsLength(words: seq<nat>)
    requires Words(words)
    ensures |words| == PAGE_WORDS
  {
  }

  lemma WordAt(words: seq<nat>, n: nat)
    requires Words(words) && n < PAGE_WORDS
    ensures words[n] <= BUSY
  {
  }

  /** A clear bit of a small page's bitmap stands for a free chunk. */
  lemma ClearIsFree(slab: nat, words: seq<nat>, s: Shift, used: set<nat>, n: nat, i: nat)
    requires Encodes(slab, words, s, used) && s < EXACT_SHIFT
    requires n < Count(s) / WORD_BITS <= PAGE_WORDS && i < WORD_BITS && !Bit(words[n], i)
    ensures Reserved(s) <= n * WORD_BITS + i < Count(s) && n * WORD_BITS + i !in used
  {
    hide Marked, Bit, Count, Reserved;
    SmallBit(slab, words, s, n, i);
  }

  /** The bit of a big page's descriptor word that stands for chunk c. */
  predicate MapBit(slab: nat, c: nat) {
    Bit(slab, 32 + c)
  }

  lemma ExactBits(slab: nat, words: seq<nat>, used: set<nat>)
    requires Encodes(slab, words, EXACT_SHIFT, used) && !Full(EXACT_SHIFT, used) && Proper(EXACT_SHIFT, used)
    ensures slab < BUSY
    ensures forall c :: 0 <= c < WORD_BITS && !Bit(slab, c) ==> c !in used
  {
    ChunkGeometry(EXACT_SHIFT);
    ExactWord(slab, words, EXACT_SHIFT, used);
    forall c | 0 <= c < WORD_BITS && !Bit(slab, c) ensures c !in used {
      assert !Marked(slab, words, EXACT_SHIFT, c);
    }
  }

  /** A big page's descriptor word still tells its shift. */
  lemma BigShift(slab: nat, words: seq<nat>, s: Shift, used: set<nat>)
    requires Encodes(slab, words, s, used) && s > EXACT_SHIFT
    ensures slab % 16 == s && Pow2(PAGE_SHIFT - slab % 16) == Count(s)
  {
    assert slab == slab / MAP_BASE * MAP_BASE + s;
    Divide(slab, 16, slab / MAP_BASE * 0x1000_0000, s);
  }

  /** The first clear bit of a big page's map stands for a free chunk. */
  lemma BigFree(slab: nat, words: seq<nat>, s: Shift, used: set<nat>, c: nat)
    requires Encodes(slab, words, s, used) && s > EXACT_SHIFT && !Full(s, used) && c <= Count(s)
    requires forall j :: 0 <= j < c ==> MapBit(slab, j)
    requires c < Count(s) ==> !MapBit(slab, c)
    ensures c < Count(s) && c !in used
  {
    var j :| Reserved(s) <= j < Count(s) && j !in used;
    BigMark(slab, words, s, used, j);
    assert !MapBit(slab, j);
    if c < Count(s) { BigMark(slab, words, s, used, c); }
  }

  lemma ProperAdd(s: Shift, used: set<nat>, c: nat)
    requires Proper(s, used) && Reserved(s) <= c < Count(s)
    ensures Proper(s, used + {c})
  {
  }

  lemma ProperSub(s: Shift, used: set<nat>, c: nat)
    requires Proper(s, used) && c in used
    ensures Proper(s, used - {c}) && Reserved(s) <= c < Count(s)
  {
  }

  ghost predicate IsFreeRun(runs: map<nat, Run>, r: Ref)
    ensures IsFreeRun(runs, r) ==> r.Page? && r.i in runs && runs[r.i].FreeRun?
  {
    r.Page? && r.i in runs && runs[r.i].FreeRun?
  }

  /** One step of a walk along the free list. */
  lemma Walk(g: Geometry, st: State, k: nat)
    requires Sound(g, st) && FreeHead in st.lists && k <= |st.lists[FreeHead]|
    ensures FreeHead in st.desc && st.desc[FreeHead].next == At(st.lists[FreeHead], FreeHead, 0)
    ensures var list := st.lists[FreeHead];
      var r := At(list, FreeHead, k);
      && (r == FreeHead <==> k == |list|) && r in st.desc
      && (k < |list| ==>
        && r == list[k] && IsFreeRun(st.runs, r) && r in st.desc && st.desc[r].slab == st.runs[r.i].len
        && st.desc[r].next == At(list, FreeHead, k + 1))
  {
    var list := st.lists[FreeHead];
    FreeListed(g, st);
    assert Ring(st.desc, FreeHead, list);
    hide Sound;
    if k < |list| { assert list[k] in list && Node(st.desc, FreeHead, list, k); }
  }

  /** Every free run stands somewhere on the free list. */
  lemma FreeIndex(g: Geometry, st: State)
    requires Sound(g, st) && FreeHead in st.lists
    ensures forall i :: i in st.runs && st.runs[i].FreeRun? ==>
      exists j :: 0 <= j < |st.lists[FreeHead]| && st.lists[FreeHead][j] == Page(i)
  {
    FreeListed(g, st);
  }

  /** Only the pages after x, up to the end of its run, are overwritten. */
  ghost predicate Filled(desc: Table, desc': Table, x: nat, len: nat, slab: nat) {
    && desc'.Keys == desc.Keys
    && forall r :: r in desc ==>
      desc'[r] == if r.Page? && x < r.i < x + len then Desc(slab, Null, Null, AsPage) else desc[r]
  }

  /** The free list holds exactly the free runs, each descriptor giving the length. */
  lemma FreeListed(g: Geometry, st: State)
    requires Sound(g, st)
    ensures FreeHead in st.lists
    ensures forall r :: r in st.lists[FreeHead] ==>
      IsFreeRun(st.runs, r) && r in st.desc && st.desc[r].slab == st.runs[r.i].len
    ensures forall i :: i in st.runs && st.runs[i].FreeRun? ==> Page(i) in st.lists[FreeHead]
  {
    forall r | r in st.lists[FreeHead]
      ensures IsFreeRun(st.runs, r) && r in st.desc && st.desc[r].slab == st.runs[r.i].len
    {
      assert Home(g, st.runs[r.i]) == FreeHead && Described(st.desc, st.area, r.i, st.runs[r.i]);
    }
    forall i | i in st.runs && st.runs[i].FreeRun? ensures Page(i) in st.lists[FreeHead] {
      assert Home(g, st.runs[i]) == FreeHead;
    }
  }

  /** The runs once n pages have been taken from the front of the free run at x. */
  function Carved(runs: map<nat, Run>, x: nat, n: nat): map<nat, Run>
    requires x in runs && runs[x].FreeRun? && runs[x].len >= n
  {
    if runs[x].len > n then Halves(runs, x, n, runs[x].len) else runs[x := Whole(n)]
  }

  lemma FreeRunOpen(g: Geometry, st: State, x: nat)
    requires Sound(g, st) && x in st.runs && st.runs[x].FreeRun?
    ensures Open(g, st, x, FreeHead) && FreeHead in st.lists && Page(x) in st.desc && x in st.area
    ensures st.desc[Page(x)].slab == st.runs[x].len && st.desc[Page(x)].tag == AsPage
    ensures ListTag(g, FreeHead) == AsPage
    ensures Tail(st.desc, x, st.runs[x].len, 0)
    ensures forall j :: x <= j < x + st.runs[x].len ==> Page(j) in st.desc
  {
    assert Described(st.desc, st.area, x, st.runs[x]);
    OpenAt(g, st, x);
    hide Sound, Described;
    Parts(g, st, x, FreeHead);
    InArea(g, st, x);
  }

  /** Writing the length of the rest into its first descriptor prepares the free run at x for splitting. */
  lemma RestSized(g: Geometry, st: State, mid: State, x: nat, n: nat)
    requires Sound(g, st) && x in st.runs && st.runs[x].FreeRun? && st.runs[x].len > n > 0 && Page(x + n) in st.desc
    requires mid == st.(desc := st.desc[Page(x + n) := st.desc[Page(x + n)].(slab := st.runs[x].len - n)])
    ensures Open(g, mid, x, FreeHead) && Page(x) in mid.desc && mid.desc[Page(x)].tag == AsPage
    ensures Tail(mid.desc, x + n, st.runs[x].len - n, 0)
  {
    hide *;
    FreeRunOpen(g, st, x);
    Parts(g, st, x, FreeHead);
    SizedRest(st.desc, mid.desc, x, n, st.runs[x].len);
    assert st.runs[x := st.runs[x]] == st.runs;
    Relabel(g, st, x, FreeHead, st.runs[x], mid.desc, mid.area) by { FreeLength(st.runs[x]); }
  }

  lemma FreeLength(run: Run)
    requires run.FreeRun?
    ensures RunLength(run) == run.len
  {
  }

  lemma SizedRest(desc: Table, desc': Table, x: nat, n: nat, len: nat)
    requires 0 < n < len && Page(x) in desc && Page(x + n) in desc && Tail(desc, x, len, 0)
    requires desc' == desc[Page(x + n) := desc[Page(x + n)].(slab := len - n)]
    ensures Rewrites(desc, desc', x, len, FreeHead) && Tail(desc', x + n, len - n, 0)
    ensures Page(x) in desc' && desc'[Page(x)] == desc[Page(x)]
  {
  }

  /** A page that hangs on no list may be declared to be something else of the same length. */
  lemma Relabelled(g: Geometry, st: State, x: nat, run: Run)
    requires Open(g, st, x, Null) && RunLength(run) == RunLength(st.runs[x]) && !run.Chunks?
    ensures Open(g, st.(runs := st.runs[x := run]), x, Null)
  {
    Relabel(g, st, x, Null, run, st.desc, st.area);
  }

  ghost predicate NoRun(runs: map<nat, Run>, n: nat) {
    forall i :: i in runs && runs[i].FreeRun? ==> runs[i].len < n
  }

  ghost predicate HasRun(runs: map<nat, Run>, x: nat, n: nat) {
    x in runs && runs[x].FreeRun? && runs[x].len >= n > 0
  }

  lemma AtHeader(g: Geometry, st: State, k: nat)
    requires Sound(g, st) && FreeHead in st.lists && k <= |st.lists[FreeHead]|
    requires At(st.lists[FreeHead], FreeHead, k) == FreeHead
    ensures k == |st.lists[FreeHead]|
  {
    assert Ring(st.desc, FreeHead, st.lists[FreeHead]);
  }

  lemma AtPage(g: Geometry, st: State, k: nat)
    requires Sound(g, st) && FreeHead in st.lists && k <= |st.lists[FreeHead]|
    requires At(st.lists[FreeHead], FreeHead, k) != FreeHead
    ensures k < |st.lists[FreeHead]|
  {
  }

  lemma CarvedAt(g: Geometry, runs: map<nat, Run>, x: nat, n: nat)
    requires HasRun(runs, x, n)
    ensures x in Carved(runs, x, n) && Carved(runs, x, n)[x] == Whole(n)
  {
    if runs[x].len > n { HalvesAt(runs, x, n, runs[x].len, x); }
  }

  lemma OpenPages(g: Geometry, st: State, x: nat)
    requires exists home :: Open(g, st, x, home)
    ensures x in st.runs && x in st.area && Words(st.area[x])
    ensures forall j :: x <= j < x + RunLength(st.runs[x]) ==> Page(j) in st.desc
    ensures RunLength(st.runs[x]) > 0 && FreeHead in st.lists && ListTag(g, FreeHead) == AsPage
  {
    var home :| Open(g, st, x, home);
    Parts(g, st, x, home);
    forall j | x <= j < x + RunLength(st.runs[x]) ensures Page(j) in st.desc { assert IsRef(g, Page(j)); }
  }

  lemma FilledRewrites(desc: Table, d: Desc, desc': Table, x: nat, len: nat, slab: nat, home: Ref)
    requires Page(x) in desc && len > 0 && Filled(desc[Page(x) := d], desc', x, len, slab)
    requires home != Null ==> d.next == desc[Page(x)].next && d.prev == desc[Page(x)].prev
    requires forall j :: x <= j < x + len ==> Page(j) in desc
    ensures Rewrites(desc, desc', x, len, home) && Tail(desc', x, len, slab)
    ensures Page(x) in desc' && desc'[Page(x)] == d
  {
    assert desc[Page(x) := d].Keys == desc.Keys;
  }

  /** Stamping a run that hangs on no list as one large allocation. */
  lemma WholeRun(g: Geometry, st: State, desc': Table, x: nat, n: nat)
    requires Open(g, st, x, Null) && st.runs[x] == Whole(n) && Page(x) in st.desc
    requires Filled(st.desc[Page(x) := Desc(n + PAGE_START, Null, Null, AsPage)], desc', x, n, BUSY)
    ensures Sound(g, st.(desc := desc'))
  {
    assert RunLength(st.runs[x]) == n;
    hide Open, Sound, Filled, Rewrites, Tail, Words;
    OpenPages(g, st, x);
    FilledRewrites(st.desc, Desc(n + PAGE_START, Null, Null, AsPage), desc', x, n, BUSY, Null);
    assert st.runs[x := st.runs[x]] == st.runs;
    Relabel(g, st, x, Null, st.runs[x], desc', st.area);
    OpenAt(g, st.(desc := desc'), x);
  }

  lemma FreedRun(g: Geometry, st: State, desc': Table, x: nat, len: nat, home: Ref)
    requires Open(g, st, x, home) && RunLength(st.runs[x]) == len && Page(x) in st.desc
    requires Filled(st.desc[Page(x) := st.desc[Page(x)].(slab := len)], desc', x, len, 0)
    ensures Open(g, State(desc', st.area, st.runs[x := FreeRun(len)], st.lists), x, home)
    ensures Page(x) in desc' && desc'[Page(x)] == st.desc[Page(x)].(slab := len) && Tail(desc', x, len, 0)
  {
    assert RunLength(FreeRun(len)) == len;
    hide *;
    OpenPages(g, st, x);
    FilledRewrites(st.desc, st.desc[Page(x)].(slab := len), desc', x, len, 0, home);
    Relabel(g, st, x, home, FreeRun(len), desc', st.area);
  }

  lemma TailStays(desc: Table, desc': Table, x: nat, len: nat, slab: nat)
    requires Tail(desc, x, len, slab) && KeepsTail(desc, desc', x, len)
    ensures Tail(desc', x, len, slab)
  {
  }

  lemma FreeRunSound(g: Geometry, st: State, x: nat)
    requires Open(g, st, x, FreeHead) && st.runs[x].FreeRun? && Page(x) in st.desc
    requires st.desc[Page(x)].slab == st.runs[x].len && st.desc[Page(x)].tag == AsPage
    requires Tail(st.desc, x, st.runs[x].len, 0)
    ensures Sound(g, st)
  {
    Parts(g, st, x, FreeHead);
    InArea(g, st, x);
    hide Open, Sound;
    OpenAt(g, st, x);
  }

  lemma ReservedBits(s: Shift)
    requires s < EXACT_SHIFT
    ensures 0 < 2 * Pow2(Reserved(s)) - 1 <= BUSY
    ensures 2 <= Count(s) / WORD_BITS <= 8
  {
    ChunkGeometry(s);
    SmallPowers();
  }

  lemma FreshProper(s: Shift)
    ensures Proper(s, {Reserved(s)}) && !Full(s, {Reserved(s)})
  {
    ChunkGeometry(s);
    var c := Reserved(s) + 1;
    var used := {Reserved(s)};
    assert c < Count(s) && c !in used;
  }

  lemma SlotTag(g: Geometry, s: Shift)
    requires g.min <= s
    ensures ListTag(g, Slot(s - g.min)) == TagFor(s)
  {
  }

  /** Taking pages from a free run puts nothing on a slot. */
  lemma SlotStaysEmpty(g: Geometry, st: State, st': State, x: nat, h: Ref)
    requires Sound(g, st) && Sound(g, st') && h.Slot? && h in st.lists && st.lists[h] == []
    requires HasRun(st.runs, x, 1) && st'.runs == Carved(st.runs, x, 1)
    ensures h in st'.lists && st'.lists[h] == []
  {
    SlotInLists(g, st, st', h);
    if st'.lists[h] != [] {
      var r := st'.lists[h][0];
      AtHome(g, st', h, r);
      CarvedAt(g, st.runs, x, 1);
      if st.runs[x].len > 1 { HalvesAt(st.runs, x, 1, st.runs[x].len, r.i); }
      hide Sound;
      AtHome(g, st, h, r);
    }
  }

  lemma SlotInLists(g: Geometry, st: State, st': State, h: Ref)
    requires Sound(g, st) && Sound(g, st') && h in st.lists
    ensures h in st'.lists
  {
  }

  /** A page hangs on the list that is its home. */
  lemma AtHome(g: Geometry, st: State, h: Ref, r: Ref)
    requires Sound(g, st) && h in st.lists
    ensures r in st.lists[h] <==> r.Page? && r.i in st.runs && Home(g, st.runs[r.i]) == h
  {
  }

  lemma OpenWhole(g: Geometry, st: State, x: nat)
    requires Sound(g, st) && x in st.runs && st.runs[x] == Whole(1)
    ensures Open(g, st, x, Null) && x in st.area && Words(st.area[x]) && Page(x) in st.desc
  {
    assert Described(st.desc, st.area, x, st.runs[x]);
    OpenAt(g, st, x);
  }

  /** Rewriting the slab word or the bitmap of a one-page run declares its chunks. */
  lemma Rechunk(g: Geometry, st: State, st': State, x: nat, home: Ref, s: Shift, used: set<nat>)
    requires Open(g, st, x, home) && RunLength(st.runs[x]) == 1 && g.min <= s && Proper(s, used)
    requires Page(x) in st.desc && Page(x) in st'.desc
      && st'.desc == st.desc[Page(x) := st.desc[Page(x)].(slab := st'.desc[Page(x)].slab)]
    requires st'.area.Keys == st.area.Keys && x in st'.area && Words(st'.area[x])
    requires forall i :: i in st.area && i != x ==> st'.area[i] == st.area[i]
    requires st'.runs == st.runs && st'.lists == st.lists
    ensures Open(g, st'.(runs := st.runs[x := Chunks(s, used)]), x, home)
  {
    assert InRange(Chunks(s, used));
    assert Rewrites(st.desc, st'.desc, x, 1, home) by { assert st'.desc.Keys == st.desc.Keys; }
    hide *;
    Relabel(g, st, x, home, Chunks(s, used), st'.desc, st'.area)
      by { assert RunLength(Chunks(s, used)) == 1 by { ChunkLength(Chunks(s, used)); } }
  }

  lemma ChunkLength(run: Run)
    requires run.Chunks?
    ensures RunLength(run) == 1
  {
  }

  /** A chunk page that hangs where it should, and whose bits say what is used, needs no more. */
  lemma CloseChunks(g: Geometry, st: State, x: nat, home: Ref)
    requires Open(g, st, x, home) && st.runs[x].Chunks? && st.runs[x].used != {} && Page(x) in st.desc && x in st.area
    requires st.desc[Page(x)].tag == TagFor(st.runs[x].shift)
    requires Encodes(st.desc[Page(x)].slab, st.area[x], st.runs[x].shift, st.runs[x].used)
    requires g.min <= st.runs[x].shift
    requires home == if Full(st.runs[x].shift, st.runs[x].used) then Null else Slot(st.runs[x].shift - g.min)
    requires home == Null ==> Unlinked(st.desc, x)
    ensures Sound(g, st)
  {
    hide *;
    Parts(g, st, x, home);
    ChunkSaid(g, st.desc, st.area, x, st.runs[x]);
    OpenAt(g, st, x);
  }

  /** What the descriptor and the words of a chunk page say, and where such a page hangs. */
  lemma ChunkSaid(g: Geometry, desc: Table, area: Area, x: nat, run: Run)
    requires run.Chunks? && Page(x) in desc && x in area && g.min <= run.shift
    ensures Described(desc, area, x, run) <==>
      Words(area[x]) && run.used != {} && desc[Page(x)].tag == TagFor(run.shift)
      && Encodes(desc[Page(x)].slab, area[x], run.shift, run.used)
    ensures Home(g, run) == if Full(run.shift, run.used) then Null else Slot(run.shift - g.min)
  {
  }

  /** What is known of a chunk page between operations; it has no next exactly when it is full. */
  lemma ChunkPage(g: Geometry, st: State, x: nat)
    requires Sound(g, st) && x in st.runs && st.runs[x].Chunks?
    ensures var Chunks(s, used) := st.runs[x];
      && g.min <= s && Proper(s, used) && Slot(s - g.min) in st.lists && ListTag(g, Slot(s - g.min)) == TagFor(s)
      && Page(x) in st.desc && x in st.area && Words(st.area[x]) && st.desc[Page(x)].tag == TagFor(s)
      && Encodes(st.desc[Page(x)].slab, st.area[x], s, used)
      && Open(g, st, x, if Full(s, used) then Null else Slot(s - g.min))
      && (Full(s, used) <==> st.desc[Page(x)].next == Null)
  {
    var Chunks(s, used) := st.runs[x];
    SoundAt(g, st, x);
    assert g.min <= s && Proper(s, used) && Slot(s - g.min) in st.lists;
    SlotTag(g, s);
    hide *;
    ChunkSaid(g, st.desc, st.area, x, st.runs[x]);
    OpenAt(g, st, x);
    if !Full(s, used) { OnList(g, st, x, Slot(s - g.min)); }
  }

  lemma SoundAt(g: Geometry, st: State, x: nat)
    requires Sound(g, st) && x in st.runs
    ensures Described(st.desc, st.area, x, st.runs[x]) && Page(x) in st.desc && x in st.area && Words(st.area[x])
    ensures Home(g, st.runs[x]) == Null ==> Unlinked(st.desc, x) && st.desc[Page(x)].next == Null
    ensures st.runs[x].Chunks? ==> InRange(st.runs[x]) && g.min <= st.runs[x].shift
  {
    hide Tail, Encodes, Rings;
  }

  lemma OnList(g: Geometry, st: State, x: nat, h: Ref)
    requires Open(g, st, x, h) && h in st.lists
    ensures Page(x) in st.desc && st.desc[Page(x)].next != Null
  {
    Parts(g, st, x, h);
    InArea(g, st, x);
    var list := st.lists[h];
    assert Page(x) in list && Ring(st.desc, h, list);
    var k :| 0 <= k < |list| && list[k] == Page(x);
    assert Node(st.desc, h, list, k);
  }

  /** A page taken off its list forgets its neighbours. */
  lemma Detached(g: Geometry, st: State, st': State, x: nat)
    requires Open(g, st, x, Null) && st.runs[x].Chunks? && Page(x) in st.desc
    requires Page(x) in st'.desc && st' == st.(desc := st.desc[Page(x) := st'.desc[Page(x)]])
    ensures Open(g, st', x, Null)
  {
    Parts(g, st, x, Null);
    InArea(g, st, x);
    assert g.min <= st.runs[x].shift && InRange(st.runs[x]);
    assert st.runs[x := st.runs[x]] == st.runs && st'.desc.Keys == st.desc.Keys;
    hide Open, Words, Complete, Tiled, Rings, Listed;
    Relabel(g, st, x, Null, st.runs[x], st'.desc, st.area);
  }

  lemma NotFull(s: Shift, used: set<nat>, c: nat)
    requires Proper(s, used) && c in used
    ensures !Full(s, used - {c})
  {
    var rest := used - {c};
    assert Reserved(s) <= c < Count(s) && c !in rest;
  }

  // ---------------------------------------------------------------- what is promised

  /** The number of pages computed for a large request, in 64-bit arithmetic, covers the request exactly
    * when rounding up does not wrap; this is what AllocLocked asks of its caller. */
  lemma PageCountCovers(size: nat)
    requires size <= BUSY
    ensures (size + PAGE_SIZE - 1) % (BUSY + 1) / PAGE_SIZE * PAGE_SIZE >= size <==> size + PAGE_SIZE - 1 <= BUSY
  {
    if size + PAGE_SIZE - 1 > BUSY { assert (size + PAGE_SIZE - 1) % (BUSY + 1) == size + PAGE_SIZE - 1 - (BUSY + 1); }
  }

  /** What a request may be given: a chunk of the smallest sufficient size, or whole pages. */
  ghost predicate Fits(min: Shift, size: nat, granted: nat) {
    if size >= MAX_SIZE then granted % PAGE_SIZE == 0 && size <= granted < size + PAGE_SIZE
    else exists s: Shift :: min <= s && granted == Size(s) && size <= granted && (s > min ==> granted < 2 * size)
  }

  /** No page of chunks of 2^s bytes has one to give. */
  ghost predicate NoChunk(runs: map<nat, Run>, s: Shift) {
    forall i :: i in runs && runs[i].Chunks? && runs[i].shift == s ==> Full(s, runs[i].used)
  }

  ghost predicate NoRoom(runs: map<nat, Run>, min: Shift, size: nat) {
    if size >= MAX_SIZE then exists n: nat :: size <= n * PAGE_SIZE < size + PAGE_SIZE && NoRun(runs, n)
    else NoRun(runs, 1) && exists s: Shift ::
      min <= s && size <= Size(s) && (s > min ==> Size(s) < 2 * size) && NoChunk(runs, s)
  }

  /** The number of binary digits. */
  function Length(n: nat): nat {
    if n == 0 then 0 else 1 + Length(n / 2)
  }

  lemma {:induction false} LengthBounds(n: nat)
    requires n > 0
    ensures Length(n) > 0 && Pow2(Length(n) - 1) <= n < Pow2(Length(n))
  {
    if n > 1 { LengthBounds(n / 2); }
  }

  lemma PowOrder(a: nat, b: nat)
    requires Pow2(a) < Pow2(b)
    ensures a < b
  {
    if b <= a { PowMonotone(b, a); }
  }

  /** The page a slot points to has room; an empty slot means that no page of its size has. */
  lemma SlotFacts(g: Geometry, st: State, s: Shift)
    requires Sound(g, st) && g.min <= s
    ensures var slot := Slot(s - g.min);
      && slot in st.lists && slot in st.desc && st.desc[slot].next in st.desc
      && var page := st.desc[slot].next;
        if st.desc[page].next != page then
          page.Page? && page.i in st.runs && st.runs[page.i].Chunks? && st.runs[page.i].shift == s
            && !Full(s, st.runs[page.i].used)
        else st.lists[slot] == [] && NoChunk(st.runs, s)
  {
    var slot := Slot(s - g.min);
    assert slot in st.lists;
    var list, page := st.lists[slot], st.desc[slot].next;
    assert Ring(st.desc, slot, list);
    if list != [] {
      assert Node(st.desc, slot, list, 0) && page == list[0] && page in list;
      if |list| > 1 { Differ(list, 0, 1); }
      assert Home(g, st.runs[page.i]) == slot;
    } else {
      forall i | i in st.runs && st.runs[i].Chunks? && st.runs[i].shift == s ensures Full(s, st.runs[i].used) {
        assert Home(g, st.runs[i]) == slot ==> Page(i) in list;
      }
    }
  }

  lemma LedgerPut(start: nat, runs: map<nat, Run>, runs': map<nat, Run>, live: map<nat, nat>, q: nat, size: nat)
    requires Ledger(start, runs, live) && size > 0 && SizeAt(runs, q) == 0
    requires forall r: nat :: SizeAt(runs', r) == if r == q then size else SizeAt(runs, r)
    ensures start + q !in live && Ledger(start, runs', live[start + q := size])
  {
  }

  lemma LedgerDrop(start: nat, runs: map<nat, Run>, runs': map<nat, Run>, live: map<nat, nat>, q: nat)
    requires Ledger(start, runs, live)
    requires forall r: nat :: SizeAt(runs', r) == if r == q then 0 else SizeAt(runs, r)
    ensures Ledger(start, runs', live - {start + q})
  {
  }

  /** Taking pages from a free run makes exactly one address live. */
  lemma CarvedLedger(g: Geometry, runs: map<nat, Run>, x: nat, n: nat, q: nat)
    requires Tiled(g, runs) && HasRun(runs, x, n)
    ensures SizeAt(Carved(runs, x, n), q) == if q == x * PAGE_SIZE then n * PAGE_SIZE else SizeAt(runs, q)
  {
    var i: nat := q / PAGE_SIZE;
    CarvedAt(g, runs, x, n);
    if runs[x].len > n {
      HalvesAt(runs, x, n, runs[x].len, i);
      SplitTiled(g, runs, x, n, runs[x].len);
    }
    var runs' := Carved(runs, x, n);
    assert i != x && i in runs ==> i in runs' && runs'[i] == runs[i];
    assert i in runs' && i !in runs ==> runs'[i].FreeRun?;
    hide Tiled, Carved, Halves, Size;
  }

  lemma TookPages(g: Geometry, runs: map<nat, Run>, start: nat, live: map<nat, nat>, x: nat, n: nat)
    requires Tiled(g, runs) && Ledger(start, runs, live) && HasRun(runs, x, n)
    ensures start + x * PAGE_SIZE !in live
    ensures Ledger(start, Carved(runs, x, n), live[start + x * PAGE_SIZE := n * PAGE_SIZE])
  {
    assert SizeAt(runs, x * PAGE_SIZE) == 0;
    hide SizeAt, Ledger, Carved, Tiled;
    forall q: nat ensures SizeAt(Carved(runs, x, n), q) == if q == x * PAGE_SIZE then n * PAGE_SIZE
      else SizeAt(runs, q) {
      CarvedLedger(g, runs, x, n, q);
    }
    LedgerPut(start, runs, Carved(runs, x, n), live, x * PAGE_SIZE, n * PAGE_SIZE);
  }

  lemma TookChunk(g: Geometry, runs: map<nat, Run>, start: nat, live: map<nat, nat>, x: nat, c: nat)
    requires Ledger(start, runs, live) && x in runs && runs[x].Chunks?
    requires c < Count(runs[x].shift) && c !in runs[x].used
    ensures var Chunks(s, used) := runs[x];
      var p := start + ChunkOffset(x, s, c);
      p !in live && Ledger(start, runs[x := Chunks(s, used + {c})], live[p := Size(s)])
  {
    var Chunks(s, used) := runs[x];
    var q, runs' := ChunkOffset(x, s, c), runs[x := Chunks(s, used + {c})];
    forall r: nat ensures SizeAt(runs', r) == if r == q then Size(s) else SizeAt(runs, r) {
      ChunkLedger(runs, x, c, r);
    }
    ChunkLedger(runs, x, c, q);
    assert used - {c} == used;
    assert runs[x := Chunks(s, used - {c})] == runs;
    LedgerPut(start, runs, runs', live, q, Size(s));
  }

  lemma TookFresh(g: Geometry, runs: map<nat, Run>, start: nat, live: map<nat, nat>, x: nat, s: Shift)
    requires Tiled(g, runs) && Ledger(start, runs, live) && HasRun(runs, x, 1)
    ensures var p := start + ChunkOffset(x, s, Reserved(s));
      p !in live && Ledger(start, Carved(runs, x, 1)[x := Chunks(s, {Reserved(s)})], live[p := Size(s)])
  {
    var bare, first := Carved(runs, x, 1)[x := Chunks(s, {})], Reserved(s);
    hide *;
    ChunkGeometry(s);
    FirstReal(s);
    forall q: nat ensures SizeAt(bare, q) == SizeAt(runs, q) { BareLedger(g, runs, x, s, q); }
    LedgerSame(start, runs, bare, live);
    TookChunk(g, bare, start, live, x, first);
    assert {} + {first} == {first};
    Rewritten(Carved(runs, x, 1), x, Chunks(s, {}), Chunks(s, {first}));
  }

  lemma FirstReal(s: Shift)
    ensures Reserved(s) < Count(s)
  {
    ChunkGeometry(s);
  }

  lemma Rewritten(runs: map<nat, Run>, x: nat, a: Run, b: Run)
    ensures runs[x := a][x := b] == runs[x := b]
  {
  }

  lemma SoundTiled(g: Geometry, st: State)
    requires Sound(g, st)
    ensures Tiled(g, st.runs)
  {
  }

  lemma BareLedger(g: Geometry, runs: map<nat, Run>, x: nat, s: Shift, q: nat)
    requires Tiled(g, runs) && HasRun(runs, x, 1)
    ensures SizeAt(Carved(runs, x, 1)[x := Chunks(s, {})], q) == SizeAt(runs, q)
  {
    hide Tiled, Carved;
    CarvedLedger(g, runs, x, 1, q);
    CarvedAt(g, runs, x, 1);
  }

  lemma LedgerSame(start: nat, runs: map<nat, Run>, runs': map<nat, Run>, live: map<nat, nat>)
    requires Ledger(start, runs, live) && forall q: nat :: SizeAt(runs', q) == SizeAt(runs, q)
    ensures Ledger(start, runs', live)
  {
  }

  /** A live address lies in the pool and leads to the run it was allocated from. */
  lemma LiveRun(g: Geometry, runs: map<nat, Run>, start: nat, live: map<nat, nat>, p: nat)
    requires Tiled(g, runs) && Ledger(start, runs, live) && p in live && start % PAGE_SIZE == 0
    ensures start <= p && p + live[p] <= start + g.pages * PAGE_SIZE
    ensures p % PAGE_SIZE == (p - start) % PAGE_SIZE
    ensures var n, rest := (p - start) / PAGE_SIZE, p % PAGE_SIZE;
      && n in runs && !runs[n].FreeRun?
      && (runs[n].Whole? ==> rest == 0 && p == start + n * PAGE_SIZE)
      && (runs[n].Chunks? ==> (var s, c := runs[n].shift, rest / Size(runs[n].shift);
        rest % Size(s) == 0 && c in runs[n].used && c < Count(s)))
  {
    LiveSize(start, runs, live, p);
    SameRest(p, start);
    hide Ledger, Size, Count;
    var n: nat := (p - start) / PAGE_SIZE;
    LiveInside(g, runs, p - start);
    if runs[n].Chunks? { assert InRange(runs[n]); }
  }

  lemma SameRest(p: nat, start: nat)
    requires start <= p && start % PAGE_SIZE == 0
    ensures p % PAGE_SIZE == (p - start) % PAGE_SIZE
    ensures p - start == (p - start) / PAGE_SIZE * PAGE_SIZE + p % PAGE_SIZE
  {
  }

  /** The descriptor that a live address leads to says what was allocated there. */
  lemma LiveFacts(g: Geometry, st: State, start: nat, live: map<nat, nat>, p: nat)
    requires Sound(g, st) && Ledger(start, st.runs, live) && p in live && start % PAGE_SIZE == 0
    ensures start <= p <= start + g.pages * PAGE_SIZE
    ensures var n := (p - start) / PAGE_SIZE;
      && n in st.runs && Page(n) in st.desc && !st.runs[n].FreeRun?
      && (st.runs[n].Whole? ==> st.desc[Page(n)] == Desc(st.runs[n].len + PAGE_START, Null, Null, AsPage))
      && (st.runs[n].Whole? ==>
        0 < st.runs[n].len <= g.pages && p % PAGE_SIZE == 0 && p == start + n * PAGE_SIZE && Open(g, st, n, Null))
      && (st.runs[n].Chunks? ==> var Chunks(s, used) := st.runs[n];
        var c := p % PAGE_SIZE / Size(s);
        && st.desc[Page(n)].tag == TagFor(s) && (s != EXACT_SHIFT ==> st.desc[Page(n)].slab % 16 == s)
        && c in used && c < Count(s) && p == start + ChunkOffset(n, s, c) && p % Size(s) == 0)
  {
    SoundTiled(g, st);
    LiveRun(g, st.runs, start, live, p);
    var n: nat := (p - start) / PAGE_SIZE;
    if st.runs[n].Whole? {
      WholeFacts(g, st, n);
    } else {
      hide Sound, Tiled, Ledger, Open, Encodes, Words, Full;
      var Chunks(s, used) := st.runs[n];
      ChunkPage(g, st, n);
      if s > EXACT_SHIFT { BigShift(st.desc[Page(n)].slab, st.area[n], s, used); }
      if s < EXACT_SHIFT { SmallShift(st.desc[Page(n)].slab, st.area[n], s, used); }
      ChunkAddress(start, n, s, p);
    }
  }

  lemma WholeFacts(g: Geometry, st: State, n: nat)
    requires Sound(g, st) && n in st.runs && st.runs[n].Whole?
    ensures Page(n) in st.desc && st.desc[Page(n)] == Desc(st.runs[n].len + PAGE_START, Null, Null, AsPage)
    ensures Open(g, st, n, Null) && 0 < st.runs[n].len <= g.pages
  {
    assert Described(st.desc, st.area, n, st.runs[n]);
    OpenAt(g, st, n);
    Parts(g, st, n, Null);
  }

  lemma SmallShift(slab: nat, words: seq<nat>, s: Shift, used: set<nat>)
    requires Encodes(slab, words, s, used) && s < EXACT_SHIFT
    ensures slab % 16 == s
  {
  }

  lemma ChunkAddress(start: nat, n: nat, s: Shift, p: nat)
    requires start % PAGE_SIZE == 0 && p >= start && (p - start) / PAGE_SIZE == n
    requires p % PAGE_SIZE == (p - start) % PAGE_SIZE && p % PAGE_SIZE % Size(s) == 0
    ensures p == start + ChunkOffset(n, s, p % PAGE_SIZE / Size(s)) && p % Size(s) == 0
  {
    ChunkGeometry(s);
    var size, count, rest := Size(s), Count(s), p % PAGE_SIZE;
    assert rest == rest / size * size;
    var m := p / PAGE_SIZE;
    assert p == m * PAGE_SIZE + rest;
    Multiple(m, count, size, rest / size, p);
  }

  lemma Multiple(m: nat, count: nat, size: nat, c: nat, p: nat)
    requires size > 0 && p == m * (size * count) + c * size
    ensures p % size == 0
  {
    assert p == (m * count + c) * size;
    Divide(p, size, m * count + c, 0);
  }

  lemma GavePages(runs: map<nat, Run>, start: nat, live: map<nat, nat>, x: nat)
    requires Ledger(start, runs, live) && x in runs && runs[x].Whole?
    ensures Ledger(start, runs[x := FreeRun(runs[x].len)], live - {start + x * PAGE_SIZE})
  {
    var runs' := runs[x := FreeRun(runs[x].len)];
    forall q: nat ensures SizeAt(runs', q) == if q == x * PAGE_SIZE then 0 else SizeAt(runs, q) {
      assert q == q / PAGE_SIZE * PAGE_SIZE + q % PAGE_SIZE;
    }
    hide SizeAt, Ledger;
    LedgerDrop(start, runs, runs', live, x * PAGE_SIZE);
  }

  lemma GaveChunk(runs: map<nat, Run>, start: nat, live: map<nat, nat>, x: nat, c: nat)
    requires Ledger(start, runs, live) && x in runs && runs[x].Chunks? && c < Count(runs[x].shift)
    ensures var Chunks(s, used) := runs[x];
      var rest := used - {c};
      Ledger(start, runs[x := if rest == {} then FreeRun(1) else Chunks(s, rest)],
        live - {start + ChunkOffset(x, s, c)})
  {
    var Chunks(s, used) := runs[x];
    var rest, q := used - {c}, ChunkOffset(x, s, c);
    var runs' := runs[x := if rest == {} then FreeRun(1) else Chunks(s, rest)];
    forall r: nat ensures SizeAt(runs', r) == if r == q then 0 else SizeAt(runs, r) {
      ChunkLedger(runs, x, c, r);
      if rest == {} { assert SizeAt(runs', r) == SizeAt(runs[x := Chunks(s, rest)], r); }
    }
    hide SizeAt, Ledger;
    LedgerDrop(start, runs, runs', live, q);
  }

  /** A word inside a live allocation lies in no bitmap. */
  lemma StoreApart(g: Geometry, st: State, start: nat, live: map<nat, nat>, p: nat, q: nat)
    requires Sound(g, st) && Ledger(start, st.runs, live) && p in live && q % 8 == 0
    requires p <= start + q && start + q + 8 <= p + live[p]
    requires start % PAGE_SIZE == 0
    ensures q / PAGE_SIZE in st.area && |st.area[q / PAGE_SIZE]| == PAGE_WORDS
    ensures Elsewhere(st.runs, q / PAGE_SIZE, q % PAGE_SIZE / 8)
  {
    SoundTiled(g, st);
    LiveRun(g, st.runs, start, live, p);
    PageInside(start, p, live[p], q, g.pages);
    hide *;
    PageWords(g, st, q / PAGE_SIZE);
    LiveElsewhere(g, st.runs, start, live, p, q);
  }

  lemma PageInside(start: nat, p: nat, size: nat, q: nat, pages: nat)
    requires start + q + 8 <= p + size && p + size <= start + pages * PAGE_SIZE
    ensures q / PAGE_SIZE < pages
  {
  }

  lemma LiveElsewhere(g: Geometry, runs: map<nat, Run>, start: nat, live: map<nat, nat>, p: nat, q: nat)
    requires Tiled(g, runs) && Ledger(start, runs, live) && p in live && q % 8 == 0
    requires p <= start + q && start + q + 8 <= p + live[p] && start <= p
    ensures Elsewhere(runs, q / PAGE_SIZE, q % PAGE_SIZE / 8)
  {
    var i: nat := q / PAGE_SIZE;
    hide Tiled, Ledger, SizeAt, Count;
    if i in runs && runs[i].Chunks? && runs[i].shift < EXACT_SHIFT {
      LiveSize(start, runs, live, p);
      BitmapApart(g, runs, i, p - start);
      BehindBitmap(runs[i].shift, i, q, p - start, live[p]);
    }
  }

  lemma BehindBitmap(s: Shift, i: nat, q: nat, p: nat, size: nat)
    requires q % 8 == 0 && i == q / PAGE_SIZE && p <= q && q + 8 <= p + size
    requires p + size <= i * PAGE_SIZE || i * PAGE_SIZE + Count(s) / 8 <= p
    ensures q % PAGE_SIZE / 8 >= Count(s) / WORD_BITS
  {
    ChunkGeometry(s);
  }

  lemma PageWords(g: Geometry, st: State, i: nat)
    requires Sound(g, st) && i < g.pages
    ensures i in st.area && Words(st.area[i]) && |st.area[i]| == PAGE_WORDS
  {
  }

  lemma LiveSize(start: nat, runs: map<nat, Run>, live: map<nat, nat>, p: nat)
    requires Ledger(start, runs, live) && p in live
    ensures p >= start && SizeAt(runs, p - start) == live[p] > 0
  {
  }

  function Poke(words: seq<nat>, k: nat, value: nat): seq<nat>
    requires k < |words|
  {
    words[k := value]
  }

  /** Word k of page i is not part of a bitmap. */
  ghost predicate Elsewhere(runs: map<nat, Run>, i: nat, k: nat) {
    i in runs && runs[i].Chunks? && runs[i].shift < EXACT_SHIFT ==> k >= Count(runs[i].shift) / WORD_BITS
  }

  lemma Stored(g: Geometry, st: State, i: nat, k: nat, value: nat)
    requires Sound(g, st) && i in st.area && |st.area[i]| == PAGE_WORDS && k < PAGE_WORDS && value <= BUSY
      && Elsewhere(st.runs, i, k)
    ensures Sound(g, st.(area := st.area[i := Poke(st.area[i], k, value)]))
  {
    var area' := st.area[i := Poke(st.area[i], k, value)];
    assert Words(area'[i]);
    forall j | j in st.runs ensures Described(st.desc, area', j, st.runs[j]) {
      assert Described(st.desc, st.area, j, st.runs[j]);
      if j == i && st.runs[j].Chunks? {
        StoredBits(st.desc[Page(i)].slab, st.area[i], st.runs[i].shift, st.runs[i].used, k, value);
      }
    }
  }

  lemma StoredBits(slab: nat, words: seq<nat>, s: Shift, used: set<nat>, k: nat, value: nat)
    requires Encodes(slab, words, s, used) && k < PAGE_WORDS && (s < EXACT_SHIFT ==> k >= Count(s) / WORD_BITS)
    ensures Encodes(slab, words[k := value], s, used)
  {
    ChunkGeometry(s);
    forall c | 0 <= c < Count(s) ensures Marked(slab, words[k := value], s, c) <==> Marked(slab, words, s, c) {}
  }

  ghost function FirstLists(slots: nat): (m: Lists)
    ensures forall h :: h in m <==> h == FreeHead || (h.Slot? && h.k < slots)
    ensures forall h :: h in m ==> m[h] == if h == FreeHead then [Page(0)] else []
  {
    if slots == 0 then map[FreeHead := [Page(0)]] else FirstLists(slots - 1)[Slot(slots - 1) := []]
  }

  lemma FirstLedger(start: nat, pages: nat)
    ensures Ledger(start, map[0 := FreeRun(pages)], map[])
  {
  }

  lemma InitialSound(g: Geometry, st: State)
    requires g.pages > 0 && st.runs == map[0 := FreeRun(g.pages)]
    requires forall r :: r in st.desc <==> IsRef(g, r)
    requires forall i :: i in st.area <==> i < g.pages
    requires forall i :: i in st.area ==> Words(st.area[i])
    requires forall h :: h in st.lists <==> IsRef(g, h) && !h.Page?
    requires forall h :: h in st.lists ==> st.lists[h] == if h == FreeHead then [Page(0)] else []
    requires forall r :: r in st.desc && r.Slot? ==> st.desc[r].next == r
    requires forall r :: r in st.desc && r.Page? && r.i > 0 ==> st.desc[r] == Desc(0, Null, Null, AsPage)
    requires FreeHead in st.desc && st.desc[FreeHead].next == Page(0)
    requires Page(0) in st.desc && st.desc[Page(0)] == Desc(g.pages, FreeHead, FreeHead, AsPage)
    ensures Sound(g, st)
  {
    assert Follows(g, st.runs, 0);
    forall h | h in st.lists ensures Ring(st.desc, h, st.lists[h]) {
      if h == FreeHead { assert Node(st.desc, h, st.lists[h], 0); }
    }
    assert Described(st.desc, st.area, 0, FreeRun(g.pages));
  }

  // ---------------------------------------------------------------- the promises, for every valid pool

  lemma ApartIn(g: Geometry, runs: map<nat, Run>, start: nat, live: map<nat, nat>)
    requires Tiled(g, runs) && Ledger(start, runs, live) && start % PAGE_SIZE == 0
    ensures forall p :: p in live ==> start <= p && p + live[p] <= start + g.pages * PAGE_SIZE
    ensures forall p, q :: p in live && q in live && p < q ==> p + live[p] <= q
    ensures forall p, i :: p in live && i in runs && runs[i].Chunks? && runs[i].shift < EXACT_SHIFT ==>
      p + live[p] <= start + i * PAGE_SIZE || start + i * PAGE_SIZE + Count(runs[i].shift) / 8 <= p
  {
    hide *;
    forall p | p in live ensures start <= p && p + live[p] <= start + g.pages * PAGE_SIZE {
      LiveRun(g, runs, start, live, p);
    }
    forall p, q | p in live && q in live && p < q ensures p + live[p] <= q {
      LiveSize(start, runs, live, p);
      LiveSize(start, runs, live, q);
      LiveApart(g, runs, p - start, q - start);
    }
    forall p, i | p in live && i in runs && runs[i].Chunks? && runs[i].shift < EXACT_SHIFT
      ensures p + live[p] <= start + i * PAGE_SIZE || start + i * PAGE_SIZE + Count(runs[i].shift) / 8 <= p
    {
      LiveSize(start, runs, live, p);
      BitmapApart(g, runs, i, p - start);
    }
  }

  /** Live allocations lie in the page area, apart from each other and from every small page's bitmap. */
  lemma LiveIsApart(pool: Pool)
    requires pool.Valid()
    ensures forall p :: p in pool.live ==> pool.start <= p && p + pool.live[p] <= pool.start + pool.pages * PAGE_SIZE
    ensures forall p, q :: p in pool.live && q in pool.live && p < q ==> p + pool.live[p] <= q
    ensures forall p, i ::
      p in pool.live && i in pool.runs && pool.runs[i].Chunks? && pool.runs[i].shift < EXACT_SHIFT ==>
      p + pool.live[p] <= pool.start + i * PAGE_SIZE
      || pool.start + i * PAGE_SIZE + Count(pool.runs[i].shift) / 8 <= p
  {
    SoundTiled(pool.Geo(), pool.View());
    hide *;
    ApartIn(pool.Geo(), pool.runs, pool.start, pool.live);
  }

  /** A slot holds exactly the pages of its chunk size that have both a used and a free chunk; a full page
    * hangs nowhere, with no next. */
  lemma SlotsHoldTheirPages(pool: Pool, s: Shift, i: nat)
    requires pool.Valid() && pool.min <= s
    ensures Slot(s - pool.min) in pool.lists && Ring(pool.desc, Slot(s - pool.min), pool.lists[Slot(s - pool.min)])
    ensures Page(i) in pool.lists[Slot(s - pool.min)]
      <==> i in pool.runs && pool.runs[i].Chunks? && pool.runs[i].shift == s
           && pool.runs[i].used != {} && !Full(s, pool.runs[i].used)
    ensures i in pool.runs && pool.runs[i].Chunks? && Full(pool.runs[i].shift, pool.runs[i].used)
      ==> Page(i) in pool.desc && pool.desc[Page(i)].next == Null
  {
    var g, st, h := pool.Geo(), pool.View(), Slot(s - pool.min);
    assert h in st.lists;
    if i in st.runs && st.runs[i].Chunks? {
      assert Described(st.desc, st.area, i, st.runs[i]);
      ChunkPage(g, st, i);
      assert Page(i) in st.lists[h] <==> Home(g, st.runs[i]) == h;
    }
  }

  /** The lengths of the free, large and chunk runs always add up to all the pages. */
  lemma PagesConserved(pool: Pool)
    requires pool.Valid()
    ensures Tiled(pool.Geo(), pool.runs) && Total(pool.Geo(), pool.runs, 0) == pool.pages
  {
  }

  // ---------------------------------------------------------------- whole runs

  lemma FitsCovers(min: Shift, size: nat, granted: nat)
    requires Fits(min, size, granted)
    ensures size <= granted
  {
  }

  datatype Request = Allocate(size: nat) | Release(p: nat)

  /** A client that releases only what it holds, whatever it asks for and in whatever order, always holds
    * exactly the live allocations, each of at least the size asked for, none overlapping another. */
  method Serve(pool: Pool, requests: seq<Request>) returns (held: map<nat, nat>)
    requires pool.Valid() && pool.live == map[]
    requires forall r :: r in requests && r.Allocate? ==> r.size + PAGE_SIZE - 1 <= BUSY
    modifies pool
    ensures pool.Valid() && held.Keys == pool.live.Keys
    ensures forall p :: p in held ==> held[p] <= pool.live[p]
    ensures forall p :: p in held ==> pool.start <= p && p + held[p] <= pool.start + pool.pages * PAGE_SIZE
    ensures forall p, q :: p in held && q in held && p < q ==> p + held[p] <= q
  {
    hide Sound, Ledger, Fits, NoRoom;
    held := map[];
    var k := 0;
    while k < |requests|
      invariant k <= |requests| && pool.Valid() && held.Keys == pool.live.Keys
      invariant forall p :: p in held ==> held[p] <= pool.live[p]
    {
      match requests[k] {
        case Allocate(size) =>
          assert requests[k] in requests;
          var p := pool.AllocLocked(size);
          if p.Some? {
            FitsCovers(pool.min, size, pool.live[p.value]);
            held := held[p.value := size];
          }
        case Release(p) =>
          if p in held {
            pool.FreeLocked(p);
            held := held - {p};
          }
      }
      k := k + 1;
    }
    LiveIsApart(pool);
  }
}
