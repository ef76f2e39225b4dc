/** The page pool of the slab allocator, as values: what each run of pages is used for, which address is
  * live with which size, how a chunk page's descriptor and first words spell out its free chunks, and
  * how pages hang on the circular lists.  Slab changes the real fields and is proved against this. */
module SlabShape {
  import opened Bits

  const PAGE_SIZE: nat := 4096
  const PAGE_SHIFT: nat := 12
  const PAGE_WORDS: nat := 512
  const WORD_BITS: nat := 64
  const EXACT_SHIFT: nat := 6
  const MAX_SIZE: nat := 2048
  const BUSY: nat := 0xffff_ffff_ffff_ffff
  const PAGE_START: nat := 0x8000_0000_0000_0000
  const MAP_BASE: nat := 0x1_0000_0000

  /** log2 of a chunk size: 8 bytes up to half a page. */
  type Shift = s: nat | 3 <= s <= 11 witness 3

  /** A descriptor is reached through the pool header, a slot or the page table. */
  datatype Ref = Null | FreeHead | Slot(k: nat) | Page(i: nat)

  /** The two low bits of a descriptor's prev word. */
  datatype Tag = AsPage | AsBig | AsExact | AsSmall

  /** A descriptor; prev and tag are the two parts of the source's prev word. */
  datatype Desc = Desc(slab: nat, next: Ref, prev: Ref, tag: Tag)

  /** What a run of pages is used for: nothing, one large allocation, or chunks of 2^shift bytes of
    * which the used ones are taken. */
  datatype Run = FreeRun(len: nat) | Whole(len: nat) | Chunks(shift: Shift, used: set<nat>)

  datatype Geometry = Geometry(min: Shift, pages: nat)

  function Size(s: Shift): nat { Pow2(s) }

  function Count(s: Shift): nat { Pow2(PAGE_SHIFT - s) }

  /** The chunks at the head of a small page that its own bitmap occupies. */
  function Reserved(s: Shift): nat {
    if s < EXACT_SHIFT then
      var n := Count(s) / 8 / Size(s);
      if n == 0 then 1 else n
    else 0
  }

  lemma SmallPowers()
    ensures Pow2(1) == 2 && Pow2(2) == 4 && Pow2(3) == 8 && Pow2(4) == 16 && Pow2(5) == 32
    ensures Pow2(6) == 64 && Pow2(7) == 128 && Pow2(8) == 256 && Pow2(9) == 512
    ensures Pow2(10) == 1024 && Pow2(11) == 2048 && Pow2(12) == 4096
  {
  }

  lemma WordPowers()
    ensures Pow2(32) == MAP_BASE && Pow2(64) == BUSY + 1
  {
    SmallPowers();
    PowerOfSum(4, 12);
    PowerOfSum(16, 16);
    PowerOfSum(32, 32);
  }

  /** Chunks fill a page exactly, and a small page's bitmap fits in the chunks reserved for it. */
  lemma ChunkGeometry(s: Shift)
    ensures Size(s) * Count(s) == PAGE_SIZE && Size(s) >= 8
    ensures 2 <= Count(s) <= 512 && Reserved(s) < Count(s)
    ensures s < EXACT_SHIFT ==> Count(s) == Count(s) / WORD_BITS * WORD_BITS && 2 <= Count(s) / WORD_BITS <= 8
    ensures s < EXACT_SHIFT ==> Count(s) <= 8 * (Reserved(s) * Size(s)) && 0 < Reserved(s) <= 8
    ensures s == EXACT_SHIFT ==> Count(s) == 64
    ensures s > EXACT_SHIFT ==> Count(s) <= 32
  {
    SmallPowers();
  }

  // ---------------------------------------------------------------- which addresses are live

  function RunLength(r: Run): nat {
    if r.Chunks? then 1 else r.len
  }

  /** The size of the allocation that starts at a byte offset of the page area, 0 when none does. */
  function SizeAt(runs: map<nat, Run>, offset: nat): nat {
    var i, rest := offset / PAGE_SIZE, offset % PAGE_SIZE;
    if i !in runs then 0 else
      match runs[i]
      case FreeRun(_) => 0
      case Whole(len) => if rest == 0 then len * PAGE_SIZE else 0
      case Chunks(s, used) => if rest % Size(s) == 0 && rest / Size(s) in used then Size(s) else 0
  }

  ghost predicate Follows(g: Geometry, runs: map<nat, Run>, i: nat)
    requires i in runs
  {
    i + RunLength(runs[i]) == g.pages || i + RunLength(runs[i]) in runs
  }

  /** The runs tile the page area: they start at page 0, each ends where another starts or at the end,
    * and they do not overlap. */
  ghost predicate Tiled(g: Geometry, runs: map<nat, Run>) {
    && g.pages > 0 && 0 in runs
    && (forall i :: i in runs ==> RunLength(runs[i]) > 0 && i + RunLength(runs[i]) <= g.pages)
    && (forall i {:trigger Follows(g, runs, i)} :: i in runs ==> Follows(g, runs, i))
    && (forall i, j :: i in runs && j in runs && i < j ==> i + RunLength(runs[i]) <= j)
    && (forall i :: i in runs && runs[i].Chunks? ==> g.min <= runs[i].shift && InRange(runs[i]))
  }

  ghost predicate InRange(r: Run)
    requires r.Chunks?
  {
    forall c :: c in r.used ==> Reserved(r.shift) <= c < Count(r.shift)
  }

  ghost predicate Full(s: Shift, used: set<nat>) {
    forall c :: Reserved(s) <= c < Count(s) ==> c in used
  }

  /** The chunk that starts at a byte offset inside a page. */
  lemma ChunkAt(s: Shift, c: nat, rest: nat)
    requires rest < PAGE_SIZE && c < Count(s)
    ensures c * Size(s) + Size(s) <= PAGE_SIZE
    ensures rest % Size(s) == 0 && rest / Size(s) == c <==> rest == c * Size(s)
  {
    ChunkGeometry(s);
    Slice(Size(s), Count(s), c, rest);
  }

  lemma Slice(p: nat, n: nat, c: nat, rest: nat)
    requires p > 0 && c < n
    ensures c * p + p <= p * n
    ensures rest % p == 0 && rest / p == c <==> rest == c * p
  {
    if c + 1 < n { Gap(p, c, n); }
    Divide(c * p, p, c, 0);
    assert rest == rest / p * p + rest % p;
  }

  function ChunkOffset(i: nat, s: Shift, c: nat): nat {
    i * PAGE_SIZE + c * Size(s)
  }

  /** Taking chunk c of page i makes exactly its address live; giving it back makes it dead again. */
  lemma ChunkLedger(runs: map<nat, Run>, i: nat, c: nat, q: nat)
    requires i in runs && runs[i].Chunks? && c < Count(runs[i].shift)
    ensures var Chunks(s, used) := runs[i];
      && SizeAt(runs[i := Chunks(s, used + {c})], q)
         == (if q == ChunkOffset(i, s, c) then Size(s) else SizeAt(runs, q))
      && SizeAt(runs[i := Chunks(s, used - {c})], q)
         == (if q == ChunkOffset(i, s, c) then 0 else SizeAt(runs, q))
  {
    var s := runs[i].shift;
    ChunkAt(s, c, q % PAGE_SIZE);
    ChunkAt(s, c, c * Size(s));
    assert q == q / PAGE_SIZE * PAGE_SIZE + q % PAGE_SIZE;
  }

  /** What is live lies inside the page area. */
  lemma LiveInside(g: Geometry, runs: map<nat, Run>, q: nat)
    requires Tiled(g, runs) && SizeAt(runs, q) > 0
    ensures q + SizeAt(runs, q) <= (q / PAGE_SIZE + RunLength(runs[q / PAGE_SIZE])) * PAGE_SIZE
    ensures q + SizeAt(runs, q) <= g.pages * PAGE_SIZE
  {
    var i, rest := q / PAGE_SIZE, q % PAGE_SIZE;
    if runs[i].Chunks? {
      var s := runs[i].shift;
      var c := rest / Size(s);
      assert Reserved(s) <= c < Count(s);
      ChunkAt(s, c, rest);
    }
  }

  /** Two live allocations never overlap. */
  lemma LiveApart(g: Geometry, runs: map<nat, Run>, p: nat, q: nat)
    requires Tiled(g, runs) && SizeAt(runs, p) > 0 && SizeAt(runs, q) > 0 && p < q
    ensures p + SizeAt(runs, p) <= q
  {
    var i: nat, j: nat := p / PAGE_SIZE, q / PAGE_SIZE;
    if i == j {
      var s := runs[i].shift;
      var c, d := p % PAGE_SIZE / Size(s), q % PAGE_SIZE / Size(s);
      assert Reserved(s) <= c < Count(s) && Reserved(s) <= d < Count(s);
      ChunkAt(s, c, p % PAGE_SIZE);
      ChunkAt(s, d, q % PAGE_SIZE);
      if d < c { Gap(Size(s), d, c); }
      if c < d { Gap(Size(s), c, d); }
    } else {
      LiveInside(g, runs, p);
      assert i + RunLength(runs[i]) <= j;
    }
  }

  /** The bytes of a small page's bitmap belong to no live allocation. */
  lemma BitmapApart(g: Geometry, runs: map<nat, Run>, i: nat, q: nat)
    requires Tiled(g, runs) && SizeAt(runs, q) > 0
    requires i in runs && runs[i].Chunks? && runs[i].shift < EXACT_SHIFT
    ensures q + SizeAt(runs, q) <= i * PAGE_SIZE || i * PAGE_SIZE + Count(runs[i].shift) / 8 <= q
  {
    var j: nat := q / PAGE_SIZE;
    var s := runs[i].shift;
    ChunkGeometry(s);
    if j < i {
      LiveInside(g, runs, q);
      assert j + RunLength(runs[j]) <= i;
    } else if j == i {
      var c := q % PAGE_SIZE / Size(s);
      assert Reserved(s) <= c < Count(s);
      ChunkAt(s, c, q % PAGE_SIZE);
      if Reserved(s) < c { Gap(Size(s), Reserved(s), c); }
    } else {
      assert i + RunLength(runs[i]) <= j;
    }
  }

  /** Every page belongs to exactly one run. */
  lemma {:induction false} RunOf(g: Geometry, runs: map<nat, Run>, k: nat) returns (i: nat)
    requires Tiled(g, runs) && k < g.pages
    ensures i in runs && i <= k < i + RunLength(runs[i])
    ensures forall j :: j in runs && j <= k < j + RunLength(runs[j]) ==> j == i
    decreases k
  {
    if k in runs {
      i := k;
    } else {
      i := RunOf(g, runs, k - 1);
      assert Follows(g, runs, i);
    }
  }

  /** The lengths of the runs from page i on. */
  ghost function Total(g: Geometry, runs: map<nat, Run>, i: nat): (t: nat)
    requires Tiled(g, runs) && (i in runs || i == g.pages)
    ensures t == g.pages - i
    decreases g.pages - i
  {
    if i == g.pages then 0 else
      assert Follows(g, runs, i);
      RunLength(runs[i]) + Total(g, runs, i + RunLength(runs[i]))
  }

  // ---------------------------------------------------------------- how a chunk page spells its chunks

  /** The bit that stands for chunk c: in the page's own first words, in the descriptor word, or in the
    * upper half of that word. */
  ghost predicate Marked(slab: nat, words: seq<nat>, s: Shift, c: nat)
    requires |words| == PAGE_WORDS && c < Count(s)
  {
    if s < EXACT_SHIFT then ChunkGeometry(s); Bit(words[c / WORD_BITS], c % WORD_BITS)
    else if s == EXACT_SHIFT then Bit(slab, c)
    else Bit(slab / MAP_BASE, c)
  }

  ghost predicate WellFormedWord(slab: nat, s: Shift) {
    if s < EXACT_SHIFT then slab == s
    else if s == EXACT_SHIFT then slab <= BUSY
    else slab % MAP_BASE == s && slab / MAP_BASE < Pow2(Count(s))
  }

  ghost predicate Encodes(slab: nat, words: seq<nat>, s: Shift, used: set<nat>) {
    && |words| == PAGE_WORDS
    && WellFormedWord(slab, s)
    && forall c :: 0 <= c < Count(s) ==> (Marked(slab, words, s, c) <==> c < Reserved(s) || c in used)
  }

  ghost predicate Words(words: seq<nat>) {
    |words| == PAGE_WORDS && forall n :: 0 <= n < PAGE_WORDS ==> words[n] <= BUSY
  }

  ghost predicate Proper(s: Shift, used: set<nat>) {
    forall c :: c in used ==> Reserved(s) <= c < Count(s)
  }

  lemma NoneReserved(s: Shift)
    ensures s >= EXACT_SHIFT ==> Reserved(s) == 0
  {
  }

  /** Setting bit b of word n of a small page's bitmap takes chunk 64n + b; clearing it gives it back. */
  lemma SmallMark(slab: nat, words: seq<nat>, s: Shift, used: set<nat>, n: nat, b: nat)
    requires Encodes(slab, words, s, used) && Words(words) && s < EXACT_SHIFT && b < WORD_BITS
    requires Reserved(s) <= n * WORD_BITS + b < Count(s)
    ensures n < PAGE_WORDS
    ensures var c := n * WORD_BITS + b;
      && Encodes(slab, words[n := With(words[n], b)], s, used + {c})
      && Words(words[n := With(words[n], b)])
      && Encodes(slab, words[n := Without(words[n], b)], s, used - {c})
      && Words(words[n := Without(words[n], b)])
  {
    ChunkGeometry(s);
    WordPowers();
    hide Pow2, Bit, With, Without, Count, Reserved;
    WordBound(words[n], b, WORD_BITS);
    var up, down := words[n := With(words[n], b)], words[n := Without(words[n], b)];
    forall d | 0 <= d < Count(s)
      ensures Marked(slab, up, s, d) <==> d < Reserved(s) || d in used + {n * WORD_BITS + b}
      ensures Marked(slab, down, s, d) <==> d < Reserved(s) || d in used - {n * WORD_BITS + b}
    {
      assert Marked(slab, words, s, d) <==> d < Reserved(s) || d in used;
      WithBits(words[n], b, d % WORD_BITS);
      WithoutBits(words[n], b, d % WORD_BITS);
      assert d == d / WORD_BITS * WORD_BITS + d % WORD_BITS;
    }
  }

  /** Setting bit c of the descriptor word of an exact page takes chunk c; clearing it gives it back. */
  lemma ExactMark(slab: nat, words: seq<nat>, s: Shift, used: set<nat>, c: nat)
    requires Encodes(slab, words, s, used) && s == EXACT_SHIFT && c < Count(s)
    ensures Encodes(With(slab, c), words, s, used + {c})
    ensures Encodes(Without(slab, c), words, s, used - {c})
  {
    ChunkGeometry(s);
    WordPowers();
    hide Pow2, Bit, With, Without, Count, Reserved;
    NoneReserved(s);
    WordBound(slab, c, WORD_BITS);
    forall d | 0 <= d < Count(s)
      ensures Marked(With(slab, c), words, s, d) <==> d in used + {c}
      ensures Marked(Without(slab, c), words, s, d) <==> d in used - {c}
    {
      assert Marked(slab, words, s, d) <==> d in used;
      WithBits(slab, c, d);
      WithoutBits(slab, c, d);
    }
  }

  /** Setting bit 32 + c of the descriptor word of a big page takes chunk c and leaves the shift kept in
    * the lower half alone; clearing it gives the chunk back. */
  lemma BigMark(slab: nat, words: seq<nat>, s: Shift, used: set<nat>, c: nat)
    requires Encodes(slab, words, s, used) && s > EXACT_SHIFT && c < Count(s)
    ensures Bit(slab, 32 + c) <==> c in used
    ensures Encodes(With(slab, 32 + c), words, s, used + {c})
    ensures Encodes(Without(slab, 32 + c), words, s, used - {c})
  {
    ChunkGeometry(s);
    WordPowers();
    hide Pow2, Bit, With, Without, Count, Reserved;
    NoneReserved(s);
    var high, low := slab / MAP_BASE, slab % MAP_BASE;
    assert slab == high * MAP_BASE + low;
    HighBits(high, low, 32, c);
    HighLow(With(high, c), low, 32);
    HighLow(Without(high, c), low, 32);
    WordBound(high, c, Count(s));
    assert Marked(slab, words, s, c) <==> c in used;
    forall d | 0 <= d < Count(s)
      ensures Marked(With(slab, 32 + c), words, s, d) <==> d in used + {c}
      ensures Marked(Without(slab, 32 + c), words, s, d) <==> d in used - {c}
    {
      assert Marked(slab, words, s, d) <==> d in used;
      WithBits(high, c, d);
      WithoutBits(high, c, d);
    }
  }

  /** Chunk 64n + b of a small page is bit b of its word n. */
  lemma SmallBit(slab: nat, words: seq<nat>, s: Shift, n: nat, b: nat)
    requires |words| == PAGE_WORDS && s < EXACT_SHIFT && n < Count(s) / WORD_BITS && b < WORD_BITS
    ensures n < PAGE_WORDS && n * WORD_BITS + b < Count(s)
    ensures Marked(slab, words, s, n * WORD_BITS + b) <==> Bit(words[n], b)
  {
    hide Bit, Reserved;
    ChunkGeometry(s);
  }

  /** A small page is full exactly when every word of its bitmap is all ones. */
  lemma SmallFull(slab: nat, words: seq<nat>, s: Shift, used: set<nat>)
    requires Encodes(slab, words, s, used) && Words(words) && s < EXACT_SHIFT
    ensures Count(s) / WORD_BITS <= PAGE_WORDS
    ensures (forall n :: 0 <= n < Count(s) / WORD_BITS ==> words[n] == BUSY) <==> Full(s, used)
  {
    ChunkGeometry(s);
    WordPowers();
    hide Pow2, Bit, Count, Reserved, Marked;
    if forall n :: 0 <= n < Count(s) / WORD_BITS ==> words[n] == BUSY {
      forall c | Reserved(s) <= c < Count(s) ensures c in used {
        var n, b := c / WORD_BITS, c % WORD_BITS;
        assert n < Count(s) / WORD_BITS && c == n * WORD_BITS + b;
        OnesBits(WORD_BITS, b);
        SmallBit(slab, words, s, n, b);
      }
    } else {
      var n :| 0 <= n < Count(s) / WORD_BITS && words[n] != BUSY;
      Saturated(words[n], WORD_BITS);
      var b :| 0 <= b < WORD_BITS && !Bit(words[n], b);
      SmallBit(slab, words, s, n, b);
    }
  }

  /** A word of n bits that marks the members of a set: all ones when it has all of 0..n, zero when
    * it is empty. */
  lemma OneWord(w: nat, n: nat, used: set<nat>)
    requires w < Pow2(n)
    requires forall c :: 0 <= c < n ==> (Bit(w, c) <==> c in used)
    requires forall c :: c in used ==> c < n
    ensures w == Pow2(n) - 1 <==> forall c :: 0 <= c < n ==> c in used
    ensures w == 0 <==> used == {}
  {
    hide Pow2, Bit;
    Saturated(w, n);
    Vacant(w, n);
    if w == Pow2(n) - 1 {
      forall c | 0 <= c < n ensures c in used { assert Bit(w, c); }
    } else {
      var c :| 0 <= c < n && !Bit(w, c);
      assert c !in used;
    }
    forall c | c in used ensures w != 0 {
      NoBits(c);
      assert Bit(w, c);
    }
    if w == 0 {
      assert used == {};
    } else {
      var c :| 0 <= c < n && Bit(w, c);
      assert c in used;
    }
  }

  lemma ExactWord(slab: nat, words: seq<nat>, s: Shift, used: set<nat>)
    requires Encodes(slab, words, s, used) && s == EXACT_SHIFT && Proper(s, used)
    ensures slab == BUSY <==> Full(s, used)
    ensures slab == 0 <==> used == {}
  {
    ChunkGeometry(s);
    WordPowers();
    forall c | 0 <= c < WORD_BITS
      ensures Bit(slab, c) <==> c in used { assert Marked(slab, words, s, c) <==> c in used; }
    OneWord(slab, WORD_BITS, used);
  }

  lemma BigWord(slab: nat, words: seq<nat>, s: Shift, used: set<nat>)
    requires Encodes(slab, words, s, used) && s > EXACT_SHIFT && Proper(s, used)
    ensures slab - slab % MAP_BASE == (Pow2(Count(s)) - 1) * MAP_BASE <==> Full(s, used)
    ensures slab - slab % MAP_BASE == 0 <==> used == {}
  {
    hide Pow2;
    var high, n := slab / MAP_BASE, Count(s);
    forall c | 0 <= c < n ensures Bit(high, c) <==> c in used { assert Marked(slab, words, s, c) <==> c in used; }
    OneWord(high, n, used);
    assert slab - slab % MAP_BASE == high * MAP_BASE;
    assert high * MAP_BASE == (Pow2(n) - 1) * MAP_BASE <==> high == Pow2(n) - 1;
  }

  /** A small page has no chunk in use exactly when its bitmap holds only the reserved chunks. */
  lemma SmallIdle(slab: nat, words: seq<nat>, s: Shift, used: set<nat>)
    requires Encodes(slab, words, s, used) && Words(words) && s < EXACT_SHIFT && Proper(s, used)
    ensures Count(s) / WORD_BITS <= PAGE_WORDS
    ensures words[0] - words[0] % Pow2(Reserved(s)) == 0
         && (forall n :: 1 <= n < Count(s) / WORD_BITS ==> words[n] == 0)
       <==> used == {}
  {
    ChunkGeometry(s);
    WordPowers();
    hide Pow2, Bit, Count, Reserved, Marked;
    UpperPart(words[0], Reserved(s));
    if used != {} {
      var c :| c in used;
      var n, b := c / WORD_BITS, c % WORD_BITS;
      assert n < Count(s) / WORD_BITS && c == n * WORD_BITS + b;
      SmallBit(slab, words, s, n, b);
      NoBits(b);
      assert n == 0 ==> Reserved(s) <= b && Bit(words[0], b);
    }
    if b :| Reserved(s) <= b < WORD_BITS && Bit(words[0], b) {
      SmallBit(slab, words, s, 0, b);
      assert b in used;
    }
    if n :| 1 <= n < Count(s) / WORD_BITS && words[n] != 0 {
      Vacant(words[n], WORD_BITS);
      var b :| 0 <= b < WORD_BITS && Bit(words[n], b);
      SmallBit(slab, words, s, n, b);
      assert n * WORD_BITS + b in used;
    }
  }

  /** Clearing the k lower bits of a word leaves zero exactly when no higher bit is set. */
  lemma UpperPart(w: nat, k: nat)
    requires w <= BUSY && k <= WORD_BITS
    ensures w - w % Pow2(k) == 0 <==> forall j :: k <= j < WORD_BITS ==> !Bit(w, j)
  {
    WordPowers();
    PowerOfSum(WORD_BITS - k, k);
    hide Pow2, Bit;
    var high, low := DivideBy(w, Pow2(k), Pow2(WORD_BITS - k));
    UpperBits(w, k, high, low);
  }

  lemma DivideBy(w: nat, p: nat, m: nat) returns (high: nat, low: nat)
    requires p > 0 && w < m * p
    ensures w == high * p + low && high < m && low < p && low == w % p
    ensures w - low == 0 <==> high == 0
  {
    high, low := w / p, w % p;
    Upper(w, p, m, high, low);
  }

  lemma UpperBits(w: nat, k: nat, high: nat, low: nat)
    requires k <= WORD_BITS && low < Pow2(k) && w == high * Pow2(k) + low && high < Pow2(WORD_BITS - k)
    ensures high == 0 <==> forall j :: k <= j < WORD_BITS ==> !Bit(w, j)
  {
    hide Pow2, Bit;
    var m := WORD_BITS - k;
    Vacant(high, m);
    forall j | k <= j < WORD_BITS ensures Bit(w, j) <==> Bit(high, j - k) { HighBits(high, low, k, j - k); }
    if high != 0 {
      var j :| 0 <= j < m && Bit(high, j);
      assert Bit(w, j + k);
    } else {
      forall j | k <= j < WORD_BITS ensures !Bit(w, j) { assert !Bit(high, j - k); }
    }
  }

  lemma Upper(w: nat, p: nat, m: nat, high: nat, low: nat)
    requires w == high * p + low && w < m * p && p > 0
    ensures high < m
    ensures w - low == 0 <==> high == 0
  {
    if high >= m { Product(high, m, p); }
    if high > 0 { Product(high, 1, p); }
  }

  lemma Product(a: nat, b: nat, p: nat)
    requires a >= b
    ensures a * p >= b * p
  {
    if a > b { Gap(p, b, a); }
  }

  /** The first words written to a fresh small page: the reserved chunks and the first real one. */
  lemma SmallFresh(words: seq<nat>, s: Shift)
    requires |words| == PAGE_WORDS && s < EXACT_SHIFT
    requires words[0] == 2 * Pow2(Reserved(s)) - 1
    requires forall n :: 1 <= n < Count(s) / WORD_BITS ==> n < PAGE_WORDS && words[n] == 0
    ensures Encodes(s, words, s, {Reserved(s)})
  {
    ChunkGeometry(s);
    hide Bit, Count, Reserved, Marked;
    var used := {Reserved(s)};
    forall c | 0 <= c < Count(s) ensures Marked(s, words, s, c) <==> c < Reserved(s) || c in used {
      var n, b := c / WORD_BITS, c % WORD_BITS;
      assert n < Count(s) / WORD_BITS && c == n * WORD_BITS + b;
      SmallBit(s, words, s, n, b);
      if n == 0 { OnesBits(Reserved(s) + 1, b); } else { NoBits(b); }
    }
  }

  lemma ExactFresh(words: seq<nat>, s: Shift)
    requires |words| == PAGE_WORDS && s == EXACT_SHIFT
    ensures Encodes(1, words, s, {0})
  {
    ChunkGeometry(s);
    forall c | 0 <= c < Count(s) ensures Marked(1, words, s, c) <==> c in {0} {
      if c > 0 { NoBits(c - 1); }
    }
  }

  lemma BigFresh(words: seq<nat>, s: Shift)
    requires |words| == PAGE_WORDS && s > EXACT_SHIFT
    ensures Encodes(MAP_BASE + s, words, s, {0})
  {
    ChunkGeometry(s);
    var slab := MAP_BASE + s;
    Doubled(Count(s));
    hide Pow2;
    assert slab / MAP_BASE == 1 && slab % MAP_BASE == s;
    forall c | 0 <= c < Count(s) ensures Marked(slab, words, s, c) <==> c in {0} {
      if c > 0 { NoBits(c - 1); }
    }
  }

  lemma Doubled(n: nat)
    requires n > 0
    ensures Pow2(n) > 1
  {
  }
}
