/** The read-only hash: a table size is searched for at which every bucket is small enough, then the entries
  * of each bucket are packed into one stretch of memory, which is described byte by byte. */
module PackedHash {
  import opened Wrappers

  type Str = seq<char>

  /** The size of a pointer, and where a 16-bit counter wraps. */
  const WORD: nat := 8
  const SHORT: nat := 0x1_0000

  /** A name to be hashed; a name that is gone has been taken off the list. */
  datatype Key<V> = Key(data: Str, gone: bool, hash: nat, value: V)

  /** One byte of memory: the k-th byte of a pointer to a value or of a null pointer, a byte of a length, a
    * letter, or anything else. */
  datatype Unit<V> = Part(value: V, k: nat) | Null(k: nat) | Small(n: nat) | Letter(c: char) | Junk

  // ---------------------------------------------------------------- sizes

  /** The sizes of cache lines in use, and of a pointer. */
  predicate Power(a: nat) { a == 8 || a == 32 || a == 64 || a == 128 }

  /** ngx_align. */
  function Align(d: nat, a: nat): (r: nat)
    requires Power(a)
    ensures d <= r < d + a
  {
    if a == 8 then (d + 7) / 8 * 8
    else if a == 32 then (d + 31) / 32 * 32
    else if a == 64 then (d + 63) / 64 * 64
    else (d + 127) / 128 * 128
  }

  lemma AlignEight(d: nat, a: nat)
    requires Power(a)
    ensures Align(d, a) % 8 == 0
  {
    var r := Align(d, a);
    if a == 8 {
      assert r == (d + 7) / 8 * 8;
    } else if a == 32 {
      assert r == 8 * (4 * ((d + 31) / 32));
    } else if a == 64 {
      assert r == 8 * (8 * ((d + 63) / 64));
    } else {
      assert r == 8 * (16 * ((d + 127) / 128));
    }
  }

  lemma AlignLine(d: nat, a: nat)
    requires Power(a)
    ensures Align(d, a) % a == 0
  {
    Multiple((d + 7) / 8, 8);
    Multiple((d + 31) / 32, 32);
    Multiple((d + 63) / 64, 64);
    Multiple((d + 127) / 128, 128);
  }

  lemma Multiple(q: nat, a: nat)
    requires Power(a)
    ensures q * a % a == 0
  {
  }

  /** NGX_HASH_ELT_SIZE. */
  function EltSize(n: nat): (r: nat)
    ensures r % 8 == 0 && r >= WORD + 2 + n && r >= 2 * WORD
  {
    AlignEight(n + 2, WORD);
    WORD + Align(n + 2, WORD)
  }

  /** Where the reader looks for the next entry is where the writer puts it. */
  lemma SameStride(at: nat, n: nat)
    requires at % 8 == 0
    ensures Align(at + WORD + 2 + n, WORD) == at + EltSize(n) && (at + EltSize(n)) % 8 == 0
  {
  }

  /** The cast to a 16-bit number. */
  function Short(n: nat): (r: nat)
    ensures n < SHORT ==> r == n
  {
    n % SHORT
  }

  // ---------------------------------------------------------------- letters

  function LowerChar(c: char): char {
    if 'A' <= c <= 'Z' then (c as int + 0x20) as char else c
  }

  /** Letters only change their case. */
  lemma LowerMeans(k: nat, c: char)
    requires k < 26
    ensures LowerChar("ABCDEFGHIJKLMNOPQRSTUVWXYZ"[k]) == "abcdefghijklmnopqrstuvwxyz"[k]
    ensures c !in "ABCDEFGHIJKLMNOPQRSTUVWXYZ" ==> LowerChar(c) == c
  {
    if 'A' <= c <= 'Z' {
      assert "ABCDEFGHIJKLMNOPQRSTUVWXYZ"[c as int - 'A' as int] == c;
    }
  }

  /** ngx_strlow. */
  function Lower(s: Str): (r: Str)
    ensures |r| == |s| && forall i :: 0 <= i < |s| ==> r[i] == LowerChar(s[i])
  {
    if s == [] then [] else Lower(s[..|s| - 1]) + [LowerChar(s[|s| - 1])]
  }

  // ---------------------------------------------------------------- buckets

  /** The entries of bucket b among the first n names. */
  function Chain<V>(names: seq<Key<V>>, size: nat, b: nat, n: nat): seq<Key<V>>
    requires size > 0 && n <= |names|
  {
    if n == 0 then []
    else if names[n - 1].gone || names[n - 1].hash % size != b then Chain(names, size, b, n - 1)
    else Chain(names, size, b, n - 1) + [names[n - 1]]
  }

  function Bytes<V>(chain: seq<Key<V>>): (r: nat)
    ensures r % 8 == 0
  {
    if chain == [] then 0 else Bytes(chain[..|chain| - 1]) + EltSize(|chain[|chain| - 1].data|)
  }

  function Used<V>(names: seq<Key<V>>, size: nat, b: nat, n: nat): (r: nat)
    requires size > 0 && n <= |names|
    ensures r % 8 == 0
  {
    Bytes(Chain(names, size, b, n))
  }

  /** What name n adds to bucket b. */
  function Added<V>(names: seq<Key<V>>, size: nat, b: nat, n: nat): nat
    requires size > 0 && n < |names|
  {
    if !names[n].gone && names[n].hash % size == b then EltSize(|names[n].data|) else 0
  }

  lemma UsedStep<V>(names: seq<Key<V>>, size: nat, b: nat, n: nat)
    requires size > 0 && n < |names|
    ensures Used(names, size, b, n + 1) == Used(names, size, b, n) + Added(names, size, b, n)
  {
    var c := Chain(names, size, b, n);
    assert (c + [names[n]])[..|c|] == c;
  }

  lemma UsedSteps<V>(names: seq<Key<V>>, size: nat, n: nat, key: nat)
    requires size > 0 && n < |names| && key == names[n].hash % size
    ensures forall b :: 0 <= b < size && (names[n].gone || b != key) ==>
      Used(names, size, b, n + 1) == Used(names, size, b, n)
    ensures !names[n].gone ==> Used(names, size, key, n + 1) == Used(names, size, key, n) + EltSize(|names[n].data|)
  {
    forall b | 0 <= b < size
      ensures Used(names, size, b, n + 1) == Used(names, size, b, n) + Added(names, size, b, n)
    {
      UsedStep(names, size, b, n);
    }
  }

  lemma {:induction false} UsedGrows<V>(names: seq<Key<V>>, size: nat, b: nat, m: nat, n: nat)
    requires size > 0 && m <= n <= |names|
    ensures Used(names, size, b, m) <= Used(names, size, b, n)
    decreases n - m
  {
    if m < n {
      UsedGrows(names, size, b, m, n - 1);
      UsedStep(names, size, b, n - 1);
    }
  }

  // ---------------------------------------------------------------- memory

  function PointerBytes<V>(v: V): (r: seq<Unit<V>>)
    ensures |r| == WORD && r[0] == Part(v, 0)
  {
    [Part(v, 0), Part(v, 1), Part(v, 2), Part(v, 3), Part(v, 4), Part(v, 5), Part(v, 6), Part(v, 7)]
  }

  function NullBytes<V>(): (r: seq<Unit<V>>)
    ensures |r| == WORD && r[0] == Null(0)
  {
    [Null(0), Null(1), Null(2), Null(3), Null(4), Null(5), Null(6), Null(7)]
  }

  function LengthBytes<V>(n: nat): (r: seq<Unit<V>>)
    ensures |r| == 2 && r[0] == Small(n % 256) && r[1] == Small(n / 256)
  {
    [Small(n % 256), Small(n / 256)]
  }

  function LetterBytes<V>(s: Str): (r: seq<Unit<V>>)
    ensures |r| == |s| && forall i :: 0 <= i < |s| ==> r[i] == Letter(s[i])
  {
    if s == [] then [] else LetterBytes(s[..|s| - 1]) + [Letter(s[|s| - 1])]
  }

  /** An entry in memory: the value, the length and the letters of the name. */
  function Image<V>(k: Key<V>): (r: seq<Unit<V>>)
    ensures |r| == WORD + 2 + |k.data|
  {
    PointerBytes(k.value) + LengthBytes(|k.data|) + LetterBytes(Lower(k.data))
  }

  /** The bytes stand at a. */
  ghost predicate Stands<V>(mem: seq<Unit<V>>, a: nat, bytes: seq<Unit<V>>) {
    a + |bytes| <= |mem| && mem[a..a + |bytes|] == bytes
  }

  lemma StandsAt<V>(mem: seq<Unit<V>>, a: nat, bytes: seq<Unit<V>>, i: nat)
    requires Stands(mem, a, bytes) && i < |bytes|
    ensures mem[a + i] == bytes[i]
  {
    assert mem[a..a + |bytes|][i] == bytes[i];
  }

  lemma StandsSame<V>(mem: seq<Unit<V>>, mem': seq<Unit<V>>, a: nat, bytes: seq<Unit<V>>)
    requires Stands(mem, a, bytes) && |mem| == |mem'|
    requires forall i :: a <= i < a + |bytes| ==> mem'[i] == mem[i]
    ensures Stands(mem', a, bytes)
  {
    assert mem'[a..a + |bytes|] == mem[a..a + |bytes|];
  }

  lemma ImageParts<V>(mem: seq<Unit<V>>, a: nat, k: Key<V>)
    requires Stands(mem, a, Image(k))
    ensures a + WORD + 2 + |k.data| <= |mem| && mem[a] == Part(k.value, 0)
    ensures mem[a + WORD] == Small(|k.data| % 256) && mem[a + WORD + 1] == Small(|k.data| / 256)
    ensures forall i :: 0 <= i < |k.data| ==> mem[a + WORD + 2 + i] == Letter(Lower(k.data)[i])
  {
    StandsAt(mem, a, Image(k), 0);
    StandsAt(mem, a, Image(k), WORD);
    StandsAt(mem, a, Image(k), WORD + 1);
    forall i | 0 <= i < |k.data| ensures mem[a + WORD + 2 + i] == Letter(Lower(k.data)[i]) {
      StandsAt(mem, a, Image(k), WORD + 2 + i);
    }
  }

  /** The entries of a chain stand one after the other from a on. */
  ghost predicate Packed<V>(mem: seq<Unit<V>>, a: nat, chain: seq<Key<V>>) {
    if chain == [] then true
    else
      var m := |chain| - 1;
      Packed(mem, a, chain[..m]) && Stands(mem, a + Bytes(chain[..m]), Image(chain[m]))
  }

  /** What is packed stays when only other bytes change. */
  lemma {:induction false} PackedSame<V>(mem: seq<Unit<V>>, mem': seq<Unit<V>>, a: nat, chain: seq<Key<V>>)
    requires Packed(mem, a, chain) && |mem| == |mem'|
    requires forall i :: a <= i < a + Bytes(chain) && i < |mem| ==> mem'[i] == mem[i]
    ensures Packed(mem', a, chain)
  {
    hide Image;
    if chain != [] {
      var m := |chain| - 1;
      PackedSame(mem, mem', a, chain[..m]);
      StandsSame(mem, mem', a + Bytes(chain[..m]), Image(chain[m]));
    }
  }

  lemma {:induction false} PackedAt<V>(mem: seq<Unit<V>>, a: nat, chain: seq<Key<V>>, i: nat)
    requires Packed(mem, a, chain) && i < |chain|
    ensures Stands(mem, a + Bytes(chain[..i]), Image(chain[i]))
  {
    hide Stands, Image, Bytes;
    var m := |chain| - 1;
    if i < m {
      PackedAt(mem, a, chain[..m], i);
      assert chain[..m][..i] == chain[..i];
    }
  }

  lemma BytesStep<V>(chain: seq<Key<V>>, i: nat)
    requires i < |chain|
    ensures Bytes(chain[..i + 1]) == Bytes(chain[..i]) + EltSize(|chain[i].data|)
  {
    hide EltSize;
    assert chain[..i + 1][..i] == chain[..i];
  }

  // ---------------------------------------------------------------- looking up

  /** The value of the first entry with that name. */
  function First<V>(chain: seq<Key<V>>, q: Str): Option<V> {
    if chain == [] then None
    else if Lower(chain[0].data) == q then Some(chain[0].value)
    else First(chain[1..], q)
  }

  lemma FirstStep<V>(chain: seq<Key<V>>, q: Str, i: nat)
    requires i < |chain|
    ensures First(chain[i..], q) == if Lower(chain[i].data) == q then Some(chain[i].value) else First(chain[i + 1..], q)
  {
    assert chain[i..][1..] == chain[i + 1..];
  }

  lemma NoBytes<V>(chain: seq<Key<V>>)
    ensures Bytes(chain[..0]) == 0
  {
  }

  lemma FirstEnd<V>(chain: seq<Key<V>>, q: Str)
    ensures First(chain[|chain|..], q) == None && chain[0..] == chain
  {
  }

  /** A built hash: memory that starts at the given address, and for each bucket where it begins in that
    * memory, if it is not empty. */
  class Hash<V> {
    const mem: array<Unit<V>>
    const base: nat
    const buckets: array<Option<nat>>

    constructor (mem: array<Unit<V>>, base: nat, buckets: array<Option<nat>>)
      ensures this.mem == mem && this.base == base && this.buckets == buckets
    {
      this.mem, this.base, this.buckets := mem, base, buckets;
    }

    /** Bucket b holds the chain: packed entries and a null pointer. */
    ghost predicate Holds(b: nat, chain: seq<Key<V>>)
      requires b < buckets.Length
      reads mem, buckets
    {
      match buckets[b]
      case None => chain == []
      case Some(a) => (base + a) % 8 == 0 && Packed(mem[..], a, chain) && Stands(mem[..], a + Bytes(chain), NullBytes())
    }

    /** Bucket b begins with a cache line. */
    predicate OnLine(b: nat, line: nat)
      requires b < buckets.Length && line > 0
      reads buckets
    {
      buckets[b].Some? ==> (base + buckets[b].value) % line == 0
    }

    /** ngx_hash_find. */
    method Find(key: nat, name: Str, ghost chain: seq<Key<V>>) returns (r: Option<V>)
      requires buckets.Length > 0 && Holds(key % buckets.Length, chain)
      requires forall k :: 0 <= k < |chain| ==> |chain[k].data| < SHORT
      ensures r == First(chain, name)
    {
      hide Packed, Stands, Image, Bytes, Align, Lower, First, EltSize;
      var elt := buckets[key % buckets.Length];
      if elt == None {
        FirstEnd(chain, name);
        return None;
      }
      var a := elt.value;
      ghost var i: nat := 0;
      Standing(mem[..], elt.value, chain, 0);
      NoBytes(chain);
      FirstEnd(chain, name);
      while mem[a].Part?
        invariant i <= |chain| && a == elt.value + Bytes(chain[..i]) && a < mem.Length
          && (mem[a].Part? <==> i < |chain|)
        invariant First(chain, name) == First(chain[i..], name) && (base + a) % 8 == 0
        decreases |chain| - i
      {
        PackedAt(mem[..], elt.value, chain, i);
        FirstStep(chain, name, i);
        BytesStep(chain, i);
        var len, same := SameName(mem, a, name, chain[i]);
        if same { return Some(mem[a].value); }
        SameStride(base + a, len);
        a := Align(base + a + WORD + 2 + len, WORD) - base;
        i := i + 1;
        Standing(mem[..], elt.value, chain, i);
      }
      FirstEnd(chain, name);
      r := None;
    }
  }

  /** The comparison of one entry with a name. */
  method SameName<V>(mem: array<Unit<V>>, a: nat, name: Str, ghost k: Key<V>) returns (len: nat, same: bool)
    requires Stands(mem[..], a, Image(k)) && |k.data| < SHORT
    ensures len == |k.data| && (same <==> Lower(k.data) == name) && a < mem.Length && mem[a] == Part(k.value, 0)
  {
    ImageParts(mem[..], a, k);
    hide Stands, Image, Lower;
    len := mem[a + WORD].n + 256 * mem[a + WORD + 1].n;
    if |name| != len { return len, false; }
    same := SameLetters(mem, a + WORD + 2, name, Lower(k.data));
  }

  /** At each step of the walk there is an entry, or the null pointer at the end. */
  lemma Standing<V>(mem: seq<Unit<V>>, a: nat, chain: seq<Key<V>>, i: nat)
    requires Packed(mem, a, chain) && Stands(mem, a + Bytes(chain), NullBytes()) && i <= |chain|
    ensures var b := a + Bytes(chain[..i]); b < |mem| && (mem[b].Part? <==> i < |chain|)
  {
    if i < |chain| {
      PackedAt(mem, a, chain, i);
      hide Packed, Bytes, Stands;
      StandsAt(mem, a + Bytes(chain[..i]), Image(chain[i]), 0);
    } else {
      hide Packed, Bytes, Stands, Image;
      assert chain[..i] == chain;
      StandsAt(mem, a + Bytes(chain), NullBytes(), 0);
    }
  }

  method SameLetters<V>(mem: array<Unit<V>>, a: nat, name: Str, ghost s: Str) returns (same: bool)
    requires a + |s| <= mem.Length && |name| == |s| && forall i :: 0 <= i < |s| ==> mem[a + i] == Letter(s[i])
    ensures same <==> s == name
  {
    for i := 0 to |name|
      invariant s[..i] == name[..i]
    {
      assert mem[a + i] == Letter(s[i]);
      if name[i] != mem[a + i].c { return false; }
    }
    same := true;
  }

  // ---------------------------------------------------------------- the whole list

  /** The names that have not been taken off the list. */
  function Listed<V>(names: seq<Key<V>>): seq<Key<V>> {
    if names == [] then []
    else
      var m := |names| - 1;
      if names[m].gone then Listed(names[..m]) else Listed(names[..m]) + [names[m]]
  }

  lemma {:induction false} FirstAppend<V>(c: seq<Key<V>>, k: Key<V>, q: Str)
    ensures First(c + [k], q) == if First(c, q).Some? then First(c, q) else First([k], q)
    decreases |c|
  {
    if c == [] {
      assert c + [k] == [k];
    } else {
      assert (c + [k])[1..] == c[1..] + [k];
      FirstAppend(c[1..], k, q);
    }
  }

  /** What the bucket of a name finds is what a search through the whole list finds, if the hash values are
    * taken over the lower-case names. */
  lemma {:induction false} BucketDecides<V>(names: seq<Key<V>>, size: nat, h: Str -> nat, q: Str, n: nat)
    requires size > 0 && n <= |names| && forall k :: 0 <= k < |names| ==> names[k].hash == h(Lower(names[k].data))
    ensures First(Chain(names, size, h(q) % size, n), q) == First(Listed(names[..n]), q)
    decreases n
  {
    if n > 0 {
      var b, k := h(q) % size, names[n - 1];
      BucketDecides(names, size, h, q, n - 1);
      assert names[..n][..n - 1] == names[..n - 1];
      FirstAppend(Chain(names, size, b, n - 1), k, q);
      FirstAppend(Listed(names[..n - 1]), k, q);
      assert [k][1..] == [];
    }
  }

  // ---------------------------------------------------------------- the size

  /** Every name has room in a bucket, with the null pointer behind it. */
  predicate RoomForEach<V>(names: seq<Key<V>>, bucketSize: nat) {
    forall n :: 0 <= n < |names| ==> EltSize(|names[n].data|) + WORD <= bucketSize
  }

  ghost predicate Roomy<V>(names: seq<Key<V>>, size: nat, limit: nat)
    requires size > 0
  {
    forall b :: 0 <= b < size ==> Used(names, size, b, |names|) <= limit
  }

  /** The counter of bucket b after n names: 16 bits wide. */
  function Counted<V>(names: seq<Key<V>>, size: nat, b: nat, n: nat): nat
    requires size > 0 && n <= |names|
  {
    if n == 0 then 0 else Short(Counted(names, size, b, n - 1) + Added(names, size, b, n - 1))
  }

  /** What the counting pass accepts: no counter is seen above the limit, which is cut to 16 bits too. */
  ghost predicate Accepts<V>(names: seq<Key<V>>, size: nat, limit: nat)
    requires size > 0
  {
    forall n :: 0 <= n < |names| && !names[n].gone ==> Counted(names, size, names[n].hash % size, n + 1) <= Short(limit)
  }

  lemma CountedNone<V>(names: seq<Key<V>>, size: nat)
    requires size > 0
    ensures forall b :: Counted(names, size, b, 0) == 0
  {
  }

  lemma CountedSteps<V>(names: seq<Key<V>>, size: nat, n: nat, key: nat)
    requires size > 0 && n < |names| && key == names[n].hash % size
    ensures forall b :: 0 <= b < size && (names[n].gone || b != key) ==>
      Counted(names, size, b, n + 1) == Counted(names, size, b, n)
    ensures !names[n].gone ==>
      Counted(names, size, key, n + 1) == Short(Counted(names, size, key, n) + EltSize(|names[n].data|))
  {
    forall b | 0 <= b < size && (names[n].gone || b != key)
      ensures Counted(names, size, b, n + 1) == Counted(names, size, b, n) {
      CountedShort(names, size, b, n);
    }
  }

  lemma CountedShort<V>(names: seq<Key<V>>, size: nat, b: nat, n: nat)
    requires size > 0 && n <= |names|
    ensures Counted(names, size, b, n) < SHORT
  {
  }

  /** The attempt with one size. */
  method Fits<V>(names: seq<Key<V>>, size: nat, limit: nat, test: array<nat>) returns (fits: bool)
    requires 0 < size <= test.Length
    modifies test
    ensures fits <==> Accepts(names, size, limit)
  {
    hide Counted, EltSize, Short;
    Zero(test, size, 0);
    CountedNone(names, size);
    for n := 0 to |names|
      invariant forall b :: 0 <= b < size ==> test[b] == Counted(names, size, b, n)
      invariant forall k ::
        0 <= k < n && !names[k].gone ==> Counted(names, size, names[k].hash % size, k + 1) <= Short(limit)
    {
      var key := names[n].hash % size;
      CountedSteps(names, size, n, key);
      if !names[n].gone {
        test[key] := Short(test[key] + EltSize(|names[n].data|));
        assert test[key] == Counted(names, size, key, n + 1);
        if test[key] > Short(limit) { return false; }
      }
    }
    fits := true;
  }

  // ---------------------------------------------------------------- when the counters are right

  /** As long as no bucket passes the limit its counter does not wrap. */
  lemma {:induction false} CountedRight<V>(names: seq<Key<V>>, size: nat, limit: nat, b: nat, n: nat)
    requires 0 < size && n <= |names| && limit < SHORT / 2 && RoomForEach(names, limit + WORD)
    requires n > 0 ==> Used(names, size, b, n - 1) <= limit
    ensures Counted(names, size, b, n) == Used(names, size, b, n)
    decreases n
  {
    hide Used, EltSize;
    UsedNone(names, size);
    if n > 0 {
      if n > 1 { UsedGrows(names, size, b, n - 2, n - 1); }
      CountedRight(names, size, limit, b, n - 1);
      UsedStep(names, size, b, n - 1);
      assert EltSize(|names[n - 1].data|) <= limit;
    }
  }

  /** Up to 32767 bytes the pass accepts exactly the sizes at which every bucket has room. */
  lemma CountingRight<V>(names: seq<Key<V>>, size: nat, limit: nat)
    requires size > 0 && limit < SHORT / 2 && RoomForEach(names, limit + WORD)
    ensures Accepts(names, size, limit) <==> Roomy(names, size, limit)
  {
    hide Used, Counted, Short, EltSize;
    if Roomy(names, size, limit) {
      forall n | 0 <= n < |names| && !names[n].gone
        ensures Counted(names, size, names[n].hash % size, n + 1) <= Short(limit)
      {
        var b := names[n].hash % size;
        UsedGrows(names, size, b, n, |names|);
        UsedGrows(names, size, b, n + 1, |names|);
        CountedRight(names, size, limit, b, n + 1);
      }
    }
    if Accepts(names, size, limit) {
      forall b | 0 <= b < size ensures Used(names, size, b, |names|) <= limit {
        AcceptedUsed(names, size, limit, b, |names|);
      }
    }
  }

  lemma {:induction false} AcceptedUsed<V>(names: seq<Key<V>>, size: nat, limit: nat, b: nat, n: nat)
    requires size > 0 && limit < SHORT / 2 && RoomForEach(names, limit + WORD) && n <= |names|
      && Accepts(names, size, limit)
    ensures Used(names, size, b, n) <= limit
    decreases n
  {
    hide Used, Counted, EltSize;
    UsedNone(names, size);
    if n > 0 {
      AcceptedUsed(names, size, limit, b, n - 1);
      CountedRight(names, size, limit, b, n);
      UsedStep(names, size, b, n - 1);
    }
  }

  /** m names of 32758 letters, whose entries take 32768 bytes each, all in one bucket. */
  function Copies<V>(v: V, m: nat): (names: seq<Key<V>>)
    ensures |names| == m && forall n :: 0 <= n < m ==> names[n] == Key(Letters(32758), false, 0, v)
  {
    if m == 0 then [] else Copies(v, m - 1) + [Key(Letters(32758), false, 0, v)]
  }

  function Letters(n: nat): (s: Str)
    ensures |s| == n
  {
    if n == 0 then [] else Letters(n - 1) + ['a']
  }

  lemma Flip(n: nat)
    ensures Short(n % 2 * (SHORT / 2) + SHORT / 2) == (n + 1) % 2 * (SHORT / 2)
  {
    assert n % 2 == 0 || n % 2 == 1;
  }

  lemma CopyAdds<V>(v: V, m: nat, n: nat)
    requires n < m
    ensures Added(Copies(v, m), 1, 0, n) == SHORT / 2
  {
    assert EltSize(32758) == SHORT / 2;
    hide Copies, EltSize, Letters;
  }

  lemma {:induction false} CopiesCount<V>(v: V, m: nat, n: nat)
    requires n <= m
    ensures Used(Copies(v, m), 1, 0, n) == n * (SHORT / 2) && Counted(Copies(v, m), 1, 0, n) == n % 2 * (SHORT / 2)
    decreases n
  {
    hide Copies, EltSize, Short, Used, Letters, Added;
    UsedNone(Copies(v, m), 1);
    if n > 0 {
      CopiesCount(v, m, n - 1);
      Flip(n - 1);
      UsedStep(Copies(v, m), 1, 0, n - 1);
      CopyAdds(v, m, n - 1);
    }
  }

  /** The counting pass is right for a limit: it accepts exactly the sizes that leave room. */
  ghost predicate CountsRight<V(!new)>(v: V, limit: nat) {
    forall names: seq<Key<V>>, size: nat :: size > 0 && RoomForEach(names, limit + WORD) ==>
      (Accepts(names, size, limit) <==> Roomy(names, size, limit))
  }

  /** It is right exactly for limits below 32768; from there on some list of long names is accepted although
    * its bucket overflows, or refused although it does not. */
  lemma CountingExact<V(!new)>(v: V, limit: nat)
    ensures CountsRight(v, limit) <==> limit < SHORT / 2
  {
    if limit < SHORT / 2 {
      forall names: seq<Key<V>>, size: nat | size > 0 && RoomForEach(names, limit + WORD)
        ensures Accepts(names, size, limit) <==> Roomy(names, size, limit)
      {
        CountingRight(names, size, limit);
      }
    } else {
      WrongCount(v, limit);
    }
  }

  lemma CopiesAccepted<V>(v: V, m: nat, limit: nat)
    requires m > 0
    ensures Accepts(Copies(v, m), 1, limit) <==> Short(limit) >= SHORT / 2
  {
    hide Copies, Used, Counted, EltSize, Short, Letters;
    var names := Copies(v, m);
    CopiesCount(v, m, 1);
    forall n | 0 <= n < m ensures Counted(names, 1, names[n].hash % 1, n + 1) <= SHORT / 2 {
      CopiesCount(v, m, n + 1);
    }
    assert Counted(names, 1, names[0].hash % 1, 0 + 1) == SHORT / 2;
  }

  lemma CopiesRoomy<V>(v: V, m: nat, limit: nat)
    ensures Roomy(Copies(v, m), 1, limit) <==> m * (SHORT / 2) <= limit
    ensures RoomForEach(Copies(v, m), limit + WORD) <==> m == 0 || SHORT / 2 <= limit
  {
    assert EltSize(32758) == SHORT / 2;
    CopiesCount(v, m, m);
    hide Copies, Used, EltSize;
    var names := Copies(v, m);
    assert Used(names, 1, 0, |names|) == m * (SHORT / 2);
    if m > 0 { assert EltSize(|names[0].data|) == SHORT / 2; }
  }

  /** For limits below 65536 two names are enough. */
  lemma WrongCount<V>(v: V, limit: nat)
    requires limit >= SHORT / 2
    ensures var m := if Short(limit) < SHORT / 2 then 1 else limit / (SHORT / 2) + 1;
      var names := Copies(v, m);
      && (limit < SHORT ==> m == 2) && RoomForEach(names, limit + WORD)
      && (Accepts(names, 1, limit) <==> Short(limit) >= SHORT / 2)
      && (Roomy(names, 1, limit) <==> Short(limit) < SHORT / 2)
  {
    hide Copies, Accepts, Roomy, RoomForEach;
    var m := if Short(limit) < SHORT / 2 then 1 else limit / (SHORT / 2) + 1;
    CopiesAccepted(v, m, limit);
    CopiesRoomy(v, m, limit);
  }

  method Zero(test: array<nat>, size: nat, v: nat)
    requires size <= test.Length
    modifies test
    ensures forall b :: 0 <= b < size ==> test[b] == v
  {
    for i := 0 to size
      invariant forall b :: 0 <= b < i ==> test[b] == v
    {
      test[i] := v;
    }
  }

  lemma UsedNone<V>(names: seq<Key<V>>, size: nat)
    requires size > 0
    ensures forall b :: Used(names, size, b, 0) == 0
  {
  }

  /** The first size from start on at which every bucket has room. */
  method FindSize<V>(names: seq<Key<V>>, start: nat, maxSize: nat, limit: nat, test: array<nat>)
      returns (size: Option<nat>)
    requires start > 0 && test.Length == maxSize
    modifies test
    ensures size.Some? ==> start <= size.value < maxSize && Accepts(names, size.value, limit)
    ensures forall s :: start <= s < (if size.Some? then size.value else maxSize) ==> !Accepts(names, s, limit)
  {
    var s := start;
    while s < maxSize
      invariant start <= s && forall t :: start <= t < s && t < maxSize ==> !Accepts(names, t, limit)
    {
      var fits := Fits(names, s, limit, test);
      if fits { return Some(s); }
      s := s + 1;
    }
    size := None;
  }

  // ---------------------------------------------------------------- the layout

  /** The memory of a bucket, in whole cache lines; none for an empty one. */
  function Room<V>(names: seq<Key<V>>, size: nat, line: nat, b: nat): nat
    requires size > 0 && Power(line)
  {
    if Used(names, size, b, |names|) == 0 then 0 else Align(WORD + Used(names, size, b, |names|), line)
  }

  /** Where bucket b begins, from where the first one begins. */
  function Start<V>(names: seq<Key<V>>, size: nat, line: nat, b: nat): nat
    requires size > 0 && Power(line)
  {
    if b == 0 then 0 else Start(names, size, line, b - 1) + Room(names, size, line, b - 1)
  }

  lemma {:induction false} StartApart<V>(names: seq<Key<V>>, size: nat, line: nat, b: nat, c: nat)
    requires size > 0 && Power(line) && b < c
    ensures Start(names, size, line, b) + Room(names, size, line, b) <= Start(names, size, line, c)
    decreases c
  {
    if b < c - 1 { StartApart(names, size, line, b, c - 1); }
  }

  lemma {:induction false} StartEight<V>(names: seq<Key<V>>, size: nat, line: nat, b: nat)
    requires size > 0 && Power(line)
    ensures Start(names, size, line, b) % 8 == 0
    decreases b
  {
    hide Used, Align;
    if b > 0 {
      StartEight(names, size, line, b - 1);
      AlignEight(WORD + Used(names, size, b - 1, |names|), line);
    }
  }

  lemma {:induction false} StartLine<V>(names: seq<Key<V>>, size: nat, line: nat, b: nat)
    requires size > 0 && Power(line)
    ensures Start(names, size, line, b) % line == 0
    decreases b
  {
    if b > 0 {
      StartLine(names, size, line, b - 1);
      RoomLine(names, size, line, b - 1);
      assert Start(names, size, line, b) == Start(names, size, line, b - 1) + Room(names, size, line, b - 1);
      hide *;
      LineSum(Start(names, size, line, b - 1), Room(names, size, line, b - 1), line);
    }
  }

  lemma RoomLine<V>(names: seq<Key<V>>, size: nat, line: nat, b: nat)
    requires size > 0 && Power(line)
    ensures Room(names, size, line, b) % line == 0
  {
    hide Used, Align;
    AlignLine(WORD + Used(names, size, b, |names|), line);
  }

  lemma LineSum(x: nat, y: nat, line: nat)
    requires Power(line) && x % line == 0 && y % line == 0
    ensures (x + y) % line == 0
  {
    var i, j := x / line, y / line;
    assert x == i * line && y == j * line;
    assert x + y == (i + j) * line;
    Multiple(i + j, line);
  }

  /** The second counting: the bytes of every bucket, the null pointer included. */
  method Count<V>(names: seq<Key<V>>, size: nat, limit: nat, test: array<nat>)
    requires 0 < size <= test.Length && WORD + limit < SHORT && Roomy(names, size, limit)
    modifies test
    ensures forall b :: 0 <= b < size ==> test[b] == WORD + Used(names, size, b, |names|)
  {
    Zero(test, size, WORD);
    UsedNone(names, size);
    hide Used, EltSize, Short;
    for n := 0 to |names|
      invariant forall b :: 0 <= b < size ==> test[b] == WORD + Used(names, size, b, n)
    {
      var key := names[n].hash % size;
      UsedSteps(names, size, n, key);
      if !names[n].gone {
        UsedGrows(names, size, key, n + 1, |names|);
        assert Used(names, size, key, |names|) <= limit;
        test[key] := Short(test[key] + EltSize(|names[n].data|));
      }
    }
  }

  /** The counters are rounded up to cache lines and added. */
  method AddUp<V>(names: seq<Key<V>>, size: nat, line: nat, limit: nat, test: array<nat>) returns (len: nat)
    requires 0 < size <= test.Length && WORD + limit + line <= SHORT && Roomy(names, size, limit) && Power(line)
    requires forall b :: 0 <= b < size ==> test[b] == WORD + Used(names, size, b, |names|)
    modifies test
    ensures len == Start(names, size, line, size)
    ensures forall b :: 0 <= b < size ==>
      test[b] == if Used(names, size, b, |names|) == 0 then WORD else Room(names, size, line, b)
  {
    hide Used, Align, Short;
    len := 0;
    for i := 0 to size
      invariant len == Start(names, size, line, i)
      invariant forall b :: i <= b < size ==> test[b] == WORD + Used(names, size, b, |names|)
      invariant forall b ::
        0 <= b < i ==> test[b] == if Used(names, size, b, |names|) == 0 then WORD else Room(names, size, line, b)
    {
      assert Used(names, size, i, |names|) <= limit;
      if test[i] != WORD {
        test[i] := Short(Align(test[i], line));
        len := len + test[i];
      }
    }
  }

  /** Where a bucket begins in the memory, if it is not empty. */
  function Place<V>(names: seq<Key<V>>, size: nat, line: nat, off: nat, b: nat): Option<nat>
    requires size > 0 && Power(line)
  {
    if Used(names, size, b, |names|) == 0 then None else Some(off + Start(names, size, line, b))
  }

  method SetBuckets<V>(names: seq<Key<V>>, size: nat, line: nat, off: nat, test: array<nat>,
      buckets: array<Option<nat>>)
    requires 0 < size <= test.Length && Power(line) && buckets.Length == size
    requires forall b :: 0 <= b < size ==>
      test[b] == if Used(names, size, b, |names|) == 0 then WORD else Room(names, size, line, b)
    requires forall b :: 0 <= b < size ==> buckets[b] == None
    modifies buckets
    ensures forall b :: 0 <= b < size ==> buckets[b] == Place(names, size, line, off, b)
  {
    var elts := off;
    for i := 0 to size
      invariant elts == off + Start(names, size, line, i)
      invariant forall b :: 0 <= b < i ==> buckets[b] == Place(names, size, line, off, b)
      invariant forall b :: i <= b < size ==> buckets[b] == None
    {
      UsedMin(names, size, i);
      hide Used, Align;
      if test[i] != WORD {
        buckets[i] := Some(elts);
        elts := elts + test[i];
      }
    }
  }

  /** No bucket has the size of a null pointer but the empty ones. */
  lemma UsedMin<V>(names: seq<Key<V>>, size: nat, b: nat)
    requires size > 0
    ensures Used(names, size, b, |names|) == 0 || Used(names, size, b, |names|) >= 2 * WORD
  {
  }

  // ---------------------------------------------------------------- filling

  method Put<V>(mem: array<Unit<V>>, a: nat, bytes: seq<Unit<V>>)
    requires a + |bytes| <= mem.Length
    modifies mem
    ensures Stands(mem[..], a, bytes) && forall i :: 0 <= i < mem.Length && !(a <= i < a + |bytes|) ==>
      mem[i] == old(mem[i])
  {
    for k := 0 to |bytes|
      invariant mem[a..a + k] == bytes[..k]
      invariant forall i :: 0 <= i < mem.Length && !(a <= i < a + k) ==> mem[i] == old(mem[i])
    {
      mem[a + k] := bytes[k];
      assert mem[a..a + k + 1] == mem[a..a + k] + [bytes[k]];
    }
    assert mem[a..a + |bytes|] == mem[..][a..a + |bytes|];
  }

  /** ngx_strlow into the memory. */
  method PutLower<V>(mem: array<Unit<V>>, a: nat, s: Str)
    requires a + |s| <= mem.Length
    modifies mem
    ensures Stands(mem[..], a, LetterBytes(Lower(s)))
    ensures forall i :: 0 <= i < mem.Length && !(a <= i < a + |s|) ==> mem[i] == old(mem[i])
  {
    ghost var bytes: seq<Unit<V>> := LetterBytes(Lower(s));
    hide LetterBytes, Lower;
    for k := 0 to |s|
      invariant mem[a..a + k] == bytes[..k]
      invariant forall i :: 0 <= i < mem.Length && !(a <= i < a + k) ==> mem[i] == old(mem[i])
    {
      mem[a + k] := Letter(LowerChar(s[k]));
      assert mem[a..a + k + 1] == mem[a..a + k] + [bytes[k]];
    }
    assert mem[a..a + |s|] == mem[..][a..a + |s|];
  }

  /** One entry: the value, the length in 16 bits, and the lower-case name. */
  method PutElt<V>(mem: array<Unit<V>>, a: nat, k: Key<V>)
    requires a + WORD + 2 + |k.data| <= mem.Length && |k.data| < SHORT
    modifies mem
    ensures Stands(mem[..], a, Image(k))
    ensures forall i :: 0 <= i < mem.Length && !(a <= i < a + WORD + 2 + |k.data|) ==> mem[i] == old(mem[i])
  {
    hide LengthBytes, PointerBytes, LetterBytes, Lower, Stands, Short;
    Put(mem, a, PointerBytes(k.value));
    ghost var m1 := mem[..];
    Put(mem, a + WORD, LengthBytes(Short(|k.data|)));
    ghost var m2 := mem[..];
    PutLower(mem, a + WORD + 2, k.data);
    StandsSame(m1, m2, a, PointerBytes(k.value));
    StandsSame(m2, mem[..], a, PointerBytes(k.value));
    StandsSame(m2, mem[..], a + WORD, LengthBytes(|k.data|));
    StandsJoin(mem[..], a, PointerBytes(k.value), LengthBytes(|k.data|));
    StandsJoin(mem[..], a, PointerBytes(k.value) + LengthBytes(|k.data|), LetterBytes(Lower(k.data)));
  }

  lemma StandsJoin<V>(mem: seq<Unit<V>>, a: nat, x: seq<Unit<V>>, y: seq<Unit<V>>)
    requires Stands(mem, a, x) && Stands(mem, a + |x|, y)
    ensures Stands(mem, a, x + y)
  {
    assert mem[a..a + |x + y|] == mem[a..a + |x|] + mem[a + |x|..a + |x| + |y|];
  }

  /** The first n names stand in their buckets. */
  ghost predicate Filled<V>(mem: seq<Unit<V>>, names: seq<Key<V>>, size: nat, line: nat, off: nat, n: nat)
    requires size > 0 && Power(line) && n <= |names|
  {
    forall b :: 0 <= b < size && Used(names, size, b, |names|) > 0 ==>
      Packed(mem, off + Start(names, size, line, b), Chain(names, size, b, n))
  }

  /** A bucket stays within its cache lines, with the null pointer behind its entries. */
  lemma Within<V>(names: seq<Key<V>>, size: nat, line: nat, b: nat, n: nat)
    requires size > 0 && Power(line) && n <= |names| && b < size && Used(names, size, b, |names|) > 0
    ensures Used(names, size, b, n) + WORD <= Room(names, size, line, b)
    ensures Start(names, size, line, b) + Room(names, size, line, b) <= Start(names, size, line, size)
  {
    hide Used, Align, Start;
    UsedGrows(names, size, b, n, |names|);
    StartApart(names, size, line, b, size);
  }

  /** Two buckets do not overlap. */
  lemma Disjoint<V>(names: seq<Key<V>>, size: nat, line: nat, b: nat, c: nat)
    requires size > 0 && Power(line) && b < size && c < size && b != c
    ensures Start(names, size, line, c) + Room(names, size, line, c) <= Start(names, size, line, b)
      || Start(names, size, line, b) + Room(names, size, line, b) <= Start(names, size, line, c)
  {
    if c < b { StartApart(names, size, line, c, b); } else { StartApart(names, size, line, b, c); }
  }

  /** Writing behind the entries of one bucket leaves all entries alone. */
  lemma FilledSame<V>(mem: seq<Unit<V>>, mem': seq<Unit<V>>, names: seq<Key<V>>, size: nat, line: nat, off: nat, n: nat,
                      b: nat, len: nat)
    requires size > 0 && Power(line) && n <= |names| && b < size && |mem| == |mem'|
    requires Filled(mem, names, size, line, off, n)
    requires Used(names, size, b, |names|) > 0 && Used(names, size, b, n) + len <= Room(names, size, line, b)
    requires var a := off + Start(names, size, line, b) + Used(names, size, b, n);
      forall i :: 0 <= i < |mem| && !(a <= i < a + len) ==> mem'[i] == mem[i]
    ensures Filled(mem', names, size, line, off, n)
  {
    hide Used, Room, Start, Packed;
    forall c | 0 <= c < size && Used(names, size, c, |names|) > 0
      ensures Packed(mem', off + Start(names, size, line, c), Chain(names, size, c, n))
    {
      Within(names, size, line, c, n);
      if c != b { Disjoint(names, size, line, b, c); }
      UsedIs(names, size, c, n);
      PackedSame(mem, mem', off + Start(names, size, line, c), Chain(names, size, c, n));
    }
  }

  lemma UsedIs<V>(names: seq<Key<V>>, size: nat, b: nat, n: nat)
    requires size > 0 && n <= |names|
    ensures Used(names, size, b, n) == Bytes(Chain(names, size, b, n))
  {
  }

  lemma FillStep<V>(mem: seq<Unit<V>>, names: seq<Key<V>>, size: nat, line: nat, off: nat, n: nat)
    requires size > 0 && Power(line) && n < |names| && Filled(mem, names, size, line, off, n)
    requires !names[n].gone ==>
      var b := names[n].hash % size;
      Stands(mem, off + Start(names, size, line, b) + Used(names, size, b, n), Image(names[n]))
    ensures Filled(mem, names, size, line, off, n + 1)
  {
    hide Used, Room, Start, Packed, Stands, Image;
    forall c | 0 <= c < size && Used(names, size, c, |names|) > 0
      ensures Packed(mem, off + Start(names, size, line, c), Chain(names, size, c, n + 1))
    {
      if !names[n].gone && names[n].hash % size == c {
        UsedIs(names, size, c, n);
        PackedMore(mem, off + Start(names, size, line, c), Chain(names, size, c, n), names[n]);
      }
    }
  }

  lemma PackedMore<V>(mem: seq<Unit<V>>, a: nat, chain: seq<Key<V>>, k: Key<V>)
    requires Packed(mem, a, chain) && Stands(mem, a + Bytes(chain), Image(k))
    ensures Packed(mem, a, chain + [k])
  {
    hide Stands, Image, Bytes;
    assert (chain + [k])[..|chain|] == chain;
  }

  /** The third pass: every entry goes behind those that its bucket holds already. */
  method Fill<V>(names: seq<Key<V>>, size: nat, line: nat, off: nat, limit: nat, test: array<nat>,
                 buckets: array<Option<nat>>, mem: array<Unit<V>>)
    requires 0 < size <= test.Length && Power(line) && limit < SHORT
    requires RoomForEach(names, limit + WORD) && Roomy(names, size, limit)
    requires buckets.Length == size && forall b :: 0 <= b < size ==> buckets[b] == Place(names, size, line, off, b)
    requires mem.Length >= off + Start(names, size, line, size)
    modifies test, mem
    ensures Filled(mem[..], names, size, line, off, |names|)
    ensures forall b :: 0 <= b < size ==> test[b] == Used(names, size, b, |names|)
  {
    hide Used, EltSize, Short, Filled, Start, Place, Chain;
    Zero(test, size, 0);
    UsedNone(names, size);
    FilledNone(mem[..], names, size, line, off);
    for n := 0 to |names|
      invariant forall b :: 0 <= b < size ==> test[b] == Used(names, size, b, n)
      invariant Filled(mem[..], names, size, line, off, n)
    {
      var key := names[n].hash % size;
      UsedSteps(names, size, n, key);
      if !names[n].gone {
        PlaceOf(names, size, line, off, key, n);
        assert Used(names, size, key, |names|) <= limit && EltSize(|names[n].data|) <= limit;
        FillOne(names, size, line, off, n, key, test, buckets, mem);
      } else {
        FillSkip(mem[..], names, size, line, off, n);
      }
    }
  }

  lemma FillSkip<V>(mem: seq<Unit<V>>, names: seq<Key<V>>, size: nat, line: nat, off: nat, n: nat)
    requires size > 0 && Power(line) && n < |names| && Filled(mem, names, size, line, off, n) && names[n].gone
    ensures Filled(mem, names, size, line, off, n + 1)
  {
    FillStep(mem, names, size, line, off, n);
  }

  method FillOne<V>(names: seq<Key<V>>, size: nat, line: nat, off: nat, n: nat, key: nat, test: array<nat>,
                    buckets: array<Option<nat>>, mem: array<Unit<V>>)
    requires 0 < size <= test.Length && Power(line) && n < |names| && !names[n].gone && key == names[n].hash % size
    requires buckets.Length == size && buckets[key] == Some(off + Start(names, size, line, key))
    requires test[key] == Used(names, size, key, n) && Filled(mem[..], names, size, line, off, n)
    requires Used(names, size, key, n + 1) == test[key] + EltSize(|names[n].data|) < SHORT && |names[n].data| < SHORT
    requires Used(names, size, key, |names|) >= Used(names, size, key, n + 1)
    requires mem.Length >= off + Start(names, size, line, size)
    modifies test, mem
    ensures Filled(mem[..], names, size, line, off, n + 1)
    ensures forall b :: 0 <= b < size ==> test[b] == if b == key then Used(names, size, key, n + 1) else old(test[b])
  {
    hide Used, Filled, Start, EltSize, Short;
    PutNext(names, size, line, off, n, key, test[key], buckets[key].value + test[key], mem);
    test[key] := Short(test[key] + EltSize(|names[n].data|));
  }

  lemma PlaceOf<V>(names: seq<Key<V>>, size: nat, line: nat, off: nat, b: nat, n: nat)
    requires size > 0 && Power(line) && n < |names| && !names[n].gone && b == names[n].hash % size
    ensures Place(names, size, line, off, b) == Some(off + Start(names, size, line, b))
    ensures Used(names, size, b, n + 1) <= Used(names, size, b, |names|)
  {
    hide Used, Start;
    UsedSteps(names, size, n, b);
    UsedGrows(names, size, b, n + 1, |names|);
  }

  method PutNext<V>(names: seq<Key<V>>, size: nat, line: nat, off: nat, n: nat, key: nat, used: nat, a: nat,
      mem: array<Unit<V>>)
    requires size > 0 && Power(line) && n < |names| && !names[n].gone && key == names[n].hash % size
    requires used == Used(names, size, key, n) && a == off + Start(names, size, line, key) + used
    requires Used(names, size, key, n + 1) == used + EltSize(|names[n].data|) && |names[n].data| < SHORT
    requires Used(names, size, key, |names|) >= Used(names, size, key, n + 1)
    requires mem.Length >= off + Start(names, size, line, size) && Filled(mem[..], names, size, line, off, n)
    modifies mem
    ensures Filled(mem[..], names, size, line, off, n + 1)
  {
    hide Used, Filled, Start, Room, Image, Stands;
    ghost var was := mem[..];
    Within(names, size, line, key, n + 1);
    PutElt(mem, a, names[n]);
    FilledSame(was, mem[..], names, size, line, off, n, key, WORD + 2 + |names[n].data|);
    FillStep(mem[..], names, size, line, off, n);
  }

  lemma FilledNone<V>(mem: seq<Unit<V>>, names: seq<Key<V>>, size: nat, line: nat, off: nat)
    requires size > 0 && Power(line)
    ensures Filled(mem, names, size, line, off, 0)
  {
  }

  /** The null pointer behind the entries of the buckets before i. */
  ghost predicate Ended<V>(mem: seq<Unit<V>>, names: seq<Key<V>>, size: nat, line: nat, off: nat, i: nat)
    requires size > 0 && Power(line)
  {
    forall b :: 0 <= b < i && Used(names, size, b, |names|) > 0 ==>
      Stands(mem, off + Start(names, size, line, b) + Used(names, size, b, |names|), NullBytes())
  }

  /** The last pass. */
  method End<V>(names: seq<Key<V>>, size: nat, line: nat, off: nat, test: array<nat>, buckets: array<Option<nat>>,
      mem: array<Unit<V>>)
    requires 0 < size <= test.Length && Power(line)
    requires buckets.Length == size && forall b :: 0 <= b < size ==> buckets[b] == Place(names, size, line, off, b)
    requires mem.Length >= off + Start(names, size, line, size) && Filled(mem[..], names, size, line, off, |names|)
    requires forall b :: 0 <= b < size ==> test[b] == Used(names, size, b, |names|)
    modifies mem
    ensures Filled(mem[..], names, size, line, off, |names|) && Ended(mem[..], names, size, line, off, size)
  {
    hide Used, Filled, Start, Stands, Room;
    for i := 0 to size
      invariant Filled(mem[..], names, size, line, off, |names|) && Ended(mem[..], names, size, line, off, i)
    {
      if buckets[i] != None {
        ghost var was := mem[..];
        Within(names, size, line, i, |names|);
        Put(mem, buckets[i].value + test[i], NullBytes());
        FilledSame(was, mem[..], names, size, line, off, |names|, i, WORD);
        EndedSame(was, mem[..], names, size, line, off, i);
      }
    }
  }

  lemma EndedSame<V>(mem: seq<Unit<V>>, mem': seq<Unit<V>>, names: seq<Key<V>>, size: nat, line: nat, off: nat, i: nat)
    requires size > 0 && Power(line) && i < size && Used(names, size, i, |names|) > 0 && |mem| == |mem'|
    requires Ended(mem, names, size, line, off, i)
    requires var a := off + Start(names, size, line, i) + Used(names, size, i, |names|);
      forall k :: 0 <= k < |mem| && !(a <= k < a + WORD) ==> mem'[k] == mem[k]
    ensures Ended(mem', names, size, line, off, i)
  {
    hide Used, Start, Room;
    Within(names, size, line, i, |names|);
    forall b | 0 <= b < i && Used(names, size, b, |names|) > 0
      ensures Stands(mem', off + Start(names, size, line, b) + Used(names, size, b, |names|), NullBytes())
    {
      Within(names, size, line, b, |names|);
      Disjoint(names, size, line, i, b);
      StandsSame(mem, mem', off + Start(names, size, line, b) + Used(names, size, b, |names|), NullBytes());
    }
  }

  /** The search starts late when a great table is allowed for many names. */
  predicate Crowded(n: nat, maxSize: nat) { 10000 < maxSize < 100 * n }

  method PickStart(n: nat, maxSize: nat, limit: nat) returns (start: nat)
    requires limit >= 2 * WORD
    ensures start > 0 && forall s: nat :: s > 0 ==> (start <= s <==> Tried(n, s, maxSize, limit))
  {
    start := n / (limit / (2 * WORD));
    if start == 0 { start := 1; }
    if n > 0 { DivBelow(maxSize, n, 99); }
    if maxSize > 10000 && n > 0 && maxSize / n < 100 { start := maxSize - 1000; }
    forall s: nat | s > 0 ensures start <= s <==> Tried(n, s, maxSize, limit) {
      DivBelow(n, limit / (2 * WORD), s);
    }
  }

  lemma DivBelow(n: nat, k: nat, s: nat)
    requires k > 0
    ensures n / k <= s <==> n < (s + 1) * k
  {
    var q := n / k;
    assert q * k <= n < (q + 1) * k;
    if q <= s { MulGrows(q + 1, s + 1, k); } else { MulGrows(s + 1, q, k); }
  }

  lemma MulGrows(a: nat, b: nat, k: nat)
    requires a <= b
    ensures a * k <= b * k
  {
  }

  /** The sizes that are tried: the last thousand of a great table, or all at which as many shortest entries as
    * there are names might fit. */
  predicate Tried(n: nat, s: nat, maxSize: nat, limit: nat) {
    if Crowded(n, maxSize) then maxSize - 1000 <= s else n < (s + 1) * (limit / (2 * WORD))
  }

  /** Every size from lo on leaves some bucket too small. */
  ghost predicate NoneRoomy<V>(names: seq<Key<V>>, lo: nat, maxSize: nat, limit: nat)
    requires lo > 0
  {
    forall s :: lo <= s < maxSize ==> !Roomy(names, s, limit)
  }

  /** So does every size below a bound that is tried. */
  ghost predicate NoSize<V>(names: seq<Key<V>>, bound: nat, maxSize: nat, limit: nat) {
    forall s :: 0 < s < bound && Tried(|names|, s, maxSize, limit) ==> !Roomy(names, s, limit)
  }

  // ---------------------------------------------------------------- no size is passed over

  predicate NoneGone<V>(names: seq<Key<V>>) { forall n :: 0 <= n < |names| ==> !names[n].gone }

  lemma {:induction false} BytesAtLeast<V>(chain: seq<Key<V>>)
    ensures Bytes(chain) >= 2 * WORD * |chain|
  {
    if chain != [] { BytesAtLeast(chain[..|chain| - 1]); }
  }

  /** The entries of the buckets before c among the first n names. */
  function Load<V>(names: seq<Key<V>>, size: nat, c: nat, n: nat): nat
    requires size > 0 && n <= |names|
  {
    if c == 0 then 0 else Load(names, size, c - 1, n) + |Chain(names, size, c - 1, n)|
  }

  lemma {:induction false} LoadNone<V>(names: seq<Key<V>>, size: nat, c: nat)
    requires size > 0
    ensures Load(names, size, c, 0) == 0
  {
    if c > 0 { LoadNone(names, size, c - 1); }
  }

  lemma {:induction false} LoadStep<V>(names: seq<Key<V>>, size: nat, c: nat, n: nat)
    requires size > 0 && n < |names| && !names[n].gone
    ensures Load(names, size, c, n + 1) == Load(names, size, c, n) + if names[n].hash % size < c then 1 else 0
    decreases c
  {
    if c > 0 { LoadStep(names, size, c - 1, n); }
  }

  /** Every name is in some bucket. */
  lemma {:induction false} LoadAll<V>(names: seq<Key<V>>, size: nat, n: nat)
    requires size > 0 && n <= |names| && NoneGone(names)
    ensures Load(names, size, size, n) == n
    decreases n
  {
    assert n > 0 ==> names[n - 1].hash % size < size && !names[n - 1].gone;
    hide *;
    if n == 0 {
      LoadNone(names, size, size);
    } else {
      LoadAll(names, size, n - 1);
      LoadStep(names, size, size, n - 1);
    }
  }

  lemma OneMore(c: nat, k: nat)
    requires c > 0
    ensures c * k == (c - 1) * k + k
  {
  }

  lemma {:induction false} LoadBound<V>(names: seq<Key<V>>, size: nat, limit: nat, c: nat)
    requires size > 0 && c <= size && Roomy(names, size, limit)
    ensures Load(names, size, c, |names|) <= c * (limit / (2 * WORD))
    decreases c
  {
    if c > 0 {
      LoadBound(names, size, limit, c - 1);
      BytesAtLeast(Chain(names, size, c - 1, |names|));
      assert Used(names, size, c - 1, |names|) <= limit;
      ghost var k, chain := limit / (2 * WORD), |Chain(names, size, c - 1, |names|)|;
      assert chain <= k;
      hide Used, Chain, Roomy, Bytes;
      assert Load(names, size, c, |names|) == Load(names, size, c - 1, |names|) + chain;
      hide Load;
      OneMore(c, k);
    }
  }

  /** A size at which all buckets are small enough is one that is tried: every entry takes two words at least. */
  lemma RoomyIsTried<V>(names: seq<Key<V>>, s: nat, maxSize: nat, limit: nat)
    requires s > 0 && NoneGone(names) && Roomy(names, s, limit) && limit >= 2 * WORD && !Crowded(|names|, maxSize)
    ensures Tried(|names|, s, maxSize, limit)
  {
    LoadAll(names, s, |names|);
    LoadBound(names, s, limit, s);
  }

  lemma NoSizeMeans<V>(names: seq<Key<V>>, maxSize: nat, limit: nat)
    requires limit >= 2 * WORD
    ensures NoneGone(names) && !Crowded(|names|, maxSize) ==>
      (NoSize(names, maxSize, maxSize, limit) <==> NoneRoomy(names, 1, maxSize, limit))
    ensures Crowded(|names|, maxSize) ==>
      (NoSize(names, maxSize, maxSize, limit) <==> NoneRoomy(names, maxSize - 1000, maxSize, limit))
  {
    hide Roomy;
    if NoneGone(names) && !Crowded(|names|, maxSize) {
      forall s | 0 < s < maxSize && Roomy(names, s, limit) ensures Tried(|names|, s, maxSize, limit) {
        RoomyIsTried(names, s, maxSize, limit);
      }
    }
  }

  /** Names that are gone count in the start of the search, though they take no room: enough of them and no size
    * is tried, where any would do. */
  lemma GoneNamesCount<V>(names: seq<Key<V>>, maxSize: nat, limit: nat)
    requires (forall n :: 0 <= n < |names| ==> names[n].gone) && !Crowded(|names|, maxSize)
    requires |names| >= maxSize * (limit / (2 * WORD))
    ensures NoSize(names, maxSize, maxSize, limit) && forall s :: s > 0 ==> Roomy(names, s, limit)
  {
    forall s: nat | s < maxSize ensures !Tried(|names|, s, maxSize, limit) {
      MulGrows(s + 1, maxSize, limit / (2 * WORD));
    }
    forall s: nat | s > 0 ensures Roomy(names, s, limit) {
      forall b | 0 <= b < s ensures Used(names, s, b, |names|) == 0 { GoneUse(names, s, b, |names|); }
    }
  }

  lemma {:induction false} GoneUse<V>(names: seq<Key<V>>, size: nat, b: nat, n: nat)
    requires size > 0 && n <= |names| && forall k :: 0 <= k < n ==> names[k].gone
    ensures Used(names, size, b, n) == 0
    decreases n
  {
    if n > 0 { GoneUse(names, size, b, n - 1); }
  }

  /** Every bucket holds its entries, in the order of the list. */
  ghost predicate Answers<V>(h: Hash<V>, names: seq<Key<V>>)
    reads h.mem, h.buckets
  {
    h.buckets.Length > 0
    && forall b :: 0 <= b < h.buckets.Length ==> h.Holds(b, Chain(names, h.buckets.Length, b, |names|))
  }

  /** ngx_hash_init: line is the size of a cache line and base the address of the memory for the entries. */
  method Init<V>(names: seq<Key<V>>, maxSize: nat, bucketSize: nat, line: nat, base: nat) returns (h: Option<Hash<V>>)
    requires Power(line) && WORD <= bucketSize < SHORT / 2 + WORD && (bucketSize >= 3 * WORD || names != [])
    ensures h.None? <==> !RoomForEach(names, bucketSize) || NoSize(names, maxSize, maxSize, bucketSize - WORD)
    ensures NoneGone(names) && !Crowded(|names|, maxSize) ==>
      (h.None? <==> !RoomForEach(names, bucketSize) || NoneRoomy(names, 1, maxSize, bucketSize - WORD))
    ensures Crowded(|names|, maxSize) ==>
      (h.None? <==> !RoomForEach(names, bucketSize)
                    || NoneRoomy(names, maxSize - 1000, maxSize, bucketSize - WORD))
    ensures h.Some? ==> fresh(h.value) && Answers(h.value, names)
    ensures h.Some? ==> h.value.base == base && forall b :: 0 <= b < h.value.buckets.Length ==> h.value.OnLine(b, line)
    ensures h.Some? ==>
      var size := h.value.buckets.Length;
      && size < maxSize && Roomy(names, size, bucketSize - WORD) && NoSize(names, size, maxSize, bucketSize - WORD)
  {
    for n := 0 to |names|
      invariant forall k :: 0 <= k < n ==> EltSize(|names[k].data|) + WORD <= bucketSize
    {
      if bucketSize < EltSize(|names[n].data|) + WORD { return None; }
    }
    var test := new nat[maxSize];
    var limit := bucketSize - WORD;
    if names != [] { assert EltSize(|names[0].data|) + WORD <= bucketSize; }
    var start := PickStart(|names|, maxSize, limit);
    hide Roomy, Crowded, Tried, NoneGone;
    NoSizeMeans(names, maxSize, limit);
    var size := FindSize(names, start, maxSize, limit, test);
    SizesRight(names, limit);
    if size == None { return None; }
    var built := Build(names, size.value, limit, line, base, test);
    h := Some(built);
  }

  lemma SizesRight<V>(names: seq<Key<V>>, limit: nat)
    requires limit < SHORT / 2 && RoomForEach(names, limit + WORD)
    ensures forall size :: size > 0 ==> (Accepts(names, size, limit) <==> Roomy(names, size, limit))
  {
    forall size | size > 0 ensures Accepts(names, size, limit) <==> Roomy(names, size, limit) {
      CountingRight(names, size, limit);
    }
  }

  method Build<V>(names: seq<Key<V>>, size: nat, limit: nat, line: nat, base: nat, test: array<nat>)
      returns (h: Hash<V>)
    requires 0 < size <= test.Length && Power(line) && WORD + limit + line <= SHORT
    requires RoomForEach(names, limit + WORD) && Roomy(names, size, limit)
    modifies test
    ensures fresh(h) && h.buckets.Length == size && Answers(h, names)
    ensures h.base == base && forall b :: 0 <= b < size ==> h.OnLine(b, line)
  {
    hide Used, Start, Room, Filled, Ended, Align;
    Count(names, size, limit, test);
    var len := AddUp(names, size, line, limit, test);
    var buckets := new Option<nat>[size](_ => None);
    var mem := new Unit<V>[len + line](_ => Junk);
    var off: nat := Align(base, line) - base;
    SetBuckets(names, size, line, off, test, buckets);
    Fill(names, size, line, off, limit, test, buckets, mem);
    End(names, size, line, off, test, buckets, mem);
    h := new Hash(mem, base, buckets);
    forall b | 0 <= b < size ensures h.Holds(b, Chain(names, size, b, |names|)) && h.OnLine(b, line) {
      BucketHolds(h, names, size, line, off, b);
    }
  }

  lemma BucketHolds<V>(h: Hash<V>, names: seq<Key<V>>, size: nat, line: nat, off: nat, b: nat)
    requires size > 0 && Power(line) && b < size == h.buckets.Length && off == Align(h.base, line) - h.base
    requires Filled(h.mem[..], names, size, line, off, |names|) && Ended(h.mem[..], names, size, line, off, size)
    requires h.buckets[b] == Place(names, size, line, off, b)
    ensures h.Holds(b, Chain(names, size, b, |names|)) && h.OnLine(b, line)
  {
    hide Used, Start, Packed, Stands, Align, Bytes, Chain;
    UsedIs(names, size, b, |names|);
    StartEight(names, size, line, b);
    StartLine(names, size, line, b);
    AlignEight(h.base, line);
    BytesPositive(Chain(names, size, b, |names|));
    EightSum(Align(h.base, line), Start(names, size, line, b));
    AlignLine(h.base, line);
    LineSum(Align(h.base, line), Start(names, size, line, b), line);
  }

  lemma EightSum(x: nat, y: nat)
    requires x % 8 == 0 && y % 8 == 0
    ensures (x + y) % 8 == 0
  {
  }

  lemma BytesPositive<V>(chain: seq<Key<V>>)
    ensures Bytes(chain) == 0 <==> chain == []
  {
  }

  /** The whole table: the value of the first listed entry with that lower-case name, or nothing. */
  method FindListed<V>(h: Hash<V>, names: seq<Key<V>>, hash: Str -> nat, q: Str) returns (r: Option<V>)
    requires Answers(h, names) && forall n :: 0 <= n < |names| ==> names[n].hash == hash(Lower(names[n].data))
    requires forall n :: 0 <= n < |names| ==> |names[n].data| < SHORT
    ensures r == First(Listed(names), q)
  {
    var size := h.buckets.Length;
    ghost var chain := Chain(names, size, hash(q) % size, |names|);
    ChainOf(names, size, hash(q) % size, |names|);
    r := h.Find(hash(q), q, chain);
    BucketDecides(names, size, hash, q, |names|);
    assert names[..|names|] == names;
  }

  lemma {:induction false} ChainOf<V>(names: seq<Key<V>>, size: nat, b: nat, n: nat)
    requires size > 0 && n <= |names|
    ensures forall k :: 0 <= k < |Chain(names, size, b, n)| ==> Chain(names, size, b, n)[k] in names
    decreases n
  {
    if n > 0 { ChainOf(names, size, b, n - 1); }
  }
}
