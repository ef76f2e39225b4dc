/** IPv6 addresses as text: the printer that shortens the longest run of zero groups, the parser that
  * spreads the bytes again, and the round trip between the two. */
module Inet {
  import opened Wrappers

  type Text = seq<char>

  /** NGX_INET6_ADDRSTRLEN and INADDR_NONE. */
  const INET6_ADDRSTRLEN: nat := 45
  const INADDR_NONE: nat := 0xFFFF_FFFF

  predicate Address(p: seq<nat>) { |p| == 16 && forall k :: 0 <= k < 16 ==> p[k] < 256 }

  /** Group g of an address. */
  function Word(p: seq<nat>, g: nat): (w: nat)
    requires Address(p) && g < 8
    ensures w < 0x1_0000
  {
    p[2 * g] * 256 + p[2 * g + 1]
  }

  /** The two bytes of a group. */
  function Pair(w: nat): (b: seq<nat>)
    ensures |b| == 2 && b[0] < 256 && b[1] < 256
  {
    [w / 256 % 256, w % 256]
  }

  // ---------------------------------------------------------------- numbers

  const DIGITS: Text := "0123456789abcdef"

  function Place(v: nat, hex: bool): (d: nat)
    ensures d < 16 && (!hex ==> d < 10)
  {
    if hex then v % 16 else v % 10
  }

  function Higher(v: nat, hex: bool): nat { if hex then v / 16 else v / 10 }

  /** ngx_sprintf_num without padding. */
  function Numeral(v: nat, hex: bool): (s: Text)
    ensures |s| > 0
    decreases v
  {
    if Higher(v, hex) == 0 then [DIGITS[Place(v, hex)]] else Numeral(Higher(v, hex), hex) + [DIGITS[Place(v, hex)]]
  }

  method PrintNumber(v: nat, hex: bool) returns (s: Text)
    ensures s == Numeral(v, hex)
  {
    s := [DIGITS[Place(v, hex)]];
    var u := Higher(v, hex);
    while u != 0
      invariant Numeral(v, hex) == if u == 0 then s else Numeral(u, hex) + s
    {
      Assoc(Numeral(Higher(u, hex), hex), [DIGITS[Place(u, hex)]], s);
      s := [DIGITS[Place(u, hex)]] + s;
      u := Higher(u, hex);
    }
  }

  predicate Decimal(c: char) { '0' <= c <= '9' }

  /** The value of a hexadecimal digit; setting bit 5 turns upper case into lower case. */
  function Nibble(c: char): (d: Option<nat>)
    ensures d.Some? ==> d.value < 16
  {
    var k := c as int;
    var low := if k / 32 % 2 == 0 then k + 32 else k;
    if '0' <= c <= '9' then Some(k - '0' as int)
    else if 'a' as int <= low <= 'f' as int then Some(low - 'a' as int + 10)
    else None
  }

  lemma DigitMeans(d: nat)
    requires d < 16
    ensures Nibble(DIGITS[d]) == Some(d) && (d < 10 <==> Decimal(DIGITS[d])) && DIGITS[d] != ':' && DIGITS[d] != '.'
    ensures d < 10 ==> DIGITS[d] as int - '0' as int == d
  {
  }

  lemma HexLength(w: nat)
    requires w < 0x1_0000
    ensures |Numeral(w, true)| <= 4
  {
    assert w < 0x1000 ==> w / 16 < 0x100;
    if w >= 16 {
      assert |Numeral(w, true)| == |Numeral(w / 16, true)| + 1;
      if w >= 256 {
        assert |Numeral(w / 16, true)| == |Numeral(w / 16 / 16, true)| + 1;
        if w >= 4096 { assert |Numeral(w / 16 / 16, true)| == |Numeral(w / 16 / 16 / 16, true)| + 1; }
      }
    }
  }

  lemma OctetLength(b: nat)
    requires b < 256
    ensures |Numeral(b, false)| <= 3 && forall k :: 0 <= k < |Numeral(b, false)| ==> Decimal(Numeral(b, false)[k])
  {
    DecimalDigits(b);
    if b >= 10 {
      assert |Numeral(b, false)| == |Numeral(b / 10, false)| + 1;
      if b >= 100 { assert |Numeral(b / 10, false)| == |Numeral(b / 10 / 10, false)| + 1; }
    }
  }

  lemma {:induction false} DecimalDigits(v: nat)
    ensures forall k :: 0 <= k < |Numeral(v, false)| ==> Decimal(Numeral(v, false)[k])
  {
    if v >= 10 { DecimalDigits(v / 10); DigitMeans(v % 10); } else { DigitMeans(v); }
  }

  // ---------------------------------------------------------------- dotted quads

  /** ngx_inet_addr from place i on; octets are kept in 64 bits and the address in 32. */
  function Quad(t: Text, i: nat, addr: nat, octet: nat, n: nat): (r: nat)
    requires i <= |t| && addr <= INADDR_NONE
    ensures r <= INADDR_NONE
    decreases |t| - i
  {
    if i == |t| then
      if n == 3 && octet < 256 then (addr * 256 + octet) % 0x1_0000_0000 else INADDR_NONE
    else if Decimal(t[i])
      then Quad(t, i + 1, addr, (octet * 10 + (t[i] as int - '0' as int)) % 0x1_0000_0000_0000_0000, n)
    else if t[i] == '.' && octet < 256 then Quad(t, i + 1, (addr * 256 + octet) % 0x1_0000_0000, 0, n + 1)
    else INADDR_NONE
  }

  method InetAddr(t: Text) returns (r: nat)
    ensures r == Quad(t, 0, 0, 0, 0)
  {
    var addr: nat, octet: nat, n: nat := 0, 0, 0;
    for p := 0 to |t|
      invariant addr <= INADDR_NONE && Quad(t, 0, 0, 0, 0) == Quad(t, p, addr, octet, n)
    {
      var c := t[p];
      if '0' <= c <= '9' {
        octet := (octet * 10 + (c as int - '0' as int)) % 0x1_0000_0000_0000_0000;
      } else if c == '.' && octet < 256 {
        addr, octet, n := (addr * 256 + octet) % 0x1_0000_0000, 0, n + 1;
      } else {
        return INADDR_NONE;
      }
    }
    if n != 3 { return INADDR_NONE; }
    if octet < 256 { return (addr * 256 + octet) % 0x1_0000_0000; }
    return INADDR_NONE;
  }

  /** An octet as 64 bits keep it. */
  function Kept64(v: nat): (r: nat)
    ensures v < 0x1_0000_0000_0000_0000 ==> r == v
  {
    v % 0x1_0000_0000_0000_0000
  }

  predicate Digits(s: Text) { forall k :: 0 <= k < |s| ==> Decimal(s[k]) }

  /** The number that decimal digits spell; none of them spell zero. */
  function Spoken(s: Text): nat
    requires Digits(s)
  {
    if s == [] then 0 else Spoken(s[..|s| - 1]) * 10 + (s[|s| - 1] as int - '0' as int)
  }

  lemma {:induction false} NumeralSpoken(v: nat)
    ensures Digits(Numeral(v, false)) && Spoken(Numeral(v, false)) == v
  {
    DigitMeans(v % 10);
    if v >= 10 { NumeralSpoken(v / 10); }
  }

  lemma {:induction false} QuadReadsNumber(t: Text, i: nat, addr: nat, n: nat, s: Text)
    requires Digits(s) && i + |s| <= |t| && t[i..i + |s|] == s && addr <= INADDR_NONE
    ensures Quad(t, i, addr, 0, n) == Quad(t, i + |s|, addr, Kept64(Spoken(s)), n)
    decreases |s|
  {
    if s != [] {
      var e := i + |s| - 1;
      assert t[e] == s[|s| - 1] && t[i..e] == s[..|s| - 1];
      QuadReadsNumber(t, i, addr, n, s[..|s| - 1]);
      DigitKept(Spoken(s[..|s| - 1]), t[e] as int - '0' as int);
    }
  }

  lemma DigitKept(u: nat, d: nat)
    ensures (Kept64(u) * 10 + d) % 0x1_0000_0000_0000_0000 == Kept64(u * 10 + d)
  {
    var k := u / 0x1_0000_0000_0000_0000;
    assert u * 10 + d == 10 * k * 0x1_0000_0000_0000_0000 + (Kept64(u) * 10 + d);
  }

  function DottedText(a: nat, b: nat, c: nat, d: nat): Text {
    Numeral(a, false) + "." + Numeral(b, false) + "." + Numeral(c, false) + "." + Numeral(d, false)
  }

  function QuadValue(a: nat, b: nat, c: nat, d: nat): nat { ((a * 256 + b) * 256 + c) * 256 + d }

  /** From place i to place j stand digits that spell a number which 64 bits keep as v. */
  predicate Stands(t: Text, i: nat, j: nat, v: nat) {
    i <= j <= |t| && Digits(t[i..j]) && v == Kept64(Spoken(t[i..j]))
  }

  predicate DotAt(t: Text, j: nat) { j < |t| && t[j] == '.' }

  /** Digits up to a dot. */
  lemma QuadStep(t: Text, i: nat, j: nat, v: nat, addr: nat, n: nat)
    requires Stands(t, i, j, v) && DotAt(t, j) && addr < 0x100_0000
    ensures i <= j < |t|
    ensures Quad(t, i, addr, 0, n) == if v < 256 then Quad(t, j + 1, addr * 256 + v, 0, n + 1) else INADDR_NONE
  {
    QuadDot(t, j, addr, v, n);
    hide Quad, Digits, Spoken, Kept64;
    QuadReadsNumber(t, i, addr, n, t[i..j]);
  }

  lemma QuadDot(t: Text, j: nat, addr: nat, octet: nat, n: nat)
    requires DotAt(t, j) && addr < 0x100_0000
    ensures Quad(t, j, addr, octet, n) ==
      if octet < 256 then Quad(t, j + 1, addr * 256 + octet, 0, n + 1) else INADDR_NONE
  {
  }

  lemma QuadEnd(t: Text, i: nat, v: nat, addr: nat)
    requires Stands(t, i, |t|, v) && addr < 0x100_0000
    ensures i <= |t| && Quad(t, i, addr, 0, 3) == if v < 256 then addr * 256 + v else INADDR_NONE
  {
    QuadDone(t, addr, v);
    hide Quad, Digits, Spoken, Kept64;
    QuadReadsNumber(t, i, addr, 3, t[i..|t|]);
  }

  lemma QuadDone(t: Text, addr: nat, octet: nat)
    requires addr < 0x100_0000
    ensures Quad(t, |t|, addr, octet, 3) == if octet < 256 then addr * 256 + octet else INADDR_NONE
  {
  }

  lemma QuadFour(t: Text, i: nat, j: nat, k: nat, u: nat, v: nat, w: nat, x: nat)
    requires Stands(t, 0, i, u) && DotAt(t, i) && Stands(t, i + 1, j, v) && DotAt(t, j)
    requires Stands(t, j + 1, k, w) && DotAt(t, k) && Stands(t, k + 1, |t|, x)
    ensures Quad(t, 0, 0, 0, 0)
      == if u < 256 && v < 256 && w < 256 && x < 256 then QuadValue(u, v, w, x) else INADDR_NONE
  {
    hide Quad, Stands, DotAt;
    QuadStep(t, 0, i, u, 0, 0);
    if u < 256 {
      QuadStep(t, i + 1, j, v, u, 1);
      if v < 256 {
        QuadStep(t, j + 1, k, w, u * 256 + v, 2);
        if w < 256 { QuadEnd(t, k + 1, x, (u * 256 + v) * 256 + w); }
      }
    }
  }

  /** Four numbers with dots between them, of any length, are accepted exactly when each of them, as 64 bits keep
    * it, is an octet; from 2^64 on other numbers pass for octets, and no digits at all for zero. */
  lemma QuadReads(a: Text, b: Text, c: Text, d: Text)
    requires Digits(a) && Digits(b) && Digits(c) && Digits(d)
    ensures var u, v, w, x := Kept64(Spoken(a)), Kept64(Spoken(b)), Kept64(Spoken(c)), Kept64(Spoken(d));
      Quad(a + "." + b + "." + c + "." + d, 0, 0, 0, 0)
      == if u < 256 && v < 256 && w < 256 && x < 256 then QuadValue(u, v, w, x) else INADDR_NONE
  {
    hide Quad, Digits, Spoken, Kept64;
    var t := a + "." + b + "." + c + "." + d;
    var i := |a|;
    var j := i + 1 + |b|;
    var k := j + 1 + |c|;
    assert t[0..i] == a && t[i + 1..j] == b && t[j + 1..k] == c && t[k + 1..|t|] == d;
    QuadFour(t, i, j, k, Kept64(Spoken(a)), Kept64(Spoken(b)), Kept64(Spoken(c)), Kept64(Spoken(d)));
  }

  lemma OctetsRead(a: nat, b: nat, c: nat, d: nat)
    requires a < 256 && b < 256 && c < 256 && d < 256
    ensures Quad(DottedText(a, b, c, d), 0, 0, 0, 0) == QuadValue(a, b, c, d)
  {
    NumeralSpoken(a);
    NumeralSpoken(b);
    NumeralSpoken(c);
    NumeralSpoken(d);
    hide Quad, QuadValue, Digits, Spoken, Numeral;
    QuadReads(Numeral(a, false), Numeral(b, false), Numeral(c, false), Numeral(d, false));
  }

  function Dots(t: Text): nat {
    if t == [] then 0 else (if t[0] == '.' then 1 else 0) + Dots(t[1..])
  }

  /** Only digits and dots. */
  predicate Numeric(t: Text) { forall k :: 0 <= k < |t| ==> Decimal(t[k]) || t[k] == '.' }

  lemma {:induction false} QuadRefusesFrom(t: Text, i: nat, addr: nat, octet: nat, n: nat)
    requires i <= |t| && addr <= INADDR_NONE && !(Numeric(t[i..]) && n + Dots(t[i..]) == 3)
    ensures Quad(t, i, addr, octet, n) == INADDR_NONE
    decreases |t| - i
  {
    if i < |t| {
      assert t[i..][1..] == t[i + 1..] && t[i..][0] == t[i];
      if Decimal(t[i]) {
        QuadRefusesFrom(t, i + 1, addr, (octet * 10 + (t[i] as int - '0' as int)) % 0x1_0000_0000_0000_0000, n);
      } else if t[i] == '.' && octet < 256 {
        QuadRefusesFrom(t, i + 1, (addr * 256 + octet) % 0x1_0000_0000, 0, n + 1);
      }
    }
  }

  /** Nothing else is accepted: a text with a character that is neither a digit nor a dot, or without exactly three
    * dots, is no address; any other text is four numbers with dots between them. */
  lemma QuadRefuses(t: Text) returns (a: Text, b: Text, c: Text, d: Text)
    ensures !Numeric(t) || Dots(t) != 3 ==> Quad(t, 0, 0, 0, 0) == INADDR_NONE
    ensures Numeric(t) && Dots(t) == 3 ==>
      t == a + "." + b + "." + c + "." + d && Digits(a) && Digits(b) && Digits(c) && Digits(d)
  {
    assert t[0..] == t;
    a, b, c, d := "", "", "", "";
    if !Numeric(t) || Dots(t) != 3 {
      QuadRefusesFrom(t, 0, 0, 0, 0);
    } else {
      hide *;
      var s, s';
      a, s := UpToDot(t);
      b, s' := UpToDot(s);
      c, d := UpToDot(s');
      NoDots(d);
      DottedAgain(a, b, c, d);
    }
  }

  lemma DottedAgain(a: Text, b: Text, c: Text, d: Text)
    ensures a + ("." + (b + ("." + (c + ("." + d))))) == a + "." + b + "." + c + "." + d
  {
  }

  lemma {:induction false} UpToDot(t: Text) returns (a: Text, rest: Text)
    requires Numeric(t) && Dots(t) > 0
    ensures t == a + ("." + rest) && Digits(a) && Numeric(rest) && Dots(rest) == Dots(t) - 1
  {
    if t[0] == '.' {
      a, rest := "", t[1..];
    } else {
      a, rest := UpToDot(t[1..]);
      assert t == [t[0]] + t[1..];
      assert [t[0]] + (a + ("." + rest)) == [t[0]] + a + ("." + rest);
      a := [t[0]] + a;
    }
  }

  lemma {:induction false} NoDots(t: Text)
    requires Numeric(t) && Dots(t) == 0
    ensures Digits(t)
  {
    if t != [] {
      NoDots(t[1..]);
      assert forall k :: 1 <= k < |t| ==> t[k] == t[1..][k - 1];
    }
  }

  // ---------------------------------------------------------------- runs of zero groups

  predicate ZeroRun(p: seq<nat>, s: nat, e: nat)
    requires Address(p)
  {
    s <= e <= 8 && forall g :: s <= g < e ==> Word(p, g) == 0
  }

  /** No run of two or more zero groups before group e is longer than max, and the first of that length
    * starts at zero; zero is absent when there is none. */
  ghost predicate Longest(p: seq<nat>, e: nat, zero: Option<nat>, max: nat)
    requires Address(p)
  {
    && e <= 8
    && (if zero.None? then max == 1 else max >= 2 && zero.value + max <= e && ZeroRun(p, zero.value, zero.value + max))
    && (forall s: nat, f: nat :: s <= f <= e && ZeroRun(p, s, f) ==> f - s <= max)
    && (forall s: nat, f: nat :: s <= f <= e && ZeroRun(p, s, f) && f - s == max && zero.Some? ==> zero.value <= s)
  }

  lemma NoRunYet(p: seq<nat>)
    requires Address(p)
    ensures Longest(p, 0, None, 1)
  {
  }

  /** The search for the longest run. */
  method FindRun(p: seq<nat>) returns (zero: Option<nat>, max: nat)
    requires Address(p)
    ensures Longest(p, 8, zero, max)
  {
    zero, max := None, 1;
    var last, n: nat := 0, 0;
    NoRunYet(p);
    for g := 0 to 8
      invariant n <= g && ZeroRun(p, g - n, g) && (n > 0 ==> last == g - n) && (n < g ==> Word(p, g - n - 1) != 0)
      invariant Longest(p, g - n, zero, max)
    {
      if p[2 * g] != 0 || p[2 * g + 1] != 0 {
        Settle(p, zero, max, g, n);
        if max < n { zero, max := Some(last), n; }
        n := 0;
        PastGroup(p, zero, max, g);
      } else {
        if n == 0 { last := g; }
        n := n + 1;
      }
    }
    Settle(p, zero, max, 8, n);
    if max < n { zero, max := Some(last), n; }
  }

  /** A run that ends at g joins the comparison. */
  lemma Settle(p: seq<nat>, zero: Option<nat>, max: nat, g: nat, n: nat)
    requires Address(p) && n <= g <= 8 && ZeroRun(p, g - n, g) && (n < g ==> Word(p, g - n - 1) != 0)
    requires Longest(p, g - n, zero, max)
    ensures if max < n then Longest(p, g, Some(g - n), n) else Longest(p, g, zero, max)
  {
    assert n < g ==> Word(p, g - n - 1) != 0;
  }

  lemma PastGroup(p: seq<nat>, zero: Option<nat>, max: nat, g: nat)
    requires Address(p) && g < 8 && Word(p, g) != 0 && Longest(p, g, zero, max)
    ensures Longest(p, g + 1, zero, max)
  {
    assert Word(p, g) != 0;
  }

  // ---------------------------------------------------------------- printing

  /** Whether the last four bytes are printed as a dotted quad. */
  predicate DottedTail(p: seq<nat>, zero: Option<nat>, max: nat)
    requires Address(p)
  {
    zero == Some(0) && ((max == 5 && p[10] == 0xFF && p[11] == 0xFF) || max == 6
      || (max == 7 && p[14] != 0 && p[15] != 1))
  }

  /** The text of the groups from g to end. */
  function Groups(p: seq<nat>, zero: Option<nat>, max: nat, g: nat, end: nat): Text
    requires Address(p) && end <= 8 && max > 0
    decreases 8 - g
  {
    if g >= end then ""
    else if zero == Some(g) then ":" + Groups(p, zero, max, g + max, end)
    else Numeral(Word(p, g), true) + (if g < 7 then ":" else "") + Groups(p, zero, max, g + 1, end)
  }

  function Printed(p: seq<nat>, zero: Option<nat>, max: nat): Text
    requires Address(p) && max > 0
  {
    var dotted := DottedTail(p, zero, max);
    (if zero == Some(0) then ":" else "") + Groups(p, zero, max, 0, if dotted then 6 else 8)
    + if dotted then DottedText(p[12], p[13], p[14], p[15]) else ""
  }

  lemma {:induction false} GroupsLength(p: seq<nat>, zero: Option<nat>, max: nat, g: nat, end: nat)
    requires Address(p) && g <= end <= 8 && max > 0
    ensures |Groups(p, zero, max, g, end)| <= 5 * (end - g)
    decreases 8 - g
  {
    if g < end {
      if zero == Some(g) {
        if g + max <= end { GroupsLength(p, zero, max, g + max, end); }
      } else {
        HexLength(Word(p, g));
        GroupsLength(p, zero, max, g + 1, end);
      }
    }
  }

  lemma TextFits(p: seq<nat>, zero: Option<nat>, max: nat)
    requires Address(p) && max > 0
    ensures |Groups(p, zero, max, 0, 8)| <= 40
    ensures DottedTail(p, zero, max) ==> |Groups(p, zero, max, 0, 6)| <= 6
  {
    GroupsLength(p, zero, max, 0, 8);
    if DottedTail(p, zero, max) && max < 6 { GroupsLength(p, zero, max, max, 6); }
  }

  lemma GroupsStep(p: seq<nat>, zero: Option<nat>, max: nat, g: nat, end: nat, done: Text)
    requires Address(p) && g < end <= 8 && max > 0
    ensures done + Groups(p, zero, max, g, end) == done + Piece(p, zero, g)
      + Groups(p, zero, max, NextGroup(zero, max, g), end)
  {
    assert Groups(p, zero, max, g, end) == Piece(p, zero, g) + Groups(p, zero, max, NextGroup(zero, max, g), end);
    Assoc(done, Piece(p, zero, g), Groups(p, zero, max, NextGroup(zero, max, g), end));
  }

  lemma Assoc(a: Text, b: Text, c: Text)
    ensures a + (b + c) == a + b + c
  {
  }

  function Piece(p: seq<nat>, zero: Option<nat>, g: nat): Text
    requires Address(p) && g < 8
  {
    if zero == Some(g) then ":" else Numeral(Word(p, g), true) + if g < 7 then ":" else ""
  }

  function NextGroup(zero: Option<nat>, max: nat, g: nat): nat { if zero == Some(g) then g + max else g + 1 }

  /** ngx_inet6_ntop on a buffer of len characters. */
  method Inet6Ntop(p: seq<nat>, text: array<char>) returns (len: nat)
    requires Address(p)
    modifies text
    ensures text.Length < INET6_ADDRSTRLEN ==> len == 0 && text[..] == old(text[..])
    ensures len <= text.Length
    ensures text.Length >= INET6_ADDRSTRLEN ==>
      exists zero, max :: Longest(p, 8, zero, max) && text[..len] == Printed(p, zero, max)
  {
    if text.Length < INET6_ADDRSTRLEN { return 0; }
    hide Groups, Longest, DottedText, Numeral, Piece, Word, Printed;
    var zero, max := FindRun(p);
    TextFits(p, zero, max);
    len := Print(p, zero, max, text);
  }

  /** The printing, once the longest run is known. */
  method Print(p: seq<nat>, zero: Option<nat>, max: nat, text: array<char>) returns (dst: nat)
    requires Address(p) && max > 0 && text.Length >= INET6_ADDRSTRLEN
    requires |Groups(p, zero, max, 0, 8)| <= 40 && (DottedTail(p, zero, max) ==> |Groups(p, zero, max, 0, 6)| <= 6)
    modifies text
    ensures dst <= text.Length && text[..dst] == Printed(p, zero, max)
  {
    hide Groups, DottedText, Printed;
    dst := 0;
    var n: nat := 8;
    ghost var a, c := "", "";
    if zero == Some(0) {
      if (max == 5 && p[10] == 0xFF && p[11] == 0xFF) || max == 6 || (max == 7 && p[14] != 0 && p[15] != 1) {
        n := 6;
      }
      dst := Put(text, dst, ":");
      a := ":";
    }
    dst := PutGroups(p, zero, max, n, text, dst);
    if n == 6 {
      dst := PutQuad(p, text, dst);
      c := DottedText(p[12], p[13], p[14], p[15]);
    }
    PrintedParts(p, zero, max, a, Groups(p, zero, max, 0, n), c);
  }

  lemma PrintedParts(p: seq<nat>, zero: Option<nat>, max: nat, a: Text, b: Text, c: Text)
    requires Address(p) && max > 0 && a == (if zero == Some(0) then ":" else "")
    requires b == Groups(p, zero, max, 0, if DottedTail(p, zero, max) then 6 else 8)
    requires c == if DottedTail(p, zero, max) then DottedText(p[12], p[13], p[14], p[15]) else ""
    ensures a + b + c == Printed(p, zero, max) && a + b + "" == a + b
  {
  }

  method PutGroups(p: seq<nat>, zero: Option<nat>, max: nat, n: nat, text: array<char>, at: nat) returns (end: nat)
    requires Address(p) && max > 0 && n <= 8 && at + |Groups(p, zero, max, 0, n)| <= text.Length
    modifies text
    ensures end == at + |Groups(p, zero, max, 0, n)| && text[..end] == old(text[..at]) + Groups(p, zero, max, 0, n)
  {
    hide Groups, Piece;
    end := at;
    var g: nat := 0;
    ghost var whole := text[..at] + Groups(p, zero, max, 0, n);
    while g < n
      invariant end <= text.Length && text[..end] + Groups(p, zero, max, g, n) == whole
    {
      GroupsStep(p, zero, max, g, n, text[..end]);
      end := PutGroup(p, zero, g, text, end);
      g := if zero == Some(g) then g + max else g + 1;
    }
    NoGroups(p, zero, max, g, n);
    assert text[..end] == whole;
  }

  lemma NoGroups(p: seq<nat>, zero: Option<nat>, max: nat, g: nat, end: nat)
    requires Address(p) && end <= g && end <= 8 && max > 0
    ensures Groups(p, zero, max, g, end) == ""
  {
  }

  method PutGroup(p: seq<nat>, zero: Option<nat>, g: nat, text: array<char>, at: nat) returns (end: nat)
    requires Address(p) && g < 8 && at + |Piece(p, zero, g)| <= text.Length
    modifies text
    ensures end <= text.Length && text[..end] == old(text[..at]) + Piece(p, zero, g)
  {
    if zero == Some(g) {
      end := Put(text, at, ":");
    } else {
      var word := PrintNumber(p[2 * g] * 256 + p[2 * g + 1], true);
      end := Put(text, at, word);
      if g < 7 { end := Put(text, end, ":"); }
    }
  }

  method PutQuad(p: seq<nat>, text: array<char>, at: nat) returns (end: nat)
    requires Address(p) && at + 15 <= text.Length
    modifies text
    ensures end <= text.Length && text[..end] == old(text[..at]) + DottedText(p[12], p[13], p[14], p[15])
  {
    OctetLength(p[12]);
    OctetLength(p[13]);
    OctetLength(p[14]);
    OctetLength(p[15]);
    var a := PrintNumber(p[12], false);
    var b := PrintNumber(p[13], false);
    var c := PrintNumber(p[14], false);
    var d := PrintNumber(p[15], false);
    end := Put(text, at, a + "." + b + "." + c + "." + d);
  }

  method Put(text: array<char>, at: nat, s: Text) returns (end: nat)
    requires at + |s| <= text.Length
    modifies text
    ensures end == at + |s| && text[..end] == old(text[..at]) + s
  {
    for k := 0 to |s|
      invariant text[..at + k] == old(text[..at]) + s[..k]
    {
      text[at + k] := s[k];
    }
    end := at + |s|;
  }

  // ---------------------------------------------------------------- parsing

  /** Midway through the text: the bytes stored, the group being read and the digits of it seen, how many
    * bytes stood before "::", and where the group begins. */
  datatype State = State(out: seq<nat>, word: nat, nibbles: nat, zero: Option<nat>, digit: Option<nat>)

  ghost predicate Reading(t: Text, i: nat, s: State) {
    && i <= |t| && |s.out| % 2 == 0 && |s.out| <= 14
    && (s.zero.Some? ==> s.zero.value <= |s.out|) && (s.digit.Some? ==> s.digit.value <= i)
  }

  const START := State([], 0, 0, None, None)

  function Zeros(n: nat): (z: seq<nat>)
    ensures |z| == n && forall k :: 0 <= k < n ==> z[k] == 0
  {
    if n == 0 then [] else Zeros(n - 1) + [0]
  }

  /** The end of the text: the last group, and the bytes behind "::" moved to the end. */
  function Finish(s: State): (r: Option<seq<nat>>)
    requires |s.out| <= 14 && (s.zero.Some? ==> s.zero.value <= |s.out|)
    ensures r.Some? ==> |r.value| == 16
  {
    if s.nibbles == 0 && s.zero.None? then None
    else
      var out := s.out + Pair(s.word);
      if |out| < 16 && s.zero.Some? then Some(out[..s.zero.value] + Zeros(16 - |out|) + out[s.zero.value..])
      else if |out| == 16 && s.zero.None? then Some(out)
      else None
  }

  /** What the rest of the text makes of a state. */
  function Read(t: Text, i: nat, s: State): (r: Option<seq<nat>>)
    requires Reading(t, i, s)
    ensures r.Some? ==> |r.value| == 16
    decreases |t| - i
  {
    if i == |t| then Finish(s)
    else if t[i] == ':' then
      if s.nibbles > 0 then
        if |s.out| == 14 then None
        else Read(t, i + 1, State(s.out + Pair(s.word), 0, 0, s.zero, Some(i + 1)))
      else if s.zero.None? then Read(t, i + 1, s.(zero := Some(|s.out|), digit := Some(i + 1)))
      else None
    else if t[i] == '.' && s.nibbles > 0 then
      if |s.out| > 12 || s.digit.None? then None
      else
        var v := Quad(t[s.digit.value..], 0, 0, 0, 0);
        if v == INADDR_NONE then None else Finish(s.(out := s.out + Pair(v / 0x1_0000), word := v))
    else if s.nibbles >= 4 || Nibble(t[i]).None? then None
    else Read(t, i + 1, s.(word := s.word * 16 + Nibble(t[i]).value, nibbles := s.nibbles + 1))
  }

  /** An address as the text gives it; one colon in front is passed over. */
  function Parsed(t: Text): (r: Option<seq<nat>>)
    ensures r.Some? ==> |r.value| == 16
  {
    if t == [] then None else Read(t, if t[0] == ':' then 1 else 0, START)
  }

  /** ngx_inet6_addr. */
  method Inet6Addr(t: Text, addr: array<nat>) returns (ok: bool)
    requires addr.Length == 16
    modifies addr
    ensures ok <==> Parsed(t).Some?
    ensures ok ==> addr[..] == Parsed(t).value
  {
    if |t| == 0 { return false; }
    var i: nat, at: nat, n: nat := if t[0] == ':' then 1 else 0, 0, 8;
    var zero: Option<nat>, digit: Option<nat> := None, None;
    var nibbles: nat, word: nat := 0, 0;
    while i < |t|
      invariant at == 16 - 2 * n && n > 0
      invariant Reading(t, i, State(addr[..at], word, nibbles, zero, digit))
      invariant Parsed(t) == Read(t, i, State(addr[..at], word, nibbles, zero, digit))
    {
      var c := t[i];
      i := i + 1;
      if c == ':' {
        if nibbles > 0 {
          digit := Some(i);
          n := n - 1;
          at := Store(addr, at, word);
          if n == 0 { return false; }
          nibbles, word := 0, 0;
        } else if zero == None {
          digit, zero := Some(i), Some(at);
        } else {
          return false;
        }
      } else if c == '.' && nibbles > 0 {
        if n < 2 || digit == None { return false; }
        word := InetAddr(t[digit.value..]);
        if word == INADDR_NONE { return false; }
        n := n - 1;
        at := Store(addr, at, word / 0x1_0000);
        ok := Complete(addr, at, State(addr[..at], word, nibbles, zero, digit));
        return;
      } else {
        nibbles := nibbles + 1;
        if nibbles > 4 || Nibble(c).None? { return false; }
        word := word * 16 + Nibble(c).value;
      }
    }
    ok := Complete(addr, at, State(addr[..at], word, nibbles, zero, digit));
  }

  /** Two bytes stored. */
  method Store(addr: array<nat>, at: nat, word: nat) returns (next: nat)
    requires at + 2 <= addr.Length
    modifies addr
    ensures next == at + 2 && addr[..next] == old(addr[..at]) + Pair(word)
  {
    addr[at] := word / 256 % 256;
    addr[at + 1] := word % 256;
    next := at + 2;
  }

  /** The end of the text. */
  method Complete(addr: array<nat>, at: nat, s: State) returns (ok: bool)
    requires addr.Length == 16 && at <= 14 && s.out == addr[..at] && (s.zero.Some? ==> s.zero.value <= at)
    modifies addr
    ensures ok <==> Finish(s).Some?
    ensures ok ==> addr[..] == Finish(s).value
  {
    if s.nibbles == 0 && s.zero.None? { return false; }
    var end := Store(addr, at, s.word);
    if end < 16 {
      if s.zero.None? { return false; }
      Spread(addr, s.zero.value, end);
      return true;
    }
    return s.zero.None?;
  }

  /** The bytes from zero to end move to the end of the address, the last one first. */
  method Spread(addr: array<nat>, zero: nat, end: nat)
    requires addr.Length == 16 && zero <= end < 16
    modifies addr
    ensures addr[..] == old(addr[..zero]) + Zeros(16 - end) + old(addr[zero..end])
  {
    ghost var head, moved := addr[..zero], addr[zero..end];
    Move(addr, zero, end, 16 - end);
    assert addr[..zero] == head && addr[zero + 16 - end..] == moved;
    Clear(addr, zero, 16 - end);
    assert addr[..] == addr[..zero] + addr[zero..zero + 16 - end] + addr[zero + 16 - end..];
  }

  method Move(addr: array<nat>, zero: nat, end: nat, n: nat)
    requires zero <= end && end + n == addr.Length
    modifies addr
    ensures forall k :: 0 <= k < zero ==> addr[k] == old(addr[k])
    ensures forall k :: zero + n <= k < addr.Length ==> addr[k] == old(addr[k - n])
  {
    var s: int := end - 1;
    while s >= zero
      invariant zero - 1 <= s < end
      invariant forall k :: 0 <= k <= s ==> addr[k] == old(addr[k])
      invariant forall k :: s + n < k < end + n ==> addr[k] == old(addr[k - n])
      decreases s
    {
      addr[s + n] := addr[s];
      s := s - 1;
    }
  }

  /** ngx_memzero. */
  method Clear(addr: array<nat>, from: nat, n: nat)
    requires from + n <= addr.Length
    modifies addr
    ensures addr[..from] == old(addr[..from]) && addr[from..from + n] == Zeros(n)
      && addr[from + n..] == old(addr[from + n..])
  {
    for k := 0 to n
      invariant addr[..from] == old(addr[..from]) && addr[from + n..] == old(addr[from + n..])
      invariant addr[from..from + k] == Zeros(k)
    {
      addr[from + k] := 0;
      assert addr[from..from + k + 1] == addr[from..from + k] + [0];
    }
  }

  // ---------------------------------------------------------------- what digits may be

  /** The hexadecimal digits are those of numerals, and the letters among them in upper case. */
  lemma NibbleMeans(c: char)
    ensures Nibble(c).Some? <==> c in "0123456789abcdefABCDEF"
    ensures Nibble(c).Some? ==> LowerHex(c) == DIGITS[Nibble(c).value]
  {
  }

  function LowerHex(c: char): char {
    if 'A' <= c <= 'F' then (c as int + 32) as char else c
  }

  ghost predicate SameButCase(t: Text, u: Text) {
    |t| == |u| && forall k :: 0 <= k < |t| ==> LowerHex(t[k]) == LowerHex(u[k])
  }

  lemma CharCase(c: char, d: char)
    requires LowerHex(c) == LowerHex(d)
    ensures Nibble(c) == Nibble(d) && (c == ':' <==> d == ':') && (c == '.' <==> d == '.')
    ensures c == d || (!Decimal(c) && !Decimal(d))
  {
  }

  lemma {:induction false} QuadCase(t: Text, u: Text, i: nat, addr: nat, octet: nat, n: nat)
    requires SameButCase(t, u) && i <= |t| && addr <= INADDR_NONE
    ensures Quad(t, i, addr, octet, n) == Quad(u, i, addr, octet, n)
    decreases |t| - i
  {
    if i < |t| {
      CharCase(t[i], u[i]);
      if Decimal(t[i]) {
        QuadCase(t, u, i + 1, addr, (octet * 10 + (t[i] as int - '0' as int)) % 0x1_0000_0000_0000_0000, n);
      } else if t[i] == '.' && octet < 256 {
        QuadCase(t, u, i + 1, (addr * 256 + octet) % 0x1_0000_0000, 0, n + 1);
      }
    }
  }

  lemma {:induction false} ReadCase(t: Text, u: Text, i: nat, s: State)
    requires SameButCase(t, u) && Reading(t, i, s)
    ensures Reading(u, i, s) && Read(t, i, s) == Read(u, i, s)
    decreases |t| - i
  {
    if i < |t| {
      CharCase(t[i], u[i]);
      if s.digit.Some? { QuadCase(t[s.digit.value..], u[s.digit.value..], 0, 0, 0, 0); }
      hide Quad, Nibble, Finish;
      if t[i] == ':' {
        if s.nibbles > 0 {
          if |s.out| < 14 { ReadCase(t, u, i + 1, State(s.out + Pair(s.word), 0, 0, s.zero, Some(i + 1))); }
        } else if s.zero.None? {
          ReadCase(t, u, i + 1, s.(zero := Some(|s.out|), digit := Some(i + 1)));
        }
      } else if !(t[i] == '.' && s.nibbles > 0) && s.nibbles < 4 && Nibble(t[i]).Some? {
        ReadCase(t, u, i + 1, s.(word := s.word * 16 + Nibble(t[i]).value, nibbles := s.nibbles + 1));
      }
    }
  }

  /** Upper and lower case read the same. */
  lemma CaseBlind(t: Text, u: Text)
    requires SameButCase(t, u)
    ensures Parsed(t) == Parsed(u)
  {
    if t != [] {
      CharCase(t[0], u[0]);
      ReadCase(t, u, if t[0] == ':' then 1 else 0, START);
    }
  }

  lemma {:induction false} ReadOnly(t: Text, i: nat, s: State, k: nat)
    requires Reading(t, i, s) && i <= k < |t| && t[k] !in "0123456789abcdefABCDEF:."
    ensures Read(t, i, s) == None
    decreases |t| - i
  {
    NibbleMeans(t[k]);
    hide Nibble, Finish;
    if i < k {
      if t[i] == ':' {
        if s.nibbles > 0 {
          if |s.out| < 14 { ReadOnly(t, i + 1, State(s.out + Pair(s.word), 0, 0, s.zero, Some(i + 1)), k); }
        } else if s.zero.None? {
          ReadOnly(t, i + 1, s.(zero := Some(|s.out|), digit := Some(i + 1)), k);
        }
      } else if t[i] == '.' && s.nibbles > 0 {
        if s.digit.Some? {
          var v := t[s.digit.value..];
          assert v[k - s.digit.value] == t[k];
          assert !Numeric(v) && v[0..] == v;
          QuadRefusesFrom(v, 0, 0, 0, 0);
        }
      } else if s.nibbles < 4 && Nibble(t[i]).Some? {
        ReadOnly(t, i + 1, s.(word := s.word * 16 + Nibble(t[i]).value, nibbles := s.nibbles + 1), k);
      }
    }
  }

  /** A text with anything but hexadecimal digits, colons and dots is no address. */
  lemma ForeignRefused(t: Text, k: nat)
    requires k < |t| && t[k] !in "0123456789abcdefABCDEF:."
    ensures Parsed(t) == None
  {
    ReadOnly(t, if t[0] == ':' then 1 else 0, START, k);
  }

  // ---------------------------------------------------------------- the round trip

  /** Hexadecimal digits are read one by one into the group. */
  lemma {:induction false} ReadNumber(t: Text, i: nat, s: State, w: nat)
    requires Reading(t, i, s) && s.word == 0 && s.nibbles == 0
    requires var x := Numeral(w, true); |x| <= 4 && i + |x| <= |t| && t[i..i + |x|] == x
    ensures Read(t, i, s) == Read(t, i + |Numeral(w, true)|, s.(word := w, nibbles := |Numeral(w, true)|))
    decreases w
  {
    hide Read;
    var x := Numeral(w, true);
    var e := i + |x| - 1;
    assert t[e] == x[|x| - 1];
    if w >= 16 {
      assert t[i..e] == x[..|x| - 1];
      ReadNumber(t, i, s, w / 16);
    }
    ReadDigit(t, e, s.(word := w / 16, nibbles := |x| - 1), w % 16);
  }

  lemma ReadDigit(t: Text, i: nat, s: State, d: nat)
    requires Reading(t, i, s) && i < |t| && d < 16 && t[i] == DIGITS[d] && s.nibbles < 4
    ensures Read(t, i, s) == Read(t, i + 1, s.(word := s.word * 16 + d, nibbles := s.nibbles + 1))
  {
    DigitMeans(d);
  }

  /** The bytes that are printed as groups before group g. */
  function Kept(p: seq<nat>, zero: Option<nat>, max: nat, g: nat): seq<nat>
    requires Address(p) && g <= 8 && (zero.Some? && zero.value < g ==> zero.value + max <= g)
  {
    if zero.Some? && zero.value < g then p[..2 * zero.value] + p[2 * (zero.value + max)..2 * g] else p[..2 * g]
  }

  function At(p: seq<nat>, zero: Option<nat>, max: nat, g: nat, digit: Option<nat>): State
    requires Address(p) && g <= 8 && (zero.Some? && zero.value < g ==> zero.value + max <= g)
  {
    State(Kept(p, zero, max, g), 0, 0, if zero.Some? && zero.value < g then Some(2 * zero.value) else None, digit)
  }

  ghost predicate RunFits(p: seq<nat>, zero: Option<nat>, max: nat)
    requires Address(p)
  {
    max > 0 && (zero.Some? ==> max >= 2 && zero.value + max <= 8 && ZeroRun(p, zero.value, zero.value + max))
  }

  lemma KeptMore(p: seq<nat>, zero: Option<nat>, max: nat, g: nat)
    requires Address(p) && g < 8 && RunFits(p, zero, max) && (zero.Some? ==> zero.value != g)
    requires zero.Some? && zero.value < g ==> zero.value + max <= g
    ensures Kept(p, zero, max, g + 1) == Kept(p, zero, max, g) + Pair(Word(p, g))
  {
    assert Pair(Word(p, g)) == p[2 * g..2 * g + 2];
  }

  lemma ZeroBytes(p: seq<nat>, z: nat, m: nat)
    requires Address(p) && z + m <= 8 && ZeroRun(p, z, z + m)
    ensures p[2 * z..2 * (z + m)] == Zeros(2 * m)
  {
    forall k | 2 * z <= k < 2 * (z + m) ensures p[k] == 0 { assert Word(p, k / 2) == 0; }
  }

  lemma Halves(p: seq<nat>, z: nat, e: nat, out: seq<nat>)
    requires z <= e <= |p| && out == p[..z] + p[e..]
    ensures out[..z] == p[..z] && out[z..] == p[e..] && p == p[..z] + p[z..e] + p[e..] && |out| == |p| - (e - z)
  {
  }

  /** With everything read the bytes behind the run move to their place. */
  lemma FinishLast(p: seq<nat>, zero: Option<nat>, max: nat, s: State)
    requires Address(p) && RunFits(p, zero, max) && |s.out| <= 14
    requires s.zero == (if zero.Some? then Some(2 * zero.value) else None)
    requires s.out + Pair(s.word) == Kept(p, zero, max, 8) && (s.zero.Some? ==> s.zero.value <= |s.out|)
    requires s.nibbles > 0 || zero.Some?
    ensures Finish(s) == Some(p)
  {
    if zero.Some? {
      var z, e := 2 * zero.value, 2 * (zero.value + max);
      ZeroBytes(p, zero.value, max);
      hide Pair, Zeros, ZeroRun;
      Halves(p, z, e, s.out + Pair(s.word));
    } else {
      assert p[..16] == p;
    }
  }

  lemma {:induction false} ReadGroups(p: seq<nat>, zero: Option<nat>, max: nat, g: nat, t: Text, i: nat,
      digit: Option<nat>)
    requires Address(p) && RunFits(p, zero, max) && g <= 8 && (zero.Some? && zero.value < g ==> zero.value + max <= g)
    requires g == 8 ==> zero.Some? && zero.value + max == 8
    requires i <= |t| && t[i..] == Groups(p, zero, max, g, 8) && (digit.Some? ==> digit.value <= i)
    requires Reading(t, i, At(p, zero, max, g, digit))
    ensures Read(t, i, At(p, zero, max, g, digit)) == Some(p)
    decreases 8 - g
  {
    hide Groups, Numeral, Word, At;
    if g == 8 {
      FinishRun(p, zero, max, digit);
      NoGroups(p, zero, max, g, 8);
    } else if zero == Some(g) {
      RunHere(p, zero, max, g, t, i, digit);
      ReadGroups(p, zero, max, g + max, t, i + 1, Some(i + 1));
    } else {
      ReadGroup(p, zero, max, g, t, i, digit);
      if g < 7 {
        var j := i + |Numeral(Word(p, g), true)| + 1;
        ReadGroups(p, zero, max, g + 1, t, j, Some(j));
      }
    }
  }

  lemma FinishRun(p: seq<nat>, zero: Option<nat>, max: nat, digit: Option<nat>)
    requires Address(p) && RunFits(p, zero, max) && zero.Some? && zero.value + max == 8
    ensures |Kept(p, zero, max, 8)| <= 14 && Finish(At(p, zero, max, 8, digit)) == Some(p)
  {
    var z := 2 * zero.value;
    forall k | z <= k < 16 ensures p[k] == 0 { assert Word(p, k / 2) == 0; }
    var out := Kept(p, zero, max, 8) + Pair(0);
    assert out == p[..z] + [0, 0] && out[..z] == p[..z] && out[z..] == [0, 0];
    assert p[z..14] == Zeros(14 - z);
    assert p == p[..z] + p[z..14] + [0, 0];
  }

  /** One group, and the colon behind it. */
  lemma ReadGroup(p: seq<nat>, zero: Option<nat>, max: nat, g: nat, t: Text, i: nat, digit: Option<nat>)
    requires Address(p) && RunFits(p, zero, max) && g < 8 && zero != Some(g)
    requires zero.Some? && zero.value < g ==> zero.value + max <= g
    requires i <= |t| && t[i..] == Groups(p, zero, max, g, 8) && (digit.Some? ==> digit.value <= i)
    requires Reading(t, i, At(p, zero, max, g, digit))
    ensures g == 7 ==> Read(t, i, At(p, zero, max, g, digit)) == Some(p)
    ensures g < 7 ==>
      var j := i + |Numeral(Word(p, g), true)| + 1;
      && j <= |t| && t[j..] == Groups(p, zero, max, g + 1, 8) && Reading(t, j, At(p, zero, max, g + 1, Some(j)))
      && Read(t, i, At(p, zero, max, g, digit)) == Read(t, j, At(p, zero, max, g + 1, Some(j)))
  {
    hide Groups, Numeral, Word, Kept, At, Read, Pair, ZeroRun;
    GroupHere(p, zero, max, g, t, i);
    var s, w := At(p, zero, max, g, digit), Word(p, g);
    var x := Numeral(w, true);
    AtStart(p, zero, max, g, digit);
    ReadNumber(t, i, s, w);
    KeptMore(p, zero, max, g);
    if g == 7 {
      ReadEnd(p, zero, max, t, i + |x|, s.(word := w, nibbles := |x|));
    } else {
      ReadColon(p, zero, max, g, t, i + |x|, s.(word := w, nibbles := |x|), digit);
      assert t[i + |x| + 1..] == Groups(p, zero, max, g + 1, 8);
    }
  }

  lemma AtStart(p: seq<nat>, zero: Option<nat>, max: nat, g: nat, digit: Option<nat>)
    requires Address(p) && g <= 8 && (zero.Some? && zero.value < g ==> zero.value + max <= g)
    ensures var s := At(p, zero, max, g, digit); s.word == 0 && s.nibbles == 0 && s.digit == digit
  {
  }

  lemma GroupHere(p: seq<nat>, zero: Option<nat>, max: nat, g: nat, t: Text, i: nat)
    requires Address(p) && g < 8 && zero != Some(g) && max > 0 && i <= |t| && t[i..] == Groups(p, zero, max, g, 8)
    ensures var x := Numeral(Word(p, g), true);
      && |x| <= 4 && i + |x| <= |t| && t[i..i + |x|] == x
      && (g < 7 ==> i + |x| < |t| && t[i + |x|] == ':' && t[i + |x| + 1..] == Groups(p, zero, max, g + 1, 8))
      && (g == 7 ==> i + |x| == |t|)
  {
    var rest := Groups(p, zero, max, g + 1, 8);
    var x, colon := Numeral(Word(p, g), true), if g < 7 then ":" else "";
    HexLength(Word(p, g));
    hide Numeral, Word;
    assert t[i..] == x + colon + rest;
    assert g == 7 ==> rest == "";
    Tail(t, i, x, colon, rest);
  }

  lemma RunHere(p: seq<nat>, zero: Option<nat>, max: nat, g: nat, t: Text, i: nat, digit: Option<nat>)
    requires Address(p) && RunFits(p, zero, max) && g < 8 && zero == Some(g)
    requires i <= |t| && t[i..] == Groups(p, zero, max, g, 8) && (digit.Some? ==> digit.value <= i)
    requires Reading(t, i, At(p, zero, max, g, digit))
    ensures i < |t| && t[i + 1..] == Groups(p, zero, max, g + max, 8)
    ensures Reading(t, i + 1, At(p, zero, max, g + max, Some(i + 1)))
    ensures Read(t, i, At(p, zero, max, g, digit)) == Read(t, i + 1, At(p, zero, max, g + max, Some(i + 1)))
  {
    assert t[i] == ':' && t[i + 1..] == t[i..][1..] == Groups(p, zero, max, g + max, 8);
    assert Kept(p, zero, max, g + max) == p[..2 * g];
    hide Groups, Kept;
  }

  lemma ReadEnd(p: seq<nat>, zero: Option<nat>, max: nat, t: Text, i: nat, s: State)
    requires Address(p) && RunFits(p, zero, max) && (zero.Some? && zero.value < 7 ==> zero.value + max <= 7)
      && zero != Some(7)
    requires i == |t| && s == At(p, zero, max, 7, s.digit).(word := Word(p, 7), nibbles := s.nibbles) && s.nibbles > 0
    requires Reading(t, i, s) && Kept(p, zero, max, 8) == Kept(p, zero, max, 7) + Pair(Word(p, 7))
    ensures Read(t, i, s) == Some(p)
  {
    hide Kept, Word;
    FinishLast(p, zero, max, s);
  }

  lemma ReadColon(p: seq<nat>, zero: Option<nat>, max: nat, g: nat, t: Text, i: nat, s: State, digit: Option<nat>)
    requires Address(p) && RunFits(p, zero, max) && g < 7 && zero != Some(g)
    requires zero.Some? && zero.value < g ==> zero.value + max <= g
    requires i < |t| && t[i] == ':' && Reading(t, i, s) && s.nibbles > 0
    requires s == At(p, zero, max, g, digit).(word := Word(p, g), nibbles := s.nibbles)
    requires Kept(p, zero, max, g + 1) == Kept(p, zero, max, g) + Pair(Word(p, g))
    ensures Reading(t, i + 1, At(p, zero, max, g + 1, Some(i + 1)))
    ensures Read(t, i, s) == Read(t, i + 1, At(p, zero, max, g + 1, Some(i + 1)))
  {
    AtNext(p, zero, max, g, digit, Some(i + 1));
    hide *;
    PastColon(t, i, s);
  }

  lemma AtNext(p: seq<nat>, zero: Option<nat>, max: nat, g: nat, digit: Option<nat>, digit': Option<nat>)
    requires Address(p) && g < 7 && zero != Some(g) && (zero.Some? && zero.value < g ==> zero.value + max <= g)
    requires Kept(p, zero, max, g + 1) == Kept(p, zero, max, g) + Pair(Word(p, g))
    ensures var s := At(p, zero, max, g, digit);
      |s.out| <= 12 && At(p, zero, max, g + 1, digit') == State(s.out + Pair(Word(p, g)), 0, 0, s.zero, digit')
  {
    assert |Kept(p, zero, max, g)| <= 12;
    hide Kept, Word, Pair;
  }

  lemma PastColon(t: Text, i: nat, s: State)
    requires Reading(t, i, s) && i < |t| && t[i] == ':' && s.nibbles > 0 && |s.out| <= 12
    ensures Reading(t, i + 1, State(s.out + Pair(s.word), 0, 0, s.zero, Some(i + 1)))
    ensures Read(t, i, s) == Read(t, i + 1, State(s.out + Pair(s.word), 0, 0, s.zero, Some(i + 1)))
  {
    hide Pair, Quad, Nibble, Finish;
  }

  lemma Tail(t: Text, i: nat, x: Text, y: Text, rest: Text)
    requires i <= |t| && t[i..] == x + y + rest
    ensures i + |x| + |y| <= |t| && t[i..i + |x|] == x && t[i + |x| + |y|..] == rest
    ensures y != "" ==> t[i + |x|] == y[0]
    ensures |t| == i + |x| + |y| + |rest|
  {
    assert t[i..][..|x|] == x && t[i..][|x| + |y|..] == rest;
    assert t[i..][|x|..|x| + |y|] == y;
  }

  /** Decimal digits are taken for hexadecimal ones until the first dot. */
  lemma {:induction false} ReadDecimals(t: Text, i: nat, s: State, k: nat) returns (w: nat)
    requires Reading(t, i, s) && s.nibbles + k <= 4 && i + k <= |t| && forall j :: i <= j < i + k ==> Decimal(t[j])
    ensures Read(t, i, s) == Read(t, i + k, s.(word := w, nibbles := s.nibbles + k))
    decreases k
  {
    w := s.word;
    if k > 0 {
      assert Nibble(t[i]).Some? && t[i] != ':' && t[i] != '.';
      w := ReadDecimals(t, i + 1, s.(word := s.word * 16 + Nibble(t[i]).value, nibbles := s.nibbles + 1), k - 1);
    }
  }

  /** The dotted quad is read from where its group begins. */
  lemma ReadDotted(t: Text, i: nat, s: State, a: nat, b: nat, c: nat, d: nat)
    requires a < 256 && b < 256 && c < 256 && d < 256 && i <= |t| && t[i..] == DottedText(a, b, c, d)
    requires Reading(t, i, s) && |s.out| <= 10 && s.nibbles == 0 && s.digit == Some(i) && s.zero.Some?
    ensures Read(t, i, s) == if a == b == c == d == 255 then None else
      Some(s.out[..s.zero.value] + Zeros(12 - |s.out|) + s.out[s.zero.value..] + [a, b, c, d])
  {
    DottedStart(t, i, a, b, c, d);
    hide Numeral, DottedText, Decimal, Quad, Zeros, Read, QuadValue, Finish, Pair;
    var k := |Numeral(a, false)|;
    var w := ReadDecimals(t, i, s, k);
    ReadQuad(t, i + k, s.(word := w, nibbles := k), a, b, c, d);
  }

  /** At its first dot. */
  lemma ReadQuad(t: Text, i: nat, s: State, a: nat, b: nat, c: nat, d: nat)
    requires Reading(t, i, s) && i < |t| && t[i] == '.' && s.nibbles > 0 && |s.out| <= 10 && s.zero.Some?
      && s.digit.Some?
    requires a < 256 && b < 256 && c < 256 && d < 256 && t[s.digit.value..] == DottedText(a, b, c, d)
    ensures Read(t, i, s) == if a == b == c == d == 255 then None else
      Some(s.out[..s.zero.value] + Zeros(12 - |s.out|) + s.out[s.zero.value..] + [a, b, c, d])
  {
    hide DottedText, Quad, Zeros, Read, QuadValue, Finish, Pair;
    OctetsRead(a, b, c, d);
    QuadBytes(a, b, c, d);
    ReadDot(t, i, s);
    var v := QuadValue(a, b, c, d);
    if v != INADDR_NONE { FinishQuad(s, v, a, b, c, d); }
  }

  lemma DottedStart(t: Text, i: nat, a: nat, b: nat, c: nat, d: nat)
    requires a < 256 && i <= |t| && t[i..] == DottedText(a, b, c, d)
    ensures var k := |Numeral(a, false)|;
      0 < k <= 3 && i + k < |t| && t[i + k] == '.' && forall j :: i <= j < i + k ==> Decimal(t[j])
  {
    var x, rest := Numeral(a, false), Numeral(b, false) + "." + Numeral(c, false) + "." + Numeral(d, false);
    OctetLength(a);
    DottedFirst(x, Numeral(b, false), Numeral(c, false), Numeral(d, false));
    hide Numeral, Decimal;
    Tail(t, i, x, ".", rest);
    forall j | i <= j < i + |x| ensures Decimal(t[j]) { assert t[j] == t[i..i + |x|][j - i]; }
  }

  lemma DottedFirst(a: Text, b: Text, c: Text, d: Text)
    ensures a + "." + b + "." + c + "." + d == a + "." + (b + "." + c + "." + d)
  {
  }

  lemma ReadDot(t: Text, i: nat, s: State)
    requires Reading(t, i, s) && i < |t| && t[i] == '.' && s.nibbles > 0 && |s.out| <= 12 && s.digit.Some?
    ensures var v := Quad(t[s.digit.value..], 0, 0, 0, 0);
      Read(t, i, s) == if v == INADDR_NONE then None
        else Finish(State(s.out + Pair(v / 0x1_0000), v, s.nibbles, s.zero, s.digit))
  {
    hide Quad;
  }

  lemma QuadBytes(a: nat, b: nat, c: nat, d: nat)
    requires a < 256 && b < 256 && c < 256 && d < 256
    ensures var v := QuadValue(a, b, c, d); Pair(v / 0x1_0000) == [a, b] && Pair(v) == [c, d]
    ensures QuadValue(a, b, c, d) == INADDR_NONE <==> a == b == c == d == 255
  {
    var v := QuadValue(a, b, c, d);
    assert v / 0x1_0000 == a * 256 + b && v / 256 == (a * 256 + b) * 256 + c;
  }

  lemma FinishQuad(s: State, v: nat, a: nat, b: nat, c: nat, d: nat)
    requires |s.out| <= 10 && s.zero.Some? && s.zero.value <= |s.out| && s.nibbles > 0
    requires Pair(v / 0x1_0000) == [a, b] && Pair(v) == [c, d]
    ensures Finish(State(s.out + Pair(v / 0x1_0000), v, s.nibbles, s.zero, s.digit))
      == Some(s.out[..s.zero.value] + Zeros(12 - |s.out|) + s.out[s.zero.value..] + [a, b, c, d])
  {
    var z, out := s.zero.value, s.out + [a, b] + [c, d];
    assert out[..z] == s.out[..z] && out[z..] == s.out[z..] + [a, b, c, d];
    assert s.out[..z] + Zeros(12 - |s.out|) + (s.out[z..] + [a, b, c, d])
      == s.out[..z] + Zeros(12 - |s.out|) + s.out[z..] + [a, b, c, d];
  }

  /** What is printed with a dotted quad starts with two colons and at most one group. */
  lemma ReadShort(p: seq<nat>, max: nat)
    requires Address(p) && ZeroRun(p, 0, max) && DottedTail(p, Some(0), max)
    ensures Parsed(Printed(p, Some(0), max)) == if p[12..] == [255, 255, 255, 255] then None else Some(p)
  {
    var t := Printed(p, Some(0), max);
    ShortText(p, max);
    forall k | 0 <= k < 2 * max ensures p[k] == 0 { assert Word(p, k / 2) == 0; }
    assert p[12..] == [p[12], p[13], p[14], p[15]];
    hide Printed, Parsed, DottedText, Word, Groups;
    if max == 5 { ReadMapped(p, t); } else { ReadCompatible(p, t); }
  }

  lemma ShortText(p: seq<nat>, max: nat)
    requires Address(p) && ZeroRun(p, 0, max) && DottedTail(p, Some(0), max)
    ensures Printed(p, Some(0), max)
      == (if max == 5 then ":" + (":" + ("ffff" + ":")) else ":" + ":") + DottedText(p[12], p[13], p[14], p[15])
  {
    hide DottedText;
    if max == 5 {
      FfffText();
      hide Numeral;
      assert Groups(p, Some(0), 5, 6, 6) == "";
      assert Groups(p, Some(0), 5, 5, 6) == "ffff" + ":";
      assert Groups(p, Some(0), 5, 0, 6) == ":" + ("ffff" + ":");
    } else {
      assert Groups(p, Some(0), max, 0, 6) == ":" + "";
    }
  }

  lemma TwoColons(t: Text)
    requires |t| >= 2 && t[0] == t[1] == ':'
    ensures Reading(t, 2, State([], 0, 0, Some(0), Some(2)))
      && Parsed(t) == Read(t, 2, State([], 0, 0, Some(0), Some(2)))
  {
  }

  lemma ReadMapped(p: seq<nat>, t: Text)
    requires Address(p) && (forall k :: 0 <= k < 10 ==> p[k] == 0) && p[10] == p[11] == 255
    requires t == ":" + (":" + ("ffff" + ":")) + DottedText(p[12], p[13], p[14], p[15])
    ensures Parsed(t) == if p[12] == p[13] == p[14] == p[15] == 255 then None else Some(p)
  {
    var q, s := DottedText(p[12], p[13], p[14], p[15]), State([], 0, 0, Some(0), Some(2));
    assert t[2..] == "ffff" + ":" + q;
    hide DottedText, Read, Finish, Quad, Numeral, Pair;
    TwoColons(t);
    Tail(t, 2, "ffff", ":", q);
    FfffText();
    ReadNumber(t, 2, s, 0xFFFF);
    ReadFirstColon(t, 6, s.(word := 0xFFFF, nibbles := 4));
    ReadDotted(t, 7, State([255, 255], 0, 0, Some(0), Some(7)), p[12], p[13], p[14], p[15]);
    MappedForm(p);
    hide *;
  }

  lemma MappedForm(p: seq<nat>)
    requires Address(p) && (forall k :: 0 <= k < 10 ==> p[k] == 0) && p[10] == p[11] == 255
    ensures p == [] + Zeros(10) + [255, 255] + [p[12], p[13], p[14], p[15]]
    ensures [255, 255][..0] == [] && [255, 255][0..] == [255, 255]
  {
    assert p[..10] == Zeros(10);
  }

  lemma ReadFirstColon(t: Text, i: nat, s: State)
    requires Reading(t, i, s) && i < |t| && t[i] == ':' && s.nibbles > 0 && s.out == [] && s.word == 0xFFFF
    ensures Reading(t, i + 1, State([255, 255], 0, 0, s.zero, Some(i + 1)))
    ensures Read(t, i, s) == Read(t, i + 1, State([255, 255], 0, 0, s.zero, Some(i + 1)))
  {
    assert s.out + Pair(0xFFFF) == [255, 255];
  }

  lemma ReadCompatible(p: seq<nat>, t: Text)
    requires Address(p) && (forall k :: 0 <= k < 12 ==> p[k] == 0)
      && t == ":" + ":" + DottedText(p[12], p[13], p[14], p[15])
    ensures Parsed(t) == if p[12] == p[13] == p[14] == p[15] == 255 then None else Some(p)
  {
    var s := State([], 0, 0, Some(0), Some(2));
    assert t[2..] == DottedText(p[12], p[13], p[14], p[15]);
    hide DottedText, Read, Finish;
    TwoColons(t);
    ReadDotted(t, 2, s, p[12], p[13], p[14], p[15]);
    CompatibleForm(p);
    hide *;
  }

  lemma CompatibleForm(p: seq<nat>)
    requires Address(p) && forall k :: 0 <= k < 12 ==> p[k] == 0
    ensures p == [] + Zeros(12) + [] + [p[12], p[13], p[14], p[15]]
  {
    assert p[..12] == Zeros(12);
  }

  lemma FfffText()
    ensures Numeral(0xFFFF, true) == "ffff"
  {
    assert Numeral(0xF, true) == "f";
    assert Numeral(0xFF, true) == "ff";
    assert Numeral(0xFFF, true) == "fff";
  }

  /** Addresses whose text ends in ".255.255.255.255". */
  predicate EndsInAllOnes(p: seq<nat>)
    requires Address(p)
  {
    && (forall k :: 0 <= k < 10 ==> p[k] == 0) && ((p[10] == 0 && p[11] == 0) || (p[10] == 255 && p[11] == 255))
    && p[12..] == [255, 255, 255, 255]
  }

  /** What is printed is read back as the same address, for every address but the two whose last four bytes
    * are printed as the quad that stands for an error; those are refused. */
  lemma RoundTrip(p: seq<nat>, zero: Option<nat>, max: nat)
    requires Address(p) && Longest(p, 8, zero, max)
    ensures Parsed(Printed(p, zero, max)) == if EndsInAllOnes(p) then None else Some(p)
  {
    if DottedTail(p, zero, max) {
      ReadShort(p, max);
      DottedWhen(p, zero, max);
    } else {
      ReadPlain(p, zero, max);
      DottedWhen(p, zero, max);
    }
  }

  /** What is printed without a dotted quad. */
  lemma ReadPlain(p: seq<nat>, zero: Option<nat>, max: nat)
    requires Address(p) && RunFits(p, zero, max) && !DottedTail(p, zero, max)
    ensures Parsed(Printed(p, zero, max)) == Some(p)
  {
    var t, x := Printed(p, zero, max), Groups(p, zero, max, 0, 8);
    StartsAt(p, zero, max);
    if zero == Some(0) {
      assert t == ":" + x && t[1..] == x;
      hide Groups, Printed;
      ReadGroups(p, zero, max, 0, t, 1, None);
    } else {
      FirstDigit(p, zero, max);
      assert t == x && t[0..] == x;
      hide Groups, Printed;
      ReadGroups(p, zero, max, 0, t, 0, None);
    }
  }

  lemma StartsAt(p: seq<nat>, zero: Option<nat>, max: nat)
    requires Address(p)
    ensures At(p, zero, max, 0, None) == START && forall t: Text, i: nat :: i <= |t| ==> Reading(t, i, START)
  {
  }

  lemma FirstDigit(p: seq<nat>, zero: Option<nat>, max: nat)
    requires Address(p) && max > 0 && zero != Some(0)
    ensures var t := Groups(p, zero, max, 0, 8); t != "" && t[0] != ':'
  {
    HexFirst(Word(p, 0));
  }

  lemma {:induction false} HexFirst(w: nat)
    ensures Numeral(w, true)[0] != ':'
    decreases w
  {
    DigitMeans(w % 16);
    if w >= 16 { HexFirst(w / 16); }
  }

  /** Addresses that end in all ones have the long run that makes for a dotted quad. */
  lemma DottedWhen(p: seq<nat>, zero: Option<nat>, max: nat)
    requires Address(p) && Longest(p, 8, zero, max)
    ensures EndsInAllOnes(p) <==> DottedTail(p, zero, max) && p[12..] == [255, 255, 255, 255]
  {
    if p[12..] == [255, 255, 255, 255] {
      assert p[12..][0] == 255 && p[12..][2] == 255;
      assert p[12] == 255 && p[14] == 255;
      assert Word(p, 6) != 0 && Word(p, 7) != 0;
      if EndsInAllOnes(p) {
        var m := if p[10] == 0 then 6 else 5;
        assert ZeroRun(p, 0, m);
        assert Word(p, 5) == 0 <==> m == 6;
      }
      if DottedTail(p, zero, max) {
        forall k | 0 <= k < 2 * max ensures p[k] == 0 { assert Word(p, k / 2) == 0; }
      }
    }
  }
}
