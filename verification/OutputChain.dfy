/** The output chain: buffers are passed on as they are or copied into a few recycled ones, while the
  * filter below consumes them at its own pace.  No byte may be lost, repeated, reordered or overwritten. */
module OutputChain {
  import opened Wrappers

  type Byte = char

  /** A buffer without memory that only carries a flag; one whose memory may be changed; one whose may not. */
  datatype Kind = Special | Temporary | ReadOnly

  datatype Status = OK | AGAIN | DONE | ERROR

  /** What a stream is made of: the bytes of buffers, and special buffers. */
  datatype Token = Letter(b: Byte) | Signal(buf: Buf)

  function Letters(s: seq<Byte>): (t: seq<Token>)
    ensures |t| == |s|
  {
    seq(|s|, i requires 0 <= i < |s| => Letter(s[i]))
  }

  lemma LettersParted(s: seq<Byte>, i: nat, j: nat, k: nat)
    requires i <= j <= k <= |s|
    ensures Letters(s[i..k]) == Letters(s[i..j]) + Letters(s[j..k])
  {
  }

  class Buf {
    var data: seq<Byte>
    var pos: nat
    var last: nat
    const kind: Kind
    const lastInChain: bool
    /** Whether the tag is that of the output chain that allocated it. */
    const pooled: bool

    /** A buffer of a caller, holding the whole of data. */
    constructor (data: seq<Byte>, kind: Kind, lastInChain: bool)
      requires kind == Special ==> data == []
      ensures this.data == data && pos == 0 && last == |data| && this.kind == kind && !pooled && Sound()
    {
      this.data, pos, last := data, 0, |data|;
      this.kind, this.lastInChain, pooled := kind, lastInChain, false;
    }

    /** An empty temporary buffer of the output chain. */
    constructor Pooled(room: seq<Byte>)
      requires room != []
      ensures data == room && pos == 0 && last == 0 && kind == Temporary && pooled && Sound()
    {
      data, pos, last := room, 0, 0;
      kind, lastInChain, pooled := Temporary, false, true;
    }

    ghost predicate Sound()
      reads this
    {
      pos <= last <= |data| && (kind == Special ==> pos == last) && (pooled ==> kind == Temporary && data != [])
    }

    function Size(): nat
      reads this
    {
      if pos <= last then last - pos else 0
    }

    /** The bytes not yet consumed, or the buffer itself when it is special. */
    ghost function Text(): (t: seq<Token>)
      reads this
      ensures Sound() ==> |t| == if kind == Special then 1 else Size()
    {
      if kind == Special then [Signal(this)] else if pos <= last <= |data| then Letters(data[pos..last]) else []
    }

    /** Hands out the next n bytes. */
    method Take(n: nat) returns (taken: seq<Byte>)
      requires Sound() && kind != Special && n <= Size()
      modifies `pos
      ensures Sound() && pos == old(pos) + n && Letters(taken) + Text() == old(Text()) && |taken| == n
    {
      taken := data[pos..pos + n];
      LettersParted(data, pos, pos + n, last);
      hide Letters;
      pos := pos + n;
    }
  }

  // ---------------------------------------------------------------- lists of buffers

  ghost predicate AllSound(s: seq<Buf>)
    reads s
  {
    forall b :: b in s ==> b.Sound()
  }

  ghost predicate NoDup(s: seq<Buf>) {
    forall j, k :: 0 <= j < k < |s| ==> s[j] != s[k]
  }

  ghost predicate Disjoint(s: seq<Buf>, t: seq<Buf>) {
    forall b :: b in s ==> b !in t
  }

  /** The stream that a list of buffers holds. */
  ghost function Bytes(s: seq<Buf>): seq<Token>
    reads s
  {
    if s == [] then [] else s[0].Text() + Bytes(s[1..])
  }

  lemma Assoc(a: seq<Token>, b: seq<Token>, c: seq<Token>)
    ensures a + (b + c) == a + b + c && a + [] == a && [] + a == a && [] + c == c
  {
  }

  lemma {:induction false} BytesConcat(s: seq<Buf>, t: seq<Buf>)
    ensures Bytes(s + t) == Bytes(s) + Bytes(t)
    decreases |s|
  {
    BytesCons(s);
    BytesCons(s + t);
    hide *;
    if s == [] {
      assert s + t == t;
      Assoc([], [], Bytes(t));
    } else {
      BytesConcat(s[1..], t);
      assert (s + t)[1..] == s[1..] + t && (s + t)[0] == s[0];
      Assoc(s[0].Text(), Bytes(s[1..]), Bytes(t));
    }
  }

  lemma BytesCons(s: seq<Buf>)
    ensures Bytes(s) == if s == [] then [] else s[0].Text() + Bytes(s[1..])
  {
  }

  lemma BytesOne(b: Buf)
    ensures Bytes([b]) == b.Text()
  {
  }

  // ---------------------------------------------------------------- the filter below

  lemma Leading(s: seq<Buf>)
    requires s != [] && NoDup(s)
    ensures s[0] !in s[1..] && NoDup(s[1..])
  {
  }

  lemma Split(before: seq<Token>, taken: seq<Token>, text: seq<Token>, tail: seq<Token>)
    ensures before + (taken + text + tail) == before + taken + (text + tail)
    ensures text == [] ==> text + tail == tail
  {
  }

  /** Any filter that consumes what it is given in order: each call lets it send some number of bytes and answer
    * with some status, as the script says. One that writes into its buffers must be given none that is read-only. */
  class Filter {
    const inTemp: bool
    var pending: seq<Buf>
    var sent: seq<Token>
    var script: seq<(nat, Status)>

    constructor (inTemp: bool, script: seq<(nat, Status)>)
      ensures pending == [] && sent == [] && this.inTemp == inTemp && this.script == script
    {
      this.inTemp, pending, sent, this.script := inTemp, [], [], script;
    }

    ghost predicate Holds()
      reads this, pending
    {
      Leaving(pending)
    }

    /** Sends at most budget bytes, dropping each buffer once nothing of it is left, and special ones when their
      * turn comes. */
    method Send(budget: nat)
      requires Holds()
      modifies this, set b | b in pending :: b`pos
      ensures Holds() && sent + Bytes(pending) == old(sent + Bytes(pending))
      ensures (forall b :: b in pending ==> b in old(pending))
      ensures forall b :: b in old(pending) ==> b.Sound()
    {
      var left: nat := budget;
      ghost var all, total, k := pending, sent + Bytes(pending), 0;
      hide NoDup, Bytes;
      while pending != [] && (left > 0 || pending[0].Size() == 0)
        invariant all == old(pending) && 0 <= k <= |all| && pending == all[k..] && Holds()
        invariant sent + Bytes(pending) == total
        invariant forall b :: b in all ==> b.Sound()
        decreases |pending|
      {
        Leading(pending);
        var b := pending[0];
        assert b == all[k] && b in all;
        left := SendOne(b, left);
        if b.Size() != 0 { return; }
        k := k + 1;
      }
    }

    /** Sends what it may of the first buffer. */
    method SendOne(b: Buf, budget: nat) returns (left: nat)
      requires Holds() && pending != [] && b == pending[0] && (budget > 0 || pending[0].Size() == 0)
      modifies `pending, `sent, b`pos
      ensures Holds() && sent + Bytes(pending) == old(sent + Bytes(pending)) && b.Sound()
      ensures pending == if b.Size() == 0 then old(pending)[1..] else old(pending)
    {
      if b.kind != Special {
        left := SendBytes(b, budget);
      } else {
        Leading(pending);
        Assoc(sent, b.Text(), Bytes(pending[1..]));
        sent, pending, left := sent + [Signal(b)], pending[1..], budget;
      }
    }

    method SendBytes(b: Buf, budget: nat) returns (left: nat)
      requires Holds() && pending != [] && b == pending[0] && b.kind != Special
      modifies `pending, `sent, b`pos
      ensures Holds() && sent + Bytes(pending) == old(sent + Bytes(pending)) && b.Sound()
      ensures pending == if b.Size() == 0 then old(pending)[1..] else old(pending)
    {
      Leading(pending);
      hide NoDup, Letters;
      var rest := pending[1..];
      ghost var tail, before, text := Bytes(rest), sent, b.Text();
      assert Bytes(pending) == text + tail;
      var n: nat := if budget < b.Size() then budget else b.Size();
      var taken := b.Take(n);
      assert Bytes(rest) == tail;
      Split(before, Letters(taken), b.Text(), tail);
      sent, left := sent + Letters(taken), budget - n;
      if b.Size() == 0 {
        pending := rest;
      } else {
        assert Bytes(pending) == b.Text() + tail;
      }
    }

    method Call(out: seq<Buf>) returns (rc: Status)
      requires Holds() && AllSound(out) && NoDup(out) && Disjoint(out, pending)
      requires forall b :: b in out && b.pooled ==> b.pos < b.last
      requires inTemp ==> forall b :: b in out ==> b.kind != ReadOnly
      modifies this, set b | b in pending + out :: b`pos
      ensures Holds() && sent + Bytes(pending) == old(sent + Bytes(pending)) + old(Bytes(out))
      ensures (forall b :: b in pending ==> b in old(pending) || b in out)
      ensures (forall b :: b in old(pending) ==> b.Sound()) && AllSound(out)
    {
      hide NoDup, Bytes, Disjoint;
      BytesConcat(pending, out);
      Appended(pending, out);
      Assoc(sent, Bytes(pending), Bytes(out));
      pending := pending + out;
      var budget: nat;
      if script == [] {
        budget, rc := 0, OK;
      } else {
        budget, rc, script := script[0].0, script[0].1, script[1..];
      }
      Send(budget);
    }
  }

  lemma Appended(s: seq<Buf>, t: seq<Buf>)
    requires NoDup(s) && NoDup(t) && Disjoint(t, s)
    ensures NoDup(s + t)
  {
    forall j, k | 0 <= j < k < |s + t| ensures (s + t)[j] != (s + t)[k] {
      if j < |s| <= k { assert s[j] in s && t[k - |s|] in t; }
    }
  }

  // ---------------------------------------------------------------- the chain

  function Join(sent: seq<Token>, held: seq<Token>, leaving: seq<Token>, waiting: seq<Token>): seq<Token> {
    sent + held + leaving + waiting
  }

  lemma JoinCalled(sent: seq<Token>, held: seq<Token>, o: seq<Token>, i: seq<Token>,
                   sent': seq<Token>, held': seq<Token>)
    requires sent' + held' == sent + held + o
    ensures Join(sent, held, o, i) == Join(sent', held', [], i)
  {
  }

  lemma NoneLeaving()
    ensures Leaving([]) && Bytes([]) == []
  {
  }

  lemma BusyOnce(busy: seq<Buf>, out: seq<Buf>)
    requires PooledOnce(busy) && NoDup(out) && forall b :: b in out && b.pooled ==> b !in busy
    ensures PooledOnce(busy + out)
  {
    var all := busy + out;
    forall j, k | 0 <= j < k < |all| && all[j].pooled ensures all[j] != all[k] {
      if j < |busy| <= k { assert all[j] in busy && all[k] in out; }
    }
  }

  lemma JoinMoved(sent: seq<Token>, held: seq<Token>, o: seq<Token>, i: seq<Token>, o': seq<Token>, i': seq<Token>)
    requires o + i == o' + i'
    ensures Join(sent, held, o, i) == Join(sent, held, o', i')
  {
    Assoc(sent + held, o, i);
    Assoc(sent + held, o', i');
  }

  /** Waiting buffers are the callers' own; free ones are empty, the chain's own, and held by nobody else;
    * those the filter holds, and those on their way to it, hold something if they are the chain's own. */
  ghost predicate Apart(pending: seq<Buf>, input: seq<Buf>, free: seq<Buf>, busy: seq<Buf>, out: seq<Buf>)
    reads pending, input, free, busy, out
  {
    && Leaving(pending) && Waiting(input) && Disjoint(input, pending)
    && Idle(free) && Disjoint(free, pending) && Disjoint(free, busy)
    && AllSound(busy) && PooledOnce(busy)
    && Leaving(out) && Disjoint(out, pending) && Disjoint(out, input) && Disjoint(out, free)
    && (forall b :: b in out && b.pooled ==> b !in busy)
  }

  ghost predicate Waiting(input: seq<Buf>)
    reads input
  {
    AllSound(input) && NoDup(input) && forall b :: b in input ==> !b.pooled
  }

  ghost predicate Idle(free: seq<Buf>)
    reads free
  {
    AllSound(free) && NoDup(free) && forall b :: b in free ==> b.pooled && b.pos == 0 && b.last == 0
  }

  ghost predicate Leaving(out: seq<Buf>)
    reads out
  {
    AllSound(out) && NoDup(out) && forall b :: b in out && b.pooled ==> b.pos < b.last
  }

  /** Dropping or passing on the first waiting buffer. */
  lemma ApartPass(pending: seq<Buf>, input: seq<Buf>, free: seq<Buf>, busy: seq<Buf>, out: seq<Buf>)
    requires Apart(pending, input, free, busy, out) && input != []
    ensures Apart(pending, input[1..], free, busy, out)
    ensures Apart(pending, input[1..], free, busy, out + [input[0]])
    ensures input[0].Sound() && !input[0].pooled && input[0] !in pending
  {
    var b := input[0];
    Leading(input);
    assert b in input && b !in out && b !in free;
    Appended(out, [b]);
  }

  /** dst is an empty buffer of the chain that is on none of the lists. */
  ghost predicate Loose(pending: seq<Buf>, input: seq<Buf>, free: seq<Buf>, busy: seq<Buf>, out: seq<Buf>, dst: Buf)
    reads dst
  {
    && dst.Sound() && dst.pooled && dst.pos == 0 && dst.last == 0
    && dst !in pending && dst !in input && dst !in free && dst !in busy && dst !in out
  }

  lemma ApartTake(pending: seq<Buf>, input: seq<Buf>, free: seq<Buf>, busy: seq<Buf>, out: seq<Buf>)
    requires Apart(pending, input, free, busy, out) && free != []
    ensures Apart(pending, input, free[1..], busy, out) && Loose(pending, input, free[1..], busy, out, free[0])
  {
    var b := free[0];
    Leading(free);
    assert b in free && b !in out && b !in input;
  }

  lemma ApartFull(pending: seq<Buf>, input: seq<Buf>, free: seq<Buf>, busy: seq<Buf>, out: seq<Buf>, dst: Buf)
    requires Apart(pending, input, free, busy, out) && dst.Sound() && dst.pooled && dst.pos < dst.last
    requires dst !in pending && dst !in input && dst !in free && dst !in busy && dst !in out
    ensures Apart(pending, input, free, busy, out + [dst])
  {
    Appended(out, [dst]);
  }

  /** ngx_output_chain_copy_buf, for buffers in memory: as much of src as fits goes into dst. */
  method CopyBuf(src: Buf, dst: Buf)
    requires src.Sound() && src.Size() > 0 && dst.Sound() && dst.pooled && dst.pos == 0 && dst.last == 0 && src != dst
    modifies src`pos, dst`data, dst`last
    ensures src.Sound() && dst.Sound() && dst.pos < dst.last
    ensures dst.Text() + src.Text() == old(src.Text())
    ensures src.Size() == 0 || dst.last == |dst.data|
  {
    var n: nat := if src.Size() < |dst.data| - dst.pos then src.Size() else |dst.data| - dst.pos;
    var taken := src.Take(n);
    dst.data := taken + dst.data[n..];
    dst.last := dst.last + n;
    assert dst.data[0..n] == taken;
  }

  /** A waiting buffer is on none of the other lists that are read, and a loose one on none at all. */
  lemma SrcApart(pending: seq<Buf>, input: seq<Buf>, free: seq<Buf>, busy: seq<Buf>, out: seq<Buf>)
    requires Apart(pending, input, free, busy, out) && input != []
    ensures input[0].Sound() && !input[0].pooled
    ensures input[0] !in pending && input[0] !in out && input[0] !in free && input[0] !in input[1..]
  {
    Leading(input);
    assert input[0] in input;
  }

  /** Copying between a waiting and a loose buffer changes no other. */
  method CopyApart(src: Buf, dst: Buf, ghost pending: seq<Buf>, ghost input: seq<Buf>, ghost free: seq<Buf>,
                   ghost busy: seq<Buf>, ghost out: seq<Buf>)
    requires Apart(pending, input, free, busy, out) && input != [] && src == input[0] && src.Size() > 0
    requires Loose(pending, input, free, busy, out, dst)
    modifies src`pos, dst`data, dst`last
    ensures Apart(pending, input, free, busy, out) && src.Sound() && dst.Sound() && dst.pos < dst.last
    ensures dst.Text() + src.Text() == old(src.Text())
    ensures Bytes(pending) == old(Bytes(pending)) && Bytes(out) == old(Bytes(out))
    ensures Bytes(input[1..]) == old(Bytes(input[1..]))
  {
    SrcApart(pending, input, free, busy, out);
    assert dst !in input[1..];
    hide NoDup;
    CopyBuf(src, dst);
  }

  /** Copying, and what follows it: the waiting buffer leaves once nothing of it is left. */
  method Transfer(src: Buf, dst: Buf, ghost pending: seq<Buf>, input: seq<Buf>, ghost free: seq<Buf>,
                  ghost busy: seq<Buf>, out: seq<Buf>) returns (input': seq<Buf>)
    requires Apart(pending, input, free, busy, out) && input != [] && src == input[0] && src.Size() > 0
    requires Loose(pending, input, free, busy, out, dst)
    modifies src`pos, dst`data, dst`last
    ensures Apart(pending, input', free, busy, out + [dst]) && (input' == input || input' == input[1..])
    ensures Bytes(out + [dst]) + Bytes(input') == old(Bytes(out) + Bytes(input))
    ensures |Bytes(input')| < old(|Bytes(input)|) && Bytes(pending) == old(Bytes(pending))
  {
    assert dst.pooled && dst !in pending && dst !in input && dst !in free && dst !in busy && dst !in out;
    hide *;
    BytesCons(input);
    ghost var rest, before := Bytes(input[1..]), Bytes(out);
    CopyApart(src, dst, pending, input, free, busy, out);
    BytesCons(input);
    ApartFull(pending, input, free, busy, out, dst);
    ApartPass(pending, input, free, busy, out + [dst]);
    BytesConcat(out, [dst]);
    BytesOne(dst);
    Moved(before, dst.Text(), src.Text(), rest);
    input' := if src.Size() == 0 then input[1..] else input;
    TextLength(dst);
    TextLength(src);
  }

  lemma TextLength(b: Buf)
    requires b.Sound() && b.kind != Special
    ensures |b.Text()| == b.Size() && b.Size() == b.last - b.pos
  {
  }

  lemma Moved(before: seq<Token>, taken: seq<Token>, text: seq<Token>, rest: seq<Token>)
    ensures before + (taken + text + rest) == before + taken + (text + rest)
    ensures text == [] ==> text + rest == rest
  {
  }

  /** A call of the filter moves only positions, in what it held and what it is given. */
  method CallApart(filter: Filter, out: seq<Buf>, ghost input: seq<Buf>, ghost free: seq<Buf>, ghost busy: seq<Buf>)
    returns (rc: Status)
    requires Apart(filter.pending, input, free, busy, out)
    requires filter.inTemp ==> forall b :: b in out ==> b.kind != ReadOnly
    modifies filter, set b | b in filter.pending + out :: b`pos
    ensures Apart(filter.pending, input, free, busy + out, [])
    ensures filter.sent + Bytes(filter.pending) == old(filter.sent) + old(Bytes(filter.pending)) + old(Bytes(out))
    ensures Bytes(input) == old(Bytes(input))
    ensures (forall b :: b in filter.pending ==> b in old(filter.pending) || b in out)
  {
    ghost var pending := filter.pending;
    assert forall b :: b in input ==> b !in pending && b !in out;
    assert forall b :: b in free ==> b !in pending && b !in out;
    BusyOnce(busy, out);
    hide NoDup, PooledOnce, Bytes;
    rc := filter.Call(out);
    assert Waiting(input) && Idle(free);
    assert AllSound(busy + out);
    NoneLeaving();
  }

  lemma ApartBusy(pending: seq<Buf>, input: seq<Buf>, free: seq<Buf>, busy: seq<Buf>, out: seq<Buf>)
    requires Apart(pending, input, free, busy + out, [])
    ensures Apart(pending, input, free, busy, [])
  {
    var all := busy + out;
    forall j, k | 0 <= j < k < |busy| && busy[j].pooled ensures busy[j] != busy[k] {
      assert all[j] == busy[j] && all[k] == busy[k];
    }
  }

  method EmptyOut(b: Buf, ghost pending: seq<Buf>, ghost input: seq<Buf>, ghost free: seq<Buf>, ghost busy: seq<Buf>)
    requires Apart(pending, input, free, busy, []) && b.Sound() && b.pooled
    requires b !in pending && b !in input && b !in free && b !in busy && NoDup([b] + free)
    modifies b`pos, b`last
    ensures Apart(pending, input, [b] + free, busy, []) && Bytes(pending) == old(Bytes(pending))
    ensures Bytes(input) == old(Bytes(input))
  {
    hide NoDup, Bytes, PooledOnce;
    b.pos, b.last := 0, 0;
    assert Idle([b] + free);
  }

  /** An exhausted buffer of the chain is held by nobody: not by the filter, which still holds something
    * of each it holds, and not a second time by the busy list. */
  lemma RecycleApart(pending: seq<Buf>, input: seq<Buf>, free: seq<Buf>, busy: seq<Buf>)
    requires Apart(pending, input, free, busy, []) && busy != [] && busy[0].Size() == 0
    ensures Apart(pending, input, free, busy[1..], [])
    ensures busy[0].Sound()
    ensures busy[0].pooled ==>
      busy[0] !in pending && busy[0] !in input && busy[0] !in free && busy[0] !in busy[1..] && NoDup([busy[0]] + free)
  {
    var b, rest := busy[0], busy[1..];
    assert b in busy && b.Sound();
    forall j, k | 0 <= j < k < |rest| && rest[j].pooled ensures rest[j] != rest[k] {
      assert rest[j] == busy[j + 1] && rest[k] == busy[k + 1];
    }
    if b.pooled {
      forall k | 0 <= k < |rest| ensures rest[k] != b { assert rest[k] == busy[k + 1]; }
    }
  }

  lemma Direct(sent: seq<Token>, held: seq<Token>, more: seq<Token>)
    ensures Join(sent, held, [], []) + more == Join(sent, held, more, [])
  {
  }

  lemma JoinSubmitted(sent: seq<Token>, held: seq<Token>, o: seq<Token>, i: seq<Token>, more: seq<Token>)
    ensures Join(sent, held, o, i) + more == Join(sent, held, o, i + more)
  {
  }

  lemma Spelled(sent: seq<Token>, held: seq<Token>, waiting: seq<Token>)
    ensures Join(sent, held, [], waiting) == sent + held + waiting
  {
  }

  /** New buffers of a caller may wait behind the others, or go out at once. */
  lemma SubmitApart(pending: seq<Buf>, input: seq<Buf>, free: seq<Buf>, busy: seq<Buf>, more: seq<Buf>)
    requires Apart(pending, input, free, busy, []) && Waiting(more) && Disjoint(more, input) && Disjoint(more, pending)
    ensures Apart(pending, input + more, free, busy, []) && Apart(pending, input, free, busy, more)
  {
    Appended(input, more);
  }

  class Chain {
    const num: nat
    const size: nat
    const needInTemp: bool
    const filter: Filter
    var input: seq<Buf>
    var free: seq<Buf>
    var busy: seq<Buf>
    var made: nat
    ghost var submitted: seq<Token>

    /** Nothing is confused between two operations; out is what is being gathered for the filter. */
    ghost predicate Ready(out: seq<Buf>)
      reads this, filter, input, free, busy, filter.pending, out
    {
      && size > 0 && made <= num && Apart(filter.pending, input, free, busy, out)
      && (filter.inTemp ==> needInTemp)
    }

    /** A filter that needs to write gets no buffer that is read-only. */
    predicate Fit(out: seq<Buf>) {
      needInTemp ==> forall b :: b in out ==> b.kind != ReadOnly
    }

    /** The first waiting buffer has to be copied. */
    predicate Blocked()
      reads this, input
    {
      input != [] && input[0].Size() > 0 && needInTemp && input[0].kind == ReadOnly
    }

    /** What was sent, what the filter holds, what is on its way to the filter and what waits make up
      * what was submitted. */
    ghost predicate Stream(out: seq<Buf>)
      reads this, filter, input, filter.pending, out
    {
      Join(filter.sent, Bytes(filter.pending), Bytes(out), Bytes(input)) == submitted
    }

    ghost predicate Valid()
      reads this, filter, input, free, busy, filter.pending
    {
      Ready([]) && Stream([])
    }

    ghost function Measure(): nat
      reads this, input
    {
      |Bytes(input)| + |input|
    }

    constructor (num: nat, size: nat, needInTemp: bool, filter: Filter)
      requires size > 0 && filter.Holds() && (filter.inTemp ==> needInTemp)
      ensures Valid() && this.filter == filter && submitted == filter.sent + Bytes(filter.pending)
    {
      this.num, this.size, this.needInTemp, this.filter := num, size, needInTemp, filter;
      input, free, busy, made := [], [], [], 0;
      submitted := filter.sent + Bytes(filter.pending);
    }

    /** ngx_output_chain_as_is, for buffers in memory. */
    predicate AsIs(b: Buf) {
      b.kind == Special || !(needInTemp && b.kind == ReadOnly)
    }

    /** The first waiting buffer is dropped when it is empty, or passed on as it is. */
    method PassOn(out: seq<Buf>) returns (out': seq<Buf>)
      requires Ready(out) && Stream(out) && input != []
      requires Fit(out) && ((input[0].Size() == 0 && input[0].kind != Special) || AsIs(input[0]))
      modifies `input
      ensures Fit(out') && Ready(out') && Stream(out') && Measure() < old(Measure())
      ensures (forall b :: b in input ==> b in old(input)) && (forall b :: b in out' ==> b in out || b in old(input))
    {
      hide Bytes, Apart, Join;
      var b := input[0];
      ApartPass(filter.pending, input, free, busy, out);
      TextPass(filter.sent, Bytes(filter.pending), out, input);
      out' := if b.Size() == 0 && b.kind != Special then out else out + [b];
      input := input[1..];
    }

    /** ngx_output_chain_get_buf: a new buffer of the configured size, or of the size of the last one. */
    method GetBuf(src: Buf) returns (b: Buf)
      requires size > 0 && src.Sound() && src.Size() > 0
      ensures fresh(b) && b.Sound() && b.pooled && b.pos == 0 && b.last == 0
      ensures !src.lastInChain ==> |b.data| == size
      ensures src.lastInChain ==>
        |b.data| == if src.Size() < size || (num == 1 && src.Size() - size < size / 4) then src.Size() else size
    {
      var bsize, room := src.Size(), size;
      if src.lastInChain {
        if bsize < room {
          room := bsize;
        } else if num == 1 && bsize < room + room / 4 {
          room := bsize;
        }
      }
      b := new Buf.Pooled(seq(room, _ => '\0'));
    }

    /** A free buffer, or a new one while nothing is on its way and not all have been made. */
    method PickBuf(src: Buf, out: seq<Buf>) returns (dst: Buf?)
      requires Ready(out) && src.Sound() && src.Size() > 0
      modifies `free, `made
      ensures Ready(out)
      ensures dst == null ==> (out != [] || (made == num && free == [])) && free == old(free) && made == old(made)
      ensures dst != null ==> Loose(filter.pending, input, free, busy, out, dst) && dst.Sound() && dst.pooled
      ensures dst != null && !fresh(dst) ==> dst in old(free)
      ensures (forall b :: b in free ==> b in old(free))
    {
      if free != [] {
        ApartTake(filter.pending, input, free, busy, out);
        dst, free := free[0], free[1..];
      } else if out != [] || made == num {
        dst := null;
      } else {
        dst := GetBuf(src);
        made := made + 1;
      }
    }

    lemma FitOn(out: seq<Buf>, dst: Buf)
      requires Fit(out) && dst.Sound() && dst.pooled
      ensures Fit(out + [dst])
    {
    }

    method MoveInto(src: Buf, dst: Buf, out: seq<Buf>)
      requires Ready(out) && Stream(out) && input != [] && src == input[0] && src.Size() > 0
      requires Loose(filter.pending, input, free, busy, out, dst)
      modifies `input, src`pos, dst`data, dst`last
      ensures Ready(out + [dst]) && Stream(out + [dst]) && Measure() < old(Measure())
      ensures (forall b :: b in input ==> b in old(input))
    {
      hide Apart, Bytes, Join, Waiting, Idle, Leaving, Disjoint, AllSound, NoDup, Loose;
      ApartPass(filter.pending, input, free, busy, out);
      ghost var held, leaving, waiting := Bytes(filter.pending), Bytes(out), Bytes(input);
      var rest := Transfer(src, dst, filter.pending, input, free, busy, out);
      JoinMoved(filter.sent, held, leaving, waiting, Bytes(out + [dst]), Bytes(rest));
      input := rest;
    }

    /** Copies from the first waiting buffer into a free or a new one; stops when there is none to be had. */
    method CopyOn(out: seq<Buf>) returns (out': seq<Buf>, stop: bool)
      requires Fit(out) && Ready(out) && Stream(out) && input != [] && input[0].Size() > 0
      modifies `input, `free, `made, set b | b in input ::
        b`pos, set b | b in free :: b`data, set b | b in free :: b`last
      ensures Fit(out') && Ready(out') && Stream(out')
      ensures (forall b :: b in input ==> b in old(input)) && (forall b :: b in free ==> b in old(free))
      ensures stop ==> out' == out && Measure() == old(Measure()) && (out != [] || (made == num && free == []))
      ensures stop ==> input == old(input) && input[0].Size() > 0
      ensures !stop ==> Measure() < old(Measure()) && out' != []
      ensures forall b :: b in out' ==> b in out || b in old(free) || fresh(b)
    {
      hide Apart, Bytes, Join, Waiting, Idle, Leaving, Disjoint, AllSound, NoDup, Loose, Fit;
      var src := input[0];
      ApartPass(filter.pending, input, free, busy, out);
      var dst := PickBuf(src, out);
      if dst == null {
        out', stop := out, true;
      } else {
        assert src in old(input);
        FitOn(out, dst);
        MoveInto(src, dst, out);
        out', stop := out + [dst], false;
      }
    }

    /** The inner loop: gathers what can go to the filter now. */
    method Gather() returns (out: seq<Buf>)
      requires Valid()
      modifies `input, `free, `made, set b | b in input ::
        b`pos, set b | b in free :: b`data, set b | b in free :: b`last
      ensures Fit(out) && Ready(out) && Stream(out)
      ensures Measure() <= old(Measure()) && (out != [] ==> Measure() < old(Measure()))
      ensures (forall b :: b in input ==> b in old(input)) && (forall b :: b in free ==> b in old(free))
      ensures out == [] ==> input == [] || (made == num && free == [] && Blocked())
      ensures forall b :: b in out ==> b in old(input) || b in old(free) || fresh(b)
    {
      hide Apart, Bytes, Join, Waiting, Idle, Leaving, Disjoint, AllSound, NoDup, Loose;
      out := [];
      while input != []
        invariant Fit(out) && Ready(out) && Stream(out)
        invariant Measure() <= old(Measure()) && (out != [] ==> Measure() < old(Measure()))
        invariant (forall b :: b in input ==> b in old(input)) && (forall b :: b in free ==> b in old(free))
        invariant forall b :: b in out ==> b in old(input) || b in old(free) || fresh(b)
        decreases Measure()
      {
        if (input[0].Size() == 0 && input[0].kind != Special) || AsIs(input[0]) {
          out := PassOn(out);
        } else {
          SpecialEmpty(out);
          var stop;
          out, stop := CopyOn(out);
          if stop { return; }
        }
      }
    }

    lemma SpecialEmpty(out: seq<Buf>)
      requires Ready(out) && input != [] && !AsIs(input[0]) && (input[0].Size() != 0 || input[0].kind == Special)
      ensures input[0].Size() > 0
    {
    }

    /** The call of the filter. */
    method HandOver(out: seq<Buf>) returns (rc: Status)
      requires Fit(out) && Ready(out) && Stream(out)
      modifies filter, set b | b in filter.pending + out :: b`pos
      ensures Valid() && Apart(filter.pending, input, free, busy + out, [])
      ensures Bytes(input) == old(Bytes(input))
      ensures (forall b :: b in filter.pending ==> b in old(filter.pending) || b in out)
    {
      hide Apart, Bytes, Join, Waiting, Idle, Leaving, Disjoint, AllSound, NoDup, PooledOnce;
      ghost var held, leaving, waiting, sent := Bytes(filter.pending), Bytes(out), Bytes(input), filter.sent;
      rc := CallApart(filter, out, input, free, busy);
      NoneLeaving();
      JoinCalled(sent, held, leaving, waiting, filter.sent, Bytes(filter.pending));
      ApartBusy(filter.pending, input, free, busy, out);
    }

    /** The head of the busy list, with nothing left in it, is forgotten, or emptied for another use. */
    method RecycleHead(b: Buf)
      requires Valid() && busy != [] && b == busy[0] && b.Size() == 0
      modifies `busy, `free, b`pos, b`last
      ensures Valid() && busy == old(busy)[1..] && Bytes(input) == old(Bytes(input))
      ensures forall f :: f in free ==> f in old(free) || f == b
    {
      hide Apart, Bytes, Join, Waiting, Idle, Leaving, Disjoint, AllSound, NoDup, PooledOnce;
      RecycleApart(filter.pending, input, free, busy);
      busy := busy[1..];
      if b.pooled {
        EmptyOut(b, filter.pending, input, free, busy);
        free := [b] + free;
      }
    }

    /** ngx_chain_update_chains. */
    method UpdateChains(out: seq<Buf>)
      requires Valid() && Apart(filter.pending, input, free, busy + out, [])
      modifies `busy, `free, set b | b in busy + out :: b`pos, set b | b in busy + out :: b`last
      ensures Valid() && Bytes(input) == old(Bytes(input))
      ensures busy == [] || busy[0].Size() > 0
      ensures (forall b :: b in busy ==> b in old(busy) || b in out)
      ensures (forall b :: b in free ==> b in old(free) || b in old(busy) || b in out)
    {
      hide Apart, Bytes, Join, Waiting, Idle, Leaving, Disjoint, AllSound, NoDup, PooledOnce;
      busy := busy + out;
      ghost var all, k := busy, 0;
      while busy != [] && busy[0].Size() == 0
        invariant Valid() && 0 <= k <= |all| && busy == all[k..] && Bytes(input) == old(Bytes(input))
        invariant (forall b :: b in free ==> b in old(free) || b in all)
        decreases |busy|
      {
        assert busy[0] == all[k] && busy[0] in all;
        RecycleHead(busy[0]);
        k := k + 1;
      }
    }

    /** The buffers of all lists. */
    ghost function Reach(): set<object>
      reads this, filter
    {
      {this, filter} + (set b | b in input) + (set b | b in free) + (set b | b in busy) + (set b | b in filter.pending)
    }

    ghost predicate Within(world: set<object>)
      reads this, filter
    {
      && this in world && filter in world
      && (forall b :: b in input ==> b in world) && (forall b :: b in free ==> b in world)
      && (forall b :: b in busy ==> b in world) && (forall b :: b in filter.pending ==> b in world)
    }

    lemma InReach(world: set<object>)
      requires Within(world)
      ensures Reach() <= world
    {
    }

    method GatherWithin(ghost world: set<object>) returns (out: seq<Buf>, ghost news: set<object>)
      requires Valid() && Within(world)
      modifies world
      ensures Fit(out) && Ready(out) && Stream(out) && submitted == old(submitted)
      ensures Measure() <= old(Measure()) && (out != [] ==> Measure() < old(Measure()))
      ensures out == [] ==> input == [] || (made == num && free == [] && Blocked())
      ensures fresh(news) && Within(world + news) && forall b :: b in out ==> b in world + news
    {
      hide Apart, Bytes, Join, Ready, Stream, Measure;
      out := Gather();
      news := set b | b in out && b !in world;
    }

    method HandOverWithin(out: seq<Buf>, ghost world: set<object>) returns (rc: Status)
      requires Fit(out) && Ready(out) && Stream(out) && Within(world) && forall b :: b in out ==> b in world
      modifies world
      ensures Valid() && Apart(filter.pending, input, free, busy + out, []) && Within(world)
      ensures Measure() == old(Measure()) && submitted == old(submitted) && input == old(input)
    {
      hide Apart, Bytes, Join, Ready, Stream;
      rc := HandOver(out);
    }

    method UpdateWithin(out: seq<Buf>, ghost world: set<object>)
      requires Valid() && Apart(filter.pending, input, free, busy + out, []) && Within(world)
      requires forall b :: b in out ==> b in world
      modifies world
      ensures Valid() && Within(world) && Measure() == old(Measure()) && submitted == old(submitted)
        && input == old(input)
    {
      hide Apart, Bytes, Join, Ready, Stream;
      UpdateChains(out);
    }

    /** The loop of ngx_output_chain, once the submitted buffers wait in the chain. */
    method Pump(ghost mine: set<object>) returns (rc: Status)
      requires Valid() && Within(mine)
      modifies mine
      ensures Valid() && submitted == old(submitted) && fresh(Reach() - mine)
      ensures input != [] && rc != ERROR && rc != DONE ==> made == num && free == [] && rc == AGAIN && Blocked()
    {
      hide Apart, Bytes, Join, Ready, Stream, Measure, Within, Reach;
      ghost var world, news: set<object> := mine, {};
      var status: Option<Status> := None;
      while true
        invariant Valid() && submitted == old(submitted) && Within(world) && world == mine + news && fresh(news)
        decreases Measure(), if status == None then 1 else 0
      {
        var out;
        ghost var more;
        out, more := GatherWithin(world);
        news := news + more;
        world := world + more;
        if out == [] && status != None {
          InReach(world);
          return if input != [] then AGAIN else status.value;
        }
        rc := HandOverWithin(out, world);
        if rc == ERROR || rc == DONE {
          InReach(world);
          return;
        }
        UpdateWithin(out, world);
        status := Some(rc);
      }
    }

    /** ngx_output_chain: whatever the filter does, what it sent, what it holds and what waits here are
      * together, in order, all that was ever submitted. */
    method Output(more: seq<Buf>) returns (rc: Status)
      requires Valid() && Waiting(more) && Disjoint(more, input) && Disjoint(more, filter.pending)
      modifies Reach(), set b | b in more
      ensures Valid() && submitted == old(submitted) + old(Bytes(more))
      ensures filter.sent + Bytes(filter.pending) + Bytes(input) == submitted
      ensures fresh(Reach() - old(Reach()) - (set b | b in more))
      ensures input != [] && rc != ERROR && rc != DONE ==> made == num && free == [] && rc == AGAIN && Blocked()
    {
      hide Apart, Waiting, Idle, Leaving, Disjoint, AllSound, NoDup, PooledOnce, Bytes, Join;
      SubmitApart(filter.pending, input, free, busy, more);
      if input == [] && busy == [] && (more == [] || (|more| == 1 && AsIs(more[0]))) {
        rc := Straight(more);
      } else {
        AddCopy(more);
        rc := Pump(old(Reach()) + (set b | b in more));
      }
      NoneLeaving();
      Spelled(filter.sent, Bytes(filter.pending), Bytes(input));
    }

    /** Any number of calls: what all of them submitted has been sent, or is held or waiting, in order. */
    method Feed(calls: seq<seq<Buf>>)
      requires Valid() && Waiting(Flat(calls)) && forall b :: b in Flat(calls) ==> b !in Reach()
      modifies Reach(), set b | b in Flat(calls)
      ensures Valid() && submitted == old(submitted) + old(Bytes(Flat(calls)))
      ensures filter.sent + Bytes(filter.pending) + Bytes(input) == submitted
      ensures input == [] && filter.pending == [] ==> filter.sent == submitted
      decreases |calls|
    {
      hide Apart, Waiting, Bytes, Join;
      NoneLeaving();
      if calls == [] {
        Spelled(filter.sent, Bytes(filter.pending), Bytes(input));
      } else {
        ghost var rest := Flat(calls[1..]);
        WaitingParts(calls[0], rest);
        assert forall b :: b in calls[0] || b in rest ==> b in Flat(calls);
        assert forall b :: b in input + filter.pending ==> b in Reach();
        BytesConcat(calls[0], rest);
        Assoc(submitted, Bytes(calls[0]), Bytes(rest));
        var rc := Output(calls[0]);
        Feed(calls[1..]);
      }
    }

    /** The short path: nothing waits and nothing is out, so the filter is called at once. */
    method Straight(more: seq<Buf>) returns (rc: Status)
      requires Valid() && input == [] && Apart(filter.pending, input, free, busy, more) && Fit(more)
      modifies this, filter, set b | b in filter.pending + more :: b`pos
      ensures Valid() && submitted == old(submitted) + old(Bytes(more)) && input == []
      ensures Reach() <= old(Reach()) + (set b | b in more)
    {
      hide Apart, Bytes, Join;
      NoneLeaving();
      Direct(filter.sent, Bytes(filter.pending), Bytes(more));
      submitted := submitted + Bytes(more);
      rc := HandOver(more);
    }

    /** ngx_output_chain_add_copy. */
    method AddCopy(more: seq<Buf>)
      requires Valid() && Apart(filter.pending, input + more, free, busy, [])
      modifies `input, `submitted
      ensures Valid() && input == old(input) + more && submitted == old(submitted) + Bytes(more)
    {
      hide Apart, Bytes, Join;
      BytesConcat(input, more);
      JoinSubmitted(filter.sent, Bytes(filter.pending), Bytes([]), Bytes(input), Bytes(more));
      input := input + more;
      submitted := submitted + Bytes(more);
    }
  }

  function Flat(calls: seq<seq<Buf>>): seq<Buf> {
    if calls == [] then [] else calls[0] + Flat(calls[1..])
  }

  lemma WaitingParts(s: seq<Buf>, t: seq<Buf>)
    requires Waiting(s + t)
    ensures Waiting(s) && Waiting(t) && Disjoint(t, s)
  {
    forall b | b in s ensures b in s + t {}
    forall b | b in t ensures b in s + t {}
    assert forall i :: 0 <= i < |s| ==> (s + t)[i] == s[i];
    assert forall i :: 0 <= i < |t| ==> (s + t)[|s| + i] == t[i];
    forall b | b in t ensures b !in s {
      var i :| 0 <= i < |t| && t[i] == b;
      assert (s + t)[|s| + i] == b;
    }
  }

  /** Passing the first waiting buffer on, or dropping it when it is empty, leaves the stream as it is. */
  lemma TextPass(sent: seq<Token>, held: seq<Token>, out: seq<Buf>, input: seq<Buf>)
    requires input != [] && input[0].Sound()
    ensures var b, rest := input[0], input[1..];
      && Join(sent, held, Bytes(out + [b]), Bytes(rest)) == Join(sent, held, Bytes(out), Bytes(input))
      && (b.Size() == 0 && b.kind != Special ==>
           Join(sent, held, Bytes(out), Bytes(rest)) == Join(sent, held, Bytes(out), Bytes(input)))
      && |Bytes(rest)| <= |Bytes(input)|
  {
    var b, rest := input[0], input[1..];
    BytesCons(input);
    BytesConcat(out, [b]);
    BytesOne(b);
    hide Bytes, Join;
    Assoc(Bytes(out), b.Text(), Bytes(rest));
    JoinMoved(sent, held, Bytes(out), Bytes(input), Bytes(out + [b]), Bytes(rest));
    Split([], [], b.Text(), Bytes(rest));
  }

  ghost predicate PooledOnce(s: seq<Buf>) {
    forall j, k :: 0 <= j < k < |s| && s[j].pooled ==> s[j] != s[k]
  }
}
