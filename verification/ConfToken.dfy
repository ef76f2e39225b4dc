/** The configuration tokenizer: a character automaton that reads a file through a sliding buffer, against
  * the same automaton run over the whole file at once. */
module ConfToken {
  import opened Wrappers

  const BUFFER: nat := 4096

  datatype Result =
    | Ok | BlockStart | BlockDone | FileDone
    | Unexpected(ch: char) | UnexpectedEnd | TooLong

  /** The flag variables of ngx_conf_read_token; found is never set between two characters. */
  datatype Flags = Flags(needSpace: bool, lastSpace: bool, comment: bool, variable: bool,
                         quoted: bool, sQuoted: bool, dQuoted: bool)

  /** What a character makes the tokenizer do: go on; note where a token starts (skipping its quote);
    * push the word that ends before it, and perhaps return; or return. */
  datatype Act =
    | Keep(flags: Flags)
    | Begin(flags: Flags, skip: nat)
    | EndWord(flags: Flags, result: Option<Result>)
    | Halt(code: Result)

  predicate IsSpace(ch: char) {
    ch == ' ' || ch == '\t' || ch == '\r' || ch == '\n'
  }

  function Step(f: Flags, ch: char, nargs: nat): Act {
    var f := if ch == '\n' then f.(comment := false) else f;
    if f.comment then Keep(f)
    else if f.quoted then Keep(f.(quoted := false))
    else if !f.needSpace then Inner(f, ch, nargs)
    else if IsSpace(ch) then Keep(f.(lastSpace := true, needSpace := false))
    else if ch == ';' then Halt(Ok)
    else if ch == '{' then Halt(BlockStart)
    else if ch == ')' then Inner(f.(lastSpace := true, needSpace := false), ch, nargs)
    else Halt(Unexpected(ch))
  }

  function Inner(f: Flags, ch: char, nargs: nat): Act {
    if f.lastSpace then
      if IsSpace(ch) then Keep(f)
      else if ch == ';' || ch == '{' then
        if nargs == 0 then Halt(Unexpected(ch)) else Halt(if ch == '{' then BlockStart else Ok)
      else if ch == '}' then
        if nargs != 0 then Halt(Unexpected(ch)) else Halt(BlockDone)
      else if ch == '#' then Begin(f.(comment := true), 0)
      else if ch == '\\' then Begin(f.(quoted := true, lastSpace := false), 0)
      else if ch == '"' then Begin(f.(dQuoted := true, lastSpace := false), 1)
      else if ch == '\'' then Begin(f.(sQuoted := true, lastSpace := false), 1)
      else Begin(f.(lastSpace := false), 0)
    else if ch == '{' && f.variable then Keep(f)
    else
      var f := f.(variable := false);
      if ch == '\\' then Keep(f.(quoted := true))
      else if ch == '$' then Keep(f.(variable := true))
      else if f.dQuoted then
        if ch == '"' then EndWord(f.(dQuoted := false, needSpace := true), None) else Keep(f)
      else if f.sQuoted then
        if ch == '\'' then EndWord(f.(sQuoted := false, needSpace := true), None) else Keep(f)
      else if IsSpace(ch) || ch == ';' || ch == '{' then
        EndWord(f.(lastSpace := true), if ch == ';' then Some(Ok) else if ch == '{' then Some(BlockStart) else None)
      else Keep(f)
  }

  // ---------------------------------------------------------------- words

  /** The character that the text spells at k, and how many characters that takes. */
  function Spelling(text: seq<char>, k: nat): (r: (char, nat))
    requires k + 1 < |text|
    ensures 1 <= r.1 <= 2
  {
    if text[k] != '\\' then (text[k], 1)
    else match text[k + 1]
      case '"' => ('"', 2)
      case '\'' => ('\'', 2)
      case '\\' => ('\\', 2)
      case 't' => ('\t', 2)
      case 'r' => ('\r', 2)
      case 'n' => ('\n', 2)
      case _ => (text[k], 1)
  }

  /** The word spelled by text from k up to, but not including, its last character. */
  function Spelled(text: seq<char>, k: nat): seq<char>
    decreases |text| - k
  {
    if k + 1 >= |text| then []
    else var (ch, n) := Spelling(text, k); [ch] + Spelled(text, k + n)
  }

  /** The copying loop of ngx_conf_read_token. */
  method CopyWord(text: seq<char>) returns (word: seq<char>)
    ensures word == Spelled(text, 0)
  {
    hide Spelled;
    SpelledEnd(text);
    word := [];
    var src: nat := 0;
    assert word + Spelled(text, 0) == Spelled(text, 0);
    while src + 1 < |text|
      invariant word + Spelled(text, src) == Spelled(text, 0)
      decreases |text| - src
    {
      SpelledStep(text, word, src);
      if text[src] == '\\' && text[src + 1] == 't' {
        word, src := word + ['\t'], src + 2;
      } else if text[src] == '\\' && text[src + 1] == 'r' {
        word, src := word + ['\r'], src + 2;
      } else if text[src] == '\\' && text[src + 1] == 'n' {
        word, src := word + ['\n'], src + 2;
      } else {
        if text[src] == '\\' && (text[src + 1] == '"' || text[src + 1] == '\'' || text[src + 1] == '\\') {
          src := src + 1;
        }
        word, src := word + [text[src]], src + 1;
      }
    }
    assert word + [] == word;
  }

  lemma SpelledStep(text: seq<char>, word: seq<char>, k: nat)
    requires k + 1 < |text|
    ensures var (ch, n) := Spelling(text, k); word + Spelled(text, k) == word + [ch] + Spelled(text, k + n)
  {
  }

  lemma SpelledEnd(text: seq<char>)
    ensures forall k: nat :: k + 1 >= |text| ==> Spelled(text, k) == []
  {
  }

  // ---------------------------------------------------------------- the whole file at once

  datatype Scan = Scan(flags: Flags, start: nat, line: nat, startLine: nat, args: seq<seq<char>>)

  /** The state in which a token is looked for at position i. */
  function Fresh(i: nat, line: nat): Scan {
    Scan(Flags(false, true, false, false, false, false, false), i, line, line, [])
  }

  /** One character, at position i of the file. */
  function Feed(file: seq<char>, s: Scan, i: nat): (r: (Scan, Option<Result>))
    requires i < |file| && s.start <= i
    ensures r.0.start <= i + 1
  {
    var line := if file[i] == '\n' then s.line + 1 else s.line;
    match Step(s.flags, file[i], |s.args|)
    case Keep(f) => (s.(flags := f, line := line), None)
    case Begin(f, skip) => (Scan(f, i + (if skip == 0 then 0 else 1), line, line, s.args), None)
    case EndWord(f, result) => (s.(flags := f, line := line, args := s.args + [Spelled(file[s.start..i + 1], 0)]),
      result)
    case Halt(code) => (s.(line := line), Some(code))
  }

  datatype Token = Token(result: Result, args: seq<seq<char>>, line: nat, end: nat)

  /** The automaton run from position i to its end. */
  function Whole(file: seq<char>, s: Scan, i: nat): Token
    requires s.start <= i <= |file|
    decreases |file| - i
  {
    if i == |file| then Token(if s.args == [] then FileDone else UnexpectedEnd, s.args, s.line, i)
    else
      var (next, result) := Feed(file, s, i);
      if result.Some? then Token(result.value, next.args, next.line, i + 1) else Whole(file, next, i + 1)
  }

  /** The state of the automaton at position j, when it gets there. */
  function After(file: seq<char>, s: Scan, i: nat, j: nat): Option<Scan>
    requires s.start <= i <= j <= |file|
    decreases j - i
  {
    if i == j then Some(s)
    else
      var (next, result) := Feed(file, s, i);
      if result.Some? then None else After(file, next, i + 1, j)
  }

  lemma {:induction false} AfterStep(file: seq<char>, s: Scan, i: nat, j: nat)
    requires s.start <= i <= j < |file| && After(file, s, i, j).Some?
    ensures var t := After(file, s, i, j).value;
      && t.start <= j
      && After(file, s, i, j + 1) == (var (next, result) := Feed(file, t, j); if result.Some? then None else Some(next))
    decreases j - i
  {
    var (next, result) := Feed(file, s, i);
    if i < j {
      AfterStep(file, next, i + 1, j);
    } else {
      assert result.None? ==> After(file, next, i + 1, i + 1) == Some(next);
    }
  }

  /** Only the buffer makes a parameter too long. */
  lemma FeedNotTooLong(file: seq<char>, s: Scan, i: nat)
    requires i < |file| && s.start <= i
    ensures Feed(file, s, i).1 != Some(TooLong)
  {
  }

  lemma AfterNow(file: seq<char>, s: Scan, i: nat)
    requires s.start <= i <= |file|
    ensures After(file, s, i, i) == Some(s)
  {
  }

  lemma WholeStep(file: seq<char>, t: Scan, j: nat)
    requires t.start <= j <= |file|
    ensures j == |file| ==>
      Whole(file, t, j) == Token(if t.args == [] then FileDone else UnexpectedEnd, t.args, t.line, j)
    ensures j < |file| ==> (var (next, result) := Feed(file, t, j);
      Whole(file, t, j) == if result.Some? then Token(result.value, next.args, next.line, j + 1)
        else Whole(file, next, j + 1))
  {
  }

  /** s is the state of the automaton, started at from, once it has come to position i. */
  ghost predicate Tracks(file: seq<char>, from: nat, line: nat, s: Scan, i: nat) {
    && s.start <= i && from <= i <= |file|
    && After(file, Fresh(from, line), from, i) == Some(s)
    && Whole(file, s, i) == Whole(file, Fresh(from, line), from)
  }

  lemma TrackStart(file: seq<char>, from: nat, line: nat)
    requires from <= |file|
    ensures Tracks(file, from, line, Fresh(from, line), from)
  {
    AfterNow(file, Fresh(from, line), from);
  }

  lemma TrackStep(file: seq<char>, from: nat, line: nat, s: Scan, i: nat)
    requires Tracks(file, from, line, s, i) && i < |file|
    ensures s.start <= i
    ensures var (next, result) := Feed(file, s, i);
      if result.Some? then Whole(file, Fresh(from, line), from) == Token(result.value, next.args, next.line, i + 1)
      else Tracks(file, from, line, next, i + 1)
  {
    AfterStep(file, Fresh(from, line), from, i);
    WholeStep(file, s, i);
  }

  lemma TrackEnd(file: seq<char>, from: nat, line: nat, s: Scan)
    requires Tracks(file, from, line, s, |file|)
    ensures Whole(file, Fresh(from, line), from) == Token(if s.args == [] then FileDone
      else UnexpectedEnd, s.args, s.line, |file|)
  {
    WholeStep(file, s, |file|);
  }

  /** Position j is reached without an outcome, a whole buffer after the place where the last token began,
    * and the file goes on. */
  ghost predicate Stuck(file: seq<char>, from: nat, line: nat, j: nat) {
    && from <= j < |file| && After(file, Fresh(from, line), from, j).Some?
    && j - After(file, Fresh(from, line), from, j).value.start == BUFFER
  }

  lemma StuckHere(file: seq<char>, from: nat, line: nat, s: Scan, j: nat)
    requires Tracks(file, from, line, s, j) && j < |file| && j - s.start == BUFFER
    ensures Stuck(file, from, line, j)
  {
  }

  lemma NotStuckHere(file: seq<char>, from: nat, line: nat, s: Scan, j: nat)
    requires Tracks(file, from, line, s, j) && j - s.start != BUFFER
    ensures !Stuck(file, from, line, j)
  {
  }

  lemma NotStuckPast(file: seq<char>, from: nat, line: nat)
    ensures forall j: nat :: j < from || |file| <= j ==> !Stuck(file, from, line, j)
  {
  }

  lemma {:induction false} AfterJoin(file: seq<char>, s: Scan, i: nat, t: Scan, j: nat, k: nat)
    requires s.start <= i <= j <= k <= |file| && t.start <= j && After(file, s, i, j) == Some(t)
    ensures After(file, s, i, k) == After(file, t, j, k)
    decreases j - i
  {
    if i < j { AfterJoin(file, Feed(file, s, i).0, i + 1, t, j, k); }
  }

  /** Behind the character that ends the run there is nothing to be stuck at. */
  lemma NotStuckBehind(file: seq<char>, from: nat, line: nat, s: Scan, i: nat)
    requires Tracks(file, from, line, s, i) && i < |file| && Feed(file, s, i).1.Some?
    ensures forall j :: i < j ==> !Stuck(file, from, line, j)
  {
    forall j | i < j < |file| ensures !Stuck(file, from, line, j) {
      AfterJoin(file, Fresh(from, line), from, s, i, j);
    }
  }

  // ---------------------------------------------------------------- what passes for too long, and for an end

  /** A character that means nothing special. */
  predicate Plain(ch: char) {
    !IsSpace(ch) && ch !in ";{}#\\\"'$"
  }

  const INSIDE := Flags(false, false, false, false, false, false, false)

  lemma {:induction false} PlainRun(file: seq<char>, s: Scan, i: nat, j: nat)
    requires s.start <= i <= j <= |file| && s.flags == INSIDE && forall k :: i <= k < j ==> Plain(file[k])
    ensures After(file, s, i, j) == Some(s)
    decreases j - i
  {
    if i < j { PlainRun(file, s, i + 1, j); }
  }

  lemma {:induction false} BlankRun(file: seq<char>, s: Scan, i: nat, j: nat)
    requires s.start <= i <= j <= |file| && s.flags == INSIDE.(lastSpace := true) && forall k :: i <= k < j ==>
      file[k] == ' '
    ensures After(file, s, i, j) == Some(s)
    decreases j - i
  {
    if i < j { BlankRun(file, s, i + 1, j); }
  }

  /** A word of any length up to a buffer's and then blanks beyond the buffer: too long a parameter, although
    * the word may be a single letter. */
  lemma BlanksTooLong(file: seq<char>, n: nat, line: nat)
    requires 0 < n < BUFFER < |file| && (forall k :: 0 <= k < n ==> Plain(file[k]))
      && (forall k :: n <= k < BUFFER ==> file[k] == ' ')
    ensures Stuck(file, 0, line, BUFFER)
  {
    var s := Scan(INSIDE, 0, line, line, []);
    assert Feed(file, Fresh(0, line), 0) == (s, None);
    PlainRun(file, s, 1, n);
    var t := Feed(file, s, n).0;
    assert Feed(file, s, n).1 == None && t.flags == INSIDE.(lastSpace := true) && t.start == 0;
    BlankRun(file, t, n + 1, BUFFER);
    AfterJoin(file, s, 1, s, n, BUFFER);
    assert After(file, Fresh(0, line), 0, BUFFER) == After(file, s, 1, BUFFER);
  }

  lemma {:induction false} CommentRun(file: seq<char>, s: Scan, i: nat, j: nat)
    requires s.start <= i <= j <= |file| && s.flags.comment && forall k :: i <= k < j ==> file[k] != '\n'
    ensures After(file, s, i, j) == Some(s)
    decreases j - i
  {
    if i < j { CommentRun(file, s, i + 1, j); }
  }

  /** A comment that does not end within a buffer is too long a parameter as well. */
  lemma CommentTooLong(file: seq<char>, line: nat)
    requires BUFFER < |file| && file[0] == '#' && forall k :: 0 <= k < BUFFER ==> file[k] != '\n'
    ensures Stuck(file, 0, line, BUFFER)
  {
    var s := Feed(file, Fresh(0, line), 0).0;
    CommentRun(file, s, 1, BUFFER);
  }

  /** A regular end of the file is reported exactly when the file ends before any word is completed. */
  lemma {:induction false} DoneExactly(file: seq<char>, s: Scan, i: nat)
    requires s.start <= i <= |file|
    ensures Whole(file, s, i).result == FileDone <==>
      After(file, s, i, |file|).Some? && After(file, s, i, |file|).value.args == []
    decreases |file| - i
  {
    if i < |file| { DoneExactly(file, Feed(file, s, i).0, i + 1); }
  }

  /** So it is in the middle of the first word of a directive. */
  lemma PendingWordIsDone(file: seq<char>, line: nat)
    requires file != [] && forall k :: 0 <= k < |file| ==> Plain(file[k])
    ensures Whole(file, Fresh(0, line), 0).result == FileDone
  {
    var s := Scan(INSIDE, 0, line, line, []);
    assert Feed(file, Fresh(0, line), 0) == (s, None);
    PlainRun(file, s, 1, |file|);
    DoneExactly(file, Fresh(0, line), 0);
  }

  // ---------------------------------------------------------------- how words may be written

  /** A character as it is; one behind a backslash that stands for another, or for itself; one behind a backslash
    * that stays there. */
  datatype Piece = Raw(c: char) | Esc(c: char) | Both(c: char)

  predicate Sane(p: Piece) {
    match p
    case Raw(c) => c != '\\'
    case Esc(c) => c == '"' || c == '\'' || c == '\\' || c == '\t' || c == '\r' || c == '\n'
    case Both(c) => c != '"' && c != '\'' && c != '\\' && c != 't' && c != 'r' && c != 'n'
  }

  function Put(p: Piece): seq<char> {
    match p
    case Raw(c) => [c]
    case Esc(c) => ['\\', if c == '\t' then 't' else if c == '\r' then 'r' else if c == '\n' then 'n' else c]
    case Both(c) => ['\\', c]
  }

  function Meant(p: Piece): seq<char> {
    if p.Both? then ['\\', p.c] else [p.c]
  }

  function Text(w: seq<Piece>): seq<char> {
    if w == [] then [] else Put(w[0]) + Text(w[1..])
  }

  function Value(w: seq<Piece>): seq<char> {
    if w == [] then [] else Meant(w[0]) + Value(w[1..])
  }

  ghost predicate AllSane(w: seq<Piece>) { forall k :: 0 <= k < |w| ==> Sane(w[k]) }

  /** Bare words have no blanks, semicolons or braces of their own; an opening brace may follow a dollar sign,
    * which open says has just been seen. */
  predicate Bare(w: seq<Piece>, open: bool) {
    w == [] || match w[0]
      case Raw(c) => !IsSpace(c) && c != ';' && (c == '{' ==> open) && Bare(w[1..], c == '$' || c == '{')
      case _ => Bare(w[1..], false)
  }

  /** Whether a brace behind the word would belong to it. */
  predicate LeftOpen(w: seq<Piece>, open: bool) {
    if w == [] then open else LeftOpen(w[1..], w[0].Raw? && (w[0].c == '$' || w[0].c == '{'))
  }

  /** The first character of a bare word is none that means something between words; a dollar sign there does
    * not make room for a brace. */
  predicate BareWord(w: seq<Piece>) {
    && w != [] && Bare(w[1..], false)
    && (w[0].Raw? ==> !IsSpace(w[0].c) && w[0].c !in ";{}#\"'")
  }

  /** Between quotes everything may stand but the quote itself. */
  ghost predicate Inside(w: seq<Piece>, mark: char) {
    forall k :: 0 <= k < |w| && w[k].Raw? ==> w[k].c != mark
  }

  datatype Word = Plainly(w: seq<Piece>) | Between(mark: char, w: seq<Piece>)

  ghost predicate Writable(x: Word) {
    && AllSane(x.w)
    && if x.Plainly? then BareWord(x.w) else (x.mark == '"' || x.mark == '\'') && Inside(x.w, x.mark)
  }

  function Written(x: Word): seq<char> {
    if x.Plainly? then Text(x.w) else [x.mark] + Text(x.w) + [x.mark]
  }

  function Lines(t: seq<char>): nat {
    if t == [] then 0 else (if t[0] == '\n' then 1 else 0) + Lines(t[1..])
  }

  lemma {:induction false} LinesAdd(a: seq<char>, b: seq<char>)
    ensures Lines(a + b) == Lines(a) + Lines(b)
  {
    if a == [] {
      assert a + b == b;
    } else {
      assert (a + b)[1..] == a[1..] + b;
      LinesAdd(a[1..], b);
    }
  }

  lemma LinesPut(p: Piece)
    ensures Lines(Put(p)) == if p == Raw('\n') || p == Both('\n') then 1 else 0
  {
    var c := Put(p)[|Put(p)| - 1];
    if !p.Raw? {
      assert Put(p) == ['\\'] + [c];
      LinesAdd(['\\'], [c]);
    }
  }

  /** The file reads t from i to j. */
  predicate Reads(file: seq<char>, i: nat, t: seq<char>, j: nat) {
    i <= j <= |file| && file[i..j] == t
  }

  lemma Cut(file: seq<char>, i: nat, a: seq<char>, b: seq<char>, j: nat) returns (m: nat)
    requires Reads(file, i, a + b, j)
    ensures Reads(file, i, a, m) && Reads(file, m, b, j) && Lines(a + b) == Lines(a) + Lines(b)
  {
    m := i + |a|;
    var t := file[i..j];
    assert t[..|a|] == file[i..m] && t[|a|..] == file[m..j];
    assert (a + b)[..|a|] == a && (a + b)[|a|..] == b;
    LinesAdd(a, b);
  }

  lemma ReadsOne(file: seq<char>, i: nat, c: char, j: nat)
    requires Reads(file, i, [c], j)
    ensures j == i + 1 <= |file| && file[i] == c
  {
    assert file[i] == file[i..j][0];
  }

  /** A written word spells what it means; behind it stands the character that ends it. */
  lemma {:induction false} SpellText(t: seq<char>, k: nat, w: seq<Piece>)
    requires AllSane(w) && t != [] && Reads(t, k, Text(w), |t| - 1)
    ensures Spelled(t, k) == Value(w)
    decreases |w|
  {
    if w != [] {
      var m := Cut(t, k, Put(w[0]), Text(w[1..]), |t| - 1);
      SpellText(t, m, w[1..]);
      SpellPiece(t, k, w[0], m);
    }
  }

  lemma SpellPiece(t: seq<char>, k: nat, p: Piece, m: nat)
    requires Sane(p) && Reads(t, k, Put(p), m) && m < |t|
    ensures Spelled(t, k) == Meant(p) + Spelled(t, m)
  {
    assert t[k] == t[k..m][0];
    if !p.Raw? { assert t[k + 1] == t[k..m][1]; }
    SpelledAt(t, k);
    hide Spelled;
    if p.Both? {
      SpelledAt(t, k + 1);
      assert ['\\'] + ([p.c] + Spelled(t, k + 2)) == ['\\', p.c] + Spelled(t, k + 2);
    }
  }

  lemma SpelledAt(t: seq<char>, k: nat)
    requires k + 1 < |t|
    ensures var (ch, n) := Spelling(t, k); Spelled(t, k) == [ch] + Spelled(t, k + n)
  {
  }

  // ---------------------------------------------------------------- reading what is written

  /** The automaton is at position i in state s, and will end as it would from state t at position j. */
  ghost predicate Leads(file: seq<char>, s: Scan, i: nat, t: Scan, j: nat) {
    s.start <= i <= |file| && t.start <= j <= |file| && Whole(file, s, i) == Whole(file, t, j)
  }

  lemma LeadsOne(file: seq<char>, s: Scan, i: nat)
    requires s.start <= i < |file| && Feed(file, s, i).1.None?
    ensures Leads(file, s, i, Feed(file, s, i).0, i + 1)
  {
    WholeStep(file, s, i);
  }

  lemma LeadsOn(file: seq<char>, s: Scan, i: nat, t: Scan, j: nat, u: Scan, k: nat)
    requires Leads(file, s, i, t, j) && Leads(file, t, j, u, k)
    ensures Leads(file, s, i, u, k)
  {
  }

  lemma LeadsSame(file: seq<char>, s: Scan, i: nat, t: Scan, j: nat)
    requires Leads(file, s, i, t, j)
    ensures s.start <= i <= |file| && t.start <= j <= |file| && Whole(file, s, i) == Whole(file, t, j)
  {
  }

  const BETWEEN := Flags(false, true, false, false, false, false, false)
  const BEHIND := Flags(true, false, false, false, false, false, false)

  /** Within a word, which mark says is quoted; a dollar sign may just have been seen. */
  predicate Within(f: Flags, mark: Option<char>, open: bool) {
    f == Flags(false, false, false, open, false, mark == Some('\''), mark == Some('"'))
  }

  predicate IsMark(mark: Option<char>) { mark == None || mark == Some('"') || mark == Some('\'') }

  /** What a piece does to a word that is being read. */
  lemma ReadPiece(file: seq<char>, s: Scan, i: nat, p: Piece, mark: Option<char>, open: bool, j: nat)
    returns (t: Scan, open': bool)
    requires s.start <= i && Within(s.flags, mark, open) && IsMark(mark) && Sane(p) && Reads(file, i, Put(p), j)
    requires p.Raw? ==>
      if mark.Some? then p.c != mark.value else !IsSpace(p.c) && p.c != ';' && (p.c == '{' ==> open)
    ensures Leads(file, s, i, t, j) && t.start <= j && Within(t.flags, mark, open')
    ensures t == s.(flags := t.flags, line := s.line + Lines(Put(p)))
    ensures mark.None? ==> open' == (p.Raw? && (p.c == '$' || p.c == '{'))
  {
    assert file[i] == file[i..j][0];
    LinesPut(p);
    hide Spelled, Lines, Whole;
    t := Feed(file, s, i).0;
    LeadsOne(file, s, i);
    if p.Raw? {
      open' := t.flags.variable;
    } else {
      assert file[i + 1] == file[i..j][1];
      var u := t;
      t := Feed(file, u, i + 1).0;
      LeadsOne(file, u, i + 1);
      LeadsOn(file, s, i, u, i + 1, t, i + 2);
      open' := false;
    }
  }

  /** The pieces of a word, up to the character that ends it. */
  lemma {:induction false} ReadPieces(file: seq<char>, s: Scan, i: nat, w: seq<Piece>, mark: Option<char>, open: bool,
                                      j: nat)
    returns (t: Scan, open': bool)
    requires s.start <= i && Within(s.flags, mark, open) && IsMark(mark) && AllSane(w) && Reads(file, i, Text(w), j)
    requires if mark.Some? then Inside(w, mark.value) else Bare(w, open)
    ensures Leads(file, s, i, t, j) && t.start <= j && Within(t.flags, mark, open')
    ensures t == s.(flags := t.flags, line := s.line + Lines(Text(w)))
    ensures mark.None? ==> open' == LeftOpen(w, open)
    decreases |w|
  {
    if w == [] {
      t, open' := s, open;
    } else {
      var m := CutText(file, i, w, j);
      hide Within, Text, Feed, Whole, Lines, Sane, IsSpace, IsMark, Reads, Leads, Put;
      var u, mid := ReadPiece(file, s, i, w[0], mark, open, m);
      t, open' := ReadPieces(file, u, m, w[1..], mark, mid, j);
      LeadsOn(file, s, i, u, m, t, j);
    }
  }

  lemma CutText(file: seq<char>, i: nat, w: seq<Piece>, j: nat) returns (m: nat)
    requires w != [] && Reads(file, i, Text(w), j)
    ensures Reads(file, i, Put(w[0]), m) && Reads(file, m, Text(w[1..]), j)
    ensures Lines(Text(w)) == Lines(Put(w[0])) + Lines(Text(w[1..]))
  {
    m := Cut(file, i, Put(w[0]), Text(w[1..]), j);
  }

  /** A bare word, when the automaton stands between words. */
  lemma ReadBare(file: seq<char>, s: Scan, i: nat, w: seq<Piece>, j: nat) returns (t: Scan)
    requires s.start <= i && s.flags == BETWEEN && AllSane(w) && BareWord(w) && Reads(file, i, Text(w), j)
    ensures Leads(file, s, i, t, j) && t.start == i <= j && Within(t.flags, None, LeftOpen(w[1..], false))
    ensures t.args == s.args && t.line == s.line + Lines(Text(w))
  {
    var m := CutText(file, i, w, j);
    assert AllSane(w[1..]);
    hide Within, Text, Feed, Whole, Lines, IsSpace, Reads, Leads, Put, Bare, LeftOpen;
    var u := FirstPiece(file, s, i, w[0], m);
    var open;
    t, open := ReadPieces(file, u, m, w[1..], None, false, j);
    LeadsOn(file, s, i, u, m, t, j);
  }

  /** A quoted word, up to its closing mark. */
  lemma ReadQuoted(file: seq<char>, s: Scan, i: nat, w: seq<Piece>, mark: char, j: nat) returns (t: Scan, open: bool)
    requires s.start <= i && s.flags == BETWEEN && AllSane(w) && Inside(w, mark) && (mark == '"' || mark == '\'')
    requires Reads(file, i, [mark], i + 1) && Reads(file, i + 1, Text(w), j)
    ensures Leads(file, s, i, t, j) && t.start == i + 1 <= j && Within(t.flags, Some(mark), open)
    ensures t.args == s.args && t.line == s.line + Lines(Text(w))
  {
    ReadsOne(file, i, mark, i + 1);
    LeadsOne(file, s, i);
    var u := Feed(file, s, i).0;
    hide Feed, Whole, Lines, Spelled, Reads, Leads;
    t, open := ReadPieces(file, u, i + 1, w, Some(mark), false, j);
    LeadsOn(file, s, i, u, i + 1, t, j);
  }

  lemma FirstPiece(file: seq<char>, s: Scan, i: nat, p: Piece, j: nat) returns (t: Scan)
    requires s.start <= i && s.flags == BETWEEN && Sane(p) && Reads(file, i, Put(p), j)
    requires p.Raw? ==> !IsSpace(p.c) && p.c !in ";{}#\"'"
    ensures Leads(file, s, i, t, j) && Within(t.flags, None, false)
    ensures t.start == i <= j && t.args == s.args && t.line == s.line + Lines(Put(p))
  {
    assert file[i] == file[i..j][0];
    LinesPut(p);
    hide Spelled, Lines, Whole;
    t := Feed(file, s, i).0;
    LeadsOne(file, s, i);
    if !p.Raw? {
      assert file[i + 1] == file[i..j][1];
      var u := t;
      t := Feed(file, u, i + 1).0;
      LeadsOne(file, u, i + 1);
      LeadsOn(file, s, i, u, i + 1, t, i + 2);
    }
  }

  /** What ends a word: a blank, or the end of the directive. */
  predicate Ends(d: char) { IsSpace(d) || d == ';' || d == '{' }

  /** A bare word is complete with the character that ends it. */
  lemma EndBare(file: seq<char>, t: Scan, j: nat, w: seq<Piece>, open: bool, d: char)
    requires AllSane(w) && Reads(file, t.start, Text(w), j)
    requires Within(t.flags, None, open) && (d == '{' ==> !open)
    requires Ends(d) && j < |file| && file[j] == d
    ensures Feed(file, t, j) == (Scan(BETWEEN, t.start, t.line + Lines([d]), t.startLine, t.args + [Value(w)]),
      if d == ';' then Some(Ok) else if d == '{' then Some(BlockStart) else None)
  {
    var text := file[t.start..j + 1];
    assert text[0..|text| - 1] == file[t.start..j];
    SpellText(text, 0, w);
  }

  /** A quoted word is complete with its closing mark. */
  lemma EndQuoted(file: seq<char>, t: Scan, j: nat, w: seq<Piece>, mark: char, open: bool)
    requires AllSane(w) && Reads(file, t.start, Text(w), j)
    requires (mark == '"' || mark == '\'') && Within(t.flags, Some(mark), open)
    requires j < |file| && file[j] == mark
    ensures Feed(file, t, j) == (Scan(BEHIND, t.start, t.line, t.startLine, t.args + [Value(w)]), None)
  {
    var text := file[t.start..j + 1];
    assert text[0..|text| - 1] == file[t.start..j];
    SpellText(text, 0, w);
  }

  /** Behind a quoted word only a blank, the end of the directive or a closing parenthesis may stand; the
    * parenthesis is read as if a blank stood before it. */
  lemma BehindQuotes(file: seq<char>, t: Scan, j: nat)
    requires t.start <= j < |file| && t.flags == BEHIND
    ensures var d := file[j];
      Feed(file, t, j) == if d == ')' then Feed(file, t.(flags := BETWEEN), j)
        else if IsSpace(d) then (t.(flags := BETWEEN, line := t.line + Lines([d])), None)
        else (t, Some(if d == ';' then Ok else if d == '{' then BlockStart else Unexpected(d)))
  {
  }

  /** A word is complete with the character behind it: a blank leads on, anything else ends the directive. */
  ghost predicate Completes(file: seq<char>, s: Scan, i: nat, t: Scan, j: nat, d: char) {
    && s.start <= i <= |file| && t.start <= j <= |file|
    && if IsSpace(d) then Leads(file, s, i, t, j) && t.flags == BETWEEN
       else Whole(file, s, i) == Token(if d == ';' then Ok else BlockStart, t.args, t.line, j)
  }

  lemma CompletesBare(file: seq<char>, s: Scan, i: nat, w: seq<Piece>, j: nat, d: char) returns (t: Scan)
    requires s.start <= i && s.flags == BETWEEN && AllSane(w) && BareWord(w) && Ends(d)
    requires Reads(file, i, Text(w), j) && Reads(file, j, [d], j + 1) && (d == '{' ==> !LeftOpen(w[1..], false))
    ensures Completes(file, s, i, t, j + 1, d) && t.args == s.args + [Value(w)]
    ensures t.line == s.line + Lines(Text(w)) + Lines([d])
  {
    ReadsOne(file, j, d, j + 1);
    hide Text, Lines, Reads, BareWord, Within, LeftOpen;
    var u := ReadBare(file, s, i, w, j);
    EndBare(file, u, j, w, LeftOpen(w[1..], false), d);
    WholeStep(file, u, j);
    hide Feed, Whole;
    t := Feed(file, u, j).0;
  }

  lemma CompletesQuoted(file: seq<char>, s: Scan, i: nat, w: seq<Piece>, mark: char, j: nat, d: char) returns (t: Scan)
    requires s.start <= i && s.flags == BETWEEN && AllSane(w) && Inside(w, mark) && (mark == '"' || mark == '\'')
    requires Reads(file, i, [mark], i + 1) && Reads(file, i + 1, Text(w), j) && Reads(file, j, [mark], j + 1)
    requires Ends(d) && Reads(file, j + 1, [d], j + 2)
    ensures Completes(file, s, i, t, j + 2, d) && t.args == s.args + [Value(w)]
    ensures t.line == s.line + Lines(Text(w)) + Lines([d])
  {
    ReadsOne(file, j, mark, j + 1);
    ReadsOne(file, j + 1, d, j + 2);
    LinesOne(d);
    hide Text, Lines, Reads, Inside, Within, Feed;
    var u, open := ReadQuoted(file, s, i, w, mark, j);
    EndQuoted(file, u, j, w, mark, open);
    WholeStep(file, u, j);
    var v := Feed(file, u, j).0;
    BehindQuotes(file, v, j + 1);
    WholeStep(file, v, j + 1);
    hide Whole;
    t := v.(flags := BETWEEN, line := v.line + Lines([d]));
  }

  lemma LinesOne(d: char)
    ensures Lines([d]) == if d == '\n' then 1 else 0
  {
  }

  /** One word and the character behind it. */
  lemma ReadWord(file: seq<char>, s: Scan, i: nat, x: Word, j: nat, d: char) returns (t: Scan)
    requires s.start <= i && s.flags == BETWEEN && Writable(x) && Ends(d)
    requires Reads(file, i, Written(x), j) && Reads(file, j, [d], j + 1)
    requires x.Plainly? && d == '{' ==> !LeftOpen(x.w[1..], false)
    ensures Completes(file, s, i, t, j + 1, d) && t.args == s.args + [Value(x.w)]
    ensures t.line == s.line + Lines(Written(x)) + Lines([d])
  {
    LinesWritten(x);
    hide Text, Lines, Reads, BareWord, Inside, Completes, Ends;
    if x.Plainly? {
      t := CompletesBare(file, s, i, x.w, j, d);
    } else {
      assert Written(x) == [x.mark] + (Text(x.w) + [x.mark]);
      var k := Cut(file, i, [x.mark], Text(x.w) + [x.mark], j);
      ReadsOne(file, i, x.mark, k);
      var m := Cut(file, k, Text(x.w), [x.mark], j);
      ReadsOne(file, m, x.mark, j);
      t := CompletesQuoted(file, s, i, x.w, x.mark, m, d);
    }
  }

  lemma LinesWritten(x: Word)
    requires x.Between? ==> x.mark == '"' || x.mark == '\''
    ensures Lines(Written(x)) == Lines(Text(x.w))
  {
    if x.Between? {
      LinesAdd([x.mark], Text(x.w));
      LinesAdd([x.mark] + Text(x.w), [x.mark]);
    }
  }

  /** What may stand between words: blanks and comments. */
  datatype Filler = Blank(c: char) | Remark(text: seq<char>)

  ghost predicate Fills(f: Filler) {
    if f.Blank? then IsSpace(f.c) else forall k :: 0 <= k < |f.text| ==> f.text[k] != '\n'
  }

  ghost predicate AllFill(fs: seq<Filler>) { forall k :: 0 <= k < |fs| ==> Fills(fs[k]) }

  function Shown(f: Filler): seq<char> { if f.Blank? then [f.c] else ['#'] + f.text + ['\n'] }

  function Gap(fs: seq<Filler>): seq<char> {
    if fs == [] then [] else Shown(fs[0]) + Gap(fs[1..])
  }

  lemma ReadFiller(file: seq<char>, s: Scan, i: nat, f: Filler, j: nat) returns (t: Scan)
    requires s.start <= i && s.flags == BETWEEN && Fills(f) && Reads(file, i, Shown(f), j)
    ensures Leads(file, s, i, t, j) && t.start <= j
    ensures t.flags == BETWEEN && t.args == s.args && t.line == s.line + Lines(Shown(f))
  {
    if f.Blank? {
      ReadsOne(file, i, f.c, j);
      LeadsOne(file, s, i);
      t := Feed(file, s, i).0;
    } else {
      assert Shown(f) == ['#'] + (f.text + ['\n']);
      var m := Cut(file, i, ['#'], f.text + ['\n'], j);
      t := ReadRemark(file, s, i, f.text, m, j);
    }
  }

  /** A comment is passed over, but its end counts as a line. */
  lemma ReadRemark(file: seq<char>, s: Scan, i: nat, text: seq<char>, m: nat, j: nat) returns (t: Scan)
    requires s.start <= i && s.flags == BETWEEN && (forall k :: 0 <= k < |text| ==> text[k] != '\n')
    requires Reads(file, i, ['#'], m) && Reads(file, m, text + ['\n'], j)
    ensures Leads(file, s, i, t, j) && t.start <= j && t.flags == BETWEEN && t.args == s.args
    ensures Lines(text + ['\n']) == 1 && t.line == s.line + 1
  {
    ReadsOne(file, i, '#', m);
    var k := Cut(file, m, text, ['\n'], j);
    ReadsOne(file, k, '\n', j);
    LinesOne('\n');
    NoLines(text);
    LeadsOne(file, s, i);
    var u := Feed(file, s, i).0;
    forall n | m <= n < k ensures file[n] != '\n' { assert file[n] == file[m..k][n - m]; }
    hide Lines, Reads, Whole, Leads;
    CommentPassed(file, u, m, k);
    LeadsOne(file, u, k);
    t := Feed(file, u, k).0;
    LeadsOn(file, s, i, u, m, u, k);
    LeadsOn(file, s, i, u, k, t, j);
  }

  lemma {:induction false} NoLines(t: seq<char>)
    requires forall k :: 0 <= k < |t| ==> t[k] != '\n'
    ensures Lines(t) == 0
  {
    if t != [] { NoLines(t[1..]); }
  }

  lemma {:induction false} CommentPassed(file: seq<char>, s: Scan, i: nat, j: nat)
    requires s.start <= i <= j <= |file| && s.flags.comment && forall k :: i <= k < j ==> file[k] != '\n'
    ensures Leads(file, s, i, s, j)
    decreases j - i
  {
    if i < j {
      LeadsOne(file, s, i);
      CommentPassed(file, s, i + 1, j);
    }
  }

  lemma {:induction false} ReadGap(file: seq<char>, s: Scan, i: nat, fs: seq<Filler>, j: nat) returns (t: Scan)
    requires s.start <= i && s.flags == BETWEEN && AllFill(fs) && Reads(file, i, Gap(fs), j)
    ensures Leads(file, s, i, t, j) && t.start <= j
    ensures t.flags == BETWEEN && t.args == s.args && t.line == s.line + Lines(Gap(fs))
    decreases |fs|
  {
    if fs == [] {
      t := s;
    } else {
      var m := CutGap(file, i, fs, j);
      hide *;
      var u := ReadFiller(file, s, i, fs[0], m);
      t := ReadGap(file, u, m, fs[1..], j);
      LeadsOn(file, s, i, u, m, t, j);
    }
  }

  lemma CutGap(file: seq<char>, i: nat, fs: seq<Filler>, j: nat) returns (m: nat)
    requires fs != [] && AllFill(fs) && Reads(file, i, Gap(fs), j)
    ensures Reads(file, i, Shown(fs[0]), m) && Reads(file, m, Gap(fs[1..]), j) && Fills(fs[0]) && AllFill(fs[1..])
    ensures Lines(Gap(fs)) == Lines(Shown(fs[0])) + Lines(Gap(fs[1..]))
  {
    m := Cut(file, i, Shown(fs[0]), Gap(fs[1..]), j);
  }

  /** A word and what stands behind it. */
  datatype Item = Item(x: Word, gap: seq<Filler>)

  function Directive(items: seq<Item>): seq<char> {
    if items == [] then [] else Written(items[0].x) + Gap(items[0].gap) + Directive(items[1..])
  }

  function Values(items: seq<Item>): (r: seq<seq<char>>)
    ensures |r| == |items|
  {
    if items == [] then [] else [Value(items[0].x.w)] + Values(items[1..])
  }

  /** Every word but the last is followed by a blank at least, and so is the last one unless the directive ends
    * at once, with a semicolon or with a brace that the word leaves alone. */
  ghost predicate WellLaid(items: seq<Item>, end: char) {
    forall k :: 0 <= k < |items| ==>
      && Writable(items[k].x) && AllFill(items[k].gap)
      && if items[k].gap != [] then items[k].gap[0].Blank? else k == |items| - 1 && AtOnce(items[k].x, end)
  }

  predicate AtOnce(x: Word, end: char) {
    end != '}' && (x.Plainly? && x.w != [] && end == '{' ==> !LeftOpen(x.w[1..], false))
  }

  /** How a directive of n words ends. */
  function Outcome(end: char, n: nat): Result {
    if end == '}' then if n == 0 then BlockDone else Unexpected('}')
    else if n == 0 then Unexpected(end)
    else if end == ';' then Ok else BlockStart
  }

  lemma {:induction false} ReadItems(file: seq<char>, s: Scan, i: nat, items: seq<Item>, j: nat, end: char)
    requires s.start <= i && s.flags == BETWEEN && WellLaid(items, end) && (end == ';' || end == '{' || end == '}')
    requires Reads(file, i, Directive(items), j) && Reads(file, j, [end], j + 1)
    ensures i <= |file| && Whole(file, s, i)
      == Token(Outcome(end, |s.args| + |items|), s.args + Values(items), s.line + Lines(Directive(items)), j + 1)
    decreases |items|
  {
    if items == [] {
      EndDirective(file, s, i, end);
      assert s.args + [] == s.args;
    } else if items[0].gap == [] {
      ReadLast(file, s, i, items, j, end);
    } else {
      ValuesOn(s.args, items);
      var m := CutItem(file, i, items, j, end);
      hide *;
      var t := ReadItem(file, s, i, items[0].x, items[0].gap, m);
      ReadItems(file, t, m, items[1..], j, end);
      LeadsSame(file, s, i, t, m);
    }
  }

  lemma EndDirective(file: seq<char>, s: Scan, i: nat, end: char)
    requires s.start <= i && s.flags == BETWEEN && (end == ';' || end == '{' || end == '}')
    requires Reads(file, i, [end], i + 1)
    ensures i <= |file| && Whole(file, s, i) == Token(Outcome(end, |s.args|), s.args, s.line, i + 1)
  {
    ReadsOne(file, i, end, i + 1);
    WholeStep(file, s, i);
  }

  lemma ReadLast(file: seq<char>, s: Scan, i: nat, items: seq<Item>, j: nat, end: char)
    requires s.start <= i && s.flags == BETWEEN && WellLaid(items, end) && (end == ';' || end == '{')
    requires items != [] && items[0].gap == []
    requires Reads(file, i, Directive(items), j) && Reads(file, j, [end], j + 1)
    ensures i <= |file| && Whole(file, s, i)
      == Token(Outcome(end, |s.args| + |items|), s.args + Values(items), s.line + Lines(Directive(items)), j + 1)
  {
    var x := items[0].x;
    assert items[1..] == [] && Writable(x) && AtOnce(x, end);
    assert Directive(items) == Written(x) && Values(items) == [Value(x.w)];
    LinesOne(end);
    hide Lines, Values, Directive, Written, Writable, Feed, Value, Reads, Spelled, LeftOpen;
    var t := ReadWord(file, s, i, x, j, end);
  }

  lemma ValuesOn(args: seq<seq<char>>, items: seq<Item>)
    requires items != []
    ensures args + Values(items) == args + [Value(items[0].x.w)] + Values(items[1..])
  {
  }

  lemma CutItem(file: seq<char>, i: nat, items: seq<Item>, j: nat, end: char) returns (m: nat)
    requires items != [] && WellLaid(items, end) && items[0].gap != [] && Reads(file, i, Directive(items), j)
    ensures var front := Written(items[0].x) + Gap(items[0].gap);
      && Reads(file, i, front, m) && Reads(file, m, Directive(items[1..]), j)
      && Lines(Directive(items)) == Lines(front) + Lines(Directive(items[1..]))
    ensures Writable(items[0].x) && AllFill(items[0].gap) && items[0].gap[0].Blank? && WellLaid(items[1..], end)
  {
    m := Cut(file, i, Written(items[0].x) + Gap(items[0].gap), Directive(items[1..]), j);
    hide Written, Gap, Directive, Lines, AllFill, Writable, AtOnce;
    forall k | 0 <= k < |items| - 1 ensures items[1..][k] == items[k + 1] {}
  }

  /** A word and the blanks and comments behind it. */
  lemma ReadItem(file: seq<char>, s: Scan, i: nat, x: Word, gap: seq<Filler>, j: nat) returns (t: Scan)
    requires s.start <= i && s.flags == BETWEEN && Writable(x) && gap != [] && gap[0].Blank? && AllFill(gap)
    requires Reads(file, i, Written(x) + Gap(gap), j)
    ensures Leads(file, s, i, t, j) && t.start <= j
    ensures t.flags == BETWEEN && t.args == s.args + [Value(x.w)]
    ensures t.line == s.line + Lines(Written(x) + Gap(gap))
  {
    hide Written, Gap, Lines, Writable, Feed, Whole, Leads, AllFill, Reads, LeftOpen;
    var k := Cut(file, i, Written(x), Gap(gap), j);
    var m := CutGap(file, k, gap, j);
    ReadsOne(file, k, gap[0].c, m);
    var u := ReadWord(file, s, i, x, k, gap[0].c);
    hide *;
    t := ReadGap(file, u, m, gap[1..], j);
    LeadsOn(file, s, i, u, m, t, j);
  }

  /** What is written is what is read: the words of a directive, however they are written, laid out and commented,
    * and how it ends. */
  lemma DirectiveRead(file: seq<char>, from: nat, line: nat, gap: seq<Filler>, items: seq<Item>, end: char, j: nat)
    requires AllFill(gap) && WellLaid(items, end) && (end == ';' || end == '{' || end == '}')
    requires Reads(file, from, Gap(gap) + Directive(items) + [end], j)
    ensures from <= |file| && Whole(file, Fresh(from, line), from)
      == Token(Outcome(end, |items|), Values(items), line + Lines(Gap(gap)) + Lines(Directive(items)), j)
    ensures items != [] ==>
      Whole(file, Fresh(from, line), from).result
        == if end == ';' then Ok else if end == '{' then BlockStart else Unexpected('}')
    ensures items == [] ==>
      Whole(file, Fresh(from, line), from).result == if end == '}' then BlockDone else Unexpected(end)
  {
    var s := Fresh(from, line);
    hide Feed, Whole, Lines, Gap, Directive, WellLaid, AllFill, Reads;
    var k := Cut(file, from, Gap(gap) + Directive(items), [end], j);
    var i := Cut(file, from, Gap(gap), Directive(items), k);
    ReadsOne(file, k, end, j);
    var t := ReadGap(file, s, from, gap, i);
    ReadItems(file, t, i, items, k, end);
    LeadsSame(file, s, from, t, i);
    assert s.args + Values(items) == Values(items);
  }

  // ---------------------------------------------------------------- quoting

  /** Any word at all can be written between either quotes. */
  function Escaped(w: seq<char>, mark: char): seq<Piece> {
    if w == [] then [] else [if w[0] == mark || w[0] == '\\' then Esc(w[0]) else Raw(w[0])] + Escaped(w[1..], mark)
  }

  lemma {:induction false} EscapedMeans(w: seq<char>, mark: char)
    requires mark == '"' || mark == '\''
    ensures AllSane(Escaped(w, mark)) && Inside(Escaped(w, mark), mark) && Value(Escaped(w, mark)) == w
    ensures Lines(Text(Escaped(w, mark))) == Lines(w)
  {
    if w != [] {
      var p, rest := Escaped(w, mark)[0], Escaped(w[1..], mark);
      EscapedMeans(w[1..], mark);
      assert Escaped(w, mark)[1..] == rest;
      LinesPut(p);
      LinesAdd(Put(p), Text(rest));
      assert w == [w[0]] + w[1..];
    }
  }

  /** Any word, quoted with either mark and followed by a semicolon, is read back as it was. */
  lemma QuotingRoundTrip(w: seq<char>, mark: char, line: nat)
    requires mark == '"' || mark == '\''
    ensures var file := [mark] + Text(Escaped(w, mark)) + [mark, ';'];
      Whole(file, Fresh(0, line), 0) == Token(Ok, [w], line + Lines(w), |file|)
  {
    EscapedMeans(w, mark);
    var x := Between(mark, Escaped(w, mark));
    var file := [mark] + Text(x.w) + [mark, ';'];
    assert Written(x) + [';'] == file;
    LinesWritten(x);
    OneWord(file, line, x, ';', |file|);
  }

  /** A file that begins with a single word. */
  lemma OneWord(file: seq<char>, line: nat, x: Word, end: char, j: nat)
    requires Writable(x) && AtOnce(x, end) && (end == ';' || end == '{')
    requires j <= |file| && file[..j] == Written(x) + [end]
    ensures Whole(file, Fresh(0, line), 0) == Token(Outcome(end, 1), [Value(x.w)], line + Lines(Written(x)), j)
  {
    var items := [Item(x, [])];
    assert items[1..] == [];
    assert Directive(items) == Written(x) && Values(items) == [Value(x.w)];
    assert Gap([]) + Written(x) == Written(x) && file[0..j] == file[..j];
    hide Written, Directive, Writable, AtOnce, Whole, Values, Value;
    DirectiveRead(file, 0, line, [], items, end, j);
  }

  // ---------------------------------------------------------------- braces behind a dollar sign

  /** A brace belongs to a bare word when a dollar sign stands before it, but not when the dollar sign is the first
    * character of the word: then it starts a block. */
  lemma BraceBehindDollar(name: seq<Piece>, line: nat)
    requires AllSane(name) && Bare(name, true) && !LeftOpen(name, true)
    ensures var file := "a${" + Text(name) + ";";
      Whole(file, Fresh(0, line), 0) == Token(Ok, ["a${" + Value(name)], line + Lines(Text(name)), |file|)
    ensures var file := "${" + Text(name) + ";";
      Whole(file, Fresh(0, line), 0) == Token(BlockStart, ["$"], line, 2)
  {
    var w := [Raw('a'), Raw('$'), Raw('{')] + name;
    var file, file' := "a${" + Text(name) + ";", "${" + Text(name) + ";";
    Dollared(name);
    LinesAdd("a${", Text(name));
    assert file[..|file|] == file;
    OneWord(file, line, Plainly(w), ';', |file|);
    var x := Plainly([Raw('$')]);
    assert x.w[1..] == [] && Written(x) == "$" && Value(x.w) == "$";
    assert file'[..2] == "${" && Written(x) + ['{'] == "${";
    OneWord(file', line, x, '{', 2);
  }

  lemma Dollared(name: seq<Piece>)
    requires AllSane(name) && Bare(name, true)
    ensures var w := [Raw('a'), Raw('$'), Raw('{')] + name;
      && AllSane(w) && BareWord(w) && LeftOpen(w[1..], false) == LeftOpen(name, true)
      && Text(w) == "a${" + Text(name) && Value(w) == "a${" + Value(name)
  {
    var u, v := [Raw('{')] + name, [Raw('$')] + ([Raw('{')] + name);
    OneMore('{', name);
    OneMore('$', u);
    OneMore('a', v);
    assert Bare(u, true) && Bare(v, false);
    hide *;
    assert [Raw('a')] + v == [Raw('a'), Raw('$'), Raw('{')] + name;
    assert "a" + ("$" + ("{" + Text(name))) == "a${" + Text(name);
    assert "a" + ("$" + ("{" + Value(name))) == "a${" + Value(name);
  }

  lemma OneMore(c: char, w: seq<Piece>)
    ensures var w' := [Raw(c)] + w;
      && Text(w') == [c] + Text(w) && Value(w') == [c] + Value(w)
      && w'[0] == Raw(c) && w'[1..] == w
      && (AllSane(w) && c != '\\' ==> AllSane(w'))
  {
    assert ([Raw(c)] + w)[1..] == w;
  }

  // ---------------------------------------------------------------- the sliding buffer

  class ConfFile {
    const file: seq<char>
    const buffer: array<char>
    var pos: nat
    var last: nat
    /** How much of the file has been read. */
    var offset: nat
    var line: nat

    /** The buffer holds the last characters read. */
    ghost predicate Valid()
      reads this, buffer
    {
      && buffer.Length == BUFFER && pos <= last <= BUFFER && last <= offset <= |file|
      && forall k :: 0 <= k < last ==> buffer[k] == file[offset - last + k]
    }

    /** Where in the file the next character stands. */
    ghost function Position(): nat
      requires Valid()
      reads this, buffer
    {
      offset - last + pos
    }

    constructor (file: seq<char>)
      ensures Valid() && this.file == file && Position() == 0 && line == 1
      ensures fresh(buffer)
    {
      this.file := file;
      buffer := new char[BUFFER](_ => ' ');
      pos, last, offset, line := 0, 0, 0, 1;
    }

    /** Moves what stands from start on to the front of the buffer and fills up the rest from the file. */
    method Refill(start: nat)
      requires Valid() && start <= pos == last && offset < |file| && last - start < BUFFER
      modifies `pos, `last, `offset, buffer
      ensures Valid() && pos == old(pos) - start && pos < last
      ensures Position() == old(Position())
    {
      var len := pos - start;
      MoveFront(start, len);
      var size := |file| - offset;
      if size > BUFFER - len { size := BUFFER - len; }
      Read(len, size);
      pos := len;
      last := len + size;
      offset := offset + size;
    }

    method MoveFront(start: nat, len: nat)
      requires Valid() && start + len == last
      modifies buffer
      ensures forall k :: 0 <= k < len ==> buffer[k] == file[offset - len + k]
    {
      forall k | 0 <= k < len { buffer[k] := buffer[start + k]; }
    }

    /** ngx_read_file: size characters of the file into the buffer, from place len on. */
    method Read(len: nat, size: nat)
      requires len + size <= buffer.Length && len <= offset && offset + size <= |file|
      modifies buffer
      ensures forall k :: len <= k < len + size ==> buffer[k] == file[offset - len + k]
      ensures forall k :: 0 <= k < len ==> buffer[k] == old(buffer[k])
    {
      forall k | len <= k < len + size { buffer[k] := file[offset - len + k]; }
    }

    /** Sees to it that there is a character to read: the end of the file and a full buffer end the token. */
    method Fetch(start: nat, startLine: nat, nargs: nat) returns (stop: Option<Result>, first: nat)
      requires Valid() && start <= pos
      modifies `pos, `last, `offset, `line, buffer
      ensures Valid() && first <= pos && Position() == old(Position())
        && offset - last + first == old(offset - last + start)
      ensures stop.None? ==> pos < last && pos - first < BUFFER && line == old(line)
      ensures stop == Some(TooLong) ==> Position() < |file| && pos - first == BUFFER
      ensures stop.Some? && stop != Some(TooLong) ==>
        Position() == |file| && line == old(line) && stop.value == if nargs > 0 then UnexpectedEnd else FileDone
    {
      stop, first := None, start;
      if pos >= last {
        if offset >= |file| {
          return Some(if nargs > 0 then UnexpectedEnd else FileDone), start;
        }
        if pos - start == BUFFER {
          line := startLine;
          return Some(TooLong), start;
        }
        Refill(start);
        first := 0;
      }
    }

    /** One character: the line is counted, the flags move on, a word may end. */
    method Consume(flags: Flags, start: nat, startLine: nat, args: seq<seq<char>>)
      returns (flags': Flags, start': nat, startLine': nat, args': seq<seq<char>>, stop: Option<Result>)
      requires Valid() && start <= pos < last
      modifies `pos, `line
      ensures Valid() && start' <= pos && Position() == old(Position()) + 1
      ensures (Scan(flags', offset - last + start', line, startLine', args'), stop)
        == Feed(file, old(Scan(flags, offset - last + start, line, startLine, args)), old(Position()))
    {
      hide Step, Spelled;
      ghost var here, s := Position(), Scan(flags, offset - last + start, line, startLine, args);
      flags', start', startLine', args', stop := flags, start, startLine, args, None;
      var ch := buffer[pos];
      assert ch == file[here];
      pos := pos + 1;
      if ch == '\n' { line := line + 1; }
      match Step(flags, ch, |args|) {
        case Keep(f) =>
          flags' := f;
        case Begin(f, skip) =>
          flags', start', startLine' := f, pos - 1 + (if skip == 0 then 0 else 1), line;
        case EndWord(f, end) =>
          assert buffer[start..pos] == file[s.start..here + 1];
          var word := CopyWord(buffer[start..pos]);
          flags', args', stop := f, args + [word], end;
        case Halt(code) =>
          stop := Some(code);
      }
    }

    /** ngx_conf_read_token: unless it reports a parameter that is too long, the words, the outcome, the
      * line and the place where reading stops are those of the automaton run over the whole file; and it
      * reports one exactly if the automaton comes a full buffer beyond the last place a token began. */
    method ReadToken() returns (result: Result, args: seq<seq<char>>)
      requires Valid()
      modifies this, buffer
      ensures Valid()
      ensures result != TooLong ==>
        Token(result, args, line, Position()) == Whole(file, Fresh(old(Position()), old(line)), old(Position()))
      ensures result == TooLong <==> exists j {:trigger Stuck(file, old(Position()), old(line), j)} ::
        Stuck(file, old(Position()), old(line), j)
    {
      ghost var from, fromLine := Position(), line;
      var flags, start: nat, startLine: nat := Fresh(0, 0).flags, pos, line;
      args := [];
      TrackStart(file, from, fromLine);
      hide Whole, After, Tracks, Feed, Stuck;
      while true
        invariant Valid() && start <= pos
        invariant Tracks(file, from, fromLine, Scan(flags, offset - last + start, line, startLine, args), Position())
        invariant forall j: nat {:trigger Stuck(file, from, fromLine, j)} ::
          j < Position() ==> !Stuck(file, from, fromLine, j)
        decreases |file| - Position()
      {
        ghost var s, here := Scan(flags, offset - last + start, line, startLine, args), Position();
        var stop;
        stop, start := Fetch(start, startLine, |args|);
        if stop.Some? {
          if stop.value == TooLong {
            StuckHere(file, from, fromLine, s, here);
          } else {
            TrackEnd(file, from, fromLine, s);
            NotStuckPast(file, from, fromLine);
          }
          return stop.value, args;
        }
        NotStuckHere(file, from, fromLine, s, here);
        TrackStep(file, from, fromLine, s, here);
        FeedNotTooLong(file, s, here);
        flags, start, startLine, args, stop := Consume(flags, start, startLine, args);
        if stop.Some? {
          NotStuckBehind(file, from, fromLine, s, here);
          return stop.value, args;
        }
      }
    }
  }
}
