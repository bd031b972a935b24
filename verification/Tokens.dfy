/** The cursor tokenizer of src/utils.cpp, on which every parser of the repository rests. */
module Tokens {

  /** A position in a text. It may lie past the end, and is `Npos` once a search has failed. */
  datatype Cursor = At(n: nat) | Npos

  /** The first position of one of the characters of `delims`, or the length. */
  function Find(r: string, delims: string): (k: nat)
    ensures k <= |r|
    ensures k < |r| ==> r[k] in delims
    ensures forall i :: 0 <= i < k ==> r[i] !in delims
  {
    if r == "" || r[0] in delims then 0 else 1 + Find(r[1..], delims)
  }

  /** What is left to read. */
  function Left(input: string, pos: Cursor): string {
    if pos.Npos? || pos.n >= |input| then "" else input[pos.n..]
  }

  /** The next token of a text still to be read. */
  function Tok(r: string, delim: string): string {
    r[..Find(r, delim)]
  }

  /** What is left after it. The whole length of `delim` is skipped, whichever of its characters was found. */
  function Skip(r: string, delim: string): (t: string)
    ensures |t| <= |r|
    ensures Tok(r, delim) != "" ==> |t| < |r|
  {
    var k := Find(r, delim) + |delim|;
    if k < |r| then r[k..] else ""
  }

  /** The cursor after a token. */
  function After(input: string, delim: string, pos: Cursor): Cursor {
    if pos.Npos? || pos.n >= |input| then pos
    else
      var k := Find(input[pos.n..], delim);
      if pos.n + k < |input| then At(pos.n + k + |delim|) else Npos
  }

  /** `input.find_first_of(delimiter, from)`. */
  method FindFirstOf(input: string, delim: string, from: nat) returns (p: Cursor)
    requires from <= |input|
    ensures p == var k := Find(input[from..], delim); if from + k < |input| then At(from + k) else Npos
  {
    var i := from;
    while i < |input|
      invariant from <= i <= |input|
      invariant Find(input[from..], delim) == i - from + Find(input[i..], delim)
    {
      if input[i] in delim {
        return At(i);
      }
      assert input[i..][1..] == input[i + 1..];
      i := i + 1;
    }
    p := Npos;
  }

  method NextToken(input: string, delimiter: string, pos: Cursor) returns (token: string, pos': Cursor)
    ensures token == Tok(Left(input, pos), delimiter)
    ensures pos' == After(input, delimiter, pos)
  {
    if pos.Npos? || pos.n >= |input| {
      return "", pos;
    }
    var newPos := FindFirstOf(input, delimiter, pos.n);
    token := if newPos.At? then input[pos.n..newPos.n] else input[pos.n..];
    pos' := newPos;
    if newPos.At? {
      pos' := At(newPos.n + |delimiter|);
    }
  }

  method GetRest(input: string, pos: Cursor) returns (token: string, pos': Cursor)
    ensures token == Left(input, pos)
    ensures pos' == if token == "" then pos else Npos
  {
    if pos.Npos? || pos.n >= |input| {
      return "", pos;
    }
    token := input[pos.n..];
    pos' := Npos;
  }

  lemma StartLeft(input: string)
    ensures Left(input, At(0)) == input
  {
  }

  lemma LeftAfter(input: string, delim: string, pos: Cursor)
    ensures Left(input, After(input, delim, pos)) == Skip(Left(input, pos), delim)
  {
  }

  /** A cursor moves on with every token that is not empty. */
  lemma Advances(input: string, delim: string, pos: Cursor)
    requires Tok(Left(input, pos), delim) != ""
    ensures |Left(input, After(input, delim, pos))| < |Left(input, pos)|
    ensures After(input, delim, pos).At? ==> pos.At? && After(input, delim, pos).n > pos.n
  {
    LeftAfter(input, delim, pos);
  }

  // ------------------------------------------------------- splitting and joining

  predicate Free(s: string, delims: string) {
    forall i :: 0 <= i < |s| ==> s[i] !in delims
  }

  lemma {:induction false} FindAt(a: string, b: string, delims: string)
    requires Free(a, delims) && (b == "" || b[0] in delims)
    ensures Find(a + b, delims) == |a|
  {
    if a == "" {
      assert a + b == b;
    } else {
      FindAt(a[1..], b, delims);
      assert (a + b)[1..] == a[1..] + b;
    }
  }

  /** A text with no delimiter, then the delimiter: the token and what is left. */
  lemma TokAt(a: string, delim: string, b: string)
    requires Free(a, delim) && delim != ""
    ensures Tok(a + delim + b, delim) == a && Skip(a + delim + b, delim) == b
  {
    FindAt(a, delim + b, delim);
    assert a + delim + b == a + (delim + b);
    assert (a + delim + b)[|a| + |delim|..] == b;
  }

  lemma TokAll(a: string, delim: string)
    requires Free(a, delim)
    ensures Tok(a, delim) == a && Skip(a, delim) == ""
  {
    FindAt(a, "", delim);
    assert a + "" == a;
  }

  /** The tokens that the callers' loops collect: until the first empty one. */
  function Toks(r: string, delim: string): seq<string>
    decreases |r|
  {
    var t := Tok(r, delim);
    if t == "" then [] else [t] + Toks(Skip(r, delim), delim)
  }

  function Joined(ts: seq<string>, delim: string): string {
    if ts == [] then "" else if |ts| == 1 then ts[0] else ts[0] + delim + Joined(ts[1..], delim)
  }

  /** Splitting inverts joining. */
  lemma {:induction false} SplitJoined(ts: seq<string>, delim: string)
    requires delim != "" && forall i :: 0 <= i < |ts| ==> ts[i] != "" && Free(ts[i], delim)
    ensures Toks(Joined(ts, delim), delim) == ts
  {
    if |ts| == 1 {
      TokAll(ts[0], delim);
      assert Toks("", delim) == [];
    } else if |ts| > 1 {
      SplitJoined(ts[1..], delim);
      TokAt(ts[0], delim, Joined(ts[1..], delim));
    }
  }

  // --------------------------------------------------------------- lines of CRLF

  const CRLF: string := "\r\n"

  /** The lines that a line loop reads from `pos`, and the cursor after the empty token that ends it. */
  function Lines(input: string, pos: Cursor): (seq<string>, Cursor)
    decreases |Left(input, pos)|
  {
    var t, next := Tok(Left(input, pos), CRLF), After(input, CRLF, pos);
    if t == "" then ([], next)
    else
      Advances(input, CRLF, pos);
      var (rest, last) := Lines(input, next);
      ([t] + rest, last)
  }

  /** CR and LF occur only as the pair. */
  predicate Paired(s: string) {
    if s == "" then true
    else if s[0] in CRLF then |s| > 1 && s[..2] == CRLF && Paired(s[2..])
    else Paired(s[1..])
  }

  /** The lines of a text, split at every CRLF. */
  function Split(s: string): (ls: seq<string>)
    ensures |ls| > 0
  {
    if s == "" then [""]
    else if |s| > 1 && s[..2] == CRLF then [""] + Split(s[2..])
    else
      var ls := Split(s[1..]);
      [[s[0]] + ls[0]] + ls[1..]
  }

  /** How many lines come before the first empty one. */
  function Filled(ls: seq<string>): (n: nat)
    ensures n <= |ls|
  {
    if ls == [] || ls[0] == "" then 0 else 1 + Filled(ls[1..])
  }

  /** How much of a text `n` lines take up, each with its CRLF. */
  function Span(ls: seq<string>, n: nat): nat
    requires n <= |ls|
  {
    if n == 0 then 0 else |ls[0]| + 2 + Span(ls[1..], n - 1)
  }

  lemma NotPair(s: string)
    requires |s| > 1 && s[0] !in CRLF
    ensures s[..2] != CRLF
  {
    assert CRLF[0] in CRLF && s[..2][0] == s[0];
  }

  lemma {:induction false} FirstLine(s: string)
    requires Paired(s)
    ensures Split(s)[0] == Tok(s, CRLF)
    ensures Find(s, CRLF) == |s| ==> |Split(s)| == 1
    ensures var k := Find(s, CRLF); k < |s| ==> k + 2 <= |s| && Paired(s[k + 2..]) && Split(s)[1..] == Split(s[k + 2..])
  {
    if s != "" && s[0] !in CRLF {
      FirstLine(s[1..]);
      if |s| > 1 { NotPair(s); }
      var k := Find(s, CRLF);
      assert s[..k] == [s[0]] + s[1..][..k - 1];
      if k < |s| {
        assert s[k + 2..] == s[1..][k + 1..];
        assert Split(s)[1..] == Split(s[1..])[1..];
      }
    }
  }

  /** On such a text the loop reads exactly the lines before the first empty one, and
      stops on the first character after it, if there is one, or at the end. */
  lemma {:induction false} LinesAre(input: string, n: nat)
    requires n <= |input| && Paired(input[n..])
    ensures var ls := Split(input[n..]); Lines(input, At(n)).0 == ls[..Filled(ls)]
    ensures Lines(input, At(n)).1 == LastCursor(input, n)
    ensures Lines(input, At(n)).1.At? ==> Lines(input, At(n)).1.n <= |input|
    decreases |input| - n
  {
    hide Split, Paired;
    var r := input[n..];
    FirstLine(r);
    var k := Find(r, CRLF);
    if k < |r| {
      assert r[k + 2..] == input[n + k + 2..];
      if k > 0 { MoreLines(input, n); }
    } else {
      assert Lines(input, Npos) == ([], Npos);
    }
  }

  /** Where the loop leaves the cursor. */
  function LastCursor(input: string, n: nat): Cursor
    requires n <= |input|
  {
    var ls := Split(input[n..]);
    var k := Filled(ls);
    if k == |ls| then Npos else if k + 1 == |ls| then At(|input|) else At(n + Span(ls, k) + 2)
  }

  lemma AtLine(input: string, n: nat)
    requires n < |input|
    ensures var k := Find(input[n..], CRLF);
      && Tok(Left(input, At(n)), CRLF) == input[n..][..k]
      && (n + k < |input| ==> After(input, CRLF, At(n)) == At(n + k + 2))
  {
    hide Find;
  }

  lemma LinesFrom(input: string, pos: Cursor)
    ensures var t, next := Tok(Left(input, pos), CRLF), After(input, CRLF, pos);
      Lines(input, pos) == if t == "" then ([], next) else ([t] + Lines(input, next).0, Lines(input, next).1)
  {
    hide Tok, After, Left;
  }

  lemma LinesStep(input: string, n: nat)
    requires n <= |input| && 0 < Find(input[n..], CRLF) < |input| - n
    ensures var k := Find(input[n..], CRLF); var next := Lines(input, At(n + k + 2));
      Lines(input, At(n)) == ([input[n..][..k]] + next.0, next.1)
  {
    hide Tok, After, Left, Lines, Find;
    AtLine(input, n);
    LinesFrom(input, At(n));
  }

  lemma NoLine(input: string, n: nat)
    requires n < |input| && Find(input[n..], CRLF) == 0
    ensures Lines(input, At(n)) == ([], At(n + 2))
  {
    hide Tok, After, Left, Lines, Find;
    AtLine(input, n);
    LinesFrom(input, At(n));
  }

  lemma MoreLines(input: string, n: nat)
    requires n <= |input| && Paired(input[n..]) && 0 < Find(input[n..], CRLF) < |input[n..]|
    ensures var ls := Split(input[n..]); Lines(input, At(n)).0 == ls[..Filled(ls)]
    ensures Lines(input, At(n)).1 == LastCursor(input, n)
    ensures Lines(input, At(n)).1.At? ==> Lines(input, At(n)).1.n <= |input|
    decreases |input| - n, 0
  {
    hide Split, Paired, Lines, Find;
    var r := input[n..];
    FirstLine(r);
    LinesStep(input, n);
    var k := Find(r, CRLF);
    var m := n + k + 2;
    assert r[k + 2..] == input[m..];
    LinesAre(input, m);
    var ls, more := Split(r), Split(input[m..]);
    assert ls == [r[..k]] + more;
    assert Filled(ls) == 1 + Filled(more);
    assert ls[..1 + Filled(more)] == [r[..k]] + more[..Filled(more)];
  }

  // -------------------------------------------------- lines that have been printed

  function Terminated(ls: seq<string>): string {
    if ls == [] then "" else ls[0] + CRLF + Terminated(ls[1..])
  }

  predicate LinesOk(ls: seq<string>) {
    forall i :: 0 <= i < |ls| ==> ls[i] != "" && Free(ls[i], CRLF)
  }

  /** The line loop reads the lines it is given and stops after the empty one. */
  lemma {:induction false} LinesRead(input: string, n: nat, ls: seq<string>, body: string)
    requires n <= |input| && input[n..] == Terminated(ls) + CRLF + body && LinesOk(ls)
    ensures Lines(input, At(n)) == (ls, At(|input| - |body|))
    decreases |ls|
  {
    hide Lines, Free, Find, Tok;
    if ls == [] {
      EmptyLine(input, n, body);
    } else {
      var t := ls[0];
      var more := Terminated(ls[1..]) + CRLF + body;
      assert input[n..] == t + CRLF + more;
      OneMore(input, n, t, more);
      var m := n + |t| + 2;
      assert input[m..] == input[n..][|t| + 2..] == more;
      LinesRead(input, m, ls[1..], body);
      assert ls == [t] + ls[1..];
    }
  }

  lemma EmptyFree()
    ensures Free("", CRLF)
  {
  }

  lemma EmptyLine(input: string, n: nat, body: string)
    requires n <= |input| && input[n..] == "" + CRLF + body
    ensures Lines(input, At(n)) == ([], At(|input| - |body|))
  {
    hide Lines, Find, Free;
    assert Free("", CRLF) by { EmptyFree(); }
    assert "" + (CRLF + body) == "" + CRLF + body;
    FindAt("", CRLF + body, CRLF);
    NoLine(input, n);
  }

  lemma OneMore(input: string, n: nat, t: string, more: string)
    requires n <= |input| && input[n..] == t + CRLF + more && t != "" && Free(t, CRLF)
    ensures var next := Lines(input, At(n + |t| + 2)); Lines(input, At(n)) == ([t] + next.0, next.1)
  {
    hide Lines, Find, Free;
    var r := input[n..];
    assert r == t + (CRLF + more);
    FindAt(t, CRLF + more, CRLF);
    assert r[..|t|] == t;
    LinesStep(input, n);
  }
}
