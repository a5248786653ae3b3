/**
 * Token extraction from one decoded chunk (dashboard_server.py:237): the chunk
 * is split on line feeds, every piece loses its leading and trailing carriage
 * returns and spaces, and the pieces left empty are dropped. Each chunk is tokenised on its own; nothing is carried over between reads.
 */
module Tokenizer {
  import opened Wrappers
  import Ascii

  const Newline: char := '\n'

  /** The characters `str.strip('\r ')` removes. */
  predicate IsStripChar(c: char) {
    c == '\r' || c == ' '
  }

  /** What the comprehension keeps: non-empty, one line, nothing left to strip at either end. */
  predicate IsToken(t: string) {
    t != "" && Newline !in t && !IsStripChar(t[0]) && !IsStripChar(t[|t| - 1])
  }

  /** `sep.join(parts)`. */
  function Join(parts: seq<string>, sep: char): string
    requires |parts| >= 1
  {
    if |parts| == 1 then parts[0] else parts[0] + [sep] + Join(parts[1..], sep)
  }

  /**
   * `s.split(sep)`: the maximal separator-free pieces between separators, so
   * always at least one piece (`''.split('\n') == ['']`).
   */
  function Split(s: string, sep: char): (parts: seq<string>)
    ensures |parts| >= 1
    ensures forall i :: 0 <= i < |parts| ==> sep !in parts[i]
  {
    if s == [] then [""]
    else
      var rest := Split(s[1..], sep);
      if s[0] == sep then [""] + rest
      else [[s[0]] + rest[0]] + rest[1..]
  }

  /** Joining the pieces with the separator gives the text back. */
  lemma {:induction false} JoinSplit(s: string, sep: char)
    ensures Join(Split(s, sep), sep) == s
  {
    if s != [] {
      var rest := Split(s[1..], sep);
      JoinSplit(s[1..], sep);
      if s[0] == sep {
        assert Join([""] + rest, sep) == [sep] + Join(rest, sep);
      } else {
        var parts := [[s[0]] + rest[0]] + rest[1..];
        assert parts[1..] == rest[1..];
        assert Join(parts, sep) == [s[0]] + Join(rest, sep);
      }
    }
  }

  /** `s.lstrip('\r ')`. */
  function StripLeft(s: string): (r: string)
    ensures |r| <= |s| && r == s[|s| - |r|..]
    ensures forall i :: 0 <= i < |s| - |r| ==> IsStripChar(s[i])
    ensures r != "" ==> !IsStripChar(r[0])
  {
    if s != [] && IsStripChar(s[0]) then StripLeft(s[1..]) else s
  }

  /** `s.rstrip('\r ')`. */
  function StripRight(s: string): (r: string)
    ensures |r| <= |s| && r == s[..|r|]
    ensures forall i :: |r| <= i < |s| ==> IsStripChar(s[i])
    ensures r != "" ==> !IsStripChar(r[|r| - 1])
  {
    if s != [] && IsStripChar(s[|s| - 1]) then StripRight(s[..|s| - 1]) else s
  }

  /**
   * `r` is `s[lo..lo + |r|]` and everything of `s` outside that infix is a
   * carriage return or a space.
   */
  predicate StrippedAt(s: string, lo: int, r: string) {
    0 <= lo <= |s| - |r| && r == s[lo..lo + |r|]
    && (forall i :: 0 <= i < lo ==> IsStripChar(s[i]))
    && (forall i :: lo + |r| <= i < |s| ==> IsStripChar(s[i]))
  }

  /**
   * `s.strip('\r ')`: the infix of `s` left once every leading and trailing
   * carriage return and space is removed.
   */
  function Strip(s: string): (r: string)
    ensures r != "" ==> !IsStripChar(r[0]) && !IsStripChar(r[|r| - 1])
    ensures Newline !in s ==> Newline !in r
  {
    StripIsInfix(s);
    StripRight(StripLeft(s))
  }

  /**
   * What stripping means: the result is an infix of `s` outside which there
   * are only carriage returns and spaces, and it is empty exactly when `s`
   * holds nothing else.
   */
  lemma StripCharacterised(s: string)
    ensures exists lo :: StrippedAt(s, lo, Strip(s))
    ensures Strip(s) == "" <==> forall i :: 0 <= i < |s| ==> IsStripChar(s[i])
  {
    assert Strip(s) == StripRight(StripLeft(s));
    StripIsInfix(s);
    StripEmpty(s);
  }

  /** `StripRight(StripLeft(s))` is `s` stripped at the length of what `StripLeft` removed. */
  lemma StripIsInfix(s: string)
    ensures StrippedAt(s, |s| - |StripLeft(s)|, StripRight(StripLeft(s)))
    ensures Newline !in s ==> Newline !in StripRight(StripLeft(s))
  {
    var left := StripLeft(s);
    InfixStripped(s, |s| - |left|, left, StripRight(left));
  }

  /**
   * A prefix `r` of the suffix `left` of `s` that starts at `lo`, with only
   * strippable characters before `lo` in `s` and after `r` in `left`, is
   * `s` stripped at `lo`.
   */
  lemma InfixStripped(s: string, lo: nat, left: string, r: string)
    requires lo <= |s| && left == s[lo..]
    requires |r| <= |left| && r == left[..|r|]
    requires forall i :: 0 <= i < lo ==> IsStripChar(s[i])
    requires forall i :: |r| <= i < |left| ==> IsStripChar(left[i])
    ensures StrippedAt(s, lo, r)
    ensures Newline !in s ==> Newline !in r
  {
    forall i | lo + |r| <= i < |s|
      ensures IsStripChar(s[i])
    {
      assert s[i] == left[i - lo];
    }
    if Newline in r {
      var k :| 0 <= k < |r| && r[k] == Newline;
      assert s[lo + k] == Newline;
    }
  }

  /** Stripping leaves nothing exactly when every character is strippable. */
  lemma StripEmpty(s: string)
    ensures StripRight(StripLeft(s)) == "" <==> forall i :: 0 <= i < |s| ==> IsStripChar(s[i])
  {
    var left := StripLeft(s);
    var r := StripRight(left);
    if r != "" {
      assert r[0] == s[|s| - |left|];
    }
  }

  /** The non-empty values of `f` over `pieces`, in order. */
  function KeepNonEmpty(f: string -> string, pieces: seq<string>): (kept: seq<string>)
    ensures |kept| <= |pieces|
  {
    if pieces == [] then []
    else (if f(pieces[0]) != "" then [f(pieces[0])] else []) + KeepNonEmpty(f, pieces[1..])
  }

  /** The filter-and-map of the comprehension over already split pieces. */
  function KeepStripped(pieces: seq<string>): seq<string> {
    KeepNonEmpty(Strip, pieces)
  }

  /** The tokens of one decoded chunk, in the order they were sent. */
  function Tokens(message: string): seq<string> {
    KeepStripped(Split(message, Newline))
  }

  /** The tokens of a raw chunk: none when the ASCII gate rejects it. */
  function ChunkTokens(data: seq<Ascii.byte>): seq<string> {
    match Ascii.Decode(data)
    case None => []
    case Some(message) => Tokens(message)
  }

  /** Stripping pieces without a line feed keeps only well-formed tokens. */
  lemma {:induction false} KeepStrippedTokens(pieces: seq<string>)
    requires forall i :: 0 <= i < |pieces| ==> Newline !in pieces[i]
    ensures forall i :: 0 <= i < |KeepStripped(pieces)| ==> IsToken(KeepStripped(pieces)[i])
  {
    if pieces != [] {
      var t := Strip(pieces[0]);
      KeepStrippedTokens(pieces[1..]);
      assert KeepStripped(pieces) == (if t != "" then [t] else []) + KeepStripped(pieces[1..]);
    }
  }

  /**
   * Every token of a chunk is non-empty, one line long, and has no carriage
   * return or space at either end.
   */
  lemma ChunkTokensAreTokens(data: seq<Ascii.byte>)
    ensures forall i :: 0 <= i < |ChunkTokens(data)| ==> IsToken(ChunkTokens(data)[i])
  {
    var message := Ascii.Decode(data);
    if message.Some? {
      KeepStrippedTokens(Split(message.value, Newline));
    }
  }

  /** What a client writes to send `tokens`: each one followed by a line feed. */
  function Lines(tokens: seq<string>): string {
    if tokens == [] then "" else tokens[0] + [Newline] + Lines(tokens[1..])
  }

  /** Splitting undoes joining when no part holds the separator. */
  lemma {:induction false} SplitJoin(parts: seq<string>, sep: char)
    requires |parts| >= 1
    requires forall i :: 0 <= i < |parts| ==> sep !in parts[i]
    ensures Split(Join(parts, sep), sep) == parts
  {
    if |parts| == 1 {
      SplitFree(parts[0], sep);
    } else {
      SplitJoin(parts[1..], sep);
      SplitConcat(parts[0], Join(parts[1..], sep), sep);
      SplitFree(parts[0], sep);
    }
  }

  /** A text without the separator is a single piece. */
  lemma {:induction false} SplitFree(s: string, sep: char)
    requires sep !in s
    ensures Split(s, sep) == [s]
  {
    if s != [] {
      SplitFree(s[1..], sep);
      assert s[0] != sep && [s[0]] + s[1..] == s;
    }
  }

  /** Splitting at a separator splits the two sides independently. */
  lemma {:induction false} SplitConcat(a: string, b: string, sep: char)
    ensures Split(a + [sep] + b, sep) == Split(a, sep) + Split(b, sep)
  {
    var s := a + [sep] + b;
    if a == [] {
      assert s[1..] == b;
    } else {
      assert s[1..] == a[1..] + [sep] + b;
      SplitConcat(a[1..], b, sep);
    }
  }

  /** Filtering `x + y` filters `x`, then `y`. */
  lemma {:induction false} KeepNonEmptyAppend(f: string -> string, x: seq<string>, y: seq<string>)
    ensures KeepNonEmpty(f, x + y) == KeepNonEmpty(f, x) + KeepNonEmpty(f, y)
  {
    if x != [] {
      assert (x + y)[0] == x[0] && (x + y)[1..] == x[1..] + y;
      KeepNonEmptyAppend(f, x[1..], y);
    } else {
      assert x + y == y;
    }
  }

  /** Two lines sent in one chunk give the tokens of the first, then those of the second. */
  lemma TokensConcat(a: string, b: string)
    ensures Tokens(a + [Newline] + b) == Tokens(a) + Tokens(b)
  {
    SplitConcat(a, b, Newline);
    KeepNonEmptyAppend(Strip, Split(a, Newline), Split(b, Newline));
  }

  /** A chunk without a line feed is one token, stripped, or none when nothing is left. */
  lemma TokensOfLine(s: string)
    requires Newline !in s
    ensures Tokens(s) == if Strip(s) == "" then [] else [Strip(s)]
  {
    SplitFree(s, Newline);
  }

  /** Stripping leaves a text alone when neither end is a carriage return or a space. */
  lemma StripFixed(t: string)
    requires t == "" || (!IsStripChar(t[0]) && !IsStripChar(t[|t| - 1]))
    ensures Strip(t) == t
  {
    assert StripLeft(t) == t;
    assert StripRight(t) == t;
  }

  /** Stripping twice is stripping once. */
  lemma StripIdempotent(s: string)
    ensures Strip(Strip(s)) == Strip(s)
  {
    StripFixed(Strip(s));
  }

  /**
   * Tokens sent one per line in one chunk are received exactly, in the order
   * sent: nothing lost, merged, duplicated or reordered.
   */
  lemma {:induction false} TokensOfLines(tokens: seq<string>)
    requires forall i :: 0 <= i < |tokens| ==> IsToken(tokens[i])
    ensures Tokens(Lines(tokens)) == tokens
  {
    if tokens == [] {
      TokensOfLine("");
      StripFixed("");
    } else {
      var t, rest := tokens[0], tokens[1..];
      calc {
        Tokens(Lines(tokens));
        { assert Lines(tokens) == t + [Newline] + Lines(rest); }
        Tokens(t + [Newline] + Lines(rest));
        { TokensConcat(t, Lines(rest)); }
        Tokens(t) + Tokens(Lines(rest));
        { TokensOfToken(t); TokensOfLines(rest); }
        [t] + rest;
      }
    }
  }

  /** A token sent alone is received as itself. */
  lemma TokensOfToken(t: string)
    requires IsToken(t)
    ensures Tokens(t) == [t]
  {
    TokensOfLine(t);
    StripFixed(t);
  }

  /**
   * No reassembly across reads: when a line `a + b` arrives as `a` in one
   * chunk and `b` plus the line feed in the next, the two halves are seen as
   * two unrelated tokens, while in one chunk the line is one token.
   */
  lemma SplitAcrossReads(a: string, b: string)
    requires IsToken(a) && IsToken(b)
    ensures Tokens(a) + Tokens(b + [Newline]) == [a, b]
    ensures Tokens(a + b + [Newline]) == [a + b]
  {
    TokensOfToken(a);
    TokenLine(b);
    var ab := a + b;
    assert IsToken(ab) by {
      assert ab[0] == a[0] && ab[|ab| - 1] == b[|b| - 1];
    }
    TokenLine(ab);
  }

  /** A token followed by a line feed is received as itself. */
  lemma TokenLine(t: string)
    requires IsToken(t)
    ensures Tokens(t + [Newline]) == [t]
  {
    LinesOfOne(t);
    TokensOfLines([t]);
  }

  /** One token sent is the token and a line feed. */
  lemma LinesOfOne(t: string)
    ensures Lines([t]) == t + [Newline]
  {
    assert [t][1..] == [];
  }
}
