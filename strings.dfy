/**
 * The pieces of JavaScript's string library that the two template
 * scanners rely on: `trimStart`, `trim`, `startsWith`, `split('\n')`,
 * `Array.prototype.join` and `replace(/\r\n/g, '\n')`.
 * Strings are sequences of characters.
 */
module Strings {

  /** The code points ECMAScript counts as WhiteSpace or LineTerminator,
      which is what `trimStart`, `trimEnd` and `trim` remove. */
  predicate IsWhitespace(c: char) {
    || c == '\t' || c == '\n' || c == '\U{B}' || c == '\U{C}' || c == '\r' || c == ' '
    || c == '\U{A0}' || c == '\U{1680}' || ('\U{2000}' <= c <= '\U{200A}')
    || c == '\U{2028}' || c == '\U{2029}' || c == '\U{202F}' || c == '\U{205F}'
    || c == '\U{3000}' || c == '\U{FEFF}'
  }

  predicate AllWhitespace(s: string) {
    forall i :: 0 <= i < |s| ==> IsWhitespace(s[i])
  }

  /** The number of whitespace characters at the front of `s`. */
  function LeadingWhitespace(s: string): (k: nat)
    ensures k <= |s|
  {
    if s != [] && IsWhitespace(s[0]) then 1 + LeadingWhitespace(s[1..]) else 0
  }

  /** The counted front is all whitespace and the character after it is not. */
  lemma {:induction false} LeadingWhitespaceMaximal(s: string)
    ensures AllWhitespace(s[..LeadingWhitespace(s)])
    ensures LeadingWhitespace(s) == |s| || !IsWhitespace(s[LeadingWhitespace(s)])
  {
    if s != [] && IsWhitespace(s[0]) {
      LeadingWhitespaceMaximal(s[1..]);
      var k := LeadingWhitespace(s[1..]);
      assert s[..k + 1] == [s[0]] + s[1..][..k];
    }
  }

  /** The number of whitespace characters at the end of `s`. */
  function TrailingWhitespace(s: string): (k: nat)
    ensures k <= |s|
  {
    if s != [] && IsWhitespace(s[|s| - 1]) then 1 + TrailingWhitespace(s[..|s| - 1]) else 0
  }

  /** The counted end is all whitespace and the character before it is not. */
  lemma {:induction false} TrailingWhitespaceMaximal(s: string)
    ensures AllWhitespace(s[|s| - TrailingWhitespace(s)..])
    ensures TrailingWhitespace(s) == |s| || !IsWhitespace(s[|s| - TrailingWhitespace(s) - 1])
  {
    if s != [] && IsWhitespace(s[|s| - 1]) {
      var init := s[..|s| - 1];
      TrailingWhitespaceMaximal(init);
      var k := TrailingWhitespace(init);
      assert s[|s| - (k + 1)..] == init[|init| - k..] + [s[|s| - 1]];
    }
  }

  /** `s.trimStart()` */
  function TrimStart(s: string): string {
    s[LeadingWhitespace(s)..]
  }

  /** A string is its whitespace front followed by its `trimStart` form, which
      does not begin with whitespace. */
  lemma TrimStartSplit(s: string)
    ensures s == s[..LeadingWhitespace(s)] + TrimStart(s)
    ensures AllWhitespace(s[..LeadingWhitespace(s)])
    ensures TrimStart(s) == [] || !IsWhitespace(TrimStart(s)[0])
  {
    LeadingWhitespaceMaximal(s);
  }

  /** `s.trimEnd()` */
  function TrimEnd(s: string): string {
    s[..|s| - TrailingWhitespace(s)]
  }

  /** `s.trim()` */
  function Trim(s: string): string {
    TrimEnd(TrimStart(s))
  }

  /** `s.startsWith(p)` */
  predicate StartsWith(s: string, p: string) {
    |p| <= |s| && s[..|p|] == p
  }

  /** Only the whitespace in front of `t` is counted when `t` does not itself
      begin with whitespace. */
  lemma {:induction false} LeadingWhitespaceOf(ws: string, t: string)
    requires AllWhitespace(ws)
    requires t == [] || !IsWhitespace(t[0])
    ensures LeadingWhitespace(ws + t) == |ws|
  {
    if ws != [] {
      assert (ws + t)[1..] == ws[1..] + t;
      LeadingWhitespaceOf(ws[1..], t);
    }
  }

  /** Removing leading whitespace from `ws + t` yields `t` whenever `t` does
      not itself begin with whitespace. */
  lemma TrimStartAfterWhitespace(ws: string, t: string)
    requires AllWhitespace(ws)
    requires t == [] || !IsWhitespace(t[0])
    ensures TrimStart(ws + t) == t
  {
    LeadingWhitespaceOf(ws, t);
    assert (ws + t)[|ws|..] == t;
  }

  /** `parts.join(sep)` */
  function Join(parts: seq<string>, sep: string): string {
    if parts == [] then ""
    else if |parts| == 1 then parts[0]
    else parts[0] + sep + Join(parts[1..], sep)
  }

  lemma {:induction false} JoinAppend(a: seq<string>, b: seq<string>, sep: string)
    requires a != [] && b != []
    ensures Join(a + b, sep) == Join(a, sep) + sep + Join(b, sep)
  {
    if |a| == 1 {
      assert (a + b)[1..] == b;
    } else {
      assert (a + b)[1..] == a[1..] + b;
      JoinAppend(a[1..], b, sep);
    }
  }

  /** Text put in front of the first part of a join ends up in front of the joined text. */
  lemma {:induction false} JoinPrefixFirst(p: string, parts: seq<string>, sep: string)
    requires parts != []
    ensures Join([p + parts[0]] + parts[1..], sep) == p + Join(parts, sep)
  {
    var q := [p + parts[0]] + parts[1..];
    if |parts| > 1 {
      assert q[1..] == parts[1..];
    }
  }

  /** `s.split('\n')`: the pieces between line feeds; there is always at least one. */
  function SplitLines(s: string): (r: seq<string>)
    ensures |r| >= 1
  {
    if s == [] then [""]
    else
      var rest := SplitLines(s[1..]);
      if s[0] == '\n' then [""] + rest else [[s[0]] + rest[0]] + rest[1..]
  }

  /** No piece of a split contains a line feed. */
  lemma {:induction false} SplitLinesNoLf(s: string)
    ensures forall i :: 0 <= i < |SplitLines(s)| ==> '\n' !in SplitLines(s)[i]
  {
    if s != [] {
      SplitLinesNoLf(s[1..]);
    }
  }

  /** Splitting on line feeds and joining with line feeds gives back the text. */
  lemma {:induction false} JoinSplitLines(s: string)
    ensures Join(SplitLines(s), "\n") == s
  {
    if s != [] {
      var rest := SplitLines(s[1..]);
      JoinSplitLines(s[1..]);
      if s[0] == '\n' {
        assert SplitLines(s) == [""] + rest;
        assert ([""] + rest)[1..] == rest;
      } else {
        JoinPrefixFirst([s[0]], rest, "\n");
      }
    }
  }

  /** Joining pieces free of line feeds and splitting again gives back the pieces. */
  lemma {:induction false} SplitJoinLines(parts: seq<string>)
    requires parts != []
    requires forall i :: 0 <= i < |parts| ==> '\n' !in parts[i]
    ensures SplitLines(Join(parts, "\n")) == parts
  {
    if |parts| == 1 {
      SplitLinesNoBreak(parts[0]);
    } else {
      SplitJoinLines(parts[1..]);
      SplitLinesAfterPiece(parts[0], Join(parts[1..], "\n"));
      assert [parts[0]] + parts[1..] == parts;
    }
  }

  lemma {:induction false} SplitLinesNoBreak(s: string)
    requires '\n' !in s
    ensures SplitLines(s) == [s]
  {
    if s != [] {
      assert '\n' !in s[1..] by {
        forall i | 0 <= i < |s[1..]| ensures s[1..][i] != '\n' {
          assert s[1..][i] == s[i + 1];
        }
      }
      SplitLinesNoBreak(s[1..]);
      assert [s[0]] + s[1..] == s;
    }
  }

  lemma {:induction false} SplitLinesAfterPiece(p: string, t: string)
    requires '\n' !in p
    ensures SplitLines(p + "\n" + t) == [p] + SplitLines(t)
  {
    if p == [] {
      assert p + "\n" + t == "\n" + t;
      assert ("\n" + t)[1..] == t;
    } else {
      assert '\n' !in p[1..] by {
        forall i | 0 <= i < |p[1..]| ensures p[1..][i] != '\n' {
          assert p[1..][i] == p[i + 1];
        }
      }
      SplitLinesAfterPiece(p[1..], t);
      assert (p + "\n" + t)[1..] == p[1..] + "\n" + t;
      assert [p[0]] + p[1..] == p;
    }
  }

  /** `s.replace(/\r\n/g, '\n')`: every CR LF pair, scanned left to right, becomes LF. */
  function ReplaceCrlf(s: string): (r: string)
    ensures |r| <= |s|
  {
    if |s| >= 2 && s[0] == '\r' && s[1] == '\n' then "\n" + ReplaceCrlf(s[2..])
    else if s == [] then ""
    else [s[0]] + ReplaceCrlf(s[1..])
  }

  /** The characters of `s` other than carriage returns, in order. */
  function WithoutCr(s: string): string {
    if s == [] then "" else (if s[0] == '\r' then "" else [s[0]]) + WithoutCr(s[1..])
  }

  /** The replacement only ever deletes carriage returns: every other character
      survives, in order, and text without carriage returns is left alone. */
  lemma {:induction false} ReplaceCrlfDeletesOnlyCr(s: string)
    ensures WithoutCr(ReplaceCrlf(s)) == WithoutCr(s)
    ensures '\r' !in s ==> ReplaceCrlf(s) == s
  {
    if |s| >= 2 && s[0] == '\r' && s[1] == '\n' {
      ReplaceCrlfDeletesOnlyCr(s[2..]);
      assert s[1..][1..] == s[2..];
      assert ("\n" + ReplaceCrlf(s[2..]))[1..] == ReplaceCrlf(s[2..]);
    } else if s != [] {
      ReplaceCrlfDeletesOnlyCr(s[1..]);
      assert ([s[0]] + ReplaceCrlf(s[1..]))[1..] == ReplaceCrlf(s[1..]);
      if '\r' !in s {
        assert '\r' !in s[1..] by {
          forall i | 0 <= i < |s[1..]| ensures s[1..][i] != '\r' {
            assert s[1..][i] == s[i + 1];
          }
        }
        assert [s[0]] + s[1..] == s;
      }
    }
  }

  /** Character by character: every character is kept except a carriage
      return directly followed by a line feed. */
  function KeepCr(s: string): string {
    if s == [] then ""
    else (if |s| >= 2 && s[0] == '\r' && s[1] == '\n' then "" else [s[0]]) + KeepCr(s[1..])
  }

  /** The replacement removes exactly the carriage returns that start a CR LF
      pair: a lone carriage return is kept. */
  lemma {:induction false} ReplaceCrlfIsKeepCr(s: string)
    ensures ReplaceCrlf(s) == KeepCr(s)
  {
    if |s| >= 2 && s[0] == '\r' && s[1] == '\n' {
      ReplaceCrlfIsKeepCr(s[2..]);
      var t := s[1..];
      assert t[0] == '\n' && t[1..] == s[2..];
      assert KeepCr(t) == "\n" + KeepCr(s[2..]);
    } else if s != [] {
      ReplaceCrlfIsKeepCr(s[1..]);
    }
  }
}
