/**
 * The Python 2 `str` operations the model relies on: `lstrip`, `rstrip`,
 * `strip`, `lower`, `startswith` (written as the sequence prefix `p <= s`)
 * and `splitlines`. Python 2 `str` values are byte strings, so whitespace,
 * case and line breaks are the ASCII ones.
 */
module PyText {

  /** The characters Python 2's `str.isspace` and `str.strip` treat as whitespace. */
  predicate IsSpace(c: char)
  {
    c == ' ' || c == '\t' || c == '\n' || c == '\r' || c == '\U{000B}' || c == '\U{000C}'
  }

  /** True when `s` holds nothing but whitespace (the empty string included). */
  predicate IsBlank(s: string)
  {
    forall k :: 0 <= k < |s| ==> IsSpace(s[k])
  }

  /** `s.lstrip()`: the longest suffix of `s` that does not start with whitespace. */
  function LStrip(s: string): (r: string)
    ensures |r| <= |s| && r == s[|s| - |r|..]
    ensures IsBlank(s[..|s| - |r|])
    ensures r == [] || !IsSpace(r[0])
    decreases |s|
  {
    if s != [] && IsSpace(s[0]) then LStrip(s[1..]) else s
  }

  /** `s.rstrip()`: the longest prefix of `s` that does not end with whitespace. */
  function RStrip(s: string): (r: string)
    ensures |r| <= |s| && r == s[..|r|]
    ensures IsBlank(s[|r|..])
    ensures r == [] || !IsSpace(r[|r| - 1])
    decreases |s|
  {
    if s != [] && IsSpace(s[|s| - 1]) then RStrip(s[..|s| - 1]) else s
  }

  /** `s.strip()`: `s` without its leading and trailing whitespace. */
  function Strip(s: string): (r: string)
    ensures r == [] || (!IsSpace(r[0]) && !IsSpace(r[|r| - 1]))
    ensures r == [] <==> IsBlank(s)
  {
    var l := LStrip(s);
    var r := RStrip(l);
    assert r == [] ==> IsBlank(l);
    r
  }

  /** Leading whitespace in front of a non-blank start is all that `lstrip` removes. */
  lemma {:induction false} LStripPadded(pre: string, y: string)
    requires IsBlank(pre)
    requires y != [] && !IsSpace(y[0])
    ensures LStrip(pre + y) == y
  {
    if pre != [] {
      assert (pre + y)[1..] == pre[1..] + y;
      LStripPadded(pre[1..], y);
    }
  }

  /** Trailing whitespace after a non-blank end is all that `rstrip` removes. */
  lemma {:induction false} RStripPadded(y: string, post: string)
    requires IsBlank(post)
    requires y != [] && !IsSpace(y[|y| - 1])
    ensures RStrip(y + post) == y
  {
    if post != [] {
      assert (y + post)[..|y + post| - 1] == y + post[..|post| - 1];
      RStripPadded(y, post[..|post| - 1]);
    }
  }

  /** Stripping text padded with whitespace gives back the text itself. */
  lemma StripPadded(pre: string, x: string, post: string)
    requires IsBlank(pre) && IsBlank(post)
    requires x != [] && !IsSpace(x[0]) && !IsSpace(x[|x| - 1])
    ensures Strip(pre + x + post) == x
  {
    assert pre + x + post == pre + (x + post);
    LStripPadded(pre, x + post);
    RStripPadded(x, post);
  }

  /** Text with no whitespace at either end is its own strip. */
  lemma StripUnpadded(x: string)
    requires x != [] && !IsSpace(x[0]) && !IsSpace(x[|x| - 1])
    ensures Strip(x) == x
  {
    LStripPadded([], x);
    assert [] + x == x;
    RStripPadded(x, []);
    assert x + [] == x;
  }

  /** The ASCII lower-case of `c`; every other character is left alone. */
  function LowerChar(c: char): (r: char)
    ensures 'A' <= c <= 'Z' ==> 'a' <= r <= 'z' && r as int - c as int == 'a' as int - 'A' as int
    ensures !('A' <= c <= 'Z') ==> r == c
  {
    if 'A' <= c <= 'Z' then (c as int - 'A' as int + 'a' as int) as char else c
  }

  /** `s.lower()` for a Python 2 byte string. */
  function Lower(s: string): (r: string)
    ensures |r| == |s|
    ensures forall k :: 0 <= k < |s| ==> r[k] == LowerChar(s[k])
  {
    if s == [] then [] else [LowerChar(s[0])] + Lower(s[1..])
  }

  /** Lower-casing works character by character, so it distributes over concatenation. */
  lemma LowerAppend(a: string, b: string)
    ensures Lower(a + b) == Lower(a) + Lower(b)
  {
  }

  /** The line boundaries of Python 2's `str.splitlines`: LF, CR (and CR LF as one). */
  predicate IsLineBreak(c: char)
  {
    c == '\n' || c == '\r'
  }

  predicate NoLineBreak(line: string)
  {
    forall j :: 0 <= j < |line| ==> !IsLineBreak(line[j])
  }

  /** The index of the first line break in `s`, or `|s|` when there is none. */
  function LineEnd(s: string): (i: nat)
    ensures i <= |s|
    ensures NoLineBreak(s[..i])
    ensures i < |s| ==> IsLineBreak(s[i])
  {
    if s == [] || IsLineBreak(s[0]) then 0 else 1 + LineEnd(s[1..])
  }

  /**
   * `s.splitlines()`: the lines of `s` without their terminators; a final
   * terminator does not start another, empty, line.
   */
  function SplitLines(s: string): (lines: seq<string>)
    ensures forall k :: 0 <= k < |lines| ==> NoLineBreak(lines[k])
    ensures s == [] <==> lines == []
    decreases |s|
  {
    if s == [] then []
    else
      var i := LineEnd(s);
      if i == |s| then [s]
      else
        var next := if s[i] == '\r' && i + 1 < |s| && s[i + 1] == '\n' then i + 2 else i + 1;
        [s[..i]] + SplitLines(s[next..])
  }

  /** Text without a line break is a single line. */
  lemma SplitLinesOne(line: string)
    requires line != [] && NoLineBreak(line)
    ensures SplitLines(line) == [line]
  {
  }

  /**
   * A line, one terminator (LF, CR LF, or a CR not followed by LF) and the
   * rest: that line, then the lines of the rest. With `SplitLinesOne` and
   * the empty text this determines `SplitLines` on every input.
   */
  lemma SplitLinesCons(line: string, brk: string, rest: string)
    requires NoLineBreak(line)
    requires brk == "\n" || brk == "\r\n" || (brk == "\r" && !("\n" <= rest))
    ensures SplitLines(line + brk + rest) == [line] + SplitLines(rest)
  {
    var s := line + brk + rest;
    assert s[..|line|] == line;
    assert s[|line|] == brk[0];
    assert LineEnd(s) == |line|;
    if brk == "\r" && rest != [] {
      assert s[|line| + 1] == rest[0];
    }
    assert s[|line| + |brk|..] == rest;
  }

  /** Every line followed by a line feed: the text `SplitLines` reads back. */
  function JoinLines(lines: seq<string>): string
  {
    if lines == [] then [] else lines[0] + "\n" + JoinLines(lines[1..])
  }

  /** Splitting terminated lines gives back exactly those lines, empty ones included. */
  lemma {:induction false} SplitJoinLines(lines: seq<string>)
    requires forall k :: 0 <= k < |lines| ==> NoLineBreak(lines[k])
    ensures SplitLines(JoinLines(lines)) == lines
  {
    if lines != [] {
      var l, rest := lines[0], JoinLines(lines[1..]);
      var s := l + "\n" + rest;
      assert s[|l|] == '\n';
      assert s[..|l|] == l;
      assert LineEnd(s) == |l|;
      assert s[|l| + 1..] == rest;
      SplitJoinLines(lines[1..]);
    }
  }
}
