/**
 * The Python string operations the request handlers rely on: `str.lower`
 * (restricted to ASCII letters), `str.strip`, `str.splitlines`, the substring
 * test `q in s`, and the ordering `sorted` uses on strings.
 */
module Text {

  /** `c.isspace()` in Python: the characters `str.strip()` removes. */
  predicate IsSpace(c: char) {
    || c == ' '
    || ('\t' <= c <= '\r')
    || ('\U{1c}' <= c <= '\U{1f}')
    || c == '\U{85}' || c == '\U{a0}' || c == '\U{1680}'
    || ('\U{2000}' <= c <= '\U{200a}')
    || c == '\U{2028}' || c == '\U{2029}' || c == '\U{202f}' || c == '\U{205f}' || c == '\U{3000}'
  }

  /** The characters at which `str.splitlines()` ends a line. */
  predicate IsLineBreak(c: char) {
    || c == '\n' || c == '\r' || c == '\U{b}' || c == '\U{c}'
    || ('\U{1c}' <= c <= '\U{1e}')
    || c == '\U{85}' || c == '\U{2028}' || c == '\U{2029}'
  }

  /** Every line-break character is also whitespace. */
  lemma LineBreakIsSpace(c: char)
    ensures IsLineBreak(c) ==> IsSpace(c)
  {
  }

  predicate AllSpace(s: string) {
    forall i :: 0 <= i < |s| ==> IsSpace(s[i])
  }

  // ---------------------------------------------------------------- lower

  function LowerChar(c: char): char {
    if 'A' <= c <= 'Z' then (c as int + 32) as char else c
  }

  /** `s.lower()` on ASCII letters; every other character is kept. */
  function Lower(s: string): (r: string)
    ensures |r| == |s|
  {
    seq(|s|, i requires 0 <= i < |s| => LowerChar(s[i]))
  }

  /** Lowering is done character by character, so it distributes over concatenation. */
  lemma LowerConcat(a: string, b: string)
    ensures Lower(a + b) == Lower(a) + Lower(b)
  {
    assert forall i :: 0 <= i < |a| ==> Lower(a + b)[i] == Lower(a)[i];
    assert forall i :: |a| <= i < |a| + |b| ==> Lower(a + b)[i] == Lower(b)[i - |a|];
  }

  /** Lowering twice is lowering once. */
  lemma LowerIdempotent(s: string)
    ensures Lower(Lower(s)) == Lower(s)
  {
  }

  // ---------------------------------------------------------------- strip

  /** `s.lstrip()`: drop leading whitespace. */
  function StripStart(s: string): (r: string)
    ensures |r| <= |s|
    decreases |s|
  {
    if s != [] && IsSpace(s[0]) then StripStart(s[1..]) else s
  }

  /** `lstrip` keeps a suffix, drops only whitespace, and stops at a character that is not. */
  lemma {:induction false} StripStartSpec(s: string)
    ensures var r := StripStart(s);
      && r == s[|s| - |r|..] && AllSpace(s[..|s| - |r|])
      && (r == [] || !IsSpace(r[0]))
    decreases |s|
  {
    if s != [] && IsSpace(s[0]) {
      var tail := s[1..];
      var r := StripStart(tail);
      var cut := |tail| - |r|;
      StripStartSpec(tail);
      assert r == s[cut + 1..] by {
        assert tail[cut..] == s[cut + 1..];
      }
      assert AllSpace(s[..cut + 1]) by {
        assert s[..cut + 1] == [s[0]] + tail[..cut];
      }
    }
  }

  /** `s.rstrip()`: drop trailing whitespace. */
  function StripEnd(s: string): (r: string)
    ensures |r| <= |s|
    decreases |s|
  {
    if s != [] && IsSpace(s[|s| - 1]) then StripEnd(s[..|s| - 1]) else s
  }

  /** `rstrip` keeps a prefix, drops only whitespace, and stops at a character that is not. */
  lemma {:induction false} StripEndSpec(s: string)
    ensures var r := StripEnd(s);
      && r == s[..|r|] && AllSpace(s[|r|..])
      && (r == [] || !IsSpace(r[|r| - 1]))
    decreases |s|
  {
    if s != [] && IsSpace(s[|s| - 1]) {
      var init := s[..|s| - 1];
      var r := StripEnd(init);
      StripEndSpec(init);
      assert init[..|r|] == s[..|r|];
      assert forall i :: 0 <= i < |s| - |r| - 1 ==> s[|r|..][i] == init[|r|..][i];
    }
  }

  /** `s.strip()`. */
  function Strip(s: string): string {
    StripEnd(StripStart(s))
  }

  /**
   * What `strip` returns: the slice of `s` that starts after the leading
   * whitespace, with only whitespace after it.
   */
  lemma StripSlice(s: string)
    ensures var i, r := |s| - |StripStart(s)|, Strip(s);
      && i + |r| <= |s| && r == s[i..i + |r|]
      && AllSpace(s[..i]) && AllSpace(s[i + |r|..])
  {
    var t := StripStart(s);
    var r := StripEnd(t);
    var i := |s| - |t|;
    StripStartSpec(s);
    StripEndSpec(t);
    assert t[..|r|] == s[i..i + |r|];
    assert s[i + |r|..] == t[|r|..];
  }

  /** What `strip` returns neither starts nor ends with whitespace. */
  lemma StripEnds(s: string)
    ensures Strip(s) == [] || (!IsSpace(Strip(s)[0]) && !IsSpace(Strip(s)[|Strip(s)| - 1]))
  {
    var t := StripStart(s);
    var r := StripEnd(t);
    StripStartSpec(s);
    StripEndSpec(t);
    if r != [] {
      assert r[0] == t[0];
    }
  }

  /** A line is blank (`strip` leaves nothing) exactly when all its characters are whitespace. */
  lemma {:induction false} StripBlank(s: string)
    ensures Strip(s) == [] <==> AllSpace(s)
  {
    var t := StripStart(s);
    StripStartSpec(s);
    StripEndSpec(t);
    assert s == s[..|s| - |t|] + t;
    assert t != [] ==> t[0] == s[|s| - |t|];
    if Strip(s) == [] {
      assert t == [] by {
        assert AllSpace(t[0..]);
      }
      assert s[..|s|] == s;
    }
  }

  /** Stripping a stripped string changes nothing. */
  lemma StripIdempotent(s: string)
    ensures Strip(Strip(s)) == Strip(s)
  {
    var r := Strip(s);
    StripEnds(s);
    if r != [] {
      assert StripStart(r) == r;
      assert StripEnd(r) == r;
    }
  }

  /** Where the first line ends: the index of the first line break, or `|s|`. */
  function LineEnd(s: string): (k: nat)
    ensures k <= |s|
    decreases |s|
  {
    if s == [] || IsLineBreak(s[0]) then 0 else 1 + LineEnd(s[1..])
  }

  /** The first line holds no break, and a break follows it unless the text ends. */
  lemma {:induction false} LineEndSpec(s: string)
    ensures NoLineBreak(s[..LineEnd(s)])
    ensures LineEnd(s) < |s| ==> IsLineBreak(s[LineEnd(s)])
    decreases |s|
  {
    if s != [] && !IsLineBreak(s[0]) {
      LineEndSpec(s[1..]);
      assert s[..LineEnd(s)] == [s[0]] + s[1..][..LineEnd(s[1..])];
    }
  }

  /** How many characters the line break at `k` takes: "\r\n" counts as one break. */
  function BreakWidth(s: string, k: nat): nat
    requires k < |s|
  {
    if s[k] == '\r' && k + 1 < |s| && s[k + 1] == '\n' then 2 else 1
  }

  /**
   * `s.splitlines()`: the lines of `s` without their line breaks; a final line
   * break does not start another, empty, line.
   */
  function SplitLines(s: string): (lines: seq<string>)
    decreases |s|
  {
    if s == [] then []
    else
      var k := LineEnd(s);
      if k == |s| then [s]
      else [s[..k]] + SplitLines(s[k + BreakWidth(s, k)..])
  }

  predicate NoLineBreak(s: string) {
    forall i :: 0 <= i < |s| ==> !IsLineBreak(s[i])
  }

  /** No line that `splitlines` returns holds a line break. */
  lemma {:induction false} SplitLinesHaveNoBreaks(s: string)
    ensures forall j :: 0 <= j < |SplitLines(s)| ==> NoLineBreak(SplitLines(s)[j])
    decreases |s|
  {
    if s != [] {
      var k := LineEnd(s);
      LineEndSpec(s);
      if k < |s| {
        SplitLinesHaveNoBreaks(s[k + BreakWidth(s, k)..]);
      } else {
        assert s[..k] == s;
      }
    }
  }

  /** Each line followed by "\n". */
  function JoinLines(lines: seq<string>): string
    decreases |lines|
  {
    if lines == [] then [] else lines[0] + "\n" + JoinLines(lines[1..])
  }

  /** The first line break of `l + "\n" + t` is the one after `l` when `l` has none. */
  lemma {:induction false} LineEndAfterLine(l: string, t: string)
    requires NoLineBreak(l)
    ensures LineEnd(l + "\n" + t) == |l|
    decreases |l|
  {
    if l != [] {
      assert (l + "\n" + t)[1..] == l[1..] + "\n" + t;
      LineEndAfterLine(l[1..], t);
    }
  }

  /** Joining lines that hold no break and splitting again gives the same lines back. */
  lemma {:induction false} SplitJoinLines(lines: seq<string>)
    requires forall j :: 0 <= j < |lines| ==> NoLineBreak(lines[j])
    ensures SplitLines(JoinLines(lines)) == lines
    decreases |lines|
  {
    if lines != [] {
      var l := lines[0];
      var t := JoinLines(lines[1..]);
      var s := l + "\n" + t;
      LineEndAfterLine(l, t);
      assert s[|l|] == '\n';
      assert s[..|l|] == l;
      assert s[|l| + 1..] == t;
      SplitJoinLines(lines[1..]);
    }
  }

  /** Text without a line break is one line. */
  lemma SplitSingleLine(s: string)
    requires s != [] && LineEnd(s) == |s|
    ensures JoinLines(SplitLines(s)) == s + "\n"
    ensures s[|s| - 1] != '\n'
  {
    assert SplitLines(s) == [s];
    assert [s][1..] == [];
    LineEndSpec(s);
    assert s[..LineEnd(s)] == s;
  }

  /** Text whose first line break is a "\n" at `k` is the line before it and the lines after it. */
  lemma SplitAtNewline(s: string, k: nat)
    requires k == LineEnd(s) && k < |s| && s[k] == '\n'
    ensures SplitLines(s) == [s[..k]] + SplitLines(s[k + 1..])
  {
    var w := BreakWidth(s, k);
    assert w == 1;
    assert SplitLines(s) == [s[..k]] + SplitLines(s[k + w..]);
  }

  lemma CutAtNewline(s: string, k: nat)
    requires k < |s| && s[k] == '\n'
    ensures s == s[..k] + "\n" + s[k + 1..]
  {
    assert s == s[..k] + [s[k]] + s[k + 1..];
  }

  lemma JoinFirstLine(l: string, rest: seq<string>)
    ensures JoinLines([l] + rest) == l + "\n" + JoinLines(rest)
  {
    assert ([l] + rest)[1..] == rest;
  }

  /** Text whose only line-break character is "\n". */
  predicate OnlyNewlines(s: string) {
    forall i :: 0 <= i < |s| && IsLineBreak(s[i]) ==> s[i] == '\n'
  }

  lemma OnlyNewlinesAfter(s: string, j: nat)
    requires OnlyNewlines(s) && j <= |s|
    ensures OnlyNewlines(s[j..])
  {
    assert forall i :: 0 <= i < |s| - j ==> s[j..][i] == s[j + i];
  }

  /** Putting a line and a "\n" in front keeps a text's final "\n", or its lack. */
  lemma LastLineEnding(line: string, rest: string, joined: string)
    requires joined == if rest == [] || rest[|rest| - 1] == '\n' then rest else rest + "\n"
    ensures var s := line + "\n" + rest;
      line + "\n" + joined == if s[|s| - 1] == '\n' then s else s + "\n"
  {
    var s := line + "\n" + rest;
    if rest != [] {
      assert s[|s| - 1] == rest[|rest| - 1];
    }
  }

  /**
   * For text whose only line break is "\n", splitting and joining again gives
   * the text back, with a final "\n" added when it had none.
   */
  lemma {:induction false} JoinSplitLines(s: string)
    requires OnlyNewlines(s)
    ensures JoinLines(SplitLines(s)) == if s == [] || s[|s| - 1] == '\n' then s else s + "\n"
    decreases |s|
  {
    if s != [] {
      var k := LineEnd(s);
      LineEndSpec(s);
      if k == |s| {
        SplitSingleLine(s);
      } else {
        var rest := s[k + 1..];
        SplitAtNewline(s, k);
        CutAtNewline(s, k);
        JoinFirstLine(s[..k], SplitLines(rest));
        OnlyNewlinesAfter(s, k + 1);
        JoinSplitLines(rest);
        LastLineEnding(s[..k], rest, JoinLines(SplitLines(rest)));
      }
    }
  }

  // ---------------------------------------------------------------- substring

  /** `needle in hay` for Python strings: `needle` occurs at some offset of `hay`. */
  predicate Contains(hay: string, needle: string) {
    exists i | 0 <= i <= |hay| - |needle| :: OccursAt(hay, needle, i)
  }

  predicate OccursAt(hay: string, needle: string, i: int) {
    0 <= i <= |hay| - |needle| && hay[i..i + |needle|] == needle
  }

  // ---------------------------------------------------------------- ordering

  /** Python's `<` on strings: lexicographic by code point, a proper prefix first. */
  predicate Less(a: string, b: string)
    decreases |a|
  {
    if a == [] then b != []
    else if b == [] then false
    else if a[0] != b[0] then a[0] < b[0]
    else Less(a[1..], b[1..])
  }

  lemma {:induction false} LessIrreflexive(a: string)
    ensures !Less(a, a)
    decreases |a|
  {
    if a != [] {
      LessIrreflexive(a[1..]);
    }
  }

  lemma {:induction false} LessTransitive(a: string, b: string, c: string)
    requires Less(a, b) && Less(b, c)
    ensures Less(a, c)
    decreases |a|
  {
    if a != [] && b != [] && c != [] && a[0] == b[0] && b[0] == c[0] {
      LessTransitive(a[1..], b[1..], c[1..]);
    }
  }

  lemma {:induction false} LessTotal(a: string, b: string)
    ensures a == b || Less(a, b) || Less(b, a)
    decreases |a|
  {
    if a != [] && b != [] && a[0] == b[0] {
      LessTotal(a[1..], b[1..]);
      if a[1..] == b[1..] {
        assert a == [a[0]] + a[1..] && b == [b[0]] + b[1..];
      }
    }
  }

  /** Each string is before every later one: sorted, and therefore without duplicates. */
  ghost predicate StrictlySorted(s: seq<string>) {
    forall i, j :: 0 <= i < j < |s| ==> Less(s[i], s[j])
  }

  lemma StrictlySortedDistinct(s: seq<string>)
    requires StrictlySorted(s)
    ensures forall i, j :: 0 <= i < j < |s| ==> s[i] != s[j]
  {
    forall i, j | 0 <= i < j < |s| ensures s[i] != s[j] {
      LessIrreflexive(s[i]);
    }
  }

  /** A string before the first element of a sorted list is before all of them. */
  lemma LessThanSorted(x: string, s: seq<string>)
    requires StrictlySorted(s) && s != [] && Less(x, s[0])
    ensures forall j :: 0 <= j < |s| ==> Less(x, s[j])
  {
    forall j | 0 < j < |s| ensures Less(x, s[j]) {
      LessTransitive(x, s[0], s[j]);
    }
  }

  /** Adding `x` to a sorted list without duplicates, keeping it so. */
  function InsertSorted(x: string, s: seq<string>): (r: seq<string>)
    requires StrictlySorted(s)
    ensures StrictlySorted(r)
    ensures forall i :: 0 <= i < |r| ==> r[i] == x || r[i] in s
    ensures x in r && forall i :: 0 <= i < |s| ==> s[i] in r
    decreases |s|
  {
    if s == [] then [x]
    else if x == s[0] then s
    else if Less(x, s[0]) then
      LessThanSorted(x, s);
      [x] + s
    else
      LessTotal(x, s[0]);
      [s[0]] + InsertSorted(x, s[1..])
  }
}
