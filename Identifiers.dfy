/**
 * The human-readable record numbers: a four-letter prefix ("SPLB" for bugs,
 * "SPLF" for fixes) followed by the decimal digits of a number in
 * 1000..9999, as Python's f'SPLB{random.randint(1000, 9999)}' writes it.
 * `Free` is the set of suffixes no stored record uses, the set from which
 * the random draw succeeds.
 */
module Identifiers {
  import opened Wrappers

  const BugPrefix: string := "SPLB"
  const FixPrefix: string := "SPLF"
  const MinSuffix: int := 1000
  const MaxSuffix: int := 9999
  /** `max_length` of the `splab_number` columns. */
  const NumberMaxLength: nat := 8

  predicate InRange(n: int) {
    MinSuffix <= n <= MaxSuffix
  }

  function DigitChar(d: int): char
    requires 0 <= d < 10
  {
    ('0' as int + d) as char
  }

  predicate IsDigit(c: char) {
    '0' <= c <= '9'
  }

  function DigitValue(c: char): int
    requires IsDigit(c)
  {
    c as int - '0' as int
  }

  /** The decimal digits of a four-digit number, most significant first. */
  function Suffix(n: int): string
    requires InRange(n)
  {
    var n1 := n / 10;
    var n2 := n1 / 10;
    [DigitChar(n2 / 10), DigitChar(n2 % 10), DigitChar(n1 % 10), DigitChar(n % 10)]
  }

  /** The digits `a`, `b`, `c`, `d` are what `Suffix` reads off 1000a + 100b + 10c + d. */
  lemma DigitsOfNumber(a: int, b: int, c: int, d: int)
    requires 0 <= a < 10 && 0 <= b < 10 && 0 <= c < 10 && 0 <= d < 10
    ensures var n := 1000 * a + 100 * b + 10 * c + d;
      n % 10 == d && n / 10 == 100 * a + 10 * b + c
      && (n / 10) % 10 == c && (n / 10) / 10 == 10 * a + b
      && (n / 10 / 10) % 10 == b && (n / 10 / 10) / 10 == a
  {
  }

  /** The record number `prefix` + `n`. */
  function Tag(prefix: string, n: int): (s: string)
    requires InRange(n)
    ensures |s| == |prefix| + 4
  {
    prefix + Suffix(n)
  }

  /** With a four-letter prefix every record number fits the column's `max_length` of 8. */
  lemma TagFitsColumn(prefix: string, n: int)
    requires |prefix| == 4 && InRange(n)
    ensures |Tag(prefix, n)| <= NumberMaxLength
  {
  }

  /** Reading a record number back: the suffix `n` when `s` is exactly `prefix` + `n`. */
  function ParseTag(prefix: string, s: string): (r: Option<int>)
    ensures r.Some? ==> InRange(r.value) && Tag(prefix, r.value) == s
  {
    var p := |prefix|;
    if |s| == p + 4 && s[..p] == prefix && IsDigit(s[p]) && IsDigit(s[p + 1]) && IsDigit(s[p + 2]) && IsDigit(s[p + 3]) then
      var a, b, c, d := DigitValue(s[p]), DigitValue(s[p + 1]), DigitValue(s[p + 2]), DigitValue(s[p + 3]);
      var n := 1000 * a + 100 * b + 10 * c + d;
      if InRange(n) then
        DigitsOfNumber(a, b, c, d);
        assert s == prefix + [s[p], s[p + 1], s[p + 2], s[p + 3]];
        Some(n)
      else None
    else None
  }

  /** Formatting then reading a record number gives the suffix back; so `Tag` is injective. */
  lemma TagRoundTrip(prefix: string, n: int)
    requires InRange(n)
    ensures ParseTag(prefix, Tag(prefix, n)) == Some(n)
  {
    var s := Tag(prefix, n);
    var p := |prefix|;
    var n1 := n / 10;
    var n2 := n1 / 10;
    assert n == 1000 * (n2 / 10) + 100 * (n2 % 10) + 10 * (n1 % 10) + n % 10;
    assert s[..p] == prefix;
    assert DigitValue(s[p]) == n2 / 10;
    assert DigitValue(s[p + 1]) == n2 % 10;
    assert DigitValue(s[p + 2]) == n1 % 10;
    assert DigitValue(s[p + 3]) == n % 10;
  }

  /** The suffixes already used, with this prefix, by one of `numbers`. */
  function Claimed(prefix: string, numbers: seq<Option<string>>): set<int> {
    set n | MinSuffix <= n <= MaxSuffix && Some(Tag(prefix, n)) in numbers
  }

  /** The suffixes still free: a draw of one of these is accepted. */
  function Free(prefix: string, numbers: seq<Option<string>>): set<int> {
    set n | MinSuffix <= n <= MaxSuffix && Some(Tag(prefix, n)) !in numbers
  }

  /** A free suffix is in range and gives a number no record holds. */
  lemma FreeMeansUnused(prefix: string, numbers: seq<Option<string>>, n: int)
    requires n in Free(prefix, numbers)
    ensures InRange(n)
    ensures forall i :: 0 <= i < |numbers| ==> numbers[i] != Some(Tag(prefix, n))
  {
  }

  /** `lo <= n <= hi`, named so that `Range` has a term to match on. */
  predicate Between(lo: int, n: int, hi: int) {
    lo <= n <= hi
  }

  function Range(lo: int, hi: int): set<int> {
    set n | lo <= n <= hi && Between(lo, n, hi)
  }

  lemma {:induction false} RangeSize(lo: int, hi: int)
    requires lo <= hi + 1
    ensures |Range(lo, hi)| == hi - lo + 1
    decreases hi - lo
  {
    if lo == hi + 1 {
      assert Range(lo, hi) == {};
    } else {
      RangeSize(lo, hi - 1);
      assert Range(lo, hi) == Range(lo, hi - 1) + {hi};
    }
  }

  lemma SubsetSize<T>(a: set<T>, b: set<T>)
    requires a <= b
    ensures |a| <= |b|
  {
    assert b == a + (b - a);
  }

  /** Each stored number claims at most one suffix, so at most |numbers| suffixes are claimed. */
  lemma {:induction false} ClaimedSize(prefix: string, numbers: seq<Option<string>>)
    ensures |Claimed(prefix, numbers)| <= |numbers|
    decreases |numbers|
  {
    if numbers == [] {
      assert Claimed(prefix, numbers) == {};
    } else {
      var init := numbers[..|numbers| - 1];
      var last := numbers[|numbers| - 1];
      assert numbers == init + [last];
      var own: set<int> := if last.Some? && ParseTag(prefix, last.value).Some? then {ParseTag(prefix, last.value).value} else {};
      forall n | n in Claimed(prefix, numbers) ensures n in Claimed(prefix, init) + own {
        if Some(Tag(prefix, n)) !in init {
          assert last == Some(Tag(prefix, n));
          TagRoundTrip(prefix, n);
        }
      }
      ClaimedSize(prefix, init);
      SubsetSize(Claimed(prefix, numbers), Claimed(prefix, init) + own);
    }
  }

  /**
   * While fewer than 9000 records exist a free suffix remains, so the source's
   * retry loop ends; with 9000 records holding every number it would spin forever.
   */
  lemma FreeWhileRoomLeft(prefix: string, numbers: seq<Option<string>>)
    requires |numbers| < MaxSuffix - MinSuffix + 1
    ensures Free(prefix, numbers) != {}
  {
    var all := Range(MinSuffix, MaxSuffix);
    RangeSize(MinSuffix, MaxSuffix);
    ClaimedSize(prefix, numbers);
    assert all == Free(prefix, numbers) + Claimed(prefix, numbers);
    assert Free(prefix, numbers) !! Claimed(prefix, numbers);
  }
}
