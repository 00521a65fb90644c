/**
 * The string operations of Python that the spider relies on: the substring
 * test `t in s`, `str(n)` for an integer (as `str.format` renders it),
 * `str.strip()` and `str.replace(c, '')` for a single character `c`.
 */
module PyStr {
  import opened PySeq

  /** `t` occurs in `s` starting at position `i`. */
  ghost predicate OccursAt(s: string, t: string, i: int)
  {
    0 <= i && i + |t| <= |s| && s[i..i + |t|] == t
  }

  /** Python's `t in s` on strings (the empty string occurs in every string). */
  function Contains(s: string, t: string): (r: bool)
    ensures r <==> exists i :: OccursAt(s, t, i)
    decreases |s|
  {
    if |t| > |s| then false
    else if s[..|t|] == t then
      assert OccursAt(s, t, 0);
      true
    else
      ShiftOccurrence(s, t);
      Contains(s[1..], t)
  }

  /** Occurrences in the tail of `s` are occurrences in `s` one position later. */
  lemma ShiftOccurrence(s: string, t: string)
    requires |t| <= |s| && s[..|t|] != t
    ensures (exists i :: OccursAt(s, t, i)) <==> (exists i :: OccursAt(s[1..], t, i))
  {
    if exists i :: OccursAt(s, t, i) {
      var i :| OccursAt(s, t, i);
      assert i != 0;
      assert s[1..][i - 1..i - 1 + |t|] == s[i..i + |t|];
      assert OccursAt(s[1..], t, i - 1);
    }
    if exists i :: OccursAt(s[1..], t, i) {
      var i :| OccursAt(s[1..], t, i);
      assert s[i + 1..i + 1 + |t|] == s[1..][i..i + |t|];
      assert OccursAt(s, t, i + 1);
    }
  }

  // ---------------------------------------------------------------------------
  // Decimal rendering of integers

  predicate IsDigit(c: char) { '0' <= c <= '9' }

  function DigitChar(d: nat): (c: char)
    requires d < 10
    ensures IsDigit(c)
  {
    (48 + d) as char
  }

  /** The decimal digits of `n`, most significant first, without leading zeros. */
  function NatDecimal(n: nat): (r: string)
    ensures |r| >= 1
    ensures forall k :: 0 <= k < |r| ==> IsDigit(r[k])
  {
    if n < 10 then [DigitChar(n)] else NatDecimal(n / 10) + [DigitChar(n % 10)]
  }

  /** Python's `str(n)` for an `int`: a minus sign for negatives, then the digits. */
  function Decimal(n: int): (r: string)
    ensures |r| >= 1
  {
    if n < 0 then "-" + NatDecimal(-n) else NatDecimal(n)
  }

  /** The value of a string of decimal digits. */
  function DigitsValue(s: string): int
  {
    if s == [] then 0 else DigitsValue(s[..|s| - 1]) * 10 + (s[|s| - 1] as int - 48)
  }

  /** Python's `int(s)` on what `Decimal` produces. */
  function DecimalValue(s: string): int
  {
    if |s| > 0 && s[0] == '-' then -DigitsValue(s[1..]) else DigitsValue(s)
  }

  lemma {:induction false} NatDecimalRoundTrip(n: nat)
    ensures DigitsValue(NatDecimal(n)) == n
  {
    if n >= 10 {
      NatDecimalRoundTrip(n / 10);
      var r := NatDecimal(n / 10) + [DigitChar(n % 10)];
      assert r[..|r| - 1] == NatDecimal(n / 10);
    }
  }

  /** Reading back what `Decimal` writes gives the number. */
  lemma DecimalRoundTrip(n: int)
    ensures DecimalValue(Decimal(n)) == n
    ensures |Decimal(n)| >= 1
    ensures forall k :: 0 <= k < |Decimal(n)| ==> IsDigit(Decimal(n)[k]) || Decimal(n)[k] == '-'
  {
    if n < 0 {
      NatDecimalRoundTrip(-n);
      assert ("-" + NatDecimal(-n))[1..] == NatDecimal(-n);
    } else {
      NatDecimalRoundTrip(n);
      assert IsDigit(NatDecimal(n)[0]);
    }
  }

  /** Distinct integers render as distinct strings. */
  lemma DecimalInjective(m: int, n: int)
    requires Decimal(m) == Decimal(n)
    ensures m == n
  {
    DecimalRoundTrip(m);
    DecimalRoundTrip(n);
  }

  // ---------------------------------------------------------------------------
  // str.strip()

  /** The characters Python's `str.isspace` accepts. */
  predicate IsSpace(c: char)
  {
    ('\t' <= c <= '\r') || ('\U{1C}' <= c <= ' ') || c == '\U{85}' || c == '\U{A0}'
    || c == '\U{1680}' || ('\U{2000}' <= c <= '\U{200A}') || c == '\U{2028}' || c == '\U{2029}'
    || c == '\U{202F}' || c == '\U{205F}' || c == '\U{3000}'
  }

  /** The number of leading whitespace characters of `s`. */
  function LeadingSpaces(s: string): (n: nat)
    ensures n <= |s|
    ensures forall k :: 0 <= k < n ==> IsSpace(s[k])
    ensures n == |s| || !IsSpace(s[n])
  {
    if s != [] && IsSpace(s[0]) then 1 + LeadingSpaces(s[1..]) else 0
  }

  /** The number of trailing whitespace characters of `s`. */
  function TrailingSpaces(s: string): (n: nat)
    ensures n <= |s|
    ensures forall k :: |s| - n <= k < |s| ==> IsSpace(s[k])
    ensures n == |s| || !IsSpace(s[|s| - 1 - n])
  {
    if s != [] && IsSpace(s[|s| - 1]) then 1 + TrailingSpaces(s[..|s| - 1]) else 0
  }

  /** Python's `str.strip()` with no argument. */
  function Strip(s: string): (r: string)
    ensures exists i, j ::
              && 0 <= i <= j <= |s| && r == s[i..j]
              && (forall k :: 0 <= k < i ==> IsSpace(s[k]))
              && (forall k :: j <= k < |s| ==> IsSpace(s[k]))
    ensures r == [] || (!IsSpace(r[0]) && !IsSpace(r[|r| - 1]))
  {
    var i := LeadingSpaces(s);
    var rest := s[i..];
    var t := TrailingSpaces(rest);
    assert forall k :: |rest| - t <= k < |rest| ==> s[i + k] == rest[k];
    s[i..i + |rest| - t]
  }

  /** Stripping twice is stripping once. */
  lemma StripIdempotent(s: string)
    ensures Strip(Strip(s)) == Strip(s)
  {
    var r := Strip(s);
    assert LeadingSpaces(r) == 0;
    assert TrailingSpaces(r[0..]) == 0 by { assert r[0..] == r; }
    assert r[0..0 + |r| - 0] == r;
  }

  // ---------------------------------------------------------------------------
  // str.replace(c, '')

  /** Python's `s.replace(c, '')` for a one-character `c`: deletes every `c`. */
  function DeleteChar(s: string, c: char): (r: string)
    ensures c !in r && |r| <= |s|
  {
    Filter(s, (x: char) => x != c)
  }

  /** Deleting `c` is filtering by any test that rejects exactly `c`. */
  lemma DeleteCharIsFilter(s: string, c: char, keep: char -> bool)
    requires forall x :: keep(x) == (x != c)
    ensures DeleteChar(s, c) == Filter(s, keep)
  {
    FilterExt(s, (x: char) => x != c, keep);
  }

  /**
   * Deleting `c` leaves no `c`, keeps every other character in order and
   * with its multiplicity, and changes nothing in a string without `c`.
   */
  lemma DeleteCharSpec(s: string, c: char)
    ensures c !in DeleteChar(s, c)
    ensures IsSubsequence(DeleteChar(s, c), s)
    ensures forall x :: x != c ==> multiset(DeleteChar(s, c))[x] == multiset(s)[x]
    ensures c !in s ==> DeleteChar(s, c) == s
  {
    var keep := (x: char) => x != c;
    FilterIsSubsequence(s, keep);
    FilterCounts(s, keep);
    if c !in s {
      FilterKeepsAll(s, keep);
    }
  }
}
