/**
 * The few pieces of Rust's standard library that the completion server's
 * core relies on, stated as Dafny functions: `Option::unwrap_or`,
 * `std::cmp::min`, `char::is_whitespace`, `str::replace`, the decimal
 * rendering of `usize::to_string` / `i32` serialisation, and the `as i32`
 * cast. Strings are sequences of Unicode scalar values.
 */
module RustStd {

  datatype Option<T> = None | Some(value: T) {
    /** `Option::unwrap_or`. */
    function UnwrapOr(default: T): (r: T)
      ensures Some? ==> r == value
      ensures None? ==> r == default
    {
      match this
      case Some(v) => v
      case None => default
    }
  }

  /** `std::cmp::min` on unbounded integers. */
  function Min(a: int, b: int): (r: int)
    ensures r <= a && r <= b
    ensures r == a || r == b
  {
    if a <= b then a else b
  }

  // ---------------------------------------------------------------------
  // char::is_whitespace
  // ---------------------------------------------------------------------

  /** The Unicode White_Space property, which is what `char::is_whitespace` tests. */
  predicate IsWhitespace(c: char) {
    ('\U{9}' <= c <= '\U{D}') || c == ' ' || c == '\U{85}' || c == '\U{A0}' || c == '\U{1680}'
    || ('\U{2000}' <= c <= '\U{200A}') || c == '\U{2028}' || c == '\U{2029}'
    || c == '\U{202F}' || c == '\U{205F}' || c == '\U{3000}'
  }

  predicate AllWhitespace(s: string) {
    forall i :: 0 <= i < |s| ==> IsWhitespace(s[i])
  }

  predicate NoWhitespace(s: string) {
    forall i :: 0 <= i < |s| ==> !IsWhitespace(s[i])
  }

  // ---------------------------------------------------------------------
  // str::starts_with / str::ends_with
  // ---------------------------------------------------------------------

  predicate StartsWith(s: string, prefix: string) {
    |prefix| <= |s| && s[..|prefix|] == prefix
  }

  predicate EndsWith(s: string, suffix: string) {
    |suffix| <= |s| && s[|s| - |suffix|..] == suffix
  }

  // ---------------------------------------------------------------------
  // str::replace
  // ---------------------------------------------------------------------

  /** `pat` occurs in `s` starting at position `i`. */
  predicate MatchAt(s: string, pat: string, i: nat) {
    i + |pat| <= |s| && s[i..i + |pat|] == pat
  }

  lemma MatchAtIndex(s: string, pat: string, i: nat, k: nat)
    requires MatchAt(s, pat, i) && k < |pat|
    ensures s[i + k] == pat[k]
  {
    assert s[i..i + |pat|][k] == s[i + k];
  }

  predicate Occurs(s: string, pat: string) {
    exists i: nat :: i <= |s| && MatchAt(s, pat, i)
  }

  /**
   * `s.replace(from, to)`: scan left to right, replace every non-overlapping
   * occurrence of `from` by `to`; inserted text is not scanned again. Every
   * call in the core passes a non-empty literal pattern.
   */
  function Replace(s: string, from: string, to: string): string
    requires |from| > 0
    decreases |s|
  {
    if MatchAt(s, from, 0) then to + Replace(s[|from|..], from, to)
    else if s == [] then []
    else [s[0]] + Replace(s[1..], from, to)
  }

  /** A string in which the pattern does not occur comes back unchanged. */
  lemma {:induction false} ReplaceNoOccurrence(s: string, from: string, to: string)
    requires |from| > 0
    requires !Occurs(s, from)
    ensures Replace(s, from, to) == s
    decreases |s|
  {
    if s != [] {
      assert !MatchAt(s, from, 0);
      var t := s[1..];
      if Occurs(t, from) {
        var i: nat :| i <= |t| && MatchAt(t, from, i);
        assert s[i + 1..i + 1 + |from|] == t[i..i + |from|];
        assert MatchAt(s, from, i + 1);
        assert false;
      }
      ReplaceNoOccurrence(t, from, to);
    }
  }

  /** A pattern with a character that `s` lacks does not occur in `s`. */
  lemma MissingCharNoOccurrence(s: string, pat: string, x: char)
    requires x in pat && x !in s
    ensures !Occurs(s, pat)
  {
    forall i: nat | i <= |s|
      ensures !MatchAt(s, pat, i)
    {
      if i + |pat| <= |s| {
        var j :| 0 <= j < |pat| && pat[j] == x;
        assert s[i..i + |pat|][j] != x;
      }
    }
  }

  lemma ReplaceMissingChar(s: string, from: string, to: string, x: char)
    requires |from| > 0 && x in from && x !in s
    ensures Replace(s, from, to) == s
  {
    MissingCharNoOccurrence(s, from, x);
    ReplaceNoOccurrence(s, from, to);
  }

  /** The pattern at the very start is replaced and scanning resumes after it. */
  lemma ReplaceAtStart(b: string, from: string, to: string)
    requires |from| > 0
    ensures Replace(from + b, from, to) == to + Replace(b, from, to)
  {
    var s := from + b;
    assert s[..|from|] == from;
    assert s[|from|..] == b;
  }

  /** The pattern alone is replaced by the replacement alone. */
  lemma ReplaceWhole(from: string, to: string)
    requires |from| > 0
    ensures Replace(from, from, to) == to
  {
    ReplaceAtStart([], from, to);
    assert from + [] == from;
    assert Replace([], from, to) == [];
  }

  /** A match at the start cannot run past a character foreign to the pattern. */
  lemma MatchBeforeForeign(a: string, c: char, b: string, from: string)
    requires |from| > 0 && c !in from
    ensures MatchAt(a + [c] + b, from, 0) <==> MatchAt(a, from, 0)
  {
    var s := a + [c] + b;
    if MatchAt(s, from, 0) {
      MatchAtIndex(s, from, 0, if |a| < |from| then |a| else 0);
      assert |from| <= |a|;
      assert a[..|from|] == s[..|from|];
    }
    if MatchAt(a, from, 0) {
      assert s[..|from|] == a[..|from|];
    }
  }

  lemma PrependRegroup(x: string, y: string, c: char, z: string)
    ensures x + (y + [c] + z) == x + y + [c] + z
  {
  }

  /** A character that is not part of the pattern splits the replacement in two. */
  lemma {:induction false} ReplaceSplit(a: string, c: char, b: string, from: string, to: string)
    requires |from| > 0 && c !in from
    ensures Replace(a + [c] + b, from, to) == Replace(a, from, to) + [c] + Replace(b, from, to)
    decreases |a|
  {
    var s := a + [c] + b;
    var rb := Replace(b, from, to);
    MatchBeforeForeign(a, c, b, from);
    if MatchAt(a, from, 0) {
      var rest := a[|from|..];
      assert s[|from|..] == rest + [c] + b;
      ReplaceSplit(rest, c, b, from, to);
      var r := Replace(rest, from, to);
      assert Replace(s, from, to) == to + (r + [c] + rb);
      assert Replace(a, from, to) == to + r;
      PrependRegroup(to, r, c, rb);
    } else if a == [] {
      assert s[1..] == b;
      assert Replace(s, from, to) == [c] + rb;
      assert Replace(a, from, to) == [];
    } else {
      var rest := a[1..];
      assert s[1..] == rest + [c] + b;
      assert s[0] == a[0];
      ReplaceSplit(rest, c, b, from, to);
      var r := Replace(rest, from, to);
      assert Replace(s, from, to) == [a[0]] + (r + [c] + rb);
      assert Replace(a, from, to) == [a[0]] + r;
      PrependRegroup([a[0]], r, c, rb);
    }
  }

  /**
   * Replacement distributes over a concatenation whose seam is flanked by a
   * character foreign to the pattern (no occurrence can straddle it).
   */
  lemma ReplaceJoin(a: string, b: string, from: string, to: string)
    requires |from| > 0
    requires (|a| > 0 && a[|a| - 1] !in from) || (|b| > 0 && b[0] !in from)
    ensures Replace(a + b, from, to) == Replace(a, from, to) + Replace(b, from, to)
  {
    if |a| > 0 && a[|a| - 1] !in from {
      var a', c := a[..|a| - 1], a[|a| - 1];
      assert a == a' + [c] + [];
      assert a + b == a' + [c] + b;
      ReplaceSplit(a', c, [], from, to);
      ReplaceSplit(a', c, b, from, to);
    } else {
      var c, b' := b[0], b[1..];
      assert b == [] + [c] + b';
      assert a + b == a + [c] + b';
      ReplaceSplit([], c, b', from, to);
      ReplaceSplit(a, c, b', from, to);
    }
  }

  /**
   * A template holding the pattern once, between a head and a tail that lack
   * one of its characters and with a head that cannot run into it, becomes
   * head, replacement, tail.
   */
  lemma ReplaceSingle(head: string, from: string, tail: string, to: string, x: char)
    requires |from| > 0 && x in from && x !in head && x !in tail
    requires |head| > 0 && head[|head| - 1] !in from
    ensures Replace(head + from + tail, from, to) == head + to + tail
  {
    var rest := from + tail;
    Regroup(head, from, tail);
    ReplaceJoin(head, rest, from, to);
    ReplaceMissingChar(head, from, to, x);
    ReplaceAtStart(tail, from, to);
    ReplaceMissingChar(tail, from, to, x);
    Regroup(head, to, tail);
  }

  // Concatenation regrouped; spelled out because long chains are slow to re-associate.

  lemma Regroup(a: string, b: string, c: string)
    ensures a + (b + c) == a + b + c
  {
  }

  lemma Regroup5(p: string, q: string, r: string, s: string, t: string)
    ensures p + q + r + s + t == p + (q + (r + s + t))
  {
  }

  /** The same for a template holding the pattern twice. */
  lemma ReplaceTwice(a: string, from: string, b: string, c: string, to: string, x: char)
    requires |from| > 0 && x in from && x !in a && x !in b && x !in c
    requires |a| > 0 && a[|a| - 1] !in from
    requires |b| > 0 && b[|b| - 1] !in from
    ensures Replace(a + from + b + from + c, from, to) == a + to + b + to + c
  {
    var rest := b + from + c;
    Regroup5(a, from, b, from, c);
    ReplaceJoin(a, from + rest, from, to);
    ReplaceMissingChar(a, from, to, x);
    ReplaceAtStart(rest, from, to);
    ReplaceSingle(b, from, c, to, x);
    Regroup5(a, to, b, to, c);
  }

  /** A text in which the pattern occurs has it occurring in every text extending it. */
  lemma OccursInExtension(a: string, b: string, pat: string)
    requires a <= b && Occurs(a, pat)
    ensures Occurs(b, pat)
  {
    var i: nat :| i <= |a| && MatchAt(a, pat, i);
    assert b[i..i + |pat|] == a[i..i + |pat|];
    assert MatchAt(b, pat, i);
  }

  // ---------------------------------------------------------------------
  // Decimal rendering (usize::to_string, i32 serialisation)
  // ---------------------------------------------------------------------

  predicate IsDigit(c: char) {
    '0' <= c <= '9'
  }

  function DigitChar(d: nat): (c: char)
    requires d < 10
    ensures IsDigit(c)
  {
    ['0', '1', '2', '3', '4', '5', '6', '7', '8', '9'][d]
  }

  function DigitValue(c: char): (d: nat)
    requires IsDigit(c)
    ensures d < 10
  {
    (c as int - '0' as int) as nat
  }

  lemma DigitRoundTrip(d: nat)
    requires d < 10
    ensures DigitValue(DigitChar(d)) == d
  {
  }

  lemma DigitCharOfValue(c: char)
    requires IsDigit(c)
    ensures DigitChar(DigitValue(c)) == c
  {
  }

  predicate AllDigits(s: string) {
    forall i :: 0 <= i < |s| ==> IsDigit(s[i])
  }

  /** Canonical decimal text: non-empty, digits only, no leading zero. */
  predicate IsDecimal(s: string) {
    |s| > 0 && AllDigits(s) && (|s| > 1 ==> s[0] != '0')
  }

  /** Decimal text of `n` without sign, leading zeros or separators. */
  function Dec(n: nat): string
    decreases n
  {
    if n < 10 then [DigitChar(n)] else Dec(n / 10) + [DigitChar(n % 10)]
  }

  /** The value of a string of digits. */
  function DecValue(s: string): nat
    requires AllDigits(s)
    decreases |s|
  {
    if s == [] then 0 else DecValue(s[..|s| - 1]) * 10 + DigitValue(s[|s| - 1])
  }

  /** `Dec` produces canonical decimal text that reads back as the same number. */
  lemma {:induction false} DecRoundTrip(n: nat)
    ensures IsDecimal(Dec(n))
    ensures DecValue(Dec(n)) == n
    decreases n
  {
    if n < 10 {
      DigitRoundTrip(n);
    } else {
      DecRoundTrip(n / 10);
      var s := Dec(n);
      assert s == Dec(n / 10) + [DigitChar(n % 10)];
      assert s[..|s| - 1] == Dec(n / 10);
      DigitRoundTrip(n % 10);
      assert s[0] == Dec(n / 10)[0];
    }
  }

  /** Digits with a non-zero first digit denote a positive number. */
  lemma {:induction false} LeadingNonZeroPositive(s: string)
    requires |s| > 0 && AllDigits(s) && s[0] != '0'
    ensures DecValue(s) > 0
    decreases |s|
  {
    if |s| > 1 {
      var p := s[..|s| - 1];
      assert p[0] == s[0];
      LeadingNonZeroPositive(p);
    }
  }

  /** Every canonical decimal text is the rendering of its value: `Dec` is onto them. */
  lemma {:induction false} DecOfValue(s: string)
    requires IsDecimal(s)
    ensures Dec(DecValue(s)) == s
    decreases |s|
  {
    var v := DecValue(s);
    if |s| == 1 {
      DigitCharOfValue(s[0]);
      assert s[..|s| - 1] == [];
      assert DecValue(s[..|s| - 1]) == 0;
      assert v == DigitValue(s[0]);
    } else {
      var p := s[..|s| - 1];
      var d := s[|s| - 1];
      assert p[0] == s[0];
      if |p| > 1 { assert p[0] != '0'; }
      LeadingNonZeroPositive(p);
      DecOfValue(p);
      assert v == DecValue(p) * 10 + DigitValue(d);
      assert v >= 10;
      assert v / 10 == DecValue(p);
      assert v % 10 == DigitValue(d);
      DigitCharOfValue(d);
      assert s == p + [d];
    }
  }

  lemma DecInjective(m: nat, n: nat)
    requires Dec(m) == Dec(n)
    ensures m == n
  {
    DecRoundTrip(m);
    DecRoundTrip(n);
  }

  /** How serde writes an `i32`: a minus sign before the magnitude when negative. */
  function IntDec(i: int): string {
    if i < 0 then "-" + Dec(-i) else Dec(i)
  }

  // ---------------------------------------------------------------------
  // `as i32`
  // ---------------------------------------------------------------------

  const I32Max: nat := 0x7fff_ffff

  /** `n as i32` for a `usize` n: keep the low 32 bits, read them as two's complement. */
  function AsI32(n: nat): (r: int)
    ensures -0x8000_0000 <= r <= I32Max
    ensures (r - n) % 0x1_0000_0000 == 0
  {
    var low := n % 0x1_0000_0000;
    if low <= I32Max then low else low - 0x1_0000_0000
  }

  lemma AsI32Small(n: nat)
    requires n <= I32Max
    ensures AsI32(n) == n
  {
  }

  /** The decimal digits of `i32::MAX`. */
  lemma DecI32Max()
    ensures Dec(I32Max) == "2147483647"
  {
    assert Dec(2) == "2";
    assert Dec(21) == "21";
    assert Dec(214) == "214";
    assert Dec(2147) == "2147";
    assert Dec(21474) == "21474";
    assert Dec(214748) == "214748";
    assert Dec(2147483) == "2147483";
    assert Dec(21474836) == "21474836";
    assert Dec(214748364) == "214748364";
  }
}
