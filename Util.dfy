/** Values and helpers shared by every component model: optional values,
    JavaScript's `Math.ceil` and `Math.round` on exact quotients, decimal
    rendering and parsing of naturals, ASCII lower-casing, substring search,
    the `filter` of arrays, and sums. */
module Util {

  datatype Option<T> = None | Some(value: T)

  // ---------------------------------------------------------------- arithmetic

  /** An hour and a day in milliseconds. */
  const HourMs: int := 1000 * 60 * 60
  const DayMs: int := 1000 * 60 * 60 * 24

  /** `Math.ceil(a / d)` for an integer dividend and a positive divisor. */
  function CeilDiv(a: int, d: int): (q: int)
    requires d > 0
    ensures (q - 1) * d < a <= q * d
  {
    var f := (-a) / d;
    var r := (-a) % d;
    assert -a == d * f + r && 0 <= r < d;
    assert (-f - 1) * d == -(d * f) - d;
    -f
  }

  /** `CeilDiv(a, d) > 1` exactly when more than one whole `d` separates. */
  lemma CeilDivAboveOne(a: int, d: int)
    requires d > 0
    ensures CeilDiv(a, d) > 1 <==> a > d
  {
    var q := CeilDiv(a, d);
    if q > 1 {
      assert (q - 1) * d >= 1 * d;
    } else {
      assert q * d <= 1 * d;
    }
  }

  /** `CeilDiv(a, d) > 0` exactly when `a` is positive. */
  lemma CeilDivPositive(a: int, d: int)
    requires d > 0
    ensures CeilDiv(a, d) > 0 <==> a > 0
  {
    var q := CeilDiv(a, d);
    if q > 0 {
      assert (q - 1) * d >= 0 * d;
    } else {
      assert q * d <= 0 * d;
    }
  }

  /** `CeilDiv(a, d) <= m` exactly when `a` is at most `m` whole `d`. */
  lemma CeilDivAtMost(a: int, d: int, m: int)
    requires d > 0
    ensures CeilDiv(a, d) <= m <==> a <= m * d
  {
    var q := CeilDiv(a, d);
    if q <= m {
      MulMonotone(q, m, d);
    } else {
      MulMonotone(m, q - 1, d);
    }
  }

  lemma MulMonotone(x: int, y: int, d: int)
    requires x <= y && d > 0
    ensures x * d <= y * d
  {
    assert y * d - x * d == (y - x) * d;
  }

  /** `Math.round(p / q)` for q > 0: the nearest integer, a half rounded up. */
  function RoundDiv(p: int, q: int): (r: int)
    requires q > 0
    ensures 2 * q * r - q <= 2 * p < 2 * q * r + q
  {
    var r := (2 * p + q) / (2 * q);
    var m := (2 * p + q) % (2 * q);
    assert 2 * p + q == 2 * q * r + m && 0 <= m < 2 * q;
    r
  }

  /** Rounding a quotient that lies between two integers stays between them. */
  lemma RoundDivBetween(p: int, q: int, lo: int, hi: int)
    requires q > 0 && lo * q <= p <= hi * q
    ensures lo <= RoundDiv(p, q) <= hi
  {
    var r := RoundDiv(p, q);
    assert q * (2 * r + 1 - 2 * lo) > 0;
    SignOfFactor(q, 2 * r + 1 - 2 * lo);
    assert q * (2 * r - 1 - 2 * hi) <= 0;
    SignOfFactor(q, 2 * r - 1 - 2 * hi);
  }

  /** A rounded percentage of a part of a whole lies between 0 and 100. */
  lemma RoundPercentInRange(k: int, n: int)
    requires n > 0 && 0 <= k <= n
    ensures 0 <= RoundDiv(100 * k, n) <= 100
  {
    RoundDivBetween(100 * k, n, 0, 100);
  }

  lemma SignOfFactor(n: int, m: int)
    requires n > 0
    ensures n * m > 0 ==> m > 0
    ensures n * m <= 0 ==> m <= 0
  {
    if m > 0 {
      assert n * m >= n * 1;
    } else {
      assert n * m <= n * 0;
    }
  }

  /** The sum of a sequence of integers (`reduce((a, b) => a + b, 0)`). */
  function Sum(s: seq<int>): int
  {
    if s == [] then 0 else s[0] + Sum(s[1..])
  }

  /** A sum of naturals that are each bounded by `b` is bounded by `b * |s|`. */
  lemma {:induction false} SumBounded(s: seq<int>, b: int)
    requires forall i :: 0 <= i < |s| ==> 0 <= s[i] <= b
    ensures 0 <= Sum(s) <= b * |s|
  {
    if s != [] {
      SumBounded(s[1..], b);
      assert b * |s| == b + b * |s[1..]|;
    }
  }

  // ---------------------------------------------------------------- decimal text

  predicate IsDigit(c: char)
  {
    '0' <= c <= '9'
  }

  predicate AllDigits(s: string)
  {
    forall i :: 0 <= i < |s| ==> IsDigit(s[i])
  }

  function DigitChar(d: nat): (c: char)
    requires d < 10
    ensures IsDigit(c)
  {
    ('0' as int + d) as char
  }

  function DigitValue(c: char): (d: nat)
    requires IsDigit(c)
    ensures d < 10 && DigitChar(d) == c
  {
    (c as int - '0' as int) as nat
  }

  /** `n.toString()` for a natural number: its decimal digits, with no
      leading zero. */
  function NatToString(n: nat): (s: string)
    ensures |s| >= 1 && AllDigits(s)
    ensures s[0] == '0' ==> n == 0
    ensures n < 10 <==> |s| == 1
  {
    if n < 10 then [DigitChar(n)] else NatToString(n / 10) + [DigitChar(n % 10)]
  }

  /** The value of a string of decimal digits. */
  function DigitsValue(s: string): nat
    requires AllDigits(s)
  {
    if s == [] then 0 else DigitsValue(s[..|s| - 1]) * 10 + DigitValue(s[|s| - 1])
  }

  /** Reading back the decimal text of a natural gives that natural. */
  lemma {:induction false} DigitsValueOfNatToString(n: nat)
    ensures DigitsValue(NatToString(n)) == n
  {
    if n >= 10 {
      var s := NatToString(n);
      assert s[..|s| - 1] == NatToString(n / 10);
      DigitsValueOfNatToString(n / 10);
    }
  }

  /** Two naturals with the same decimal text are equal. */
  lemma NatToStringInjective(m: nat, n: nat)
    requires NatToString(m) == NatToString(n)
    ensures m == n
  {
    DigitsValueOfNatToString(m);
    DigitsValueOfNatToString(n);
  }

  /** The number of leading decimal digits of `s`. */
  function LeadingDigits(s: string): (k: nat)
    ensures k <= |s| && AllDigits(s[..k])
    ensures k < |s| ==> !IsDigit(s[k])
  {
    if s == [] || !IsDigit(s[0]) then 0
    else
      var k := 1 + LeadingDigits(s[1..]);
      assert s[..k] == [s[0]] + s[1..][..k - 1];
      k
  }

  /** `Number.parseInt(s)` on text that starts with a digit: the value of its
      leading digits; `None` stands for `NaN`. */
  function ParseInt(s: string): Option<nat>
  {
    var k := LeadingDigits(s);
    if k == 0 then None else Some(DigitsValue(s[..k]))
  }

  /** `parseInt(n.toString()) == n`. */
  lemma ParseIntOfNatToString(n: nat)
    ensures ParseInt(NatToString(n)) == Some(n)
  {
    var s := NatToString(n);
    var k := LeadingDigits(s);
    assert s[..k] == s;
    DigitsValueOfNatToString(n);
  }

  /** `n.toString().padStart(2, "0")`. */
  function PadTwo(n: nat): (s: string)
    ensures AllDigits(s) && |s| >= 2
    ensures n < 100 ==> |s| == 2 && DigitsValue(s) == n
  {
    var t := NatToString(n);
    if |t| < 2 then
      DigitsValueOfNatToString(n);
      assert ("0" + t)[..1] == "0";
      "0" + t
    else
      DigitsValueOfNatToString(n);
      if n < 100 then
        assert t[..1] == NatToString(n / 10);
        DigitsValueOfNatToString(n / 10);
        t
      else
        t
  }

  // ---------------------------------------------------------------- text search

  /** `toLowerCase` restricted to ASCII letters. */
  function LowerChar(c: char): char
  {
    if 'A' <= c <= 'Z' then (c as int + 32) as char else c
  }

  function ToLower(s: string): (t: string)
    ensures |t| == |s|
    ensures forall i :: 0 <= i < |s| ==> t[i] == LowerChar(s[i])
  {
    seq(|s|, i requires 0 <= i < |s| => LowerChar(s[i]))
  }

  ghost predicate OccursAt(hay: string, needle: string, i: int)
  {
    0 <= i && i + |needle| <= |hay| && hay[i..i + |needle|] == needle
  }

  /** `hay.includes(needle)`: the needle occurs at some position. */
  function Contains(hay: string, needle: string): (b: bool)
    ensures b <==> exists i :: OccursAt(hay, needle, i)
    decreases |hay|
  {
    if needle <= hay then
      assert OccursAt(hay, needle, 0);
      true
    else if hay == [] then
      false
    else
      var b := Contains(hay[1..], needle);
      if b then
        OccursAfterFirst(hay, needle);
        true
      else
        assert forall i :: OccursAt(hay, needle, i) ==> i > 0 && OccursAt(hay[1..], needle, i - 1);
        false
  }

  lemma OccursAfterFirst(hay: string, needle: string)
    requires hay != []
    requires exists i :: OccursAt(hay[1..], needle, i)
    ensures exists i :: OccursAt(hay, needle, i)
  {
    var i :| OccursAt(hay[1..], needle, i);
    assert OccursAt(hay, needle, i + 1);
  }

  /** A needle whose first character the text lacks occurs nowhere in it. */
  lemma MissingFirstChar(hay: string, needle: string)
    requires needle != [] && forall i :: 0 <= i < |hay| ==> hay[i] != needle[0]
    ensures !Contains(hay, needle)
  {
    forall i
      ensures !OccursAt(hay, needle, i)
    {
      if 0 <= i && i + |needle| <= |hay| {
        assert hay[i..i + |needle|][0] == hay[i];
      }
    }
  }

  /** Every text includes the empty text. */
  lemma ContainsEmpty(hay: string)
    ensures Contains(hay, "")
  {
    assert OccursAt(hay, "", 0);
  }

  // ---------------------------------------------------------------- filter

  /** `b`'s elements include those of `a`, in the same order. */
  ghost predicate IsSubseq<T>(a: seq<T>, b: seq<T>)
    decreases |b|
  {
    if a == [] then true
    else if b == [] then false
    else if a[0] == b[0] then IsSubseq(a[1..], b[1..])
    else IsSubseq(a, b[1..])
  }

  /** An order-preserving subsequence is no longer than its sequence. */
  lemma {:induction false} SubseqLength<T>(a: seq<T>, b: seq<T>)
    requires IsSubseq(a, b)
    ensures |a| <= |b|
    decreases |b|
  {
    if a != [] {
      if a[0] == b[0] {
        SubseqLength(a[1..], b[1..]);
      } else {
        SubseqLength(a, b[1..]);
      }
    }
  }

  /** `s.filter(p)`: the elements that satisfy `p`, in order. */
  function Filter<T(!new)>(s: seq<T>, p: T -> bool): (r: seq<T>)
    ensures forall i :: 0 <= i < |r| ==> r[i] in s && p(r[i])
    ensures forall i :: 0 <= i < |s| && p(s[i]) ==> s[i] in r
    ensures IsSubseq(r, s)
    ensures |r| <= |s|
    ensures (forall i :: 0 <= i < |s| ==> p(s[i])) ==> r == s
  {
    if s == [] then []
    else
      var rest := Filter(s[1..], p);
      if p(s[0]) then
        assert ([s[0]] + rest)[1..] == rest;
        assert s == [s[0]] + s[1..];
        [s[0]] + rest
      else
        assert rest != [] ==> rest[0] != s[0];
        rest
  }

  /** The filter keeps every copy of an element that passes and none of one
      that fails. */
  lemma {:induction false} FilterMultiset<T(!new)>(s: seq<T>, p: T -> bool)
    ensures forall x :: multiset(Filter(s, p))[x] == if p(x) then multiset(s)[x] else 0
  {
    if s != [] {
      FilterMultiset(s[1..], p);
      assert s == [s[0]] + s[1..];
      assert multiset(s) == multiset{s[0]} + multiset(s[1..]);
    }
  }

  /** Filtering a concatenation filters each part. */
  lemma {:induction false} FilterConcat<T(!new)>(a: seq<T>, b: seq<T>, p: T -> bool)
    ensures Filter(a + b, p) == Filter(a, p) + Filter(b, p)
  {
    if a != [] {
      assert (a + b)[1..] == a[1..] + b;
      FilterConcat(a[1..], b, p);
    } else {
      assert a + b == b;
    }
  }

  /** An element the predicate rejects, appended, is filtered out again. */
  lemma {:induction false} FilterAppendRejected<T(!new)>(s: seq<T>, x: T, p: T -> bool)
    requires !p(x)
    ensures Filter(s + [x], p) == Filter(s, p)
  {
    if s == [] {
      assert [] + [x] == [x];
      assert [x][1..] == [];
    } else {
      assert (s + [x])[1..] == s[1..] + [x];
      FilterAppendRejected(s[1..], x, p);
    }
  }

  /** A filtered list as long as its input is its input, so all of it
      passed. */
  lemma {:induction false} SubseqOfSameLength<T(!new)>(r: seq<T>, s: seq<T>, p: T -> bool)
    requires r == Filter(s, p) && |r| == |s|
    ensures forall i :: 0 <= i < |s| ==> p(s[i])
  {
    if s != [] {
      var rest := Filter(s[1..], p);
      if p(s[0]) {
        SubseqOfSameLength(rest, s[1..], p);
        forall i | 0 <= i < |s|
          ensures p(s[i])
        {
          if i > 0 {
            assert s[i] == s[1..][i - 1];
          }
        }
      }
    }
  }

  /** The set of elements of a sequence has no more members than it has
      positions. */
  lemma {:induction false} ElemsCard<T>(s: seq<T>)
    ensures |set x | x in s| <= |s|
  {
    if s != [] {
      ElemsCard(s[1..]);
      assert (set x | x in s) == (set x | x in s[1..]) + {s[0]};
    }
  }
}
