/**
 * Cell values of attribute tables, and the few pieces of Python string and number
 * behaviour the scripts rely on: `str(int)`, `int(text)`, `==` between numbers, and
 * list comprehensions that keep the elements satisfying a condition.
 */
module Values {
  import opened Wrappers

  /** A non-null cell: SHORT/LONG fields hold `Int`, FLOAT/DOUBLE fields `Real`, TEXT fields `Text`. */
  datatype Value = Int(i: int) | Real(r: real) | Text(s: string)

  /** A cell of a table; `None` is a null (Python `None`, pandas `NA`). */
  type Cell = Option<Value>

  /** Python's `==` on two cells: `None == None`, and an int equals a float of the same magnitude. */
  predicate PyEq(a: Cell, b: Cell)
  {
    match (a, b)
    case (None, None) => true
    case (Some(Int(x)), Some(Int(y))) => x == y
    case (Some(Int(x)), Some(Real(y))) => x as real == y
    case (Some(Real(x)), Some(Int(y))) => x == y as real
    case (Some(Real(x)), Some(Real(y))) => x == y
    case (Some(Text(x)), Some(Text(y))) => x == y
    case _ => false
  }

  /** The numeric magnitude of a cell, if it holds a number. */
  function NumOf(c: Cell): Option<real>
  {
    match c
    case Some(Int(x)) => Some(x as real)
    case Some(Real(x)) => Some(x)
    case _ => None
  }

  /** The single space that shapefiles store in place of a null text. */
  predicate IsBlank(c: Cell)
  {
    c == Some(Text(" "))
  }

  /** A number cell equal to 0 (pandas `replace(0, NA)` matches both 0 and 0.0). */
  predicate IsZero(c: Cell)
  {
    NumOf(c) == Some(0.0)
  }

  /** SQL `field = k` on a numeric field: a null never matches. */
  predicate NumEquals(c: Cell, k: int)
  {
    NumOf(c) == Some(k as real)
  }

  // ---------------------------------------------------------------------------
  // Decimal text: Python's str(int) and int(str)
  // ---------------------------------------------------------------------------

  predicate IsDigit(c: char)
  {
    '0' <= c <= '9'
  }

  predicate AllDigits(s: string)
  {
    forall k :: 0 <= k < |s| ==> IsDigit(s[k])
  }

  function DigitChar(d: nat): (c: char)
    requires d < 10
    ensures IsDigit(c) && c as int - '0' as int == d
  {
    (d + '0' as int) as char
  }

  /** `str(n)` for a natural number: its decimal digits, most significant first, no leading zero. */
  function NatToString(n: nat): (s: string)
    ensures 1 <= |s| && AllDigits(s)
    ensures |s| > 1 ==> s[0] != '0'
    ensures n < 10 <==> |s| == 1
    decreases n
  {
    if n < 10 then [DigitChar(n)] else NatToString(n / 10) + [DigitChar(n % 10)]
  }

  /** The number a string of decimal digits denotes (leading zeros allowed). */
  function ParseNat(s: string): nat
    requires AllDigits(s)
    decreases |s|
  {
    if s == [] then 0 else ParseNat(s[..|s| - 1]) * 10 + (s[|s| - 1] as int - '0' as int)
  }

  lemma {:induction false} ParseNatToString(n: nat)
    ensures ParseNat(NatToString(n)) == n
    decreases n
  {
    if n >= 10 {
      var s := NatToString(n);
      assert s[..|s| - 1] == NatToString(n / 10);
      ParseNatToString(n / 10);
    }
  }

  /** A leading zero does not change the value of a digit string. */
  lemma {:induction false} ParseNatLeadingZero(s: string)
    requires AllDigits(s)
    ensures AllDigits("0" + s) && ParseNat("0" + s) == ParseNat(s)
    decreases |s|
  {
    if s != [] {
      var t := "0" + s;
      assert t[..|t| - 1] == "0" + s[..|s| - 1];
      ParseNatLeadingZero(s[..|s| - 1]);
    }
  }

  /** n has at most two decimal digits exactly below 100, and at most three exactly below 1000. */
  lemma {:induction false} NatToStringWidth(n: nat)
    ensures |NatToString(n)| <= 2 <==> n < 100
    ensures |NatToString(n)| <= 3 <==> n < 1000
    decreases n
  {
    if n >= 10 {
      NatToStringWidth(n / 10);
      assert |NatToString(n)| == |NatToString(n / 10)| + 1;
    }
  }

  /** Python's `str(i)` for an integer. */
  function IntToString(i: int): (s: string)
    ensures 1 <= |s|
    ensures '_' !in s
  {
    if i < 0 then "-" + NatToString(-i) else NatToString(i)
  }

  /**
   * Python's `int(s)` for text made of ASCII digits with an optional leading minus;
   * `None` where Python raises ValueError.
   */
  function PyInt(s: string): Option<int>
  {
    if |s| > 0 && AllDigits(s) then Some(ParseNat(s))
    else if |s| > 1 && s[0] == '-' && AllDigits(s[1..]) then Some(-(ParseNat(s[1..]) as int))
    else None
  }

  /** `int(str(i)) == i`: the decimal text of an integer reads back as that integer. */
  lemma IntToStringRoundTrip(i: int)
    ensures PyInt(IntToString(i)) == Some(i)
  {
    var s := IntToString(i);
    if i < 0 {
      var t := NatToString(-i);
      assert s == "-" + t;
      assert s[1..] == t;
      assert !IsDigit(s[0]);
      assert !AllDigits(s);
      ParseNatToString(-i);
      assert PyInt(s) == Some(-(ParseNat(t) as int));
    } else {
      ParseNatToString(i);
      assert PyInt(s) == Some(ParseNat(s));
    }
  }

  /** Distinct integers have distinct decimal texts. */
  lemma IntToStringInjective(i: int, j: int)
    requires IntToString(i) == IntToString(j)
    ensures i == j
  {
    IntToStringRoundTrip(i);
    IntToStringRoundTrip(j);
  }

  // ---------------------------------------------------------------------------
  // Sequences
  // ---------------------------------------------------------------------------

  /** `[x for x in s if p(x)]`. */
  function Filter<T>(s: seq<T>, p: T -> bool): (r: seq<T>)
    ensures |r| <= |s|
    ensures forall x :: x in r ==> x in s && p(x)
    ensures forall i :: 0 <= i < |s| && p(s[i]) ==> s[i] in r
    decreases |s|
  {
    if s == [] then []
    else if p(s[0]) then [s[0]] + Filter(s[1..], p)
    else Filter(s[1..], p)
  }

  /** Filtering scans left to right: the kept elements of `s + [x]` are those of `s`, then `x` if it passes. */
  lemma {:induction false} FilterSnoc<T>(s: seq<T>, x: T, p: T -> bool)
    ensures Filter(s + [x], p) == Filter(s, p) + (if p(x) then [x] else [])
    decreases |s|
  {
    if s == [] {
      assert s + [x] == [x];
    } else {
      assert (s + [x])[1..] == s[1..] + [x];
      FilterSnoc(s[1..], x, p);
    }
  }

  /** The filtered list is empty exactly when no element passes. */
  lemma FilterEmpty<T>(s: seq<T>, p: T -> bool)
    ensures |Filter(s, p)| == 0 <==> forall i :: 0 <= i < |s| ==> !p(s[i])
  {
    if |Filter(s, p)| != 0 {
      assert Filter(s, p)[0] in Filter(s, p);
    }
  }

  /** Two conditions that agree on every element keep the same elements. */
  lemma {:induction false} FilterSame<T>(s: seq<T>, p: T -> bool, q: T -> bool)
    requires forall i :: 0 <= i < |s| ==> p(s[i]) == q(s[i])
    ensures Filter(s, p) == Filter(s, q)
    decreases |s|
  {
    if s != [] {
      assert forall i :: 0 <= i < |s[1..]| ==> s[1..][i] == s[i + 1];
      FilterSame(s[1..], p, q);
    }
  }

  /** A condition every element passes keeps the whole list. */
  lemma {:induction false} FilterKeepsAll<T>(s: seq<T>, p: T -> bool)
    requires forall i :: 0 <= i < |s| ==> p(s[i])
    ensures Filter(s, p) == s
    decreases |s|
  {
    if s != [] {
      assert p(s[0]);
      assert forall i :: 0 <= i < |s[1..]| ==> s[1..][i] == s[i + 1];
      FilterKeepsAll(s[1..], p);
      assert s == [s[0]] + s[1..];
    }
  }

  /** Widening a slice by one element appends that element. */
  lemma SliceStep<T>(all: seq<T>, lo: nat, i: nat)
    requires lo <= i < |all|
    ensures all[lo..i + 1] == all[lo..i] + [all[i]]
  {
    assert all[lo..i + 1] == all[lo..i] + all[i..i + 1];
  }

  /** Entry k - lo of the slice from lo is entry k of the whole. */
  lemma SliceAt<T>(all: seq<T>, lo: nat, i: nat, k: nat)
    requires lo <= k < i <= |all|
    ensures all[lo..i][k - lo] == all[k]
  {
  }

  /** The number of occurrences of x in s. */
  function Count<T(==)>(s: seq<T>, x: T): (n: nat)
    ensures n <= |s|
    ensures n == 0 <==> x !in s
    decreases |s|
  {
    if s == [] then 0 else (if s[0] == x then 1 else 0) + Count(s[1..], x)
  }
}
