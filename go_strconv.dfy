/** Base-10 integer text as Go's strconv package writes and reads it, over
    Go's 64-bit signed integers. Go's int64 arithmetic wraps around modulo
    2^64; Wrap64 states that explicitly. */
module GoStrconv {

  import opened Options

  const MinInt64: int := -0x8000_0000_0000_0000
  const MaxInt64: int := 0x7fff_ffff_ffff_ffff
  const Modulus64: int := 0x1_0000_0000_0000_0000

  /** Go's int64 (and int, which is 64 bits wide on the targets this runs on). */
  type Int64 = x: int | MinInt64 <= x <= MaxInt64

  /** Two's-complement wrap-around of an unbounded integer into int64. */
  function Wrap64(x: int): (r: Int64)
    ensures (r - x) % Modulus64 == 0
    ensures MinInt64 <= x <= MaxInt64 ==> r == x
  {
    (x - MinInt64) % Modulus64 + MinInt64
  }

  /** Go's `a * b` on int64 operands. */
  function Mul64(a: Int64, b: Int64): Int64 { Wrap64(a * b) }

  /** Go's `a + b` on int64 operands. */
  function Add64(a: Int64, b: Int64): Int64 { Wrap64(a + b) }

  lemma ModOfShift(a: int, j: int)
    ensures (a + j * Modulus64) % Modulus64 == a % Modulus64
  {
    var q, r := a / Modulus64, a % Modulus64;
    var x := a + j * Modulus64;
    assert x == (q + j) * Modulus64 + r;
    var c := x / Modulus64 - (q + j);
    assert c * Modulus64 == r - x % Modulus64;
  }

  /** Wrapping after every step gives the same value as wrapping once at the end. */
  lemma WrapCongruent(x: int, y: int)
    requires (x - y) % Modulus64 == 0
    ensures Wrap64(x) == Wrap64(y)
  {
    var j := (x - y) / Modulus64;
    assert x - MinInt64 == (y - MinInt64) + j * Modulus64;
    ModOfShift(y - MinInt64, j);
  }

  /** One step of the digit accumulator `n = n*10 + d` in int64 agrees with
      the unbounded accumulator wrapped once. */
  lemma {:induction false} WrapAccumulate(v: int, d: int)
    requires 0 <= d <= 9
    ensures Add64(Mul64(Wrap64(v), 10), d) == Wrap64(v * 10 + d)
  {
    var w := Wrap64(v);
    var k := (w - v) / Modulus64;
    assert w - v == k * Modulus64;
    var p := w * 10;
    assert p - v * 10 == (10 * k) * Modulus64;
    assert (Wrap64(p) - p) % Modulus64 == 0;
    var m := Wrap64(p);
    var jm := (m - p) / Modulus64;
    assert m - p == jm * Modulus64;
    assert (m + d) - (v * 10 + d) == (jm + 10 * k) * Modulus64;
    ModOfShift(0, jm + 10 * k);
    WrapCongruent(m + d, v * 10 + d);
  }

  predicate IsDigit(c: char) { '0' <= c <= '9' }

  predicate AllDigits(s: string) { forall k :: 0 <= k < |s| ==> IsDigit(s[k]) }

  function DigitOf(c: char): (d: nat)
    requires IsDigit(c)
    ensures d <= 9
  {
    c as int - '0' as int
  }

  function CharOf(d: nat): (c: char)
    requires d <= 9
    ensures IsDigit(c) && DigitOf(c) == d
  {
    ('0' as int + d) as char
  }

  /** The value of a string of decimal digits, most significant first. */
  function DigitValue(s: string): (v: nat)
    requires AllDigits(s)
  {
    if s == [] then 0 else DigitValue(s[..|s| - 1]) * 10 + DigitOf(s[|s| - 1])
  }

  /** The shortest decimal rendering of a natural number (no leading zeros). */
  function Digits(n: nat): (s: string)
    ensures |s| >= 1 && AllDigits(s)
    ensures |s| > 1 ==> s[0] != '0'
  {
    if n < 10 then [CharOf(n)] else Digits(n / 10) + [CharOf(n % 10)]
  }

  /** strconv.FormatInt(n, 10), and strconv.Itoa on a 64-bit int. */
  function FormatInt(n: int): (s: string)
  {
    if n < 0 then "-" + Digits(-n) else Digits(n)
  }

  lemma {:induction false} DigitValueOfDigits(n: nat)
    ensures DigitValue(Digits(n)) == n
  {
    var s := Digits(n);
    if n >= 10 {
      DigitValueOfDigits(n / 10);
      assert s[..|s| - 1] == Digits(n / 10);
    }
  }

  /** strconv.ParseInt(s, 10, 64): an optional sign, then one or more ASCII
      digits and nothing else, with a value inside int64; every other input is
      an error (syntax or range), here None. */
  function ParseInt(s: string): (r: Option<Int64>)
    ensures r.Some? ==> s != [] && (s[0] == '-' || s[0] == '+' || IsDigit(s[0]))
    ensures s == [] || s == "+" || s == "-" ==> r.None?
  {
    if s == [] then None
    else
      var neg := s[0] == '-';
      var body := if s[0] == '+' || s[0] == '-' then s[1..] else s;
      if body == [] || !AllDigits(body) then None
      else
        var mag: int := DigitValue(body);
        var v := if neg then -mag else mag;
        if MinInt64 <= v <= MaxInt64 then Some(v) else None
  }

  /** What ParseInt accepts and what it returns: a non-digit after the first
      character is a syntax error, and an unsigned, '+' or '-' digit string
      gives its decimal value exactly when that value fits in int64. */
  lemma ParseIntAccepts(s: string)
    ensures forall k :: 1 <= k < |s| && !IsDigit(s[k]) ==> ParseInt(s).None?
    ensures s != [] && AllDigits(s) ==>
      && (ParseInt(s).Some? <==> DigitValue(s) <= MaxInt64)
      && (ParseInt(s).Some? ==> ParseInt(s).value == DigitValue(s))
    ensures |s| >= 2 && s[0] == '+' && AllDigits(s[1..]) ==>
      && (ParseInt(s).Some? <==> DigitValue(s[1..]) <= MaxInt64)
      && (ParseInt(s).Some? ==> ParseInt(s).value == DigitValue(s[1..]))
    ensures |s| >= 2 && s[0] == '-' && AllDigits(s[1..]) ==>
      && (ParseInt(s).Some? <==> DigitValue(s[1..]) <= -MinInt64)
      && (ParseInt(s).Some? ==> ParseInt(s).value == -(DigitValue(s[1..]) as int))
  {
  }

  /** ParseInt reads back exactly what FormatInt wrote, for every int64. */
  lemma ParseFormatRoundTrip(n: Int64)
    ensures ParseInt(FormatInt(n)) == Some(n)
  {
    if n < 0 {
      var m: nat := -(n as int);
      DigitValueOfDigits(m);
      assert FormatInt(n)[1..] == Digits(m);
    } else {
      DigitValueOfDigits(n);
      assert Digits(n)[0] != '+' && Digits(n)[0] != '-';
    }
  }
}
