/**
 * The text side of sync and cursor tokens: `split(':')` and `join(':')`,
 * JavaScript's `+s` on the string that follows the version, and the decimal
 * form `${seconds}` that a cursor token carries. Numbers are kept exact
 * (`real`); floating-point rounding is not modelled.
 */
module TokenText {

  /** A JavaScript number: a finite value, kept exact, or NaN. */
  datatype JsNumber = Finite(value: real) | NaN

  /** JavaScript truthiness of a number: neither 0 nor NaN. */
  predicate IsTruthy(n: JsNumber) {
    n.Finite? && n.value != 0.0
  }

  function Times(n: JsNumber, k: real): (r: JsNumber)
    ensures r.NaN? <==> n.NaN?
    ensures n.Finite? ==> r.value == n.value * k
  {
    match n
    case Finite(x) => Finite(x * k)
    case NaN => NaN
  }

  // ---- split and join ----

  /** The first position of `c` in `s`. */
  function IndexOf(s: string, c: char): (i: nat)
    requires c in s
    ensures i < |s| && s[i] == c && c !in s[..i]
  {
    if s[0] == c then 0
    else
      var j := IndexOf(s[1..], c);
      assert s[..1 + j] == [s[0]] + s[1..][..j];
      1 + j
  }

  lemma IndexOfAfter(a: string, c: char, b: string)
    requires c !in a
    ensures c in a + [c] + b && IndexOf(a + [c] + b, c) == |a|
  {
    var s := a + [c] + b;
    assert s[|a|] == c;
    var i := IndexOf(s, c);
    assert forall k | 0 <= k < |a| :: s[k] == a[k];
  }

  /** `s.split(sep)`: the pieces between the separators, at least one. */
  function Split(s: string, sep: char): (parts: seq<string>)
    ensures |parts| >= 1
    ensures forall k | 0 <= k < |parts| :: sep !in parts[k]
    decreases |s|
  {
    if sep !in s then [s]
    else
      var i := IndexOf(s, sep);
      [s[..i]] + Split(s[i + 1..], sep)
  }

  /** `parts.join(sep)`. */
  function Join(parts: seq<string>, sep: char): string {
    if |parts| == 0 then ""
    else if |parts| == 1 then parts[0]
    else parts[0] + [sep] + Join(parts[1..], sep)
  }

  /** Joining the pieces of a split gives back the string. */
  lemma {:induction false} JoinSplit(s: string, sep: char)
    ensures Join(Split(s, sep), sep) == s
    decreases |s|
  {
    if sep in s {
      var i := IndexOf(s, sep);
      var rest := s[i + 1..];
      var parts := Split(s, sep);
      assert parts == [s[..i]] + Split(rest, sep);
      assert parts[1..] == Split(rest, sep);
      JoinSplit(rest, sep);
      assert Join(parts, sep) == s[..i] + [sep] + rest;
      assert s == s[..i] + [sep] + rest;
    }
  }

  /** Splitting at a first separator: the text before it, then the pieces of the rest. */
  lemma SplitAt(a: string, sep: char, b: string)
    requires sep !in a
    ensures Split(a + [sep] + b, sep) == [a] + Split(b, sep)
  {
    var s := a + [sep] + b;
    IndexOfAfter(a, sep, b);
    assert s[..|a|] == a;
    assert s[|a| + 1..] == b;
  }

  // ---- decimal digits ----

  predicate IsDigit(c: char) {
    '0' <= c <= '9'
  }

  predicate AllDigits(s: string) {
    forall k | 0 <= k < |s| :: IsDigit(s[k])
  }

  function DigitChar(d: nat): (c: char)
    requires d < 10
    ensures IsDigit(c)
  {
    ('0' as int + d) as char
  }

  function Pow10(n: nat): (p: nat)
    ensures p >= 1
  {
    if n == 0 then 1 else 10 * Pow10(n - 1)
  }

  lemma {:induction false} Pow10Add(a: nat, b: nat)
    ensures Pow10(a + b) == Pow10(a) * Pow10(b)
  {
    if b > 0 {
      Pow10Add(a, b - 1);
      assert Pow10(a + b) == 10 * Pow10(a + b - 1);
    }
  }

  /** The value of a string of decimal digits, most significant first. */
  function DigitsValue(s: string): nat
    requires AllDigits(s)
  {
    if s == [] then 0
    else DigitsValue(s[..|s| - 1]) * 10 + (s[|s| - 1] as int - '0' as int)
  }

  /** `String(n)` for a natural number: its shortest decimal digits. */
  function NatToDigits(n: nat): (s: string)
    ensures |s| >= 1 && AllDigits(s)
    ensures DigitsValue(s) == n
  {
    if n < 10 then [DigitChar(n)]
    else
      var s := NatToDigits(n / 10) + [DigitChar(n % 10)];
      assert s[..|s| - 1] == NatToDigits(n / 10);
      s
  }

  /** The last `k` decimal digits of `n`, leading zeros included. */
  function FixedDigits(n: nat, k: nat): (s: string)
    ensures |s| == k && AllDigits(s)
    ensures DigitsValue(s) == n % Pow10(k)
  {
    if k == 0 then []
    else
      var s := FixedDigits(n / 10, k - 1) + [DigitChar(n % 10)];
      assert s[..|s| - 1] == FixedDigits(n / 10, k - 1);
      ModPow10Step(n, k);
      s
  }

  lemma ModPow10Step(n: nat, k: nat)
    requires k >= 1
    ensures n % Pow10(k) == (n / 10) % Pow10(k - 1) * 10 + n % 10
  {
    var p := Pow10(k - 1);
    var q := (n / 10) / p;
    var r := (n / 10) % p;
    var d := n % 10;
    assert n / 10 == q * p + r;
    assert n == (n / 10) * 10 + d;
    MulDistributes(q * p, r, 10);
    assert n == q * (10 * p) + (r * 10 + d) by {
      MulAssociates(q, p, 10);
    }
    assert r * 10 + d < 10 * p by {
      assert r <= p - 1;
      MulMonotone(r, p - 1, 10);
    }
    ModUnique(n, 10 * p, q, r * 10 + d);
  }

  lemma MulDistributes(a: int, b: int, c: int)
    ensures (a + b) * c == a * c + b * c
  {
  }

  lemma MulAssociates(a: int, b: int, c: int)
    ensures (a * b) * c == a * (c * b)
  {
  }

  lemma MulMonotone(a: nat, b: nat, c: nat)
    requires a <= b
    ensures a * c <= b * c
  {
  }

  /** Division with remainder is unique. */
  lemma ModUnique(n: nat, m: nat, q: nat, r: nat)
    requires m > 0 && r < m && n == q * m + r
    ensures n % m == r && n / m == q
  {
    var q', r' := n / m, n % m;
    assert n == q' * m + r';
    if q' > q {
      MulMonotone(q + 1, q', m);
    } else if q' < q {
      MulMonotone(q' + 1, q, m);
    }
  }

  lemma ModSmall(n: nat, m: nat)
    requires n < m
    ensures n % m == n
  {
    ModUnique(n, m, 0, n);
  }

  /** Drops trailing '0' digits, as the shortest decimal form of a fraction does. */
  function StripTrailingZeros(s: string): (r: string)
    requires AllDigits(s)
    ensures |r| <= |s| && r == s[..|r|] && AllDigits(r)
    ensures r != [] ==> r[|r| - 1] != '0'
    ensures DigitsValue(s) == DigitsValue(r) * Pow10(|s| - |r|)
  {
    if s != [] && s[|s| - 1] == '0' then
      var r := StripTrailingZeros(s[..|s| - 1]);
      var x, p := DigitsValue(r), Pow10(|s| - 1 - |r|);
      assert DigitsValue(s) == DigitsValue(s[..|s| - 1]) * 10;
      assert Pow10(|s| - |r|) == 10 * p;
      MulAssociates(x, p, 10);
      r
    else s
  }

  // ---- numbers as text ----

  /**
   * `+s` for the strings this model reads: the empty string is 0, an unsigned
   * decimal (digits, optionally a point and more digits, not both parts empty)
   * is its value, and anything else is NaN.
   */
  function ToNumber(s: string): JsNumber {
    if s == "" then Finite(0.0)
    else if '.' !in s then (if AllDigits(s) then Finite(DigitsValue(s) as real) else NaN)
    else
      var i := IndexOf(s, '.');
      ReadParts(s[..i], s[i + 1..])
  }

  /** The number written with a point between `whole` and `fraction`, or NaN. */
  function ReadParts(whole: string, fraction: string): JsNumber {
    if AllDigits(whole) && AllDigits(fraction) && (whole != "" || fraction != "") then
      Finite(DigitsValue(whole) as real + DigitsValue(fraction) as real / Pow10(|fraction|) as real)
    else NaN
  }

  const MicrosecondsInASecond: nat := 1000000

  /** `${us / 1e6}`: a microsecond timestamp as a decimal number of seconds. */
  function RenderSeconds(us: nat): (s: string)
    ensures s != "" && ':' !in s
  {
    var whole := NatToDigits(us / MicrosecondsInASecond);
    var fraction := us % MicrosecondsInASecond;
    if fraction == 0 then whole
    else whole + "." + StripTrailingZeros(FixedDigits(fraction, 6))
  }

  /** A fraction keeps its value when numerator and denominator are scaled by the same `q`. */
  lemma ScaleFraction(f: nat, m: nat, v: nat, p: nat, q: nat)
    requires p > 0 && q > 0 && f == v * q && m == p * q
    ensures v as real / p as real == f as real / m as real
  {
    var x := v as real / p as real;
    var fr, mr := f as real, m as real;
    assert x * p as real == v as real;
    assert fr == v as real * q as real;
    assert mr == p as real * q as real;
    assert fr == x * mr;
    DivideProduct(x, mr);
  }

  lemma DivideProduct(x: real, m: real)
    requires m != 0.0
    ensures (x * m) / m == x
  {
  }

  lemma DigitsHaveNoPoint(s: string)
    requires AllDigits(s)
    ensures '.' !in s
  {
    forall k | 0 <= k < |s| ensures s[k] != '.' {
      assert IsDigit(s[k]);
    }
  }

  /** Reading a number with a fractional part gives the whole part plus the scaled fraction. */
  lemma ReadDecimal(whole: string, fraction: string)
    requires whole != "" && AllDigits(whole) && AllDigits(fraction)
    ensures ToNumber(whole + "." + fraction) == ReadParts(whole, fraction)
  {
    var s := whole + "." + fraction;
    assert s == whole + ['.'] + fraction;
    DigitsHaveNoPoint(whole);
    IndexOfAfter(whole, '.', fraction);
    assert s[|whole|] == '.';
    assert s[..|whole|] == whole;
    assert s[|whole| + 1..] == fraction;
  }

  /** The `k` fixed digits of a fraction of `Pow10(k)`, stripped, still denote that fraction. */
  lemma StrippedFractionValue(f: nat, k: nat, stripped: string)
    requires f < Pow10(k) && stripped == StripTrailingZeros(FixedDigits(f, k))
    ensures DigitsValue(stripped) as real / Pow10(|stripped|) as real == f as real / Pow10(k) as real
  {
    var fixed := FixedDigits(f, k);
    var v, L := DigitsValue(stripped), |stripped|;
    StrippedDigits(f, k, DigitsValue(fixed), |fixed|, v, L);
    ScaleFraction(f, Pow10(k), v, Pow10(L), Pow10(k - L));
  }

  /** In integers: the stripped digits times the dropped power of ten give the fraction back. */
  lemma StrippedDigits(f: nat, k: nat, fixedValue: nat, fixedLength: nat, v: nat, L: nat)
    requires f < Pow10(k) && fixedValue == f % Pow10(k) && fixedLength == k
    requires L <= fixedLength && fixedValue == v * Pow10(fixedLength - L)
    ensures f == v * Pow10(k - L)
    ensures Pow10(k) == Pow10(L) * Pow10(k - L)
  {
    ModSmall(f, Pow10(k));
    Pow10Split(k, L);
  }

  lemma Pow10Split(k: nat, a: nat)
    requires a <= k
    ensures Pow10(k) == Pow10(a) * Pow10(k - a)
  {
    Pow10Add(a, k - a);
  }

  lemma Pow10Six()
    ensures Pow10(6) == MicrosecondsInASecond
  {
    assert Pow10(1) == 10;
    assert Pow10(2) == 100;
    assert Pow10(3) == 1000;
    assert Pow10(4) == 10000;
    assert Pow10(5) == 100000;
  }

  lemma SecondsSplit(us: nat)
    ensures us as real / MicrosecondsInASecond as real
         == (us / MicrosecondsInASecond) as real + (us % MicrosecondsInASecond) as real / MicrosecondsInASecond as real
  {
    var w, f := us / MicrosecondsInASecond, us % MicrosecondsInASecond;
    assert us == w * MicrosecondsInASecond + f;
    assert us as real == w as real * MicrosecondsInASecond as real + f as real;
  }

  /** Reading back a rendered number of seconds gives exactly the timestamp's value in seconds. */
  lemma RenderSecondsRoundTrip(us: nat)
    ensures ToNumber(RenderSeconds(us)) == Finite(us as real / MicrosecondsInASecond as real)
  {
    var w := us / MicrosecondsInASecond;
    var f := us % MicrosecondsInASecond;
    var whole := NatToDigits(w);
    SecondsSplit(us);
    if f == 0 {
      DigitsHaveNoPoint(whole);
    } else {
      var stripped := StripTrailingZeros(FixedDigits(f, 6));
      ReadDecimal(whole, stripped);
      Pow10Six();
      StrippedFractionValue(f, 6, stripped);
    }
  }
}
