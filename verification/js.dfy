/**
 * The few JavaScript number semantics the model relies on: NaN-aware
 * comparison, `parseInt(s, 10)`, `Math.floor(Math.random() * n)`,
 * the truncating `%` operator and the modulo-256 store of a `Uint8Array`.
 */
module Js {
  import opened Text

  /** A JavaScript number as the model needs it: an integer, or NaN. */
  datatype Num = Int(i: int) | NaN

  /** `a >= b`: false whenever either side is NaN. */
  predicate Ge(a: Num, b: Num) {
    a.Int? && b.Int? && a.i >= b.i
  }

  /** The values `Math.floor(Math.random() * n)` can take for an integer `n`. */
  predicate FloorRandomRange(n: int, v: int) {
    if n > 0 then 0 <= v < n else n <= v <= 0
  }

  /** `Math.floor(u * n)` for a draw `u` of `Math.random()`. */
  function FloorRandom(u: real, n: int): int
    requires 0.0 <= u < 1.0
  {
    (u * n as real).Floor
  }

  /** Every draw lands in `FloorRandomRange`; in particular in [0, n) when n > 0. */
  lemma FloorRandomInRange(u: real, n: int)
    requires 0.0 <= u < 1.0
    ensures FloorRandomRange(n, FloorRandom(u, n))
  {
    var x := n as real;
    var p := u * x;
    assert p == x - (1.0 - u) * x;
    if n > 0 {
      MulNonNegative(u, x);
      MulPositive(1.0 - u, x);
    } else if n < 0 {
      MulNonNegative(u, -x);
      MulPositive(1.0 - u, -x);
    }
  }

  lemma MulNonNegative(a: real, b: real)
    requires 0.0 <= a && 0.0 < b
    ensures 0.0 <= a * b
  {
  }

  lemma MulPositive(a: real, b: real)
    requires 0.0 < a && 0.0 < b
    ensures 0.0 < a * b
  {
  }

  /** JavaScript's `a % m` for a positive modulus: the sign follows the dividend. */
  function JsRem(a: int, m: int): (r: int)
    requires m > 0
    ensures -m < r < m
    ensures 0 <= r <==> a >= 0 || (-a) % m == 0
  {
    if a >= 0 then a % m else -((-a) % m)
  }

  lemma MulMono(w: int, a: int, b: int)
    requires w > 0 && a <= b
    ensures w * a <= w * b
  {
  }

  /** Division and remainder of a value in the k-th period [k·w, (k+1)·w). */
  lemma DivOfRange(a: int, w: int, k: int)
    requires w > 0 && k * w <= a < (k + 1) * w
    ensures a / w == k && a % w == a - k * w
  {
    var q, r := a / w, a % w;
    assert a == w * q + r && 0 <= r < w;
    if q <= k - 1 {
      MulMono(w, q, k - 1);
    }
    if q >= k + 1 {
      MulMono(w, k + 1, q);
    }
  }

  /** `Math.max(a, b)` on integers. */
  function Max(a: int, b: int): (m: int)
    ensures m >= a && m >= b && (m == a || m == b)
  {
    if a >= b then a else b
  }

  /** `Math.min(Math.max(value, lo), hi)`: with `min > max` the result is `max`. */
  function Clamp(value: int, lo: int, hi: int): (r: int)
    ensures lo <= hi ==> lo <= r <= hi
    ensures lo <= value <= hi ==> r == value
    ensures r <= hi
  {
    if value < lo then (if lo < hi then lo else hi)
    else if value < hi then value else hi
  }

  /** The value a `Uint8Array` stores when assigned the integer `v`. */
  function ToUint8(v: int): (r: int)
    ensures 0 <= r < 256
    ensures 0 <= v ==> r <= v
    ensures 0 <= v < 256 ==> r == v
  {
    v % 256
  }

  /** The longest prefix of decimal digits. */
  function DigitPrefix(s: string): (ds: string)
    ensures |ds| <= |s| && ds == s[..|ds|] && AllDigits(ds)
    ensures |ds| < |s| ==> !IsDigit(s[|ds|])
  {
    if |s| > 0 && IsDigit(s[0]) then [s[0]] + DigitPrefix(s[1..]) else ""
  }

  /**
   * `parseInt(s, 10)`: leading white space is skipped, one optional sign is
   * read, then the longest run of decimal digits; no digits gives NaN.
   */
  function ParseInt(s: string): Num {
    var t := TrimStart(s);
    var signed := |t| > 0 && (t[0] == '-' || t[0] == '+');
    var body := if signed then t[1..] else t;
    var ds := DigitPrefix(body);
    var v: int := if |ds| == 0 then 0 else DigitsValue(ds);
    if |ds| == 0 then NaN
    else if signed && t[0] == '-' then Int(-v)
    else Int(v)
  }

  /** `parseInt` reads back what `toString` writes, for every integer. */
  lemma ParseIntRoundTrip(i: int)
    ensures ParseInt(IntToString(i)) == Int(i)
  {
    var n: nat := if i < 0 then -i else i;
    var d := Decimal(n);
    DecimalRoundTrip(n);
    DigitPrefixOfDigits(d);
    var s := IntToString(i);
    assert !IsSpace(s[0]) by { assert s[0] == '-' || IsDigit(s[0]); }
    assert TrimStart(s) == s;
    if i < 0 {
      assert s[1..] == d;
    } else {
      assert !(s[0] == '-' || s[0] == '+');
    }
  }

  /** A string made only of digits is its own digit prefix. */
  lemma {:induction false} DigitPrefixOfDigits(s: string)
    requires AllDigits(s)
    ensures DigitPrefix(s) == s
  {
    if |s| > 0 {
      DigitPrefixOfDigits(s[1..]);
    }
  }

  /** Text whose first non-space character is neither a digit nor a sign parses to NaN. */
  lemma ParseIntNaN(s: string)
    requires var t := TrimStart(s); |t| == 0 || (!IsDigit(t[0]) && t[0] != '-' && t[0] != '+')
    ensures ParseInt(s) == NaN
  {
  }
}
