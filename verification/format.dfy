/**
 * The small display helpers: the "S.hh" timer, the whole-second
 * countdown, symmetric padding (`addChars`), class-name joining
 * (`getClassNames`) and two-digit score padding (`formatScore`).
 * Times are integer milliseconds.
 */
module Format {
  import opened Text
  import opened Js

  // ----- Timer -----

  /** Whole seconds shown by the timer: `Math.floor(Math.max(0, ms) / 1000)`. */
  function Seconds(ms: int): (s: nat)
    ensures s * 1000 <= Max(0, ms) < (s + 1) * 1000
  {
    Max(0, ms) / 1000
  }

  /** Hundredths shown by the timer: `Math.floor((Math.max(0, ms) % 1000) / 10)`. */
  function Hundredths(ms: int): (h: nat)
    ensures h < 100
    ensures Seconds(ms) * 1000 + h * 10 <= Max(0, ms) < Seconds(ms) * 1000 + h * 10 + 10
  {
    (Max(0, ms) % 1000) / 10
  }

  /** The two-digit rendering of a number below 100, as `padStart(2, '0')` gives it. */
  function TwoDigits(h: nat): (r: string)
    requires h < 100
    ensures |r| == 2 && AllDigits(r) && DigitsValue(r) == h
    ensures r == [DigitChar(h / 10), DigitChar(h % 10)]
  {
    PadDecimalTwo(h);
    DigitPairValue(h / 10, h % 10);
    PadStart(Decimal(h), 2, '0')
  }

  /** Padding the decimal rendering of a number below 100 to two places gives its tens then its units. */
  lemma PadDecimalTwo(h: nat)
    requires h < 100
    ensures PadStart(Decimal(h), 2, '0') == [DigitChar(h / 10), DigitChar(h % 10)]
  {
    if h < 10 {
      assert Decimal(h) == [DigitChar(h)];
      assert PadStart(Decimal(h), 2, '0') == ['0'] + Decimal(h);
    } else {
      assert Decimal(h / 10) == [DigitChar(h / 10)];
    }
  }

  /** Two digits read back as tens and units. */
  lemma DigitPairValue(a: int, b: int)
    requires 0 <= a < 10 && 0 <= b < 10
    ensures DigitsValue([DigitChar(a), DigitChar(b)]) == a * 10 + b
  {
    var s := [DigitChar(a), DigitChar(b)];
    assert DigitValue(s[0]) == a && DigitValue(s[1]) == b;
    assert s[..1] == [DigitChar(a)];
    assert DigitsValue(s[..1]) == a by {
      assert s[..1][..0] == [];
    }
  }

  /** The texts shaped like "S.hh": digits, a '.', and two more digits. */
  predicate TimerShaped(r: string) {
    |r| >= 4 && r[|r| - 3] == '.' && AllDigits(r[..|r| - 3]) && AllDigits(r[|r| - 2..])
  }

  /** The timer text `${seconds}.${hundredths.padStart(2, '0')}`. */
  function TimerText(ms: int): (r: string)
    ensures TimerShaped(r)
    ensures r[..|r| - 3] == Decimal(Seconds(ms))
    ensures DigitsValue(r[|r| - 2..]) == Hundredths(ms)
  {
    var s := Decimal(Seconds(ms));
    var h := TwoDigits(Hundredths(ms));
    var r := s + "." + h;
    assert r[..|r| - 3] == s && r[|r| - 2..] == h;
    r
  }

  /** The milliseconds a "S.hh" text stands for; a text of any other shape reads as -1. */
  function ReadTimer(r: string): int {
    if TimerShaped(r) then DigitsValue(r[..|r| - 3]) * 1000 + DigitsValue(r[|r| - 2..]) * 10 else -1
  }

  /** Reading the timer text back gives the time to within the 10 ms it drops. */
  lemma TimerReadBack(ms: int)
    ensures ReadTimer(TimerText(ms)) <= Max(0, ms) < ReadTimer(TimerText(ms)) + 10
  {
    var r := TimerText(ms);
    var s, h := Seconds(ms), Hundredths(ms);
    var whole, frac := r[..|r| - 3], r[|r| - 2..];
    assert TimerShaped(r) && whole == Decimal(s) && DigitsValue(frac) == h;
    DecimalRoundTrip(s);
    assert ReadTimer(r) == DigitsValue(whole) * 1000 + DigitsValue(frac) * 10;
  }

  /** The two examples the timer documents. */
  lemma TimerFifteen()
    ensures TimerText(15000) == "15.00"
  {
    TimerExample(15000, 15, 0, "15", "00", "15.00");
  }

  lemma TimerThreeQuarter()
    ensures TimerText(3250) == "3.25"
  {
    var digits := TwoDigits(25);
    assert digits == [DigitChar(2), DigitChar(5)];
    assert digits == "25";
    assert Decimal(3) == "3";
    TimerExample(3250, 3, 25, "3", "25", "3.25");
  }

  /** A negative time shows as zero. */
  lemma TimerNegative(ms: int)
    requires ms < 0
    ensures TimerText(ms) == "0.00"
  {
    TimerExample(ms, 0, 0, "0", "00", "0.00");
  }

  lemma TimerExample(ms: int, s: nat, h: nat, st: string, ht: string, full: string)
    requires s * 1000 + h * 10 <= Max(0, ms) < s * 1000 + h * 10 + 10 && h < 100
    requires Decimal(s) == st && TwoDigits(h) == ht && full == st + "." + ht
    ensures TimerText(ms) == full
  {
    assert Seconds(ms) == s;
    assert Hundredths(ms) == h;
  }

  // ----- Countdown -----

  /** `Math.ceil(ms / 1000)`. */
  function CountdownDisplay(ms: int): (d: int)
    ensures (d - 1) * 1000 < ms <= d * 1000
  {
    -((-ms) / 1000)
  }

  /** The countdown never goes up as the remaining time goes down. */
  lemma CountdownMonotone(a: int, b: int)
    requires a <= b
    ensures CountdownDisplay(a) <= CountdownDisplay(b)
  {
    var da, db := CountdownDisplay(a), CountdownDisplay(b);
    if da > db {
      MulMono(1000, db, da - 1);
    }
  }

  lemma CountdownExamples()
    ensures CountdownDisplay(3000) == 3
    ensures CountdownDisplay(2001) == 3
    ensures CountdownDisplay(0) == 0
  {
  }

  // ----- addChars -----

  /** Adding the modulus does not change the remainder. */
  lemma ModShift(a: nat, n: int)
    requires n > 0
    ensures (a + n) % n == a % n
  {
    var q := a / n;
    assert q * n <= a < (q + 1) * n by {
      assert a == n * q + a % n;
      assert (q + 1) * n == q * n + n;
    }
    assert (q + 1) * n <= a + n < (q + 2) * n by {
      assert (q + 2) * n == (q + 1) * n + n;
    }
    DivOfRange(a, n, q);
    DivOfRange(a + n, n, q + 1);
  }

  /** Repeated text is periodic: position i holds the character at i modulo the length of one copy. */
  lemma {:induction false} RepeatPeriodic(s: string, k: nat)
    ensures forall i :: 0 <= i < |Repeat(s, k)| ==> Repeat(s, k)[i] == s[i % |s|]
  {
    if k > 0 {
      RepeatPeriodic(s, k - 1);
      var r, rest := Repeat(s, k), Repeat(s, k - 1);
      assert r == s + rest;
      forall i | 0 <= i < |r|
        ensures r[i] == s[i % |s|]
      {
        if i < |s| {
          DivOfRange(i, |s|, 0);
        } else {
          assert r[i] == rest[i - |s|];
          ModShift(i - |s|, |s|);
        }
      }
    }
  }

  /** `Array(n).join(c)`: the n slots are empty, so the separator appears n - 1 times. */
  function EmptyArrayJoin(n: nat, c: string): (r: string)
    ensures |r| == (if n == 0 then 0 else (n - 1) * |c|)
    ensures forall i :: 0 <= i < |r| ==> r[i] == c[i % |c|]
  {
    if n <= 1 then "" else RepeatPeriodic(c, n - 1); Repeat(c, n - 1)
  }

  /** The slot count `addChars` uses: half the free space, or 2 when there is none. */
  function PadSlots(str: string, count: int): (n: nat)
    ensures count < |str| ==> n == 2
    ensures count >= |str| ==> 2 * n <= count - |str| < 2 * n + 2
  {
    var n := (count - |str|) / 2;
    if n < 0 then 2 else n
  }

  /** `addChars(str, c, count)`: the same padding on both sides of `str`. */
  function AddChars(str: string, c: string, count: int): (r: string)
    ensures |r| >= |str| && (|r| - |str|) % 2 == 0
    ensures r[(|r| - |str|) / 2..(|r| - |str|) / 2 + |str|] == str
    ensures r[..(|r| - |str|) / 2] == r[(|r| - |str|) / 2 + |str|..]
    ensures |c| == 1 ==> forall i :: 0 <= i < |r| && !((|r| - |str|) / 2 <= i < (|r| - |str|) / 2 + |str|) ==> r[i] == c[0]
  {
    var pad := EmptyArrayJoin(PadSlots(str, count), c);
    var r := pad + str + pad;
    assert r[..|pad|] == pad && r[|pad|..|pad| + |str|] == str && r[|pad| + |str|..] == pad;
    r
  }

  /** A string longer than `count` gets exactly one `c` on each side. */
  lemma AddCharsOverflow(str: string, c: string, count: int)
    requires count < |str|
    ensures AddChars(str, c, count) == c + str + c
  {
    assert Repeat(c, 1) == c;
  }

  /** Up to three spare places are not enough for any padding. */
  lemma AddCharsNoRoom(str: string, c: string, count: int)
    requires |str| <= count <= |str| + 3
    ensures AddChars(str, c, count) == str
  {
  }

  /** With a one-character filler and room to spare, the result fits in `count`. */
  lemma AddCharsFits(str: string, c: string, count: int)
    requires |c| == 1 && count >= |str|
    ensures |AddChars(str, c, count)| <= count
  {
  }

  // ----- getClassNames -----

  /** The keys whose value is true, in entry order (`filter` then `map`). */
  function TrueKeys(entries: seq<(string, bool)>): (keys: seq<string>)
    ensures forall k :: k in keys <==> (k, true) in entries
    ensures |keys| <= |entries|
    ensures (forall i :: 0 <= i < |entries| ==> !entries[i].1) ==> keys == []
  {
    if |entries| == 0 then []
    else (if entries[0].1 then [entries[0].0] else []) + TrueKeys(entries[1..])
  }

  /** Filtering distributes over concatenation, so entry order is kept. */
  lemma {:induction false} TrueKeysAppend(a: seq<(string, bool)>, b: seq<(string, bool)>)
    ensures TrueKeys(a + b) == TrueKeys(a) + TrueKeys(b)
  {
    if |a| > 0 {
      var head := if a[0].1 then [a[0].0] else [];
      assert (a + b)[0] == a[0];
      assert (a + b)[1..] == a[1..] + b;
      assert TrueKeys(a + b) == head + TrueKeys(a[1..] + b);
      TrueKeysAppend(a[1..], b);
      assert TrueKeys(a) == head + TrueKeys(a[1..]);
    } else {
      assert a + b == b;
    }
  }

  /** `getClassNames`: the true keys joined by single spaces. */
  function ClassNames(entries: seq<(string, bool)>): (r: string)
    ensures (forall i :: 0 <= i < |entries| ==> !entries[i].1) ==> r == ""
  {
    Join(TrueKeys(entries), " ")
  }

  /**
   * When no key holds a space, splitting the class string on spaces gives
   * back exactly the true keys, in order; a key that is never true is not
   * among them.
   */
  lemma ClassNamesSplit(entries: seq<(string, bool)>, k: string)
    requires exists i :: 0 <= i < |entries| && entries[i].1
    requires forall i :: 0 <= i < |entries| ==> ' ' !in entries[i].0
    ensures Split(ClassNames(entries), ' ') == TrueKeys(entries)
    ensures (k, true) !in entries ==> k !in Split(ClassNames(entries), ' ')
  {
    var keys := TrueKeys(entries);
    var i :| 0 <= i < |entries| && entries[i].1;
    assert entries[i].0 in keys;
    forall j | 0 <= j < |keys|
      ensures ' ' !in keys[j]
    {
      assert (keys[j], true) in entries;
    }
    SplitJoin(keys, ' ');
  }

  // ----- formatScore -----

  /** `formatScore`: `score.toString().padStart(2, '0')`. */
  function FormatScore(score: int): (r: string)
    ensures |r| >= 2 && |r| >= |IntToString(score)|
    ensures r[|r| - |IntToString(score)|..] == IntToString(score)
    ensures 0 <= score < 10 ==> r == ['0', DigitChar(score)]
    ensures score >= 10 ==> r == Decimal(score)
  {
    PadStart(IntToString(score), 2, '0')
  }

  /** `parseInt` reads the padded score back as the score. */
  lemma FormatScoreRoundTrip(score: int)
    ensures ParseInt(FormatScore(score)) == Int(score)
  {
    if 0 <= score < 10 {
      var r := FormatScore(score);
      assert r == ['0', DigitChar(score)];
      assert AllDigits(r);
      DigitPrefixOfDigits(r);
      assert !IsSpace(r[0]);
      assert TrimStart(r) == r;
      assert r[..1] == "0" && DigitsValue(r[..1]) == 0;
      assert DigitsValue(r) == score;
    } else {
      ParseIntRoundTrip(score);
    }
  }
}
