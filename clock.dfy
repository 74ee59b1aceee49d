/** Pure arithmetic of the timer screen: the hours/minutes/seconds total,
    the `HH:MM:SS` formatter and the wrap-around rule of the number pickers.
    JavaScript numbers are modelled as unbounded integers; the operators whose
    meaning differs from Dafny's on negative operands are written out. */
module Clock {

  /** Largest value of an hours picker and of a minutes or seconds picker. */
  const MaxHours: nat := 23
  const MaxSixty: nat := 59

  /** The largest configurable total, 23:59:59. */
  const MaxTotal: nat := 86399

  /** `x` times sixty, by repeated addition. It exists only to keep
      multiplication away from the solver in the engine's proofs; its value
      is given by `SixtiesIsProduct`. */
  function Sixties(x: nat): (r: nat)
    ensures x <= r
    decreases x
  {
    if x == 0 then 0 else Sixties(x - 1) + 60
  }

  lemma {:induction false} SixtiesIsProduct(x: nat)
    ensures Sixties(x) == x * 60
    decreases x
  {
    if x > 0 {
      SixtiesIsProduct(x - 1);
    }
  }

  /** Seconds in `h` hours, `m` minutes and `s` seconds, counted as
      (h * 60 + m) * 60 + s. The multiplications are kept inside `Sixties`
      so that the engine's proofs see only addition; `TotalSecondsValue`
      gives the product form. The total is zero exactly when all three
      values are, which is what `startTimer` tests before it starts. */
  function TotalSeconds(h: nat, m: nat, s: nat): (t: nat)
    ensures t == 0 <==> h == 0 && m == 0 && s == 0
  {
    Sixties(Sixties(h) + m) + s
  }

  /** The total is h * 3600 + m * 60 + s. */
  lemma TotalSecondsValue(h: nat, m: nat, s: nat)
    ensures TotalSeconds(h, m, s) == h * 3600 + m * 60 + s
  {
    SixtiesIsProduct(h);
    SixtiesIsProduct(Sixties(h) + m);
  }

  /** Values within the pickers' ranges total at most 23:59:59. */
  lemma TotalSecondsBounded(h: nat, m: nat, s: nat)
    requires h <= MaxHours && m <= MaxSixty && s <= MaxSixty
    ensures TotalSeconds(h, m, s) <= MaxTotal
  {
    TotalSecondsValue(h, m, s);
  }

  /** JavaScript's `%` for a positive divisor: the remainder takes the sign
      of the dividend. Dafny's `%` is Euclidean, so the negative case is
      written out. */
  function JsRem(a: int, d: int): (r: int)
    requires d > 0
    ensures -d < r < d
    ensures a >= 0 ==> 0 <= r
    ensures a <= 0 ==> r <= 0
    ensures (a - r) % d == 0
  {
    if a >= 0 then
      DivModUnique(a - a % d, d, a / d, 0);
      a % d
    else
      NegativeRemainder(a, d);
      -((-a) % d)
  }

  /** For a negative dividend, adding back the remainder of its magnitude
      gives a multiple of the divisor. */
  lemma NegativeRemainder(a: int, d: int)
    requires d > 0 && a < 0
    ensures (a + (-a) % d) % d == 0
  {
    var q, m := (-a) / d, (-a) % d;
    assert -a == q * d + m;
    assert a + m == (-q) * d;
    DivModUnique(a + m, d, -q, 0);
  }

  /** A positive multiple of a positive divisor is at least the divisor. */
  lemma MultipleAtLeast(k: int, d: int)
    requires k >= 1 && d > 0
    ensures k * d >= d
  {
    assert k * d == (k - 1) * d + d;
    assert (k - 1) * d >= 0;
  }

  /** Quotient and remainder are determined by the division equation. */
  lemma DivModUnique(a: int, d: int, q: int, r: int)
    requires d > 0 && 0 <= r < d && a == q * d + r
    ensures a / d == q && a % d == r
  {
    var q', r' := a / d, a % d;
    assert a == q' * d + r';
    assert q * d - q' * d == r' - r;
    assert (q - q') * d == q * d - q' * d;
    if q > q' {
      MultipleAtLeast(q - q', d);
    } else if q < q' {
      MultipleAtLeast(q' - q, d);
    }
  }

  predicate IsDigit(c: char) {
    '0' <= c <= '9'
  }

  predicate AllDigits(s: string) {
    forall i :: 0 <= i < |s| ==> IsDigit(s[i])
  }

  /** The decimal value of a string of digits, most significant first. */
  function DigitsValue(s: string): nat
    requires AllDigits(s)
  {
    if s == [] then 0 else DigitsValue(s[..|s| - 1]) * 10 + (s[|s| - 1] as int - '0' as int)
  }

  function DigitChar(d: nat): (c: char)
    requires d < 10
    ensures IsDigit(c) && c as int - '0' as int == d
  {
    ('0' as int + d) as char
  }

  /** `n.toString()` for a non-negative integer: its decimal digits with no
      leading zero. */
  function NatToString(n: nat): (s: string)
    ensures 1 <= |s| && AllDigits(s) && DigitsValue(s) == n
    ensures n > 0 ==> s[0] != '0'
    ensures n < 10 ==> |s| == 1
    ensures 10 <= n < 100 ==> |s| == 2
    decreases n
  {
    if n < 10 then [DigitChar(n)]
    else
      var prefix := NatToString(n / 10);
      var s := prefix + [DigitChar(n % 10)];
      assert s[..|s| - 1] == prefix;
      s
  }

  /** `n.toString()` for any integer: a leading '-' for a negative value. */
  function IntToString(n: int): (s: string)
    ensures 1 <= |s|
    ensures n >= 0 ==> AllDigits(s) && DigitsValue(s) == n
    ensures n < 0 ==> s[0] == '-' && AllDigits(s[1..]) && DigitsValue(s[1..]) == -n
  {
    if n < 0 then "-" + NatToString(-n) else NatToString(n)
  }

  function Repeat(c: char, n: nat): (s: string)
    ensures |s| == n && forall i :: 0 <= i < n ==> s[i] == c
  {
    if n == 0 then [] else [c] + Repeat(c, n - 1)
  }

  /** `s.padStart(width, fill)` with a one-character filler. */
  function PadStart(s: string, width: nat, fill: char): (r: string)
    ensures |r| == if |s| >= width then |s| else width
    ensures r[|r| - |s|..] == s
    ensures forall i :: 0 <= i < |r| - |s| ==> r[i] == fill
  {
    if |s| >= width then s else Repeat(fill, width - |s|) + s
  }

  /** One field of the clock: `n.toString().padStart(2, '0')`. */
  function Pad2(n: int): string {
    PadStart(IntToString(n), 2, '0')
  }

  /** The three fields `formatTime` computes: hours by floor division,
      minutes from the JavaScript remainder by 3600, seconds as the
      JavaScript remainder by 60. For a positive divisor `Math.floor(a / d)`
      is Dafny's `a / d`. */
  function ClockFields(t: int): (f: (int, int, int))
    ensures t >= 0 ==> f.0 * 3600 + f.1 * 60 + f.2 == t
    ensures t >= 0 ==> 0 <= f.0 && 0 <= f.1 < 60 && 0 <= f.2 < 60
    ensures 0 <= t <= MaxTotal ==> f.0 <= MaxHours
  {
    if t >= 0 then ClockFieldsSplit(t); (t / 3600, JsRem(t, 3600) / 60, JsRem(t, 60))
    else (t / 3600, JsRem(t, 3600) / 60, JsRem(t, 60))
  }

  lemma ClockFieldsSplit(t: nat)
    ensures var h, m, s := t / 3600, (t % 3600) / 60, t % 60;
      h * 3600 + m * 60 + s == t && 0 <= m < 60 && 0 <= s < 60
      && (t <= MaxTotal ==> h <= MaxHours)
  {
    var h, r := t / 3600, t % 3600;
    var m, s := r / 60, r % 60;
    assert r == m * 60 + s;
    assert t == (h * 60 + m) * 60 + s;
    DivModUnique(t, 60, h * 60 + m, s);
    if h > MaxHours {
      assert h * 3600 >= 24 * 3600;
    }
  }

  /** Splitting a total made from picker values gives the values back: the
      clock shows the hours, minutes and seconds the pickers were set to. */
  lemma FieldsOfTotal(h: nat, m: nat, s: nat)
    requires m < 60 && s < 60
    ensures ClockFields(TotalSeconds(h, m, s)) == (h, m, s)
  {
    var t := TotalSeconds(h, m, s);
    TotalSecondsValue(h, m, s);
    DivModUnique(t, 3600, h, m * 60 + s);
    DivModUnique(m * 60 + s, 60, m, s);
    DivModUnique(t, 60, h * 60 + m, s);
  }

  /** `formatTime(totalSeconds)`: the three fields, each padded to two
      characters, joined by ':'. */
  function FormatTime(t: int): (r: string)
    ensures |r| >= 8
    ensures 0 <= t < 100 * 3600 ==> |r| == 8 && r[2] == ':' && r[5] == ':'
  {
    var f := ClockFields(t);
    if 0 <= t < 100 * 3600 then
      ClockLayout(t);
      Pad2(f.0) + ":" + Pad2(f.1) + ":" + Pad2(f.2)
    else
      Pad2(f.0) + ":" + Pad2(f.1) + ":" + Pad2(f.2)
  }

  /** Below one hundred hours the three fields pad to two characters each,
      so the separators sit at positions 2 and 5. */
  lemma ClockLayout(t: int)
    requires 0 <= t < 100 * 3600
    ensures var f := ClockFields(t); var r := Pad2(f.0) + ":" + Pad2(f.1) + ":" + Pad2(f.2);
      |r| == 8 && r[2] == ':' && r[5] == ':'
  {
    var f := ClockFields(t);
    assert f.0 * 3600 + f.1 * 60 + f.2 == t;
    Pad2Digits(f.0);
    Pad2Digits(f.1);
    Pad2Digits(f.2);
    JoinedFields(Pad2(f.0), Pad2(f.1), Pad2(f.2));
  }

  /** A value below 100 pads to exactly two digits that read back as it. */
  lemma Pad2Digits(n: int)
    requires 0 <= n < 100
    ensures |Pad2(n)| == 2 && AllDigits(Pad2(n)) && DigitsValue(Pad2(n)) == n
  {
    var p := Pad2(n);
    if n < 10 {
      assert p == ['0'] + NatToString(n);
      assert p[..1] == ['0'];
    } else {
      assert p == NatToString(n);
    }
  }

  /** For every total below one hundred hours (so every total the pickers
      can produce), `formatTime` yields `HH:MM:SS`: eight characters, ':' at
      positions 2 and 5, and three two-digit fields that read back as hours,
      minutes below 60 and seconds below 60 of the same total. */
  lemma {:induction false} FormatTimeReadsBack(t: int)
    requires 0 <= t < 100 * 3600
    ensures var s := FormatTime(t);
      |s| == 8 && s[2] == ':' && s[5] == ':'
      && AllDigits(s[0..2]) && AllDigits(s[3..5]) && AllDigits(s[6..8])
      && DigitsValue(s[3..5]) < 60 && DigitsValue(s[6..8]) < 60
      && DigitsValue(s[0..2]) * 3600 + DigitsValue(s[3..5]) * 60 + DigitsValue(s[6..8]) == t
  {
    var f := ClockFields(t);
    var h, m, sec := f.0, f.1, f.2;
    assert h * 3600 + m * 60 + sec == t;
    Pad2Digits(h);
    Pad2Digits(m);
    Pad2Digits(sec);
    JoinedFields(Pad2(h), Pad2(m), Pad2(sec));
  }

  /** Three two-character fields joined by ':' sit at fixed positions. */
  lemma JoinedFields(a: string, b: string, c: string)
    requires |a| == 2 && |b| == 2 && |c| == 2
    ensures var s := a + ":" + b + ":" + c;
      |s| == 8 && s[2] == ':' && s[5] == ':' && s[0..2] == a && s[3..5] == b && s[6..8] == c
  {
  }

  /** A negative input, as the repeating-beep status line can pass once the
      next beep time has gone below zero, gives no clock: the hours field is
      negative, and the minutes and seconds fields carry a minus sign unless
      their remainder is zero. */
  lemma FormatTimeOfNegative()
    ensures FormatTime(-4) == "-1:-1:-4"
  {
    assert ClockFields(-4) == (-1, -1, -4);
    assert NatToString(1) == "1";
    assert NatToString(4) == "4";
  }

  /** A whole negative minute: the seconds remainder is zero, so that field
      shows "00" without a sign. */
  lemma FormatTimeOfNegativeMinute()
    ensures FormatTime(-60) == "-1:-1:00"
  {
    assert ClockFields(-60) == (-1, -1, 0);
    assert NatToString(1) == "1";
    assert NatToString(0) == "0";
  }

  /** The '+' button of a number picker: one up, wrapping past `max` to 0. */
  function PickerInc(value: nat, max: nat): (r: nat)
    ensures value <= max ==> r <= max
    ensures r == 0 || r == value + 1
  {
    if value < max then value + 1 else 0
  }

  /** The '-' button of a number picker: one down, wrapping below 0 to `max`. */
  function PickerDec(value: nat, max: nat): (r: nat)
    ensures value <= max ==> r <= max
    ensures r == max || r + 1 == value
  {
    if value > 0 then value - 1 else max
  }

  /** On the picker's range the two buttons undo each other. */
  lemma PickerButtonsInverse(value: nat, max: nat)
    requires value <= max
    ensures PickerDec(PickerInc(value, max), max) == value
    ensures PickerInc(PickerDec(value, max), max) == value
  {
  }

  /** The value a picker shows after `times` presses of '+': counting modulo
      `max + 1`, so the button cycles through the whole range. */
  function PressInc(value: nat, max: nat, times: nat): (r: nat)
    requires value <= max
    ensures r <= max
    ensures r == (value + times) % (max + 1)
    decreases times
  {
    if times == 0 then
      DivModUnique(value, max + 1, 0, value);
      value
    else
      var x := PressInc(value, max, times - 1);
      PressStep(value + times - 1, max, x);
      PickerInc(x, max)
  }

  /** One more press moves the shown value one step further round the
      cycle of `max + 1` values. */
  lemma PressStep(n: nat, max: nat, x: nat)
    requires x == n % (max + 1)
    ensures PickerInc(x, max) == (n + 1) % (max + 1)
  {
    var q := n / (max + 1);
    assert n == q * (max + 1) + x;
    if x < max {
      DivModUnique(n + 1, max + 1, q, x + 1);
    } else {
      assert (q + 1) * (max + 1) == q * (max + 1) + max + 1;
      DivModUnique(n + 1, max + 1, q + 1, 0);
    }
  }
}
