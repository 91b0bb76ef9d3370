/**
  The "HH:MM:SS" display of the active time. Swift's `Int(_:)`, `/` and `%`
  truncate toward zero, unlike Dafny's Euclidean operators, so they are
  written out here.
 */
module ActiveTime {

  /**
    Integer division truncating toward zero: the multiple of `b` it picks lies
    between 0 and `a`, less than `b` away from `a`.
   */
  function Quot(a: int, b: int): (q: int)
    requires b > 0
    ensures 0 <= a ==> 0 <= q * b <= a < q * b + b
    ensures a < 0 ==> q * b - b < a <= q * b <= 0
  {
    if a >= 0 then
      DivisionBounds(a, b);
      a / b
    else
      var m := (-a) / b;
      DivisionBounds(-a, b);
      assert (-m) * b == -(m * b);
      -m
  }

  /** Euclidean division of a non-negative number: the multiple of `b` below it and the remainder. */
  lemma DivisionBounds(n: int, b: int)
    requires 0 <= n && 0 < b
    ensures 0 <= n / b && 0 <= (n / b) * b <= n < (n / b) * b + b
    ensures n % b == n - (n / b) * b
  {
    assert n == (n / b) * b + n % b;
  }

  /** Remainder with the sign of the dividend: what truncating division leaves over. */
  function Rem(a: int, b: int): (r: int)
    requires b > 0
    ensures r == a - Quot(a, b) * b
    ensures 0 <= a ==> 0 <= r < b
    ensures a < 0 ==> -b < r <= 0
  {
    if a >= 0 then
      DivisionBounds(a, b);
      a % b
    else
      DivisionBounds(-a, b);
      assert (-((-a) / b)) * b == -(((-a) / b) * b);
      -((-a) % b)
  }

  /** `Int(activeTime)`: whole seconds of an interval given in milliseconds. */
  function WholeSeconds(ms: int): (s: int)
    ensures 0 <= ms ==> 0 <= s && s * 1000 <= ms < s * 1000 + 1000
  {
    Quot(ms, 1000)
  }

  /**
    The hours, minutes and seconds shown for `t` whole seconds. Together they
    make up `t` again; for a non-negative `t` the minutes and seconds are
    clock digits in 0..59.
   */
  function ClockFields(t: int): (r: (int, int, int))
    ensures r.0 * 3600 + r.1 * 60 + r.2 == t
    ensures 0 <= t ==> 0 <= r.0 && 0 <= r.1 < 60 && 0 <= r.2 < 60
  {
    ClockSplit(if t >= 0 then t else -t);
    (Quot(t, 3600), Quot(Rem(t, 3600), 60), Rem(t, 60))
  }

  /** Euclidean hour/minute/second split of a non-negative number of seconds. */
  lemma ClockSplit(t: int)
    requires 0 <= t
    ensures (t / 3600) * 3600 + ((t % 3600) / 60) * 60 + t % 60 == t
    ensures 0 <= (t % 3600) / 60 < 60 && 0 <= t % 60 < 60
  {
    var q, r := t / 3600, t % 3600;
    assert t == q * 3600 + r && 0 <= r < 3600;
    var m, s := r / 60, r % 60;
    assert r == m * 60 + s && 0 <= s < 60 && 0 <= m < 60;
    assert t == (q * 60 + m) * 60 + s;
    assert t % 60 == s;
  }

  /** The character for a decimal digit. */
  function DigitChar(d: int): char
    requires 0 <= d < 10
  {
    (48 + d) as char
  }

  /** The digit a character stands for. */
  function DigitValue(c: char): int
  {
    c as int - 48
  }

  predicate IsDigit(c: char)
  {
    '0' <= c <= '9'
  }

  /** Decimal digits of a natural number, most significant first, no leading zeros. */
  function Decimal(n: nat): (r: string)
    ensures 0 < |r|
    ensures forall i :: 0 <= i < |r| ==> IsDigit(r[i])
    ensures n < 10 <==> |r| == 1
    ensures 10 <= n < 100 ==> |r| == 2
    ensures 1 <= n ==> r[0] != '0'
  {
    if n < 10 then [DigitChar(n)] else Decimal(n / 10) + [DigitChar(n % 10)]
  }

  /** The number a string of digits spells. */
  function DecimalValue(s: string): int
  {
    if s == [] then 0 else DecimalValue(s[..|s| - 1]) * 10 + DigitValue(s[|s| - 1])
  }

  /** Reading back the digits of `n` gives `n`. */
  lemma {:induction false} DecimalRoundTrip(n: nat)
    ensures DecimalValue(Decimal(n)) == n
  {
    if n >= 10 {
      DecimalRoundTrip(n / 10);
      var r := Decimal(n);
      assert r[..|r| - 1] == Decimal(n / 10);
    }
  }

  /**
    `%02d`: a non-negative value prints as at least two digits, exactly two
    below 100, that read back as the value; a negative value prints as '-'
    followed by the digits of its magnitude.
   */
  function Pad2(n: int): (r: string)
    ensures 2 <= |r|
    ensures 0 <= n ==> (forall i :: 0 <= i < |r| ==> IsDigit(r[i])) && DecimalValue(r) == n
    ensures 0 <= n < 100 ==> |r| == 2
    ensures 100 <= n ==> r[0] != '0'
    ensures n < 0 ==> r[0] == '-' && DecimalValue(r[1..]) == -n
  {
    if n < 0 then
      DecimalRoundTrip(-n);
      assert ("-" + Decimal(-n))[1..] == Decimal(-n);
      "-" + Decimal(-n)
    else if n < 10 then
      assert ("0" + Decimal(n))[..1] == "0";
      assert "0"[..0] == [];
      "0" + Decimal(n)
    else
      DecimalRoundTrip(n);
      Decimal(n)
  }

  /**
    `r` is hour digits, ':', two minute digits, ':', two second digits; the
    hours are two digits or start with a non-zero digit, the minutes and
    seconds are below 60, and reading the three fields back as hours, minutes
    and seconds gives `t`.
   */
  predicate ShowsClock(r: string, t: int)
  {
    && |r| >= 8
    && (|r| == 8 || r[0] != '0')
    && (forall i :: 0 <= i < |r| - 6 ==> IsDigit(r[i]))
    && r[|r| - 6] == ':' && IsDigit(r[|r| - 5]) && IsDigit(r[|r| - 4])
    && r[|r| - 3] == ':' && IsDigit(r[|r| - 2]) && IsDigit(r[|r| - 1])
    && DecimalValue(r[|r| - 5..|r| - 3]) < 60 && DecimalValue(r[|r| - 2..]) < 60
    && DecimalValue(r[..|r| - 6]) * 3600 + DecimalValue(r[|r| - 5..|r| - 3]) * 60
       + DecimalValue(r[|r| - 2..]) == t
  }

  /**
    `String(format: "%02d:%02d:%02d", hours, minutes, seconds)`. The display
    of a non-negative number of seconds reads back as that number.
   */
  function FormatClock(t: int): (r: string)
    ensures 0 <= t ==> ShowsClock(r, t)
  {
    var (h, m, s) := ClockFields(t);
    var ph, pm, ps := Pad2(h), Pad2(m), Pad2(s);
    if 0 <= t then
      JoinFields(ph, pm, ps);
      ph + ":" + pm + ":" + ps
    else
      ph + ":" + pm + ":" + ps
  }

  /** Joining three fields with ':' leaves each field where the display reads it, when the last two have two characters. */
  lemma JoinFields(a: string, b: string, c: string)
    requires |a| >= 2 && |b| == 2 && |c| == 2
    ensures var r := a + ":" + b + ":" + c;
      && |r| == |a| + 6
      && r[..|r| - 6] == a && r[|r| - 6] == ':'
      && r[|r| - 5..|r| - 3] == b && r[|r| - 3] == ':'
      && r[|r| - 2..] == c
  {
    var r := a + ":" + b + ":" + c;
    assert r == a + ([':'] + b + [':'] + c);
  }


  /** One hour of activity shows as "01:00:00". */
  lemma OneHourDisplay()
    ensures FormatClock(3600) == "01:00:00"
  {
    assert ClockFields(3600) == (1, 0, 0);
    assert Decimal(1) == "1";
    assert Decimal(0) == "0";
  }

  /** A string of digits spells a non-negative number. */
  lemma {:induction false} DecimalValueNonNegative(s: string)
    requires forall i :: 0 <= i < |s| ==> IsDigit(s[i])
    ensures 0 <= DecimalValue(s)
  {
    if s != [] {
      DecimalValueNonNegative(s[..|s| - 1]);
    }
  }

  /** Digits without a leading zero are exactly how `Decimal` prints the number they spell. */
  lemma {:induction false} DecimalOfValue(s: string)
    requires 0 < |s| && (forall i :: 0 <= i < |s| ==> IsDigit(s[i]))
    requires |s| == 1 || s[0] != '0'
    ensures 0 <= DecimalValue(s) && Decimal(DecimalValue(s)) == s
  {
    DecimalValueNonNegative(s);
    var p, c := s[..|s| - 1], s[|s| - 1];
    assert s == p + [c];
    if |s| == 1 {
      assert p == [];
    } else {
      assert p[0] == s[0];
      DecimalOfValue(p);
      var v := DecimalValue(s);
      assert v == DecimalValue(p) * 10 + DigitValue(c);
      assert 10 <= v by {
        if |p| == 1 {
          assert p == [s[0]] && p[..0] == [];
        }
      }
      assert v / 10 == DecimalValue(p) && v % 10 == DigitValue(c);
    }
  }

  /** A two-character string of digits spells the tens digit times ten plus the units digit. */
  lemma TwoDigitsValue(s: string)
    requires |s| == 2
    ensures DecimalValue(s) == DigitValue(s[0]) * 10 + DigitValue(s[1])
  {
    assert s[..1][..0] == [];
    assert DecimalValue(s[..1]) == DigitValue(s[0]);
  }

  /** Two two-digit strings that spell the same number are the same string. */
  lemma TwoDigitsUnique(a: string, b: string)
    requires |a| == 2 && |b| == 2
    requires IsDigit(a[0]) && IsDigit(a[1]) && IsDigit(b[0]) && IsDigit(b[1])
    requires DecimalValue(a) == DecimalValue(b)
    ensures a == b
  {
    TwoDigitsValue(a);
    TwoDigitsValue(b);
    assert a[0] == b[0] && a[1] == b[1];
  }

  /** Hours, minutes and seconds with minutes and seconds in 0..59 are the only split of their total. */
  lemma ClockFieldsUnique(hv: int, mv: int, sv: int, t: int)
    requires 0 <= hv && 0 <= mv < 60 && 0 <= sv < 60
    requires hv * 3600 + mv * 60 + sv == t
    ensures ClockFields(t) == (hv, mv, sv)
  {
    var (fh, fm, fs) := ClockFields(t);
  }

  /** The three fields of a string that reads back as `t` hold the numbers `ClockFields` splits `t` into. */
  lemma ClockFieldValues(r: string, t: int)
    requires ShowsClock(r, t)
    ensures 0 <= t
    ensures ClockFields(t) == (DecimalValue(r[..|r| - 6]), DecimalValue(r[|r| - 5..|r| - 3]), DecimalValue(r[|r| - 2..]))
  {
    var h, m, s := r[..|r| - 6], r[|r| - 5..|r| - 3], r[|r| - 2..];
    assert forall i :: 0 <= i < |h| ==> IsDigit(h[i]);
    DecimalValueNonNegative(h);
    TwoDigitsValue(m);
    TwoDigitsValue(s);
    ClockFieldsUnique(DecimalValue(h), DecimalValue(m), DecimalValue(s), t);
  }

  /** An hour field that is two digits or starts with a non-zero digit is the `%02d` of the number it spells. */
  lemma HourFieldIsPad2(h: string)
    requires 2 <= |h| && (forall i :: 0 <= i < |h| ==> IsDigit(h[i]))
    requires |h| == 2 || h[0] != '0'
    ensures 0 <= DecimalValue(h) && h == Pad2(DecimalValue(h))
  {
    DecimalValueNonNegative(h);
    var v := DecimalValue(h);
    if |h| == 2 {
      TwoDigitsValue(h);
      TwoDigitsUnique(h, Pad2(v));
    } else {
      DecimalOfValue(h);
      DecimalRoundTrip(v);
    }
  }

  /**
    The clock display is the only string that reads back as its number of
    seconds: any string of the display's shape that reads back as `t` is
    `FormatClock(t)`.
   */
  lemma ClockDisplayUnique(r: string, t: int)
    requires ShowsClock(r, t)
    ensures r == FormatClock(t)
  {
    var h, m, s := r[..|r| - 6], r[|r| - 5..|r| - 3], r[|r| - 2..];
    ClockFieldValues(r, t);
    var (fh, fm, fs) := ClockFields(t);
    var ph, pm, ps := Pad2(fh), Pad2(fm), Pad2(fs);
    assert FormatClock(t) == ph + ":" + pm + ":" + ps;
    TwoDigitsUnique(m, pm);
    TwoDigitsUnique(s, ps);
    assert h[0] == r[0];
    HourFieldIsPad2(h);
    assert r == h + ":" + m + ":" + s;
  }

}
