/** The `formatBytes` and `megaBytes` filters of the portal's shared
    module (client/app/shared/format-bytes.filter.js).

    A byte count is shown as a number of tenths rounded the way
    `Number.prototype.toFixed(1)` rounds (section 21.1.3.3 of ECMA-262,
    2022 edition: nearest, ties to the larger), a trailing ".0" dropped,
    then one space and a unit label. Byte counts are natural numbers and
    the division by a power of 1024 is exact. */
module FormatBytes {
  import opened Text
  import opened Wrappers

  /** The filter's argument: a finite non-negative whole number of bytes,
      or one of the two values the filter rejects. */
  datatype ByteInput =
    | Count(n: nat)
    | NotANumber   // `parseFloat(bytes)` is NaN
    | NotFinite    // `isFinite(bytes)` is false

  const Units: seq<string> := ["Bytes", "kB", "MB", "GB", "TB", "PB"]

  /** 1024^6: the first count past the last unit. */
  const MaxCount: nat := 0x1000_0000_0000_0000

  function Pow(b: nat, e: nat): nat
  {
    if e == 0 then 1 else b * Pow(b, e - 1)
  }

  /** The unit index: the integer base-1024 logarithm of `n`, which the
      filter computes as `Math.floor(Math.log(n) / Math.log(1024))`. */
  function UnitIndex(n: nat): (k: nat)
    requires n >= 1
    ensures Pow(1024, k) <= n < Pow(1024, k + 1)
    decreases n
  {
    if n < 1024 then 0
    else
      var k := UnitIndex(n / 1024);
      assert 1024 * (n / 1024) <= n < 1024 * (n / 1024 + 1);
      1 + k
  }

  /** The label at position `k` of the unit list; past its end JavaScript
      reads `undefined` and concatenation writes that word. */
  function Label(k: nat): (l: string)
    ensures k < |Units| ==> l == Units[k]
  {
    if k < |Units| then Units[k] else "undefined"
  }

  /** The value `num / den` in tenths, rounded to the nearest with ties
      going to the larger: the integer `n` that step 8 of
      `Number.prototype.toFixed` picks for one fraction digit. */
  function RoundTenths(num: nat, den: nat): nat
    requires den >= 1
  {
    (20 * num + den) / (2 * den)
  }

  /** `x.toFixed(1)` for the exact rational `x == num / den`: the digits of
      the rounded tenths, padded with zeros to two digits, with a point
      put before the last digit. */
  function ToFixed1(num: nat, den: nat): string
    requires den >= 1
  {
    var m := NatToString(RoundTenths(num, den));
    var m' := if |m| <= 1 then "0" + m else m;
    m'[..|m'| - 1] + "." + m'[|m'| - 1..]
  }

  /** `val.match(/\.0*$/)`: a point followed by nothing but zeros ends `s`. */
  predicate EndsWithPointZeros(s: string)
    decreases |s|
  {
    |s| > 0 && (s[|s| - 1] == '.' || (s[|s| - 1] == '0' && EndsWithPointZeros(s[..|s| - 1])))
  }

  /** The filter's number clean-up: when the string ends in a point and
      zeros, keep what is before the first point. */
  function StripZeroFraction(val: string): string
  {
    if EndsWithPointZeros(val) then Prefix(val, IndexOf(val, '.')) else val
  }

  /** The number as the filter finally writes it, for rounded tenths `t`:
      whole part, then a point and the tenths digit unless that digit is 0. */
  function Display(t: nat): string
  {
    if t % 10 == 0 then NatToString(t / 10)
    else NatToString(t / 10) + "." + [DigitChar(t % 10)]
  }

  /** The inverse of `Display`: reads "<digits>" or "<digits>.<digit>" as
      a number of tenths. */
  function ReadTenths(s: string): Option<nat>
  {
    var i := IndexOf(s, '.');
    if i < 0 then
      if |s| >= 1 && AllDigits(s) then Some(10 * DigitsValue(s)) else None
    else if 1 <= i && i + 2 == |s| && AllDigits(s[..i]) && IsDigit(s[i + 1]) then
      Some(10 * DigitsValue(s[..i]) + DigitValue(s[i + 1]))
    else None
  }

  /** The closure returned by `formatBytes`. */
  function Format(input: ByteInput): (r: string)
    ensures input == Count(0) ==> r == "0 Bytes"
    ensures !input.Count? ==> r == "-"
  {
    match input
    case NotANumber => "-"
    case NotFinite => "-"
    case Count(n) =>
      if n == 0 then "0 Bytes"
      else
        var k := UnitIndex(n);
        StripZeroFraction(ToFixed1(n, Pow(1024, k))) + " " + Label(k)
  }

  /** The closure returned by `megaBytes`: mebibytes to bytes. */
  function MegaBytes(mb: int): (bytes: int)
    ensures bytes % 1048576 == 0 && bytes / 1048576 == mb
  {
    mb * 1024 * 1024
  }

  // ---------------------------------------------------------------------
  // Unit choice

  lemma {:induction false} PowMonotone(i: nat, j: nat)
    requires i <= j
    ensures 1 <= Pow(1024, i) <= Pow(1024, j)
    decreases j
  {
    if j > 0 {
      if i < j {
        PowMonotone(i, j - 1);
      } else {
        PowMonotone(i - 1, j - 1);
      }
    }
  }

  /** The unit index is the only `k` with 1024^k <= n < 1024^(k+1). */
  lemma UnitIndexUnique(n: nat, j: nat)
    requires n >= 1
    requires Pow(1024, j) <= n < Pow(1024, j + 1)
    ensures UnitIndex(n) == j
  {
    var k := UnitIndex(n);
    if j < k {
      PowMonotone(j + 1, k);
    } else if k < j {
      PowMonotone(k + 1, j);
    }
  }

  /** A larger count never gets a smaller unit. */
  lemma UnitIndexMonotone(a: nat, b: nat)
    requires 1 <= a <= b
    ensures UnitIndex(a) <= UnitIndex(b)
  {
    var ka, kb := UnitIndex(a), UnitIndex(b);
    if kb < ka {
      PowMonotone(kb + 1, ka);
    }
  }

  /** Below 1024^6 the index falls inside the unit list, so the label is
      one of Bytes, kB, MB, GB, TB, PB, in that order of size. */
  lemma UnitIndexInRange(n: nat)
    requires 1 <= n < MaxCount
    ensures UnitIndex(n) < |Units|
    ensures Label(UnitIndex(n)) == Units[UnitIndex(n)]
  {
    var k := UnitIndex(n);
    assert Pow(1024, 6) == MaxCount;
    if k >= 6 {
      PowMonotone(6, k);
    }
  }

  // ---------------------------------------------------------------------
  // Rounding and the written number

  /** `RoundTenths(num, den)` is the integer `t` nearest to `10 * num / den`,
      the larger one on a tie: no integer `u` is nearer, and one as near
      is not larger. Distances are doubled to stay in integers. */
  lemma RoundTenthsNearest(num: nat, den: nat, u: int)
    requires den >= 1
    ensures var t := RoundTenths(num, den);
      && 2 * (t * den) <= 20 * num + den < 2 * (t * den) + 2 * den
      && Dist(10 * num, t * den) <= Dist(10 * num, u * den)
      && (Dist(10 * num, t * den) == Dist(10 * num, u * den) ==> u <= t)
  {
    var t := RoundTenths(num, den);
    RoundTenthsBounds(num, den);
    if u >= t + 1 {
      MulLe(t + 1, u, den);
      MulStep(t, den);
    } else if u <= t - 1 {
      MulLe(u, t - 1, den);
      MulStep(t - 1, den);
    }
    NearestFromBounds(10 * num, t * den, u * den, den, u - t);
  }

  lemma RoundTenthsBounds(num: nat, den: nat)
    requires den >= 1
    ensures var t := RoundTenths(num, den);
      2 * (t * den) <= 20 * num + den < 2 * (t * den) + 2 * den
  {
    var t := RoundTenths(num, den);
    DivBounds(20 * num + den, 2 * den);
    assert (2 * den) * t == 2 * (t * den);
  }

  lemma MulStep(a: int, d: nat)
    ensures (a + 1) * d == a * d + d
  {
  }

  /** The nearest-integer argument on the scaled values `x == 10 * num`,
      `td == t * den`, `ud == u * den`, once `ud` is known to be `td` or at
      least one `den` away on the side of `u - t`. */
  lemma NearestFromBounds(x: int, td: int, ud: int, den: nat, diff: int)
    requires den >= 1
    requires 2 * td <= 2 * x + den < 2 * td + 2 * den
    requires diff >= 1 ==> ud >= td + den
    requires diff <= -1 ==> ud <= td - den
    requires diff == 0 ==> ud == td
    ensures Dist(x, td) <= Dist(x, ud)
    ensures Dist(x, td) == Dist(x, ud) ==> diff <= 0
  {
  }

  lemma DivBounds(q: nat, m: nat)
    requires m > 0
    ensures m * (q / m) <= q < m * (q / m) + m
  {
  }

  lemma MulLe(a: int, b: int, d: nat)
    requires a <= b
    ensures a * d <= b * d
  {
  }

  function Dist(a: int, b: int): nat
  {
    if a >= b then a - b else b - a
  }

  /** `ToFixed1` writes the whole part of the tenths, a point, and the
      tenths digit. */
  lemma ToFixed1Parts(num: nat, den: nat)
    requires den >= 1
    ensures var t := RoundTenths(num, den);
      ToFixed1(num, den) == NatToString(t / 10) + "." + [DigitChar(t % 10)]
  {
    var t := RoundTenths(num, den);
    if t < 10 {
      assert NatToString(t) == [DigitChar(t)];
      assert ("0" + [DigitChar(t)])[..1] == "0" == NatToString(0);
    }
  }

  /** Dropping a ".0" from `<digits>.<digit>` leaves exactly `Display`. */
  lemma StripFixed(whole: nat, digit: nat)
    requires digit < 10
    ensures StripZeroFraction(NatToString(whole) + "." + [DigitChar(digit)])
         == Display(10 * whole + digit)
  {
    var a := NatToString(whole);
    var s := a + "." + [DigitChar(digit)];
    assert (10 * whole + digit) / 10 == whole && (10 * whole + digit) % 10 == digit;
    assert s[..|s| - 1] == a + ".";
    if digit == 0 {
      assert EndsWithPointZeros(s);
      DigitsExclude(a, '.');
      IndexOfAfter(a, "." + [DigitChar(digit)], '.');
      assert s[..|a|] == a;
    } else {
      assert !EndsWithPointZeros(s);
    }
  }

  /** The written number has a point exactly when its tenths digit is not
      0, and then exactly one digit follows the point. Reading it back
      gives the tenths. */
  lemma DisplayShape(t: nat)
    ensures var s := Display(t);
      && ('.' in s <==> t % 10 != 0)
      && (t % 10 != 0 ==> IndexOf(s, '.') == |s| - 2)
      && ' ' !in s
      && ReadTenths(s) == Some(t)
  {
    var a := NatToString(t / 10);
    DigitsExclude(a, '.');
    DigitsExclude(a, ' ');
    NatToStringRoundTrip(t / 10);
    assert t == 10 * (t / 10) + t % 10;
    if t % 10 != 0 {
      PointShape(a, t % 10);
    }
  }

  lemma PointShape(a: string, d: nat)
    requires |a| >= 1 && AllDigits(a) && 1 <= d < 10
    ensures var s := a + "." + [DigitChar(d)];
      && '.' in s
      && IndexOf(s, '.') == |s| - 2
      && ' ' !in s
      && ReadTenths(s) == Some(10 * DigitsValue(a) + d)
  {
    var s := a + "." + [DigitChar(d)];
    DigitsExclude(a, '.');
    assert s[..|a|] == a;
    IndexOfAfter(a, "." + [DigitChar(d)], '.');
    assert s[|a| + 1] == DigitChar(d);
    assert ' ' !in s by {
      DigitsExclude(a, ' ');
      forall i | 0 <= i < |s|
        ensures s[i] != ' '
      {
        if i < |a| {
          assert s[i] == a[i];
        }
      }
    }
  }

  /** For any positive count, the number shown lies between 1 and 1024
      inclusive (10 to 10240 tenths). */
  lemma DisplayRange(n: nat)
    requires n >= 1
    ensures var d := Pow(1024, UnitIndex(n));
      10 <= RoundTenths(n, d) <= 10240
  {
    var k := UnitIndex(n);
    var d := Pow(1024, k);
    assert Pow(1024, k + 1) == 1024 * d;
    RoundTenthsNearest(n, d, 0);
    TenthsBounds(n, d, RoundTenths(n, d));
  }

  lemma TenthsBounds(n: nat, d: nat, t: nat)
    requires 1 <= d <= n < 1024 * d
    requires 2 * (t * d) <= 20 * n + d < 2 * (t * d) + 2 * d
    ensures 10 <= t <= 10240
  {
    var td := t * d;
    assert 19 * d < 2 * td;
    assert 2 * td < 20481 * d;
    MulTwice(t, d);
    MulLtCancel(19, 2 * t, d);
    MulLtCancel(2 * t, 20481, d);
  }

  lemma MulTwice(t: int, d: int)
    ensures (2 * t) * d == 2 * (t * d)
  {
  }

  lemma MulLtCancel(a: int, b: int, d: nat)
    requires d > 0
    ensures a * d < b * d ==> a < b
  {
    if a >= b {
      MulLe(b, a, d);
    }
  }

  // ---------------------------------------------------------------------
  // The whole output

  /** For 1 <= n < 1024^6 the output is the rounded number as `Display`
      writes it, one space, and the unit chosen by `UnitIndex`. */
  lemma FormatCount(n: nat)
    requires 1 <= n < MaxCount
    ensures var k := UnitIndex(n);
      && k < |Units|
      && Format(Count(n)) == Display(RoundTenths(n, Pow(1024, k))) + " " + Units[k]
  {
    var k := UnitIndex(n);
    UnitIndexInRange(n);
    var t := RoundTenths(n, Pow(1024, k));
    ToFixed1Parts(n, Pow(1024, k));
    assert t == 10 * (t / 10) + t % 10;
    StripFixed(t / 10, t % 10);
  }

  /** Splitting the output at spaces gives back the number, which reads
      as the rounded tenths, and the unit label. */
  lemma FormatReadBack(n: nat)
    requires 1 <= n < MaxCount
    ensures var k := UnitIndex(n);
      var t := RoundTenths(n, Pow(1024, k));
      var parts := Split(Format(Count(n)), ' ');
      && |parts| == 2
      && ReadTenths(parts[0]) == Some(t)
      && k < |Units|
      && parts[1] == Units[k]
  {
    var k := UnitIndex(n);
    var t := RoundTenths(n, Pow(1024, k));
    FormatCount(n);
    DisplayShape(t);
    var v := Display(t);
    LabelsHaveNoSpace(k);
    SplitOnce(v, Units[k], ' ');
    assert v + " " + Units[k] == v + [' '] + Units[k];
  }

  lemma LabelsHaveNoSpace(k: nat)
    requires k < |Units|
    ensures ' ' !in Units[k]
  {
    if k == 0 { assert Units[0] == "Bytes"; }
    else if k == 1 { assert Units[1] == "kB"; }
    else if k == 2 { assert Units[2] == "MB"; }
    else if k == 3 { assert Units[3] == "GB"; }
    else if k == 4 { assert Units[4] == "TB"; }
    else { assert Units[5] == "PB"; }
  }

  /** Fewer than 1024 bytes are written as the plain count and "Bytes". */
  lemma FormatSmall(n: nat)
    requires 1 <= n < 1024
    ensures Format(Count(n)) == NatToString(n) + " Bytes"
  {
    SmallRounds(n);
    FormatCount(n);
    DisplayWhole(n);
  }

  lemma SmallRounds(n: nat)
    requires 1 <= n < 1024
    ensures UnitIndex(n) == 0 && Pow(1024, 0) == 1 && RoundTenths(n, 1) == 10 * n
  {
  }

  /** A whole number of tenths is written without a point. */
  lemma DisplayWhole(m: nat)
    ensures Display(10 * m) == NatToString(m)
  {
    var t := 10 * m;
    assert t / 10 == m && t % 10 == 0;
  }

  /** Rounding can show 1024 of a unit without moving to the next one:
      1048575 bytes (one byte short of 1 MB) are written "1024 kB". */
  lemma FormatJustBelowMegabyte(n: nat)
    requires n == 1048575
    ensures Format(Count(n)) == "1024 kB"
  {
    JustBelowMegabyteRounds(n);
    FormatCount(n);
    DisplayOf10240();
  }

  lemma JustBelowMegabyteRounds(n: nat)
    requires n == 1048575
    ensures UnitIndex(n) == 1 && Pow(1024, 1) == 1024 && RoundTenths(n, 1024) == 10240
  {
    assert Pow(1024, 1) == 1024 && Pow(1024, 2) == 1048576;
    UnitIndexUnique(n, 1);
  }

  lemma DisplayOf10240()
    ensures Display(10240) == "1024"
  {
    assert NatToString(1) == "1";
    assert NatToString(10) == "10";
    assert NatToString(102) == "102";
    assert NatToString(1024) == "1024";
  }

  /** `formatBytes(megaBytes(m))` writes `m` followed by "MB" for every
      whole number of mebibytes 1 <= m < 1024. */
  lemma FormatMegaBytes(m: nat)
    requires 1 <= m < 1024
    ensures Format(Count(MegaBytes(m))) == NatToString(m) + " MB"
  {
    MegaRounds(m);
    FormatCount(MegaBytes(m));
    DisplayWhole(m);
  }

  lemma MegaRounds(m: nat)
    requires 1 <= m < 1024
    ensures var n := MegaBytes(m);
      && n < MaxCount
      && UnitIndex(n) == 2
      && Pow(1024, 2) == 1048576
      && RoundTenths(n, 1048576) == 10 * m
  {
    var n := MegaBytes(m);
    assert Pow(1024, 2) == 1048576 && Pow(1024, 3) == 1024 * 1048576;
    assert n == m * 1048576;
    UnitIndexUnique(n, 2);
    assert 20 * n + 1048576 == (20 * m + 1) * 1048576;
  }
}
