/** Temperature compensation of the BMP280 (drivers/sensor_spi.c; section 3.11.3 of the Bosch BMP280 datasheet). */
module Bmp280 {
  import opened Text

  type U16 = n: int | 0 <= n < 0x1_0000
  type S16 = n: int | -0x8000 <= n < 0x8000
  type Raw = n: int | 0 <= n < 0x10_0000  // 20 bits

  /** Calibration words dig_T1, dig_T2 and dig_T3. */
  datatype Calib = Calib(t1: U16, t2: S16, t3: S16)

  predicate InS32(x: int) { -0x8000_0000 <= x < 0x8000_0000 }

  /** What a 32-bit two's-complement register keeps of x. */
  function Wrap(x: int): (r: int)
    ensures InS32(r) && (InS32(x) ==> r == x)
  {
    (x + 0x8000_0000) % 0x1_0000_0000 - 0x8000_0000
  }

  // ----- registers to numbers

  /** `((d0 << 16) | (d1 << 8) | d2) >> 4`; the three operands share no bit. */
  function RawOf(d0: Byte, d1: Byte, d2: Byte): Raw { (d0 * 0x1_0000 + d1 * 0x100 + d2) / 16 }

  function DecodeU16(lo: Byte, hi: Byte): U16 { lo + hi * 0x100 }

  function DecodeS16(lo: Byte, hi: Byte): S16 {
    var u := DecodeU16(lo, hi);
    if u < 0x8000 then u else u - 0x1_0000
  }

  /** Little-endian two's complement, the register's own layout. */
  function Encode16(x: int): (Byte, Byte)
    requires -0x8000 <= x < 0x1_0000
  {
    var u := x % 0x1_0000;
    (u % 0x100, u / 0x100)
  }

  /** The reading keeps all of the two high registers and the top four bits of the third. */
  lemma RawBits(d0: Byte, d1: Byte, d2: Byte)
    ensures RawOf(d0, d1, d2) == d0 * 0x1000 + d1 * 0x10 + d2 / 0x10
  {
  }

  lemma DecodeOfEncode(u: U16, s: S16)
    ensures DecodeU16(Encode16(u).0, Encode16(u).1) == u
    ensures DecodeS16(Encode16(s).0, Encode16(s).1) == s
  {
  }

  // ----- the formula, over unbounded integers and as the driver computes it; `/` by a positive constant rounds
  // down, as an arithmetic right shift does

  function A(raw: Raw, c: Calib): int { raw / 8 - 2 * c.t1 }
  function B(raw: Raw, c: Calib): int { raw / 16 - c.t1 }
  function Var1(raw: Raw, c: Calib): int { A(raw, c) * c.t2 / 2048 }
  function Var2(raw: Raw, c: Calib): int { B(raw, c) * B(raw, c) / 4096 * c.t3 / 16384 }
  function Exact(raw: Raw, c: Calib): int { ((Var1(raw, c) + Var2(raw, c)) * 5 + 128) / 256 }

  /** `((var1 + var2) * 5 + 128) >> 8` in a 32-bit int. */
  function Scale(sum: int): int { Wrap(Wrap(Wrap(sum) * 5) + 128) / 256 }

  /** `read_temperature`'s arithmetic, every operation in a 32-bit int. */
  function Compensate(raw: Raw, c: Calib): int {
    var a := Wrap(raw / 8 - Wrap(c.t1 * 2));
    var var1 := Wrap(a * c.t2) / 2048;
    var b := Wrap(raw / 16 - c.t1);
    var var2 := Wrap(Wrap(b * b) / 4096 * c.t3) / 16384;
    Scale(var1 + var2)
  }

  /** Every intermediate value fits. */
  predicate NoOverflow(raw: Raw, c: Calib) {
    && InS32(c.t1 * 2) && InS32(A(raw, c)) && InS32(A(raw, c) * c.t2)
    && InS32(B(raw, c)) && InS32(B(raw, c) * B(raw, c)) && InS32(B(raw, c) * B(raw, c) / 4096 * c.t3)
    && InS32(Var1(raw, c) + Var2(raw, c)) && InS32((Var1(raw, c) + Var2(raw, c)) * 5)
    && InS32((Var1(raw, c) + Var2(raw, c)) * 5 + 128)
  }

  /** Only the three products can overflow; and without overflow the driver computes the exact formula. */
  lemma NoOverflowExactlyWhen(raw: Raw, c: Calib)
    ensures NoOverflow(raw, c) <==>
            && InS32(A(raw, c) * c.t2) && InS32(B(raw, c) * B(raw, c))
            && InS32(B(raw, c) * B(raw, c) / 4096 * c.t3)
    ensures NoOverflow(raw, c) ==> Compensate(raw, c) == Exact(raw, c)
  {
  }

  /** A bounded second-order word, and a reading not too far from the calibration point. */
  predicate InRange(raw: Raw, c: Calib) {
    -8191 <= c.t3 <= 8191 && -65535 <= A(raw, c) <= 65535
  }

  lemma ProductBound(x: int, y: int, m: int, n: int)
    requires -m <= x <= m && -n <= y <= n
    ensures -(m * n) <= x * y <= m * n
  {
  }

  lemma HalfOffset(raw: Raw, c: Calib)
    requires InRange(raw, c)
    ensures -32768 <= B(raw, c) <= 32767 && A(raw, c) == 2 * B(raw, c) + raw / 8 % 2
  {
  }

  /** In range nothing overflows, the driver computes the exact formula, and the result is bounded. */
  lemma InRangeIsExact(raw: Raw, c: Calib)
    requires InRange(raw, c)
    ensures NoOverflow(raw, c)
    ensures Compensate(raw, c) == Exact(raw, c)
    ensures -23039 <= Exact(raw, c) <= 23039
  {
    var a, b := A(raw, c), B(raw, c);
    HalfOffset(raw, c);
    ProductBound(a, c.t2, 65535, 32768);
    ProductBound(b, b, 32768, 32768);
    ProductBound(b * b / 4096, c.t3, 262144, 8191);
    assert b * b >= 0;
  }

  // ----- monotonicity

  function Abs(x: int): nat { if x < 0 then -x else x }

  /** Per step the first-order term gains at least k; the second-order one, its square moving by d, loses at most k. */
  predicate Slow(c: Calib, d: nat, k: nat) {
    c.t2 >= 2048 * k && d * Abs(c.t3) <= 16384 * k
  }

  /** So near the calibration point that one step of B moves its square by at most d after the division. */
  predicate Near(raw: Raw, c: Calib, d: nat) {
    -4096 * d - 1 <= 2 * B(raw, c) <= 4096 * d + 1
  }

  lemma Var1Step(a: int, t2: int, k: nat)
    requires t2 >= 2048 * k
    ensures (a + 1) * t2 / 2048 >= a * t2 / 2048 + k
  {
    assert (a + 1) * t2 == a * t2 + t2;
  }

  lemma SquareStep(b: int, d: nat)
    requires -4096 * d <= 2 * b + 1 <= 4096 * d
    ensures Abs((b + 1) * (b + 1) / 4096 - b * b / 4096) <= d
  {
    assert (b + 1) * (b + 1) == b * b + 2 * b + 1;
  }

  lemma FloorLoses(x: int, y: int, k: nat)
    requires y >= -16384 * k
    ensures (x + y) / 16384 >= x / 16384 - k
  {
  }

  lemma Distribute(p: int, q: int, t: int)
    ensures q * t == p * t + (q - p) * t
  {
  }

  lemma Var2Step(b: int, t3: int, d: nat, k: nat)
    requires -4096 * d <= 2 * b + 1 <= 4096 * d && d * Abs(t3) <= 16384 * k
    ensures (b + 1) * (b + 1) / 4096 * t3 / 16384 >= b * b / 4096 * t3 / 16384 - k
  {
    var p, q := b * b / 4096, (b + 1) * (b + 1) / 4096;
    SquareStep(b, d);
    ProductBound(q - p, t3, d, Abs(t3));
    FloorLoses(p * t3, (q - p) * t3, k);
    Distribute(p, q, t3);
  }

  lemma SumStep(raw: Raw, c: Calib, d: nat, k: nat)
    requires Slow(c, d, k) && raw + 1 < 0x10_0000 && Near(raw, c, d) && Near(raw + 1, c, d)
    ensures Var1(raw, c) + Var2(raw, c) <= Var1(raw + 1, c) + Var2(raw + 1, c)
  {
    if (raw + 1) % 8 != 0 {
      assert A(raw + 1, c) == A(raw, c) && B(raw + 1, c) == B(raw, c);
    } else {
      assert A(raw + 1, c) == A(raw, c) + 1;
      Var1Step(A(raw, c), c.t2, k);
      if (raw + 1) % 16 != 0 {
        assert B(raw + 1, c) == B(raw, c);
      } else {
        assert B(raw + 1, c) == B(raw, c) + 1;
        Var2Step(B(raw, c), c.t3, d, k);
      }
    }
  }

  lemma {:induction false} SumMonotone(raw: Raw, raw': Raw, c: Calib, d: nat, k: nat)
    requires Slow(c, d, k) && raw <= raw' && Near(raw, c, d) && Near(raw', c, d)
    ensures Var1(raw, c) + Var2(raw, c) <= Var1(raw', c) + Var2(raw', c)
    decreases raw' - raw
  {
    if raw < raw' {
      assert B(raw, c) <= B(raw' - 1, c) <= B(raw', c);
      SumMonotone(raw, raw' - 1, c, d, k);
      SumStep(raw' - 1, c, d, k);
    }
  }

  /** The temperature the driver reports never falls as the reading grows, despite three roundings. */
  lemma TemperatureMonotone(raw: Raw, raw': Raw, c: Calib)
    requires c.t2 >= 16384 && raw <= raw' && InRange(raw, c) && InRange(raw', c)
    ensures Compensate(raw, c) <= Compensate(raw', c)
  {
    InRangeIsExact(raw, c);
    InRangeIsExact(raw', c);
    HalfOffset(raw, c);
    HalfOffset(raw', c);
    SumMonotone(raw, raw', c, 16, 8);
  }

  /** 46340 is the largest number whose square fits. */
  lemma SquareFits(b: int)
    requires InS32(b * b)
    ensures -46340 <= b <= 46340
  {
    SquareGrows(46341, b);
    SquareGrows(46341, -b);
  }

  lemma SquareGrows(m: nat, x: int)
    ensures m <= x ==> m * m <= x * x
  {
    if m <= x { assert x * x - m * m == (x - m) * (x + m); }
  }

  /**
   * Nor does it anywhere short of overflow, for a smaller T3: at most 5698 for T2 from 16384 on. OutOfRangeCanFall
   * has T3 = 1000 and falls where the square first overflows.
   */
  lemma MonotoneUpToOverflow(raw: Raw, raw': Raw, c: Calib)
    requires 23 * Abs(c.t3) <= 16384 * (c.t2 / 2048)
    requires raw <= raw' && NoOverflow(raw, c) && NoOverflow(raw', c)
    ensures Compensate(raw, c) <= Compensate(raw', c)
  {
    NoOverflowExactlyWhen(raw, c);
    NoOverflowExactlyWhen(raw', c);
    SquareFits(B(raw, c));
    SquareFits(B(raw', c));
    SumMonotone(raw, raw', c, 23, c.t2 / 2048);
  }

  /** Two readings of which only the second overflows. */
  lemma OverflowsBetween(c: Calib, raw: Raw, raw': Raw)
    requires c == Calib(0, 16384, 1000) && raw == 741440 && raw' == 741456
    ensures NoOverflow(raw, c) && !NoOverflow(raw', c)
  {
    assert B(raw, c) == 46340 && B(raw', c) == 46341;
    NoOverflowExactlyWhen(raw, c);
    NoOverflowExactlyWhen(raw', c);
  }

  /** Across the overflow it can fall: for those two readings a colder temperature is reported. */
  lemma OutOfRangeCanFall(c: Calib, raw: Raw, raw': Raw)
    requires c == Calib(0, 16384, 1000) && raw == 741440 && raw' == 741456
    ensures Compensate(raw, c) == 15106 && Compensate(raw', c) == 13857
  {
    assert raw / 8 == 92680 && raw / 16 == 46340 && raw' / 8 == 92682 && raw' / 16 == 46341;
    assert Wrap(46340 * 46340) == 2147395600 && 2147395600 / 4096 == 524266 && 524266000 / 16384 == 31998;
    assert Wrap(46341 * 46341) == -2147479015 && -2147479015 / 4096 == -524287 && -524287000 / 16384 == -32000;
    assert Wrap(92680 * 16384) == 1518469120 && 1518469120 / 2048 == 741440;
    assert Wrap(92682 * 16384) == 1518501888 && 1518501888 / 2048 == 741456;
    assert Scale(741440 + 31998) == 15106 && Scale(741456 - 32000) == 13857;
  }

  // ----- the second-order word

  /** Against T3 = 0 a positive T3 never lowers the temperature and a negative one never raises it. */
  lemma SecondOrderSign(raw: Raw, c: Calib)
    requires NoOverflow(raw, c)
    ensures c.t3 >= 0 ==> Compensate(raw, c) >= Compensate(raw, c.(t3 := 0))
    ensures c.t3 <= 0 ==> Compensate(raw, c) <= Compensate(raw, c.(t3 := 0))
  {
    var linear := c.(t3 := 0);
    NoOverflowExactlyWhen(raw, c);
    NoOverflowExactlyWhen(raw, linear);
    assert Var1(raw, linear) == Var1(raw, c) && Var2(raw, linear) == 0;
    Var2Sign(B(raw, c), c.t3);
  }

  lemma Var2Sign(b: int, t3: int)
    ensures t3 >= 0 ==> b * b / 4096 * t3 / 16384 >= 0
    ensures t3 <= 0 ==> b * b / 4096 * t3 / 16384 <= 0
  {
    var p := b * b / 4096;
    assert b * b >= 0;
    assert t3 >= 0 ==> p * t3 >= 0;
    assert t3 <= 0 ==> p * t3 <= 0;
  }

  /** The worked example of section 3.12 of the datasheet, from the register bytes to 25.08 degrees. */
  lemma DatasheetExample(c: Calib, raw: Raw)
    requires c == Calib(DecodeU16(0x70, 0x6B), DecodeS16(0x43, 0x67), DecodeS16(0x18, 0xFC))
    requires raw == RawOf(0x7E, 0xED, 0x00)
    ensures c == Calib(27504, 26435, -1000) && raw == 519888
    ensures Var1(raw, c) == 128793 && Var2(raw, c) == -371 && Compensate(raw, c) == 2508
  {
    assert A(raw, c) == 9978 && B(raw, c) == 4989;
    NoOverflowExactlyWhen(raw, c);
  }

  // ----- printing

  /** C's `/` and `%` round toward zero. */
  function CDiv(x: int): int { if x >= 0 then x / 100 else -(-x / 100) }
  function CMod(x: int): int { if x >= 0 then x % 100 else -(-x % 100) }

  /** `%02d`. */
  function Signed2(x: int): string {
    if 0 <= x < 10 then "0" + Signed(x) else Signed(x)
  }

  /** `"%d.%02d\n"`. */
  function TwoHalves(i: int, j: int): string { Signed(i) + "." + Signed2(j) + "\n" }

  /** What `k_driver_read` prints of a temperature. */
  function Printed(t: int): string { TwoHalves(CDiv(t), CMod(t)) }

  function WithSign(sign: string, q: nat, r: nat): string
    requires r < 100
  {
    sign + Decimal(q) + "." + (Decimal(r / 10) + Decimal(r % 10)) + "\n"
  }

  /** t hundredths in decimal notation: one sign, two decimals. */
  function Hundredths(t: int): string {
    if t < 0 then WithSign("-", -t / 100, -t % 100) else WithSign("", t / 100, t % 100)
  }

  lemma TwoDigits(r: nat)
    requires r < 100
    ensures Signed2(r) == Decimal(r / 10) + Decimal(r % 10)
  {
  }

  lemma HalvesRight(q: int, r: int)
    requires 0 <= q && 0 <= r < 100
    ensures TwoHalves(q, r) == WithSign("", q, r)
    ensures q > 0 ==> TwoHalves(-q, 0) == WithSign("-", q, 0)
  {
    TwoDigits(r);
    TwoDigits(0);
    assert "" + Decimal(q) == Decimal(q);
  }

  lemma HalvesWrong(q: int, r: int)
    requires 0 <= q && 0 < r < 100
    ensures TwoHalves(-q, -r) != WithSign("-", q, r)
  {
    var wrong, right := TwoHalves(-q, -r), WithSign("-", q, r);
    if q == 0 {
      assert wrong[0] == '0' && right[0] == '-';
    } else {
      var k := |"-" + Decimal(q) + "."|;
      assert wrong[k] == Signed2(-r)[0] == '-';
      assert right[k] == Decimal(r / 10)[0];
    }
  }

  lemma NegativeRemainder(t: int)
    requires t < 0
    ensures t % 100 == 0 <==> -t % 100 == 0
    ensures t % 100 == 0 ==> -t / 100 > 0
  {
  }

  /** The text is right exactly for readings not negative or of whole degrees: else both halves carry a sign. */
  lemma PrintedExactlyWhen(t: int)
    ensures Printed(t) == Hundredths(t) <==> t >= 0 || t % 100 == 0
  {
    if t >= 0 {
      HalvesRight(t / 100, t % 100);
    } else {
      var q, r := -t / 100, -t % 100;
      NegativeRemainder(t);
      assert Printed(t) == TwoHalves(-q, -r) && Hundredths(t) == WithSign("-", q, r);
      if r == 0 { HalvesRight(q, 0); } else { HalvesWrong(q, r); }
    }
  }

  /** A reading and a calibration whose temperature, -0.31 degrees, is printed wrong. */
  lemma FrostPrintedWrong(raw: Raw, c: Calib, t: int)
    requires raw == RawOf(0, 0, 0) && c == Calib(100, 16384, 0) && t == Compensate(raw, c)
    ensures t == -31 && Printed(t) != Hundredths(t) && Printed(t) == "0.-31\n"
  {
    FrostTemperature(raw, c);
    PrintedExactlyWhen(t);
    FrostText(t);
  }

  lemma FrostText(t: int)
    requires t == -31
    ensures Printed(t) == "0.-31\n"
  {
    assert Decimal(3) == "3" && Decimal(31) == Decimal(3) + "1";
    assert CDiv(t) == 0 && CMod(t) == -31;
    assert Signed(0) == "0" && Signed2(-31) == "-" + Decimal(31);
  }

  lemma FrostTemperature(raw: Raw, c: Calib)
    requires raw == 0 && c == Calib(100, 16384, 0)
    ensures Compensate(raw, c) == -31
  {
    assert A(raw, c) == -200 && B(raw, c) == -100;
    assert Var1(raw, c) == -1600 && Var2(raw, c) == 0;
    NoOverflowExactlyWhen(raw, c);
  }
}
