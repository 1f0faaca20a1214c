/**
 * The A-law codec of the bench (nb-dsp.ts) and a second encoder (nb-cartesia.ts),
 * after ITU-T G.711, section 3.2.
 *
 * Shifts and masks of non-negative numbers are written as division and remainder,
 * and disjoint bit fields are added. Exclusive or with 0x55 inverts the even bits:
 * it is written digit by digit in base 4.
 */
module Alaw {

  type Byte = b: int | 0 <= b < 256

  /** A 16-bit sample. */
  type Sample = x: int | -32768 <= x <= 32767

  // ----- exclusive or with 0x55: one in every base-4 digit

  function Swap(d: nat): nat
    requires d < 4
  { if d % 2 == 0 then d + 1 else d - 1 }

  function Xor55(b: Byte): Byte {
    Swap(b % 4) + 4 * Swap(b / 4 % 4) + 16 * Swap(b / 16 % 4) + 64 * Swap(b / 64)
  }

  lemma {:induction false} DigitsOf(a: nat, b: nat, c: nat, d: nat)
    requires a < 4 && b < 4 && c < 4 && d < 4
    ensures var n := a + 4 * b + 16 * c + 64 * d;
            0 <= n < 256 && n % 4 == a && n / 4 % 4 == b && n / 16 % 4 == c && n / 64 == d
  {
    var n := a + 4 * b + 16 * c + 64 * d;
    Divide(n);
    QuarterOf(b + 4 * c + 16 * d, a);
    QuarterOf(c + 4 * d, b);
    QuarterOf(d, c);
  }

  lemma {:induction false} QuarterOf(q: nat, r: nat)
    requires r < 4
    ensures (r + 4 * q) / 4 == q && (r + 4 * q) % 4 == r
  {}

  /** Dividing in steps. */
  lemma {:induction false} Divide(n: nat)
    ensures n / 4 / 4 == n / 16 && n / 16 / 4 == n / 64
    ensures n / 4 / 2 == n / 8 && n / 16 / 2 == n / 32 && n / 64 / 2 == n / 128
  {}

  lemma {:induction false} SwapTwice(d: nat)
    requires d < 4
    ensures Swap(d) < 4 && Swap(Swap(d)) == d
  {}

  lemma {:induction false} DigitSum(b: Byte)
    ensures b == b % 4 + 4 * (b / 4 % 4) + 16 * (b / 16 % 4) + 64 * (b / 64)
  {
    Divide(b);
    var q := b / 4;
    var r := q / 4;
    assert b == b % 4 + 4 * q && q == q % 4 + 4 * r && r == r % 4 + 4 * (r / 4);
  }

  lemma {:induction false} XorTwice(b: Byte)
    ensures Xor55(Xor55(b)) == b
  {
    hide Swap, Xor55;
    var s0, s1, s2, s3 := b % 4, b / 4 % 4, b / 16 % 4, b / 64;
    DigitSum(b);
    SwapTwice(s0);
    SwapTwice(s1);
    SwapTwice(s2);
    SwapTwice(s3);
    XorOfDigits(s0, s1, s2, s3);
    XorOfDigits(Swap(s0), Swap(s1), Swap(s2), Swap(s3));
  }

  lemma {:induction false} XorOfDigits(a: nat, b: nat, c: nat, d: nat)
    requires a < 4 && b < 4 && c < 4 && d < 4
    ensures 0 <= a + 4 * b + 16 * c + 64 * d < 256
    ensures Xor55(a + 4 * b + 16 * c + 64 * d) == Swap(a) + 4 * Swap(b) + 16 * Swap(c) + 64 * Swap(d)
  {
    hide Swap;
    DigitsOf(a, b, c, d);
  }

  lemma {:induction false} BitsOfDigits(a: nat, b: nat, c: nat, d: nat)
    requires a < 4 && b < 4 && c < 4 && d < 4
    ensures var n := a + 4 * b + 16 * c + 64 * d;
            && n % 2 == a % 2 && n / 2 % 2 == a / 2 && n / 4 % 2 == b % 2 && n / 8 % 2 == b / 2
            && n / 16 % 2 == c % 2 && n / 32 % 2 == c / 2 && n / 64 % 2 == d % 2 && n / 128 % 2 == d / 2
  {
    var n := a + 4 * b + 16 * c + 64 * d;
    DigitsOf(a, b, c, d);
    LowBits(n);
    LowBits(n / 4);
    LowBits(n / 16);
    LowBits(n / 64);
    Divide(n);
  }

  lemma {:induction false} LowBits(m: nat)
    ensures m % 2 == m % 4 % 2 && m / 2 % 2 == m % 4 / 2
  {}

  lemma {:induction false} SwapBits(d: nat)
    requires d < 4
    ensures Swap(d) % 2 != d % 2 && Swap(d) / 2 == d / 2
  {}

  /** Bits 0, 2, 4 and 6 are flipped, the others kept: exclusive or with 0x55. */
  lemma {:induction false} XorFlipsEvenBits(b: Byte)
    ensures var x: int := Xor55(b);
            && x % 2 != b % 2 && x / 2 % 2 == b / 2 % 2 && x / 4 % 2 != b / 4 % 2 && x / 8 % 2 == b / 8 % 2
            && x / 16 % 2 != b / 16 % 2 && x / 32 % 2 == b / 32 % 2 && x / 64 % 2 != b / 64 % 2
              && x / 128 % 2 == b / 128 % 2
  {
    hide Swap, Xor55;
    var a0, a1, a2, a3 := b % 4, b / 4 % 4, b / 16 % 4, b / 64;
    DigitSum(b);
    BitsOfDigits(a0, a1, a2, a3);
    XorOfDigits(a0, a1, a2, a3);
    SwapTwice(a0);
    SwapTwice(a1);
    SwapTwice(a2);
    SwapTwice(a3);
    SwapBits(a0);
    SwapBits(a1);
    SwapBits(a2);
    SwapBits(a3);
    BitsOfDigits(Swap(a0), Swap(a1), Swap(a2), Swap(a3));
  }

  // ----- one sample

  function Clamp(m: nat): nat { if m > 32635 then 32635 else m }

  /** The segment of a magnitude: which of the seven top bits is the highest set, or 0. */
  function Exponent(m: nat): (e: nat)
    requires m < 32768
    ensures e <= 7
  {
    if m >= 16384 then 7 else if m >= 8192 then 6 else if m >= 4096 then 5 else if m >= 2048 then 4
    else if m >= 1024 then 3 else if m >= 512 then 2 else if m >= 256 then 1 else 0
  }

  /** Width of the quantisation cells of a segment. */
  function CellWidth(e: nat): nat
    requires e <= 7
  {
    match e
    case 0 => 16 case 1 => 16 case 2 => 32 case 3 => 64 case 4 => 128 case 5 => 256 case 6 => 512 case 7 => 1024
  }

  function Mantissa(m: nat): (r: nat)
    requires m < 32768
    ensures r < 16
  { m / CellWidth(Exponent(m)) % 16 }

  /** Sign bit, three bits of segment, four of mantissa, even bits inverted. */
  function Pack(positive: bool, e: nat, mantissa: nat): Byte
    requires e <= 7 && mantissa < 16
  { Xor55((if positive then 128 else 0) + 16 * e + mantissa) }

  function EncodeMagnitude(positive: bool, m: nat): Byte {
    Pack(positive, Exponent(Clamp(m)), Mantissa(Clamp(m)))
  }

  /** `alawEncode` on one sample. */
  function Encode(x: Sample): Byte {
    var n: int := x;
    EncodeMagnitude(n >= 0, if n < 0 then -n else n)
  }

  /** `pcm16ToAlaw` on one sample: negative magnitudes are one less. */
  function EncodeSecond(x: Sample): Byte {
    var n: int := x;
    EncodeMagnitude(n >= 0, if n < 0 then -n - 1 else n)
  }

  function Level(e: nat, mantissa: nat): nat
    requires e <= 7 && mantissa < 16
  {
    if e == 0 then 16 * mantissa + 8
    else if e == 1 then 16 * mantissa + 0x108
    else (16 * mantissa + 0x108) * (CellWidth(e) / 16)
  }

  function Signed(positive: bool, level: int): int { if positive then level else -level }

  function Decode(b: Byte): Sample {
    var a := Xor55(b);
    var level: int := Level(a / 16 % 8, a % 16);
    LevelBound(a / 16 % 8, a % 16);
    Signed(a >= 128, level)
  }

  // ----- cells

  /** Where the cell of a segment and mantissa begins. */
  function CellStart(e: nat, mantissa: nat): nat
    requires e <= 7
  { if e == 0 then 16 * mantissa else CellWidth(e) * (16 + mantissa) }

  predicate InCell(m: nat, e: nat, mantissa: nat)
    requires e <= 7
  { CellStart(e, mantissa) <= m < CellStart(e, mantissa) + CellWidth(e) }

  /** The decoder's levels are the middles of the cells. */
  lemma {:induction false} LevelIsMiddle(e: nat, mantissa: nat)
    requires e <= 7 && mantissa < 16
    ensures Level(e, mantissa) == CellStart(e, mantissa) + CellWidth(e) / 2
  {
    if e > 1 {
      hide CellWidth;
      Widths(e);
      MiddleOf(CellWidth(e), mantissa);
    }
  }

  lemma {:induction false} MiddleOf(w: nat, mantissa: nat)
    requires w in {16, 32, 64, 128, 256, 512, 1024}
    ensures (16 * mantissa + 0x108) * (w / 16) == w * (16 + mantissa) + w / 2
  {
    if w == 16 {} else if w == 32 {} else if w == 64 {} else if w == 128 {}
    else if w == 256 {} else if w == 512 {} else {}
  }

  lemma {:induction false} LevelBound(e: nat, mantissa: nat)
    requires e <= 7 && mantissa < 16
    ensures 8 <= Level(e, mantissa) <= 32256
  {
    LevelIsMiddle(e, mantissa);
    CellBounds(e, mantissa);
  }

  lemma {:induction false} CellBounds(e: nat, mantissa: nat)
    requires e <= 7 && mantissa < 16
    ensures CellStart(e, mantissa) + CellWidth(e) <= 32768 && CellWidth(e) >= 16 && CellWidth(e) <= 1024
    ensures e > 0 ==> CellStart(e, mantissa) >= 16 * CellWidth(e)
    ensures CellStart(e, mantissa) + CellWidth(e) <= if e == 0 then 256 else 32 * CellWidth(e)
  {
    match e
    case 0 => case 1 => case 2 => case 3 => case 4 => case 5 => case 6 => case 7 =>
  }

  /** Segment `e` is the magnitudes from 16 to 32 of its cell widths; segment 0 those below 256. */
  lemma {:induction false} ExponentIff(m: nat, e: nat)
    requires m < 32768 && e <= 7
    ensures Exponent(m) == e <==> if e == 0 then m < 256 else 16 * CellWidth(e) <= m < 32 * CellWidth(e)
  {
    match e
    case 0 => case 1 => case 2 => case 3 => case 4 => case 5 => case 6 => case 7 =>
  }

  lemma {:induction false} Quotient(m: nat, w: nat, q: nat)
    requires w in {16, 32, 64, 128, 256, 512, 1024}
    ensures m / w == q <==> w * q <= m < w * q + w
  {
    if w == 16 {} else if w == 32 {} else if w == 64 {} else if w == 128 {}
    else if w == 256 {} else if w == 512 {} else {}
  }

  /** The encoder's segment and mantissa name the one cell that holds the magnitude. */
  lemma {:induction false} CellIff(m: nat, e: nat, mantissa: nat)
    requires m < 32768 && e <= 7 && mantissa < 16
    ensures InCell(m, e, mantissa) <==> Exponent(m) == e && Mantissa(m) == mantissa
  {
    hide Exponent;
    ExponentIff(m, e);
    CellBounds(e, mantissa);
    var w := CellWidth(e);
    Widths(e);
    Quotient(m, w, if e == 0 then mantissa else 16 + mantissa);
    if Exponent(m) == e {
      var q := m / w;
      Quotient(m, w, q);
      QuotientRange(m, w, e, q);
    }
  }

  lemma {:induction false} Widths(e: nat)
    requires e <= 7
    ensures CellWidth(e) in {16, 32, 64, 128, 256, 512, 1024} && (e == 0 ==> CellWidth(e) == 16)
  {}

  lemma {:induction false} QuotientRange(m: nat, w: nat, e: nat, q: nat)
    requires w in {16, 32, 64, 128, 256, 512, 1024} && w * q <= m < w * q + w
    requires if e == 0 then m < 256 && w == 16 else 16 * w <= m < 32 * w
    ensures if e == 0 then q < 16 else 16 <= q < 32
  {
    if w == 16 {} else if w == 32 {} else if w == 64 {} else if w == 128 {}
    else if w == 256 {} else if w == 512 {} else {}
  }

  function RoundTrip(x: Sample): Sample { Decode(Encode(x)) }

  // ----- the code, segment by segment

  /** The cells of the first two segments are 16 wide, those of each other segment twice as wide as before. */
  lemma {:induction false} WidthDoubles(e: nat)
    requires e <= 7
    ensures CellWidth(e) == if e <= 1 then 16 else 2 * CellWidth(e - 1)
  {}

  /** The byte of segment `e` and mantissa `r`. */
  function Code(positive: bool, e: nat, r: nat): Byte
    requires e <= 7 && r < 16
  { Xor55((if positive then 128 else 0) + 16 * e + r) }

  lemma {:induction false} CodeInjective(p: bool, e: nat, r: nat, q: bool, f: nat, s: nat)
    requires e <= 7 && r < 16 && f <= 7 && s < 16
    ensures Code(p, e, r) == Code(q, f, s) <==> p == q && e == f && r == s
  {
    hide Xor55;
    XorTwice((if p then 128 else 0) + 16 * e + r);
    XorTwice((if q then 128 else 0) + 16 * f + s);
  }

  /** Main result: a sample has the code of the one cell of its sign that its magnitude, up to 32635, lies in. */
  lemma {:induction false} CodeIs(x: Sample, positive: bool, e: nat, r: nat)
    requires e <= 7 && r < 16
    ensures var n: int := x;
            var m := if n > 32635 || n < -32635 then 32635 else if n < 0 then -n else n;
            Encode(x) == Code(positive, e, r) <==> positive == (n >= 0) && InCell(m, e, r)
  {
    hide Xor55, Exponent, Mantissa, CellStart, CellWidth, Code;
    var n: int := x;
    var m := Clamp(if n < 0 then -n else n);
    PackIsCode(n >= 0, Exponent(m), Mantissa(m));
    CodeInjective(n >= 0, Exponent(m), Mantissa(m), positive, e, r);
    CellIff(m, e, r);
  }

  lemma {:induction false} PackIsCode(positive: bool, e: nat, r: nat)
    requires e <= 7 && r < 16
    ensures Pack(positive, e, r) == Code(positive, e, r)
  {}

  lemma {:induction false} Unpack(positive: bool, e: nat, mantissa: nat)
    requires e <= 7 && mantissa < 16
    ensures Decode(Pack(positive, e, mantissa)) == Signed(positive, Level(e, mantissa))
  {
    hide Xor55, Level;
    XorTwice((if positive then 128 else 0) + 16 * e + mantissa);
  }

  /** And a code is decoded to the middle of its cell. */
  lemma {:induction false} CodeDecodes(positive: bool, e: nat, r: nat)
    requires e <= 7 && r < 16
    ensures var level: int := Decode(Code(positive, e, r));
            level == if positive then CellStart(e, r) + CellWidth(e) / 2 else -(CellStart(e, r) + CellWidth(e) / 2)
  {
    hide Xor55, Level, Pack, Code, CellStart, CellWidth;
    PackIsCode(positive, e, r);
    Unpack(positive, e, r);
    LevelIsMiddle(e, r);
  }

  // ----- bytes come back

  /** Decoding then encoding gives every byte back, with either encoder. */
  lemma {:induction false} EncodeDecode(b: Byte)
    ensures Encode(Decode(b)) == b && EncodeSecond(Decode(b)) == b
  {
    hide Xor55, Level, Exponent, Mantissa, CellWidth;
    var a := Xor55(b);
    XorTwice(b);
    var e, m := a / 16 % 8, a % 16;
    LevelBound(e, m);
    LevelIsMiddle(e, m);
    CellBounds(e, m);
    CellIff(Level(e, m), e, m);
    CellIff(Level(e, m) - 1, e, m);
    assert a == (if a >= 128 then 128 else 0) + 16 * e + m;
  }

  /** The byte both benches send for silence is the code of zero. */
  lemma {:induction false} SilenceByte()
    ensures Encode(0) == EncodeSecond(0) == 0xD5 && Decode(0xD5) == 8
  {
    hide Exponent, Mantissa, Xor55, Decode, Level;
    SmallMagnitudes();
    XorOfDigits(0, 0, 0, 2);
    Unpack(true, 0, 0);
    LevelIsMiddle(0, 0);
  }

  // ----- the round trip on samples

  function Abs(x: int): nat { if x < 0 then -x else x }

  /** The level a magnitude is rounded to. */
  function Rounded(m: nat): nat
    requires m <= 32768
  { Level(Exponent(Clamp(m)), Mantissa(Clamp(m))) }

  lemma {:induction false} RoundTripIs(x: Sample)
    ensures RoundTrip(x) == Signed(x >= 0, Rounded(Abs(x)))
  {
    hide Xor55, Level, Exponent, Mantissa, Pack;
    Unpack(x >= 0, Exponent(Clamp(Abs(x))), Mantissa(Clamp(Abs(x))));
  }

  lemma {:induction false} RoundedInCell(m: nat)
    requires m <= 32768
    ensures var c := Clamp(m); var e, r := Exponent(c), Mantissa(c);
            InCell(c, e, r) && Rounded(m) == CellStart(e, r) + CellWidth(e) / 2
  {
    hide Exponent, Mantissa, Level;
    CellIff(Clamp(m), Exponent(Clamp(m)), Mantissa(Clamp(m)));
    LevelIsMiddle(Exponent(Clamp(m)), Mantissa(Clamp(m)));
  }

  lemma {:induction false} EvenWidth(e: nat)
    requires e <= 7
    ensures CellWidth(e) % 2 == 0 && CellWidth(e) >= 16 && (e <= 1 ==> CellWidth(e) == 16)
  {}

  lemma {:induction false} MagnitudeError(m: nat)
    requires m <= 32768
    ensures 32 * Abs(m - Rounded(m)) <= if m < 256 then 256 else m
  {
    hide Exponent, Mantissa, Level, CellWidth, Rounded, CellStart;
    var c := Clamp(m);
    var e, r := Exponent(c), Mantissa(c);
    if m > 32635 {
      TopCell();
      assert Rounded(m) == 32256 by { RoundedAtTop(m); }
    } else {
      RoundedInCell(m);
      EvenWidth(e);
      ExponentIff(m, e);
      HalfCell(m, CellStart(e, r), CellWidth(e), Rounded(m));
    }
  }

  lemma {:induction false} HalfCell(m: nat, start: nat, w: nat, middle: nat)
    requires w % 2 == 0 && start <= m < start + w && middle == start + w / 2
    ensures 2 * Abs(m - middle) <= w
  {}

  lemma {:induction false} RoundedAtTop(m: nat)
    requires 32635 < m <= 32768
    ensures Rounded(m) == 32256
  {
    TopCell();
  }

  /** Off by at most 8, or by at most a thirty-second of `x`. */
  predicate Near(x: int, y: int) { 32 * Abs(x - y) <= if Abs(x) < 256 then 256 else Abs(x) }

  lemma {:induction false} ErrorBound(x: Sample)
    ensures Near(x, RoundTrip(x))
  {
    hide Rounded, RoundTrip;
    RoundTripIs(x);
    MagnitudeError(Abs(x));
  }

  lemma {:induction false} TopCell()
    ensures Exponent(32635) == 7 && Mantissa(32635) == 15 && Level(7, 15) == 32256
  {}

  /** Rounding twice is rounding once. */
  lemma {:induction false} RoundTripIdempotent(x: Sample)
    ensures RoundTrip(RoundTrip(x)) == RoundTrip(x)
  {
    hide Encode, Decode, EncodeSecond;
    EncodeDecode(Encode(x));
  }

  lemma {:induction false} RoundedMonotone(m: nat, n: nat)
    requires m <= n <= 32768
    ensures Rounded(m) <= Rounded(n)
  {
    hide Exponent, Mantissa, Level, CellWidth, Rounded;
    RoundedInCell(m);
    RoundedInCell(n);
    var c, d := Clamp(m), Clamp(n);
    var e, f := Exponent(c), Exponent(d);
    ExponentOrder(c, d);
    CellBounds(e, Mantissa(c));
    CellBounds(f, Mantissa(d));
    EvenWidth(e);
    EvenWidth(f);
    if e == f {
      SameSegment(CellWidth(e), e, c, d, Mantissa(c), Mantissa(d));
    } else {
      SegmentsApart(e, f);
    }
  }

  lemma {:induction false} ExponentOrder(c: nat, d: nat)
    requires c <= d < 32768
    ensures Exponent(c) <= Exponent(d)
  {}

  lemma {:induction false} SegmentsApart(e: nat, f: nat)
    requires e < f <= 7
    ensures (if e == 0 then 256 else 32 * CellWidth(e)) <= 16 * CellWidth(f)
  {}

  lemma {:induction false} SameSegment(w: nat, e: nat, c: nat, d: nat, r: nat, q: nat)
    requires e <= 7 && w == CellWidth(e) && w > 0 && (e == 0 ==> w == 16)
    requires c <= d && InCell(c, e, r) && InCell(d, e, q)
    ensures CellStart(e, r) <= CellStart(e, q)
  {
    hide CellWidth;
    Multiples(w, if e == 0 then r else 16 + r, if e == 0 then q else 16 + q);
  }

  lemma {:induction false} Multiples(w: nat, a: nat, b: nat)
    ensures a <= b ==> w * a <= w * b
    ensures a > b ==> w * a >= w * b + w
  {
    if a <= b {
      TimesDifference(w, a, b);
      ProductIsNat(w, b - a);
    } else {
      TimesDifference(w, b + 1, a);
      TimesNext(w, b);
      ProductIsNat(w, a - b - 1);
    }
  }

  lemma {:induction false} TimesDifference(w: int, a: int, b: int)
    ensures w * (b - a) == w * b - w * a
  {}

  lemma {:induction false} TimesNext(w: int, b: int)
    ensures w * (b + 1) == w * b + w
  {}

  lemma {:induction false} ProductIsNat(w: nat, k: nat)
    ensures w * k >= 0
  {}

  /** The codec keeps the order of samples. */
  lemma {:induction false} OrderPreserved(x: Sample, y: Sample)
    requires x <= y
    ensures RoundTrip(x) <= RoundTrip(y)
  {
    hide Rounded, RoundTrip;
    RoundTripIs(x);
    RoundTripIs(y);
    var m, n := Abs(x), Abs(y);
    if x >= 0 { RoundedMonotone(m, n); }
    if y < 0 { RoundedMonotone(n, m); }
  }

  // ----- the second encoder

  /** From -1 up the encoders agree; below, the second encodes the sample above. */
  lemma {:induction false} SecondIsShifted(x: Sample)
    ensures x >= -1 ==> EncodeSecond(x) == Encode(x)
    ensures x <= -2 ==> EncodeSecond(x) == Encode(x + 1)
  {
    hide Pack;
    SmallMagnitudes();
  }

  lemma {:induction false} SmallMagnitudes()
    ensures Exponent(0) == Exponent(1) == 0 && Mantissa(0) == Mantissa(1) == 0
  {}

  /** What the second encoder's byte decodes to. */
  lemma {:induction false} SecondLevel(x: Sample, m: nat)
    requires m == if x >= 0 then Abs(x) else Abs(x) - 1
    ensures Decode(EncodeSecond(x)) == Signed(x >= 0, Rounded(m))
  {
    hide Exponent, Mantissa, Pack, Level, Decode;
    Unpack(x >= 0, Exponent(Clamp(m)), Mantissa(Clamp(m)));
  }

  /** The second encoder treats a sample and its bitwise complement alike, up to sign. */
  lemma {:induction false} SecondIsMirrored(x: Sample)
    ensures var level: int := Decode(EncodeSecond(x)); Decode(EncodeSecond(-1 - x)) == -level
  {
    hide Decode, EncodeSecond, Rounded, Clamp;
    var m := if x >= 0 then Abs(x) else Abs(x) - 1;
    SecondLevel(x, m);
    SecondLevel(-1 - x, m);
  }

  lemma {:induction false} PackInjective(p: bool, e: nat, r: nat, f: nat, q: nat)
    requires e <= 7 && r < 16 && f <= 7 && q < 16
    ensures Pack(p, e, r) == Pack(p, f, q) <==> e == f && r == q
  {
    hide Xor55;
    XorTwice((if p then 128 else 0) + 16 * e + r);
    XorTwice((if p then 128 else 0) + 16 * f + q);
  }

  /** The encoders differ exactly on negative samples whose magnitude opens a cell, below the clamp. */
  lemma {:induction false} EncodersDifferIff(x: Sample)
    ensures Encode(x) != EncodeSecond(x)
            <==> x <= -2 && Abs(x) <= 32635 && Abs(x) % CellWidth(Exponent(Abs(x))) == 0
  {
    hide Exponent, Mantissa, Pack, CellWidth;
    if x >= -1 {
      SecondIsShifted(x);
    } else {
      var m := Abs(x);
      var c, d := Clamp(m), Clamp(m - 1);
      PackInjective(false, Exponent(c), Mantissa(c), Exponent(d), Mantissa(d));
      if m <= 32635 {
        CellIff(m, Exponent(m), Mantissa(m));
        CellIff(m - 1, Exponent(m), Mantissa(m));
        OpensCell(m, Exponent(m), Mantissa(m));
      }
    }
  }

  lemma {:induction false} OpensCell(m: nat, e: nat, r: nat)
    requires e <= 7 && InCell(m, e, r)
    ensures m % CellWidth(e) == 0 <==> m == CellStart(e, r)
  {
    hide CellWidth;
    var w, k := CellWidth(e), if e == 0 then r else 16 + r;
    Widths(e);
    assert CellStart(e, r) == w * k;
    MultipleOf(m - w * k, w, k);
  }

  lemma {:induction false} MultipleOf(t: nat, w: nat, k: nat)
    requires w in {16, 32, 64, 128, 256, 512, 1024} && t < w
    ensures (w * k + t) % w == t
  {
    var n := w * k + t;
    Quotient(n, w, k);
    RemainderIs(n, w);
  }

  lemma {:induction false} RemainderIs(n: nat, w: nat)
    requires w > 0
    ensures n % w == n - w * (n / w)
  {}

  // ----- buffers

  function ToSample(low: Byte, high: Byte): Sample {
    if high >= 128 then low + 256 * high - 65536 else low + 256 * high
  }

  function LowByte(x: Sample): Byte { var n: int := x; n % 256 }

  function HighByte(x: Sample): Byte { var n: int := x; (if n < 0 then n + 65536 else n) / 256 }

  lemma {:induction false} SampleBytes(x: Sample)
    ensures ToSample(LowByte(x), HighByte(x)) == x
  {}

  /** Little-endian samples; an odd last byte is left out. */
  function Samples(pcm: seq<Byte>): (r: seq<Sample>)
    ensures |r| == |pcm| / 2
  { if |pcm| < 2 then [] else [ToSample(pcm[0], pcm[1])] + Samples(pcm[2..]) }

  function Pcm(samples: seq<Sample>): (r: seq<Byte>)
    ensures |r| == 2 * |samples|
  { if samples == [] then [] else [LowByte(samples[0]), HighByte(samples[0])] + Pcm(samples[1..]) }

  function EncodeAll(samples: seq<Sample>): (r: seq<Byte>)
    ensures |r| == |samples| && forall i :: 0 <= i < |r| ==> r[i] == Encode(samples[i])
  { if samples == [] then [] else [Encode(samples[0])] + EncodeAll(samples[1..]) }

  function EncodeSecondAll(samples: seq<Sample>): (r: seq<Byte>)
    ensures |r| == |samples| && forall i :: 0 <= i < |r| ==> r[i] == EncodeSecond(samples[i])
  { if samples == [] then [] else [EncodeSecond(samples[0])] + EncodeSecondAll(samples[1..]) }

  function DecodeAll(bytes: seq<Byte>): (r: seq<Sample>)
    ensures |r| == |bytes| && forall i :: 0 <= i < |r| ==> r[i] == Decode(bytes[i])
  { if bytes == [] then [] else [Decode(bytes[0])] + DecodeAll(bytes[1..]) }

  lemma {:induction false} SampleAt(pcm: seq<Byte>, i: nat)
    requires i < |pcm| / 2
    ensures Samples(pcm)[i] == ToSample(pcm[2 * i], pcm[2 * i + 1])
  {
    if i > 0 { SampleAt(pcm[2..], i - 1); }
  }

  /** The low byte comes first, and the two are the sample modulo 65536. */
  lemma {:induction false} SampleIs(pcm: seq<Byte>, i: nat)
    requires i < |pcm| / 2
    ensures var x: int, low: int, high: int := Samples(pcm)[i], pcm[2 * i], pcm[2 * i + 1];
            (x - low - 256 * high) % 65536 == 0
  {
    SampleAt(pcm, i);
  }

  lemma {:induction false} PcmAt(samples: seq<Sample>, i: nat)
    requires i < |samples|
    ensures Pcm(samples)[2 * i] == LowByte(samples[i]) && Pcm(samples)[2 * i + 1] == HighByte(samples[i])
  {
    if i > 0 { PcmAt(samples[1..], i - 1); }
  }

  /** Writing samples and reading them back. */
  lemma {:induction false} SamplesOfPcm(samples: seq<Sample>)
    ensures Samples(Pcm(samples)) == samples
  {
    hide LowByte, HighByte, ToSample;
    if samples != [] {
      SamplesOfPcm(samples[1..]);
      SampleBytes(samples[0]);
      assert Pcm(samples)[2..] == Pcm(samples[1..]);
    }
  }

  /** The mask loop: the exponent of a magnitude, found from the top bit down. */
  method FindExponent(sample: nat) returns (exponent: nat)
    requires sample < 32768
    ensures exponent == Exponent(sample)
  {
    hide Exponent;
    exponent := 7;
    var mask := 0x4000;
    while sample / mask % 2 == 0 && exponent > 0
      invariant 0 <= exponent <= 7 && mask == (if exponent == 0 then 128 else 16 * CellWidth(exponent))
      invariant sample < 2 * mask
    {
      exponent := exponent - 1;
      mask := mask / 2;
    }
    ExponentIff(sample, exponent);
  }

  lemma {:induction false} MantissaIs(m: nat)
    requires m < 32768
    ensures Mantissa(m) == m / (if Exponent(m) == 0 then 16 else CellWidth(Exponent(m))) % 16
  {
    hide Exponent;
  }

  method AlawEncode(pcm: array<Byte>) returns (output: array<Byte>)
    ensures fresh(output) && output[..] == EncodeAll(Samples(pcm[..]))
  {
    hide Exponent, Mantissa, Pack, Samples, EncodeAll;
    var count := pcm.Length / 2;
    output := new Byte[count](_ => 0);
    for index := 0 to count
      invariant forall i :: 0 <= i < index ==> output[i] == Encode(Samples(pcm[..])[i])
    {
      var value: int := ToSample(pcm[2 * index], pcm[2 * index + 1]);
      SampleAt(pcm[..], index);
      var positive := value >= 0;
      var sample: int := if value < 0 then -value else value;
      if sample > 32635 { sample := 32635; }
      var exponent := FindExponent(sample);
      var mantissa := sample / (if exponent == 0 then 16 else CellWidth(exponent)) % 16;
      MantissaIs(sample);
      output[index] := Pack(positive, exponent, mantissa);
    }
    assert output[..] == EncodeAll(Samples(pcm[..]));
  }

  method Pcm16ToAlaw(pcm: array<Byte>) returns (output: array<Byte>)
    ensures fresh(output) && output[..] == EncodeSecondAll(Samples(pcm[..]))
  {
    hide Exponent, Mantissa, Pack, Samples, EncodeSecondAll;
    output := new Byte[pcm.Length / 2](_ => 0);
    for i := 0 to output.Length
      invariant forall k :: 0 <= k < i ==> output[k] == EncodeSecond(Samples(pcm[..])[k])
    {
      var sample: int := ToSample(pcm[2 * i], pcm[2 * i + 1]);
      SampleAt(pcm[..], i);
      var positive := sample >= 0;
      if sample < 0 { sample := -sample - 1; }
      if sample > 32635 { sample := 32635; }
      var exponent := FindExponent(sample);
      var mantissa := sample / (if exponent == 0 then 16 else CellWidth(exponent)) % 16;
      MantissaIs(sample);
      output[i] := Pack(positive, exponent, mantissa);
    }
    assert output[..] == EncodeSecondAll(Samples(pcm[..]));
  }

  lemma {:induction false} DecodeIs(b: Byte, level: int)
    requires var e, m := Xor55(b) / 16 % 8, Xor55(b) % 16;
             level == if e == 0 then m * 16 + 8 else if e == 1 then m * 16 + 0x108
               else (m * 16 + 0x108) * (CellWidth(e) / 16)
    ensures Decode(b) == Signed(Xor55(b) >= 128, level) && 0 < level <= 32256
  {
    hide Xor55, CellWidth;
    LevelBound(Xor55(b) / 16 % 8, Xor55(b) % 16);
  }

  method AlawDecode(input: array<Byte>) returns (output: array<Byte>)
    ensures fresh(output) && output[..] == Pcm(DecodeAll(input[..]))
  {
    hide Decode, Pcm, DecodeAll, LowByte, HighByte, Xor55;
    output := new Byte[2 * input.Length](_ => 0);
    for index := 0 to input.Length
      invariant forall i :: 0 <= i < index ==>
        output[2 * i] == LowByte(Decode(input[i])) && output[2 * i + 1] == HighByte(Decode(input[i]))
    {
      var alaw := Xor55(input[index]);
      var sample: int := alaw % 16 * 16;
      var segment := alaw / 16 % 8;
      if segment == 0 {
        sample := sample + 8;
      } else if segment == 1 {
        sample := sample + 0x108;
      } else {
        sample := (sample + 0x108) * (CellWidth(segment) / 16);
      }
      DecodeIs(input[index], sample);
      sample := if alaw >= 128 then sample else -sample;
      output[2 * index] := LowByte(sample);
      output[2 * index + 1] := HighByte(sample);
    }
    SameBytes(output[..], DecodeAll(input[..]));
  }

  lemma {:induction false} SameBytes(bytes: seq<Byte>, samples: seq<Sample>)
    requires |bytes| == 2 * |samples|
    requires forall i :: 0 <= i < |samples| ==>
      bytes[2 * i] == LowByte(samples[i]) && bytes[2 * i + 1] == HighByte(samples[i])
    ensures bytes == Pcm(samples)
  {
    hide LowByte, HighByte, Pcm;
    forall j | 0 <= j < |bytes| ensures bytes[j] == Pcm(samples)[j] {
      PcmAt(samples, j / 2);
      assert j == 2 * (j / 2) || j == 2 * (j / 2) + 1;
    }
  }

  function DecodeBuffer(bytes: seq<Byte>): seq<Byte> { Pcm(DecodeAll(bytes)) }

  function EncodeBuffer(pcm: seq<Byte>): seq<Byte> { EncodeAll(Samples(pcm)) }

  /** A buffer of any length comes back from decoding and encoding, byte for byte. */
  lemma {:induction false} BufferComesBack(bytes: seq<Byte>)
    ensures EncodeBuffer(DecodeBuffer(bytes)) == bytes
    ensures EncodeSecondAll(Samples(DecodeBuffer(bytes))) == bytes
  {
    hide Encode, Decode, EncodeSecond, Pcm, Samples;
    var samples := DecodeAll(bytes);
    SamplesOfPcm(samples);
    forall i | 0 <= i < |bytes| ensures Encode(samples[i]) == bytes[i] && EncodeSecond(samples[i]) == bytes[i] {
      EncodeDecode(bytes[i]);
    }
  }

  /**
   * The network's round trip on a buffer settles after one pass, and moves each sample as little as
   * `ErrorBound` says.
   */
  lemma {:induction false} BufferRoundTrip(pcm: seq<Byte>)
    ensures var once := DecodeBuffer(EncodeBuffer(pcm));
            && DecodeBuffer(EncodeBuffer(once)) == once && |once| == 2 * (|pcm| / 2)
            && forall i :: 0 <= i < |pcm| / 2 ==> Near(Samples(pcm)[i], Samples(once)[i])
  {
    hide Encode, Decode, Pcm, Samples, Near;
    var bytes, samples := EncodeBuffer(pcm), Samples(pcm);
    BufferComesBack(bytes);
    SamplesOfPcm(DecodeAll(bytes));
    forall i | 0 <= i < |samples| ensures Near(samples[i], DecodeAll(bytes)[i]) { ErrorBound(samples[i]); }
  }
}
