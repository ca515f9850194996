/** The fixed-point BT.601 arithmetic of the frame conversions, against the real formula
    that it approximates. */
module Color {
  import opened Common

  datatype Rgb = Rgb(r: Byte, g: Byte, b: Byte)

  function Clamp8(v: int): Byte {
    if v < 0 then 0 else if v > 255 then 255 else v
  }

  /** One pixel from luma and centred chroma; `>> 8` rounds down. */
  function YcbcrToRgb(y: Byte, cb: int, cr: int): Rgb {
    Rgb(Clamp8(y + 359 * cr / 256), Clamp8(y - (88 * cb + 183 * cr) / 256), Clamp8(y + 454 * cb / 256))
  }

  function RgbToY(p: Rgb): Byte {
    Clamp8((77 * p.r + 150 * p.g + 29 * p.b + 128) / 256)
  }

  /** Chroma times 256, neither clamped nor rounded. */
  function RgbToCb(p: Rgb): int {
    -43 * p.r - 85 * p.g + 128 * p.b + 32768
  }

  function RgbToCr(p: Rgb): int {
    128 * p.r - 107 * p.g - 21 * p.b + 32768
  }

  /** To the nearest integer, halves away from zero. */
  function Round(x: real): int {
    if x >= 0.0 then (x + 0.5).Floor else -((-x + 0.5).Floor)
  }

  function Reference(v: real): Byte {
    Clamp8(Round(v))
  }

  predicate Within(bound: int, a: int, b: int) {
    -bound <= a - b <= bound
  }

  lemma RoundIsNear(x: real)
    ensures x - 0.5 <= Round(x) as real <= x + 0.5
  {
  }

  /** Clamping does not spread values. */
  lemma ClampKeepsDistance(bound: int, a: int, b: int)
    requires Within(bound, a, b)
    ensures Within(bound, Clamp8(a), Clamp8(b))
  {
  }

  /** Integers whose distance to a real number is below 3/2 and to its rounding at most 1/2
      away are at most one apart. */
  lemma NearRounded(v: int, x: real)
    requires x - 1.5 < v as real < x + 1.5
    ensures Within(1, Clamp8(v), Reference(x))
  {
    RoundIsNear(x);
    assert (v - Round(x)) as real == v as real - Round(x) as real;
    ClampKeepsDistance(1, v, Round(x));
  }

  lemma Scaled(n: int)
    ensures (n / 256) as real <= n as real / 256.0 < (n / 256) as real + 1.0
  {
    var (q, r) := (n / 256, n % 256);
    assert n as real == 256.0 * q as real + r as real;
  }

  lemma RedIsClose(y: int, cr: int)
    requires -128 <= cr <= 127
    ensures Within(1, Clamp8(y + 359 * cr / 256), Reference(y as real + 1.402 * cr as real))
  {
    hide Clamp8, Reference, Within;
    Scaled(359 * cr);
    NearRounded(y + 359 * cr / 256, y as real + 1.402 * cr as real);
  }

  lemma GreenIsClose(y: int, cb: int, cr: int)
    requires -128 <= cb <= 127 && -128 <= cr <= 127
    ensures Within(1, Clamp8(y - (88 * cb + 183 * cr) / 256),
                   Reference(y as real - 0.344 * cb as real - 0.714 * cr as real))
  {
    hide Clamp8, Reference, Within;
    Scaled(88 * cb + 183 * cr);
    NearRounded(y - (88 * cb + 183 * cr) / 256, y as real - 0.344 * cb as real - 0.714 * cr as real);
  }

  lemma BlueIsClose(y: int, cb: int)
    requires -128 <= cb <= 127
    ensures Within(1, Clamp8(y + 454 * cb / 256), Reference(y as real + 1.772 * cb as real))
  {
    hide Clamp8, Reference, Within;
    Scaled(454 * cb);
    NearRounded(y + 454 * cb / 256, y as real + 1.772 * cb as real);
  }

  /** The integer form is within one of the rounded formula, for every luma and chroma. */
  lemma PixelIsClose(y: Byte, cb: int, cr: int)
    requires -128 <= cb <= 127 && -128 <= cr <= 127
    ensures var p := YcbcrToRgb(y, cb, cr);
            && Within(1, p.r, Reference(y as real + 1.402 * cr as real))
            && Within(1, p.g, Reference(y as real - 0.344 * cb as real - 0.714 * cr as real))
            && Within(1, p.b, Reference(y as real + 1.772 * cb as real))
  {
    RedIsClose(y, cr);
    GreenIsClose(y, cb, cr);
    BlueIsClose(y, cb);
  }

  /** The luma's integer form is within one of the rounded formula as well. */
  lemma LumaIsClose(p: Rgb)
    ensures Within(1, RgbToY(p), Reference(0.299 * p.r as real + 0.587 * p.g as real + 0.114 * p.b as real))
  {
    var n := 77 * p.r + 150 * p.g + 29 * p.b + 128;
    Scaled(n);
    NearRounded(n / 256, 0.299 * p.r as real + 0.587 * p.g as real + 0.114 * p.b as real);
  }

  /** The real chroma that the integer form approximates. */
  function RealCb(p: Rgb): real {
    -0.169 * p.r as real - 0.331 * p.g as real + 0.5 * p.b as real + 128.0
  }

  function RealCr(p: Rgb): real {
    0.5 * p.r as real - 0.419 * p.g as real - 0.081 * p.b as real + 128.0
  }

  /** 256 times as large, the integer chroma is off by little. */
  lemma ChromaIsClose(p: Rgb)
    ensures -70.0 <= RgbToCb(p) as real - 256.0 * RealCb(p) <= 70.0
    ensures -70.0 <= RgbToCr(p) as real - 256.0 * RealCr(p) <= 70.0
  {
  }

  /** The mean of four values that are 256 times too large, rounded down, is within one of the
      rounded mean of the real ones. */
  lemma MeanOfFour(sum: int, total: real)
    requires -280.0 <= sum as real - 256.0 * total <= 280.0
    ensures Within(1, Clamp8(sum / 1024), Reference(total / 4.0))
  {
    hide Within, Clamp8, Reference;
    var (q, r) := (sum / 1024, sum % 1024);
    assert sum as real == 1024.0 * q as real + r as real;
    NearRounded(q, total / 4.0);
  }

  lemma MeanOfTwo(sum: int, total: real)
    requires -140.0 <= sum as real - 256.0 * total <= 140.0
    ensures Within(1, Clamp8(sum / 512), Reference(total / 2.0))
  {
    hide Within, Clamp8, Reference;
    var (q, r) := (sum / 512, sum % 512);
    assert sum as real == 512.0 * q as real + r as real;
    NearRounded(q, total / 2.0);
  }

  /** Neither luma nor chroma ever needs its clamp. */
  lemma LumaNeedsNoClamp(p: Rgb)
    ensures 0 <= (77 * p.r + 150 * p.g + 29 * p.b + 128) / 256 <= 255
  {
  }

  lemma ChromaRange(p: Rgb)
    ensures 128 <= RgbToCb(p) <= 65408 && 128 <= RgbToCr(p) <= 65408
  {
  }

  /** q is n shifted right by eight bits. */
  predicate Shifted(q: int, n: int) {
    256 * q <= n < 256 * q + 256
  }

  lemma ShiftedIs(n: int)
    ensures Shifted(n / 256, n)
  {
  }

  lemma RedSurvives(r: int, g: int, b: int, y: int, v: int, q: int)
    requires 0 <= r < 256 && 0 <= g < 256 && 0 <= b < 256
    requires Shifted(y, 77 * r + 150 * g + 29 * b + 128)
    requires Shifted(v, 128 * r - 107 * g - 21 * b) && Shifted(q, 359 * v)
    ensures Within(3, y + q, r)
  {
  }

  lemma GreenSurvives(r: int, g: int, b: int, y: int, u: int, v: int, q: int)
    requires 0 <= r < 256 && 0 <= g < 256 && 0 <= b < 256
    requires Shifted(y, 77 * r + 150 * g + 29 * b + 128)
    requires Shifted(u, -43 * r - 85 * g + 128 * b) && Shifted(v, 128 * r - 107 * g - 21 * b)
    requires Shifted(q, 88 * u + 183 * v)
    ensures Within(3, y - q, g)
  {
  }

  lemma BlueSurvives(r: int, g: int, b: int, y: int, u: int, q: int)
    requires 0 <= r < 256 && 0 <= g < 256 && 0 <= b < 256
    requires Shifted(y, 77 * r + 150 * g + 29 * b + 128)
    requires Shifted(u, -43 * r - 85 * g + 128 * b) && Shifted(q, 454 * u)
    ensures Within(3, y + q, b)
  {
    assert 128 * q <= 227 * u <= 128 * q + 127;
  }

  lemma ShiftsOf(p: Rgb)
    ensures Shifted(RgbToY(p), 77 * p.r + 150 * p.g + 29 * p.b + 128)
    ensures Shifted(RgbToCb(p) / 256 - 128, -43 * p.r - 85 * p.g + 128 * p.b)
    ensures Shifted(RgbToCr(p) / 256 - 128, 128 * p.r - 107 * p.g - 21 * p.b)
  {
    LumaNeedsNoClamp(p);
    ShiftedIs(77 * p.r + 150 * p.g + 29 * p.b + 128);
    ShiftedIs(RgbToCb(p));
    ShiftedIs(RgbToCr(p));
  }

  lemma ByteSurvives(v: int, b: Byte)
    requires Within(3, v, b)
    ensures Within(3, Clamp8(v), b)
  {
    ClampKeepsDistance(3, v, b);
  }

  /** Any colour, sent through luma and chroma and back, moves by at most 3 per channel. */
  lemma ColourSurvives(p: Rgb)
    ensures var q := YcbcrToRgb(RgbToY(p), RgbToCb(p) / 256 - 128, RgbToCr(p) / 256 - 128);
            Within(3, q.r, p.r) && Within(3, q.g, p.g) && Within(3, q.b, p.b)
  {
    hide Shifted, Within, Clamp8, RgbToY, RgbToCb, RgbToCr;
    var y := RgbToY(p);
    var u := RgbToCb(p) / 256 - 128;
    var v := RgbToCr(p) / 256 - 128;
    ShiftsOf(p);
    ShiftedIs(359 * v);
    ShiftedIs(88 * u + 183 * v);
    ShiftedIs(454 * u);
    RedSurvives(p.r, p.g, p.b, y, v, 359 * v / 256);
    GreenSurvives(p.r, p.g, p.b, y, u, v, (88 * u + 183 * v) / 256);
    BlueSurvives(p.r, p.g, p.b, y, u, 454 * u / 256);
    ByteSurvives(y + 359 * v / 256, p.r);
    ByteSurvives(y - (88 * u + 183 * v) / 256, p.g);
    ByteSurvives(y + 454 * u / 256, p.b);
  }

  /** The bound is reached. */
  lemma BoundIsReached()
    ensures var p := Rgb(0, 8, 113);
            YcbcrToRgb(RgbToY(p), RgbToCb(p) / 256 - 128, RgbToCr(p) / 256 - 128).b == p.b - 3
  {
    var p := Rgb(0, 8, 113);
    assert RgbToY(p) == 17 && RgbToCb(p) == 46552;
    assert 454 * 53 / 256 == 93;
  }
}
