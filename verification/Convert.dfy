/** The frame conversions between NV12 and packed RGB, as loops that fill a buffer. */
module Convert {
  import opened Color
  import opened Common

  datatype Format = Nv12 | Yuyv | Rgb24 | Mjpeg

  datatype Image = Image(width: nat, height: nat, format: Format, data: seq<Byte>)

  datatype Conversion =
    | Converted(image: Image)
    | InvalidFormat(expected: Format, actual: Format)
    | InvalidDimensions(w: nat, h: nat, len: nat)

  /** Position of column x in row y when rows are w long. */
  function Place(w: nat, x: nat, y: nat): nat {
    y * w + x
  }

  lemma NextRow(w: nat, y: nat)
    ensures Place(w, w, y) == Place(w, 0, y + 1) && Place(w, 0, 0) == 0
  {
  }

  lemma NextPlace(w: nat, x: nat, y: nat)
    ensures Place(w, x + 1, y) == Place(w, x, y) + 1
  {
  }

  /** A row lies wholly before the next ones. */
  lemma {:induction false} RowsApart(w: nat, x: nat, y: nat, y': nat)
    requires x < w && y < y'
    ensures Place(w, x, y) < Place(w, 0, y')
    decreases y'
  {
    NextRow(w, y' - 1);
    assert Place(w, w, y' - 1) == Place(w, 0, y' - 1) + w;
    if y < y' - 1 {
      RowsApart(w, x, y, y' - 1);
    } else {
      assert Place(w, x, y) < Place(w, w, y);
    }
  }

  /** No two cells share a position. */
  lemma SamePlace(w: nat, x: nat, y: nat, x': nat, y': nat)
    requires x < w && x' < w && Place(w, x, y) == Place(w, x', y')
    ensures x == x' && y == y'
  {
    if y < y' {
      RowsApart(w, x, y, y');
    } else if y' < y {
      RowsApart(w, x', y', y);
    }
  }

  // ---- The layouts ----

  function Pixel(img: Image, x: nat, y: nat): Rgb
    requires 3 * Place(img.width, x, y) + 3 <= |img.data|
  {
    PixelAt(img.data, Place(img.width, x, y))
  }

  function PixelAt(data: seq<Byte>, p: nat): Rgb
    requires 3 * p + 3 <= |data|
  {
    Rgb(data[3 * p], data[3 * p + 1], data[3 * p + 2])
  }

  ghost predicate IsRgb(img: Image) {
    img.format == Rgb24 && img.width > 0 && |img.data| == 3 * Place(img.width, 0, img.height)
  }

  /** NV12 has h rows of luma and then h / 2 rows of chroma, of the same length. */
  ghost predicate IsNv12(img: Image) {
    && img.format == Nv12 && img.width > 0 && img.height % 2 == 0
    && |img.data| == Place(img.width, 0, img.height + img.height / 2)
  }

  lemma InRgb(img: Image, x: nat, y: nat)
    requires IsRgb(img) && x < img.width && y < img.height
    ensures 3 * Place(img.width, x, y) + 3 <= |img.data|
  {
    RowsApart(img.width, x, y, img.height);
  }

  lemma InNv12(img: Image, x: nat, y: nat)
    requires IsNv12(img) && x < img.width && y < img.height + img.height / 2
    ensures Place(img.width, x, y) < |img.data|
  {
    RowsApart(img.width, x, y, img.height + img.height / 2);
  }

  function Cell(img: Image, x: nat, y: nat): Byte
    requires Place(img.width, x, y) < |img.data|
  {
    img.data[Place(img.width, x, y)]
  }

  // ---- NV12 to RGB ----

  /** The colour of a pixel: its own luma and the chroma of its pair of columns and rows.
      A last odd column has no pair and stays black. */
  ghost function Shown(img: Image, x: nat, y: nat): Rgb
    requires IsNv12(img) && x < img.width && y < img.height
  {
    if x == img.width - 1 && x % 2 == 0 then Rgb(0, 0, 0)
    else
      var (pair, row) := (x - x % 2, img.height + y / 2);
      InNv12(img, x, y);
      InNv12(img, pair, row);
      InNv12(img, pair + 1, row);
      YcbcrToRgb(Cell(img, x, y), Cell(img, pair, row) - 128, Cell(img, pair + 1, row) - 128)
  }

  /** The first n pixels are there, the others are still black. */
  ghost predicate Painted(out: seq<Byte>, img: Image, n: nat)
    requires IsNv12(img) && |out| == 3 * Place(img.width, 0, img.height)
  {
    forall x: nat, y: nat | x < img.width && y < img.height && 3 * Place(img.width, x, y) + 3 <= |out| ::
      PixelAt(out, Place(img.width, x, y)) ==
      if Place(img.width, x, y) < n then Shown(img, x, y) else Rgb(0, 0, 0)
  }

  lemma PaintNext(out: seq<Byte>, out': seq<Byte>, img: Image, x: nat, y: nat)
    requires IsNv12(img) && |out| == |out'| == 3 * Place(img.width, 0, img.height)
    requires x < img.width && y < img.height && 3 * Place(img.width, x, y) + 3 <= |out|
    requires Painted(out, img, Place(img.width, x, y))
    requires PixelAt(out', Place(img.width, x, y)) == Shown(img, x, y)
    requires forall i | 0 <= i < |out| && !(3 * Place(img.width, x, y) <= i < 3 * Place(img.width, x, y) + 3) ::
               out'[i] == out[i]
    ensures Painted(out', img, Place(img.width, x, y) + 1)
  {
    hide Shown, Place, IsNv12;
    forall x': nat, y': nat | x' < img.width && y' < img.height && 3 * Place(img.width, x', y') + 3 <= |out|
      ensures PixelAt(out', Place(img.width, x', y')) ==
              if Place(img.width, x', y') < Place(img.width, x, y) + 1 then Shown(img, x', y') else Rgb(0, 0, 0)
    {
      if Place(img.width, x', y') == Place(img.width, x, y) {
        SamePlace(img.width, x', y', x, y);
      } else {
        assert PixelAt(out', Place(img.width, x', y')) == PixelAt(out, Place(img.width, x', y'));
      }
    }
  }

  method PutPixel(out: array<Byte>, img: Image, x: nat, y: nat, p: Rgb)
    requires IsNv12(img) && out.Length == 3 * Place(img.width, 0, img.height)
    requires x < img.width && y < img.height && p == Shown(img, x, y)
    requires Painted(out[..], img, Place(img.width, x, y))
    modifies out
    ensures Painted(out[..], img, Place(img.width, x + 1, y))
  {
    hide Painted, Shown, Place;
    ghost var before := out[..];
    RowsApart(img.width, x, y, img.height);
    NextPlace(img.width, x, y);
    var at := 3 * Place(img.width, x, y);
    out[at], out[at + 1], out[at + 2] := p.r, p.g, p.b;
    assert PixelAt(out[..], Place(img.width, x, y)) == p;
    PaintNext(before, out[..], img, x, y);
  }

  /** What nv12_to_rgb24 makes of an image. */
  ghost predicate RgbOf(nv: Image, rgb: Image)
    requires IsNv12(nv)
  {
    && IsRgb(rgb) && rgb.width == nv.width && rgb.height == nv.height
    && forall x: nat, y: nat | x < nv.width && y < nv.height && 3 * Place(nv.width, x, y) + 3 <= |rgb.data| ::
         Pixel(rgb, x, y) == Shown(nv, x, y)
  }

  lemma PaintedAll(out: seq<Byte>, img: Image)
    requires IsNv12(img) && |out| == 3 * Place(img.width, 0, img.height)
    requires Painted(out, img, Place(img.width, 0, img.height))
    ensures RgbOf(img, Image(img.width, img.height, Rgb24, out))
  {
    hide Shown, Place;
    forall x: nat, y: nat | x < img.width && y < img.height && 3 * Place(img.width, x, y) + 3 <= |out|
      ensures PixelAt(out, Place(img.width, x, y)) == Shown(img, x, y)
    {
      RowsApart(img.width, x, y, img.height);
    }
  }

  /** w * h * 3 / 2, as both conversions compute it. */
  function Nv12Size(w: nat, h: nat): nat {
    w * h * 3 / 2
  }

  lemma Times(w: nat, m: nat)
    ensures w * (2 * m) == 2 * (w * m) && w * (2 * m + 1) == 2 * (w * m) + w
    ensures (3 * m) * w == 3 * (w * m) && (3 * m + 1) * w == 3 * (w * m) + w
  {
  }

  lemma HalfOf(n: nat, a: nat, w: nat)
    ensures n == 2 * a ==> n * 3 / 2 == 3 * a
    ensures n == 2 * a + w ==> n * 3 / 2 == 3 * a + w + w / 2
  {
  }

  lemma Nv12SizeIs(w: nat, h: nat)
    ensures Nv12Size(w, h) == Place(w, if h % 2 == 0 then 0 else w / 2, h + h / 2)
  {
    var m := h / 2;
    Times(w, m);
    HalfOf(w * h, w * m, w);
    assert h % 2 == 0 ==> h == 2 * m && h + h / 2 == 3 * m;
    assert h % 2 == 1 ==> h == 2 * m + 1 && h + h / 2 == 3 * m + 1;
  }

  lemma StartsBlack(out: seq<Byte>, img: Image)
    requires IsNv12(img) && |out| == 3 * Place(img.width, 0, img.height)
    requires forall i | 0 <= i < |out| :: out[i] == 0
    ensures Painted(out, img, 0)
  {
    hide Shown, Place;
  }

  lemma PairShown(img: Image, x: nat, y: nat)
    requires IsNv12(img) && x % 2 == 0 && x + 1 < img.width && y < img.height
    requires Place(img.width, x, img.height + y / 2) < |img.data|
    requires Place(img.width, x + 1, img.height + y / 2) < |img.data|
    requires Place(img.width, x, y) < |img.data| && Place(img.width, x + 1, y) < |img.data|
    ensures var (u, v) := (Cell(img, x, img.height + y / 2) - 128, Cell(img, x + 1, img.height + y / 2) - 128);
            && Shown(img, x, y) == YcbcrToRgb(Cell(img, x, y), u, v)
            && Shown(img, x + 1, y) == YcbcrToRgb(Cell(img, x + 1, y), u, v)
  {
    hide Place, YcbcrToRgb;
  }

  lemma LastIsBlack(img: Image, y: nat)
    requires IsNv12(img) && img.width % 2 == 1 && y < img.height
    ensures Shown(img, img.width - 1, y) == Rgb(0, 0, 0)
  {
    hide Place, YcbcrToRgb;
  }

  /** A last odd column is black already. */
  lemma SkipLast(out: seq<Byte>, img: Image, y: nat)
    requires IsNv12(img) && |out| == 3 * Place(img.width, 0, img.height)
    requires y < img.height && img.width % 2 == 1 && Painted(out, img, Place(img.width, img.width - 1, y))
    ensures Painted(out, img, Place(img.width, img.width, y))
  {
    hide Place, IsNv12, Shown;
    var x := img.width - 1;
    RowsApart(img.width, x, y, img.height);
    NextPlace(img.width, x, y);
    LastIsBlack(img, y);
    PaintNext(out, out, img, x, y);
  }

  /** A row, pair by pair: the chroma is read once for both columns. */
  method PaintRow(out: array<Byte>, img: Image, y: nat)
    requires IsNv12(img) && out.Length == 3 * Place(img.width, 0, img.height) && y < img.height
    requires Painted(out[..], img, Place(img.width, 0, y))
    modifies out
    ensures Painted(out[..], img, Place(img.width, 0, y + 1))
  {
    hide Painted, Shown, Place, YcbcrToRgb;
    var w, row := img.width, img.height + y / 2;
    var x := 0;
    while x + 1 < w
      invariant x <= w && x % 2 == 0
      invariant Painted(out[..], img, Place(w, x, y))
    {
      InNv12(img, x, row);
      InNv12(img, x + 1, row);
      InNv12(img, x, y);
      InNv12(img, x + 1, y);
      var u, v: int := Cell(img, x, row) - 128, Cell(img, x + 1, row) - 128;
      PairShown(img, x, y);
      PutPixel(out, img, x, y, YcbcrToRgb(Cell(img, x, y), u, v));
      PutPixel(out, img, x + 1, y, YcbcrToRgb(Cell(img, x + 1, y), u, v));
      x := x + 2;
    }
    if x < w {
      SkipLast(out[..], img, y);
    }
    NextRow(w, y);
  }

  /** The chroma row that the loop slices for line y lies within the data. */
  predicate ChromaInData(w: nat, h: nat, y: nat) {
    Place(w, 0, h + y / 2) + w <= Nv12Size(w, h)
  }

  /** Every line finds its chroma row exactly when the height is even. With an odd height the
      last line's slice runs over the end, and the program panics. */
  lemma ChromaInDataExactly(w: nat, h: nat)
    requires w > 0
    ensures (forall y: nat | y < h :: ChromaInData(w, h, y)) <==> h % 2 == 0
    ensures h % 2 == 1 ==> !ChromaInData(w, h, h - 1)
  {
    hide Place, Nv12Size;
    Nv12SizeIs(w, h);
    if h % 2 == 0 {
      forall y: nat | y < h ensures ChromaInData(w, h, y) {
        RowsApart(w, w - 1, h + y / 2, h + h / 2);
        PlaceGrows(w, 0, w - 1, h + y / 2);
      }
    } else {
      assert h + (h - 1) / 2 == h + h / 2;
      PlaceGrows(w, 0, w / 2, h + h / 2);
      assert !ChromaInData(w, h, h - 1);
    }
  }

  /** Where the program panics: on a zero width, for which it asks for chunks of no bytes, and
      on an odd height. */
  predicate Nv12Panics(img: Image) {
    && img.format == Nv12 && |img.data| == Nv12Size(img.width, img.height)
    && (img.width == 0 || img.height % 2 == 1)
  }

  /** Row by row. */
  method Nv12ToRgb24(img: Image) returns (r: Conversion)
    requires !Nv12Panics(img)
    ensures img.format != Nv12 ==> r == InvalidFormat(Nv12, img.format)
    ensures img.format == Nv12 && |img.data| != Nv12Size(img.width, img.height) ==>
              r == InvalidDimensions(img.width, img.height, |img.data|)
    ensures img.format == Nv12 && |img.data| == Nv12Size(img.width, img.height) ==>
              IsNv12(img) && r.Converted? && RgbOf(img, r.image)
  {
    hide Nv12Size, Painted, Shown, Place, RgbOf;
    if img.format != Nv12 {
      return InvalidFormat(Nv12, img.format);
    }
    var w, h := img.width, img.height;
    if |img.data| != Nv12Size(w, h) {
      return InvalidDimensions(w, h, |img.data|);
    }
    Nv12SizeIs(w, h);
    NextRow(w, 0);
    var out := new Byte[3 * Place(w, 0, h)](_ => 0);
    StartsBlack(out[..], img);
    var y := 0;
    while y < h
      invariant y <= h && fresh(out)
      invariant Painted(out[..], img, Place(w, 0, y))
    {
      PaintRow(out, img, y);
      y := y + 1;
    }
    PaintedAll(out[..], img);
    return Converted(Image(w, h, Rgb24, out[..]));
  }

  // ---- RGB to NV12 ----

  ghost function LumaAt(img: Image, x: nat, y: nat): Byte
    requires IsRgb(img) && x < img.width && y < img.height
  {
    InRgb(img, x, y);
    RgbToY(Pixel(img, x, y))
  }

  ghost function CbAt(img: Image, x: nat, y: nat): int
    requires IsRgb(img) && x < img.width && y < img.height
  {
    InRgb(img, x, y);
    RgbToCb(Pixel(img, x, y))
  }

  ghost function CrAt(img: Image, x: nat, y: nat): int
    requires IsRgb(img) && x < img.width && y < img.height
  {
    InRgb(img, x, y);
    RgbToCr(Pixel(img, x, y))
  }

  /** The chroma of the block whose upper left corner is (x, y). */
  ghost function BlockCb(img: Image, x: nat, y: nat): Byte
    requires IsRgb(img) && x + 1 < img.width && y + 1 < img.height
  {
    Clamp8((CbAt(img, x, y) + CbAt(img, x + 1, y) + CbAt(img, x, y + 1) + CbAt(img, x + 1, y + 1)) / 1024)
  }

  ghost function BlockCr(img: Image, x: nat, y: nat): Byte
    requires IsRgb(img) && x + 1 < img.width && y + 1 < img.height
  {
    Clamp8((CrAt(img, x, y) + CrAt(img, x + 1, y) + CrAt(img, x, y + 1) + CrAt(img, x + 1, y + 1)) / 1024)
  }

  /** The rows of the result, counting the short chroma row that an odd height adds. */
  function RowsOf(h: nat): nat {
    h + h / 2 + h % 2
  }

  /** The byte at column x of a row of the result: luma rows first, then chroma rows with
      both components side by side. A last odd column has one component only, and so has
      the short last row of an odd height its own averages. */
  ghost function Sampled(img: Image, x: nat, row: nat): Byte
    requires IsRgb(img) && x < img.width && row < RowsOf(img.height)
  {
    var (w, h, p) := (img.width, img.height, x - x % 2);
    if row < h then LumaAt(img, x, row)
    else if row < h + h / 2 then
      var y := 2 * (row - h);
      if p + 1 < w then (if x == p then BlockCb(img, p, y) else BlockCr(img, p, y))
      else Clamp8((CbAt(img, p, y) + CbAt(img, p, y + 1)) / 2 / 256)
    else if p + 1 < w / 2 then
      Clamp8((if x == p then CbAt(img, p, h - 1) + CbAt(img, p + 1, h - 1)
              else CrAt(img, p, h - 1) + CrAt(img, p + 1, h - 1)) / 2 / 256)
    else 0
  }

  /** The first n bytes are there, the others are still zero. */
  ghost predicate Filled(out: seq<Byte>, img: Image, n: nat)
    requires IsRgb(img)
  {
    forall x: nat, row: nat | x < img.width && row < RowsOf(img.height) && Place(img.width, x, row) < |out| ::
      out[Place(img.width, x, row)] == if Place(img.width, x, row) < n then Sampled(img, x, row) else 0
  }

  ghost predicate Nv12Of(rgb: Image, nv: Image)
    requires IsRgb(rgb)
  {
    && nv.format == Nv12 && nv.width == rgb.width && nv.height == rgb.height
    && |nv.data| == Nv12Size(rgb.width, rgb.height)
    && forall x: nat, row: nat | x < rgb.width && row < RowsOf(rgb.height) && Place(rgb.width, x, row) < |nv.data| ::
         nv.data[Place(rgb.width, x, row)] == Sampled(rgb, x, row)
  }

  lemma FilledAll(out: seq<Byte>, img: Image)
    requires IsRgb(img) && |out| == Nv12Size(img.width, img.height) && Filled(out, img, |out|)
    ensures Nv12Of(img, Image(img.width, img.height, Nv12, out))
  {
    hide Sampled, Place, Nv12Size;
  }

  lemma InResult(img: Image, x: nat, row: nat)
    requires IsRgb(img) && x < img.width && row < img.height + img.height / 2
    ensures Place(img.width, x, row) < Nv12Size(img.width, img.height)
  {
    var (w, h) := (img.width, img.height);
    Nv12SizeIs(w, h);
    RowsApart(w, x, row, h + h / 2);
  }

  lemma StartsEmpty(out: seq<Byte>, img: Image)
    requires IsRgb(img) && forall i | 0 <= i < |out| :: out[i] == 0
    ensures Filled(out, img, 0)
  {
    hide Sampled, Place;
  }

  /** Bytes are written one after the other. */
  method PutByte(out: array<Byte>, img: Image, x: nat, row: nat, b: Byte)
    requires IsRgb(img) && x < img.width && row < RowsOf(img.height) && Place(img.width, x, row) < out.Length
    requires b == Sampled(img, x, row) && Filled(out[..], img, Place(img.width, x, row))
    modifies out
    ensures Filled(out[..], img, Place(img.width, x + 1, row))
  {
    hide Sampled, Place, IsRgb;
    ghost var before := out[..];
    var at := Place(img.width, x, row);
    out[at] := b;
    NextPlace(img.width, x, row);
    forall x': nat, row': nat | x' < img.width && row' < RowsOf(img.height) && Place(img.width, x', row') < out.Length
      ensures out[Place(img.width, x', row')] ==
              if Place(img.width, x', row') < at + 1 then Sampled(img, x', row') else 0
    {
      if Place(img.width, x', row') == at {
        SamePlace(img.width, x', row', x, row);
      } else {
        assert out[Place(img.width, x', row')] == before[Place(img.width, x', row')];
      }
    }
  }

  method LumaRow(out: array<Byte>, img: Image, y: nat)
    requires IsRgb(img) && out.Length == Nv12Size(img.width, img.height) && y < img.height
    requires Filled(out[..], img, Place(img.width, 0, y))
    modifies out
    ensures Filled(out[..], img, Place(img.width, 0, y + 1))
  {
    hide Filled, Place, IsRgb, RgbToY;
    var x := 0;
    while x < img.width
      invariant x <= img.width
      invariant Filled(out[..], img, Place(img.width, x, y))
    {
      InRgb(img, x, y);
      InResult(img, x, y);
      PutByte(out, img, x, y, RgbToY(Pixel(img, x, y)));
      x := x + 1;
    }
    NextRow(img.width, y);
  }

  /** One chroma row: whole blocks, then the first component of a last odd column. */
  method ChromaRow(out: array<Byte>, img: Image, k: nat)
    requires IsRgb(img) && out.Length == Nv12Size(img.width, img.height) && k < img.height / 2
    requires Filled(out[..], img, Place(img.width, 0, img.height + k))
    modifies out
    ensures Filled(out[..], img, Place(img.width, 0, img.height + k + 1))
  {
    hide Filled, Place, IsRgb, Nv12Size, RgbToCb, RgbToCr, Clamp8;
    var w, row, y := img.width, img.height + k, 2 * k;
    var x := 0;
    while x + 1 < w
      invariant x <= w && x % 2 == 0
      invariant Filled(out[..], img, Place(w, x, row))
    {
      InBlock(img, x, y);
      var cu := RgbToCb(Pixel(img, x, y)) + RgbToCb(Pixel(img, x + 1, y))
                + RgbToCb(Pixel(img, x, y + 1)) + RgbToCb(Pixel(img, x + 1, y + 1));
      var cv := RgbToCr(Pixel(img, x, y)) + RgbToCr(Pixel(img, x + 1, y))
                + RgbToCr(Pixel(img, x, y + 1)) + RgbToCr(Pixel(img, x + 1, y + 1));
      InResult(img, x, row);
      InResult(img, x + 1, row);
      PutByte(out, img, x, row, Clamp8(cu / 1024));
      PutByte(out, img, x + 1, row, Clamp8(cv / 1024));
      x := x + 2;
    }
    if x < w {
      InRgb(img, x, y);
      InRgb(img, x, y + 1);
      InResult(img, x, row);
      var cu := (RgbToCb(Pixel(img, x, y)) + RgbToCb(Pixel(img, x, y + 1))) / 2;
      PutByte(out, img, x, row, Clamp8(cu / 256));
    }
    NextRow(w, row);
  }

  lemma InBlock(img: Image, x: nat, y: nat)
    requires IsRgb(img) && x + 1 < img.width && y + 1 < img.height
    ensures 3 * Place(img.width, x, y) + 3 <= |img.data| && 3 * Place(img.width, x + 1, y) + 3 <= |img.data|
    ensures 3 * Place(img.width, x, y + 1) + 3 <= |img.data| && 3 * Place(img.width, x + 1, y + 1) + 3 <= |img.data|
  {
    InRgb(img, x, y);
    InRgb(img, x + 1, y);
    InRgb(img, x, y + 1);
    InRgb(img, x + 1, y + 1);
  }

  /** The short chroma row of an odd height, from one line of pixels, as far as it goes. */
  method TailRow(out: array<Byte>, img: Image)
    requires IsRgb(img) && img.height % 2 == 1 && out.Length == Nv12Size(img.width, img.height)
    requires Filled(out[..], img, Place(img.width, 0, img.height + img.height / 2))
    modifies out
    ensures Filled(out[..], img, out.Length)
  {
    hide Filled, Place, IsRgb, Nv12Size, RgbToCb, RgbToCr, Clamp8;
    var w, row, y := img.width, img.height + img.height / 2, img.height - 1;
    Nv12SizeIs(w, img.height);
    TailPlaces(w, row);
    var x := 0;
    while x + 1 < w / 2
      invariant x <= w / 2 && x % 2 == 0
      invariant Filled(out[..], img, Place(w, x, row))
    {
      InRgb(img, x, y);
      InRgb(img, x + 1, y);
      var cu := (RgbToCb(Pixel(img, x, y)) + RgbToCb(Pixel(img, x + 1, y))) / 2;
      var cv := (RgbToCr(Pixel(img, x, y)) + RgbToCr(Pixel(img, x + 1, y))) / 2;
      PutByte(out, img, x, row, Clamp8(cu / 256));
      PutByte(out, img, x + 1, row, Clamp8(cv / 256));
      x := x + 2;
    }
    LastIsZero(out[..], img, x);
  }

  lemma TailPlaces(w: nat, row: nat)
    ensures forall x: nat | x < w / 2 :: Place(w, x, row) < Place(w, w / 2, row)
  {
  }

  /** A last odd byte of the short row is never written. */
  lemma LastIsZero(out: seq<Byte>, img: Image, x: nat)
    requires IsRgb(img) && img.height % 2 == 1 && |out| == Nv12Size(img.width, img.height)
    requires x % 2 == 0 && img.width / 2 - 1 <= x <= img.width / 2
    requires Filled(out, img, Place(img.width, x, img.height + img.height / 2))
    ensures Filled(out, img, |out|)
  {
    hide Place, IsRgb, Nv12Size, LumaAt, BlockCb, BlockCr, CbAt, CrAt;
    var (w, h) := (img.width, img.height);
    var last := h + h / 2;
    Nv12SizeIs(w, h);
    forall x': nat, row: nat | x' < w && row < RowsOf(h) && Place(w, x', row) < |out|
      ensures out[Place(w, x', row)] == if Place(w, x', row) < |out| then Sampled(img, x', row) else 0
    {
      if Place(w, x', row) >= Place(w, x, last) {
        if row < last {
          RowsApart(w, x', row, last);
          PlaceGrows(w, 0, x, last);
        } else if x' < x {
          PlaceGrows(w, x', x, last);
        } else {
          assert Sampled(img, x', row) == 0;
        }
      }
    }
  }

  lemma PlaceGrows(w: nat, x: nat, x': nat, y: nat)
    ensures Place(w, x', y) - Place(w, x, y) == x' - x
  {
  }

  /** w * h * 3, as the program computes it. */
  function RgbSize(w: nat, h: nat): nat {
    w * h * 3
  }

  lemma RgbSizeIs(w: nat, h: nat)
    ensures RgbSize(w, h) == 3 * Place(w, 0, h)
  {
  }

  method LumaPlane(out: array<Byte>, img: Image)
    requires IsRgb(img) && out.Length == Nv12Size(img.width, img.height) && Filled(out[..], img, 0)
    modifies out
    ensures Filled(out[..], img, Place(img.width, 0, img.height))
  {
    hide Nv12Size, Filled, Place, IsRgb;
    NextRow(img.width, 0);
    var y := 0;
    while y < img.height
      invariant y <= img.height
      invariant Filled(out[..], img, Place(img.width, 0, y))
    {
      LumaRow(out, img, y);
      y := y + 1;
    }
  }

  method ChromaPlane(out: array<Byte>, img: Image)
    requires IsRgb(img) && out.Length == Nv12Size(img.width, img.height)
    requires Filled(out[..], img, Place(img.width, 0, img.height))
    modifies out
    ensures Filled(out[..], img, out.Length)
  {
    hide Nv12Size, Filled, Place, IsRgb;
    var rows := img.height / 2;
    var k := 0;
    while k < rows
      invariant k <= rows
      invariant Filled(out[..], img, Place(img.width, 0, img.height + k))
    {
      ChromaRow(out, img, k);
      k := k + 1;
    }
    if img.height % 2 == 1 {
      TailRow(out, img);
    } else {
      Nv12SizeIs(img.width, img.height);
    }
  }

  /** Where the program panics: on chunks of no bytes. */
  predicate Rgb24Panics(img: Image) {
    img.format == Rgb24 && |img.data| == RgbSize(img.width, img.height) && img.width == 0
  }

  method Rgb24ToNv12(img: Image) returns (r: Conversion)
    requires !Rgb24Panics(img)
    ensures img.format != Rgb24 ==> r == InvalidFormat(Rgb24, img.format)
    ensures img.format == Rgb24 && |img.data| != RgbSize(img.width, img.height) ==>
              r == InvalidDimensions(img.width, img.height, |img.data|)
    ensures img.format == Rgb24 && |img.data| == RgbSize(img.width, img.height) ==>
              IsRgb(img) && r.Converted? && Nv12Of(img, r.image)
  {
    hide Nv12Size, RgbSize, Filled, Place, Nv12Of;
    if img.format != Rgb24 {
      return InvalidFormat(Rgb24, img.format);
    }
    var w, h := img.width, img.height;
    if |img.data| != RgbSize(w, h) {
      return InvalidDimensions(w, h, |img.data|);
    }
    RgbSizeIs(w, h);
    var out := new Byte[Nv12Size(w, h)](_ => 0);
    StartsEmpty(out[..], img);
    LumaPlane(out, img);
    ChromaPlane(out, img);
    FilledAll(out[..], img);
    return Converted(Image(w, h, Nv12, out[..]));
  }

  // ---- What the conversions keep ----

  ghost function ColourAt(img: Image, x: nat, y: nat): Rgb
    requires IsRgb(img) && x < img.width && y < img.height
  {
    InRgb(img, x, y);
    Pixel(img, x, y)
  }

  /** Every paired pixel of the converted image is within one, in each channel, of the
      rounded real formula on the bytes it was made from. */
  lemma ImageIsClose(nv: Image, rgb: Image, x: nat, y: nat)
    requires IsNv12(nv) && RgbOf(nv, rgb) && x < nv.width && y < nv.height && x - x % 2 + 1 < nv.width
    ensures var (pair, row) := (x - x % 2, nv.height + y / 2);
            && Place(nv.width, x, y) < |nv.data| && Place(nv.width, pair, row) < |nv.data|
            && Place(nv.width, pair + 1, row) < |nv.data|
            && var (l, cb, cr) := (Cell(nv, x, y), Cell(nv, pair, row) - 128, Cell(nv, pair + 1, row) - 128);
               var q := ColourAt(rgb, x, y);
               && Within(1, q.r, Reference(l as real + 1.402 * cr as real))
               && Within(1, q.g, Reference(l as real - 0.344 * cb as real - 0.714 * cr as real))
               && Within(1, q.b, Reference(l as real + 1.772 * cb as real))
  {
    hide Place, Within, Reference, YcbcrToRgb;
    var (pair, row) := (x - x % 2, nv.height + y / 2);
    InNv12(nv, x, y);
    InNv12(nv, pair, row);
    InNv12(nv, pair + 1, row);
    InRgb(rgb, x, y);
    assert ColourAt(rgb, x, y) == Shown(nv, x, y);
    PixelIsClose(Cell(nv, x, y), Cell(nv, pair, row) - 128, Cell(nv, pair + 1, row) - 128);
  }

  /** No block's chroma needs its clamp: it is the average of four, rounded down. */
  lemma BlockNeedsNoClamp(img: Image, x: nat, y: nat)
    requires IsRgb(img) && x + 1 < img.width && y + 1 < img.height
    ensures BlockCb(img, x, y) ==
            (CbAt(img, x, y) + CbAt(img, x + 1, y) + CbAt(img, x, y + 1) + CbAt(img, x + 1, y + 1)) / 1024
    ensures BlockCr(img, x, y) ==
            (CrAt(img, x, y) + CrAt(img, x + 1, y) + CrAt(img, x, y + 1) + CrAt(img, x + 1, y + 1)) / 1024
  {
    hide Place, RgbToCb, RgbToCr;
    InBlock(img, x, y);
    ChromaRange(Pixel(img, x, y));
    ChromaRange(Pixel(img, x + 1, y));
    ChromaRange(Pixel(img, x, y + 1));
    ChromaRange(Pixel(img, x + 1, y + 1));
  }

  /** Every 2 by 2 block has one colour. */
  ghost predicate Blocky(img: Image)
    requires IsRgb(img)
  {
    forall x: nat, y: nat | x < img.width && y < img.height ::
      ColourAt(img, x, y) == ColourAt(img, x - x % 2, y - y % 2)
  }

  lemma BlockyChroma(img: Image, x: nat, y: nat)
    requires IsRgb(img) && Blocky(img) && x % 2 == 0 && y % 2 == 0 && x + 1 < img.width && y + 1 < img.height
    ensures BlockCb(img, x, y) == RgbToCb(ColourAt(img, x, y)) / 256
    ensures BlockCr(img, x, y) == RgbToCr(ColourAt(img, x, y)) / 256
  {
    hide IsRgb, Place, Clamp8, BlockCb, BlockCr, RgbToCb, RgbToCr, Pixel;
    BlockNeedsNoClamp(img, x, y);
    var p := ColourAt(img, x, y);
    assert ColourAt(img, x + 1, y) == p && ColourAt(img, x, y + 1) == p && ColourAt(img, x + 1, y + 1) == p;
    var (cb, cr) := (RgbToCb(p), RgbToCr(p));
    assert CbAt(img, x, y) == CbAt(img, x + 1, y) == CbAt(img, x, y + 1) == CbAt(img, x + 1, y + 1) == cb;
    assert CrAt(img, x, y) == CrAt(img, x + 1, y) == CrAt(img, x, y + 1) == CrAt(img, x + 1, y + 1) == cr;
    Quarter(cb);
    Quarter(cr);
  }

  lemma Quarter(c: int)
    ensures (c + c + c + c) / 1024 == c / 256
  {
    var (q, r) := (c / 256, c % 256);
    assert c + c + c + c == 1024 * q + 4 * r;
  }

  lemma BlockyHere(img: Image, x: nat, y: nat)
    requires IsRgb(img) && Blocky(img) && x < img.width && y < img.height
    ensures ColourAt(img, x, y) == ColourAt(img, x - x % 2, y - y % 2)
  {
  }

  /** The bytes that the second conversion reads for a pixel are those its colour gives. */
  lemma BlockyCells(img: Image, nv: Image, x: nat, y: nat)
    requires IsRgb(img) && img.width % 2 == 0 && img.height % 2 == 0 && Blocky(img)
    requires Nv12Of(img, nv) && IsNv12(nv) && x < img.width && y < img.height
    ensures var (pair, row, p) := (x - x % 2, img.height + y / 2, ColourAt(img, x, y));
            && Place(nv.width, x, y) < |nv.data| && Place(nv.width, pair, row) < |nv.data|
            && Place(nv.width, pair + 1, row) < |nv.data|
            && Cell(nv, x, y) == RgbToY(p)
            && Cell(nv, pair, row) == RgbToCb(p) / 256
            && Cell(nv, pair + 1, row) == RgbToCr(p) / 256
  {
    hide Place, Blocky, RgbToY, RgbToCb, RgbToCr, BlockCb, BlockCr, IsNv12, Nv12Size;
    var (pair, row) := (x - x % 2, img.height + y / 2);
    InNv12(nv, x, y);
    InNv12(nv, pair, row);
    InNv12(nv, pair + 1, row);
    assert y - y % 2 == 2 * (row - img.height);
    BlockyHere(img, x, y);
    BlockyChroma(img, pair, y - y % 2);
    assert Sampled(img, x, y) == RgbToY(ColourAt(img, x, y));
    assert Sampled(img, pair, row) == BlockCb(img, pair, y - y % 2);
    assert Sampled(img, pair + 1, row) == BlockCr(img, pair, y - y % 2);
  }

  /** An image whose 2 by 2 blocks are of one colour each, of even width and height, comes
      back from NV12 with no channel of any pixel off by more than 3. */
  lemma BlocksSurvive(img: Image, nv: Image, back: Image, x: nat, y: nat)
    requires IsRgb(img) && img.width % 2 == 0 && img.height % 2 == 0 && Blocky(img)
    requires Nv12Of(img, nv) && (IsNv12(nv) ==> RgbOf(nv, back))
    requires x < img.width && y < img.height
    ensures IsNv12(nv) && IsRgb(back) && back.width == img.width && back.height == img.height
    ensures var (p, q) := (ColourAt(img, x, y), ColourAt(back, x, y));
            Within(3, q.r, p.r) && Within(3, q.g, p.g) && Within(3, q.b, p.b)
  {
    hide Place, Blocky, Within, YcbcrToRgb, RgbToY, RgbToCb, RgbToCr, IsNv12, Nv12Of;
    ResultIsNv12(img, nv);
    assert nv.width == img.width && nv.height == img.height by { SameSize(img, nv); }
    BlockyCells(img, nv, x, y);
    ColourSurvives(ColourAt(img, x, y));
    InRgb(back, x, y);
    assert Pixel(back, x, y) == Shown(nv, x, y);
  }

  /** Of an even height the first conversion makes what the second accepts. */
  lemma ResultIsNv12(img: Image, nv: Image)
    requires IsRgb(img) && img.height % 2 == 0 && Nv12Of(img, nv)
    ensures IsNv12(nv) && |nv.data| == Nv12Size(nv.width, nv.height)
  {
    hide Place, Nv12Size;
    Nv12SizeIs(img.width, img.height);
  }

  lemma SameSize(img: Image, nv: Image)
    requires IsRgb(img) && Nv12Of(img, nv)
    ensures nv.width == img.width && nv.height == img.height
  {
  }

  /** What the first conversion makes of an odd height, the second cannot read. */
  lemma OddHeightDoesNotComeBack(img: Image, nv: Image)
    requires IsRgb(img) && img.height % 2 == 1 && Nv12Of(img, nv)
    ensures Nv12Panics(nv) && !ChromaInData(nv.width, nv.height, nv.height - 1)
  {
    hide Place, Nv12Size;
    ChromaInDataExactly(nv.width, nv.height);
  }

  /** There and back, by the two conversions. */
  method ThereAndBack(img: Image) returns (back: Image)
    requires IsRgb(img) && img.width % 2 == 0 && img.height % 2 == 0
    ensures IsRgb(back) && back.width == img.width && back.height == img.height
    ensures Blocky(img) ==>
              forall x: nat, y: nat | x < img.width && y < img.height ::
                var (p, q) := (ColourAt(img, x, y), ColourAt(back, x, y));
                Within(3, q.r, p.r) && Within(3, q.g, p.g) && Within(3, q.b, p.b)
  {
    hide Place, Nv12Size, Nv12Of, RgbOf, Blocky, Within, ColourAt, RgbSize;
    RgbSizeIs(img.width, img.height);
    var there := Rgb24ToNv12(img);
    var nv := there.image;
    ResultIsNv12(img, nv);
    SameSize(img, nv);
    var andBack := Nv12ToRgb24(nv);
    back := andBack.image;
    BackIsRgb(nv, back);
    if Blocky(img) {
      forall x: nat, y: nat | x < img.width && y < img.height
        ensures var (p, q) := (ColourAt(img, x, y), ColourAt(back, x, y));
                Within(3, q.r, p.r) && Within(3, q.g, p.g) && Within(3, q.b, p.b)
      {
        BlocksSurvive(img, nv, back, x, y);
      }
    }
  }

  lemma BackIsRgb(nv: Image, back: Image)
    requires IsNv12(nv) && RgbOf(nv, back)
    ensures IsRgb(back) && back.width == nv.width && back.height == nv.height
  {
  }
}
