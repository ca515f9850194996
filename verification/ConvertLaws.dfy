/** What the conversion to NV12 makes of every image, byte by byte, in terms of the image's
    own pixels. */
module ConvertLaws {
  import opened Color
  import opened Common
  import opened Convert

  /** The byte at column x of a row of the result is within the data. */
  lemma InRow(img: Image, nv: Image, x: nat, row: nat)
    requires IsRgb(img) && Nv12Of(img, nv) && x < img.width && row < img.height + img.height / 2
    ensures Place(nv.width, x, row) < |nv.data|
    ensures Cell(nv, x, row) == Sampled(img, x, row)
  {
    hide Place, Nv12Size, Sampled, IsRgb;
    InResult(img, x, row);
  }

  /** Each luma byte is that of its own pixel: exactly the fixed-point luma, and within 1 of
      the rounded real one. */
  lemma LumaOfEveryPixel(img: Image, nv: Image, x: nat, y: nat)
    requires IsRgb(img) && Nv12Of(img, nv) && x < img.width && y < img.height
    ensures Place(nv.width, x, y) < |nv.data|
    ensures var (l, p) := (nv.data[Place(nv.width, x, y)], ColourAt(img, x, y));
            && l == (77 * p.r + 150 * p.g + 29 * p.b + 128) / 256
            && Within(1, l, Reference(0.299 * p.r as real + 0.587 * p.g as real + 0.114 * p.b as real))
  {
    hide Place, IsRgb, Nv12Of, RgbToCb, RgbToCr, Reference, Within;
    InRow(img, nv, x, y);
    LumaIsClose(ColourAt(img, x, y));
    LumaNeedsNoClamp(ColourAt(img, x, y));
  }

  /** The bytes of a whole block: of either component, the mean of its four pixels' chroma
      rounded down, within 1 of the rounded mean of the real chroma. */
  lemma ChromaOfEveryBlock(img: Image, nv: Image, x: nat, k: nat)
    requires IsRgb(img) && Nv12Of(img, nv) && x % 2 == 0 && x + 1 < img.width && 2 * k + 1 < img.height
    ensures Place(nv.width, x, img.height + k) < |nv.data| && Place(nv.width, x + 1, img.height + k) < |nv.data|
    ensures var (a, b) := (ColourAt(img, x, 2 * k), ColourAt(img, x + 1, 2 * k));
            var (c, d) := (ColourAt(img, x, 2 * k + 1), ColourAt(img, x + 1, 2 * k + 1));
            var u := nv.data[Place(nv.width, x, img.height + k)];
            var v := nv.data[Place(nv.width, x + 1, img.height + k)];
            && u == (RgbToCb(a) + RgbToCb(b) + RgbToCb(c) + RgbToCb(d)) / 1024
            && v == (RgbToCr(a) + RgbToCr(b) + RgbToCr(c) + RgbToCr(d)) / 1024
            && Within(1, u, Reference((RealCb(a) + RealCb(b) + RealCb(c) + RealCb(d)) / 4.0))
            && Within(1, v, Reference((RealCr(a) + RealCr(b) + RealCr(c) + RealCr(d)) / 4.0))
  {
    hide Place, IsRgb, Nv12Of, RgbToCb, RgbToCr, RealCb, RealCr, Reference, Within, Clamp8, BlockCb, BlockCr, Pixel;
    BlockCells(img, nv, x, k);
    BlockNeedsNoClamp(img, x, 2 * k);
    var (a, b) := (ColourAt(img, x, 2 * k), ColourAt(img, x + 1, 2 * k));
    var (c, d) := (ColourAt(img, x, 2 * k + 1), ColourAt(img, x + 1, 2 * k + 1));
    FourAreClose(a, b, c, d);
    BlockIsClamped(img, x, 2 * k);
  }

  /** The two bytes are those of the block. */
  lemma BlockCells(img: Image, nv: Image, x: nat, k: nat)
    requires IsRgb(img) && Nv12Of(img, nv) && x % 2 == 0 && x + 1 < img.width && 2 * k + 1 < img.height
    ensures Place(nv.width, x, img.height + k) < |nv.data| && Place(nv.width, x + 1, img.height + k) < |nv.data|
    ensures nv.data[Place(nv.width, x, img.height + k)] == BlockCb(img, x, 2 * k)
    ensures nv.data[Place(nv.width, x + 1, img.height + k)] == BlockCr(img, x, 2 * k)
  {
    hide Place, IsRgb, Nv12Of, BlockCb, BlockCr, LumaAt, CbAt, CrAt;
    InRow(img, nv, x, img.height + k);
    InRow(img, nv, x + 1, img.height + k);
  }

  lemma BlockIsClamped(img: Image, x: nat, y: nat)
    requires IsRgb(img) && x + 1 < img.width && y + 1 < img.height
    ensures var (a, b) := (ColourAt(img, x, y), ColourAt(img, x + 1, y));
            var (c, d) := (ColourAt(img, x, y + 1), ColourAt(img, x + 1, y + 1));
            && BlockCb(img, x, y) == Clamp8((RgbToCb(a) + RgbToCb(b) + RgbToCb(c) + RgbToCb(d)) / 1024)
            && BlockCr(img, x, y) == Clamp8((RgbToCr(a) + RgbToCr(b) + RgbToCr(c) + RgbToCr(d)) / 1024)
  {
    hide Place, IsRgb, RgbToCb, RgbToCr, Clamp8, Pixel;
  }

  lemma FourAreClose(a: Rgb, b: Rgb, c: Rgb, d: Rgb)
    ensures Within(1, Clamp8((RgbToCb(a) + RgbToCb(b) + RgbToCb(c) + RgbToCb(d)) / 1024),
                   Reference((RealCb(a) + RealCb(b) + RealCb(c) + RealCb(d)) / 4.0))
    ensures Within(1, Clamp8((RgbToCr(a) + RgbToCr(b) + RgbToCr(c) + RgbToCr(d)) / 1024),
                   Reference((RealCr(a) + RealCr(b) + RealCr(c) + RealCr(d)) / 4.0))
  {
    hide RgbToCb, RgbToCr, RealCb, RealCr, Reference, Within, Clamp8;
    ChromaIsClose(a);
    ChromaIsClose(b);
    ChromaIsClose(c);
    ChromaIsClose(d);
    MeanOfFour(RgbToCb(a) + RgbToCb(b) + RgbToCb(c) + RgbToCb(d), RealCb(a) + RealCb(b) + RealCb(c) + RealCb(d));
    MeanOfFour(RgbToCr(a) + RgbToCr(b) + RgbToCr(c) + RgbToCr(d), RealCr(a) + RealCr(b) + RealCr(c) + RealCr(d));
  }

  /** Halving and then dividing by 256 is dividing by 512. */
  lemma TwoAreClose(a: Rgb, b: Rgb)
    ensures (RgbToCb(a) + RgbToCb(b)) / 2 / 256 == (RgbToCb(a) + RgbToCb(b)) / 512
    ensures (RgbToCr(a) + RgbToCr(b)) / 2 / 256 == (RgbToCr(a) + RgbToCr(b)) / 512
    ensures 0 <= (RgbToCb(a) + RgbToCb(b)) / 512 <= 255 && 0 <= (RgbToCr(a) + RgbToCr(b)) / 512 <= 255
    ensures Within(1, Clamp8((RgbToCb(a) + RgbToCb(b)) / 512), Reference((RealCb(a) + RealCb(b)) / 2.0))
    ensures Within(1, Clamp8((RgbToCr(a) + RgbToCr(b)) / 512), Reference((RealCr(a) + RealCr(b)) / 2.0))
  {
    hide RgbToCb, RgbToCr, RealCb, RealCr, Reference, Within, Clamp8;
    ChromaIsClose(a);
    ChromaIsClose(b);
    ChromaRange(a);
    ChromaRange(b);
    MeanOfTwo(RgbToCb(a) + RgbToCb(b), RealCb(a) + RealCb(b));
    MeanOfTwo(RgbToCr(a) + RgbToCr(b), RealCr(a) + RealCr(b));
  }

  /** The last column of an odd width has one component, from its two pixels. */
  lemma LastColumn(img: Image, nv: Image, k: nat)
    requires IsRgb(img) && Nv12Of(img, nv) && img.width % 2 == 1 && k < img.height / 2
    ensures Place(nv.width, img.width - 1, img.height + k) < |nv.data|
    ensures var x := img.width - 1;
            var (a, b) := (ColourAt(img, x, 2 * k), ColourAt(img, x, 2 * k + 1));
            var u := nv.data[Place(nv.width, x, img.height + k)];
            && u == (RgbToCb(a) + RgbToCb(b)) / 512
            && Within(1, u, Reference((RealCb(a) + RealCb(b)) / 2.0))
  {
    hide Place, IsRgb, Nv12Of, RgbToCb, RgbToCr, RealCb, RealCr, Reference, Within, RgbToY;
    var x := img.width - 1;
    InRow(img, nv, x, img.height + k);
    TwoAreClose(ColourAt(img, x, 2 * k), ColourAt(img, x, 2 * k + 1));
  }

  /** The short last row of an odd height has both components of each pair of pixels as far
      as it goes, and ends in a zero where it has no room for both. */
  lemma LastRow(img: Image, nv: Image, x: nat)
    requires IsRgb(img) && Nv12Of(img, nv) && img.height % 2 == 1 && x % 2 == 0 && x < img.width / 2
    ensures Place(nv.width, x, img.height + img.height / 2) < |nv.data|
    ensures var (row, y) := (img.height + img.height / 2, img.height - 1);
            var (a, b) := (ColourAt(img, x, y), ColourAt(img, x + 1, y));
            if x + 1 < img.width / 2
            then Place(nv.width, x + 1, row) < |nv.data|
                 && var (u, v) := (nv.data[Place(nv.width, x, row)], nv.data[Place(nv.width, x + 1, row)]);
                    && u == (RgbToCb(a) + RgbToCb(b)) / 512 && v == (RgbToCr(a) + RgbToCr(b)) / 512
                    && Within(1, u, Reference((RealCb(a) + RealCb(b)) / 2.0))
                    && Within(1, v, Reference((RealCr(a) + RealCr(b)) / 2.0))
            else nv.data[Place(nv.width, x, row)] == 0
  {
    hide Place, IsRgb, Nv12Of, RgbToCb, RgbToCr, RealCb, RealCr, Reference, Within, RgbToY, Nv12Size;
    InLastRow(img, nv, x);
    TwoAreClose(ColourAt(img, x, img.height - 1), ColourAt(img, x + 1, img.height - 1));
    if x + 1 < img.width / 2 {
      InLastRow(img, nv, x + 1);
    }
  }

  lemma InLastRow(img: Image, nv: Image, x: nat)
    requires IsRgb(img) && Nv12Of(img, nv) && img.height % 2 == 1 && x < img.width / 2
    ensures Place(nv.width, x, img.height + img.height / 2) < |nv.data|
    ensures Cell(nv, x, img.height + img.height / 2) == Sampled(img, x, img.height + img.height / 2)
  {
    hide Place, Nv12Size, Sampled, IsRgb;
    Nv12SizeIs(img.width, img.height);
    PlaceGrows(img.width, x, img.width / 2, img.height + img.height / 2);
  }

  /** The other way: a last odd column has no chroma and is black. */
  lemma LastColumnIsBlack(nv: Image, rgb: Image, y: nat)
    requires IsNv12(nv) && RgbOf(nv, rgb) && nv.width % 2 == 1 && y < nv.height
    ensures ColourAt(rgb, nv.width - 1, y) == Rgb(0, 0, 0)
  {
    hide Place, IsRgb, IsNv12;
    InRgb(rgb, nv.width - 1, y);
    LastIsBlack(nv, y);
  }
}
