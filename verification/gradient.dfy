/** The gradient writer of 1/main2.cpp: an `Image` of `RGB` pixels built
    column by column (i over the width outer, j over the height inner), and
    `output`, which prints it as a plain PPM ("P3") text. The printed lines
    are modelled as words and integer lists rather than characters. */
module Gradients {
  import opened Common

  /** One pixel. */
  datatype Rgb = Rgb(r: byte, g: byte, b: byte)

  /** The image: its dimensions and the pixels in the order they were
      pushed. */
  datatype Image = Image(width: nat, height: nat, pixels: seq<Rgb>)

  /** One line of the P3 text: a word, or integers separated by spaces. */
  datatype Line = Word(text: string) | Numbers(values: seq<int>)

  /** The colour range the constructor clamps `wrap` to. */
  const MAX_WRAP: int := 255

  /** The remainder of C++ `%` for a non-negative dividend: division
      truncates toward zero, so the remainder is non-negative and the sign
      of the divisor does not matter. */
  function CRem(a: nat, b: int): (r: nat)
    requires b != 0
    ensures r < a + 1 && (b > 0 ==> r < b) && (b < 0 ==> r < -b)
    ensures a < b || a < -b ==> r == a
  {
    if b > 0 then a % b else a % -b
  }

  /** The wrap the constructor uses: values above 255 are clamped to 255. */
  function ClampWrap(wrap: int): int {
    if wrap > MAX_WRAP then MAX_WRAP else wrap
  }

  /** The pixel pushed for column i, row j. Its blue component is never
      assigned in the source, so it is whatever `blue` says. */
  function Cell(i: nat, j: nat, wrap: int, blue: (nat, nat) -> byte): Rgb
    requires wrap != 0
  {
    var w := ClampWrap(wrap);
    Rgb(ToByte(CRem(i, w)), ToByte(CRem(j, w)), blue(i, j))
  }

  /** A positive wrap bounds both colour channels: red is i mod wrap and
      green is j mod wrap, both below the (clamped) wrap. */
  lemma CellChannels(i: nat, j: nat, wrap: int, blue: (nat, nat) -> byte)
    requires 0 < wrap
    ensures var c := Cell(i, j, wrap, blue);
      && c.r == i % ClampWrap(wrap) && c.g == j % ClampWrap(wrap)
      && c.r < wrap && c.g < wrap && c.r < MAX_WRAP && c.g < MAX_WRAP
  {
  }

  /** n blocks of h values, block i holding f(i, 0) .. f(i, h - 1): the
      order of two nested loops, i outer and j inner. */
  function Blocks<T>(n: nat, h: nat, f: (nat, nat) --> T): (r: seq<T>)
    requires forall i: nat, j: nat :: i < n && j < h ==> f.requires(i, j)
    ensures |r| == n * h
  {
    if n == 0 then [] else Blocks(n - 1, h, f) + seq(h, j requires 0 <= j < h => f(n - 1, j))
  }

  /** Element i * h + j of the nested loops' output is f(i, j). */
  lemma {:induction false} BlocksAt<T>(n: nat, h: nat, f: (nat, nat) --> T, i: nat, j: nat)
    requires forall i: nat, j: nat :: i < n && j < h ==> f.requires(i, j)
    requires i < n && j < h
    ensures 0 <= i * h + j < |Blocks(n, h, f)| && Blocks(n, h, f)[i * h + j] == f(i, j)
  {
    var prev := Blocks(n - 1, h, f);
    assert |prev| == (n - 1) * h;
    if i < n - 1 {
      BlocksAt(n - 1, h, f, i, j);
      assert Blocks(n, h, f)[i * h + j] == prev[i * h + j];
    } else {
      assert i * h == |prev|;
    }
  }

  /** `Cell` as a function of the loop counters. */
  function Cells(wrap: int, blue: (nat, nat) -> byte): (nat, nat) -> Rgb
    requires wrap != 0
  {
    (i: nat, j: nat) => Cell(i, j, wrap, blue)
  }

  /** The pixels the constructor pushes for a w x h image. */
  function Gradient(w: nat, h: nat, wrap: int, blue: (nat, nat) -> byte): seq<Rgb>
    requires wrap != 0
  {
    Blocks(w, h, Cells(wrap, blue))
  }

  /** Image::Image: width w, height h and w * h pixels, the one of column i,
      row j at position i * h + j. A zero wrap divides by zero, hence the
      precondition. */
  method NewImage(w: nat, h: nat, wrap: int, blue: (nat, nat) -> byte) returns (img: Image)
    requires wrap != 0
    ensures img.width == w && img.height == h && |img.pixels| == w * h
    ensures img.pixels == Gradient(w, h, wrap, blue)
    ensures forall i: nat, j: nat | i < w && j < h ::
      i * h + j < |img.pixels| && img.pixels[i * h + j] == Cell(i, j, wrap, blue)
  {
    var f := Cells(wrap, blue);
    var pixels: seq<Rgb> := [];
    var i := 0;
    while i < w
      invariant i <= w && pixels == Blocks(i, h, f)
    {
      var column: seq<Rgb> := [];
      var j := 0;
      while j < h
        invariant j <= h && |column| == j
        invariant forall k | 0 <= k < j :: column[k] == f(i, k)
      {
        column := column + [Cell(i, j, wrap, blue)];
        j := j + 1;
      }
      assert column == seq(h, k requires 0 <= k < h => f(i, k));
      pixels := pixels + column;
      i := i + 1;
    }
    img := Image(w, h, pixels);
    forall i: nat, j: nat | i < w && j < h
      ensures i * h + j < |img.pixels| && img.pixels[i * h + j] == Cell(i, j, wrap, blue)
    {
      BlocksAt(w, h, f, i, j);
    }
  }

  /** j * w + i, the index `output` reads, is inside a w x h image. */
  lemma OutputIndexInRange(w: nat, h: nat, i: nat, j: nat)
    requires i < w && j < h
    ensures 0 <= j * w + i < w * h && j * w + i < h * w
  {
    assert (j + 1) * w == j * w + w;
    assert (j + 1) * w <= h * w by {
      var d: nat := h - (j + 1);
      assert h * w == (j + 1) * w + d * w;
    }
  }

  /** The text of one pixel: its three channels as integers. */
  function PixelLine(p: Rgb): Line {
    Numbers([p.r, p.g, p.b])
  }

  /** The three header lines: magic number, dimensions, maximum value. */
  function Header(img: Image): seq<Line> {
    [Word("P3"), Numbers([img.width, img.height]), Numbers([MAX_WRAP])]
  }

  /** Image::output as written: the header, then for i over the width
      (outer) and j over the height (inner) the pixel at j * width + i. */
  function Output(img: Image): (lines: seq<Line>)
    requires |img.pixels| == img.width * img.height
    ensures |lines| == 3 + img.width * img.height && lines[..3] == Header(img)
  {
    Header(img) + Blocks(img.width, img.height, OutputCells(img))
  }

  /** The line `output` prints for loop counters i, j. */
  function OutputCells(img: Image): (nat, nat) --> Line
    requires |img.pixels| == img.width * img.height
  {
    var w, h := img.width, img.height;
    (i: nat, j: nat) requires i < w && j < h =>
      OutputIndexInRange(w, h, i, j); PixelLine(img.pixels[j * w + i])
  }

  /** Line 3 + i * height + j of `output` prints the pixel at j * width + i;
      that index is always inside the image. */
  lemma {:induction false} OutputAt(img: Image, i: nat, j: nat)
    requires |img.pixels| == img.width * img.height
    requires i < img.width && j < img.height
    ensures j * img.width + i < |img.pixels|
    ensures 3 + i * img.height + j < |Output(img)|
    ensures Output(img)[3 + i * img.height + j] == PixelLine(img.pixels[j * img.width + i])
  {
    var w, h := img.width, img.height;
    OutputIndexInRange(w, h, i, j);
    var p := img.pixels[j * w + i];
    var b := Blocks(w, h, OutputCells(img));
    BlocksAt(w, h, OutputCells(img), i, j);
    AfterHeader(Header(img), b, i * h + j);
    assert OutputCells(img)(i, j) == PixelLine(p);
  }

  /** Element k of the lines after a three-line header. */
  lemma AfterHeader(header: seq<Line>, body: seq<Line>, k: nat)
    requires |header| == 3 && k < |body|
    ensures (header + body)[3 + k] == body[k]
  {
  }

  /** What a P3 file means: the pixel of column x, row y is text line
      3 + y * width + x. This version prints, for y over the height (outer)
      and x over the width (inner), the pixel the constructor stored for
      column x, row y. */
  function OutputRowMajor(img: Image): (lines: seq<Line>)
    requires |img.pixels| == img.width * img.height
    ensures |lines| == 3 + img.height * img.width && lines[..3] == Header(img)
  {
    Header(img) + Blocks(img.height, img.width, RowMajorCells(img))
  }

  /** The line the row-major output prints for row y, column x. */
  function RowMajorCells(img: Image): (nat, nat) --> Line
    requires |img.pixels| == img.width * img.height
  {
    var w, h := img.width, img.height;
    (y: nat, x: nat) requires y < h && x < w =>
      OutputIndexInRange(h, w, y, x); PixelLine(img.pixels[x * h + y])
  }

  /** Text line 3 + y * width + x of the row-major output is the pixel of
      column x, row y. */
  lemma {:induction false} OutputRowMajorAt(img: Image, x: nat, y: nat)
    requires |img.pixels| == img.width * img.height
    requires x < img.width && y < img.height
    ensures x * img.height + y < |img.pixels|
    ensures 3 + y * img.width + x < |OutputRowMajor(img)|
    ensures OutputRowMajor(img)[3 + y * img.width + x] == PixelLine(img.pixels[x * img.height + y])
  {
    var w, h := img.width, img.height;
    OutputIndexInRange(h, w, y, x);
    var p := img.pixels[x * h + y];
    var b := Blocks(h, w, RowMajorCells(img));
    BlocksAt(h, w, RowMajorCells(img), y, x);
    AfterHeader(Header(img), b, y * w + x);
    assert RowMajorCells(img)(y, x) == PixelLine(p);
  }

  /** The row-major output of a constructed gradient shows, at column x and
      row y of the picture, red x mod wrap and green y mod wrap. */
  lemma {:induction false} GradientPicture(w: nat, h: nat, wrap: int, blue: (nat, nat) -> byte, x: nat, y: nat)
    requires wrap != 0 && x < w && y < h
    ensures 0 <= y * w + x < w * h
    ensures var img := Image(w, h, Gradient(w, h, wrap, blue));
      3 + y * w + x < |OutputRowMajor(img)|
      && OutputRowMajor(img)[3 + y * w + x] == PixelLine(Cell(x, y, wrap, blue))
  {
    var img := Image(w, h, Gradient(w, h, wrap, blue));
    OutputIndexInRange(w, h, x, y);
    OutputRowMajorAt(img, x, y);
    BlocksAt(w, h, Cells(wrap, blue), x, y);
  }

  /** For a square image the written output is the row-major one: reading
      index j * width + i with i outer is the transpose of the construction
      order, which is exactly the picture's row order. */
  lemma {:induction false} SquareOutputIsRowMajor(img: Image)
    requires |img.pixels| == img.width * img.height && img.width == img.height
    ensures Output(img) == OutputRowMajor(img)
  {
    var n := img.width;
    forall k | 3 <= k < 3 + n * n
      ensures Output(img)[k] == OutputRowMajor(img)[k]
    {
      var i, j := SplitSquareIndex(k - 3, n);
      OutputAt(img, i, j);
      OutputRowMajorAt(img, j, i);
    }
  }

  /** Position k of an n x n block order is block i, element j. */
  lemma SplitSquareIndex(k: nat, n: nat) returns (i: nat, j: nat)
    requires k < n * n
    ensures i < n && j < n && k == i * n + j
  {
    assert n != 0;
    i, j := k / n, k % n;
    assert i * n <= k;
    LessFromProduct(i, n, n);
  }

  /** A 3 x 2 gradient as written prints, on text line 4 = 3 + 0 * 3 + 1
      (the line of column 1, row 0), the pixel of column 1, row 1: its green
      is 1 where the picture needs 0. */
  lemma {:induction false} WideOutputScrambled(blue: (nat, nat) -> byte)
    ensures var img := Image(3, 2, Gradient(3, 2, 64, blue));
      && |Output(img)| == 9
      && Output(img)[4] == PixelLine(Cell(1, 1, 64, blue))
      && Cell(1, 1, 64, blue).g == 1 && Cell(1, 0, 64, blue).g == 0
      && Output(img)[4] != OutputRowMajor(img)[4]
  {
    var img := Image(3, 2, Gradient(3, 2, 64, blue));
    OutputAt(img, 0, 1);
    assert Output(img)[4] == PixelLine(img.pixels[3]);
    BlocksAt(3, 2, Cells(64, blue), 1, 1);
    assert img.pixels[3] == Cell(1, 1, 64, blue);
    GradientPicture(3, 2, 64, blue, 1, 0);
  }
}
