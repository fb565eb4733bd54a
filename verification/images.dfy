/** The `Image` class of 11/terrain/src/Image.cpp and
    13/particles/include/Image.hpp: a plain PPM ("P3") reader that takes one
    number per line, the optional "flip" that reverses the pixel order, and
    pixel addressing by `SetPixel` and `GetPixelR/G/B`.

    A file is its text (or nothing when it cannot be opened). The bytes of a
    freshly allocated `new uint8_t[n]` are indeterminate: they are given by
    the `allocate` parameter. Behaviour the C++ leaves undefined (a null
    token handed to `atoi`, a write past the buffer) is the `Undefined`
    outcome, and `exit(1)` is the `Exited` outcome. */
module Images {
  import opened Common
  import opened Text

  datatype Image = Image(
    path: string,
    data: seq<byte>,
    width: int,
    height: int,
    bpp: int,
    magic: string)

  /** How a call that may end the process or run into undefined behaviour
      comes out. */
  datatype Load = Loaded(image: Image) | Exited(image: Image) | Undefined

  /** The constructor: only the path is stored; width, height and bits per
      pixel start at 0 and there is no pixel data yet. */
  function NewImage(path: string): (r: Image)
    ensures r.path == path && r.data == [] && r.magic == []
    ensures GetWidth(r) == 0 && GetHeight(r) == 0 && GetBPP(r) == 0
  {
    Image(path, [], 0, 0, 0, [])
  }

  function GetWidth(img: Image): int { img.width }

  function GetHeight(img: Image): int { img.height }

  function GetBPP(img: Image): int { img.bpp }

  /** Number of bytes the pixel buffer of a `width` by `height` image holds. */
  function ByteCount(img: Image): int { img.width * img.height * 3 }

  // ---------------------------------------------------------------------
  // Addressing

  /** Byte offset of the red component of pixel (x, y) as the getters and
      `SetPixel` compute it: the image height serves as the row length. */
  function PixelOffset(height: int, x: int, y: int): int {
    x * 3 + height * (y * 3)
  }

  /** Byte offset of pixel (x, y) in a row-major image `width` pixels wide,
      which is how a PPM file lists its pixels. */
  function RowMajorOffset(width: int, x: int, y: int): int {
    3 * (x + width * y)
  }

  /** Row-major addressing gives every pixel of a `width` by `height` image
      its own three bytes inside the buffer. */
  lemma RowMajorAddressing(width: nat, height: nat, x: nat, y: nat, x': nat, y': nat)
    requires x < width && y < height && x' < width && y' < height
    ensures 0 <= RowMajorOffset(width, x, y) && RowMajorOffset(width, x, y) + 2 < width * height * 3
    ensures RowMajorOffset(width, x, y) == RowMajorOffset(width, x', y') ==> x == x' && y == y'
  {
    RowBound(width, height, x, y);
    if RowMajorOffset(width, x, y) == RowMajorOffset(width, x', y') {
      assert x + width * y == x' + width * y';
      if y < y' {
        RowsApart(width, y, y');
      } else if y' < y {
        RowsApart(width, y', y);
      }
    }
  }

  lemma RowBound(width: nat, height: nat, x: nat, y: nat)
    requires x < width && y < height
    ensures x + width * y < width * height
  {
    assert width * y <= width * (height - 1);
    assert width * (height - 1) == width * height - width;
  }

  lemma RowsApart(width: nat, y: nat, y': nat)
    requires y < y'
    ensures width * y + width <= width * y'
  {
    var d: nat := y' - y - 1;
    Distribute(width, y + 1, d);
    Distribute(width, y, 1);
    assert width * d >= 0;
  }

  lemma Distribute(a: int, b: int, c: int)
    ensures a * (b + c) == a * b + a * c
  {
  }

  /** For a square image the addressing as written is row-major addressing,
      so it is safe there. */
  lemma SquareAddressing(n: int, x: int, y: int)
    ensures PixelOffset(n, x, y) == RowMajorOffset(n, x, y)
  {
  }

  /** In an image wider than it is tall (and at least two rows high), pixel
      (height, 0) and pixel (0, 1) share their bytes. */
  lemma WideImageCollides(width: int, height: int)
    requires width > height >= 2
    ensures PixelOffset(height, height, 0) == PixelOffset(height, 0, 1)
    ensures 0 <= PixelOffset(height, 0, 1) && PixelOffset(height, 0, 1) + 2 < width * height * 3
  {
    assert width * height >= 3 * height by {
      assert width >= 3;
    }
  }

  /** In an image taller than it is wide, the last pixel is addressed past
      the end of the buffer. */
  lemma TallImageOverruns(width: int, height: int)
    requires 1 <= width < height
    ensures PixelOffset(height, width - 1, height - 1) + 2 >= width * height * 3
  {
    var w, h := width, height;
    assert h * (h - 1) - w * h + w - 1 == (h - w) * (h - 1) - 1;
    assert (h - w) * (h - 1) >= 1 by {
      assert h - w >= 1 && h - 1 >= 1;
    }
  }

  /** Whether reading the three bytes of pixel (x, y) stays inside the
      buffer. */
  predicate InBuffer(img: Image, x: int, y: int) {
    var k := PixelOffset(img.height, x, y);
    0 <= k && k + 2 < |img.data|
  }

  function GetPixelR(img: Image, x: int, y: int): (r: byte)
    requires InBuffer(img, x, y)
    ensures r == img.data[PixelOffset(img.height, x, y)]
  {
    img.data[PixelOffset(img.height, x, y)]
  }

  function GetPixelG(img: Image, x: int, y: int): (r: byte)
    requires InBuffer(img, x, y)
    ensures r == img.data[PixelOffset(img.height, x, y) + 1]
  {
    img.data[PixelOffset(img.height, x, y) + 1]
  }

  function GetPixelB(img: Image, x: int, y: int): (r: byte)
    requires InBuffer(img, x, y)
    ensures r == img.data[PixelOffset(img.height, x, y) + 2]
  {
    img.data[PixelOffset(img.height, x, y) + 2]
  }

  /** Whether `SetPixel` returns early: only coordinates beyond the
      width or the height are rejected, so x == width and y == height pass. */
  predicate Rejected(img: Image, x: int, y: int) {
    x > img.width || y > img.height
  }

  /** `SetPixel`: a coordinate past the width or height leaves the image as
      it is; otherwise the three bytes of the pixel become r, g, b. Writing
      outside the buffer is undefined, so an accepted pixel must lie in it. */
  function SetPixel(img: Image, x: int, y: int, r: byte, g: byte, b: byte): (res: Image)
    requires Rejected(img, x, y) || InBuffer(img, x, y)
    ensures Rejected(img, x, y) ==> res == img
    ensures res.(data := img.data) == img && |res.data| == |img.data|
    ensures !Rejected(img, x, y) ==> forall k | 0 <= k < |img.data| ::
      res.data[k] == if k == PixelOffset(img.height, x, y) then r
                     else if k == PixelOffset(img.height, x, y) + 1 then g
                     else if k == PixelOffset(img.height, x, y) + 2 then b
                     else img.data[k]
  {
    if Rejected(img, x, y) then img
    else
      var k := PixelOffset(img.height, x, y);
      img.(data := img.data[k := r][k + 1 := g][k + 2 := b])
  }

  /** After an accepted `SetPixel`, the getters return the colour written. */
  lemma SetThenGet(img: Image, x: int, y: int, r: byte, g: byte, b: byte)
    requires !Rejected(img, x, y) && InBuffer(img, x, y)
    ensures InBuffer(SetPixel(img, x, y, r, g, b), x, y)
    ensures GetPixelR(SetPixel(img, x, y, r, g, b), x, y) == r
    ensures GetPixelG(SetPixel(img, x, y, r, g, b), x, y) == g
    ensures GetPixelB(SetPixel(img, x, y, r, g, b), x, y) == b
  {
  }

  /** The width itself is not rejected: `SetPixel(width, y)` writes. */
  lemma WidthIsAccepted(img: Image, y: int)
    requires 0 <= y <= img.height
    ensures !Rejected(img, img.width, y)
  {
  }

  // ---------------------------------------------------------------------
  // Flip

  /** Where the flip takes byte j of the first n bytes from: pixel k moves
      to pixel n/3 - 1 - k and keeps its component order. */
  function FlipSource(n: nat, j: nat): (i: nat)
    requires n % 3 == 0 && j < n
    ensures i < n && i % 3 == j % 3
    ensures i / 3 == n / 3 - 1 - j / 3
  {
    n - 3 - 3 * (j / 3) + j % 3
  }

  /** The first n bytes with their pixel order reversed; the rest of the
      buffer is left alone. */
  function Flipped(d: seq<byte>, n: nat): (r: seq<byte>)
    requires n % 3 == 0 && n <= |d|
    ensures |r| == |d|
    ensures r[n..] == d[n..]
  {
    seq(|d|, j requires 0 <= j < |d| => if j < n then d[FlipSource(n, j)] else d[j])
  }

  lemma FlipSourceInvolution(n: nat, j: nat)
    requires n % 3 == 0 && j < n
    ensures FlipSource(n, FlipSource(n, j)) == j
  {
  }

  /** Flipping twice gives the original bytes back. */
  lemma FlipTwice(d: seq<byte>, n: nat)
    requires n % 3 == 0 && n <= |d|
    ensures Flipped(Flipped(d, n), n) == d
  {
    var once := Flipped(d, n);
    forall j | 0 <= j < |d|
      ensures Flipped(once, n)[j] == d[j]
    {
      if j < n {
        FlipSourceInvolution(n, j);
      }
    }
  }

  /** Pixel k of the flipped bytes is pixel n/3 - 1 - k of the original,
      with red, green and blue in the same order. */
  lemma FlipMovesPixels(d: seq<byte>, n: nat, k: nat, c: nat)
    requires n % 3 == 0 && n <= |d| && k < n / 3 && c < 3
    ensures Flipped(d, n)[3 * k + c] == d[3 * (n / 3 - 1 - k) + c]
  {
    var j := 3 * k + c;
    assert j / 3 == k && j % 3 == c;
  }

  /** The flip loop of `LoadPPM`: the first n bytes are copied aside, then
      written back three at a time from the end of the buffer. */
  method FlipPixels(d: seq<byte>, n: nat) returns (r: seq<byte>)
    requires n % 3 == 0 && n <= |d|
    ensures r == Flipped(d, n)
  {
    var copy := d[..n];
    r := d;
    var i: nat := 0;
    var pos: int := n - 1;
    while i < n
      invariant i <= n && i % 3 == 0 && pos == n - 1 - i
      invariant |r| == |d|
      invariant forall j | 0 <= j < |d| ::
        r[j] == if n - i <= j < n then d[FlipSource(n, j)] else d[j]
    {
      r := r[pos := copy[i + 2]][pos - 1 := copy[i + 1]][pos - 2 := copy[i]];
      forall j | n - i - 3 <= j < n - i
        ensures FlipSource(n, j) == i + (j - (n - i - 3))
      {
        FlipBlock(n, i, j);
      }
      pos := pos - 3;
      i := i + 3;
    }
  }

  lemma FlipBlock(n: nat, i: nat, j: nat)
    requires n % 3 == 0 && i % 3 == 0 && i < n && n - i - 3 <= j < n - i
    ensures FlipSource(n, j) == i + (j - (n - i - 3))
  {
    var q := (n - i - 3) / 3;
    assert n - i - 3 == 3 * q;
    assert j / 3 == q && j % 3 == j - 3 * q;
  }

  /** The flip step of `LoadPPM` on a whole image: it covers width * height
      * 3 bytes, which must all lie in the buffer. */
  function FlipImage(img: Image): (r: Load)
    requires img.width >= 0 && img.height >= 0
    ensures ByteCount(img) <= |img.data| <==> r.Loaded?
    ensures r.Loaded? ==> r.image == img.(data := Flipped(img.data, ByteCount(img)))
  {
    var n := img.width * img.height * 3;
    if n <= |img.data| then Loaded(img.(data := Flipped(img.data, n))) else Undefined
  }

  // ---------------------------------------------------------------------
  // Reading

  /** The reader's state between two lines: the image so far, the counter
      of non-comment lines and the next pixel byte to write. */
  datatype Reader = Reader(img: Image, iteration: nat, pos: nat)

  /** `line[0]` of a `std::string`: the terminating NUL for an empty line. */
  function FirstChar(line: string): char {
    if line == [] then '\0' else line[0]
  }

  /** A buffer of n freshly allocated, indeterminate bytes. */
  function Allocate(n: nat, allocate: nat -> byte): (r: seq<byte>)
    ensures |r| == n
  {
    seq(n, k requires 0 <= k => allocate(k))
  }

  /** What reading one line leads to: the reader's next state, or the end
      of the run. */
  datatype Step = Next(st: Reader) | Stop(result: Load)

  /** One pass of the `getline` loop of `LoadPPM`. Comment lines are
      skipped without counting. A line starting with 'P' is the magic
      number. Counted line 1 holds width and height as the first two
      blank-separated words; a missing word is handed to `atoi` as a null
      pointer, and a non-positive dimension ends the process. Counted line 2
      (the maximum value) is ignored. Every other line is one byte, stored
      at the next position without a bound check. */
  function ReadLine(st: Reader, line: string, allocate: nat -> byte): (r: Step)
    ensures FirstChar(line) == '#' ==> r == Next(st)
    ensures r.Next? ==> r.st.img.path == st.img.path && r.st.img.bpp == st.img.bpp
    ensures r.Next? && st.img.width >= 0 && st.img.height >= 0 ==>
      r.st.img.width >= 0 && r.st.img.height >= 0
    ensures r.Stop? ==> r.result.Exited? || r.result.Undefined?
  {
    if FirstChar(line) == '#' then Next(st)
    else if FirstChar(line) == 'P' then
      Next(st.(img := st.img.(magic := line), iteration := st.iteration + 1))
    else if st.iteration == 1 then ReadDimensionLine(st, line, allocate)
    else if st.iteration == 2 then Next(st.(iteration := 3))
    else ReadPixel(st, line)
  }

  /** Counted line 1: width and height, then the buffer. */
  function ReadDimensionLine(st: Reader, line: string, allocate: nat -> byte): (r: Step)
    ensures r.Next? ==> r.st.img.width > 0 && r.st.img.height > 0
    ensures r.Next? ==> r.st.img == st.img.(width := r.st.img.width, height := r.st.img.height,
                                            data := r.st.img.data)
    ensures r.Next? ==> |r.st.img.data| == r.st.img.width * r.st.img.height * 3
    ensures r.Stop? ==> r.result.Exited? || r.result.Undefined?
  {
    var words := BlankWords(line);
    if |words| < 2 then Stop(Undefined)
    else
      var img := st.img.(width := Atoi(words[0]), height := Atoi(words[1]));
      if img.width > 0 && img.height > 0 then
        Next(Reader(img.(data := Allocate(img.width * img.height * 3, allocate)), 2, st.pos))
      else Stop(Exited(img))
  }

  /** A line past the header: one byte at the next position. */
  function ReadPixel(st: Reader, line: string): (r: Step)
    ensures r.Next? <==> st.pos < |st.img.data|
    ensures r.Next? ==> r.st == Reader(st.img.(data := st.img.data[st.pos := ToByte(Atoi(line))]),
                                       st.iteration + 1, st.pos + 1)
    ensures r.Stop? ==> r.result.Undefined?
  {
    if st.pos < |st.img.data| then
      Next(Reader(st.img.(data := st.img.data[st.pos := ToByte(Atoi(line))]), st.iteration + 1, st.pos + 1))
    else Stop(Undefined)
  }

  /** The whole `getline` loop: it runs until the lines are used up or a
      line ends the run. */
  function Parse(st: Reader, lines: seq<string>, allocate: nat -> byte): (r: Load)
    ensures r.Loaded? ==> r.image.path == st.img.path && r.image.bpp == st.img.bpp
    ensures r.Loaded? && st.img.width >= 0 && st.img.height >= 0 ==>
      r.image.width >= 0 && r.image.height >= 0
    decreases |lines|
  {
    if lines == [] then Loaded(st.img)
    else match ReadLine(st, lines[0], allocate)
      case Next(next) => Parse(next, lines[1..], allocate)
      case Stop(result) => result
  }

  /** `Image::LoadPPM(flip)`: a file that cannot be opened leaves the image
      as it is (only a message is printed); the flip is applied to whatever
      the image then holds. */
  function LoadPPM(img: Image, file: Option<string>, flip: bool, allocate: nat -> byte): (r: Load)
    requires img.width >= 0 && img.height >= 0
    ensures file.None? && !flip ==> r == Loaded(img)
    ensures r.Loaded? ==> r.image.path == img.path && r.image.bpp == img.bpp
  {
    var read := if file.None? then Loaded(img) else Parse(Reader(img, 0, 0), Lines(file.value), allocate);
    if flip && read.Loaded? then FlipImage(read.image) else read
  }

  /** A comment line anywhere in the file changes nothing. */
  lemma {:induction false} CommentsAreSkipped(st: Reader, before: seq<string>, comment: string,
                                              after: seq<string>, allocate: nat -> byte)
    requires FirstChar(comment) == '#'
    ensures Parse(st, before + [comment] + after, allocate) == Parse(st, before + after, allocate)
    decreases |before|
  {
    var lines := before + [comment] + after;
    if before == [] {
      assert lines[0] == comment && lines[1..] == after;
      assert before + after == after;
    } else {
      assert lines[0] == before[0] && lines[1..] == before[1..] + [comment] + after;
      assert (before + after)[0] == before[0] && (before + after)[1..] == before[1..] + after;
      match ReadLine(st, before[0], allocate)
      case Next(next) =>
        CommentsAreSkipped(next, before[1..], comment, after, allocate);
      case Stop(_) =>
    }
  }

  /** What the reader makes of a dimension line "a b" at counted line 1:
      both words go through `atoi`; positive dimensions allocate the buffer,
      anything else ends the process. */
  lemma ReadDimensions(st: Reader, a: string, b: string, allocate: nat -> byte)
    requires st.iteration == 1
    requires |a| > 0 && ' ' !in a && |b| > 0 && ' ' !in b && a[0] != '#' && a[0] != 'P'
    ensures var img := st.img.(width := Atoi(a), height := Atoi(b));
      ReadLine(st, a + " " + b, allocate)
        == if Atoi(a) > 0 && Atoi(b) > 0
           then Next(Reader(img.(data := Allocate(Atoi(a) * Atoi(b) * 3, allocate)), 2, st.pos))
           else Stop(Exited(img))
  {
    DimensionWords(a, b);
    assert ReadLine(st, a + " " + b, allocate) == ReadDimensionLine(st, a + " " + b, allocate);
  }

  /** The words of a dimension line written as "w h". */
  lemma DimensionWords(a: string, b: string)
    requires |a| > 0 && ' ' !in a && |b| > 0 && ' ' !in b
    ensures BlankWords(a + " " + b) == [a, b]
    ensures FirstChar(a + " " + b) == a[0]
  {
    BlankWordsOfUnwords([a, b]);
    assert Unwords([b]) == b;
    assert Unwords([a, b]) == a + " " + b;
  }

  /** A dimension line with a zero or negative dimension ends the process. */
  lemma NonPositiveDimensionExits(img: Image, magic: string, w: int, h: int, rest: seq<string>,
                                  allocate: nat -> byte)
    requires FirstChar(magic) == 'P'
    requires w <= 0 || h <= 0
    ensures Parse(Reader(img, 0, 0), [magic, IntToString(w) + " " + IntToString(h)] + rest, allocate)
            == Exited(img.(magic := magic, width := w, height := h))
  {
    var dims := IntToString(w) + " " + IntToString(h);
    var lines := [magic, dims] + rest;
    var st1 := Reader(img.(magic := magic), 1, 0);
    assert ReadLine(Reader(img, 0, 0), magic, allocate) == Next(st1);
    assert lines[0] == magic && lines[1..] == [dims] + rest;
    assert ([dims] + rest)[0] == dims;
    AtoiIntToString(w);
    AtoiIntToString(h);
    IntToStringWord(w);
    IntToStringWord(h);
    ReadDimensions(st1, IntToString(w), IntToString(h), allocate);
  }

  /** A written number is one word that starts with a digit or a minus
      sign. */
  lemma IntToStringWord(i: int)
    ensures ' ' !in IntToString(i)
    ensures IntToString(i)[0] != '#' && IntToString(i)[0] != 'P'
  {
    var s := IntToString(i);
    if i < 0 {
      var t := NatToString(-i);
      assert s == "-" + t;
      assert forall k | 0 <= k < |s| :: s[k] == '-' || IsDigit(s[k]) by {
        forall k | 0 <= k < |s| ensures s[k] == '-' || IsDigit(s[k]) {
          if k > 0 {
            assert s[k] == t[k - 1];
          }
        }
      }
    }
  }

  // ---------------------------------------------------------------------
  // Writing a file the reader understands

  /** One decimal number per line, as the reader expects the pixel bytes. */
  function PixelLines(values: seq<byte>): (r: seq<string>)
    ensures |r| == |values|
  {
    seq(|values|, k requires 0 <= k < |values| => NatToString(values[k]))
  }

  /** A P3 file in the layout the reader accepts: magic number, dimensions,
      maximum value, then one byte per line. */
  function PPMText(width: nat, height: nat, values: seq<byte>): string {
    JoinLines(["P3", NatToString(width) + " " + NatToString(height), "255"] + PixelLines(values))
  }

  /** Past the header, a line that is neither a comment nor a magic number
      is a pixel byte. */
  lemma ReadLineIsPixel(st: Reader, line: string, allocate: nat -> byte)
    requires st.iteration >= 3 && FirstChar(line) != '#' && FirstChar(line) != 'P'
    ensures ReadLine(st, line, allocate) == ReadPixel(st, line)
  {
  }

  /** A written number starts with a digit. */
  lemma NumberLineStartsWithDigit(v: nat)
    ensures IsDigit(FirstChar(NatToString(v)))
  {
    assert IsDigit(NatToString(v)[0]);
  }

  /** Past the header, a line holding a number stores it at the next
      position, or writes past the buffer when it is full. */
  lemma ReadPixelLine(st: Reader, v: byte, allocate: nat -> byte)
    requires st.iteration >= 3
    ensures ReadLine(st, NatToString(v), allocate)
            == if st.pos < |st.img.data|
               then Next(Reader(st.img.(data := st.img.data[st.pos := v]), st.iteration + 1, st.pos + 1))
               else Stop(Undefined)
  {
    NumberLineStartsWithDigit(v);
    ReadLineIsPixel(st, NatToString(v), allocate);
    AtoiNatToString(v);
  }

  /** The buffer `d` with `values` written over it from position `pos`. */
  function Overwrite(d: seq<byte>, pos: nat, values: seq<byte>): (r: seq<byte>)
    requires pos + |values| <= |d|
    ensures |r| == |d|
  {
    d[..pos] + values + d[pos + |values|..]
  }

  lemma OverwriteStep(d: seq<byte>, pos: nat, values: seq<byte>)
    requires values != [] && pos + |values| <= |d|
    ensures Overwrite(d[pos := values[0]], pos + 1, values[1..]) == Overwrite(d, pos, values)
  {
  }

  /** Past the header, every line stores one byte at the next position, as
      long as the buffer has room; one line too many is a write past its
      end. */
  lemma {:induction false} ParsePixels(st: Reader, values: seq<byte>, allocate: nat -> byte)
    requires st.iteration >= 3
    ensures st.pos + |values| <= |st.img.data| ==>
      Parse(st, PixelLines(values), allocate) == Loaded(st.img.(data := Overwrite(st.img.data, st.pos, values)))
    ensures |values| > 0 && st.pos + |values| > |st.img.data| ==> Parse(st, PixelLines(values), allocate) == Undefined
    decreases |values|
  {
    var lines := PixelLines(values);
    var d := st.img.data;
    if values == [] {
      if st.pos <= |d| {
        assert Overwrite(d, st.pos, values) == d;
      }
    } else {
      var v := values[0];
      ReadPixelLine(st, v, allocate);
      assert lines[0] == NatToString(v);
      assert lines[1..] == PixelLines(values[1..]);
      if st.pos < |d| {
        var next := Reader(st.img.(data := d[st.pos := v]), st.iteration + 1, st.pos + 1);
        assert Parse(st, lines, allocate) == Parse(next, PixelLines(values[1..]), allocate);
        ParsePixels(next, values[1..], allocate);
        if st.pos + |values| <= |d| {
          OverwriteStep(d, st.pos, values);
        }
      }
    }
  }

  /** The three header lines of a written file take a new image to a
      `width` by `height` buffer with magic number "P3", ready for the
      first pixel byte. */
  lemma ParseHeader(path: string, width: nat, height: nat, rest: seq<string>, allocate: nat -> byte)
    requires width > 0 && height > 0
    ensures
      var img := Image(path, Allocate(width * height * 3, allocate), width, height, 0, "P3");
      Parse(Reader(NewImage(path), 0, 0),
            ["P3", NatToString(width) + " " + NatToString(height), "255"] + rest, allocate)
        == Parse(Reader(img, 3, 0), rest, allocate)
  {
    var dims := NatToString(width) + " " + NatToString(height);
    var l2 := ["255"] + rest;
    var l1 := [dims] + l2;
    var lines := ["P3"] + l1;
    assert lines == ["P3", dims, "255"] + rest;
    var st0 := Reader(NewImage(path), 0, 0);
    var st1 := Reader(NewImage(path).(magic := "P3"), 1, 0);
    var img := Image(path, Allocate(width * height * 3, allocate), width, height, 0, "P3");
    ReadMagicLine(st0, "P3", allocate);
    ParseNext(st0, "P3", l1, st1, allocate);
    AtoiNatToString(width);
    AtoiNatToString(height);
    assert IsDigit(NatToString(width)[0]);
    ReadDimensions(st1, NatToString(width), NatToString(height), allocate);
    ParseNext(st1, dims, l2, Reader(img, 2, 0), allocate);
    ReadMaxValueLine(Reader(img, 2, 0), "255", allocate);
    ParseNext(Reader(img, 2, 0), "255", rest, Reader(img, 3, 0), allocate);
  }

  lemma ReadMagicLine(st: Reader, line: string, allocate: nat -> byte)
    requires FirstChar(line) == 'P'
    ensures ReadLine(st, line, allocate) == Next(st.(img := st.img.(magic := line), iteration := st.iteration + 1))
  {
  }

  lemma ReadMaxValueLine(st: Reader, line: string, allocate: nat -> byte)
    requires st.iteration == 2 && FirstChar(line) != '#' && FirstChar(line) != 'P'
    ensures ReadLine(st, line, allocate) == Next(st.(iteration := 3))
  {
  }

  /** A line that lets the reader go on leaves the rest of the run to the
      remaining lines. */
  lemma ParseNext(st: Reader, line: string, rest: seq<string>, next: Reader, allocate: nat -> byte)
    requires ReadLine(st, line, allocate) == Next(next)
    ensures Parse(st, [line] + rest, allocate) == Parse(next, rest, allocate)
  {
    assert ([line] + rest)[0] == line && ([line] + rest)[1..] == rest;
  }

  /** A written file splits into its header lines and one line per pixel
      byte. */
  lemma PPMTextLines(width: nat, height: nat, values: seq<byte>)
    ensures Lines(PPMText(width, height, values))
         == ["P3", NatToString(width) + " " + NatToString(height), "255"] + PixelLines(values)
  {
    var header := ["P3", NatToString(width) + " " + NatToString(height), "255"];
    var lines := header + PixelLines(values);
    forall k | 0 <= k < |lines| ensures '\n' !in lines[k] {
      if k >= 3 {
        assert lines[k] == NatToString(values[k - 3]);
      }
    }
    LinesOfJoinLines(lines);
  }

  /** The lines of a written file take a new image to the image they
      describe. */
  lemma ParseWritten(path: string, width: nat, height: nat, values: seq<byte>, allocate: nat -> byte)
    requires width > 0 && height > 0 && |values| == width * height * 3
    ensures Parse(Reader(NewImage(path), 0, 0),
                  ["P3", NatToString(width) + " " + NatToString(height), "255"] + PixelLines(values), allocate)
         == Loaded(Image(path, values, width, height, 0, "P3"))
  {
    ParseHeader(path, width, height, PixelLines(values), allocate);
    var img := Image(path, Allocate(width * height * 3, allocate), width, height, 0, "P3");
    ParsePixels(Reader(img, 3, 0), values, allocate);
    assert Overwrite(img.data, 0, values) == values;
  }

  /** A file written by `PPMText` is read back as the image it describes:
      magic number "P3", the given dimensions and exactly the given bytes
      (flipped when asked to), whatever the allocator supplied. */
  lemma LoadWrittenPPM(path: string, width: nat, height: nat, values: seq<byte>, flip: bool,
                       allocate: nat -> byte)
    requires width > 0 && height > 0 && |values| == width * height * 3
    ensures LoadPPM(NewImage(path), Some(PPMText(width, height, values)), flip, allocate)
            == Loaded(Image(path, if flip then Flipped(values, |values|) else values, width, height, 0, "P3"))
  {
    PPMTextLines(width, height, values);
    ParseWritten(path, width, height, values, allocate);
  }
}
