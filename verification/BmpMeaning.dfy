/** What the parts of a BMP file mean: the order of bytes, pixels and colour channels, the sizes a header states, and
    the levels that colours are shown with. */
module BmpMeaning {
  import opened Arithmetic
  import opened Bmp

  // Words are stored with the low byte first.
  lemma {:induction false} LowByteFirst()
    ensures Le16(0x0102) == [0x02, 0x01] && Le32(0x01020304) == [0x04, 0x03, 0x02, 0x01]
  {
    hide Byte;
    ByteOfNumber(0x01);
    ByteOfNumber(0x02);
    ByteOfNumber(0x03);
    ByteOfNumber(0x04);
    LowBytes();
  }

  lemma {:induction false} LowBytes()
    ensures forall v: int :: Low(v) == Low(v % 0x100)
    ensures Byte(0x0102) == Byte(0x02) && Byte(0x01020304) == Byte(0x04)
    ensures Byte(Shifted(0x01020304, 0x100)) == Byte(0x03) && Byte(Shifted(0x01020304, 0x1_0000)) == Byte(0x02)
  {
  }

  /** The pixels of a byte stand in it from the top bits down. */
  lemma {:induction false} TopBitsFirst(b: bv8)
    ensures b == (Slot(b, 0) << 6) | (Slot(b, 1) << 4) | (Slot(b, 2) << 2) | Slot(b, 3)
    ensures Bit(b, 0) == (b & 0x80 != 0) && Bit(b, 1) == (b & 0x40 != 0) && Bit(b, 2) == (b & 0x20 != 0)
    ensures Bit(b, 3) == (b & 0x10 != 0) && Bit(b, 4) == (b & 0x08 != 0) && Bit(b, 5) == (b & 0x04 != 0)
    ensures Bit(b, 6) == (b & 0x02 != 0) && Bit(b, 7) == (b & 0x01 != 0)
  {
  }

  /** Rows are padded to a multiple of four bytes, and no further. */
  lemma {:induction false} RowsArePadded(width: nat, bpp: nat)
    ensures RowBytes(width, bpp) % 4 == 0
    ensures width * bpp <= 8 * RowBytes(width, bpp) < width * bpp + 32
  {
    DivMod(width * bpp + 31, 32);
  }

  // ---------- sizes ----------

  lemma {:induction false} RowsLength(data: seq<bv8>, p: nat, bytes: nat, bpp: nat, rows: seq<seq<bv8>>)
    requires IsRows(data, p, bytes, bpp, rows)
    ensures |data| == p + bytes * |rows|
    decreases |rows|
  {
    hide Holds;
    if rows != [] {
      RowsLength(data, p + bytes, bytes, bpp, rows[1..]);
      Distribute(bytes, |rows| - 1, 1);
    }
  }

  lemma {:induction false} StatedFields(data: seq<bv8>, width: int, height: int, bpp: nat)
    requires StartsWithHeader(data, width, height, bpp)
    ensures At32(data, 2) == Wrapped(PixelOffset(bpp) + RowBytes(width, bpp) * height) && At32(data, 6) == 0
    ensures At32(data, 34) == Wrapped(RowBytes(width, bpp) * height)
    ensures At32(data, 38) == 2835 && At32(data, 42) == 2835 && At32(data, 50) == if bpp == 1 then 2 else 4
  {
    hide RowBytes, Le32, Le16, At32, StartsWithHeader, Wrapped;
    HeaderParts(data, width, height, bpp);
    var imageSize := RowBytes(width, bpp) * height;
    var colors := if bpp == 1 then 2 else 4;
    var f, d := data[0..14], data[14..54];
    assert f[2..6] == Le32(PixelOffset(bpp) + imageSize) && f[6..10] == Le32(0);
    LatePlaces(width, height, bpp, imageSize, colors);
    SliceOfPart(data, f, 0, 2, 6);
    Found32(data, 2, PixelOffset(bpp) + imageSize);
    SliceOfPart(data, f, 0, 6, 10);
    Found32(data, 6, 0);
    SliceOfPart(data, d, 14, 20, 24);
    Found32(data, 34, imageSize);
    SliceOfPart(data, d, 14, 24, 28);
    Found32(data, 38, 2835);
    SliceOfPart(data, d, 14, 28, 32);
    Found32(data, 42, 2835);
    SliceOfPart(data, d, 14, 36, 40);
    Found32(data, 50, colors);
    SmallWord(0);
    SmallWord(2835);
    SmallWord(colors);
  }

  lemma {:induction false} LatePlaces(width: int, height: int, bpp: int, imageSize: int, colors: int)
    ensures var h := DibHeader(width, height, bpp, imageSize, colors);
            && |h| == 40 && h[20..24] == Le32(imageSize) && h[24..28] == Le32(2835) && h[28..32] == Le32(2835)
            && h[36..40] == Le32(colors)
  {
    hide Le32, Le16;
    var front := Le32(40) + Le32(width) + Le32(-height) + Le16(1) + Le16(bpp) + Le32(0);
    var back := Le32(imageSize) + Le32(2835) + Le32(2835) + Le32(colors) + Le32(colors);
    assert |front| == 20 && DibHeader(width, height, bpp, imageSize, colors) == front + back;
    assert back[0..4] == Le32(imageSize) && back[4..8] == Le32(2835) && back[8..12] == Le32(2835);
    assert back[16..20] == Le32(colors);
    SliceOfPart(front + back, back, 20, 0, 4);
    SliceOfPart(front + back, back, 20, 4, 8);
    SliceOfPart(front + back, back, 20, 8, 12);
    SliceOfPart(front + back, back, 20, 16, 20);
  }

  /** A file that holds all of its rows states its own length, and the length of its pixels. */
  lemma {:induction false} FileStatesItsLength(data: seq<bv8>, bpp: nat, width: nat, rows: seq<seq<bv8>>)
    requires IsImage(data, bpp, width, |rows|, rows)
    ensures At32(data, 2) == Wrapped(|data|) && At32(data, 34) == Wrapped(|data| - PixelOffset(bpp))
  {
    hide At32, RowBytes, Header, IsRows, Wrapped;
    StatedFields(data, width, |rows|, bpp);
    RowBytesOf(width, bpp);
    RowsLength(data, PixelOffset(bpp), RowBytes(width, bpp), bpp, rows);
  }

  // ---------- what the reader takes ----------

  /** A file with whole headers is taken exactly when it says BM, has a header of at least 40 bytes, one plane, a known
      depth, no compression but bit fields at 32 bits, at most 256 colours, a size within the limits in either
      direction, and its pixels inside the file. */
  lemma {:induction false} AcceptedHeaders(data: seq<bv8>)
    requires |data| >= 54
    ensures var w, h := Signed(At32(data, 18)), Signed(At32(data, 22));
            var bpp, compression := At16(data, 28), At32(data, 30);
            HeaderError(data) == Ok
            <==> && At16(data, 0) == 0x4D42 && At32(data, 14) >= 40 && At16(data, 26) == 1
                 && (bpp == 1 || bpp == 2 || bpp == 8 || bpp == 24 || bpp == 32)
                 && (compression == 0 || (bpp == 32 && compression == 3)) && At32(data, 46) <= 256
                 && 1 <= w <= 2048 && (1 <= h <= 3072 || -3072 <= h <= -1) && At32(data, 10) <= |data|
  {
    hide At16, At32, OffsetAt, SizesAt, WidthAt, HeightAt, PlanesAt, BppAt, CompressionAt, ColorsAt;
    FixedPlaces(data);
    var h := Signed(At32(data, 22));
    WordBound(data, 22);
    if h < 0 {
      Negated(At32(data, 22));
    }
  }

  lemma {:induction false} WordBound(data: seq<bv8>, p: nat)
    ensures At32(data, p) < 0x1_0000_0000
  {
    hide Number;
    NumberBound(ByteAt(data, p));
    NumberBound(ByteAt(data, p + 1));
    NumberBound(ByteAt(data, p + 2));
    NumberBound(ByteAt(data, p + 3));
  }

  // The least number is its own negation.
  lemma {:induction false} Negated(w: nat)
    requires 0x8000_0000 <= w < 0x1_0000_0000
    ensures Signed(Wrapped(-Signed(w))) == if w == 0x8000_0000 then -0x8000_0000 else -Signed(w)
  {
  }

  // The fault that is reported is there.
  lemma {:induction false} ReportedFaults(data: seq<bv8>)
    requires |data| >= 54
    ensures match HeaderError(data)
            case NotBMP => At16(data, 0) != 0x4D42
            case DIBTooSmall => At32(data, 14) < 40
            case BadPlanes => At16(data, 26) != 1
            case UnsupportedBpp => At16(data, 28) !in {1, 2, 8, 24, 32}
            case UnsupportedCompression => At32(data, 30) != 0
            case PaletteTooLarge => At32(data, 46) > 256
            case BadDimensions => Signed(At32(data, 18)) <= 0 || Height(data) <= 0
            case ImageTooLarge => Signed(At32(data, 18)) > 2048 || Height(data) > 3072
            case SeekPixelDataFailed => At32(data, 10) > |data|
            case _ => true
  {
    hide At16, At32, OffsetAt, SizesAt, WidthAt, HeightAt, PlanesAt, BppAt, CompressionAt, ColorsAt, Height;
    FixedPlaces(data);
  }

  // ---------- levels ----------

  lemma {:induction false} LumaOf(blue: bv8, green: bv8, red: bv8)
    ensures Number(Luma(blue, green, red)) == (77 * Number(red) + 150 * Number(green) + 29 * Number(blue)) / 0x100
  {
    hide Byte, Number;
    var v := (77 * Number(red) + 150 * Number(green) + 29 * Number(blue)) / 0x100;
    NumberBound(blue);
    NumberBound(green);
    NumberBound(red);
    ByteRoundTrip(v);
  }

  // A pixel of 24 or 32 bits is blue, green, red.
  lemma {:induction false} PureColors(lum: seq<bv8>)
    requires |lum| == 256
    ensures Color(24, Luminance(24, lum, [0xFF, 0, 0], 0)) == 0
    ensures Color(24, Luminance(24, lum, [0, 0xFF, 0], 0)) == 3
    ensures Color(24, Luminance(24, lum, [0, 0, 0xFF], 0)) == 2
    ensures Color(24, Luminance(24, lum, [0, 0, 0], 0)) == 0
    ensures Color(24, Luminance(24, lum, [0xFF, 0xFF, 0xFF], 0)) == 3
    ensures forall rest: bv8 :: Luminance(32, lum, [0, 0, 0xFF, rest], 0) == Luminance(24, lum, [0, 0, 0xFF], 0)
  {
    hide Luma, Number;
    Extremes();
    LumaOf(0xFF, 0, 0);
    LumaOf(0, 0xFF, 0);
    LumaOf(0, 0, 0xFF);
    LumaOf(0, 0, 0);
    LumaOf(0xFF, 0xFF, 0xFF);
  }

  // The pixels of 8, 24 and 32 bits follow one another from the left.
  lemma {:induction false} PixelsFollow(lum: seq<bv8>, row: seq<bv8>, x: nat)
    requires |lum| == 256
    ensures x < |row| ==> Luminance(8, lum, row, x) == Luminance(8, lum, [row[x]], 0)
    ensures 3 * x + 3 <= |row| ==>
              Luminance(24, lum, row, x) == Luminance(24, lum, [row[3 * x], row[3 * x + 1], row[3 * x + 2]], 0)
    ensures 4 * x + 4 <= |row| ==>
              Luminance(32, lum, row, x)
              == Luminance(32, lum, [row[4 * x], row[4 * x + 1], row[4 * x + 2], row[4 * x + 3]], 0)
  {
    hide Luma, Indexed;
  }

  lemma {:induction false} Extremes()
    ensures Number(0) == 0 && Number(0xFF) == 255
  {
  }

  /** A brighter colour is not shown darker: the luminance rises with every channel, and the level with it. */
  lemma {:induction false} BrighterIsNotDarker(blue: bv8, green: bv8, red: bv8, blue': bv8, green': bv8, red': bv8)
    requires blue <= blue' && green <= green' && red <= red'
    ensures var dark, light := Luma(blue, green, red), Luma(blue', green', red');
            dark <= light && forall bpp: int :: Color(bpp, dark) <= Color(bpp, light)
  {
    hide Luma, Number;
    LumaOf(blue, green, red);
    LumaOf(blue', green', red');
    OrderOfNumbers(blue, blue');
    OrderOfNumbers(green, green');
    OrderOfNumbers(red, red');
    OrderOfNumbers(Luma(blue, green, red), Luma(blue', green', red'));
    forall bpp: int
      ensures Color(bpp, Luma(blue, green, red)) <= Color(bpp, Luma(blue', green', red'))
    {
      ColorRises(bpp, Luma(blue, green, red), Luma(blue', green', red'));
    }
  }

  lemma {:induction false} OrderOfNumbers(a: bv8, b: bv8)
    ensures a <= b <==> Number(a) <= Number(b)
  {
  }

  lemma {:induction false} ColorRises(bpp: int, dark: bv8, light: bv8)
    requires dark <= light
    ensures Color(bpp, dark) <= Color(bpp, light)
  {
    hide Number;
    OrderOfNumbers(dark, light);
    ShiftRises(dark, light);
  }

  lemma {:induction false} ShiftRises(a: bv8, b: bv8)
    requires a <= b
    ensures a >> 6 <= b >> 6
  {
  }

  // Where the four levels begin.
  lemma {:induction false} Thresholds(gray: nat)
    ensures Quantize(gray) == 0 <==> gray < 45
    ensures Quantize(gray) == 1 <==> 45 <= gray < 70
    ensures Quantize(gray) == 2 <==> 70 <= gray < 140
    ensures Quantize(gray) == 3 <==> 140 <= gray
  {
  }
}
