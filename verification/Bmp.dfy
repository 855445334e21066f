/** The BMP writer of the JPEG converter and the BMP reader that draws what it wrote. */
module Bmp {

  import opened Arithmetic

  // ---------------------------------------------------------------------------
  // Bytes and little-endian words
  // ---------------------------------------------------------------------------

  function Low(v: int): nat {
    v % 0x100
  }

  // A shift rounds down, so a negative number comes out in two's complement.
  function Shifted(v: int, m: int): int
    requires m > 0
  {
    v / m
  }

  function Byte(v: int): bv8 {
    DivMod(v, 0x100);
    Low(v) as bv8
  }

  function Number(b: bv8): nat {
    b as int
  }

  function Le16(v: int): (bytes: seq<bv8>)
    ensures |bytes| == 2
  {
    [Byte(v), Byte(Shifted(v, 0x100))]
  }

  function Le32(v: int): (bytes: seq<bv8>)
    ensures |bytes| == 4
  {
    [Byte(v), Byte(Shifted(v, 0x100)), Byte(Shifted(v, 0x1_0000)), Byte(Shifted(v, 0x100_0000))]
  }

  function Word16(b0: bv8, b1: bv8): nat {
    Number(b0) + 0x100 * Number(b1)
  }

  function Word32(b0: bv8, b1: bv8, b2: bv8, b3: bv8): nat {
    Number(b0) + 0x100 * Number(b1) + 0x1_0000 * Number(b2) + 0x100_0000 * Number(b3)
  }

  function Wrapped(v: int): nat {
    v % 0x1_0000_0000
  }

  // An unsigned word read as a signed one.
  function Signed(w: nat): int {
    if w < 0x8000_0000 then w else w - 0x1_0000_0000
  }

  lemma {:induction false} Successor(b: bv8)
    requires b != 0xFF
    ensures (b + 1) as int == b as int + 1
  {
  }

  lemma {:induction false} ReachByte(v: nat) returns (b: bv8)
    requires v < 0x100
    ensures b as int == v
  {
    if v == 0 {
      b := 0;
    } else {
      var c := ReachByte(v - 1);
      Successor(c);
      b := c + 1;
    }
  }

  lemma {:induction false} SmallByte(v: nat)
    requires v < 0x100
    ensures (v as bv8) as int == v
  {
    var b := ReachByte(v);
    assert (b as int) as bv8 == b;
  }

  lemma {:induction false} ByteRoundTrip(v: int)
    ensures Number(Byte(v)) == Low(v)
  {
    DivMod(v, 0x100);
    SmallByte(v % 0x100);
  }

  lemma {:induction false} NumberBound(b: bv8)
    ensures Number(b) < 0x100
  {
  }

  lemma {:induction false} NumberOfZero()
    ensures Number(0) == 0
  {
  }

  lemma {:induction false} ByteOfNumber(b: bv8)
    ensures Byte(Number(b)) == b
  {
    NumberBound(b);
    DivModIs(Number(b), 0x100, 0, Number(b));
    assert (b as int) as bv8 == b;
  }

  // The quotient by m * 256, digit by digit.
  lemma {:induction false} NextByte(v: int, m: int, q: int, r: int)
    requires m > 0 && 0 <= r < m && v == m * q + r
    ensures v / m == q
    ensures v == m * 0x100 * (q / 0x100) + (m * (q % 0x100) + r)
    ensures 0 <= m * (q % 0x100) + r < m * 0x100
  {
    DivModIs(v, m, q, r);
    DivMod(q, 0x100);
    MulMonotone(m, 0, q % 0x100);
    MulMonotone(m, q % 0x100, 0xFF);
    Distribute(m, 0x100 * (q / 0x100), q % 0x100);
    assert m * (0x100 * (q / 0x100)) == m * 0x100 * (q / 0x100);
  }

  lemma {:induction false} Digits(v: int)
    ensures Low(v) + 0x100 * Low(Shifted(v, 0x100)) + 0x1_0000 * Low(Shifted(v, 0x1_0000))
            + 0x100_0000 * Low(Shifted(v, 0x100_0000)) == Wrapped(v)
    ensures 0 <= v < 0x1_0000 ==> Low(v) + 0x100 * Low(Shifted(v, 0x100)) == v
  {
    var q1, r1 := v / 0x100, v % 0x100;
    NextByte(v, 0x100, q1, r1);
    var q2, r2 := q1 / 0x100, 0x100 * (q1 % 0x100) + r1;
    NextByte(v, 0x1_0000, q2, r2);
    var q3, r3 := q2 / 0x100, 0x1_0000 * (q2 % 0x100) + r2;
    NextByte(v, 0x100_0000, q3, r3);
    DivModIs(v, 0x1_0000_0000, q3 / 0x100, 0x100_0000 * (q3 % 0x100) + r3);
  }

  lemma {:induction false} WordRoundTrip(v: int)
    ensures Word32(Byte(v), Byte(Shifted(v, 0x100)), Byte(Shifted(v, 0x1_0000)), Byte(Shifted(v, 0x100_0000))) == Wrapped(v)
    ensures 0 <= v < 0x1_0000 ==> Word16(Byte(v), Byte(Shifted(v, 0x100))) == v
  {
    hide Byte, Number, Low, Shifted, Wrapped;
    ByteRoundTrip(v);
    ByteRoundTrip(Shifted(v, 0x100));
    ByteRoundTrip(Shifted(v, 0x1_0000));
    ByteRoundTrip(Shifted(v, 0x100_0000));
    Digits(v);
  }

  lemma {:induction false} SignedRoundTrip(v: int)
    requires -0x8000_0000 <= v < 0x8000_0000
    ensures Signed(Wrapped(v)) == v
  {
  }

  // ---------------------------------------------------------------------------
  // Pixels inside bytes
  // ---------------------------------------------------------------------------

  // The j-th of the four 2-bit pixels of a byte, the first in the top bits.
  function Slot(b: bv8, j: nat): bv8
    requires j < 4
  {
    (if j == 0 then b >> 6 else if j == 1 then b >> 4 else if j == 2 then b >> 2 else b) & 3
  }

  function WithSlot(b: bv8, j: nat, v: bv8): bv8
    requires j < 4
  {
    b | (if j == 0 then v << 6 else if j == 1 then v << 4 else if j == 2 then v << 2 else v)
  }

  // The j-th of the eight 1-bit pixels of a byte.
  function Bit(b: bv8, j: nat): bool
    requires j < 8
  {
    b & (0x80 >> j) != 0
  }

  function WithBit(b: bv8, j: nat, v: bv8): bv8
    requires j < 8
  {
    b | (v << (7 - j))
  }

  lemma {:induction false} SlotWritten(b: bv8, j: nat, v: bv8, i: nat)
    requires j < 4 && i < 4 && v <= 3
    ensures i != j ==> Slot(WithSlot(b, j, v), i) == Slot(b, i)
    ensures Slot(b, j) == 0 ==> Slot(WithSlot(b, j, v), j) == v
  {
  }

  lemma {:induction false} BitWritten(b: bv8, j: nat, v: bv8, i: nat)
    requires j < 8 && i < 8 && v <= 1
    ensures i != j ==> Bit(WithBit(b, j, v), i) == Bit(b, i)
    ensures !Bit(b, j) ==> (Bit(WithBit(b, j, v), j) <==> v == 1)
  {
  }

  lemma {:induction false} BlankByte(j: nat)
    ensures j < 4 ==> Slot(0, j) == 0
    ensures j < 8 ==> !Bit(0, j)
  {
  }

  // A row of 2-bit pixels, blank after the last one.
  ghost predicate Holds2(row: seq<bv8>, pixels: seq<bv8>) {
    && |pixels| <= 4 * |row|
    && forall x :: 0 <= x < 4 * |row| ==> Slot(row[x / 4], x % 4) == if x < |pixels| then pixels[x] else 0
  }

  // A row of 1-bit pixels, blank after the last one.
  ghost predicate Holds1(row: seq<bv8>, pixels: seq<bv8>) {
    && |pixels| <= 8 * |row|
    && forall x :: 0 <= x < 8 * |row| ==> (Bit(row[x / 8], x % 8) <==> x < |pixels| && pixels[x] == 1)
  }

  ghost predicate Holds(bpp: nat, row: seq<bv8>, pixels: seq<bv8>) {
    if bpp == 1 then Holds1(row, pixels) else Holds2(row, pixels)
  }

  function Largest(bpp: nat): bv8 {
    if bpp == 1 then 1 else 3
  }

  ghost predicate Within(bpp: nat, pixels: seq<bv8>) {
    forall x :: 0 <= x < |pixels| ==> pixels[x] <= Largest(bpp)
  }

  function RowBytes(width: int, bpp: int): int {
    (width * bpp + 31) / 32 * 4
  }

  lemma {:induction false} RowBytesOf(width: int, bpp: int)
    ensures bpp == 1 ==> RowBytes(width, bpp) == (width + 31) / 32 * 4
    ensures bpp == 2 ==> RowBytes(width, bpp) == (width * 2 + 31) / 32 * 4
    ensures width >= 0 && (bpp == 1 || bpp == 2) ==> 0 <= width <= 8 / bpp * RowBytes(width, bpp)
  {
  }

  // ---------------------------------------------------------------------------
  // Writing
  // ---------------------------------------------------------------------------

  /** The output stream. */
  class Print {
    var written: seq<bv8>

    constructor ()
      ensures written == []
    {
      written := [];
    }

    method Write(b: bv8)
      modifies this
      ensures written == old(written) + [b]
    {
      written := written + [b];
    }

    method WriteAll(bytes: array<bv8>)
      modifies this
      ensures written == old(written) + bytes[..]
    {
      written := written + bytes[..];
    }
  }

  method Write16(out: Print, value: int)
    modifies out
    ensures out.written == old(out.written) + Le16(value)
  {
    hide Byte;
    out.Write(Byte(value));
    out.Write(Byte(Shifted(value, 0x100)));
  }

  method Write32(out: Print, value: int)
    modifies out
    ensures out.written == old(out.written) + Le32(value)
  {
    hide Byte;
    out.Write(Byte(value));
    out.Write(Byte(Shifted(value, 0x100)));
    out.Write(Byte(Shifted(value, 0x1_0000)));
    out.Write(Byte(Shifted(value, 0x100_0000)));
  }

  // Blue, green, red, reserved.
  function Palette(bpp: nat): seq<bv8> {
    if bpp == 1 then [0, 0, 0, 0, 0xFF, 0xFF, 0xFF, 0]
    else [0, 0, 0, 0, 0x55, 0x55, 0x55, 0, 0xAA, 0xAA, 0xAA, 0, 0xFF, 0xFF, 0xFF, 0]
  }

  function PixelOffset(bpp: nat): nat {
    if bpp == 1 then 62 else 70
  }

  function FileHeader(fileSize: int, offset: int): seq<bv8> {
    [0x42, 0x4D] + Le32(fileSize) + Le32(0) + Le32(offset)
  }

  function DibHeader(width: int, height: int, bpp: int, imageSize: int, colors: int): seq<bv8> {
    Le32(40) + Le32(width) + Le32(-height) + Le16(1) + Le16(bpp) + Le32(0)
    + Le32(imageSize) + Le32(2835) + Le32(2835) + Le32(colors) + Le32(colors)
  }

  function Header(width: int, height: int, bpp: nat): seq<bv8> {
    var imageSize := RowBytes(width, bpp) * height;
    FileHeader(PixelOffset(bpp) + imageSize, PixelOffset(bpp))
    + DibHeader(width, height, bpp, imageSize, if bpp == 1 then 2 else 4)
    + Palette(bpp)
  }

  method WriteFileHeader(out: Print, fileSize: int, offset: int)
    modifies out
    ensures out.written == old(out.written) + FileHeader(fileSize, offset)
  {
    hide Le32;
    out.Write(0x42);
    out.Write(0x4D);
    Write32(out, fileSize);
    Write32(out, 0);
    Write32(out, offset);
  }

  method WriteDibHeader(out: Print, width: int, height: int, bpp: int, imageSize: int, colors: int)
    modifies out
    ensures out.written == old(out.written) + DibHeader(width, height, bpp, imageSize, colors)
  {
    hide Le32, Le16;
    Write32(out, 40);
    Write32(out, width);
    Write32(out, -height);
    Write16(out, 1);
    Write16(out, bpp);
    Write32(out, 0);
    Write32(out, imageSize);
    Write32(out, 2835);
    Write32(out, 2835);
    Write32(out, colors);
    Write32(out, colors);
  }

  method WritePalette(out: Print, palette: seq<bv8>)
    modifies out
    ensures out.written == old(out.written) + palette
  {
    for i := 0 to |palette|
      invariant out.written == old(out.written) + palette[..i]
    {
      out.Write(palette[i]);
    }
  }

  method WriteBmpHeader1bit(out: Print, width: int, height: int)
    modifies out
    ensures out.written == old(out.written) + Header(width, height, 1)
  {
    hide FileHeader, DibHeader, RowBytes;
    RowBytesOf(width, 1);
    var bytesPerRow := (width + 31) / 32 * 4;
    var imageSize := bytesPerRow * height;
    WriteFileHeader(out, 62 + imageSize, 62);
    WriteDibHeader(out, width, height, 1, imageSize, 2);
    WritePalette(out, Palette(1));
  }

  method WriteBmpHeader2bit(out: Print, width: int, height: int)
    modifies out
    ensures out.written == old(out.written) + Header(width, height, 2)
  {
    hide FileHeader, DibHeader, RowBytes;
    RowBytesOf(width, 2);
    var bytesPerRow := (width * 2 + 31) / 32 * 4;
    var imageSize := bytesPerRow * height;
    WriteFileHeader(out, 70 + imageSize, 70);
    WriteDibHeader(out, width, height, 2, imageSize, 4);
    WritePalette(out, Palette(2));
  }

  method ClearRow(rowBuffer: array<bv8>)
    modifies rowBuffer
    ensures forall i :: 0 <= i < rowBuffer.Length ==> rowBuffer[i] == 0
  {
    for i := 0 to rowBuffer.Length
      invariant forall k :: 0 <= k < i ==> rowBuffer[k] == 0
    {
      rowBuffer[i] := 0;
    }
  }

  method PackRow2(rowBuffer: array<bv8>, pixels: seq<bv8>)
    requires |pixels| <= 4 * rowBuffer.Length && Within(2, pixels)
    modifies rowBuffer
    ensures Holds2(rowBuffer[..], pixels)
  {
    hide Slot, WithSlot;
    ClearRow(rowBuffer);
    forall x | 0 <= x < 4 * rowBuffer.Length ensures Slot(rowBuffer[x / 4], x % 4) == 0 {
      BlankByte(x % 4);
    }
    for x := 0 to |pixels|
      invariant forall k :: 0 <= k < 4 * rowBuffer.Length ==>
                              Slot(rowBuffer[k / 4], k % 4) == if k < x then pixels[k] else 0
    {
      var byteIndex := x * 2 / 8;
      var before := rowBuffer[byteIndex];
      forall i | 0 <= i < 4
        ensures i != x % 4 ==> Slot(WithSlot(before, x % 4, pixels[x]), i) == Slot(before, i)
        ensures Slot(before, x % 4) == 0 ==> Slot(WithSlot(before, x % 4, pixels[x]), x % 4) == pixels[x]
      {
        SlotWritten(before, x % 4, pixels[x], i);
      }
      assert 6 - x * 2 % 8 == 6 - 2 * (x % 4) && byteIndex == x / 4;
      rowBuffer[byteIndex] := WithSlot(rowBuffer[byteIndex], x % 4, pixels[x]);
    }
  }

  method PackRow1(rowBuffer: array<bv8>, pixels: seq<bv8>)
    requires |pixels| <= 8 * rowBuffer.Length && Within(1, pixels)
    modifies rowBuffer
    ensures Holds1(rowBuffer[..], pixels)
  {
    hide Bit, WithBit;
    ClearRow(rowBuffer);
    forall x | 0 <= x < 8 * rowBuffer.Length ensures Bit(rowBuffer[x / 8], x % 8) == false {
      BlankByte(x % 8);
    }
    for x := 0 to |pixels|
      invariant forall k :: 0 <= k < 8 * rowBuffer.Length ==>
                              (Bit(rowBuffer[k / 8], k % 8) <==> k < x && pixels[k] == 1)
    {
      var byteIndex := x / 8;
      var before := rowBuffer[byteIndex];
      forall i | 0 <= i < 8
        ensures i != x % 8 ==> Bit(WithBit(before, x % 8, pixels[x]), i) == Bit(before, i)
        ensures !Bit(before, x % 8) ==> (Bit(WithBit(before, x % 8, pixels[x]), x % 8) <==> pixels[x] == 1)
      {
        BitWritten(before, x % 8, pixels[x], i);
      }
      rowBuffer[byteIndex] := WithBit(rowBuffer[byteIndex], x % 8, pixels[x]);
    }
  }

  // ---------------------------------------------------------------------------
  // What a file says
  // ---------------------------------------------------------------------------

  datatype Error = Ok | FileInvalid | NotBMP | DIBTooSmall | BadPlanes | UnsupportedBpp | UnsupportedCompression
                 | BadDimensions | ImageTooLarge | PaletteTooLarge | SeekPixelDataFailed | ShortReadRow

  // Past the end of the file every byte reads as zero.
  function ByteAt(data: seq<bv8>, p: nat): bv8 {
    if p < |data| then data[p] else 0
  }

  function At16(data: seq<bv8>, p: nat): nat {
    Word16(ByteAt(data, p), ByteAt(data, p + 1))
  }

  function At32(data: seq<bv8>, p: nat): nat {
    Word32(ByteAt(data, p), ByteAt(data, p + 1), ByteAt(data, p + 2), ByteAt(data, p + 3))
  }

  // Where the cursor is after reading n bytes, or after a relative seek that moves only inside the file.
  function Past(data: seq<bv8>, p: nat, n: nat): nat {
    if p + n <= |data| then p + n else if p <= |data| then |data| else p
  }

  function Skipped(data: seq<bv8>, p: nat, n: nat): nat {
    if p + n <= |data| then p + n else p
  }

  // Where the offset to the pixels, the size fields and the colour count are found.
  function OffsetAt(data: seq<bv8>): nat {
    Skipped(data, Past(data, 0, 2), 8)
  }

  function SizesAt(data: seq<bv8>): nat {
    Past(data, OffsetAt(data), 4)
  }

  function WidthAt(data: seq<bv8>): nat {
    Past(data, SizesAt(data), 4)
  }

  function HeightAt(data: seq<bv8>): nat {
    Past(data, WidthAt(data), 4)
  }

  function PlanesAt(data: seq<bv8>): nat {
    Past(data, HeightAt(data), 4)
  }

  function BppAt(data: seq<bv8>): nat {
    Past(data, PlanesAt(data), 2)
  }

  function CompressionAt(data: seq<bv8>): nat {
    Past(data, BppAt(data), 2)
  }

  function ColorsAt(data: seq<bv8>): nat {
    Skipped(data, Past(data, CompressionAt(data), 4), 12)
  }

  function PaletteAt(data: seq<bv8>): nat {
    Skipped(data, Past(data, ColorsAt(data), 4), 4)
  }

  lemma {:induction false} PaletteInFile(data: seq<bv8>)
    ensures PaletteAt(data) <= |data|
  {
  }

  function DibSize(data: seq<bv8>): nat {
    At32(data, SizesAt(data))
  }

  function Width(data: seq<bv8>): int {
    Signed(At32(data, WidthAt(data)))
  }

  function RawHeight(data: seq<bv8>): int {
    Signed(At32(data, HeightAt(data)))
  }

  // The negation of the least number is itself.
  function Height(data: seq<bv8>): int {
    if RawHeight(data) < 0 then Signed(Wrapped(-RawHeight(data))) else RawHeight(data)
  }

  function Planes(data: seq<bv8>): nat {
    At16(data, PlanesAt(data))
  }

  function Bpp(data: seq<bv8>): nat {
    At16(data, BppAt(data))
  }

  function Compression(data: seq<bv8>): nat {
    At32(data, CompressionAt(data))
  }

  function Colors(data: seq<bv8>): nat {
    At32(data, ColorsAt(data))
  }

  function Offset(data: seq<bv8>): nat {
    At32(data, OffsetAt(data))
  }

  predicate ValidBpp(bpp: int) {
    bpp == 1 || bpp == 2 || bpp == 8 || bpp == 24 || bpp == 32
  }

  const MAX_IMAGE_WIDTH := 2048
  const MAX_IMAGE_HEIGHT := 3072

  // The first fault of a header.
  function HeaderError(data: seq<bv8>): Error {
    if At16(data, 0) != 0x4D42 then NotBMP
    else if DibSize(data) < 40 then DIBTooSmall
    else if Planes(data) != 1 then BadPlanes
    else if !ValidBpp(Bpp(data)) then UnsupportedBpp
    else if Compression(data) != 0 && !(Bpp(data) == 32 && Compression(data) == 3) then UnsupportedCompression
    else if Colors(data) > 256 then PaletteTooLarge
    else if Width(data) <= 0 || Height(data) <= 0 then BadDimensions
    else if Width(data) > MAX_IMAGE_WIDTH || Height(data) > MAX_IMAGE_HEIGHT then ImageTooLarge
    else if Offset(data) > |data| then SeekPixelDataFailed
    else Ok
  }

  function Luma(blue: bv8, green: bv8, red: bv8): bv8 {
    Byte((77 * Number(red) + 150 * Number(green) + 29 * Number(blue)) / 0x100)
  }

  lemma {:induction false} GrayIsItsOwnLuma(c: bv8)
    ensures Luma(c, c, c) == c
  {
    hide Byte, Number;
    var n := Number(c);
    DivModIs(77 * n + 150 * n + 29 * n, 0x100, n, 0);
    ByteOfNumber(c);
  }

  // The palette a header leaves: the identity, overwritten by the colours the file holds in full.
  ghost predicate PaletteOf(data: seq<bv8>, lum: seq<bv8>) {
    && |lum| == 256
    && (forall i :: 0 <= i < 256 && i >= Colors(data) ==> lum[i] == Byte(i))
    && (forall i :: 0 <= i < 256 && i < Colors(data) && PaletteAt(data) + 4 * i + 4 <= |data| ==>
          lum[i] == Luma(data[PaletteAt(data) + 4 * i], data[PaletteAt(data) + 4 * i + 1],
                         data[PaletteAt(data) + 4 * i + 2]))
  }

  // ---------------------------------------------------------------------------
  // What a row says
  // ---------------------------------------------------------------------------

  function Luminance(bpp: int, lum: seq<bv8>, row: seq<bv8>, x: nat): bv8
    requires |lum| == 256 && ValidBpp(bpp) && x * bpp < 8 * |row|
    requires bpp == 24 ==> 3 * x + 2 < |row|
    requires bpp == 32 ==> 4 * x + 2 < |row|
  {
    match bpp
    case 32 => Luma(row[4 * x], row[4 * x + 1], row[4 * x + 2])
    case 24 => Luma(row[3 * x], row[3 * x + 1], row[3 * x + 2])
    case 8 => Indexed(lum, row[x])
    case 2 => Indexed(lum, Slot(row[x / 4], x % 4))
    case _ => Indexed(lum, if Bit(row[x / 8], x % 8) then 1 else 0)
  }

  function Indexed(lum: seq<bv8>, i: bv8): bv8
    requires |lum| == 256
  {
    NumberBound(i);
    lum[Number(i)]
  }

  // The four levels the display shows.
  function Quantize(gray: nat): bv8 {
    if gray < 45 then 0 else if gray < 70 then 1 else if gray < 140 then 2 else 3
  }

  function Color(bpp: int, lum: bv8): bv8 {
    if bpp > 2 then Quantize(Number(lum)) else lum >> 6
  }

  // ---------------------------------------------------------------------------
  // Reading
  // ---------------------------------------------------------------------------

  /** An open or a missing file. */
  class FsFile {
    const data: seq<bv8>
    const isOpen: bool
    var position: nat

    constructor (data: seq<bv8>, isOpen: bool)
      ensures this.data == data && this.isOpen == isOpen && position == 0
    {
      this.data := data;
      this.isOpen := isOpen;
      position := 0;
    }

    // The next byte, or -1 at the end.
    method Read() returns (c: int)
      modifies this
      ensures -1 <= c < 0x100
      ensures c < 0 <==> old(position) >= |data|
      ensures Byte(if c < 0 then 0 else c) == ByteAt(data, old(position))
      ensures position == Past(data, old(position), 1)
    {
      hide Byte, Number;
      if position < |data| {
        NumberBound(data[position]);
        ByteOfNumber(data[position]);
        c := Number(data[position]);
        position := position + 1;
      } else {
        c := -1;
        ByteOfNumber(0);
        NumberOfZero();
      }
    }

    // As many bytes as there are, at most n.
    method ReadBytes(buffer: array<bv8>, n: nat) returns (got: nat)
      requires n <= buffer.Length && position <= |data|
      modifies this, buffer
      ensures got == position - old(position) && position == Past(data, old(position), n)
      ensures buffer[..got] == data[old(position)..position]
    {
      got := 0;
      while got < n && position < |data|
        invariant got <= n && position == old(position) + got <= |data|
        invariant buffer[..got] == data[old(position)..position]
      {
        buffer[got] := data[position];
        got, position := got + 1, position + 1;
      }
    }

    method Seek(p: nat) returns (ok: bool)
      modifies this
      ensures ok <==> p <= |data|
      ensures position == if ok then p else old(position)
    {
      ok := p <= |data|;
      if ok {
        position := p;
      }
    }

    method SeekCur(n: nat)
      modifies this
      ensures position == Skipped(data, old(position), n)
    {
      var ok := Seek(position + n);
    }
  }

  method ReadLE16(f: FsFile) returns (w: nat)
    modifies f
    ensures w == At16(f.data, old(f.position)) && f.position == Past(f.data, old(f.position), 2)
  {
    hide Byte, Number;
    var c0 := f.Read();
    var c1 := f.Read();
    w := Word16(Byte(if c0 < 0 then 0 else c0), Byte(if c1 < 0 then 0 else c1));
  }

  method ReadLE32(f: FsFile) returns (w: nat)
    modifies f
    ensures w == At32(f.data, old(f.position)) && f.position == Past(f.data, old(f.position), 4)
  {
    hide Byte, Number;
    var c0 := f.Read();
    var c1 := f.Read();
    var c2 := f.Read();
    var c3 := f.Read();
    w := Word32(Byte(if c0 < 0 then 0 else c0), Byte(if c1 < 0 then 0 else c1),
                Byte(if c2 < 0 then 0 else c2), Byte(if c3 < 0 then 0 else c3));
  }

  // Four pixels a byte: the bytes written so far and the one being filled.
  ghost predicate Packing(data: seq<bv8>, outPtr: nat, current: bv8, bitShift: int, pixels: seq<bv8>) {
    && outPtr == |pixels| / 4 <= |data|
    && bitShift == 6 - 2 * (|pixels| % 4)
    && (forall k :: 0 <= k < 4 * outPtr ==> Slot(data[k / 4], k % 4) == pixels[k])
    && (forall j :: 0 <= j < 4 ==> Slot(current, j) == if 4 * outPtr + j < |pixels| then pixels[4 * outPtr + j] else 0)
  }

  // A pixel put in the next slot of the byte being filled ...
  lemma {:induction false} PixelPlaced(data: seq<bv8>, outPtr: nat, current: bv8, bitShift: int, color: bv8,
                                       pixels: seq<bv8>)
    requires Packing(data, outPtr, current, bitShift, pixels) && color <= 3
    ensures var j := (6 - bitShift) / 2;
            && j == |pixels| % 4
            && forall i :: 0 <= i < 4 ==>
                 Slot(WithSlot(current, j, color), i)
                 == if 4 * outPtr + i < |pixels| + 1 then (pixels + [color])[4 * outPtr + i] else 0
  {
    hide Slot, WithSlot;
    var j := |pixels| % 4;
    assert Slot(current, j) == 0;
    forall i | 0 <= i < 4
      ensures Slot(WithSlot(current, j, color), i) == if i == j then color else Slot(current, i)
    {
      SlotWritten(current, j, color, i);
    }
  }

  // ... completes the byte, or does not.
  lemma {:induction false} ByteCompleted(data: seq<bv8>, outPtr: nat, current: bv8, byte: bv8, pixels: seq<bv8>,
                                         color: bv8)
    requires Packing(data, outPtr, current, 0, pixels) && outPtr < |data|
    requires forall i :: 0 <= i < 4 ==>
               Slot(byte, i) == if 4 * outPtr + i < |pixels| + 1 then (pixels + [color])[4 * outPtr + i] else 0
    ensures Packing(data[outPtr := byte], outPtr + 1, 0, 6, pixels + [color])
  {
    hide Slot;
    var n := outPtr;
    assert |pixels| == 4 * n + 3;
    FourPart(n + 1, 0);
    forall i | 0 <= i < 4
      ensures Slot(0, i) == 0
    {
      BlankByte(i);
    }
    forall k | 0 <= k < 4 * n
      ensures Slot(data[n := byte][k / 4], k % 4) == (pixels + [color])[k]
    {
      assert k / 4 < n && Slot(data[k / 4], k % 4) == pixels[k];
    }
    forall k | 4 * n <= k < 4 * (n + 1)
      ensures Slot(data[n := byte][k / 4], k % 4) == (pixels + [color])[k]
    {
      FourPart(n, k - 4 * n);
      assert data[n := byte][k / 4] == byte && Slot(byte, k % 4) == (pixels + [color])[4 * n + k % 4];
    }
  }

  lemma {:induction false} FourPart(n: nat, i: nat)
    requires i < 4
    ensures (4 * n + i) / 4 == n && (4 * n + i) % 4 == i
  {
  }

  method PackPixel(data: array<bv8>, outPtr: nat, current: bv8, bitShift: int, color: bv8, ghost pixels: seq<bv8>)
    returns (outPtr': nat, current': bv8, bitShift': int)
    requires Packing(data[..], outPtr, current, bitShift, pixels) && color <= 3
    requires |pixels| < 4 * data.Length
    modifies data
    ensures Packing(data[..], outPtr', current', bitShift', pixels + [color])
    ensures forall k :: outPtr' <= k < data.Length ==> data[k] == old(data[k])
  {
    hide Slot, WithSlot;
    var j := (6 - bitShift) / 2;
    PixelPlaced(data[..], outPtr, current, bitShift, color, pixels);
    outPtr', current', bitShift' := outPtr, WithSlot(current, j, color), bitShift;
    if bitShift' == 0 {
      ByteCompleted(data[..], outPtr, current, current', pixels, color);
      ghost var filled := data[..][outPtr := current'];
      data[outPtr'] := current';
      assert data[..] == filled;
      outPtr', current', bitShift' := outPtr' + 1, 0, 6;
    } else {
      bitShift' := bitShift' - 2;
    }
  }

  // What a row of the file shows.
  ghost function Shown(bpp: int, lum: seq<bv8>, row: seq<bv8>, width: nat): seq<bv8>
    requires |lum| == 256 && ValidBpp(bpp) && |row| == RowBytes(width, bpp)
  {
    seq(width, x requires 0 <= x < width => PixelInRow(bpp, width, x); Color(bpp, Luminance(bpp, lum, row, x)))
  }

  predicate RowHolds(bpp: int, bytes: int, x: nat) {
    && x * bpp < 8 * bytes
    && (bpp == 24 ==> 3 * x + 2 < bytes)
    && (bpp == 32 ==> 4 * x + 2 < bytes)
  }

  lemma {:induction false} PixelInRow(bpp: int, width: nat, x: nat)
    requires ValidBpp(bpp) && x < width
    ensures RowHolds(bpp, RowBytes(width, bpp), x)
  {
    MulMonotone(bpp, x + 1, width);
    Distribute(bpp, x, 1);
    DivMod(width * bpp + 31, 32);
  }

  lemma {:induction false} ColorBound(bpp: int, lum: bv8)
    ensures Color(bpp, lum) <= 3
  {
  }

  lemma {:induction false} ShownLength(bpp: int, lum: seq<bv8>, row: seq<bv8>, width: nat)
    requires |lum| == 256 && ValidBpp(bpp) && |row| == RowBytes(width, bpp)
    ensures |Shown(bpp, lum, row, width)| == width
  {
  }

  lemma {:induction false} ShownAt(bpp: int, lum: seq<bv8>, row: seq<bv8>, width: nat, x: nat)
    requires |lum| == 256 && ValidBpp(bpp) && |row| == RowBytes(width, bpp) && x < width
    requires RowHolds(bpp, |row|, x)
    ensures |Shown(bpp, lum, row, width)| == width
    ensures Shown(bpp, lum, row, width)[x] == Color(bpp, Luminance(bpp, lum, row, x)) <= 3
  {
    hide Luminance, Color, RowBytes;
    ColorBound(bpp, Luminance(bpp, lum, row, x));
  }

  lemma {:induction false} PackingStarts(data: seq<bv8>)
    ensures Packing(data, 0, 0, 6, [])
  {
    hide Slot;
    forall j | 0 <= j < 4 ensures Slot(0, j) == 0 {
      BlankByte(j);
    }
  }

  lemma {:induction false} PackingAhead(data: seq<bv8>, outPtr: nat, current: bv8, bitShift: int, pixels: seq<bv8>)
    requires Packing(data, outPtr, current, bitShift, pixels)
    ensures outPtr == |pixels| / 4
  {
  }

  lemma {:induction false} PackingFits(data: seq<bv8>, outPtr: nat, current: bv8, bitShift: int, pixels: seq<bv8>)
    requires Packing(data, outPtr, current, bitShift, pixels) && |pixels| <= 4 * |data|
    ensures bitShift != 6 ==> outPtr < (|pixels| + 3) / 4 <= |data|
  {
  }

  // Writing out the byte being filled, unless it is empty, completes the row.
  lemma {:induction false} Flushed(before: seq<bv8>, after: seq<bv8>, outPtr: nat, current: bv8, bitShift: int,
                                   pixels: seq<bv8>)
    requires Packing(before, outPtr, current, bitShift, pixels) && |pixels| <= 4 * |before|
    requires bitShift != 6 ==> outPtr < |before|
    requires after == if bitShift != 6 then before[outPtr := current] else before
    ensures Holds2(after[..(|pixels| + 3) / 4], pixels)
  {
    hide Slot;
    var row := after[..(|pixels| + 3) / 4];
    forall x | 0 <= x < 4 * |row|
      ensures Slot(row[x / 4], x % 4) == if x < |pixels| then pixels[x] else 0
    {
      if x >= 4 * outPtr {
        assert x / 4 == outPtr && x == 4 * outPtr + x % 4;
      }
    }
  }

  /** A picture in a file, read row by row. */
  class Bitmap {
    const file: FsFile
    const paletteLum: array<bv8>
    var width: int
    var height: int
    var topDown: bool
    var bfOffBits: nat
    var bpp: nat
    var rowBytes: int
    var prevRowY: int

    constructor (file: FsFile)
      ensures this.file == file && fresh(paletteLum) && paletteLum.Length == 256 && prevRowY == -1
    {
      this.file := file;
      paletteLum := new bv8[256](_ => 0);
      width, height, topDown, bfOffBits, bpp, rowBytes, prevRowY := 0, 0, false, 0, 0, 0, -1;
    }

    // What reading the headers of a file without fault leaves behind.
    ghost predicate Parsed()
      reads this, file, paletteLum
    {
      && width == Width(file.data) && height == Height(file.data) && topDown == (RawHeight(file.data) < 0)
      && bfOffBits == Offset(file.data) && bpp == Bpp(file.data) && rowBytes == RowBytes(width, bpp)
      && file.position == bfOffBits <= |file.data|
      && PaletteOf(file.data, paletteLum[..])
    }

    method ReadPalette(colorsUsed: nat)
      requires paletteLum.Length == 256 && colorsUsed <= 256
      requires file.position == PaletteAt(file.data) <= |file.data| && colorsUsed == Colors(file.data)
      modifies file, paletteLum
      ensures PaletteOf(file.data, paletteLum[..])
    {
      hide Luma, Byte, Colors, PaletteAt;
      for i := 0 to 256
        invariant file.position == old(file.position)
        invariant forall k :: 0 <= k < i ==> paletteLum[k] == Byte(k)
      {
        paletteLum[i] := Byte(i);
      }
      ghost var start := file.position;
      var rgb := new bv8[4];
      for i := 0 to colorsUsed
        invariant start + 4 * i <= |file.data| ==> file.position == start + 4 * i
        invariant start + 4 * i > |file.data| ==> file.position == |file.data|
        invariant forall k :: i <= k < 256 ==> paletteLum[k] == Byte(k)
        invariant forall k :: 0 <= k < i && start + 4 * k + 4 <= |file.data| ==>
                                paletteLum[k] == Luma(file.data[start + 4 * k], file.data[start + 4 * k + 1],
                                                      file.data[start + 4 * k + 2])
      {
        var got := file.ReadBytes(rgb, 4);
        assert got == 4 ==> rgb[..got][0] == rgb[0] && rgb[..got][1] == rgb[1] && rgb[..got][2] == rgb[2];
        paletteLum[i] := Luma(rgb[0], rgb[1], rgb[2]);
      }
    }

    method ReadDibFields() returns (planes: nat, comp: nat)
      requires file.position == WidthAt(file.data)
      modifies this`width, this`height, this`topDown, this`bpp, file
      ensures width == Width(file.data) && height == Height(file.data) && topDown == (RawHeight(file.data) < 0)
      ensures planes == Planes(file.data) && bpp == Bpp(file.data) && comp == Compression(file.data)
      ensures file.position == Past(file.data, CompressionAt(file.data), 4)
    {
      hide At16, At32, Past, Signed, Wrapped, WidthAt;
      var rawWidth := ReadLE32(file);
      width := Signed(rawWidth);
      var raw := ReadLE32(file);
      var rawHeight := Signed(raw);
      topDown := rawHeight < 0;
      height := if topDown then Signed(Wrapped(-rawHeight)) else rawHeight;
      planes := ReadLE16(file);
      bpp := ReadLE16(file);
      comp := ReadLE32(file);
    }

    method ParseHeaders() returns (err: Error)
      requires paletteLum.Length == 256
      modifies this, file, paletteLum
      ensures prevRowY == old(prevRowY)
      ensures !file.isOpen ==> err == FileInvalid
      ensures file.isOpen ==> err == HeaderError(file.data)
      ensures err == Ok ==> Parsed()
    {
      hide At16, At32, RowBytes, PaletteOf, Past, Skipped, Width, Height, RawHeight, Planes, Bpp, Compression;
      hide CompressionAt;
      PaletteInFile(file.data);
      if !file.isOpen {
        return FileInvalid;
      }
      var rewound := file.Seek(0);
      var bfType := ReadLE16(file);
      if bfType != 0x4D42 {
        return NotBMP;
      }
      file.SeekCur(8);
      bfOffBits := ReadLE32(file);
      var biSize := ReadLE32(file);
      if biSize < 40 {
        return DIBTooSmall;
      }
      var planes, comp := ReadDibFields();
      if planes != 1 {
        return BadPlanes;
      }
      if !ValidBpp(bpp) {
        return UnsupportedBpp;
      }
      if !(comp == 0 || (bpp == 32 && comp == 3)) {
        return UnsupportedCompression;
      }
      file.SeekCur(12);
      var colorsUsed := ReadLE32(file);
      if colorsUsed > 256 {
        return PaletteTooLarge;
      }
      file.SeekCur(4);
      if width <= 0 || height <= 0 {
        return BadDimensions;
      }
      if width > MAX_IMAGE_WIDTH || height > MAX_IMAGE_HEIGHT {
        return ImageTooLarge;
      }
      rowBytes := RowBytes(width, bpp);
      ReadPalette(colorsUsed);
      var found := file.Seek(bfOffBits);
      if !found {
        return SeekPixelDataFailed;
      }
      return Ok;
    }

    method ReadNextRow(data: array<bv8>, rowBuffer: array<bv8>) returns (err: Error)
      requires paletteLum.Length == 256 && paletteLum !in {data, rowBuffer} && data != rowBuffer
      requires 0 <= width <= 4 * data.Length && 0 <= rowBytes == rowBuffer.Length
      requires ValidBpp(bpp) ==> rowBytes == RowBytes(width, bpp)
      requires file.position <= |file.data|
      modifies this`prevRowY, file, data, rowBuffer
      ensures old(file.position) + rowBytes > |file.data| ==> err == ShortReadRow && prevRowY == old(prevRowY)
      ensures old(file.position) + rowBytes <= |file.data| ==>
                && file.position == old(file.position) + rowBytes && prevRowY == old(prevRowY) + 1
                && err == if ValidBpp(bpp) then Ok else UnsupportedBpp
      ensures err == Ok ==>
                && ValidBpp(bpp) && old(file.position) + rowBytes <= |file.data|
                && var row := file.data[old(file.position)..old(file.position) + rowBytes];
                   Holds2(data[..(width + 3) / 4], Shown(bpp, paletteLum[..], row, width))
      ensures forall k :: (width + 3) / 4 <= k < data.Length ==> data[k] == old(data[k])
    {
      hide RowBytes, Packing, Holds2, Shown;
      var got := file.ReadBytes(rowBuffer, rowBytes);
      if got != rowBytes {
        return ShortReadRow;
      }
      assert rowBuffer[..got] == rowBuffer[..];
      prevRowY := prevRowY + 1;
      if !ValidBpp(bpp) {
        return UnsupportedBpp;
      }
      var outPtr, current, bitShift := Unpack(data, rowBuffer);
      ghost var before := data[..];
      ghost var pixels := Shown(bpp, paletteLum[..], rowBuffer[..], width);
      ShownLength(bpp, paletteLum[..], rowBuffer[..], width);
      PackingFits(before, outPtr, current, bitShift, pixels);
      if bitShift != 6 {
        data[outPtr] := current;
      }
      Flushed(before, data[..], outPtr, current, bitShift, pixels);
      return Ok;
    }

    method Lookup(rowBuffer: array<bv8>, x: nat) returns (lum: bv8)
      requires paletteLum.Length == 256 && ValidBpp(bpp) && RowHolds(bpp, rowBuffer.Length, x)
      ensures lum == Luminance(bpp, paletteLum[..], rowBuffer[..], x)
    {
      hide Slot, Bit, Luma, Byte, Number;
      match bpp
      case 32 => lum := Luma(rowBuffer[4 * x], rowBuffer[4 * x + 1], rowBuffer[4 * x + 2]);
      case 24 => lum := Luma(rowBuffer[3 * x], rowBuffer[3 * x + 1], rowBuffer[3 * x + 2]);
      case 8 => lum := Indexed(paletteLum[..], rowBuffer[x]);
      case 2 => lum := Indexed(paletteLum[..], Slot(rowBuffer[x / 4], x % 4));
      case _ => lum := Indexed(paletteLum[..], if Bit(rowBuffer[x / 8], x % 8) then 1 else 0);
    }

    method Unpack(data: array<bv8>, rowBuffer: array<bv8>) returns (outPtr: nat, current: bv8, bitShift: int)
      requires paletteLum.Length == 256 && paletteLum !in {data, rowBuffer} && data != rowBuffer
      requires 0 <= width <= 4 * data.Length && ValidBpp(bpp) && rowBuffer.Length == rowBytes == RowBytes(width, bpp)
      modifies data
      ensures Packing(data[..], outPtr, current, bitShift, Shown(bpp, paletteLum[..], rowBuffer[..], width))
      ensures forall k :: (width + 3) / 4 <= k < data.Length ==> data[k] == old(data[k])
    {
      hide RowBytes, Luminance, Color, Packing, Shown;
      ghost var pixels := Shown(bpp, paletteLum[..], rowBuffer[..], width);
      ShownLength(bpp, paletteLum[..], rowBuffer[..], width);
      outPtr, current, bitShift := 0, 0, 6;
      PackingStarts(data[..]);
      assert pixels[..0] == [];
      for x := 0 to width
        invariant Packing(data[..], outPtr, current, bitShift, pixels[..x])
        invariant forall k :: (width + 3) / 4 <= k < data.Length ==> data[k] == old(data[k])
      {
        PixelInRow(bpp, width, x);
        var lum := Lookup(rowBuffer, x);
        ShownAt(bpp, paletteLum[..], rowBuffer[..], width, x);
        assert pixels[..x + 1] == pixels[..x] + [pixels[x]];
        outPtr, current, bitShift := PackPixel(data, outPtr, current, bitShift, Color(bpp, lum), pixels[..x]);
        PackingAhead(data[..], outPtr, current, bitShift, pixels[..x + 1]);
      }
      assert pixels[..width] == pixels;
    }
  }

  // ---------------------------------------------------------------------------
  // Reading undoes writing
  // ---------------------------------------------------------------------------

  lemma {:induction false} Found32(data: seq<bv8>, p: nat, v: int)
    requires p + 4 <= |data| && data[p..p + 4] == Le32(v)
    ensures At32(data, p) == Wrapped(v)
  {
    hide Byte, Shifted, Word32, Wrapped;
    WordRoundTrip(v);
    var w := data[p..p + 4];
    assert data[p] == w[0] && data[p + 1] == w[1] && data[p + 2] == w[2] && data[p + 3] == w[3];
  }

  lemma {:induction false} Found16(data: seq<bv8>, p: nat, v: int)
    requires p + 2 <= |data| && data[p..p + 2] == Le16(v) && 0 <= v < 0x1_0000
    ensures At16(data, p) == v
  {
    hide Byte, Shifted, Word32, Wrapped;
    WordRoundTrip(v);
    var w := data[p..p + 2];
    assert data[p] == w[0] && data[p + 1] == w[1];
  }

  lemma {:induction false} FileHeaderLayout(fileSize: int, offset: int)
    ensures var h := FileHeader(fileSize, offset);
            |h| == 14 && h[0..2] == [0x42, 0x4D] && h[10..14] == Le32(offset)
  {
    hide Le32;
  }

  lemma {:induction false} DibHeaderLayout(width: int, height: int, bpp: int, imageSize: int, colors: int)
    ensures var h := DibHeader(width, height, bpp, imageSize, colors);
            && |h| == 40 && h[0..4] == Le32(40) && h[4..8] == Le32(width) && h[8..12] == Le32(-height)
            && h[12..14] == Le16(1) && h[14..16] == Le16(bpp) && h[16..20] == Le32(0) && h[32..36] == Le32(colors)
  {
    hide Le32, Le16;
  }

  lemma {:induction false} HeaderLength(width: int, height: int, bpp: nat)
    requires bpp == 1 || bpp == 2
    ensures |Header(width, height, bpp)| == PixelOffset(bpp)
  {
    hide FileHeader, DibHeader, RowBytes;
    var imageSize := RowBytes(width, bpp) * height;
    FileHeaderLayout(PixelOffset(bpp) + imageSize, PixelOffset(bpp));
    DibHeaderLayout(width, height, bpp, imageSize, if bpp == 1 then 2 else 4);
  }

  // A slice of a part of a file that starts at p.
  lemma {:induction false} SliceOfPart(data: seq<bv8>, part: seq<bv8>, p: nat, i: nat, j: nat)
    requires p + |part| <= |data| && data[p..p + |part|] == part && i <= j <= |part|
    ensures data[p + i..p + j] == part[i..j]
  {
    var slice := data[p + i..p + j];
    forall k | 0 <= k < j - i ensures slice[k] == part[i..j][k] {
      assert data[p..p + |part|][i + k] == data[p + i + k];
    }
  }

  ghost predicate StartsWithHeader(data: seq<bv8>, width: int, height: int, bpp: nat) {
    && (bpp == 1 || bpp == 2)
    && |data| >= PixelOffset(bpp)
    && data[..PixelOffset(bpp)] == Header(width, height, bpp)
  }

  lemma {:induction false} HeaderParts(data: seq<bv8>, width: int, height: int, bpp: nat)
    requires StartsWithHeader(data, width, height, bpp)
    ensures (bpp == 1 || bpp == 2) && |data| >= PixelOffset(bpp)
    ensures var imageSize := RowBytes(width, bpp) * height;
            && data[0..14] == FileHeader(PixelOffset(bpp) + imageSize, PixelOffset(bpp))
            && data[14..54] == DibHeader(width, height, bpp, imageSize, if bpp == 1 then 2 else 4)
            && data[54..PixelOffset(bpp)] == Palette(bpp)
  {
    hide FileHeader, DibHeader, RowBytes;
    var imageSize := RowBytes(width, bpp) * height;
    FileHeaderLayout(PixelOffset(bpp) + imageSize, PixelOffset(bpp));
    DibHeaderLayout(width, height, bpp, imageSize, if bpp == 1 then 2 else 4);
    var h := Header(width, height, bpp);
    assert h[0..14] == data[..PixelOffset(bpp)][0..14] == data[0..14];
    assert h[14..54] == data[..PixelOffset(bpp)][14..54] == data[14..54];
    assert h[54..] == data[..PixelOffset(bpp)][54..] == data[54..PixelOffset(bpp)];
  }

  // Past the end of the fixed headers nothing is read at an unexpected place.
  lemma {:induction false} FixedPlaces(data: seq<bv8>)
    requires |data| >= 54
    ensures OffsetAt(data) == 10 && SizesAt(data) == 14 && WidthAt(data) == 18 && HeightAt(data) == 22
    ensures PlanesAt(data) == 26 && BppAt(data) == 28 && CompressionAt(data) == 30
    ensures ColorsAt(data) == 46 && PaletteAt(data) == 54
  {
  }

  lemma {:induction false} FieldsRead(data: seq<bv8>, width: int, height: int, bpp: nat)
    requires StartsWithHeader(data, width, height, bpp)
    requires -0x8000_0000 <= width < 0x8000_0000 && -0x8000_0000 < height < 0x8000_0000
    ensures At16(data, 0) == 0x4D42 && Offset(data) == PixelOffset(bpp) && DibSize(data) == 40
    ensures Width(data) == width && RawHeight(data) == -height
    ensures Planes(data) == 1 && Bpp(data) == bpp && Compression(data) == 0
    ensures Colors(data) == if bpp == 1 then 2 else 4
  {
    hide FileHeader, DibHeader, RowBytes, Le32, Le16, At32, At16, StartsWithHeader, Wrapped, Signed;
    hide OffsetAt, SizesAt, WidthAt, HeightAt, PlanesAt, BppAt, CompressionAt, ColorsAt;
    HeaderParts(data, width, height, bpp);
    FixedPlaces(data);
    var imageSize := RowBytes(width, bpp) * height;
    var colors := if bpp == 1 then 2 else 4;
    var f := FileHeader(PixelOffset(bpp) + imageSize, PixelOffset(bpp));
    var d := DibHeader(width, height, bpp, imageSize, colors);
    FileHeaderLayout(PixelOffset(bpp) + imageSize, PixelOffset(bpp));
    DibHeaderLayout(width, height, bpp, imageSize, colors);
    SliceOfPart(data, f, 0, 0, 2);
    SliceOfPart(data, f, 0, 10, 14);
    SliceOfPart(data, d, 14, 0, 4);
    SliceOfPart(data, d, 14, 4, 8);
    SliceOfPart(data, d, 14, 8, 12);
    SliceOfPart(data, d, 14, 12, 14);
    SliceOfPart(data, d, 14, 14, 16);
    SliceOfPart(data, d, 14, 16, 20);
    SliceOfPart(data, d, 14, 32, 36);
    MagicWord();
    Found16(data, 0, 0x4D42);
    Found32(data, 10, PixelOffset(bpp));
    Found32(data, 14, 40);
    Found32(data, 18, width);
    Found32(data, 22, -height);
    Found16(data, 26, 1);
    Found16(data, 28, bpp);
    Found32(data, 30, 0);
    Found32(data, 46, colors);
    SmallWord(PixelOffset(bpp));
    SmallWord(40);
    SmallWord(0);
    SmallWord(colors);
    SignedRoundTrip(width);
    SignedRoundTrip(-height);
  }

  lemma {:induction false} SmallWord(v: nat)
    requires v < 0x1_0000_0000
    ensures Wrapped(v) == v
  {
  }

  lemma {:induction false} MagicWord()
    ensures Le16(0x4D42) == [0x42, 0x4D]
  {
    assert Low(0x4D42) == 0x42 && Low(Shifted(0x4D42, 0x100)) == 0x4D;
  }

  // The reader takes a written header exactly when the picture is within its limits, and reads back its size.
  lemma {:induction false} HeaderRoundTrip(data: seq<bv8>, width: int, height: int, bpp: nat)
    requires StartsWithHeader(data, width, height, bpp)
    requires -0x8000_0000 <= width < 0x8000_0000 && -0x8000_0000 < height < 0x8000_0000
    ensures HeaderError(data) == Ok <==>
            1 <= width <= 2048 && height != 0 && -3072 <= height <= 3072
    ensures Width(data) == width && Bpp(data) == bpp && Offset(data) == PixelOffset(bpp)
    ensures Height(data) == (if height >= 0 then height else -height) && (RawHeight(data) < 0 <==> height > 0)
  {
    hide RowBytes, At16, At32, Header;
    FieldsRead(data, width, height, bpp);
    if height > 0 {
      SignedRoundTrip(height);
    }
  }

  // What a pixel comes back as: two-bit values as they are, black and white as the two ends.
  function Returned(bpp: nat, pixel: bv8): bv8 {
    if bpp == 1 then if pixel == 1 then 3 else 0 else pixel
  }

  function ReturnedRow(bpp: nat, pixels: seq<bv8>): seq<bv8> {
    seq(|pixels|, x requires 0 <= x < |pixels| => Returned(bpp, pixels[x]))
  }

  // The written levels.
  function Level(bpp: nat, i: nat): bv8 {
    if i == 0 then 0 else if bpp == 1 || i == 3 then 0xFF else if i == 1 then 0x55 else 0xAA
  }

  lemma {:induction false} PaletteLevels(data: seq<bv8>, bpp: nat, i: nat)
    requires |data| >= PixelOffset(bpp) && data[54..PixelOffset(bpp)] == Palette(bpp)
    requires i < if bpp == 1 then 2 else 4
    ensures data[54 + 4 * i] == data[54 + 4 * i + 1] == data[54 + 4 * i + 2] == Level(bpp, i)
  {
    var p := data[54..PixelOffset(bpp)];
    assert data[54 + 4 * i] == p[4 * i] && data[54 + 4 * i + 1] == p[4 * i + 1] && data[54 + 4 * i + 2] == p[4 * i + 2];
  }

  lemma {:induction false} LevelReturned(bpp: nat, pixel: bv8)
    requires pixel <= Largest(bpp)
    ensures Number(pixel) < if bpp == 1 then 2 else 4
    ensures Level(bpp, Number(pixel)) >> 6 == Returned(bpp, pixel)
  {
    NumberOfSmall(pixel);
  }

  lemma {:induction false} PaletteRead(data: seq<bv8>, lum: seq<bv8>, width: int, height: int, bpp: nat, pixel: bv8)
    requires StartsWithHeader(data, width, height, bpp) && PaletteOf(data, lum)
    requires PaletteAt(data) == 54 && Colors(data) == if bpp == 1 then 2 else 4
    requires pixel <= Largest(bpp)
    ensures Indexed(lum, pixel) >> 6 == Returned(bpp, pixel)
  {
    hide RowBytes, StartsWithHeader, Colors, PaletteAt, Luma, Number, Level, Returned, Palette, Byte;
    HeaderParts(data, width, height, bpp);
    LevelReturned(bpp, pixel);
    PaletteLevels(data, bpp, Number(pixel));
    GrayIsItsOwnLuma(Level(bpp, Number(pixel)));
  }

  lemma {:induction false} NumberOfSmall(b: bv8)
    requires b <= 3
    ensures Number(b) == if b == 0 then 0 else if b == 1 then 1 else if b == 2 then 2 else 3
  {
  }

  lemma {:induction false} RowRoundTrip(data: seq<bv8>, lum: seq<bv8>, height: int, bpp: nat, row: seq<bv8>,
                                        pixels: seq<bv8>)
    requires StartsWithHeader(data, |pixels|, height, bpp) && PaletteOf(data, lum)
    requires PaletteAt(data) == 54 && Colors(data) == if bpp == 1 then 2 else 4
    requires bpp == 1 || bpp == 2
    requires |row| == RowBytes(|pixels|, bpp) && Holds(bpp, row, pixels) && Within(bpp, pixels) && |lum| == 256
    ensures Shown(bpp, lum, row, |pixels|) == ReturnedRow(bpp, pixels)
  {
    hide RowBytes, StartsWithHeader, PaletteOf, Slot, Bit, Shown, Number, Byte, PaletteAt, Colors, Returned, Indexed;
    ShownLength(bpp, lum, row, |pixels|);
    forall x | 0 <= x < |pixels| ensures Shown(bpp, lum, row, |pixels|)[x] == Returned(bpp, pixels[x]) {
      PixelInRow(bpp, |pixels|, x);
      ShownAt(bpp, lum, row, |pixels|, x);
      PaletteRead(data, lum, |pixels|, height, bpp, pixels[x]);
    }
  }

  // A file from p on: the rows, one after another, and nothing else.
  ghost predicate IsRows(data: seq<bv8>, p: nat, bytes: nat, bpp: nat, rows: seq<seq<bv8>>)
    decreases |rows|
  {
    if rows == [] then p == |data|
    else
      && p + bytes <= |data|
      && Holds(bpp, data[p..p + bytes], rows[0])
      && IsRows(data, p + bytes, bytes, bpp, rows[1..])
  }

  lemma {:induction false} IsRowsAppend(data: seq<bv8>, p: nat, bytes: nat, bpp: nat, rows: seq<seq<bv8>>,
                                        row: seq<bv8>, pixels: seq<bv8>)
    requires IsRows(data, p, bytes, bpp, rows) && |row| == bytes && Holds(bpp, row, pixels)
    ensures IsRows(data + row, p, bytes, bpp, rows + [pixels])
    decreases |rows|
  {
    hide Holds;
    if rows == [] {
      assert (data + row)[p..p + bytes] == row;
      assert (rows + [pixels])[1..] == [];
    } else {
      IsRowsAppend(data, p + bytes, bytes, bpp, rows[1..], row, pixels);
      assert (data + row)[p..p + bytes] == data[p..p + bytes];
      assert (rows + [pixels])[1..] == rows[1..] + [pixels];
    }
  }

  ghost predicate Rectangular(rows: seq<seq<bv8>>, width: nat, bpp: nat) {
    forall y :: 0 <= y < |rows| ==> |rows[y]| == width && Within(bpp, rows[y])
  }

  // A file written for a picture: its header, then its rows, which may be fewer than the height in the header.
  ghost predicate IsImage(data: seq<bv8>, bpp: nat, width: nat, height: nat, rows: seq<seq<bv8>>) {
    && StartsWithHeader(data, width, height, bpp)
    && IsRows(data, PixelOffset(bpp), RowBytes(width, bpp), bpp, rows)
  }

  method PackRow(rowBuffer: array<bv8>, pixels: seq<bv8>, oneBit: bool)
    requires Within(if oneBit then 1 else 2, pixels)
    requires |pixels| <= (if oneBit then 8 else 4) * rowBuffer.Length
    modifies rowBuffer
    ensures Holds(if oneBit then 1 else 2, rowBuffer[..], pixels)
  {
    if oneBit {
      PackRow1(rowBuffer, pixels);
    } else {
      PackRow2(rowBuffer, pixels);
    }
  }

  // The converter, the dithered values given.  The height goes into the header before any row is known.
  method WriteImage(out: Print, width: nat, height: nat, rows: seq<seq<bv8>>, oneBit: bool)
    requires Rectangular(rows, width, if oneBit then 1 else 2) && out.written == []
    modifies out
    ensures IsImage(out.written, if oneBit then 1 else 2, width, height, rows)
  {
    hide Holds, Within, RowBytes, Header;
    ghost var bpp := if oneBit then 1 else 2;
    RowBytesOf(width, bpp);
    var bytesPerRow: int;
    if oneBit {
      WriteBmpHeader1bit(out, width, height);
      bytesPerRow := (width + 31) / 32 * 4;
    } else {
      WriteBmpHeader2bit(out, width, height);
      bytesPerRow := (width * 2 + 31) / 32 * 4;
    }
    HeaderLength(width, height, bpp);
    var rowBuffer := new bv8[bytesPerRow];
    for y := 0 to |rows|
      invariant |out.written| >= PixelOffset(bpp) && out.written[..PixelOffset(bpp)] == Header(width, height, bpp)
      invariant IsRows(out.written, PixelOffset(bpp), bytesPerRow, bpp, rows[..y])
    {
      PackRow(rowBuffer, rows[y], oneBit);
      IsRowsAppend(out.written, PixelOffset(bpp), bytesPerRow, bpp, rows[..y], rowBuffer[..], rows[y]);
      assert rows[..y + 1] == rows[..y] + [rows[y]];
      out.WriteAll(rowBuffer);
    }
    assert rows[..|rows|] == rows;
  }

  // The values the screen draws from an output row.
  method PixelValues(outputRow: array<bv8>, width: nat, ghost shown: seq<bv8>) returns (values: seq<bv8>)
    requires (width + 3) / 4 <= outputRow.Length && |shown| == width && Holds2(outputRow[..(width + 3) / 4], shown)
    ensures values == shown
  {
    hide Slot;
    values := [];
    for bmpX := 0 to width
      invariant values == shown[..bmpX]
    {
      assert outputRow[..(width + 3) / 4][bmpX / 4] == outputRow[bmpX / 4];
      values := values + [Slot(outputRow[bmpX / 4], bmpX % 4)];
    }
  }

  // Row after row, until the picture ends or a row is short.
  method ReadImage(bitmap: Bitmap, ghost bpp: nat, ghost rows: seq<seq<bv8>>)
    returns (err: Error, picture: seq<seq<bv8>>)
    requires bpp == 1 || bpp == 2
    requires bitmap.width > 0 && bitmap.paletteLum.Length == 256 && bitmap.Parsed()
    requires |rows| <= bitmap.height && IsImage(bitmap.file.data, bpp, bitmap.width, bitmap.height, rows)
    requires bitmap.bpp == bpp && bitmap.bfOffBits == PixelOffset(bpp)
    requires PaletteAt(bitmap.file.data) == 54 && Colors(bitmap.file.data) == if bpp == 1 then 2 else 4
    requires Rectangular(rows, bitmap.width, bpp)
    modifies bitmap`prevRowY, bitmap.file
    ensures err == (if |rows| == bitmap.height then Ok else ShortReadRow) && |picture| == |rows|
    ensures forall y :: 0 <= y < |rows| ==> picture[y] == ReturnedRow(bpp, rows[y])
  {
    hide Holds, Within, RowBytes, PaletteOf, StartsWithHeader, Holds2, Shown, ReturnedRow, Colors, PaletteAt;
    hide Width, Height, RawHeight, Bpp, Offset;
    var width := bitmap.width;
    var outputRow := new bv8[(width + 3) / 4];
    RowBytesOf(width, bpp);
    var rowBuffer := new bv8[bitmap.rowBytes];
    picture := [];
    for bmpY := 0 to bitmap.height
      invariant |picture| == bmpY <= |rows|
      invariant forall y :: 0 <= y < bmpY ==> picture[y] == ReturnedRow(bpp, rows[y])
      invariant bitmap.file.position <= |bitmap.file.data|
      invariant IsRows(bitmap.file.data, bitmap.file.position, bitmap.rowBytes, bpp, rows[bmpY..])
    {
      ghost var start := bitmap.file.position;
      err := bitmap.ReadNextRow(outputRow, rowBuffer);
      if err != Ok {
        return;
      }
      assert rows[bmpY..] != [];
      assert rows[bmpY..][0] == rows[bmpY] && rows[bmpY..][1..] == rows[bmpY + 1..];
      ghost var row := bitmap.file.data[start..start + bitmap.rowBytes];
      RowRoundTrip(bitmap.file.data, bitmap.paletteLum[..], bitmap.height, bpp, row, rows[bmpY]);
      ShownLength(bpp, bitmap.paletteLum[..], row, width);
      var values := PixelValues(outputRow, width, Shown(bpp, bitmap.paletteLum[..], row, width));
      picture := picture + [values];
    }
    err := Ok;
  }

  // A written file is accepted exactly when its sizes are within the reader's limits.  Then all of its rows come back;
  // if they are fewer than the height in the header, reading ends with a row that is short.
  method WriteThenRead(width: nat, height: nat, rows: seq<seq<bv8>>, oneBit: bool)
    returns (accepted: bool, err: Error, picture: seq<seq<bv8>>)
    requires width < 0x8000_0000 && |rows| <= height < 0x8000_0000
    requires Rectangular(rows, width, if oneBit then 1 else 2)
    ensures accepted <==> 1 <= width <= 2048 && 1 <= height <= 3072
    ensures err == Ok <==> accepted && |rows| == height
    ensures accepted ==> |picture| == |rows| && (|rows| < height ==> err == ShortReadRow)
    ensures accepted ==> forall y :: 0 <= y < |rows| ==>
                           picture[y] == ReturnedRow(if oneBit then 1 else 2, rows[y])
  {
    hide Rectangular, IsImage, ReturnedRow;
    var out := new Print();
    WriteImage(out, width, height, rows, oneBit);
    accepted, err, picture := ReadBack(out.written, if oneBit then 1 else 2, width, height, rows);
  }

  method ReadBack(data: seq<bv8>, ghost bpp: nat, ghost width: nat, ghost height: nat, ghost rows: seq<seq<bv8>>)
    returns (accepted: bool, err: Error, picture: seq<seq<bv8>>)
    requires width < 0x8000_0000 && |rows| <= height < 0x8000_0000 && (bpp == 1 || bpp == 2)
    requires Rectangular(rows, width, bpp) && IsImage(data, bpp, width, height, rows)
    ensures accepted <==> 1 <= width <= 2048 && 1 <= height <= 3072
    ensures err == Ok <==> accepted && |rows| == height
    ensures accepted ==> |picture| == |rows| && (|rows| < height ==> err == ShortReadRow)
    ensures accepted ==> forall y :: 0 <= y < |rows| ==> picture[y] == ReturnedRow(bpp, rows[y])
  {
    hide Rectangular, PaletteOf, ReturnedRow, IsRows, HeaderError, RowBytes, Colors, PaletteAt, StartsWithHeader;
    hide Header, FileHeader, DibHeader, Palette, At16, At32, Holds;
    hide Width, Height, RawHeight, Bpp, Offset;
    var file := new FsFile(data, true);
    HeaderRoundTrip(file.data, width, height, bpp);
    FieldsRead(file.data, width, height, bpp);
    var bitmap := new Bitmap(file);
    err := bitmap.ParseHeaders();
    accepted, picture := err == Ok, [];
    if accepted {
      HeaderParts(file.data, width, height, bpp);
      FixedPlaces(file.data);
      err, picture := ReadImage(bitmap, bpp, rows);
    }
  }
}
