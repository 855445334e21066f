/** Writing the central directory of a ZIP archive as section 4.3.12 of PKWARE's APPNOTE.TXT lays it out, and looking up
    in it what was written. */
module ZipArchive {
  import opened Options
  import opened ZipFile

  // A file header of the central directory, field by field.
  datatype File = File(versionMadeBy: nat, versionNeeded: nat, flags: nat, compression: nat, time: nat, date: nat,
                       crc: nat, compressedSize: nat, uncompressedSize: nat, name: Name, extra: seq<Byte>,
                       comment: seq<Byte>, disk: nat, internalAttributes: nat, externalAttributes: nat,
                       localHeaderOffset: nat)

  predicate Word16(x: nat) {
    x < 0x1_0000
  }

  predicate Word32(x: nat) {
    x < 0x1_0000_0000
  }

  // Every field fits its place.
  predicate Printable(f: File) {
    && Word16(f.versionMadeBy) && Word16(f.versionNeeded) && Word16(f.flags) && Word16(f.compression)
    && Word16(f.time) && Word16(f.date) && Word32(f.crc) && Word32(f.compressedSize) && Word32(f.uncompressedSize)
    && Word16(|f.name|) && Word16(|f.extra|) && Word16(|f.comment|) && Word16(f.disk)
    && Word16(f.internalAttributes) && Word32(f.externalAttributes) && Word32(f.localHeaderOffset)
  }

  // Little-endian, the low byte first.
  function Le16(x: nat): (b: seq<Byte>)
    requires Word16(x)
    ensures |b| == 2
  {
    [x % 0x100, x / 0x100]
  }

  function Le32(x: nat): (b: seq<Byte>)
    requires Word32(x)
    ensures |b| == 4
  {
    Le16(x % 0x1_0000) + Le16(x / 0x1_0000)
  }

  // From the signature, P K 1 2, to the two sizes ...
  function UpToSizes(f: File): (b: seq<Byte>)
    requires Printable(f)
    ensures |b| == 28
  {
    [0x50, 0x4b, 0x01, 0x02]
    + Le16(f.versionMadeBy) + Le16(f.versionNeeded) + Le16(f.flags) + Le16(f.compression)
    + Le16(f.time) + Le16(f.date) + Le32(f.crc) + Le32(f.compressedSize) + Le32(f.uncompressedSize)
  }

  // ... and from the three lengths to the place of the local header.
  function FromLengths(f: File): (b: seq<Byte>)
    requires Printable(f)
    ensures |b| == 18
  {
    Le16(|f.name|) + Le16(|f.extra|) + Le16(|f.comment|) + Le16(f.disk)
    + Le16(f.internalAttributes) + Le32(f.externalAttributes) + Le32(f.localHeaderOffset)
  }

  function Header(f: File): (b: seq<Byte>)
    requires Printable(f)
    ensures |b| == HEADER_SIZE + |f.name| + |f.extra| + |f.comment|
  {
    UpToSizes(f) + FromLengths(f) + f.name + f.extra + f.comment
  }

  ghost predicate AllPrintable(files: seq<File>) {
    forall i {:trigger files[i]} :: 0 <= i < |files| ==> Printable(files[i])
  }

  // The headers, one after another.
  function Directory(files: seq<File>): seq<Byte>
    requires AllPrintable(files)
  {
    if files == [] then [] else Directory(files[..|files| - 1]) + Header(files[|files| - 1])
  }

  function StatOf(f: File): Stat {
    Stat(compression := f.compression, compressedSize := f.compressedSize, uncompressedSize := f.uncompressedSize,
         localHeaderOffset := f.localHeaderOffset)
  }

  // The entries that should be read, when the directory begins at offset.
  function EntriesOf(files: seq<File>, offset: nat): (entries: seq<Entry>)
    requires AllPrintable(files)
    ensures |entries| == |files|
  {
    if files == [] then []
    else
      var front, f := files[..|files| - 1], files[|files| - 1];
      EntriesOf(front, offset) + [Entry(f.name, StatOf(f), offset + |Directory(files)|)]
  }

  // ---------- reading a header ----------

  lemma {:induction false} Read16(b: seq<Byte>, p: nat, x: nat)
    requires Word16(x) && p + 2 <= |b| && b[p..p + 2] == Le16(x)
    ensures U16(b, p) == x
  {
    assert b[p] == b[p..p + 2][0] && b[p + 1] == b[p..p + 2][1];
  }

  lemma {:induction false} Read32(b: seq<Byte>, p: nat, x: nat)
    requires Word32(x) && p + 4 <= |b| && b[p..p + 4] == Le32(x)
    ensures U32(b, p) == x
  {
    hide U16, Le16;
    assert b[p..p + 2] == b[p..p + 4][..2] == Le16(x % 0x1_0000);
    assert b[p + 2..p + 4] == b[p..p + 4][2..] == Le16(x / 0x1_0000);
    Read16(b, p, x % 0x1_0000);
    Read16(b, p + 2, x / 0x1_0000);
  }

  // Where the fields lie.
  lemma {:induction false} SizesPlaces(f: File)
    requires Printable(f)
    ensures var b := UpToSizes(f);
            && b[0..4] == [0x50, 0x4b, 0x01, 0x02] && b[10..12] == Le16(f.compression)
            && b[20..24] == Le32(f.compressedSize) && b[24..28] == Le32(f.uncompressedSize)
  {
    hide Le16, Le32;
  }

  lemma {:induction false} LengthsPlaces(f: File)
    requires Printable(f)
    ensures var b := FromLengths(f);
            && b[0..2] == Le16(|f.name|) && b[2..4] == Le16(|f.extra|) && b[4..6] == Le16(|f.comment|)
            && b[14..18] == Le32(f.localHeaderOffset)
  {
    hide Le16, Le32;
    var lengths := Le16(|f.name|) + Le16(|f.extra|) + Le16(|f.comment|);
    var rest := Le16(f.disk) + Le16(f.internalAttributes) + Le32(f.externalAttributes);
    assert FromLengths(f) == lengths + rest + Le32(f.localHeaderOffset);
    assert lengths[0..2] == Le16(|f.name|) && lengths[2..4] == Le16(|f.extra|) && lengths[4..6] == Le16(|f.comment|);
    assert FromLengths(f)[0..6] == lengths;
    Sliced(FromLengths(f), 0, lengths, 0, 2);
    Sliced(FromLengths(f), 0, lengths, 2, 4);
    Sliced(FromLengths(f), 0, lengths, 4, 6);
  }

  lemma {:induction false} Sliced(b: seq<Byte>, p: nat, part: seq<Byte>, from: nat, to: nat)
    requires from <= to <= |part| && p + |part| <= |b| && b[p..p + |part|] == part
    ensures b[p + from..p + to] == part[from..to]
  {
    forall k | 0 <= k < to - from
      ensures b[p + from..p + to][k] == part[from..to][k]
    {
      assert part[from + k] == b[p..p + |part|][from + k];
    }
  }

  lemma {:induction false} HeaderParts(b: seq<Byte>, p: nat, f: File)
    requires Printable(f) && p + |Header(f)| <= |b| && b[p..p + |Header(f)|] == Header(f)
    ensures b[p..p + 28] == UpToSizes(f) && b[p + 28..p + 46] == FromLengths(f)
    ensures b[p + 46..p + 46 + |f.name|] == f.name
  {
    hide UpToSizes, FromLengths;
    var h := Header(f);
    Sliced(b, p, h, 0, 28);
    Sliced(b, p, h, 28, 46);
    Sliced(b, p, h, 46, 46 + |f.name|);
    assert h[0..28] == UpToSizes(f) && h[28..46] == FromLengths(f) && h[46..46 + |f.name|] == f.name;
  }

  lemma {:induction false} HeaderIsRead(b: seq<Byte>, p: nat, f: File)
    requires Printable(f) && p + |Header(f)| <= |b| && b[p..p + |Header(f)|] == Header(f)
    ensures EntryAt(b, p) && ReadEntry(b, p) == Entry(f.name, StatOf(f), p + |Header(f)|)
  {
    hide U16, U32, Le16, Le32, UpToSizes, FromLengths;
    HeaderParts(b, p, f);
    SizesPlaces(f);
    LengthsPlaces(f);
    Signature();
    Sliced(b, p, UpToSizes(f), 0, 4);
    Read32(b, p, CENTRAL_SIG);
    Sliced(b, p, UpToSizes(f), 10, 12);
    Read16(b, p + 10, f.compression);
    Sliced(b, p, UpToSizes(f), 20, 24);
    Read32(b, p + 20, f.compressedSize);
    Sliced(b, p, UpToSizes(f), 24, 28);
    Read32(b, p + 24, f.uncompressedSize);
    Sliced(b, p + 28, FromLengths(f), 0, 2);
    Read16(b, p + 28, |f.name|);
    Sliced(b, p + 28, FromLengths(f), 2, 4);
    Read16(b, p + 30, |f.extra|);
    Sliced(b, p + 28, FromLengths(f), 4, 6);
    Read16(b, p + 32, |f.comment|);
    Sliced(b, p + 28, FromLengths(f), 14, 18);
    Read32(b, p + 42, f.localHeaderOffset);
  }

  lemma {:induction false} Signature()
    ensures Le32(CENTRAL_SIG) == [0x50, 0x4b, 0x01, 0x02]
  {
  }

  // ---------- reading a directory ----------

  lemma {:induction false} PrintedAt(files: seq<File>, offset: nat, i: nat)
    requires AllPrintable(files) && i < |files|
    ensures Directory(files[..i + 1]) == Directory(files[..i]) + Header(files[i])
    ensures Boundary(offset, EntriesOf(files, offset), i) == offset + |Directory(files[..i])|
    ensures EntriesOf(files, offset)[i] == Entry(files[i].name, StatOf(files[i]), offset + |Directory(files[..i + 1])|)
    ensures Directory(files[..i + 1]) <= Directory(files)
    decreases |files|
  {
    hide Header, StatOf, Printable;
    var n := |files| - 1;
    assert files[..i + 1][..i] == files[..i] && files[..n][..i] == files[..i];
    if i == n {
      assert files[..n + 1] == files;
      if n > 0 {
        PrintedAt(files[..n], offset, n - 1);
        assert files[..n][..n - 1 + 1] == files[..n];
      }
    } else {
      PrintedAt(files[..n], offset, i);
      assert files[..n][..i + 1] == files[..i + 1];
    }
  }

  /** A directory as it is written, with something else behind it, is read as exactly the files written. */
  lemma {:induction false} DirectoryIsRead(before: seq<Byte>, files: seq<File>, after: seq<Byte>)
    requires AllPrintable(files) && |after| >= 4 && after[..4] != [0x50, 0x4b, 0x01, 0x02]
    ensures IsDirectory(before + Directory(files) + after, |before|, EntriesOf(files, |before|))
  {
    hide U16, U32, Header, Directory, EntriesOf, EntryAt, ReadEntry;
    var b, entries := before + Directory(files) + after, EntriesOf(files, |before|);
    forall i: nat | i < |files|
      ensures EntryFits(b, |before|, entries, i)
    {
      PrintedAt(files, |before|, i);
      var p, h := |before| + |Directory(files[..i])|, Header(files[i]);
      var d := Directory(files[..i + 1]);
      assert b[p..p + |h|] == d[|Directory(files[..i])|..] == h;
      HeaderIsRead(b, p, files[i]);
    }
    var end := |before| + |Directory(files)|;
    EndOfDirectory(files, |before|);
    assert b[end..end + 4] == after[..4];
    SignatureBytes(b, end);
  }

  lemma {:induction false} EndOfDirectory(files: seq<File>, offset: nat)
    requires AllPrintable(files)
    ensures Boundary(offset, EntriesOf(files, offset), |files|) == offset + |Directory(files)|
  {
    if files != [] {
      PrintedAt(files, offset, |files| - 1);
      assert files[..|files|] == files;
    }
  }

  lemma {:induction false} SignatureBytes(b: seq<Byte>, p: nat)
    requires p + 4 <= |b|
    ensures U32(b, p) == CENTRAL_SIG ==> b[p..p + 4] == [0x50, 0x4b, 0x01, 0x02]
  {
    if U32(b, p) == CENTRAL_SIG {
      assert b[p] == 0x50 && b[p + 1] == 0x4b && b[p + 2] == 0x01 && b[p + 3] == 0x02;
    }
  }

  // ---------- looking up what was written ----------

  ghost predicate Distinct(files: seq<File>) {
    && (forall i {:trigger files[i]} :: 0 <= i < |files| ==> 0 !in files[i].name && |files[i].name| < 256)
    && (forall i, j {:trigger files[i], files[j]} :: 0 <= i < j < |files| ==> files[i].name != files[j].name)
  }

  lemma {:induction false} EntryOf(files: seq<File>, offset: nat, i: nat)
    requires AllPrintable(files) && i < |files|
    ensures EntriesOf(files, offset)[i].name == files[i].name && EntriesOf(files, offset)[i].stat == StatOf(files[i])
  {
    hide Directory, StatOf;
    PrintedAt(files, offset, i);
  }

  lemma {:induction false} EntriesAreDistinct(files: seq<File>, offset: nat)
    requires AllPrintable(files) && Distinct(files)
    ensures var entries := EntriesOf(files, offset);
            && Unique(entries)
            && forall i {:trigger entries[i]} :: 0 <= i < |entries| ==> 0 !in entries[i].name && |entries[i].name| < 256
  {
    hide EntriesOf;
    var entries := EntriesOf(files, offset);
    forall i | 0 <= i < |entries|
      ensures entries[i].name == files[i].name
    {
      EntryOf(files, offset, i);
    }
  }

  lemma {:induction false} ScanOf(files: seq<File>, offset: nat, k: nat)
    requires AllPrintable(files) && Distinct(files) && k < |files|
    ensures Scan(EntriesOf(files, offset), files[k].name) == Some(StatOf(files[k]))
  {
    hide EntriesOf, StatOf, Scan;
    var entries := EntriesOf(files, offset);
    EntryOf(files, offset, k);
    forall j | 0 <= j < k
      ensures !Is(entries[j], files[k].name)
    {
      EntryOf(files, offset, j);
    }
    ScanFinds(entries, files[k].name, k);
  }

  lemma {:induction false} NothingCollides(files: seq<File>, offset: nat, k: nat, hash: Name -> nat)
    requires AllPrintable(files) && k < |files|
    requires forall i {:trigger files[i]} :: 0 <= i < |files| && hash(files[i].name) == hash(files[k].name) ==> i == k
    ensures NoCollisions(hash, EntriesOf(files, offset), [files[k].name])
  {
    hide EntriesOf;
    var entries := EntriesOf(files, offset);
    forall i | 0 <= i < |entries|
      ensures entries[i].name == files[i].name
    {
      EntryOf(files, offset, i);
    }
  }

  /** Each of the three lookups finds what was written for a file: by scanning, by the map, and in a batch. */
  method LookUp(before: seq<Byte>, files: seq<File>, after: seq<Byte>, k: nat, hash: Name -> nat)
    returns (scanned: Option<Stat>, looked: Option<Stat>, size: nat, matched: nat)
    requires AllPrintable(files) && Distinct(files) && k < |files|
    requires |after| >= 4 && after[..4] != [0x50, 0x4b, 0x01, 0x02]
    requires forall i {:trigger files[i]} :: 0 <= i < |files| && hash(files[i].name) == hash(files[k].name) ==> i == k
    ensures scanned == looked == Some(StatOf(files[k])) && size == files[k].uncompressedSize && matched == 1
  {
    hide AllPrintable, IsDirectory, EntriesOf, Directory, MapAnswers, Scan, Filled, Matched;
    DirectoryIsRead(before, files, after);
    EntriesAreDistinct(files, |before|);
    ScanOf(files, |before|, k);
    var name := files[k].name;
    ghost var entries := EntriesOf(files, |before|);
    var zip := new ZipFile(before + Directory(files) + after, |before|, entries);
    ghost var visited;
    scanned, visited := zip.LoadFileStat(name);
    var sizes := new nat[1];
    ghost var unfilled := sizes[..];
    var targets := [SizeTarget(hash(name), |name|, 0)];
    matched := zip.FillUncompressedSizes(hash, targets, sizes);
    size := sizes[0];
    NothingCollides(files, |before|, k, hash);
    BatchIsScan(hash, entries, targets, [name], unfilled, 0);
    MatchedIsFound(hash, entries, targets, [name], 1);
    assert Found(entries, targets, [name], 1, 0) == 0;
    zip.LoadAll();
    looked, visited := zip.LoadFileStat(name);
  }
}
