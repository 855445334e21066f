/** Looking up files in the central directory of a ZIP archive (PKWARE APPNOTE.TXT, sections 4.3.12 and 4.3.16): a scan
    from the last hit, a preloaded map, and a sorted batch. */
module ZipFile {
  import opened Options

  type Byte = x: nat | x < 256
  type Name = seq<Byte>

  const CENTRAL_SIG: nat := 0x0201_4b50
  const HEADER_SIZE: nat := 46

  datatype Stat = Stat(compression: nat, compressedSize: nat, uncompressedSize: nat, localHeaderOffset: nat)

  // A file header of the central directory, and where it ends.
  datatype Entry = Entry(name: Name, stat: Stat, next: nat)

  function U16(b: seq<Byte>, p: nat): nat
    requires p + 2 <= |b|
  {
    b[p] as nat + 0x100 * (b[p + 1] as nat)
  }

  function U32(b: seq<Byte>, p: nat): nat
    requires p + 4 <= |b|
  {
    U16(b, p) + 0x1_0000 * U16(b, p + 2)
  }

  ghost predicate EntryAt(b: seq<Byte>, p: nat) {
    && p + HEADER_SIZE <= |b| && U32(b, p) == CENTRAL_SIG
    && p + HEADER_SIZE + U16(b, p + 28) + U16(b, p + 30) + U16(b, p + 32) <= |b|
  }

  ghost function ReadEntry(b: seq<Byte>, p: nat): Entry
    requires EntryAt(b, p)
  {
    var n := U16(b, p + 28);
    Entry(b[p + HEADER_SIZE..p + HEADER_SIZE + n],
          Stat(U16(b, p + 10), U32(b, p + 20), U32(b, p + 24), U32(b, p + 42)),
          p + HEADER_SIZE + n + U16(b, p + 30) + U16(b, p + 32))
  }

  // Where entry i begins, or the directory ends.
  ghost function Boundary(offset: nat, entries: seq<Entry>, i: nat): nat
    requires i <= |entries|
  {
    if i == 0 then offset else entries[i - 1].next
  }

  ghost predicate EntryFits(b: seq<Byte>, offset: nat, entries: seq<Entry>, i: nat)
    requires i < |entries|
  {
    EntryAt(b, Boundary(offset, entries, i)) && entries[i] == ReadEntry(b, Boundary(offset, entries, i))
  }

  // The directory at offset holds these entries, and something else follows.
  ghost predicate IsDirectory(b: seq<Byte>, offset: nat, entries: seq<Entry>) {
    && (forall i: nat {:trigger EntryFits(b, offset, entries, i)} :: i < |entries| ==> EntryFits(b, offset, entries, i))
    && var end := Boundary(offset, entries, |entries|);
       end + 4 <= |b| && U32(b, end) != CENTRAL_SIG
  }

  // Boundaries rise.
  lemma {:induction false} BoundariesRise(b: seq<Byte>, offset: nat, entries: seq<Entry>, i: nat, j: nat)
    requires IsDirectory(b, offset, entries) && i < j <= |entries|
    ensures Boundary(offset, entries, i) < Boundary(offset, entries, j)
    decreases j
  {
    hide U16, U32;
    assert EntryFits(b, offset, entries, j - 1);
    if i < j - 1 {
      BoundariesRise(b, offset, entries, i, j - 1);
    }
  }

  // ---------- what the three lookups mean ----------

  // strcmp against a name that fits the buffer.
  predicate Is(e: Entry, name: Name) {
    |e.name| < 256 && e.name == name
  }

  /** The first entry with the name. */
  function Scan(entries: seq<Entry>, name: Name): Option<Stat> {
    if entries == [] then None
    else if Is(entries[0], name) then Some(entries[0].stat)
    else Scan(entries[1..], name)
  }

  ghost predicate MapAnswers(mapped: map<Name, Stat>, entries: seq<Entry>) {
    forall name: Name {:trigger name in mapped} :: Scan(entries, name) == if name in mapped then Some(mapped[name]) else None
  }

  ghost predicate Unique(entries: seq<Entry>) {
    forall i, j {:trigger entries[i], entries[j]} :: 0 <= i < j < |entries| ==> entries[i].name != entries[j].name
  }

  lemma {:induction false} ScanFinds(entries: seq<Entry>, name: Name, i: nat)
    requires i < |entries| && Is(entries[i], name)
    requires forall j {:trigger entries[j]} :: 0 <= j < i ==> !Is(entries[j], name)
    ensures Scan(entries, name) == Some(entries[i].stat)
    decreases i
  {
    if i > 0 {
      assert !Is(entries[0], name);
      assert entries[1..][i - 1] == entries[i];
      forall j | 0 <= j < i - 1
        ensures !Is(entries[1..][j], name)
      {
        assert entries[1..][j] == entries[j + 1];
      }
      ScanFinds(entries[1..], name, i - 1);
    }
  }

  lemma {:induction false} ScanMisses(entries: seq<Entry>, name: Name)
    requires forall j {:trigger entries[j]} :: 0 <= j < |entries| ==> !Is(entries[j], name)
    ensures Scan(entries, name) == None
  {
    if entries != [] {
      assert !Is(entries[0], name);
      forall j | 0 <= j < |entries| - 1
        ensures !Is(entries[1..][j], name)
      {
        assert entries[1..][j] == entries[j + 1];
      }
      ScanMisses(entries[1..], name);
    }
  }

  /** Where the scan begins does not matter when names are unique. */
  lemma {:induction false} RotationScans(entries: seq<Entry>, name: Name, c: nat)
    requires Unique(entries) && c <= |entries|
    ensures Scan(entries[c..] + entries[..c], name) == Scan(entries, name)
  {
    var turned := entries[c..] + entries[..c];
    if i: nat :| i < |entries| && Is(entries[i], name) {
      var k := if i >= c then i - c else |entries| - c + i;
      assert turned[k] == entries[i];
      forall j | 0 <= j < |entries| && j != i
        ensures !Is(entries[j], name)
      {
        if j < i { assert entries[j].name != entries[i].name; } else { assert entries[i].name != entries[j].name; }
      }
      forall j | 0 <= j < k
        ensures !Is(turned[j], name)
      {
        assert turned[j] == entries[if j < |entries| - c then c + j else j - (|entries| - c)];
      }
      ScanFinds(entries, name, i);
      ScanFinds(turned, name, k);
    } else {
      ScanMisses(entries, name);
      forall j | 0 <= j < |turned|
        ensures !Is(turned[j], name)
      {
        assert turned[j] == entries[if j < |entries| - c then c + j else j - (|entries| - c)];
      }
      ScanMisses(turned, name);
    }
  }

  // ---------- the file ----------

  // mapped is fileStatSlimCache; cursor is lastCentralDirPos.
  class ZipFile {
    const bytes: seq<Byte>
    const centralDirOffset: nat
    ghost const entries: seq<Entry>
    var isOpen: bool
    var position: nat
    var mapped: map<Name, Stat>
    var cursor: nat
    var cursorValid: bool

    // The archive has been found to have a directory, and a valid cursor is one of its boundaries, at index at.
    ghost var at: nat

    ghost predicate Valid()
      reads this
    {
      && IsDirectory(bytes, centralDirOffset, entries)
      && (forall i {:trigger entries[i]} :: 0 <= i < |entries| ==> 0 !in entries[i].name)
      && (cursorValid ==> isOpen && at <= |entries| && cursor == Boundary(centralDirOffset, entries, at))
      && (mapped != map[] ==> MapAnswers(mapped, entries))
    }

    constructor (bytes: seq<Byte>, centralDirOffset: nat, ghost entries: seq<Entry>)
      requires IsDirectory(bytes, centralDirOffset, entries)
      requires forall i {:trigger entries[i]} :: 0 <= i < |entries| ==> 0 !in entries[i].name
      ensures Valid() && !isOpen && mapped == map[]
      ensures this.bytes == bytes && this.centralDirOffset == centralDirOffset && this.entries == entries
    {
      this.bytes, this.centralDirOffset, this.entries := bytes, centralDirOffset, entries;
      isOpen, position, mapped, cursor, cursorValid, at := false, 0, map[], 0, false, 0;
    }

    method Open()
      requires Valid()
      modifies this`isOpen, this`position
      ensures Valid() && isOpen
    {
      isOpen := true;
      position := 0;
    }

    // Closing forgets the cursor.
    method Close()
      requires Valid()
      modifies this`isOpen, this`cursor, this`cursorValid
      ensures Valid() && !isOpen && !cursorValid
    {
      isOpen := false;
      cursor, cursorValid := 0, false;
    }

    method ReadU16() returns (x: nat)
      requires position + 2 <= |bytes|
      modifies this`position
      ensures position == old(position) + 2 && x == U16(bytes, old(position))
    {
      x := U16(bytes, position);
      position := position + 2;
    }

    method ReadU32() returns (x: nat)
      requires position + 4 <= |bytes|
      modifies this`position
      ensures position == old(position) + 4 && x == U32(bytes, old(position))
    {
      x := U32(bytes, position);
      position := position + 4;
    }

    method ReadName(n: nat) returns (name: Name)
      requires position + n <= |bytes|
      modifies this`position
      ensures position == old(position) + n && name == bytes[old(position)..old(position) + n]
    {
      name := bytes[position..position + n];
      position := position + n;
    }

    method SeekCur(n: nat)
      modifies this`position
      ensures position == old(position) + n
    {
      position := position + n;
    }

    // The fields behind the signature.
    method ReadHeader(ghost p: nat) returns (stat: Stat, nameLen: nat, extra: nat)
      requires EntryAt(bytes, p) && position == p + 4
      modifies this`position
      ensures position == p + HEADER_SIZE && nameLen == |ReadEntry(bytes, p).name| && stat == ReadEntry(bytes, p).stat
      ensures position + nameLen + extra == ReadEntry(bytes, p).next <= |bytes|
      ensures ReadEntry(bytes, p).name == bytes[position..position + nameLen]
    {
      hide U16, U32;
      SeekCur(6);
      var compression := ReadU16();
      SeekCur(8);
      var compressedSize := ReadU32();
      var uncompressedSize := ReadU32();
      nameLen := ReadU16();
      var m := ReadU16();
      var k := ReadU16();
      SeekCur(8);
      var localHeaderOffset := ReadU32();
      stat, extra := Stat(compression, compressedSize, uncompressedSize, localHeaderOffset), m + k;
    }

    // Reads the signature and says whether entry i begins here.
    method ReadSignature(ghost i: nat) returns (ok: bool)
      requires IsDirectory(bytes, centralDirOffset, entries) && i <= |entries| && position == Boundary(centralDirOffset, entries, i)
      modifies this`position
      ensures ok <==> i < |entries|
      ensures position == old(position) + 4
      ensures i < |entries| ==> EntryAt(bytes, old(position)) && entries[i] == ReadEntry(bytes, old(position))
    {
      hide U32;
      assert i < |entries| ==> EntryFits(bytes, centralDirOffset, entries, i);
      var sig := ReadU32();
      ok := sig == CENTRAL_SIG;
    }

    /** loadAllFileStatSlims: afterwards the map answers like a scan.  Longer names would not fit the buffer. */
    method LoadAll()
      requires Valid() && forall i {:trigger entries[i]} :: 0 <= i < |entries| ==> |entries[i].name| < 256
      modifies this
      ensures Valid() && isOpen == old(isOpen)
      ensures MapAnswers(mapped, entries)
    {
      hide U16, U32, IsDirectory;
      var wasOpen := isOpen;
      if !wasOpen {
        Open();
      }
      position := centralDirOffset;
      mapped := map[];
      ghost var i := 0;
      while true
        invariant isOpen && i <= |entries| && position == Boundary(centralDirOffset, entries, i)
        invariant MapAnswers(mapped, entries[..i]) && IsDirectory(bytes, centralDirOffset, entries)
        decreases |entries| - i
      {
        ghost var p := position;
        var more := ReadSignature(i);
        if !more {
          break;
        }
        var stat, nameLen, extra := ReadHeader(p);
        var itemName := ReadName(nameLen);
        // emplace keeps what is there.
        if itemName !in mapped {
          mapped := mapped[itemName := stat];
        }
        forall name: Name
          ensures Scan(entries[..i + 1], name)
                  == if Scan(entries[..i], name).Some? then Scan(entries[..i], name) else if Is(entries[i], name) then Some(entries[i].stat) else None
        {
          ScanSnoc(entries, i, name);
        }
        SeekCur(extra);
        i := i + 1;
      }
      assert entries[..i] == entries;
      cursor, cursorValid, at := centralDirOffset, true, 0;
      if !wasOpen {
        Close();
      }
    }

    /** loadFileStatSlim: from the map if there is one, else by scanning from the cursor to the end and then, once, from
        the beginning to the cursor.  visited counts the entries looked at; they are the first ones in that order. */
    method LoadFileStat(filename: Name) returns (r: Option<Stat>, ghost visited: nat)
      requires Valid() && 0 !in filename
      modifies this`isOpen, this`position, this`cursor, this`cursorValid, this`at
      ensures Valid() && isOpen == old(isOpen)
      ensures Unique(entries) ==> r == Scan(entries, filename)
      ensures mapped != map[] ==> r == Scan(entries, filename) && visited == 0 && unchanged(this)
      ensures var c := if old(cursorValid) then old(at) else 0;
              mapped == map[] ==>
                && r == Scan(entries[c..] + entries[..c], filename) && visited <= |entries|
                && (r.Some? && isOpen ==> cursorValid && at > 0 && Is(entries[at - 1], filename))
                && (r.None? && isOpen ==> cursorValid == old(cursorValid) && at == old(at))
    {
      hide U16, U32, IsDirectory, Scan, MapAnswers, Boundary;
      if mapped != map[] {
        visited := 0;
        MapScan(filename);
        return if filename in mapped then Some(mapped[filename]) else None, 0;
      }
      var wasOpen := isOpen;
      if !wasOpen {
        Open();
      }
      ghost var c := if cursorValid then at else 0;
      if Unique(entries) {
        RotationScans(entries, filename, c);
      }
      r, visited := ScanFromCursor(filename);
      if !wasOpen {
        Close();
      }
    }

    lemma {:induction false} MapScan(name: Name)
      requires MapAnswers(mapped, entries)
      ensures Scan(entries, name) == if name in mapped then Some(mapped[name]) else None
    {
    }

    method ScanFromCursor(filename: Name) returns (r: Option<Stat>, ghost visited: nat)
      requires Valid() && isOpen
      modifies this`position, this`cursor, this`cursorValid, this`at
      ensures Valid()
      ensures var c := if old(cursorValid) then old(at) else 0;
              r == Scan(entries[c..] + entries[..c], filename) && visited <= |entries|
      ensures r.Some? ==> cursorValid && at > 0 && Is(entries[at - 1], filename)
      ensures r.None? ==> cursorValid == old(cursorValid) && at == old(at)
    {
      hide U16, U32, IsDirectory, Scan, MapAnswers, Boundary, Is, EntryAt, ReadEntry;
      ghost var c := if cursorValid then at else 0;
      ghost var turned := entries[c..] + entries[..c];
      FirstBoundary(c);
      var startPos := if cursorValid then cursor else centralDirOffset;
      var wrapped := false;
      position := startPos;
      ghost var i := c;
      r, visited := None, 0;
      while true
        invariant Valid() && unchanged(this`cursor) && unchanged(this`cursorValid) && unchanged(this`at)
        invariant i <= |entries| && position == Boundary(centralDirOffset, entries, i)
        invariant if wrapped then visited == |entries| - c + i && i <= c else visited == i - c && c <= i
        invariant forall j {:trigger turned[j]} :: 0 <= j < visited ==> !Is(turned[j], filename)
        invariant r == None
        decreases |entries| - visited, if wrapped then 0 else 1
      {
        var entryStart := position;
        AfterCursor(i, c);
        var more := ReadSignature(i);
        if !more {
          if !wrapped && cursorValid && startPos != centralDirOffset {
            position := centralDirOffset;
            wrapped := true;
            i := 0;
            continue;
          }
          break;
        }
        if wrapped && entryStart >= startPos {
          break;
        }
        assert turned[visited] == entries[i];
        var found, stat := CompareEntry(filename, i);
        visited := visited + 1;
        if found {
          cursor, cursorValid, at := position, true, i + 1;
          ScanFinds(turned, filename, visited - 1);
          return Some(stat), visited;
        }
        i := i + 1;
      }
      assert visited == |entries| == |turned|;
      ScanMisses(turned, filename);
    }

    // The rest of entry i, and whether it has the name.
    method CompareEntry(filename: Name, ghost i: nat) returns (found: bool, stat: Stat)
      requires i < |entries| && IsDirectory(bytes, centralDirOffset, entries)
      requires position == Boundary(centralDirOffset, entries, i) + 4
      modifies this`position
      ensures position == Boundary(centralDirOffset, entries, i + 1)
      ensures (found <==> Is(entries[i], filename)) && stat == entries[i].stat
    {
      hide U16, U32;
      assert EntryFits(bytes, centralDirOffset, entries, i);
      var nameLen, extra;
      stat, nameLen, extra := ReadHeader(Boundary(centralDirOffset, entries, i));
      found := false;
      if nameLen < 256 {
        var itemName := ReadName(nameLen);
        found := itemName == filename;
      } else {
        // The name is too long for the buffer.
        SeekCur(nameLen);
      }
      SeekCur(extra);
    }

    lemma {:induction false} FirstBoundary(c: nat)
      requires c <= |entries|
      ensures Boundary(centralDirOffset, entries, 0) == centralDirOffset
      ensures c == 0 ==> Boundary(centralDirOffset, entries, c) == centralDirOffset
    {
    }

    // Positions compare as the indices do.
    lemma {:induction false} AfterCursor(i: nat, c: nat)
      requires IsDirectory(bytes, centralDirOffset, entries) && i <= |entries| && c <= |entries|
      ensures Boundary(centralDirOffset, entries, i) >= Boundary(centralDirOffset, entries, c) <==> i >= c
      ensures Boundary(centralDirOffset, entries, c) == centralDirOffset <==> c == 0
    {
      hide IsDirectory;
      if i < c {
        BoundariesRise(bytes, centralDirOffset, entries, i, c);
      } else if c < i {
        BoundariesRise(bytes, centralDirOffset, entries, c, i);
      }
      if c > 0 {
        BoundariesRise(bytes, centralDirOffset, entries, 0, c);
      }
    }

    // What follows the signature of an entry.
    method FillEntry(hash: Name -> nat, targets: seq<SizeTarget>, sizes: array<nat>, ghost i: nat) returns (count: nat)
      requires IsDirectory(bytes, centralDirOffset, entries) && Sorted(targets) && i < |entries|
      requires position == Boundary(centralDirOffset, entries, i) + 4
      requires EntryAt(bytes, position - 4) && entries[i] == ReadEntry(bytes, position - 4)
      modifies this`position, sizes
      ensures position == Boundary(centralDirOffset, entries, i + 1)
      ensures sizes[..] == FilledBy(hash, entries[i], targets, old(sizes[..]))
      ensures count == CountedBy(hash, entries[i], targets, sizes.Length)
    {
      hide U16, U32, IsDirectory, Sorted, Assigned, Counted;
      var stat, nameLen, extra := ReadHeader(position - 4);
      count := 0;
      if nameLen < 256 {
        var itemName := ReadName(nameLen);
        count := FillTargets(hash(itemName), nameLen, stat.uncompressedSize, targets, sizes);
      } else {
        SeekCur(nameLen);
      }
      SeekCur(extra);
    }

    lemma {:induction false} FirstIsOffset()
      ensures Boundary(centralDirOffset, entries, 0) == centralDirOffset
    {
    }

    /** fillUncompressedSizes: the entries in their order, each for all targets with its hash and length. */
    method FillUncompressedSizes(hash: Name -> nat, targets: seq<SizeTarget>, sizes: array<nat>) returns (matched: nat)
      requires Valid() && Sorted(targets)
      modifies this`isOpen, this`position, this`cursor, this`cursorValid, sizes
      ensures Valid() && isOpen == old(isOpen)
      ensures sizes[..] == if targets == [] then old(sizes[..]) else Filled(hash, entries, targets, old(sizes[..]))
      ensures matched == if targets == [] then 0 else Matched(hash, entries, targets, sizes.Length)
    {
      hide U16, U32, IsDirectory, MapAnswers, Sorted, FilledBy, CountedBy, Filled, Matched, Boundary;
      FilledNone(hash, targets, sizes[..]);
      FirstIsOffset();
      if targets == [] {
        return 0;
      }
      var wasOpen := isOpen;
      if !wasOpen {
        Open();
      }
      position := centralDirOffset;
      matched := 0;
      ghost var i := 0;
      ghost var before := sizes[..];
      while true
        invariant Valid() && isOpen && i <= |entries| && position == Boundary(centralDirOffset, entries, i)
        invariant sizes[..] == Filled(hash, entries[..i], targets, before) && |before| == sizes.Length
        invariant matched == Matched(hash, entries[..i], targets, sizes.Length)
        decreases |entries| - i
      {
        var more := ReadSignature(i);
        if !more {
          break;
        }
        var count := FillEntry(hash, targets, sizes, i);
        matched := matched + count;
        FilledNext(hash, entries, i, targets, before);
        i := i + 1;
      }
      assert entries[..i] == entries;
      if !wasOpen {
        Close();
      }
    }
  }

  // ---------- the batch ----------

  datatype SizeTarget = SizeTarget(hash: nat, len: nat, index: nat)

  predicate Less(aHash: nat, aLen: nat, bHash: nat, bLen: nat) {
    aHash < bHash || (aHash == bHash && aLen < bLen)
  }

  ghost predicate Sorted(targets: seq<SizeTarget>) {
    forall i, j {:trigger targets[i], targets[j]} :: 0 <= i < j < |targets| ==>
      !Less(targets[j].hash, targets[j].len, targets[i].hash, targets[i].len)
  }

  // All targets with this hash and length get the size.
  ghost function Assigned(h: nat, len: nat, size: nat, targets: seq<SizeTarget>, sizes: seq<nat>): (r: seq<nat>)
    ensures |r| == |sizes|
  {
    if targets == [] then sizes
    else
      var t, r := targets[|targets| - 1], Assigned(h, len, size, targets[..|targets| - 1], sizes);
      if t.hash == h && t.len == len && t.index < |sizes| then r[t.index := size] else r
  }

  ghost function Counted(h: nat, len: nat, targets: seq<SizeTarget>, n: nat): nat {
    if targets == [] then 0
    else
      var t := targets[|targets| - 1];
      Counted(h, len, targets[..|targets| - 1], n) + if t.hash == h && t.len == len && t.index < n then 1 else 0
  }

  ghost function Filled(hash: Name -> nat, entries: seq<Entry>, targets: seq<SizeTarget>,
                        sizes: seq<nat>): (r: seq<nat>)
    ensures |r| == |sizes|
  {
    if entries == [] then sizes
    else
      FilledBy(hash, entries[|entries| - 1], targets, Filled(hash, entries[..|entries| - 1], targets, sizes))
  }

  ghost function FilledBy(hash: Name -> nat, e: Entry, targets: seq<SizeTarget>, sizes: seq<nat>): (r: seq<nat>)
    ensures |r| == |sizes|
  {
    if |e.name| < 256 then Assigned(hash(e.name), |e.name|, e.stat.uncompressedSize, targets, sizes) else sizes
  }

  ghost function CountedBy(hash: Name -> nat, e: Entry, targets: seq<SizeTarget>, n: nat): nat {
    if |e.name| < 256 then Counted(hash(e.name), |e.name|, targets, n) else 0
  }

  lemma {:induction false} FilledNone(hash: Name -> nat, targets: seq<SizeTarget>, sizes: seq<nat>)
    ensures Filled(hash, [], targets, sizes) == sizes && Matched(hash, [], targets, |sizes|) == 0
  {
  }

  lemma {:induction false} FilledNext(hash: Name -> nat, entries: seq<Entry>, i: nat, targets: seq<SizeTarget>,
                                      sizes: seq<nat>)
    requires i < |entries|
    ensures Filled(hash, entries[..i + 1], targets, sizes)
            == FilledBy(hash, entries[i], targets, Filled(hash, entries[..i], targets, sizes))
    ensures Matched(hash, entries[..i + 1], targets, |sizes|)
            == Matched(hash, entries[..i], targets, |sizes|) + CountedBy(hash, entries[i], targets, |sizes|)
  {
    assert entries[..i + 1][..i] == entries[..i];
  }

  ghost function Matched(hash: Name -> nat, entries: seq<Entry>, targets: seq<SizeTarget>, n: nat): nat {
    if entries == [] then 0
    else
      Matched(hash, entries[..|entries| - 1], targets, n) + CountedBy(hash, entries[|entries| - 1], targets, n)
  }

  // std::lower_bound: the first target that is not less than the key.
  method LowerBound(targets: seq<SizeTarget>, h: nat, len: nat) returns (lo: nat)
    requires Sorted(targets)
    ensures lo <= |targets|
    ensures forall i {:trigger targets[i]} :: 0 <= i < lo ==> Less(targets[i].hash, targets[i].len, h, len)
    ensures forall i {:trigger targets[i]} :: lo <= i < |targets| ==> !Less(targets[i].hash, targets[i].len, h, len)
  {
    lo := 0;
    var hi := |targets|;
    while lo < hi
      invariant lo <= hi <= |targets|
      invariant forall i {:trigger targets[i]} :: 0 <= i < lo ==> Less(targets[i].hash, targets[i].len, h, len)
      invariant forall i {:trigger targets[i]} :: hi <= i < |targets| ==> !Less(targets[i].hash, targets[i].len, h, len)
    {
      var mid := (lo + hi) / 2;
      if Less(targets[mid].hash, targets[mid].len, h, len) {
        lo := mid + 1;
      } else {
        hi := mid;
      }
    }
  }

  // The targets of one entry: from the lower bound on while they are equal.
  method FillTargets(h: nat, len: nat, size: nat, targets: seq<SizeTarget>, sizes: array<nat>) returns (count: nat)
    requires Sorted(targets)
    modifies sizes
    ensures sizes[..] == Assigned(h, len, size, targets, old(sizes[..])) && count == Counted(h, len, targets, sizes.Length)
  {
    hide Sorted;
    ghost var before := sizes[..];
    var it := LowerBound(targets, h, len);
    NoneEqual(h, len, size, targets, 0, it, before);
    assert targets[..0] == [];
    count := 0;
    while it < |targets| && targets[it].hash == h && targets[it].len == len
      invariant it <= |targets| && sizes[..] == Assigned(h, len, size, targets[..it], before)
      invariant count == Counted(h, len, targets[..it], sizes.Length)
      invariant it < |targets| ==> !Less(targets[it].hash, targets[it].len, h, len)
      invariant forall i {:trigger targets[i]} :: it <= i < |targets| ==> !Less(targets[i].hash, targets[i].len, h, len)
    {
      assert targets[..it + 1][..it] == targets[..it];
      if targets[it].index < sizes.Length {
        sizes[targets[it].index] := size;
        count := count + 1;
      }
      it := it + 1;
    }
    RestIsGreater(targets, it, h, len);
    NoneEqual(h, len, size, targets, it, |targets|, before);
    assert targets[..|targets|] == targets;
  }

  lemma {:induction false} RestIsGreater(targets: seq<SizeTarget>, it: nat, h: nat, len: nat)
    requires Sorted(targets) && it <= |targets|
    requires forall i {:trigger targets[i]} :: it <= i < |targets| ==> !Less(targets[i].hash, targets[i].len, h, len)
    requires it < |targets| ==> targets[it].hash != h || targets[it].len != len
    ensures forall i {:trigger targets[i]} :: it <= i < |targets| ==> targets[i].hash != h || targets[i].len != len
  {
  }

  // Targets that are not equal to the key change nothing.
  lemma {:induction false} NoneEqual(h: nat, len: nat, size: nat, targets: seq<SizeTarget>, first: nat, last: nat,
                                     sizes: seq<nat>)
    requires first <= last <= |targets|
    requires forall i {:trigger targets[i]} :: first <= i < last ==> targets[i].hash != h || targets[i].len != len
    ensures Assigned(h, len, size, targets[..last], sizes) == Assigned(h, len, size, targets[..first], sizes)
    ensures Counted(h, len, targets[..last], |sizes|) == Counted(h, len, targets[..first], |sizes|)
    decreases last
  {
    if first < last {
      assert targets[..last][..last - 1] == targets[..last - 1];
      NoneEqual(h, len, size, targets, first, last - 1, sizes);
    }
  }

  // What the targets stand for: each has the hash and length of its name, and no two write to the same place.
  ghost predicate TargetsOf(hash: Name -> nat, targets: seq<SizeTarget>, names: seq<Name>) {
    && |targets| == |names|
    && (forall k {:trigger targets[k]} :: 0 <= k < |names| ==>
          targets[k].hash == hash(names[k]) && targets[k].len == |names[k]| && |names[k]| < 256)
    && (forall j, k {:trigger targets[j], targets[k]} :: 0 <= j < k < |names| ==> targets[j].index != targets[k].index)
  }

  ghost predicate NoCollisions(hash: Name -> nat, entries: seq<Entry>, names: seq<Name>) {
    forall i, k {:trigger entries[i], names[k]} :: 0 <= i < |entries| && 0 <= k < |names| ==>
      hash(entries[i].name) == hash(names[k]) && |entries[i].name| == |names[k]| ==> entries[i].name == names[k]
  }

  lemma {:induction false} AssignedAt(h: nat, len: nat, size: nat, targets: seq<SizeTarget>, sizes: seq<nat>, k: nat)
    requires k < |targets| && targets[k].index < |sizes|
    requires forall j {:trigger targets[j]} :: 0 <= j < |targets| && j != k ==> targets[j].index != targets[k].index
    ensures Assigned(h, len, size, targets, sizes)[targets[k].index]
            == if targets[k].hash == h && targets[k].len == len then size else sizes[targets[k].index]
    decreases |targets|
  {
    var n := |targets| - 1;
    if k < n {
      AssignedAt(h, len, size, targets[..n], sizes, k);
    } else {
      NotAssigned(h, len, size, targets[..n], sizes, targets[k].index);
    }
  }

  lemma {:induction false} NotAssigned(h: nat, len: nat, size: nat, targets: seq<SizeTarget>, sizes: seq<nat>, at: nat)
    requires at < |sizes| && forall j {:trigger targets[j]} :: 0 <= j < |targets| ==> targets[j].index != at
    ensures Assigned(h, len, size, targets, sizes)[at] == sizes[at]
  {
    if targets != [] {
      NotAssigned(h, len, size, targets[..|targets| - 1], sizes, at);
    }
  }

  /** Without collisions the batch gives each target the size that a scan for its name finds, and leaves the others. */
  lemma {:induction false} BatchIsScan(hash: Name -> nat, entries: seq<Entry>, targets: seq<SizeTarget>,
                                       names: seq<Name>,
                                       sizes: seq<nat>, k: nat)
    requires TargetsOf(hash, targets, names) && NoCollisions(hash, entries, names) && Unique(entries)
    requires k < |names| && targets[k].index < |sizes|
    ensures Filled(hash, entries, targets, sizes)[targets[k].index]
            == match Scan(entries, names[k]) case Some(stat) => stat.uncompressedSize case None => sizes[targets[k].index]
    decreases |entries|
  {
    hide Assigned;
    if entries != [] {
      var n := |entries| - 1;
      var e := entries[n];
      BatchIsScan(hash, entries[..n], targets, names, sizes, k);
      assert entries[..n + 1] == entries;
      ScanSnoc(entries, n, names[k]);
      AssignedAt(hash(e.name), |e.name|, e.stat.uncompressedSize, targets, Filled(hash, entries[..n], targets, sizes), k);
      if e.name == names[k] {
        ScanMissesEarlier(entries, names[k]);
      }
    }
  }

  // A size that no target stands for is left as it is.
  lemma {:induction false} BatchLeavesOthers(hash: Name -> nat, entries: seq<Entry>, targets: seq<SizeTarget>,
                                             sizes: seq<nat>, at: nat)
    requires at < |sizes| && forall j {:trigger targets[j]} :: 0 <= j < |targets| ==> targets[j].index != at
    ensures Filled(hash, entries, targets, sizes)[at] == sizes[at]
    decreases |entries|
  {
    hide Assigned;
    if entries != [] {
      var front, e := entries[..|entries| - 1], entries[|entries| - 1];
      BatchLeavesOthers(hash, front, targets, sizes, at);
      NotAssigned(hash(e.name), |e.name|, e.stat.uncompressedSize, targets, Filled(hash, front, targets, sizes), at);
    }
  }

  // How many of the first m names the directory has, if there is a size to fill in.
  function Found(entries: seq<Entry>, targets: seq<SizeTarget>, names: seq<Name>, n: nat, m: nat): nat
    requires m <= |names| == |targets|
  {
    if m == 0 then 0
    else
      Found(entries, targets, names, n, m - 1)
      + if Scan(entries, names[m - 1]).Some? && targets[m - 1].index < n then 1 else 0
  }

  lemma {:induction false} FoundNext(hash: Name -> nat, entries: seq<Entry>, targets: seq<SizeTarget>,
                                     names: seq<Name>, n: nat, m: nat)
    requires TargetsOf(hash, targets, names) && NoCollisions(hash, entries, names) && Unique(entries)
    requires entries != [] && m <= |names|
    ensures var front, e := entries[..|entries| - 1], entries[|entries| - 1];
            Found(entries, targets, names, n, m) == Found(front, targets, names, n, m) + CountedBy(hash, e, targets[..m], n)
  {
    hide Scan;
    var last := |entries| - 1;
    var e := entries[last];
    if m > 0 {
      FoundNext(hash, entries, targets, names, n, m - 1);
      assert targets[..m][..m - 1] == targets[..m - 1] && targets[..m][m - 1] == targets[m - 1];
      assert entries[..last + 1] == entries;
      ScanSnoc(entries, last, names[m - 1]);
      if e.name == names[m - 1] {
        ScanMissesEarlier(entries, names[m - 1]);
      }
    }
  }

  /** Without collisions the number returned is that of the names the directory has. */
  lemma {:induction false} MatchedIsFound(hash: Name -> nat, entries: seq<Entry>, targets: seq<SizeTarget>,
                                          names: seq<Name>, n: nat)
    requires TargetsOf(hash, targets, names) && NoCollisions(hash, entries, names) && Unique(entries)
    ensures Matched(hash, entries, targets, n) == Found(entries, targets, names, n, |names|)
    decreases |entries|
  {
    hide CountedBy, Scan, TargetsOf;
    SameNumber(hash, targets, names);
    if entries == [] {
      NoneFound(targets, names, n, |names|);
    } else {
      var front := entries[..|entries| - 1];
      assert NoCollisions(hash, front, names);
      MatchedIsFound(hash, front, targets, names, n);
      FoundNext(hash, entries, targets, names, n, |names|);
      assert targets[..|names|] == targets;
    }
  }

  lemma {:induction false} SameNumber(hash: Name -> nat, targets: seq<SizeTarget>, names: seq<Name>)
    requires TargetsOf(hash, targets, names)
    ensures |targets| == |names|
  {
  }

  lemma {:induction false} NoneFound(targets: seq<SizeTarget>, names: seq<Name>, n: nat, m: nat)
    requires m <= |names| == |targets|
    ensures Found([], targets, names, n, m) == 0
  {
    if m > 0 {
      NoneFound(targets, names, n, m - 1);
    }
  }

  lemma {:induction false} ScanMissesEarlier(entries: seq<Entry>, name: Name)
    requires Unique(entries) && entries != [] && entries[|entries| - 1].name == name
    ensures Scan(entries[..|entries| - 1], name) == None
  {
    var n := |entries| - 1;
    forall j | 0 <= j < n
      ensures !Is(entries[..n][j], name)
    {
      assert entries[..n][j] == entries[j] && entries[j].name != entries[n].name;
    }
    ScanMisses(entries[..n], name);
  }

  lemma {:induction false} ScanSnoc(entries: seq<Entry>, i: nat, name: Name)
    requires i < |entries|
    ensures Scan(entries[..i + 1], name)
            == if Scan(entries[..i], name).Some? then Scan(entries[..i], name) else if Is(entries[i], name) then Some(entries[i].stat) else None
    decreases i
  {
    if i > 0 {
      ScanSnoc(entries[1..], i - 1, name);
      assert entries[..i + 1][1..] == entries[1..][..i] && entries[..i][1..] == entries[1..][..i - 1];
    }
  }
}
