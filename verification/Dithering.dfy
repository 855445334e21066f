/** The error-diffusion ditherers: 16-bit accumulators that stay within small bounds for every image. */
module Dithering {

  // What storing an int in an int16_t keeps.
  function ToInt16(v: int): int {
    (v + 0x8000) % 0x1_0000 - 0x8000
  }

  lemma {:induction false} SmallFits(v: int)
    requires -0x8000 <= v < 0x8000
    ensures ToInt16(v) == v
  {
  }

  // An arithmetic shift to the right.
  function Shift3(e: int): int {
    e / 8
  }

  function Shift4(e: int): int {
    e / 16
  }

  function Clamp(v: int): (r: int)
    ensures 0 <= r <= 255
  {
    if v < 0 then 0 else if v > 255 then 255 else v
  }

  datatype Levels = OneBit | TwoBit

  // The level of a gray value, and the gray value the level stands for.
  function Quantize(levels: Levels, adjusted: int): (int, int) {
    match levels
    case OneBit => if adjusted < 128 then (0, 0) else (1, 255)
    case TwoBit =>
      if adjusted < 30 then (0, 15) else if adjusted < 50 then (1, 30) else if adjusted < 140 then (2, 80) else (3, 210)
  }

  /** The level rises with the gray value, from 0 for black to the top level for white. */
  lemma {:induction false} LevelRises(levels: Levels, dark: int, light: int)
    requires 0 <= dark <= light <= 255
    ensures Quantize(levels, 0).0 == 0 && Quantize(levels, 255).0 == if levels.OneBit? then 1 else 3
    ensures Quantize(levels, dark).0 <= Quantize(levels, light).0
    ensures Quantize(levels, dark).1 <= Quantize(levels, light).1
    ensures Quantize(levels, dark).0 == Quantize(levels, light).0 <==> Quantize(levels, dark).1 == Quantize(levels, light).1
  {
  }

  // Where the levels begin, and the gray values they stand for.
  lemma {:induction false} LevelsAre(gray: int)
    ensures Quantize(OneBit, gray) == (0, 0) <==> gray < 128
    ensures Quantize(OneBit, gray) == (1, 255) <==> 128 <= gray
    ensures Quantize(TwoBit, gray) == (0, 15) <==> gray < 30
    ensures Quantize(TwoBit, gray) == (1, 30) <==> 30 <= gray < 50
    ensures Quantize(TwoBit, gray) == (2, 80) <==> 50 <= gray < 140
    ensures Quantize(TwoBit, gray) == (3, 210) <==> 140 <= gray
  {
  }

  // 1 if pixel x of the row has been processed.
  function Count(done: set<int>, x: int): int {
    if x in done then 1 else 0
  }

  // ---------- Atkinson ----------

  // The least and greatest share of one neighbour.
  function Least(levels: Levels): int {
    if levels.OneBit? then -16 else -9
  }

  function Greatest(levels: Levels): int {
    if levels.OneBit? then 15 else 7
  }

  lemma {:induction false} ShareBound(levels: Levels, adjusted: int)
    requires 0 <= adjusted <= 255
    ensures Least(levels) <= Shift3(adjusted - Quantize(levels, adjusted).1) <= Greatest(levels)
  {
  }

  // The sum of k shares.
  predicate Shares(levels: Levels, v: int, k: int) {
    Least(levels) * k <= v <= Greatest(levels) * k
  }

  // Every cell holds at most one share from each pixel that spreads to it: six in all.
  predicate RowsBounded(levels: Levels, row0: seq<int>, row1: seq<int>, row2: seq<int>, done: set<int>) {
    && |row0| == |row1| == |row2|
    && forall c: nat {:trigger CellBounded(levels, row0, row1, row2, done, c)} :: c < |row0| ==>
         CellBounded(levels, row0, row1, row2, done, c)
  }

  predicate CellBounded(levels: Levels, row0: seq<int>, row1: seq<int>, row2: seq<int>, done: set<int>, c: nat)
    requires c < |row0| == |row1| == |row2|
  {
    && Shares(levels, row0[c], 4 + Count(done, c - 3) + Count(done, c - 4))
    && Shares(levels, row1[c], 1 + Count(done, c - 1) + Count(done, c - 2) + Count(done, c - 3))
    && Shares(levels, row2[c], Count(done, c - 2))
  }

  function Added(row: seq<int>, c: nat, e: int): (r: seq<int>)
    requires c < |row|
    ensures |r| == |row|
  {
    row[c := ToInt16(row[c] + e)]
  }

  /** Accumulators stay within six shares: -96..90 for one bit, -54..42 for two. */
  lemma {:induction false} CellBounds(levels: Levels, row0: seq<int>, row1: seq<int>, row2: seq<int>, done: set<int>,
                                      c: nat)
    requires RowsBounded(levels, row0, row1, row2, done) && c < |row0|
    ensures levels.OneBit? ==> -96 <= row0[c] <= 90 && -96 <= row1[c] <= 90 && -96 <= row2[c] <= 90
    ensures levels.TwoBit? ==> -54 <= row0[c] <= 42 && -54 <= row1[c] <= 42 && -54 <= row2[c] <= 42
  {
    assert CellBounded(levels, row0, row1, row2, done, c);
  }

  lemma {:induction false} SpreadBounded(levels: Levels, row0: seq<int>, row1: seq<int>, row2: seq<int>,
                                         done: set<int>, x: nat, e: int)
    requires RowsBounded(levels, row0, row1, row2, done) && x + 4 < |row0| && x !in done
    requires Least(levels) <= e <= Greatest(levels)
    ensures RowsBounded(levels, Added(Added(row0, x + 3, e), x + 4, e), Added(Added(Added(row1, x + 1, e), x + 2, e), x + 3, e),
                        Added(row2, x + 2, e), done + {x})
  {
    hide Shares, Added, Count, Least, Greatest;
    var r0, r1, r2 := Added(Added(row0, x + 3, e), x + 4, e), Added(Added(Added(row1, x + 1, e), x + 2, e), x + 3, e), Added(row2, x + 2, e);
    var done' := done + {x};
    forall c: nat | c < |row0|
      ensures CellBounded(levels, r0, r1, r2, done', c)
    {
      Counts(done, x);
      assert CellBounded(levels, row0, row1, row2, done, c);
      ShareMore(levels, row0, x + 3, x + 4, x + 4, e, c, 4 + Count(done, c - 3) + Count(done, c - 4));
      ShareMore(levels, row1, x + 1, x + 2, x + 3, e, c, 1 + Count(done, c - 1) + Count(done, c - 2) + Count(done, c - 3));
      ShareMore(levels, row2, x + 2, x + 2, x + 2, e, c, Count(done, c - 2));
    }
  }

  lemma {:induction false} Counts(done: set<int>, x: int)
    requires x !in done
    ensures forall y: int {:trigger Count(done + {x}, y)} :: Count(done + {x}, y) == if y == x then 1 else Count(done, y)
    ensures forall y: int {:trigger Count(done, y)} :: 0 <= Count(done, y) <= 1
    ensures Count(done, x) == 0
  {
  }

  // A cell gets a share if it is one of those that the pixel spreads to in this row.
  lemma {:induction false} ShareMore(levels: Levels, row: seq<int>, a: nat, b: nat, d: nat, e: int, c: nat, k: int)
    requires a <= b <= d < |row| && c < |row| && 0 <= k <= 6 && (c == a || c == b || c == d ==> k < 6)
    requires Shares(levels, row[c], k) && Least(levels) <= e <= Greatest(levels)
    ensures Added(row, a, e)[c] == (if c == a then row[c] + e else row[c])
    ensures b != a ==> Added(Added(row, a, e), b, e)[c] == (if c == a || c == b then row[c] + e else row[c])
    ensures b != a && d != b ==>
      Added(Added(Added(row, a, e), b, e), d, e)[c] == (if c == a || c == b || c == d then row[c] + e else row[c])
    ensures k < 6 ==> Shares(levels, row[c] + e, k + 1)
  {
    hide ToInt16, Shares;
    if k < 6 {
      ShareAdds(levels, row[c], e, k);
    }
  }

  lemma {:induction false} ShareAdds(levels: Levels, v: int, e: int, k: int)
    requires 0 <= k < 6 && Shares(levels, v, k) && Least(levels) <= e <= Greatest(levels)
    ensures Shares(levels, v + e, k + 1) && ToInt16(v + e) == v + e
  {
    SharesGrow(levels, v, k, 5);
    if levels.OneBit? {
      assert -16 * k + -16 == -16 * (k + 1);
    }
    SmallFits(v + e);
  }

  lemma {:induction false} NoShares(levels: Levels)
    ensures Shares(levels, 0, 0)
  {
  }

  lemma {:induction false} SharesGrow(levels: Levels, v: int, k: int, n: int)
    requires 0 <= k <= n && Shares(levels, v, k)
    ensures Shares(levels, v, n)
  {
  }

  // Atkinson1BitDitherer and AtkinsonDitherer, which differ in their levels.
  class Atkinson {
    const levels: Levels
    const width: nat
    var errorRow0: array<int>
    var errorRow1: array<int>
    var errorRow2: array<int>

    // The pixels of the current row that have been processed.
    ghost var done: set<int>

    ghost predicate Valid()
      reads this, errorRow0, errorRow1, errorRow2
    {
      && errorRow0 != errorRow1 && errorRow0 != errorRow2 && errorRow1 != errorRow2
      && errorRow0.Length == errorRow1.Length == errorRow2.Length == width + 4
      && RowsBounded(levels, errorRow0[..], errorRow1[..], errorRow2[..], done)
    }

    constructor (levels: Levels, width: nat)
      ensures Valid() && done == {} && this.levels == levels && this.width == width
      ensures fresh(errorRow0) && fresh(errorRow1) && fresh(errorRow2)
    {
      this.levels, this.width := levels, width;
      errorRow0 := new int[width + 4](_ => 0);
      errorRow1 := new int[width + 4](_ => 0);
      errorRow2 := new int[width + 4](_ => 0);
      done := {};
    }

    /** processPixel: when no pixel of a row is processed twice, the accumulators keep their bounds. */
    method ProcessPixel(gray: int, x: nat) returns (quantized: int)
      requires Valid() && 0 <= gray <= 255 && x < width && x !in done
      modifies this`done, errorRow0, errorRow1, errorRow2
      ensures Valid() && done == old(done) + {x}
      ensures var adjusted := Clamp(gray + old(errorRow0[x + 2]));
              var e := Shift3(adjusted - Quantize(levels, adjusted).1);
              && quantized == Quantize(levels, adjusted).0
              && errorRow0[..] == Added(Added(old(errorRow0[..]), x + 3, e), x + 4, e)
              && errorRow1[..] == Added(Added(Added(old(errorRow1[..]), x + 1, e), x + 2, e), x + 3, e)
              && errorRow2[..] == Added(old(errorRow2[..]), x + 2, e)
    {
      hide RowsBounded, Added, ToInt16, Quantize;
      var adjusted := gray + errorRow0[x + 2];
      if adjusted < 0 { adjusted := 0; }
      if adjusted > 255 { adjusted := 255; }
      var (level, value) := Quantize(levels, adjusted);
      quantized := level;
      var error := Shift3(adjusted - value);
      ShareBound(levels, adjusted);
      SpreadBounded(levels, errorRow0[..], errorRow1[..], errorRow2[..], done, x, error);
      Add(errorRow0, x + 3, error);
      Add(errorRow0, x + 4, error);
      Add(errorRow1, x + 1, error);
      Add(errorRow1, x + 2, error);
      Add(errorRow1, x + 3, error);
      Add(errorRow2, x + 2, error);
      done := done + {x};
    }

    // The rows move up by one.
    method NextRow()
      requires Valid()
      modifies this`errorRow0, this`errorRow1, this`errorRow2, this`done, errorRow0
      ensures Valid() && done == {}
      ensures errorRow0 == old(errorRow1) && errorRow1 == old(errorRow2) && errorRow2 == old(errorRow0)
      ensures errorRow0[..] == old(errorRow1[..]) && errorRow1[..] == old(errorRow2[..])
      ensures forall c {:trigger errorRow2[c]} :: 0 <= c < errorRow2.Length ==> errorRow2[c] == 0
    {
      ghost var row0, row1, row2, before := errorRow0[..], errorRow1[..], errorRow2[..], done;
      var temp := errorRow0;
      errorRow0 := errorRow1;
      errorRow1 := errorRow2;
      errorRow2 := temp;
      Zero(errorRow2);
      done := {};
      RowsMove(levels, row0, row1, row2, before, errorRow2[..]);
    }
  }

  lemma {:induction false} RowsMove(levels: Levels, row0: seq<int>, row1: seq<int>, row2: seq<int>, done: set<int>,
                                    zeros: seq<int>)
    requires RowsBounded(levels, row0, row1, row2, done) && |zeros| == |row0|
    requires forall c {:trigger zeros[c]} :: 0 <= c < |zeros| ==> zeros[c] == 0
    ensures RowsBounded(levels, row1, row2, zeros, {})
  {
    hide Shares;
    NoShares(levels);
    forall c: nat | c < |row1|
      ensures CellBounded(levels, row1, row2, zeros, {}, c)
    {
      assert CellBounded(levels, row0, row1, row2, done, c);
      SharesGrow(levels, row1[c], 1 + Count(done, c - 1) + Count(done, c - 2) + Count(done, c - 3), 4);
      SharesGrow(levels, row2[c], Count(done, c - 2), 1);
    }
  }

  method Add(row: array<int>, c: nat, e: int)
    requires c < row.Length
    modifies row
    ensures row[..] == Added(old(row[..]), c, e)
  {
    row[c] := ToInt16(row[c] + e);
  }

  method Zero(row: array<int>)
    modifies row
    ensures forall c {:trigger row[c]} :: 0 <= c < row.Length ==> row[c] == 0
  {
    for i := 0 to row.Length
      invariant forall c {:trigger row[c]} :: 0 <= c < i ==> row[c] == 0
    {
      row[i] := 0;
    }
  }

  // ---------- Floyd-Steinberg ----------

  // The shares of an error, seven, three, five and one sixteenths, rounded down.
  function Share(e: int, sixteenths: int): int {
    Shift4(e * sixteenths)
  }

  /** No more than three of an error get lost. */
  lemma {:induction false} SharesAddUp(e: int)
    ensures e - 3 <= Share(e, 7) + Share(e, 3) + Share(e, 5) + Share(e, 1) <= e
  {
  }

  lemma {:induction false} ErrorBound(adjusted: int)
    requires 0 <= adjusted <= 255
    ensures var e := adjusted - Quantize(TwoBit, adjusted).1;
            && -31 <= Share(e, 7) <= 25 && -14 <= Share(e, 3) <= 11 && -22 <= Share(e, 5) <= 18 && -5 <= Share(e, 1) <= 3
  {
  }

  // The pixel that spreads so many sixteenths to cell c; rows are mirrored by turns.
  function Source7(reverse: bool, c: int): int {
    if reverse then c else c - 2
  }

  function Source3(reverse: bool, c: int): int {
    if reverse then c - 2 else c
  }

  function Source1(reverse: bool, c: int): int {
    if reverse then c else c - 2
  }

  // What cell c of the current row and of the next row has got.
  predicate FsCell(cur: seq<int>, next: seq<int>, done: set<int>, reverse: bool, c: nat)
    requires c < |cur| == |next|
  {
    CurrentCell(cur[c], done, reverse, c) && NextCell(next[c], done, reverse, c)
  }

  predicate CurrentCell(v: int, done: set<int>, reverse: bool, c: nat) {
    -41 - 31 * Count(done, Source7(reverse, c)) <= v <= 32 + 25 * Count(done, Source7(reverse, c))
  }

  predicate NextCell(v: int, done: set<int>, reverse: bool, c: nat) {
    && -14 * Count(done, Source3(reverse, c)) - 22 * Count(done, c - 1) - 5 * Count(done, Source1(reverse, c)) <= v
    && v <= 11 * Count(done, Source3(reverse, c)) + 18 * Count(done, c - 1) + 3 * Count(done, Source1(reverse, c))
  }

  ghost predicate FsBounded(cur: seq<int>, next: seq<int>, done: set<int>, reverse: bool) {
    && |cur| == |next|
    && forall c: nat {:trigger FsCell(cur, next, done, reverse, c)} :: c < |cur| ==> FsCell(cur, next, done, reverse, c)
  }

  /** Every accumulator stays within -72..57. */
  lemma {:induction false} FsCellBounds(cur: seq<int>, next: seq<int>, done: set<int>, reverse: bool, c: nat)
    requires FsBounded(cur, next, done, reverse) && c < |cur|
    ensures -72 <= cur[c] <= 57 && -72 <= next[c] <= 57
  {
    assert FsCell(cur, next, done, reverse, c);
  }

  // The rows after pixel x has spread e.
  function FsCurrent(cur: seq<int>, reverse: bool, x: nat, e: int): (r: seq<int>)
    requires x + 2 < |cur|
    ensures |r| == |cur|
  {
    Added(cur, if reverse then x else x + 2, Share(e, 7))
  }

  function FsNext(next: seq<int>, reverse: bool, x: nat, e: int): (r: seq<int>)
    requires x + 2 < |next|
    ensures |r| == |next|
  {
    var r := Added(next, if reverse then x + 2 else x, Share(e, 3));
    var r := Added(r, x + 1, Share(e, 5));
    Added(r, if reverse then x else x + 2, Share(e, 1))
  }

  lemma {:induction false} FsSpreadBounded(cur: seq<int>, next: seq<int>, done: set<int>, reverse: bool, x: nat, e: int)
    requires FsBounded(cur, next, done, reverse) && x + 2 < |cur| && x !in done
    requires -31 <= Share(e, 7) <= 25 && -14 <= Share(e, 3) <= 11 && -22 <= Share(e, 5) <= 18 && -5 <= Share(e, 1) <= 3
    ensures FsBounded(FsCurrent(cur, reverse, x, e), FsNext(next, reverse, x, e), done + {x}, reverse)
  {
    hide FsCell, FsCurrent, FsNext;
    var cur', next', done' := FsCurrent(cur, reverse, x, e), FsNext(next, reverse, x, e), done + {x};
    forall c: nat | c < |cur|
      ensures FsCell(cur', next', done', reverse, c)
    {
      assert FsCell(cur, next, done, reverse, c);
      FsCellSpread(cur, next, done, reverse, x, e, c);
    }
  }

  lemma {:induction false} FsCellSpread(cur: seq<int>, next: seq<int>, done: set<int>, reverse: bool, x: nat, e: int,
                                        c: nat)
    requires c < |cur| == |next| && x + 2 < |cur| && x !in done && FsCell(cur, next, done, reverse, c)
    requires -31 <= Share(e, 7) <= 25 && -14 <= Share(e, 3) <= 11 && -22 <= Share(e, 5) <= 18 && -5 <= Share(e, 1) <= 3
    ensures FsCell(FsCurrent(cur, reverse, x, e), FsNext(next, reverse, x, e), done + {x}, reverse, c)
  {
    hide CurrentCell, NextCell, FsCurrent, FsNext;
    CurrentCellSpread(cur, done, reverse, x, e, c);
    NextCellSpread(next, done, reverse, x, e, c);
  }

  lemma {:induction false} CurrentCellSpread(cur: seq<int>, done: set<int>, reverse: bool, x: nat, e: int, c: nat)
    requires c < |cur| && x + 2 < |cur| && x !in done && CurrentCell(cur[c], done, reverse, c) && -31 <= Share(e, 7) <= 25
    ensures CurrentCell(FsCurrent(cur, reverse, x, e)[c], done + {x}, reverse, c)
  {
    hide Share, Count;
    Counts(done, x);
  }

  lemma {:induction false} NextCellSpread(next: seq<int>, done: set<int>, reverse: bool, x: nat, e: int, c: nat)
    requires c < |next| && x + 2 < |next| && x !in done && NextCell(next[c], done, reverse, c)
    requires -14 <= Share(e, 3) <= 11 && -22 <= Share(e, 5) <= 18 && -5 <= Share(e, 1) <= 3
    ensures NextCell(FsNext(next, reverse, x, e)[c], done + {x}, reverse, c)
  {
    hide Share, Count;
    Counts(done, x);
  }

  // The side to which a row is scanned.
  function Ahead(reverse: bool): int {
    if reverse then -1 else 1
  }

  /** The error of pixel x, whose own cell is x + 1, goes to its four neighbours: seven sixteenths ahead, and below it
      three behind, five straight and one ahead; the accumulators do not overflow. */
  lemma {:induction false} FsPattern(cur: seq<int>, next: seq<int>, done: set<int>, reverse: bool, x: nat, e: int,
                                     c: nat)
    requires FsBounded(cur, next, done, reverse) && x + 2 < |cur| && x !in done && c < |cur|
    requires -31 <= Share(e, 7) <= 25 && -14 <= Share(e, 3) <= 11 && -22 <= Share(e, 5) <= 18 && -5 <= Share(e, 1) <= 3
    ensures FsCurrent(cur, reverse, x, e)[c] == cur[c] + if c == x + 1 + Ahead(reverse) then Share(e, 7) else 0
    ensures FsNext(next, reverse, x, e)[c]
            == next[c] + if c == x + 1 - Ahead(reverse) then Share(e, 3)
                         else if c == x + 1 then Share(e, 5)
                         else if c == x + 1 + Ahead(reverse) then Share(e, 1) else 0
  {
    hide Share, FsCell, ToInt16;
    FsCellBounds(cur, next, done, reverse, c);
    SmallFits(cur[c] + Share(e, 7));
    SmallFits(next[c] + Share(e, 3));
    SmallFits(next[c] + Share(e, 5));
    SmallFits(next[c] + Share(e, 1));
  }

  // A share is so many sixteenths, rounded down.
  lemma {:induction false} ShareIs(e: int, sixteenths: int)
    ensures 16 * Share(e, sixteenths) <= e * sixteenths < 16 * Share(e, sixteenths) + 16
  {
  }

  lemma {:induction false} FsRowsMove(cur: seq<int>, next: seq<int>, done: set<int>, reverse: bool, zeros: seq<int>)
    requires FsBounded(cur, next, done, reverse) && |zeros| == |cur|
    requires forall c {:trigger zeros[c]} :: 0 <= c < |zeros| ==> zeros[c] == 0
    ensures FsBounded(next, zeros, {}, !reverse)
  {
    var none: set<int>, mirrored := {}, !reverse;
    forall c: nat | c < |next|
      ensures FsCell(next, zeros, none, mirrored, c)
    {
      assert FsCell(cur, next, done, reverse, c);
    }
  }

  class FloydSteinberg {
    const width: nat
    var rowCount: nat
    var errorCurRow: array<int>
    var errorNextRow: array<int>

    ghost var done: set<int>

    ghost predicate Valid()
      reads this, errorCurRow, errorNextRow
    {
      && errorCurRow != errorNextRow && errorCurRow.Length == errorNextRow.Length == width + 2
      && FsBounded(errorCurRow[..], errorNextRow[..], done, IsReverseRow())
    }

    constructor (width: nat)
      ensures Valid() && done == {} && rowCount == 0 && this.width == width && !IsReverseRow()
      ensures fresh(errorCurRow) && fresh(errorNextRow)
    {
      this.width, rowCount := width, 0;
      errorCurRow := new int[width + 2](_ => 0);
      errorNextRow := new int[width + 2](_ => 0);
      done := {};
    }

    predicate IsReverseRow()
      reads this`rowCount
    {
      rowCount % 2 != 0
    }

    /** processPixel, with the direction of the row. */
    method ProcessPixel(gray: int, x: nat) returns (quantized: int)
      requires Valid() && 0 <= gray <= 255 && x < width && x !in done
      modifies this`done, errorCurRow, errorNextRow
      ensures Valid() && done == old(done) + {x}
      ensures var adjusted := Clamp(gray + old(errorCurRow[x + 1]));
              var e := adjusted - Quantize(TwoBit, adjusted).1;
              && quantized == Quantize(TwoBit, adjusted).0
              && errorCurRow[..] == FsCurrent(old(errorCurRow[..]), IsReverseRow(), x, e)
              && errorNextRow[..] == FsNext(old(errorNextRow[..]), IsReverseRow(), x, e)
    {
      hide FsBounded, Added, ToInt16, Quantize, Shift4;
      var adjusted := gray + errorCurRow[x + 1];
      if adjusted < 0 { adjusted := 0; }
      if adjusted > 255 { adjusted := 255; }
      var (level, value) := Quantize(TwoBit, adjusted);
      quantized := level;
      var error := adjusted - value;
      ErrorBound(adjusted);
      FsSpreadBounded(errorCurRow[..], errorNextRow[..], done, IsReverseRow(), x, error);
      if !IsReverseRow() {
        Add(errorCurRow, x + 2, Shift4(error * 7));
        Add(errorNextRow, x, Shift4(error * 3));
        Add(errorNextRow, x + 1, Shift4(error * 5));
        Add(errorNextRow, x + 2, Shift4(error * 1));
      } else {
        Add(errorCurRow, x, Shift4(error * 7));
        Add(errorNextRow, x + 2, Shift4(error * 3));
        Add(errorNextRow, x + 1, Shift4(error * 5));
        Add(errorNextRow, x, Shift4(error * 1));
      }
      done := done + {x};
    }

    method NextRow()
      requires Valid()
      modifies this`errorCurRow, this`errorNextRow, this`done, this`rowCount, errorCurRow
      ensures Valid() && done == {} && rowCount == old(rowCount) + 1
      ensures IsReverseRow() == !old(IsReverseRow())
      ensures errorCurRow == old(errorNextRow) && errorNextRow == old(errorCurRow) && errorCurRow[..] == old(errorNextRow[..])
      ensures forall c {:trigger errorNextRow[c]} :: 0 <= c < errorNextRow.Length ==> errorNextRow[c] == 0
    {
      ghost var cur, next, before, reverse := errorCurRow[..], errorNextRow[..], done, IsReverseRow();
      var temp := errorCurRow;
      errorCurRow := errorNextRow;
      errorNextRow := temp;
      Zero(errorNextRow);
      rowCount := rowCount + 1;
      done := {};
      FsRowsMove(cur, next, before, reverse, errorNextRow[..]);
    }
  }
}
