/**
 Row-major forest positions.

 A forest of `rows` rows is stored bottom row first: `2^rows` leaves, then the row above,
 up to a single top node. A position is therefore a number below `2^(rows+1) - 1`; the
 program moves between positions with shifts and masks, and this module proves that those
 agree with plain (row, offset) coordinates.
 */
module Coordinates {
  import opened Bits
  import opened Wrappers

  datatype Coord = Coord(row: nat, off: nat)

  const MAX_ROWS: nat := 62

  function Capacity(rows: nat): nat {
    Pow2(rows + 1) - 1
  }

  predicate InLayout(c: Coord, rows: nat) {
    c.row <= rows && c.off < Pow2(rows - c.row)
  }

  /** Where a coordinate is stored: the bottom row, then the layout with one row less. */
  function Position(c: Coord, rows: nat): (p: nat)
    requires InLayout(c, rows)
    ensures p < Capacity(rows)
    ensures At(p, rows) == c
    decreases rows
  {
    if c.row == 0 then c.off else Pow2(rows) + Position(Coord(c.row - 1, c.off), rows - 1)
  }

  /** Which coordinate a position stores. */
  function At(p: nat, rows: nat): (c: Coord)
    requires p < Capacity(rows)
    ensures InLayout(c, rows)
    decreases rows
  {
    if p < Pow2(rows) then Coord(0, p)
    else var up := At(p - Pow2(rows), rows - 1); Coord(up.row + 1, up.off)
  }

  lemma {:induction false} PositionAt(p: nat, rows: nat)
    requires p < Capacity(rows)
    ensures Position(At(p, rows), rows) == p
    decreases rows
  {
    if p >= Pow2(rows) { PositionAt(p - Pow2(rows), rows - 1); }
  }

  function Above(c: Coord): Coord { Coord(c.row + 1, c.off / 2) }

  function LeftBelow(c: Coord): Coord
    requires c.row > 0
  {
    Coord(c.row - 1, 2 * c.off)
  }

  function RightBelow(c: Coord): Coord
    requires c.row > 0
  {
    Coord(c.row - 1, 2 * c.off + 1)
  }

  function Sibling(c: Coord): Coord { Coord(c.row, FlipLow(c.off)) }

  /** The node (row, off) exists once `leaves` leaves are present. */
  predicate Ready(leaves: nat, c: Coord) {
    c.off < Shr(leaves, c.row)
  }

  /** The forest of `leaves` leaves has one root per set bit, last in its row. */
  predicate IsRoot(leaves: nat, c: Coord) {
    Shr(leaves, c.row) % 2 == 1 && c.off == Shr(leaves, c.row) - 1
  }

  lemma {:induction false} ReadyInLayout(leaves: nat, c: Coord, rows: nat)
    requires leaves <= Pow2(rows) && Ready(leaves, c)
    ensures InLayout(c, rows)
  {
    if c.row <= rows {
      ShrBound(leaves, c.row, rows - c.row);
    } else {
      ShrBeyond(leaves, rows, c.row);
    }
  }

  lemma {:induction false} ShrBeyond(x: nat, rows: nat, k: nat)
    requires x <= Pow2(rows) && k > rows
    ensures Shr(x, k) == 0
  {
    ShrBound(x, rows, 0);
    ShrShr(x, rows, k - rows);
    ShrMonotone(Shr(x, rows), 1, k - rows);
    ShrOne(k - rows);
  }

  lemma {:induction false} ShrOne(k: nat)
    requires k > 0
    ensures Shr(1, k) == 0
  {
    if k == 1 { assert Shr(1, 0) == 1; } else { ShrOne(k - 1); }
  }

  /** Above every ready node that is not a root there is a ready node. */
  lemma {:induction false} ReadyAbove(leaves: nat, c: Coord)
    requires Ready(leaves, c) && !IsRoot(leaves, c)
    ensures Ready(leaves, Above(c))
    ensures Ready(leaves, Sibling(c))
  {
    var n := Shr(leaves, c.row);
    assert Shr(leaves, c.row + 1) == n / 2;
  }

  /** A ready node above the bottom row has two ready children, which are not roots. */
  lemma {:induction false} ReadyBelow(leaves: nat, c: Coord)
    requires c.row > 0 && Ready(leaves, c)
    ensures Ready(leaves, LeftBelow(c)) && Ready(leaves, RightBelow(c))
    ensures !IsRoot(leaves, LeftBelow(c)) && !IsRoot(leaves, RightBelow(c))
  {
    assert Shr(leaves, c.row) == Shr(leaves, c.row - 1) / 2;
  }

  // ----- The program's position arithmetic -----

  function Parent(position: nat, rows: nat): nat {
    Or(Shr(position, 1), Shl(1, rows))
  }

  function LeftChild(position: nat, rows: nat): nat
    requires Shl(2, rows) > 0
  {
    And(Shl(position, 1), Shl(2, rows) - 1)
  }

  function StartPositionAtRow(row: nat, rows: nat): (start: nat)
    requires row <= rows
  {
    assert Pow2(rows + 1 - row) <= Pow2(rows + 1) by { Pow2Monotone(rows + 1 - row, rows + 1); }
    Pow2(rows + 1) - Pow2(rows + 1 - row)
  }

  function RootPosition(leaves: nat, row: nat, rows: nat): nat
    requires row <= rows && Shl(2, rows) > 0
  {
    var mask := Shl(2, rows) - 1;
    var before := And(leaves, Shl(mask, row + 1));
    var shifted := Or(Shr(before, row), Shl(mask, rows + 1 - row));
    And(shifted, mask)
  }

  function IsRootPosition(position: nat, leaves: nat, rows: nat): bool
    requires position < Capacity(rows) && rows <= MAX_ROWS
  {
    var row := At(position, rows).row;
    MaskPositive(rows);
    And(leaves, Shl(1, row)) != 0 && RootPosition(leaves, row, rows) == position
  }

  function TranslatePosition(position: nat, fromRows: nat, toRows: nat): (r: Option<nat>)
    requires position < Capacity(fromRows)
  {
    var row := At(position, fromRows).row;
    if row > toRows then None
    else
      PositionFromStart(At(position, fromRows), fromRows);
      PositionAt(position, fromRows);
      var translated := StartPositionAtRow(row, toRows) + (position - StartPositionAtRow(row, fromRows));
      if translated >= WORD then None else Some(translated)
  }

  function BitLength(x: nat): nat {
    if x == 0 then 0 else 1 + BitLength(x / 2)
  }

  function TreeRows(leaves: nat): nat {
    if leaves == 0 then 0 else BitLength(leaves - 1)
  }

  /** The program's descending marker finds the row by repeated bit tests. */
  method DetectRow(position: nat, rows: nat) returns (row: nat)
    requires position < Capacity(rows) && rows <= MAX_ROWS
    ensures row == At(position, rows).row
  {
    ShlOne(rows);
    var marker := Shl(1, rows);
    row := 0;
    ghost var rest: nat := position;
    while And(position, marker) != 0
      invariant row <= rows && marker == Pow2(rows - row)
      invariant rest < Capacity(rows - row)
      invariant position == StartPositionAtRow(row, rows) + rest
      invariant At(position, rows).row == row + At(rest, rows - row).row
      decreases rows - row
    {
      BitOfPosition(row, rest, rows);
      assert Shr(marker, 1) == Pow2(rows - row) / 2 by { assert Shr(marker, 0) == marker; }
      rest := rest - Pow2(rows - row);
      marker := Shr(marker, 1);
      row := row + 1;
    }
    BitOfPosition(row, rest, rows);
  }

  lemma {:induction false} BitOfPosition(row: nat, rest: nat, rows: nat)
    requires row <= rows && rest < Capacity(rows - row)
    ensures And(StartPositionAtRow(row, rows) + rest, Pow2(rows - row)) != 0 <==> rest >= Pow2(rows - row)
  {
    hide And, Scale, StartPositionAtRow, Pow2;
    var k := rows - row;
    var p := StartPositionAtRow(row, rows) + rest;
    AndBit(p, k);
    StartScaled(row, rows);
    Pow2Step(k);
    var m := Pow2(row) - 1;
    ScaleDouble(m, k);
    assert StartPositionAtRow(row, rows) == Scale(2 * m, k);
    if rest >= Pow2(k) {
      ScaleOne(k);
      ScaleAdd(2 * m, 1, k);
      ShrScale(2 * m + 1, k, rest - Pow2(k));
    } else {
      ShrScale(2 * m, k, rest);
    }
  }

  lemma {:induction false} StartScaled(row: nat, rows: nat)
    requires row <= rows
    ensures StartPositionAtRow(row, rows) == Scale(Pow2(row) - 1, rows + 1 - row)
  {
    ScaleOfPow2(row, rows + 1 - row);
    ScaleAdd(Pow2(row) - 1, 1, rows + 1 - row);
    ScaleOne(rows + 1 - row);
  }

  /** Each row starts where its first position is stored. */
  lemma {:induction false} PositionFromStart(c: Coord, rows: nat)
    requires InLayout(c, rows)
    ensures Position(c, rows) == StartPositionAtRow(c.row, rows) + c.off
    decreases rows
  {
    if c.row > 0 {
      PositionFromStart(Coord(c.row - 1, c.off), rows - 1);
    }
  }

  lemma {:induction false} ShlOne(rows: nat)
    requires rows <= MAX_ROWS
    ensures Shl(1, rows) == Pow2(rows) && Shl(2, rows) == Pow2(rows + 1) < WORD
  {
    Pow2Of64();
    Pow2Monotone(rows + 1, 63);
    assert Pow2(64) == 2 * Pow2(63);
    ScaleOne(rows);
    ScaleOfPow2(1, rows);
    assert Pow2(1) == 2;
    ShlExact(1, rows);
    ShlExact(2, rows);
  }

  lemma {:induction false} MaskPositive(rows: nat)
    requires rows <= MAX_ROWS
    ensures Shl(2, rows) > 0
  {
    ShlOne(rows);
  }

  lemma {:induction false} StartEven(row: nat, rows: nat)
    requires row <= rows
    ensures Pow2(rows) >= Pow2(rows - row)
    ensures StartPositionAtRow(row, rows) == 2 * (Pow2(rows) - Pow2(rows - row))
    ensures row > 0 ==> StartPositionAtRow(row, rows) == Pow2(rows) + StartPositionAtRow(row - 1, rows - 1)
  {
    Pow2Monotone(rows - row, rows);
  }

  /** The bit-level parent is the node above. */
  lemma {:induction false} ParentAgrees(c: Coord, rows: nat)
    requires InLayout(c, rows) && c.row < rows <= MAX_ROWS
    ensures InLayout(Above(c), rows)
    ensures Parent(Position(c, rows), rows) == Position(Above(c), rows)
  {
    hide Or, Shl, Position, At, Pow2;
    var p := Position(c, rows);
    ShlOne(rows);
    Pow2Step(rows);
    Pow2Step(rows - c.row - 1);
    StartEven(c.row, rows);
    StartEven(c.row + 1, rows);
    assert Shr(p, 1) == p / 2 by { assert Shr(p, 0) == p; }
    ScaleOne(rows);
    OrDisjoint(p / 2, rows, 1);
    PositionFromStart(c, rows);
    PositionFromStart(Above(c), rows);
  }

  /** The bit-level left child is the node below on the left. */
  lemma {:induction false} LeftChildAgrees(c: Coord, rows: nat)
    requires InLayout(c, rows) && c.row > 0 && rows <= MAX_ROWS
    ensures Shl(2, rows) > 0
    ensures InLayout(LeftBelow(c), rows) && InLayout(RightBelow(c), rows)
    ensures LeftChild(Position(c, rows), rows) == Position(LeftBelow(c), rows)
    ensures Position(RightBelow(c), rows) == Position(LeftBelow(c), rows) + 1
  {
    ChildrenInLayout(c, rows);
    DoubleOfPosition(c, rows);
    LeftChildValue(Position(c, rows), Position(LeftBelow(c), rows), rows);
  }

  lemma {:induction false} LeftChildValue(p: nat, child: nat, rows: nat)
    requires rows <= MAX_ROWS && child < Pow2(rows + 1) && 2 * p == child + Pow2(rows + 1)
    ensures Shl(2, rows) > 0
    ensures LeftChild(p, rows) == child
  {
    var doubled := Shl(p, 1);
    LowOfDouble(p, child, rows + 1);
    ShlOne(rows);
    AndMask(doubled, rows + 1);
  }

  lemma {:induction false} DoubleOfPosition(c: Coord, rows: nat)
    requires InLayout(c, rows) && c.row > 0 && InLayout(LeftBelow(c), rows)
    ensures 2 * Position(c, rows) == Position(LeftBelow(c), rows) + Pow2(rows + 1)
    ensures Position(LeftBelow(c), rows) < Pow2(rows + 1)
  {
    PositionFromStart(c, rows);
    PositionFromStart(LeftBelow(c), rows);
    StartEven(c.row - 1, rows);
    StartEven(c.row, rows);
    Pow2Step(rows - c.row);
  }

  lemma {:induction false} ChildrenInLayout(c: Coord, rows: nat)
    requires InLayout(c, rows) && c.row > 0
    ensures InLayout(LeftBelow(c), rows) && InLayout(RightBelow(c), rows)
    ensures Position(RightBelow(c), rows) == Position(LeftBelow(c), rows) + 1
  {
    hide Position, At, StartPositionAtRow, Pow2;
    Pow2Step(rows - c.row);
    PositionFromStart(LeftBelow(c), rows);
    PositionFromStart(RightBelow(c), rows);
  }

  lemma {:induction false} LowOfDouble(p: nat, child: nat, k: nat)
    requires k <= 64 && child < Pow2(k) && 2 * p == child + Pow2(k)
    ensures Low(Shl(p, 1), k) == child
  {
    assert Scale(p, 1) == 2 * p by { assert Scale(p, 0) == p; }
    ShlLow(p, 1, k);
    ScaleOne(k);
    LowScale(child, 1, k);
    LowSmall(child, k);
  }

  lemma {:induction false} RootPositionValue(leaves: nat, row: nat, rows: nat)
    requires row <= rows <= MAX_ROWS && leaves <= Pow2(rows)
    ensures Shl(2, rows) > 0
    ensures RootPosition(leaves, row, rows) == StartPositionAtRow(row, rows) + 2 * Shr(leaves, row + 1)
  {
    hide And, Or, Shl, Low, Pow2, Scale;
    ShlOne(rows);
    var mask := Pow2(rows + 1) - 1;
    var before := And(leaves, Shl(mask, row + 1));
    var high := 2 * Shr(leaves, row + 1);
    HighBound(leaves, row, rows);
    assert Shr(before, row) == high by {
      BeforeRoot(leaves, row, rows);
      ScaleDouble(Shr(leaves, row + 1), row);
      ShrScale(high, row, 0);
    }
    FilledRow(high, row, rows);
  }

  lemma {:induction false} FilledRow(high: nat, row: nat, rows: nat)
    requires row <= rows && rows < 64 && high < Pow2(rows + 1 - row) <= Pow2(rows + 1)
    ensures And(Or(high, Shl(Pow2(rows + 1) - 1, rows + 1 - row)), Pow2(rows + 1) - 1)
            == StartPositionAtRow(row, rows) + high
  {
    hide And, Or, Shl, Low, Pow2, Scale;
    var filled := Shl(Pow2(rows + 1) - 1, rows + 1 - row);
    AndMask(Or(high, filled), rows + 1);
    OrLow(high, filled, rows + 1);
    LowSmall(high, rows + 1);
    assert Low(filled, rows + 1) == StartPositionAtRow(row, rows) by {
      ShlLow(Pow2(rows + 1) - 1, rows + 1 - row, rows + 1);
      MaskShifted(row, rows);
    }
    StartScaled(row, rows);
    OrDisjoint(high, rows + 1 - row, Pow2(row) - 1);
  }

  lemma {:induction false} HighBound(leaves: nat, row: nat, rows: nat)
    requires row <= rows && leaves <= Pow2(rows)
    ensures 2 * Shr(leaves, row + 1) < Pow2(rows + 1 - row) <= Pow2(rows + 1)
  {
    ShrBound(leaves, row, rows - row);
    assert Shr(leaves, row + 1) == Shr(leaves, row) / 2;
    Pow2Monotone(rows + 1 - row, rows + 1);
  }

  lemma {:induction false} BeforeRoot(leaves: nat, row: nat, rows: nat)
    requires row <= rows <= MAX_ROWS && leaves <= Pow2(rows)
    ensures And(leaves, Shl(Pow2(rows + 1) - 1, row + 1)) == Scale(Shr(leaves, row + 1), row + 1)
  {
    var mask := Pow2(rows + 1) - 1;
    var shifted := Shl(mask, row + 1);
    var n := rows + 1;
    Pow2Monotone(rows, n);
    LowSmall(leaves, n);
    AndLow(leaves, shifted, n);
    ShlLow(mask, row + 1, n);
    AndLow(leaves, Scale(mask, row + 1), n);
    Pow2Monotone(n, n + row + 1);
    AndHigh(leaves, row + 1, n);
  }

  /** Shifting the mask up and cutting it back leaves the start of the row. */
  lemma {:induction false} MaskShifted(row: nat, rows: nat)
    requires row <= rows
    ensures Low(Scale(Pow2(rows + 1) - 1, rows + 1 - row), rows + 1) == StartPositionAtRow(row, rows)
  {
    hide Scale, Low;
    var k, n := rows + 1 - row, rows + 1;
    ScaleAdd(Pow2(n) - 1, 1, k);
    ScaleOfPow2(n, k);
    ScaleOne(k);
    // 2^(n+k) - 2^k = (2^n - 2^k) + (2^k - 1) * 2^n
    ScaleAdd(Pow2(k) - 1, 1, n);
    ScaleOfPow2(k, n);
    ScaleOne(n);
    var start := StartPositionAtRow(row, rows);
    assert Scale(Pow2(n) - 1, k) == start + Scale(Pow2(k) - 1, n);
    LowScale(start, Pow2(k) - 1, n);
    LowSmall(start, n);
  }

  lemma {:induction false} OrLow(a: nat, b: nat, k: nat)
    ensures Low(Or(a, b), k) == Or(Low(a, k), Low(b, k))
  {
    hide Or;
    if k == 0 {
      OrZero();
    } else {
      OrLow(a / 2, b / 2, k - 1);
      OrStep(a, b);
      OrStep(Low(a, k), Low(b, k));
    }
  }

  lemma {:induction false} OrZero()
    ensures Or(0, 0) == 0
  {
  }

  /** The lowest digit of OR, and the rest. */
  lemma {:induction false} OrStep(a: nat, b: nat)
    ensures Or(a, b) == 2 * Or(a / 2, b / 2) + (if a % 2 == 1 || b % 2 == 1 then 1 else 0)
  {
  }

  /** Only the bits both operands can have matter. */
  lemma {:induction false} AndLow(a: nat, b: nat, k: nat)
    requires a < Pow2(k)
    ensures And(a, b) == And(a, Low(b, k))
  {
    if k > 0 && a > 0 {
      AndLow(a / 2, b / 2, k - 1);
      if b == 0 { LowSmall(0, k); }
      assert Low(b, k) / 2 == Low(b / 2, k - 1);
      if Low(b, k) == 0 { assert And(a / 2, Low(b / 2, k - 1)) == 0; }
    }
  }

  /** With bit `row` of the leaf count set, the bit-level root is the last ready node of the row. */
  lemma {:induction false} RootPositionAgrees(leaves: nat, row: nat, rows: nat)
    requires row <= rows <= MAX_ROWS && leaves <= Pow2(rows)
    requires Shr(leaves, row) % 2 == 1
    ensures Shl(2, rows) > 0
    ensures InLayout(Coord(row, Shr(leaves, row) - 1), rows)
    ensures RootPosition(leaves, row, rows) == Position(Coord(row, Shr(leaves, row) - 1), rows)
  {
    hide RootPosition, Shl, Position, At, Pow2;
    var c := Coord(row, Shr(leaves, row) - 1);
    ReadyInLayout(leaves, c, rows);
    RootPositionValue(leaves, row, rows);
    PositionFromStart(c, rows);
  }

  /** The bit-level root test is the coordinate test. */
  lemma {:induction false} IsRootAgrees(c: Coord, leaves: nat, rows: nat)
    requires InLayout(c, rows) && rows <= MAX_ROWS && leaves <= Pow2(rows)
    ensures IsRootPosition(Position(c, rows), leaves, rows) <==> IsRoot(leaves, c)
  {
    hide RootPosition, And, Shl, Position, Pow2, At;
    assert And(leaves, Shl(1, c.row)) != 0 <==> Shr(leaves, c.row) % 2 == 1 by {
      AndBit(leaves, c.row);
      ShlOne(c.row);
    }
    if Shr(leaves, c.row) % 2 == 1 {
      RootPositionAgrees(leaves, c.row, rows);
      PositionFromStart(c, rows);
      PositionFromStart(Coord(c.row, Shr(leaves, c.row) - 1), rows);
    }
  }

  /** Flipping the lowest bit of a position reaches the sibling. */
  lemma {:induction false} SiblingAgrees(c: Coord, rows: nat)
    requires InLayout(c, rows) && c.row < rows
    ensures InLayout(Sibling(c), rows)
    ensures FlipLow(Position(c, rows)) == Position(Sibling(c), rows)
  {
    hide Position, At, Pow2;
    Pow2Step(rows - c.row - 1);
    StartEven(c.row, rows);
    PositionFromStart(c, rows);
    PositionFromStart(Sibling(c), rows);
  }

  /** A position keeps its row and offset in every layout that is at least as tall. */
  lemma {:induction false} TranslateAgrees(c: Coord, fromRows: nat, toRows: nat)
    requires InLayout(c, fromRows) && fromRows <= toRows <= 63
    ensures InLayout(c, toRows)
    ensures TranslatePosition(Position(c, fromRows), fromRows, toRows) == Some(Position(c, toRows))
  {
    hide At, Position, Pow2;
    Pow2Monotone(fromRows - c.row, toRows - c.row);
    PositionFromStart(c, fromRows);
    PositionFromStart(c, toRows);
    Pow2Of64();
    Pow2Monotone(toRows + 1, 64);
  }

  /** Translating between layouts is injective and commutes with taking the parent. */
  lemma {:induction false} TranslateCommutes(p: nat, q: nat, fromRows: nat, toRows: nat)
    requires p < Capacity(fromRows) && q < Capacity(fromRows) && fromRows <= toRows <= MAX_ROWS
    ensures TranslatePosition(p, fromRows, toRows).Some? && TranslatePosition(q, fromRows, toRows).Some?
    ensures TranslatePosition(p, fromRows, toRows) == TranslatePosition(q, fromRows, toRows) <==> p == q
    ensures At(p, fromRows).row < fromRows ==>
              && Parent(p, fromRows) < Capacity(fromRows)
              && TranslatePosition(Parent(p, fromRows), fromRows, toRows)
                 == Some(Parent(TranslatePosition(p, fromRows, toRows).value, toRows))
  {
    var c, d := At(p, fromRows), At(q, fromRows);
    PositionAt(p, fromRows);
    PositionAt(q, fromRows);
    TranslateAgrees(c, fromRows, toRows);
    TranslateAgrees(d, fromRows, toRows);
    assert At(Position(c, toRows), toRows) == c && At(Position(d, toRows), toRows) == d;
    if c.row < fromRows {
      ParentAgrees(c, fromRows);
      ParentAgrees(c, toRows);
      TranslateAgrees(Above(c), fromRows, toRows);
    }
  }

  /** `tree_rows` is the least number of rows that holds the leaves. */
  lemma {:induction false} TreeRowsLeast(leaves: nat)
    ensures leaves <= Pow2(TreeRows(leaves))
    ensures forall k: nat :: leaves <= Pow2(k) ==> TreeRows(leaves) <= k
  {
    if leaves > 0 {
      BitLengthBounds(leaves - 1);
      forall k: nat | leaves <= Pow2(k)
        ensures TreeRows(leaves) <= k
      {
        if k < TreeRows(leaves) { Pow2Monotone(k, TreeRows(leaves) - 1); }
      }
    }
  }

  lemma {:induction false} BitLengthBounds(x: nat)
    ensures x < Pow2(BitLength(x))
    ensures x > 0 ==> BitLength(x) > 0 && Pow2(BitLength(x) - 1) <= x
  {
    if x > 0 { BitLengthBounds(x / 2); }
  }
}
