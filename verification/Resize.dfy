/**
 Growing the forest file online.

 A taller layout keeps the bottom row where it is, moves every other row up, and reuses the old
 rows' place for new leaves. A marker file names the two heights and a stage: while copying, the
 old rows are still intact; while clearing, the moved rows are durable. The process may stop
 anywhere, leaving any mixture of old, new and torn cells where it was writing.
 */
module Resize {
  import opened Bits
  import opened Wrappers
  import opened Coordinates
  import opened Forest
  import opened Entry
  import opened Ledger

  datatype Stage = Copying | Clearing

  datatype Marker = Marker(oldRows: nat, newRows: nat, stage: Stage)

  /** The durable content of the forest file, and of the marker file beside it. */
  datatype Disk = Disk(cells: seq<NodeState>, marker: Option<Marker>)

  /** Every old node at its translated position, every newly exposed position uninitialized. */
  function Grown(was: seq<NodeState>, o: nat, n: nat): (r: seq<NodeState>)
    requires |was| == Capacity(o)
    ensures |r| == Capacity(n)
  {
    seq(Capacity(n), p requires 0 <= p < Capacity(n) => GrownAt(was, o, n, p))
  }

  function GrownAt(was: seq<NodeState>, o: nat, n: nat, p: nat): NodeState
    requires |was| == Capacity(o) && p < Capacity(n)
  {
    if InLayout(At(p, n), o) then was[Position(At(p, n), o)] else UNINITIALIZED
  }

  /** Growing changes no reading: coordinates, outpoints and the count keep their values. */
  lemma {:induction false} GrownReads(s: ForestState, n: nat, k: Key)
    requires s.Valid() && s.rows <= n <= MAX_ROWS
    ensures ForestState(n, Grown(s.cells, s.rows, n), s.leafMap, s.leaves).Read(k) == s.Read(k)
  {
    hide Pow2, At, Position;
    if k.CellAt? {
      var c := k.coord;
      if InLayout(c, s.rows) {
        Pow2Monotone(s.rows - c.row, n - c.row);
        assert At(Position(c, n), n) == c;
      } else if InLayout(c, n) {
        assert At(Position(c, n), n) == c;
      }
    }
  }

  // ----- Where the process writes -----

  predicate Heights(o: nat, n: nat) {
    o < n <= MAX_ROWS
  }

  /** A position that receives a moved row. */
  predicate Destination(p: nat, o: nat, n: nat) {
    p < Capacity(n) && At(p, n).row > 0 && InLayout(At(p, n), o)
  }

  /** A position the old upper rows occupied, or that lies between the old and the new bottom row. */
  predicate ClearedRange(p: nat, o: nat, n: nat) {
    Pow2(o) <= p < Pow2(n)
  }

  /** The old file is still readable in full; only destinations may hold anything else. */
  ghost predicate CopyingState(cells: seq<NodeState>, was: seq<NodeState>, o: nat, n: nat) {
    && |was| == Capacity(o) && |cells| == Capacity(n) && |was| <= |cells|
    && (forall p :: 0 <= p < |was| ==> cells[p] == was[p])
    && forall p :: |was| <= p < |cells| && !Destination(p, o, n) ==> cells[p] == UNINITIALIZED
  }

  /** Everything outside the cleared range is final. */
  ghost predicate ClearingState(cells: seq<NodeState>, was: seq<NodeState>, o: nat, n: nat) {
    && |was| == Capacity(o) && |cells| == Capacity(n)
    && forall p :: 0 <= p < |cells| && !ClearedRange(p, o, n) ==> cells[p] == GrownAt(was, o, n, p)
  }

  /** Sources, destinations and the cleared range never conflict. */
  lemma {:induction false} RangesApart(p: nat, o: nat, n: nat)
    requires Heights(o, n)
    ensures Capacity(o) < Pow2(n)
    ensures Destination(p, o, n) ==> p >= Pow2(n) && !ClearedRange(p, o, n)
  {
    Pow2Monotone(o + 1, n);
  }

  lemma {:induction false} BottomStays(was: seq<NodeState>, o: nat, n: nat, p: nat)
    requires Heights(o, n) && |was| == Capacity(o) && p < Pow2(n)
    ensures p < Capacity(n)
    ensures GrownAt(was, o, n, p) == if p < Pow2(o) then was[p] else UNINITIALIZED
  {
    BottomPosition(p, n);
    if p < Pow2(o) { BottomPosition(p, o); }
  }

  /** What the old file and the copied rows make up. */
  predicate RowsCopied(cells: seq<NodeState>, was: seq<NodeState>, o: nat, n: nat, from: nat, to: nat)
    requires |was| == Capacity(o) && |cells| == Capacity(n)
  {
    forall p :: 0 <= p < |cells| && Destination(p, o, n) && from <= At(p, n).row < to ==>
          cells[p] == GrownAt(was, o, n, p)
  }

  lemma {:induction false} CopiedIsClearing(cells: seq<NodeState>, was: seq<NodeState>, o: nat, n: nat)
    requires Heights(o, n) && CopyingState(cells, was, o, n) && RowsCopied(cells, was, o, n, 1, o + 1)
    ensures ClearingState(cells, was, o, n)
  {
    hide At, Position, Pow2;
    forall p | 0 <= p < |cells| && !ClearedRange(p, o, n)
      ensures cells[p] == GrownAt(was, o, n, p)
    {
      RangesApart(p, o, n);
      if p < Pow2(o) {
        Pow2Monotone(o, n);
        BottomStays(was, o, n, p);
        BottomPosition(p, o);
      } else {
        UpperRow(p, n);
      }
    }
  }

  lemma {:induction false} UpperRow(p: nat, n: nat)
    requires Pow2(n) <= p < Capacity(n)
    ensures At(p, n).row > 0
  {
  }

  lemma {:induction false} ClearedIsGrown(cells: seq<NodeState>, was: seq<NodeState>, o: nat, n: nat)
    requires Heights(o, n) && ClearingState(cells, was, o, n)
    requires forall p :: 0 <= p < |cells| && ClearedRange(p, o, n) ==> cells[p] == UNINITIALIZED
    ensures cells == Grown(was, o, n)
  {
    hide At, Position, Pow2;
    forall p | 0 <= p < |cells|
      ensures cells[p] == GrownAt(was, o, n, p)
    {
      if ClearedRange(p, o, n) { BottomStays(was, o, n, p); }
    }
  }

  // ----- Every way to stop -----

  /** What may be on disk at any moment of a resize from `o` to `n` rows, or after it. */
  ghost predicate Resizing(d: Disk, was: seq<NodeState>, o: nat, n: nat) {
    && Heights(o, n) && |was| == Capacity(o)
    && match d.marker
       case None => d.cells == Grown(was, o, n)
       case Some(m) =>
         && m.oldRows == o && m.newRows == n
         && match m.stage
            case Copying => d.cells == was || CopyingState(d.cells, was, o, n)
            case Clearing => ClearingState(d.cells, was, o, n)
  }

  /** One durable effect. Writes need not be complete, ordered, or the intended ones. */
  ghost predicate Step(d: Disk, d': Disk) {
    match d.marker
    case None => d' == d
    case Some(m) =>
      match m.stage
      case Copying =>
        || (// the file is extended with zeros
            && d'.marker == d.marker && |d.cells| == Capacity(m.oldRows) && |d'.cells| == Capacity(m.newRows)
            && forall p :: 0 <= p < |d'.cells| ==> d'.cells[p] == if p < |d.cells| then d.cells[p] else UNINITIALIZED)
        || (// space for the extension cannot be allocated and it is taken back
            && |d.cells| == Capacity(m.newRows) && Capacity(m.oldRows) <= |d.cells|
            && d' == Disk(d.cells[..Capacity(m.oldRows)], d.marker))
        || (// some destinations change, to anything
            && d'.marker == d.marker && |d'.cells| == |d.cells| == Capacity(m.newRows)
            && forall p :: 0 <= p < |d.cells| && !Destination(p, m.oldRows, m.newRows) ==> d'.cells[p] == d.cells[p])
        || (// all rows are copied and flushed, the stage advances
            && d' == Disk(d.cells, Some(m.(stage := Clearing))) && AllCopied(d.cells, m.oldRows, m.newRows))
      case Clearing =>
        || (// some of the cleared range changes, to anything
            && d'.marker == d.marker && |d'.cells| == |d.cells|
            && forall p :: 0 <= p < |d.cells| && !ClearedRange(p, m.oldRows, m.newRows) ==> d'.cells[p] == d.cells[p])
        || (// the range is zero and flushed, the marker is removed
            && d' == Disk(d.cells, None)
            && forall p :: 0 <= p < |d.cells| && ClearedRange(p, m.oldRows, m.newRows) ==> d.cells[p] == UNINITIALIZED)
  }

  /** Each destination equals its source in the same file. */
  ghost predicate AllCopied(cells: seq<NodeState>, o: nat, n: nat) {
    && Heights(o, n) && |cells| == Capacity(n)
    && forall p :: 0 <= p < |cells| && Destination(p, o, n) ==> CopiedAt(cells, o, n, p)
  }

  predicate CopiedAt(cells: seq<NodeState>, o: nat, n: nat, p: nat)
    requires Destination(p, o, n) && |cells| == Capacity(n)
  {
    Position(At(p, n), o) < |cells| && cells[p] == cells[Position(At(p, n), o)]
  }

  lemma {:induction false} StepKeepsResizing(d: Disk, d': Disk, was: seq<NodeState>, o: nat, n: nat)
    requires Resizing(d, was, o, n) && Step(d, d')
    ensures Resizing(d', was, o, n)
  {
    hide At, Position, Pow2, GrownAt;
    RangesApart(0, o, n);
    LengthsApart(o, n);
    if d.marker.Some? {
      if d.marker.value.stage == Copying {
        if d'.marker != d.marker {
          StageAdvances(d.cells, was, o, n);
        } else {
          DestinationsOutside(o, n);
          if CopyingState(d.cells, was, o, n) { assert d.cells[..|was|] == was; }
        }
      } else if d'.marker == None {
        ClearedIsGrown(d.cells, was, o, n);
      }
    }
  }

  lemma {:induction false} LengthsApart(o: nat, n: nat)
    requires o < n
    ensures Capacity(o) < Capacity(n)
  {
    Pow2Monotone(o + 2, n + 1);
  }

  lemma {:induction false} DestinationsOutside(o: nat, n: nat)
    requires Heights(o, n)
    ensures forall p :: 0 <= p < Capacity(o) ==> !Destination(p, o, n)
  {
    forall p | 0 <= p < Capacity(o)
      ensures !Destination(p, o, n)
    {
      RangesApart(p, o, n);
    }
  }

  lemma {:induction false} StageAdvances(cells: seq<NodeState>, was: seq<NodeState>, o: nat, n: nat)
    requires Heights(o, n) && |was| == Capacity(o) && (cells == was || CopyingState(cells, was, o, n))
             && AllCopied(cells, o, n)
    ensures ClearingState(cells, was, o, n)
  {
    hide Pow2;
    LengthsApart(o, n);
    forall p | 0 <= p < |cells| && Destination(p, o, n)
      ensures cells[p] == GrownAt(was, o, n, p)
    {
      assert CopiedAt(cells, o, n, p);
      assert Position(At(p, n), o) < |was|;
    }
    CopiedIsClearing(cells, was, o, n);
  }

  /** Any run from the fresh marker to its removal ends with the grown file. */
  lemma {:induction false} EveryRunGrows(run: seq<Disk>, was: seq<NodeState>, o: nat, n: nat)
    requires |run| > 0 && Heights(o, n) && |was| == Capacity(o)
    requires run[0] == Disk(was, Some(Marker(o, n, Copying)))
    requires forall i :: 0 <= i < |run| - 1 ==> Step(run[i], run[i + 1])
    ensures Resizing(run[|run| - 1], was, o, n)
    ensures run[|run| - 1].marker == None ==> run[|run| - 1].cells == Grown(was, o, n)
  {
    if |run| > 1 {
      var m := |run| - 1;
      EveryRunGrows(run[..m], was, o, n);
      assert Step(run[m - 1], run[m]);
      StepKeepsResizing(run[m - 1], run[m], was, o, n);
    }
  }

  // ----- The forest file -----

  /** The length check the program makes before it resumes. */
  predicate ExpectedNodeCount(d: Disk) {
    match d.marker
    case None => true
    case Some(m) =>
      match m.stage
      case Copying => |d.cells| == Capacity(m.oldRows) || |d.cells| == Capacity(m.newRows)
      case Clearing => |d.cells| == Capacity(m.newRows)
  }

  class FlatForest {
    var cells: seq<NodeState>
    var marker: Option<Marker>

    constructor (cells: seq<NodeState>, marker: Option<Marker>)
      ensures this.cells == cells && this.marker == marker
    {
      this.cells, this.marker := cells, marker;
    }

    /** Extends the file unless that has already happened. */
    method GrowMapping(o: nat, n: nat)
      requires |cells| == Capacity(o) || |cells| == Capacity(n)
      requires Heights(o, n)
      modifies this
      ensures marker == old(marker) && |cells| == Capacity(n)
      ensures forall p :: 0 <= p < |cells| ==> cells[p] == if p < |old(cells)| then old(cells)[p] else UNINITIALIZED
    {
      LengthsApart(o, n);
      if |cells| == Capacity(o) {
        cells := cells + seq(Capacity(n) - Capacity(o), i => UNINITIALIZED);
      }
    }

    method CopyRow(row: nat, o: nat, n: nat, ghost was: seq<NodeState>)
      requires Heights(o, n) && 1 <= row <= o && CopyingState(cells, was, o, n) && RowsCopied(cells, was, o, n, 1, row)
      modifies this
      ensures marker == old(marker) && CopyingState(cells, was, o, n) && RowsCopied(cells, was, o, n, 1, row + 1)
    {
      hide At, Position, Pow2, GrownAt, CopyingState, RowsCopied, StartPositionAtRow;
      var count := Pow2(o - row);
      var source := StartPositionAtRow(row, o);
      var destination := StartPositionAtRow(row, n);
      RowNotStarted(cells, was, o, n, row);
      for i := 0 to count
        invariant marker == old(marker)
        invariant CopyingState(cells, was, o, n) && RowPartlyCopied(cells, was, o, n, row, i)
      {
        CopyOne(cells, was, o, n, row, i);
        cells := cells[destination + i := cells[source + i]];
      }
      RowDone(cells, was, o, n, row);
    }

    /** Moves every row but the bottom one; what was there before does not matter. */
    method CopyInternalRows(o: nat, n: nat, ghost was: seq<NodeState>)
      requires Heights(o, n) && CopyingState(cells, was, o, n)
      modifies this
      ensures marker == old(marker) && CopyingState(cells, was, o, n) && RowsCopied(cells, was, o, n, 1, o + 1)
    {
      for row := 1 to o + 1
        invariant marker == old(marker) && CopyingState(cells, was, o, n) && RowsCopied(cells, was, o, n, 1, row)
      {
        CopyRow(row, o, n, was);
      }
    }

    method ClearNewBottomRange(o: nat, n: nat)
      requires Heights(o, n) && |cells| == Capacity(n)
      modifies this
      ensures marker == old(marker) && |cells| == |old(cells)|
      ensures forall p :: 0 <= p < |cells| ==>
                cells[p] == if ClearedRange(p, o, n) then UNINITIALIZED else old(cells)[p]
    {
      Pow2Monotone(o, n);
      assert Pow2(n) <= |cells|;
      for i := Pow2(o) to Pow2(n)
        invariant marker == old(marker) && |cells| == |old(cells)|
        invariant forall p :: 0 <= p < |cells| ==> cells[p] == if Pow2(o) <= p < i then UNINITIALIZED else old(cells)[p]
      {
        cells := cells[i := UNINITIALIZED];
      }
    }

    /** From any interruption, the resize completes. */
    method ResumeResize(ghost was: seq<NodeState>) returns (ghost trace: seq<Disk>)
      requires marker.Some? && Resizing(Disk(cells, marker), was, marker.value.oldRows, marker.value.newRows)
      modifies this
      ensures ExpectedNodeCount(Disk(old(cells), old(marker))) && marker == None
      ensures cells == Grown(was, old(marker).value.oldRows, old(marker).value.newRows)
      ensures IsTrace(trace) && trace[0] == Disk(old(cells), old(marker)) && trace[|trace| - 1] == Disk(cells, marker)
    {
      hide At, Position, Pow2, GrownAt, Destination, ClearedRange, Step;
      trace := [Disk(cells, marker)];
      var m := marker.value;
      var o, n := m.oldRows, m.newRows;
      LengthsApart(o, n);
      if m.stage == Copying {
        ghost var found := cells;
        GrowMapping(o, n);
        GrowingSteps(found, cells, was, m);
        trace := trace + [Disk(cells, marker)];
        ghost var extended := cells;
        CopyInternalRows(o, n, was);
        CopyingSteps(extended, cells, was, m);
        trace := trace + [Disk(cells, marker)];
        CopiedIsClearing(cells, was, o, n);
        StageSteps(cells, was, m);
        marker := Some(m.(stage := Clearing));
        trace := trace + [Disk(cells, marker)];
      }
      ghost var copied := cells;
      ClearNewBottomRange(o, n);
      ClearingSteps(copied, cells, marker.value);
      trace := trace + [Disk(cells, marker)];
      ClearedIsGrown(cells, was, o, n);
      marker := None;
      trace := trace + [Disk(cells, marker)];
    }

    /** Grows the file, first finishing whatever was left behind by an earlier resize. */
    method ResizeToRows(newRows: nat, ghost was: seq<NodeState>, ghost from: nat)
      requires newRows <= MAX_ROWS && Left(Disk(cells, marker), was, from)
      modifies this
      ensures marker == None
      ensures cells == Grown(was, from, Taller(LeftRows(old(marker), from), newRows))
    {
      hide Resizing, Grown, Capacity;
      GrownSame(was, from);
      LeftTaller(Disk(cells, marker), was, from);
      if marker.Some? {
        ghost var trace := ResumeResize(was);
      }
      ghost var middle := LeftRows(old(marker), from);
      GrownSize(was, from, middle);
      NodeCountRows(|cells|, middle);
      var rows := RowsFromNodeCount(|cells|).value;
      if newRows <= rows {
        return;
      }
      ghost var before := cells;
      marker := Some(Marker(rows, newRows, Copying));
      Unresized(before, rows, newRows);
      ghost var trace := ResumeResize(before);
      GrownTwice(was, from, rows, newRows);
    }
  }

  /** The program's count of rows: one more than the nodes must be a power of two, at least two. */
  function RowsFromNodeCount(count: nat): Option<nat> {
    var bits := TreeRows(count + 1);
    if count + 1 < 2 || Pow2(bits) != count + 1 || bits == 0 then None else Some(bits - 1)
  }

  /** Exactly the complete layouts have a height. */
  lemma {:induction false} NodeCountRows(count: nat, rows: nat)
    ensures RowsFromNodeCount(count) == Some(rows) <==> count == Capacity(rows)
  {
    hide Pow2, TreeRows;
    TreeRowsLeast(count + 1);
    if count == Capacity(rows) {
      if TreeRows(count + 1) > rows + 1 { assert false; }
      if TreeRows(count + 1) < rows + 1 {
        Pow2Increases(TreeRows(count + 1), rows + 1);
        assert false;
      }
      Pow2Increases(0, rows + 1);
    }
  }

  lemma {:induction false} Pow2Increases(a: nat, b: nat)
    requires a < b
    ensures Pow2(a) < Pow2(b) && Pow2(b) >= 2
  {
    Pow2Monotone(a + 1, b);
    Pow2Monotone(1, b);
  }

  function Taller(a: nat, b: nat): nat { if a < b then b else a }

  /** The height an earlier resize, if there is one to finish, leads to. */
  function LeftRows(marker: Option<Marker>, from: nat): nat {
    match marker case None => from case Some(m) => m.newRows
  }

  /** A file of `from` rows, or a resize of it that stopped anywhere. */
  ghost predicate Left(d: Disk, was: seq<NodeState>, from: nat) {
    && |was| == Capacity(from) && from <= MAX_ROWS
    && match d.marker
       case None => d.cells == was
       case Some(m) => m.oldRows == from && Resizing(d, was, from, m.newRows)
  }

  lemma {:induction false} LeftTaller(d: Disk, was: seq<NodeState>, from: nat)
    requires Left(d, was, from)
    ensures from <= LeftRows(d.marker, from) <= MAX_ROWS
  {
  }

  lemma {:induction false} GrownSize(was: seq<NodeState>, o: nat, n: nat)
    requires |was| == Capacity(o)
    ensures |Grown(was, o, n)| == Capacity(n)
  {
  }

  lemma {:induction false} GrownSame(was: seq<NodeState>, o: nat)
    requires |was| == Capacity(o)
    ensures Grown(was, o, o) == was
  {
    hide At, Position, Pow2;
    forall p | 0 <= p < |was|
      ensures Grown(was, o, o)[p] == was[p]
    {
      PositionAt(p, o);
    }
  }

  /** Growing twice is growing once. */
  lemma {:induction false} GrownTwice(was: seq<NodeState>, o: nat, m: nat, n: nat)
    requires |was| == Capacity(o) && o <= m <= n
    ensures Grown(Grown(was, o, m), m, n) == Grown(was, o, n)
  {
    hide At, Position, Pow2;
    forall p | 0 <= p < Capacity(n)
      ensures Grown(Grown(was, o, m), m, n)[p] == Grown(was, o, n)[p]
    {
      var c := At(p, n);
      if InLayout(c, o) { Pow2Monotone(o - c.row, m - c.row); }
      if InLayout(c, m) { assert At(Position(c, m), m) == c; }
    }
  }

  lemma {:induction false} Unresized(was: seq<NodeState>, o: nat, n: nat)
    requires Heights(o, n) && |was| == Capacity(o)
    ensures Resizing(Disk(was, Some(Marker(o, n, Copying))), was, o, n)
  {
  }

  /** Durable states, one step after the other. */
  ghost predicate IsTrace(trace: seq<Disk>) {
    |trace| > 0 && forall i :: 0 <= i < |trace| - 1 ==> Step(trace[i], trace[i + 1])
  }

  lemma {:induction false} GrowingSteps(cells: seq<NodeState>, cells': seq<NodeState>, was: seq<NodeState>, m: Marker)
    requires m.stage == Copying && Heights(m.oldRows, m.newRows) && |was| == Capacity(m.oldRows)
    requires cells == was || CopyingState(cells, was, m.oldRows, m.newRows)
    requires |cells'| == Capacity(m.newRows) && |cells| <= |cells'|
    requires forall p :: 0 <= p < |cells'| ==> cells'[p] == if p < |cells| then cells[p] else UNINITIALIZED
    ensures Step(Disk(cells, Some(m)), Disk(cells', Some(m))) && CopyingState(cells', was, m.oldRows, m.newRows)
  {
    hide At, Pow2;
    LengthsApart(m.oldRows, m.newRows);
  }

  lemma {:induction false} CopyingSteps(cells: seq<NodeState>, cells': seq<NodeState>, was: seq<NodeState>, m: Marker)
    requires m.stage == Copying && CopyingState(cells, was, m.oldRows, m.newRows)
             && CopyingState(cells', was, m.oldRows, m.newRows)
    ensures Step(Disk(cells, Some(m)), Disk(cells', Some(m)))
  {
    hide Destination;
    forall p | 0 <= p < |cells| && !Destination(p, m.oldRows, m.newRows)
      ensures cells'[p] == cells[p]
    {
      if p < |was| { assert cells[p] == was[p] && cells'[p] == was[p]; }
    }
  }

  /** Once every row is copied the stage may advance. */
  lemma {:induction false} StageSteps(cells: seq<NodeState>, was: seq<NodeState>, m: Marker)
    requires m.stage == Copying && Heights(m.oldRows, m.newRows) && CopyingState(cells, was, m.oldRows, m.newRows)
    requires RowsCopied(cells, was, m.oldRows, m.newRows, 1, m.oldRows + 1)
    ensures Step(Disk(cells, Some(m)), Disk(cells, Some(m.(stage := Clearing))))
  {
    hide Position, Pow2;
    var o, n := m.oldRows, m.newRows;
    forall p | 0 <= p < |cells| && Destination(p, o, n)
      ensures CopiedAt(cells, o, n, p)
    {
      assert cells[p] == GrownAt(was, o, n, p);
    }
  }

  /** Clearing the exposed range, and then taking the marker away, are steps. */
  lemma {:induction false} ClearingSteps(cells: seq<NodeState>, cells': seq<NodeState>, m: Marker)
    requires m.stage == Clearing && |cells'| == |cells|
    requires forall p :: 0 <= p < |cells| ==>
               cells'[p] == if ClearedRange(p, m.oldRows, m.newRows) then UNINITIALIZED else cells[p]
    ensures Step(Disk(cells, Some(m)), Disk(cells', Some(m))) && Step(Disk(cells', Some(m)), Disk(cells', None))
  {
    hide ClearedRange;
  }

  predicate RowPartlyCopied(cells: seq<NodeState>, was: seq<NodeState>, o: nat, n: nat, row: nat, count: nat)
  {
    && |was| == Capacity(o) && |cells| == Capacity(n)
    && forall p :: 0 <= p < |cells| && Destination(p, o, n) && 1 <= At(p, n).row <= row
         && (At(p, n).row == row ==> At(p, n).off < count)
         ==> cells[p] == GrownAt(was, o, n, p)
  }

  lemma {:induction false} RowNotStarted(cells: seq<NodeState>, was: seq<NodeState>, o: nat, n: nat, row: nat)
    requires CopyingState(cells, was, o, n) && RowsCopied(cells, was, o, n, 1, row)
    ensures RowPartlyCopied(cells, was, o, n, row, 0)
  {
    hide At, Position, Pow2, GrownAt;
  }

  lemma {:induction false} RowDone(cells: seq<NodeState>, was: seq<NodeState>, o: nat, n: nat, row: nat)
    requires 1 <= row <= o && RowPartlyCopied(cells, was, o, n, row, Pow2(o - row))
    ensures RowsCopied(cells, was, o, n, 1, row + 1)
  {
    hide At, Position, Pow2, GrownAt;
  }

  lemma {:induction false} CopyOne(cells: seq<NodeState>, was: seq<NodeState>, o: nat, n: nat, row: nat, i: nat)
    requires Heights(o, n) && 1 <= row <= o && i < Pow2(o - row)
    requires CopyingState(cells, was, o, n) && RowPartlyCopied(cells, was, o, n, row, i)
    ensures StartPositionAtRow(row, n) + i < |cells| && StartPositionAtRow(row, o) + i < |cells|
    ensures var cells' := cells[StartPositionAtRow(row, n) + i := cells[StartPositionAtRow(row, o) + i]];
            CopyingState(cells', was, o, n) && RowPartlyCopied(cells', was, o, n, row, i + 1)
  {
    hide At, Position, Pow2, StartPositionAtRow;
    var c := Coord(row, i);
    Pow2Monotone(o - row, n - row);
    PositionFromStart(c, o);
    PositionFromStart(c, n);
    var source, destination := Position(c, o), Position(c, n);
    assert At(destination, n) == c;
    assert Destination(destination, o, n);
    RangesApart(destination, o, n);
    var cells' := cells[destination := cells[source]];
    forall p | 0 <= p < |cells'| && Destination(p, o, n) && 1 <= At(p, n).row <= row
        && (At(p, n).row == row ==> At(p, n).off < i + 1)
      ensures cells'[p] == GrownAt(was, o, n, p)
    {
      if At(p, n) == c { PositionAt(p, n); }
    }
  }
}
