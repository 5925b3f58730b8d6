/**
 Steady state, key by key.

 The forest file, the leaf map and the leaf count together form a store whose keys are the
 coordinates of the forest (not file positions, which move when the file grows), the outpoints,
 and the count. A journal entry touches some keys, and says for each what it was and what it
 becomes. Redo, undo, overlay and recovery are all statements about one key at a time.
 */
module Ledger {
  import opened Bits
  import opened Wrappers
  import opened Coordinates
  import opened Forest
  import opened Entry

  datatype Key = CellAt(coord: Coord) | LeafOf(outpoint: OutPoint) | LeafCount

  datatype Val = CellVal(state: NodeState) | PositionVal(position: Option<nat>) | CountVal(count: nat)

  datatype ForestState = ForestState(rows: nat, cells: seq<NodeState>, leafMap: map<OutPoint, nat>, leaves: nat) {
    predicate Valid() {
      rows <= MAX_ROWS && |cells| == Capacity(rows)
    }

    function Read(k: Key): Val
      requires Valid()
    {
      match k
      case CellAt(c) => CellVal(if InLayout(c, rows) then cells[Position(c, rows)] else UNINITIALIZED)
      case LeafOf(o) => PositionVal(if o in leafMap then Some(leafMap[o]) else None)
      case LeafCount => CountVal(leaves)
    }
  }

  datatype Touch = Untouched | Touched(before: Val, after: Val)

  function Redo(v: Val, t: Touch): Val {
    match t case Untouched => v case Touched(_, after) => after
  }

  function Undo(v: Val, t: Touch): Val {
    match t case Untouched => v case Touched(before, _) => before
  }

  /** The position the last delta for an outpoint carries. */
  function LastPosition(deltas: seq<IndexDelta>, o: OutPoint): Option<nat> {
    if deltas == [] then None
    else if deltas[|deltas| - 1].outpoint == o then Some(deltas[|deltas| - 1].position)
    else LastPosition(deltas[..|deltas| - 1], o)
  }

  lemma {:induction false} LastPositionExists(deltas: seq<IndexDelta>, o: OutPoint)
    ensures LastPosition(deltas, o).Some? <==> exists i :: 0 <= i < |deltas| && deltas[i].outpoint == o
    ensures LastPosition(deltas, o).Some? ==>
              exists i :: 0 <= i < |deltas| && deltas[i] == IndexDelta(o, LastPosition(deltas, o).value)
  {
    if deltas != [] {
      var n := |deltas| - 1;
      LastPositionExists(deltas[..n], o);
      if i :| 0 <= i < |deltas| && deltas[i].outpoint == o {
        if i < n { assert deltas[..n][i].outpoint == o; }
      }
      if deltas[n].outpoint == o { assert deltas[n] == IndexDelta(o, deltas[n].position); }
    }
  }

  /** The entry names its layout, fits it, and does not add more leaves than it counts. */
  predicate WellFormed(e: JournalEntry) {
    && e.forestRows.Some? && e.forestRows.value <= MAX_ROWS
    && (forall i :: 0 <= i < |e.forest| ==> e.forest[i].position < Capacity(e.forestRows.value))
    && |e.added| <= e.numLeaves
  }

  function TouchOf(e: JournalEntry, k: Key): Touch
    requires WellFormed(e)
  {
    match k
    case CellAt(c) =>
      if !InLayout(c, e.forestRows.value) then Untouched
      else
        var p := Position(c, e.forestRows.value);
        (match (FirstBefore(e.forest, p), LastAfter(e.forest, p))
         case (Some(b), Some(a)) => Touched(CellVal(b), CellVal(a))
         case _ => Untouched)
    case LeafOf(o) =>
      var was, now := LastPosition(e.removed, o), LastPosition(e.added, o);
      if was == None && now == None then Untouched else Touched(PositionVal(was), PositionVal(now))
    case LeafCount => Touched(CountVal(e.numLeaves - |e.added|), CountVal(e.numLeaves))
  }

  /** The entry was planned for this value of the key. */
  predicate StartsAt(e: JournalEntry, k: Key, v: Val)
    requires WellFormed(e)
  {
    match TouchOf(e, k) case Untouched => true case Touched(before, _) => before == v
  }

  ghost predicate StartsFromState(e: JournalEntry, s: ForestState)
    requires WellFormed(e) && s.Valid()
  {
    forall k :: StartsAt(e, k, s.Read(k))
  }

  /** Undoing what was just redone gives the old value exactly when the entry was planned for it. */
  lemma {:induction false} UndoRedo(e: JournalEntry, k: Key, v: Val)
    requires WellFormed(e)
    ensures Undo(Redo(v, TouchOf(e, k)), TouchOf(e, k)) == v <==> StartsAt(e, k, v)
  {
  }
}
