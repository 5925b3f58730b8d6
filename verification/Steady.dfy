/**
 The completed forest: file cells, leaf map and leaf count, updated in place.

 Every method is proved against the key-by-key meaning of journal entries, so one entry, a
 merged window, an undo and a whole replay are all Redo and Undo of the keys they touch, also
 when the file has grown since an entry was recorded.
 */
module Steady {
  import opened Bits
  import opened Wrappers
  import opened Coordinates
  import opened Forest
  import opened Entry
  import opened Ledger
  import opened History
  import opened Merge
  import Resize

  // ----- Writing a list of deltas -----

  /** Where a journal position lies in the current layout. */
  function JournalPosition(p: nat, from: nat, to: nat): (q: nat)
    requires from <= to <= MAX_ROWS && p < Capacity(from)
    ensures InLayout(At(p, from), to) && q == Position(At(p, from), to)
  {
    PositionAt(p, from);
    TranslateAgrees(At(p, from), from, to);
    if from == to then p else TranslatePosition(p, from, to).value
  }

  predicate DeltasIn(deltas: seq<ForestDelta>, rows: nat) {
    forall i :: 0 <= i < |deltas| ==> deltas[i].position < Capacity(rows)
  }

  /** Writing every after-state, first to last. */
  function WriteAfter(cells: seq<NodeState>, deltas: seq<ForestDelta>, from: nat, to: nat): (r: seq<NodeState>)
    requires from <= to <= MAX_ROWS && |cells| == Capacity(to) && DeltasIn(deltas, from)
    ensures |r| == |cells|
  {
    if deltas == [] then cells
    else
      var last := deltas[|deltas| - 1];
      WriteAfter(cells, deltas[..|deltas| - 1], from, to)[JournalPosition(last.position, from, to) := last.after]
  }

  /** Writing every before-state, last to first. */
  function WriteBefore(cells: seq<NodeState>, deltas: seq<ForestDelta>, from: nat, to: nat): (r: seq<NodeState>)
    requires from <= to <= MAX_ROWS && |cells| == Capacity(to) && DeltasIn(deltas, from)
    ensures |r| == |cells|
  {
    if deltas == [] then cells
    else WriteBefore(cells, deltas[1..], from, to)[JournalPosition(deltas[0].position, from, to) := deltas[0].before]
  }

  function OrElse(o: Option<NodeState>, s: NodeState): NodeState {
    match o case Some(v) => v case None => s
  }

  lemma {:induction false} WriteAfterAt(cells: seq<NodeState>, deltas: seq<ForestDelta>, from: nat, to: nat, c: Coord)
    requires from <= to <= MAX_ROWS && |cells| == Capacity(to) && DeltasIn(deltas, from) && InLayout(c, to)
    ensures WriteAfter(cells, deltas, from, to)[Position(c, to)]
            == OrElse(if InLayout(c, from) then LastAfter(deltas, Position(c, from)) else None, cells[Position(c, to)])
  {
    hide At, Position, Pow2;
    if deltas != [] {
      var n := |deltas| - 1;
      WriteAfterAt(cells, deltas[..n], from, to, c);
      SamePlace(deltas[n].position, from, to, c);
    }
  }

  lemma {:induction false} WriteBeforeAt(cells: seq<NodeState>, deltas: seq<ForestDelta>, from: nat, to: nat, c: Coord)
    requires from <= to <= MAX_ROWS && |cells| == Capacity(to) && DeltasIn(deltas, from) && InLayout(c, to)
    ensures WriteBefore(cells, deltas, from, to)[Position(c, to)]
            == OrElse(if InLayout(c, from) then FirstBefore(deltas, Position(c, from))
                else None, cells[Position(c, to)])
  {
    hide At, Position, Pow2;
    if deltas != [] {
      WriteBeforeAt(cells, deltas[1..], from, to, c);
      SamePlace(deltas[0].position, from, to, c);
    }
  }

  /** A journal position lands on a coordinate exactly when it was that coordinate. */
  lemma {:induction false} SamePlace(p: nat, from: nat, to: nat, c: Coord)
    requires from <= to <= MAX_ROWS && p < Capacity(from) && InLayout(c, to)
    ensures JournalPosition(p, from, to) == Position(c, to) <==> InLayout(c, from) && p == Position(c, from)
  {
    hide Pow2;
    PositionAt(p, from);
    assert At(JournalPosition(p, from, to), to) == At(p, from);
    assert At(Position(c, to), to) == c;
    if InLayout(c, from) { assert At(Position(c, from), from) == c; }
  }

  // ----- The leaf map -----

  function Lookup(m: map<OutPoint, nat>, o: OutPoint): Option<nat> {
    if o in m then Some(m[o]) else None
  }

  predicate Mentions(deltas: seq<IndexDelta>, o: OutPoint) {
    exists i :: 0 <= i < |deltas| && deltas[i].outpoint == o
  }

  /** What removing one list and inserting another leaves for an outpoint. */
  function IndexAfter(was: Option<nat>, removed: seq<IndexDelta>, inserted: seq<IndexDelta>, o: OutPoint): Option<nat> {
    if Mentions(inserted, o) then LastPosition(inserted, o)
    else if Mentions(removed, o) then None
    else was
  }

  method ApplyLeafMapDelta(m: map<OutPoint, nat>, removed: seq<IndexDelta>, inserted: seq<IndexDelta>)
    returns (r: map<OutPoint, nat>)
    ensures forall o :: Lookup(r, o) == IndexAfter(Lookup(m, o), removed, inserted, o)
  {
    r := m;
    var keys := removed + inserted;
    for i := 0 to |keys|
      invariant forall o :: Lookup(r, o) == if Mentions(keys[..i], o) then None else Lookup(m, o)
    {
      MentionsMore(keys, i);
      var next := r - {keys[i].outpoint};
      forall o
        ensures Lookup(next, o) == if keys[i].outpoint == o then None else Lookup(r, o)
      {
      }
      r := next;
    }
    assert keys[..|keys|] == keys;
    forall o
      ensures Mentions(keys, o) <==> Mentions(removed, o) || Mentions(inserted, o)
    {
      MentionsConcat(removed, inserted, o);
    }
    for i := 0 to |inserted|
      invariant forall o :: Lookup(r, o) == if Mentions(inserted[..i], o) then LastPosition(inserted[..i], o)
                                            else if Mentions(removed, o)
                                                || Mentions(inserted, o) then None else Lookup(m, o)
    {
      MentionsMore(inserted, i);
      assert inserted[..i + 1][..i] == inserted[..i];
      r := r[inserted[i].outpoint := inserted[i].position];
    }
    assert inserted[..|inserted|] == inserted;
  }

  lemma {:induction false} MentionsMore(deltas: seq<IndexDelta>, i: nat)
    requires i < |deltas|
    ensures forall o :: Mentions(deltas[..i + 1], o) <==> Mentions(deltas[..i], o) || deltas[i].outpoint == o
  {
    forall o
      ensures Mentions(deltas[..i + 1], o) <==> Mentions(deltas[..i], o) || deltas[i].outpoint == o
    {
      var s, t := deltas[..i], deltas[..i + 1];
      if Mentions(t, o) {
        var j :| 0 <= j < |t| && t[j].outpoint == o;
        if j < i { assert s[j].outpoint == o; }
      }
      if Mentions(s, o) {
        var j :| 0 <= j < |s| && s[j].outpoint == o;
        assert t[j].outpoint == o;
      }
      assert t[i] == deltas[i];
    }
  }

  lemma {:induction false} MentionsConcat(a: seq<IndexDelta>, b: seq<IndexDelta>, o: OutPoint)
    ensures Mentions(a + b, o) <==> Mentions(a, o) || Mentions(b, o)
  {
    var s := a + b;
    if Mentions(s, o) {
      var i :| 0 <= i < |s| && s[i].outpoint == o;
      if i < |a| { assert a[i].outpoint == o; } else { assert b[i - |a|].outpoint == o; }
    }
    if i :| 0 <= i < |a| && a[i].outpoint == o { assert s[i].outpoint == o; }
    if i :| 0 <= i < |b| && b[i].outpoint == o { assert s[i + |a|].outpoint == o; }
  }

  // ----- One entry -----

  lemma {:induction false} ForwardMeansRedo(s: ForestState, s': ForestState, e: JournalEntry)
    requires s.Valid() && s'.Valid() && WellFormed(e) && e.forestRows.value <= s.rows == s'.rows
    requires s'.cells == WriteAfter(s.cells, e.forest, e.forestRows.value, s.rows)
    requires forall o :: Lookup(s'.leafMap, o) == IndexAfter(Lookup(s.leafMap, o), e.removed, e.added, o)
    requires s'.leaves == e.numLeaves
    ensures forall k :: s'.Read(k) == Redo(s.Read(k), TouchOf(e, k))
  {
    hide At, Position, Pow2, WriteAfter, LastAfter, FirstBefore, LastPosition;
    forall k
      ensures s'.Read(k) == Redo(s.Read(k), TouchOf(e, k))
    {
      match k
      case CellAt(c) =>
        if InLayout(c, s.rows) {
          WriteAfterAt(s.cells, e.forest, e.forestRows.value, s.rows, c);
        }
        TallerLayout(c, e.forestRows.value, s.rows);
        if InLayout(c, e.forestRows.value) {
          TouchedBothWays(e.forest, Position(c, e.forestRows.value));
        }
      case LeafOf(o) =>
        assert s.Read(k) == PositionVal(Lookup(s.leafMap, o)) && s'.Read(k) == PositionVal(Lookup(s'.leafMap, o));
        LastPositionExists(e.removed, o);
        LastPositionExists(e.added, o);
      case LeafCount =>
    }
  }

  lemma {:induction false} TallerLayout(c: Coord, from: nat, to: nat)
    requires from <= to
    ensures InLayout(c, from) ==> InLayout(c, to)
  {
    if InLayout(c, from) { Pow2Monotone(from - c.row, to - c.row); }
  }

  lemma {:induction false} BackwardMeansUndo(s: ForestState, s': ForestState, e: JournalEntry)
    requires s.Valid() && s'.Valid() && WellFormed(e) && e.forestRows.value <= s.rows == s'.rows
    requires s'.cells == WriteBefore(s.cells, e.forest, e.forestRows.value, s.rows)
    requires forall o :: Lookup(s'.leafMap, o) == IndexAfter(Lookup(s.leafMap, o), e.added, e.removed, o)
    requires s'.leaves == e.numLeaves - |e.added|
    ensures forall k :: s'.Read(k) == Undo(s.Read(k), TouchOf(e, k))
  {
    hide At, Position, Pow2, WriteBefore, LastAfter, FirstBefore, LastPosition;
    forall k
      ensures s'.Read(k) == Undo(s.Read(k), TouchOf(e, k))
    {
      match k
      case CellAt(c) =>
        if InLayout(c, s.rows) {
          WriteBeforeAt(s.cells, e.forest, e.forestRows.value, s.rows, c);
        }
        TallerLayout(c, e.forestRows.value, s.rows);
        if InLayout(c, e.forestRows.value) {
          TouchedBothWays(e.forest, Position(c, e.forestRows.value));
        }
      case LeafOf(o) =>
        assert s.Read(k) == PositionVal(Lookup(s.leafMap, o)) && s'.Read(k) == PositionVal(Lookup(s'.leafMap, o));
        LastPositionExists(e.removed, o);
        LastPositionExists(e.added, o);
      case LeafCount =>
    }
  }

  // ----- A merged window -----

  function RedoEntries(v: Val, entries: seq<JournalEntry>, k: Key): Val
    requires forall i :: 0 <= i < |entries| ==> WellFormed(entries[i])
  {
    if entries == [] then v
    else Redo(RedoEntries(v, entries[..|entries| - 1], k), TouchOf(entries[|entries| - 1], k))
  }

  function WindowOf(entries: seq<JournalEntry>): (w: seq<seq<ForestDelta>>)
    ensures |w| == |entries|
  {
    seq(|entries|, i requires 0 <= i < |entries| => entries[i].forest)
  }

  /** The last delta of the window at a position is what redoing the entries in order leaves there. */
  lemma {:induction false} WindowMeansRedo(entries: seq<JournalEntry>, rows: nat, c: Coord, s: NodeState)
    requires forall i :: 0 <= i < |entries| ==> WellFormed(entries[i]) && entries[i].forestRows.value == rows
    requires InLayout(c, rows)
    ensures RedoEntries(CellVal(s), entries, CellAt(c))
            == CellVal(OrElse(LastInWindow(WindowOf(entries), Position(c, rows)), s))
  {
    hide At, Position, Pow2, LastAfter, FirstBefore;
    if entries != [] {
      var n := |entries| - 1;
      WindowMeansRedo(entries[..n], rows, c, s);
      assert WindowOf(entries)[..n] == WindowOf(entries[..n]);
      TouchedBothWays(entries[n].forest, Position(c, rows));
    }
  }

  function WriteAll(cells: seq<NodeState>, writes: seq<Write>): (r: seq<NodeState>)
    requires forall i :: 0 <= i < |writes| ==> writes[i].position < |cells|
    ensures |r| == |cells|
  {
    if writes == [] then cells
    else WriteAll(cells, writes[..|writes| - 1])[writes[|writes| - 1].position := writes[|writes| - 1].state]
  }

  lemma {:induction false} WriteAllHit(cells: seq<NodeState>, writes: seq<Write>, i: nat)
    requires (forall i :: 0 <= i < |writes| ==> writes[i].position < |cells|) && AscendingWrites(writes) && i < |writes|
    ensures WriteAll(cells, writes)[writes[i].position] == writes[i].state
  {
    var n := |writes| - 1;
    if i < n { WriteAllHit(cells, writes[..n], i); }
  }

  lemma {:induction false} WriteAllMiss(cells: seq<NodeState>, writes: seq<Write>, p: nat)
    requires (forall i :: 0 <= i < |writes| ==> writes[i].position < |cells| && writes[i].position != p) && p < |cells|
    ensures WriteAll(cells, writes)[p] == cells[p]
  {
    if writes != [] { WriteAllMiss(cells, writes[..|writes| - 1], p); }
  }

  lemma {:induction false} BatchCell(cells: seq<NodeState>, writes: seq<Write>, entries: seq<JournalEntry>, rows: nat,
                                     c: Coord)
    requires |cells| == Capacity(rows) && InLayout(c, rows)
    requires forall i :: 0 <= i < |entries| ==> WellFormed(entries[i]) && entries[i].forestRows.value == rows
    requires forall i :: 0 <= i < |writes| ==> writes[i].position < |cells|
    requires AscendingWrites(writes)
             && forall p, s :: Write(p, s) in writes <==> LastInWindow(WindowOf(entries), p) == Some(s)
    ensures CellVal(WriteAll(cells, writes)[Position(c, rows)])
            == RedoEntries(CellVal(cells[Position(c, rows)]), entries, CellAt(c))
  {
    hide At, Position, Pow2, LastInWindow, WriteAll, RedoEntries;
    var p := Position(c, rows);
    WindowMeansRedo(entries, rows, c, cells[p]);
    match LastInWindow(WindowOf(entries), p)
    case Some(s) =>
      assert Write(p, s) in writes;
      var i :| 0 <= i < |writes| && writes[i] == Write(p, s);
      WriteAllHit(cells, writes, i);
    case None =>
      forall i | 0 <= i < |writes|
        ensures writes[i].position != p
      {
        assert Write(writes[i].position, writes[i].state) in writes;
      }
      WriteAllMiss(cells, writes, p);
  }

  lemma {:induction false} InWindowInFile(entries: seq<JournalEntry>, rows: nat, p: nat)
    requires forall i :: 0 <= i < |entries| ==> WellFormed(entries[i]) && entries[i].forestRows.value == rows
    requires LastInWindow(WindowOf(entries), p).Some?
    ensures p < Capacity(rows)
  {
    var n := |entries| - 1;
    TouchedBothWays(entries[n].forest, p);
    if LastAfter(entries[n].forest, p).None? {
      assert WindowOf(entries)[..n] == WindowOf(entries[..n]);
      InWindowInFile(entries[..n], rows, p);
    }
  }

  predicate EntryForestSorted(e: JournalEntry) {
    SortedDeltas(e.forest)
  }

  method MergedEntries(entries: seq<JournalEntry>, rows: nat) returns (writes: seq<Write>)
    requires forall i :: 0 <= i < |entries| ==>
               WellFormed(entries[i]) && EntryForestSorted(entries[i]) && entries[i].forestRows.value == rows
    ensures AscendingWrites(writes)
    ensures forall i :: 0 <= i < |writes| ==> writes[i].position < Capacity(rows)
    ensures forall p, s :: Write(p, s) in writes <==> LastInWindow(WindowOf(entries), p) == Some(s)
  {
    hide Pow2, LastInWindow;
    var window := WindowOf(entries);
    forall b | 0 <= b < |window|
      ensures SortedDeltas(window[b])
    {
      assert EntryForestSorted(entries[b]);
    }
    writes := MergedForestWrites(window);
    forall i | 0 <= i < |writes|
      ensures writes[i].position < Capacity(rows)
    {
      assert Write(writes[i].position, writes[i].state) in writes;
      InWindowInFile(entries, rows, writes[i].position);
    }
  }

  /** The leaf-map changes and counts of a window, block by block. */
  method ApplyIndexDeltas(ghost s: ForestState, leafMap: map<OutPoint, nat>, leaves: nat, entries: seq<JournalEntry>)
    returns (m: map<OutPoint, nat>, n: nat)
    requires s.Valid() && leafMap == s.leafMap && leaves == s.leaves
    requires forall i :: 0 <= i < |entries| ==> WellFormed(entries[i])
    ensures forall o :: PositionVal(Lookup(m, o)) == RedoEntries(s.Read(LeafOf(o)), entries, LeafOf(o))
    ensures CountVal(n) == RedoEntries(s.Read(LeafCount), entries, LeafCount)
  {
    m, n := leafMap, leaves;
    for i := 0 to |entries|
      invariant forall o :: PositionVal(Lookup(m, o)) == RedoEntries(s.Read(LeafOf(o)), entries[..i], LeafOf(o))
      invariant CountVal(n) == RedoEntries(s.Read(LeafCount), entries[..i], LeafCount)
    {
      var e := entries[i];
      assert entries[..i + 1][..i] == entries[..i];
      var next := ApplyLeafMapDelta(m, e.removed, e.added);
      forall o
        ensures PositionVal(Lookup(next, o)) == RedoEntries(s.Read(LeafOf(o)), entries[..i + 1], LeafOf(o))
      {
        IndexMeansRedo(Lookup(m, o), e, o);
      }
      m, n := next, e.numLeaves;
    }
    assert entries[..|entries|] == entries;
  }

  lemma {:induction false} IndexMeansRedo(was: Option<nat>, e: JournalEntry, o: OutPoint)
    requires WellFormed(e)
    ensures PositionVal(IndexAfter(was, e.removed, e.added, o)) == Redo(PositionVal(was), TouchOf(e, LeafOf(o)))
  {
    LastPositionExists(e.removed, o);
    LastPositionExists(e.added, o);
  }

  /** Every record fits a file of this height. */
  predicate NoneTaller(records: seq<Record>, rows: nat) {
    forall i :: 0 <= i < |records| ==> match records[i].entry.forestRows case Some(r) => r <= rows case None => true
  }

  datatype ApplyError = TallerThanFile | MixedLayouts | TooManyLeaves

  // ----- The forest object -----

  class SteadyStateForest {
    var rows: nat
    var cells: seq<NodeState>
    var leafMap: map<OutPoint, nat>
    var leaves: nat

    function State(): ForestState
      reads this
    {
      ForestState(rows, cells, leafMap, leaves)
    }

    predicate Valid()
      reads this
    {
      State().Valid()
    }

    constructor (rows: nat, cells: seq<NodeState>, leafMap: map<OutPoint, nat>, leaves: nat)
      ensures this.rows == rows && this.cells == cells && this.leafMap == leafMap && this.leaves == leaves
    {
      this.rows, this.cells, this.leafMap, this.leaves := rows, cells, leafMap, leaves;
    }

    method ApplyForward(e: JournalEntry) returns (r: Result<(), ApplyError>)
      requires Valid() && WellFormed(e)
      modifies this
      ensures Valid() && rows == old(rows)
      ensures r.Err? <==> e.forestRows.value > rows
      ensures r.Err? ==> State() == old(State())
      ensures r.Ok? ==> forall k :: State().Read(k) == Redo(old(State()).Read(k), TouchOf(e, k))
    {
      var from := e.forestRows.value;
      if from > rows {
        return Err(TallerThanFile);
      }
      ghost var before := State();
      for i := 0 to |e.forest|
        invariant rows == before.rows && leafMap == before.leafMap && |cells| == Capacity(rows)
        invariant cells == WriteAfter(before.cells, e.forest[..i], from, rows)
      {
        assert e.forest[..i + 1][..i] == e.forest[..i];
        cells := cells[JournalPosition(e.forest[i].position, from, rows) := e.forest[i].after];
      }
      assert e.forest[..|e.forest|] == e.forest;
      leafMap := ApplyLeafMapDelta(leafMap, e.removed, e.added);
      leaves := e.numLeaves;
      ForwardMeansRedo(before, State(), e);
      r := Ok(());
    }

    method ApplyBackward(e: JournalEntry) returns (r: Result<(), ApplyError>)
      requires Valid() && WellFormed(e)
      modifies this
      ensures Valid() && rows == old(rows)
      ensures r.Err? <==> e.forestRows.value > rows
      ensures r.Err? ==> State() == old(State())
      ensures r.Ok? ==> forall k :: State().Read(k) == Undo(old(State()).Read(k), TouchOf(e, k))
    {
      var from := e.forestRows.value;
      if from > rows {
        return Err(TallerThanFile);
      }
      ghost var before := State();
      var i := |e.forest|;
      while i > 0
        invariant 0 <= i <= |e.forest|
        invariant rows == before.rows && leafMap == before.leafMap && |cells| == Capacity(rows)
        invariant cells == WriteBefore(before.cells, e.forest[i..], from, rows)
      {
        i := i - 1;
        assert e.forest[i..][1..] == e.forest[i + 1..];
        cells := cells[JournalPosition(e.forest[i].position, from, rows) := e.forest[i].before];
      }
      assert e.forest[0..] == e.forest;
      leafMap := ApplyLeafMapDelta(leafMap, e.added, e.removed);
      leaves := e.numLeaves - |e.added|;
      BackwardMeansUndo(before, State(), e);
      r := Ok(());
    }

    /** Grows the file to the least height that holds the leaves; no reading changes. */
    method EnsureLeafCapacity(required: nat) returns (r: Result<bool, ApplyError>)
      requires Valid()
      modifies this
      ensures Valid() && leaves == old(leaves) && leafMap == old(leafMap)
      ensures r.Err? <==> required > Pow2(old(rows)) && TreeRows(required) > MAX_ROWS
      ensures r.Ok? ==> required <= Pow2(rows) && r.value == (required > Pow2(old(rows))) && rows >= old(rows)
      ensures r.Ok? && r.value ==> rows == TreeRows(required)
      ensures !(r.Ok? && r.value) ==> State() == old(State())
      ensures forall k :: State().Read(k) == old(State()).Read(k)
    {
      hide At, Position, Pow2, Resize.GrownAt;
      if required <= Pow2(rows) {
        return Ok(false);
      }
      var newRows := TreeRows(required);
      if newRows > MAX_ROWS {
        return Err(TooManyLeaves);
      }
      ghost var before := State();
      TreeRowsLeast(required);
      if newRows <= rows { Pow2Monotone(newRows, rows); }
      var file := new Resize.FlatForest(cells, None);
      file.ResizeToRows(newRows, cells, rows);
      cells, rows := file.cells, newRows;
      forall k
        ensures State().Read(k) == before.Read(k)
      {
        Resize.GrownReads(before, newRows, k);
      }
      r := Ok(true);
    }

    /** Applies a published window: each touched node written once, the leaf map block by block. */
    method ApplyForwardBatch(entries: seq<JournalEntry>) returns (r: Result<(), ApplyError>)
      requires Valid()
      requires forall i :: 0 <= i < |entries| ==> WellFormed(entries[i]) && EntryForestSorted(entries[i])
      modifies this
      ensures Valid() && rows == old(rows)
      ensures r.Err? <==> exists i :: 0 <= i < |entries| && entries[i].forestRows != Some(rows)
      ensures r.Err? ==> State() == old(State())
      ensures r.Ok? ==> forall k :: State().Read(k) == RedoEntries(old(State()).Read(k), entries, k)
    {
      for i := 0 to |entries|
        invariant forall j :: 0 <= j < i ==> entries[j].forestRows.value == rows
        invariant State() == old(State())
      {
        if entries[i].forestRows.value != rows {
          return Err(MixedLayouts);
        }
      }
      ghost var before := State();
      var writes := MergedEntries(entries, rows);
      for i := 0 to |writes|
        invariant rows == before.rows && leafMap == before.leafMap && leaves == before.leaves
                  && |cells| == Capacity(rows)
        invariant cells == WriteAll(before.cells, writes[..i])
      {
        assert writes[..i + 1][..i] == writes[..i];
        cells := cells[writes[i].position := writes[i].state];
      }
      assert writes[..|writes|] == writes;
      leafMap, leaves := ApplyIndexDeltas(before, leafMap, leaves, entries);
      BatchMeansRedo(before, State(), entries, writes);
      r := Ok(());
    }

    /** Restores the forest after an interruption, unless a clean shutdown certified it. */
    method ReplayJournal(records: seq<Record>, needsReplay: bool) returns (r: Result<bool, ApplyError>)
      requires Valid() && AllWellFormed(records)
      modifies this
      ensures Valid() && rows == old(rows)
      ensures !needsReplay ==> r == Ok(false) && State() == old(State())
      ensures needsReplay ==> (r.Ok? <==> NoneTaller(records, rows))
      ensures needsReplay && r.Ok? ==>
                r.value && forall k :: State().Read(k) == Replay(old(State()).Read(k), ForKey(records, k))
    {
      hide TouchOf, Pow2, Position, At, InLayout;
      if !needsReplay {
        return Ok(false);
      }
      ghost var before := State();
      var i := |records|;
      while i > 0
        invariant 0 <= i <= |records| && Valid() && rows == before.rows
        invariant NoneTaller(records[i..], rows)
        invariant forall k :: State().Read(k) == UndoAll(before.Read(k), ForKey(records, k)[i..])
      {
        i := i - 1;
        ghost var mid := State();
        var undone := ApplyBackward(records[i].entry);
        if undone.Err? {
          return Err(undone.error);
        }
        forall k
          ensures State().Read(k) == UndoAll(before.Read(k), ForKey(records, k)[i..])
        {
          assert ForKey(records, k)[i..][1..] == ForKey(records, k)[i + 1..];
          assert mid.Read(k) == UndoAll(before.Read(k), ForKey(records, k)[i + 1..]);
        }
      }
      ghost var base := State();
      assert records[0..] == records;
      for j := 0 to |records|
        invariant Valid() && rows == before.rows
        invariant forall k :: State().Read(k) == RedoForward(base.Read(k), ForKey(records, k)[..j])
      {
        ghost var mid := State();
        if records[j].forward {
          var redone := ApplyForward(records[j].entry);
          assert redone.Ok?;
        }
        forall k
          ensures State().Read(k) == RedoForward(base.Read(k), ForKey(records, k)[..j + 1])
        {
          assert ForKey(records, k)[..j + 1][..j] == ForKey(records, k)[..j];
          assert mid.Read(k) == RedoForward(base.Read(k), ForKey(records, k)[..j]);
        }
      }
      forall k
        ensures State().Read(k) == Replay(before.Read(k), ForKey(records, k))
      {
        assert ForKey(records, k)[0..] == ForKey(records, k);
        assert ForKey(records, k)[..|records|] == ForKey(records, k);
      }
      r := Ok(true);
    }
  }

  lemma {:induction false} BatchMeansRedo(s: ForestState, s': ForestState, entries: seq<JournalEntry>,
                                          writes: seq<Write>)
    requires s.Valid() && s'.Valid() && s.rows == s'.rows
    requires forall i :: 0 <= i < |entries| ==> WellFormed(entries[i]) && entries[i].forestRows.value == s.rows
    requires forall i :: 0 <= i < |writes| ==> writes[i].position < |s.cells|
    requires AscendingWrites(writes)
             && forall p, t :: Write(p, t) in writes <==> LastInWindow(WindowOf(entries), p) == Some(t)
    requires s'.cells == WriteAll(s.cells, writes)
    requires forall o :: PositionVal(Lookup(s'.leafMap, o)) == RedoEntries(s.Read(LeafOf(o)), entries, LeafOf(o))
    requires CountVal(s'.leaves) == RedoEntries(s.Read(LeafCount), entries, LeafCount)
    ensures forall k :: s'.Read(k) == RedoEntries(s.Read(k), entries, k)
  {
    hide At, Position, Pow2, LastInWindow, WriteAll, RedoEntries;
    forall k
      ensures s'.Read(k) == RedoEntries(s.Read(k), entries, k)
    {
      match k
      case CellAt(c) =>
        if InLayout(c, s.rows) {
          BatchCell(s.cells, writes, entries, s.rows, c);
        } else {
          OutsideUntouched(entries, s.rows, c, CellVal(UNINITIALIZED));
        }
      case LeafOf(o) =>
      case LeafCount =>
    }
  }

  lemma {:induction false} OutsideUntouched(entries: seq<JournalEntry>, rows: nat, c: Coord, v: Val)
    requires forall i :: 0 <= i < |entries| ==> WellFormed(entries[i]) && entries[i].forestRows.value == rows
    requires !InLayout(c, rows)
    ensures RedoEntries(v, entries, CellAt(c)) == v
  {
    if entries != [] { OutsideUntouched(entries[..|entries| - 1], rows, c, v); }
  }
}
