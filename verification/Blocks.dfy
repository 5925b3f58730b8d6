/**
 One block on the steady state: planning, applying and undoing it.
 */
module Blocks {
  import opened Bits
  import opened Wrappers
  import opened Coordinates
  import opened Forest
  import opened Entry
  import opened Ledger
  import opened Planner
  import opened Steady

  /** The state holds the forest of this bottom row, and its leaf count. */
  ghost predicate Holds(s: ForestState, leaves: seq<Node>) {
    s.Valid() && IsForest(s.cells, s.rows, leaves) && s.leaves == |leaves|
  }

  lemma {:induction false} HoldsForest(s: ForestState, leaves: seq<Node>)
    requires Holds(s, leaves)
    ensures s.Valid() && IsForest(s.cells, s.rows, leaves) && s.leaves == |leaves|
  {
  }

  /** The removed outpoints were mapped where the entry says, the added ones were fresh. */
  ghost predicate IndexMatches(e: JournalEntry, leafMap: map<OutPoint, nat>) {
    && (forall o :: Mentions(e.removed, o) ==> Lookup(leafMap, o) == LastPosition(e.removed, o))
    && (forall o :: Mentions(e.added, o) && !Mentions(e.removed, o) ==> o !in leafMap)
  }

  lemma {:induction false} PlanWellFormed(e: JournalEntry, s: ForestState, leaves: seq<Node>,
                                          deletions: seq<(OutPoint, nat)>, additions: seq<(OutPoint, Hash)>)
    requires Holds(s, leaves) && PlanOf(e, s.cells, s.rows, leaves, deletions, additions)
    ensures WellFormed(e)
  {
  }

  /** Redoing a planned entry gives the forest rebuilt over the next bottom row. */
  lemma {:induction false} PlannedRedo(e: JournalEntry, s: ForestState, s': ForestState, leaves: seq<Node>,
                                       deletions: seq<(OutPoint, nat)>, additions: seq<(OutPoint, Hash)>)
    requires Holds(s, leaves) && PlanOf(e, s.cells, s.rows, leaves, deletions, additions) && WellFormed(e)
    requires s'.Valid() && s'.rows == s.rows && forall k :: s'.Read(k) == Redo(s.Read(k), TouchOf(e, k))
    ensures Holds(s', NextLeaves(leaves, deletions, additions))
    ensures s'.cells == Rebuild(NextLeaves(leaves, deletions, additions), s.rows)
    ensures forall o :: Lookup(s'.leafMap, o) == IndexAfter(Lookup(s.leafMap, o), e.removed, e.added, o)
  {
    hide At, Position, Pow2, LastAfter, FirstBefore, Value, Cell;
    forall p | 0 <= p < |s.cells|
      ensures s'.cells[p] == After(s.cells, e.forest)[p]
    {
      var c := At(p, s.rows);
      PositionAt(p, s.rows);
      assert s'.Read(CellAt(c)) == Redo(s.Read(CellAt(c)), TouchOf(e, CellAt(c)));
      TouchedBothWays(e.forest, p);
    }
    assert s'.cells == After(s.cells, e.forest);
    RebuildUnique(s'.cells, s.rows, NextLeaves(leaves, deletions, additions));
    assert s'.Read(LeafCount) == Redo(s.Read(LeafCount), TouchOf(e, LeafCount));
    forall o
      ensures Lookup(s'.leafMap, o) == IndexAfter(Lookup(s.leafMap, o), e.removed, e.added, o)
    {
      IndexMeansRedo(Lookup(s.leafMap, o), e, o);
      assert s'.Read(LeafOf(o)) == Redo(s.Read(LeafOf(o)), TouchOf(e, LeafOf(o)));
    }
  }

  /** A planned entry can be undone from its own result exactly when the leaf map agrees with it. */
  lemma {:induction false} PlannedStarts(e: JournalEntry, s: ForestState, leaves: seq<Node>,
                                         deletions: seq<(OutPoint, nat)>, additions: seq<(OutPoint, Hash)>)
    requires Holds(s, leaves) && PlanOf(e, s.cells, s.rows, leaves, deletions, additions) && WellFormed(e)
    ensures StartsFromState(e, s) <==> IndexMatches(e, s.leafMap)
  {
    hide At, Position, Pow2, LastAfter, FirstBefore, LastPosition;
    forall c
      ensures StartsAt(e, CellAt(c), s.Read(CellAt(c)))
    {
      if InLayout(c, s.rows) { DeltaStarts(e, s.cells, Position(c, s.rows)); }
    }
    forall o
      ensures StartsAt(e, LeafOf(o), s.Read(LeafOf(o))) <==>
                && (Mentions(e.removed, o) ==> Lookup(s.leafMap, o) == LastPosition(e.removed, o))
                && (Mentions(e.added, o) && !Mentions(e.removed, o) ==> o !in s.leafMap)
    {
      LastPositionExists(e.removed, o);
      LastPositionExists(e.added, o);
    }
    assert StartsAt(e, LeafCount, s.Read(LeafCount));
    if IndexMatches(e, s.leafMap) {
      forall k
        ensures StartsAt(e, k, s.Read(k))
      {
        match k
        case CellAt(c) =>
        case LeafOf(o) =>
        case LeafCount =>
      }
    }
    if StartsFromState(e, s) {
      forall o
        ensures Mentions(e.removed, o) ==> Lookup(s.leafMap, o) == LastPosition(e.removed, o)
        ensures Mentions(e.added, o) && !Mentions(e.removed, o) ==> o !in s.leafMap
      {
        assert StartsAt(e, LeafOf(o), s.Read(LeafOf(o)));
      }
    }
  }

  lemma {:induction false} DeltaStarts(e: JournalEntry, cells: seq<NodeState>, p: nat)
    requires AscendingDeltas(e.forest) && StartsFrom(cells, e.forest) && p < |cells|
    ensures FirstBefore(e.forest, p).None? || FirstBefore(e.forest, p) == Some(cells[p])
  {
    TouchedBothWays(e.forest, p);
    if FirstBefore(e.forest, p).Some? {
      var i :| 0 <= i < |e.forest| && e.forest[i].position == p;
      FirstBeforeAt(e.forest, i);
    }
  }

  /** Applying a planned entry and undoing it is the identity exactly when the leaf map agreed with it. */
  lemma {:induction false} ApplyThenUndo(e: JournalEntry, s: ForestState, s': ForestState, s'': ForestState,
                                         leaves: seq<Node>,
                      deletions: seq<(OutPoint, nat)>, additions: seq<(OutPoint, Hash)>)
    requires Holds(s, leaves) && PlanOf(e, s.cells, s.rows, leaves, deletions, additions) && WellFormed(e)
    requires s'.Valid() && s'.rows == s.rows && forall k :: s'.Read(k) == Redo(s.Read(k), TouchOf(e, k))
    requires s''.Valid() && s''.rows == s.rows && forall k :: s''.Read(k) == Undo(s'.Read(k), TouchOf(e, k))
    ensures s'' == s <==> IndexMatches(e, s.leafMap)
  {
    PlannedStarts(e, s, leaves, deletions, additions);
    forall k
      ensures s''.Read(k) == s.Read(k) <==> StartsAt(e, k, s.Read(k))
    {
      UndoRedo(e, k, s.Read(k));
    }
    SameReads(s, s'');
  }

  /** Two states of the same height with the same reads are equal. */
  lemma {:induction false} SameReads(s: ForestState, t: ForestState)
    requires s.Valid() && t.Valid() && s.rows == t.rows
    ensures s == t <==> forall k :: s.Read(k) == t.Read(k)
  {
    hide At, Position, Pow2;
    if forall k :: s.Read(k) == t.Read(k) {
      forall p | 0 <= p < |s.cells|
        ensures s.cells[p] == t.cells[p]
      {
        PositionAt(p, s.rows);
        assert s.Read(CellAt(At(p, s.rows))) == t.Read(CellAt(At(p, s.rows)));
      }
      assert s.cells == t.cells;
      forall o
        ensures o in s.leafMap <==> o in t.leafMap
        ensures o in s.leafMap ==> s.leafMap[o] == t.leafMap[o]
      {
        assert s.Read(LeafOf(o)) == t.Read(LeafOf(o));
      }
      assert s.leafMap == t.leafMap;
      assert s.Read(LeafCount) == t.Read(LeafCount);
    }
  }

  // ----- The leaf count after a restart -----

  /** Exactly the first `n` cells of the bottom row are ready. */
  predicate ReadyPrefix(cells: seq<NodeState>, rows: nat, n: nat) {
    && n <= Pow2(rows) <= |cells|
    && forall i :: 0 <= i < Pow2(rows) ==> cells[i].ready == (i < n)
  }

  /** The startup binary search over the bottom row. */
  method RecoverLeafCount(cells: seq<NodeState>, rows: nat) returns (count: nat)
    requires |cells| == Capacity(rows)
    ensures forall n :: ReadyPrefix(cells, rows, n) ==> count == n
  {
    var first, end := 0, Pow2(rows);
    while first < end
      invariant 0 <= first <= end <= Pow2(rows)
      invariant first > 0 ==> cells[first - 1].ready
      invariant end < Pow2(rows) ==> !cells[end].ready
    {
      var middle := first + (end - first) / 2;
      if cells[middle].ready {
        first := middle + 1;
      } else {
        end := middle;
      }
    }
    count := first;
  }

  /** In a forest the ready leaves are a prefix, so the search finds the count. */
  lemma {:induction false} ReadyLeavesArePrefix(s: ForestState, leaves: seq<Node>)
    requires Holds(s, leaves)
    ensures ReadyPrefix(s.cells, s.rows, |leaves|)
  {
    forall i | 0 <= i < Pow2(s.rows)
      ensures i < |s.cells| && s.cells[i].ready == (i < |leaves|)
    {
      BottomPosition(i, s.rows);
      assert Shr(|leaves|, 0) == |leaves|;
    }
  }

  /** Opening recovers the leaf count, and refuses a forest without leaves. */
  method OpenLeafCount(s: ForestState, ghost leaves: seq<Node>) returns (count: Option<nat>)
    requires Holds(s, leaves)
    ensures count == if leaves == [] then None else Some(|leaves|)
  {
    ReadyLeavesArePrefix(s, leaves);
    var first := RecoverLeafCount(s.cells, s.rows);
    if first == 0 {
      return None;
    }
    return Some(first);
  }
}
