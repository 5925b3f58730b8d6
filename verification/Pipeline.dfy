/**
 The producer and its persistence worker.

 The producer proves blocks ahead of the durable forest and reads through the overlay. Windows
 of blocks are handed to the worker one at a time; the worker makes a window durable, the
 producer later retires it. Reorganisations discard the unpublished window or undo durable
 blocks one by one, and the file grows only when nothing is pending.
 */
module Pipeline {
  import opened Bits
  import opened Wrappers
  import opened Coordinates
  import opened Forest
  import opened Entry
  import opened Ledger
  import opened Planner
  import opened Steady
  import opened Overlay
  import opened Merge
  import Blocks

  const PUBLICATION_BLOCKS: nat := 100
  const MAX_PENDING_BLOCKS: nat := 200
  const LEAF_CACHE_BLOCKS: nat := 144
  const RETAINED_BLOCKS: nat := 144

  // ----- The chain of states -----

  /** The state after a block: what every key reads, the bottom row, and the block's hash. */
  datatype Epoch = Epoch(read: Key -> Val, leaves: seq<Node>, tip: Hash)

  ghost predicate Represents(e: Epoch) {
    && (forall c :: e.read(CellAt(c)) == CellVal(Cell(e.leaves, c)))
    && e.read(LeafCount) == CountVal(|e.leaves|)
    && Mapped(e)
  }

  /** Where a state has an outpoint. */
  function Place(e: Epoch, o: OutPoint): Option<nat> {
    match e.read(LeafOf(o)) case PositionVal(p) => p case _ => None
  }

  /** The leaf map names unspent leaves, different ones for different outpoints. */
  ghost predicate Mapped(e: Epoch) {
    && (forall o :: Place(e, o).Some? ==> Place(e, o).value < |e.leaves| && !e.leaves[Place(e, o).value].spent)
    && forall o, q :: Place(e, o).Some? && Place(e, o) == Place(e, q) ==> o == q
  }

  /** The block starts from one state and leads to the next. */
  ghost predicate Extends(before: Epoch, e: JournalEntry, after: Epoch) {
    && WellFormed(e) && EntryForestSorted(e)
    && e.previousBlockHash == before.tip && e.blockHash == after.tip
    && forall k :: StartsAt(e, k, before.read(k)) && after.read(k) == Redo(before.read(k), TouchOf(e, k))
  }

  ghost predicate Linked(epochs: seq<Epoch>, chain: seq<JournalEntry>, baseHeight: nat) {
    && |epochs| == |chain| + 1
    && (forall i :: 0 <= i < |epochs| ==> Represents(epochs[i]))
    && (forall i :: 0 <= i < |chain| ==> Extends(epochs[i], chain[i], epochs[i + 1]))
    && forall i :: 0 <= i < |chain| ==> chain[i].height == baseHeight + i + 1
  }

  lemma {:induction false} LinkedPrefix(epochs: seq<Epoch>, chain: seq<JournalEntry>, baseHeight: nat, n: nat)
    requires Linked(epochs, chain, baseHeight) && n <= |chain|
    ensures Linked(epochs[..n + 1], chain[..n], baseHeight)
  {
    hide Represents, Extends;
  }

  lemma {:induction false} LinkedSuffix(epochs: seq<Epoch>, chain: seq<JournalEntry>, baseHeight: nat, n: nat)
    requires Linked(epochs, chain, baseHeight) && n <= |chain|
    ensures Linked(epochs[n..], chain[n..], baseHeight + n)
  {
    hide Represents, Extends;
  }

  lemma {:induction false} LinkedMore(epochs: seq<Epoch>, chain: seq<JournalEntry>, baseHeight: nat, e: JournalEntry,
                                      next: Epoch)
    requires Linked(epochs, chain, baseHeight) && Represents(next) && Extends(epochs[|chain|], e, next)
    requires e.height == baseHeight + |chain| + 1
    ensures Linked(epochs + [next], chain + [e], baseHeight)
  {
    hide Represents, Extends;
    var epochs', chain' := epochs + [next], chain + [e];
    forall i | 0 <= i < |chain'|
      ensures Extends(epochs'[i], chain'[i], epochs'[i + 1])
    {
      if i < |chain| { assert Extends(epochs[i], chain[i], epochs[i + 1]); }
    }
  }

  /** Redoing a stretch of the chain leads from its first state to its last. */
  lemma {:induction false} RedoStretch(epochs: seq<Epoch>, chain: seq<JournalEntry>, baseHeight: nat, a: nat, b: nat,
                                       k: Key)
    requires Linked(epochs, chain, baseHeight) && a <= b <= |chain|
    ensures forall i :: 0 <= i < b - a ==> WellFormed(chain[a..b][i])
    ensures RedoEntries(epochs[a].read(k), chain[a..b], k) == epochs[b].read(k)
  {
    hide TouchOf, Represents;
    forall i | 0 <= i < b - a
      ensures WellFormed(chain[a..b][i])
    {
      assert Extends(epochs[a + i], chain[a + i], epochs[a + i + 1]);
    }
    if a < b {
      RedoStretch(epochs, chain, baseHeight, a, b - 1, k);
      assert chain[a..b][..b - a - 1] == chain[a..b - 1];
      assert Extends(epochs[b - 1], chain[b - 1], epochs[b]);
    }
  }

  /** What a stretch of blocks wrote last at a node is what the state after it reads there. */
  lemma {:induction false} StretchNode(epochs: seq<Epoch>, chain: seq<JournalEntry>, baseHeight: nat, rows: nat,
                                       a: nat, b: nat, c: Coord)
    requires Linked(epochs, chain, baseHeight) && a <= b <= |chain| && InLayout(c, rows)
    requires forall i :: a <= i < b ==> chain[i].forestRows == Some(rows)
    ensures epochs[b].read(CellAt(c))
            == match LastNode(chain[a..b], Position(c, rows)) case Some((_, s)) => CellVal(s) case None =>
                epochs[a].read(CellAt(c))
  {
    hide Position, Pow2, At, LastAfter, FirstBefore, Represents;
    if a < b {
      StretchNode(epochs, chain, baseHeight, rows, a, b - 1, c);
      assert chain[a..b][..b - a - 1] == chain[a..b - 1];
      assert Extends(epochs[b - 1], chain[b - 1], epochs[b]);
      TouchedBothWays(chain[b - 1].forest, Position(c, rows));
    }
  }

  /** What one block leaves for an outpoint. */
  lemma {:induction false} IndexStep(before: Epoch, e: JournalEntry, after: Epoch, o: OutPoint)
    requires Extends(before, e, after)
    ensures after.read(LeafOf(o)) == if Mentions(e.added, o) then PositionVal(LastPosition(e.added, o))
                                     else if Mentions(e.removed, o) then PositionVal(None) else before.read(LeafOf(o))
  {
    LastPositionExists(e.removed, o);
    LastPositionExists(e.added, o);
  }

  lemma {:induction false} StretchIndex(epochs: seq<Epoch>, chain: seq<JournalEntry>, baseHeight: nat, a: nat, b: nat,
                                        o: OutPoint)
    requires Linked(epochs, chain, baseHeight) && a <= b <= |chain|
    ensures epochs[b].read(LeafOf(o))
            == match LastIndex(chain[a..b], o) case Some((_, p)) => PositionVal(p) case None =>
                epochs[a].read(LeafOf(o))
  {
    hide Represents, Extends, LastPosition, Mentions, TouchOf, WellFormed;
    if a < b {
      StretchIndex(epochs, chain, baseHeight, a, b - 1, o);
      assert chain[a..b][..b - a - 1] == chain[a..b - 1];
      IndexStep(epochs[b - 1], chain[b - 1], epochs[b], o);
    }
  }

  lemma {:induction false} StretchAscends(epochs: seq<Epoch>, chain: seq<JournalEntry>, baseHeight: nat, a: nat, b: nat)
    requires Linked(epochs, chain, baseHeight) && a <= b <= |chain|
    ensures HeightsAscend(chain[a..b])
  {
    hide Represents, Extends;
  }

  // ----- Seeing the durable forest through the overlay -----

  lemma {:induction false} NothingWritten(pending: seq<JournalEntry>, n: nat, p: nat)
    requires n <= |pending| && LastNode(pending, p) == None
    ensures LastNode(pending[..n], p) == None
  {
    var m := |pending| - 1;
    if n <= m {
      NothingWritten(pending[..m], n, p);
      assert pending[..m][..n] == pending[..n];
    } else {
      assert pending[..n] == pending;
    }
  }

  lemma {:induction false} NothingIndexed(pending: seq<JournalEntry>, n: nat, o: OutPoint)
    requires n <= |pending| && LastIndex(pending, o) == None
    ensures LastIndex(pending[..n], o) == None
  {
    var m := |pending| - 1;
    if n <= m {
      NothingIndexed(pending[..m], n, o);
      assert pending[..m][..n] == pending[..n];
    } else {
      assert pending[..n] == pending;
    }
  }

  /** The latest pending write, or what a durable state part way through the pending blocks holds. */
  lemma {:induction false} SeenNode(epochs: seq<Epoch>, chain: seq<JournalEntry>, baseHeight: nat, rows: nat,
                                    first: nat, durable: nat, c: Coord)
    requires Linked(epochs, chain, baseHeight) && first <= durable <= |chain| && InLayout(c, rows)
    requires forall i :: first <= i < |chain| ==> chain[i].forestRows == Some(rows)
    ensures epochs[|chain|].read(CellAt(c))
            == match LastNode(chain[first..], Position(c, rows)) case Some((_, s)) => CellVal(s) case None =>
                epochs[durable].read(CellAt(c))
  {
    hide Position, Pow2, At, Linked, LastNode;
    assert chain[first..] == chain[first..|chain|];
    LinkedSizes(epochs, chain, baseHeight);
    StretchNode(epochs, chain, baseHeight, rows, first, |chain|, c);
    StretchNode(epochs, chain, baseHeight, rows, first, durable, c);
    if LastNode(chain[first..], Position(c, rows)) == None {
      NothingWritten(chain[first..], durable - first, Position(c, rows));
      assert chain[first..][..durable - first] == chain[first..durable];
    }
  }

  lemma {:induction false} LinkedSizes(epochs: seq<Epoch>, chain: seq<JournalEntry>, baseHeight: nat)
    requires Linked(epochs, chain, baseHeight)
    ensures |epochs| == |chain| + 1
  {
  }

  lemma {:induction false} SeenOutpoint(epochs: seq<Epoch>, chain: seq<JournalEntry>, baseHeight: nat, first: nat,
                                        durable: nat, o: OutPoint)
    requires Linked(epochs, chain, baseHeight) && first <= durable <= |chain|
    ensures epochs[|chain|].read(LeafOf(o))
            == match LastIndex(chain[first..], o) case Some((_, p)) => PositionVal(p) case None =>
                epochs[durable].read(LeafOf(o))
  {
    hide Linked, LastIndex;
    LinkedSizes(epochs, chain, baseHeight);
    assert chain[first..] == chain[first..|chain|];
    StretchIndex(epochs, chain, baseHeight, first, |chain|, o);
    StretchIndex(epochs, chain, baseHeight, first, durable, o);
    if LastIndex(chain[first..], o) == None {
      NothingIndexed(chain[first..], durable - first, o);
      assert chain[first..][..durable - first] == chain[first..durable];
    }
  }

  /** A planned block leads to the state of its next bottom row. */
  lemma {:induction false} PlannedCells(e: JournalEntry, s: ForestState, leaves: seq<Node>,
                                        deletions: seq<(OutPoint, nat)>, additions: seq<(OutPoint, Hash)>, c: Coord)
    requires Blocks.Holds(s, leaves) && PlanOf(e, s.cells, s.rows, leaves, deletions, additions) && WellFormed(e)
    ensures Redo(s.Read(CellAt(c)), TouchOf(e, CellAt(c))) == CellVal(Cell(NextLeaves(leaves, deletions, additions), c))
  {
    hide At, Position, Pow2, LastAfter, FirstBefore, Value, Shr, NextLeaves;
    var next := NextLeaves(leaves, deletions, additions);
    if InLayout(c, s.rows) {
      var p := Position(c, s.rows);
      TouchedBothWays(e.forest, p);
      assert At(p, s.rows) == c;
      assert After(s.cells, e.forest)[p] == Cell(next, c);
    } else if Ready(|next|, c) {
      ReadyInLayout(|next|, c, s.rows);
    }
  }

  /** Deletions found in the map and fresh additions make the entry match the map. */
  lemma {:induction false} FoundAndFresh(e: JournalEntry, m: map<OutPoint, nat>, deletions: seq<(OutPoint, nat)>,
                                         additions: seq<(OutPoint, Hash)>)
    requires |e.removed| == |deletions|
             && forall i :: 0 <= i < |deletions| ==> e.removed[i] == IndexDelta(deletions[i].0, deletions[i].1)
    requires |e.added| == |additions| && forall i :: 0 <= i < |additions| ==> e.added[i].outpoint == additions[i].0
    requires forall i :: 0 <= i < |deletions| ==> Lookup(m, deletions[i].0) == Some(deletions[i].1)
    requires forall i :: 0 <= i < |additions| ==>
               additions[i].0 !in m || exists j :: 0 <= j < |deletions| && deletions[j].0 == additions[i].0
    ensures Blocks.IndexMatches(e, m)
  {
    forall o | Mentions(e.removed, o)
      ensures Lookup(m, o) == LastPosition(e.removed, o)
    {
      LastPositionExists(e.removed, o);
      var i :| 0 <= i < |e.removed| && e.removed[i] == IndexDelta(o, LastPosition(e.removed, o).value);
      assert Lookup(m, deletions[i].0) == Some(deletions[i].1);
    }
    forall o | Mentions(e.added, o) && !Mentions(e.removed, o)
      ensures o !in m
    {
      var i :| 0 <= i < |e.added| && e.added[i].outpoint == o;
      assert e.added[i].outpoint == additions[i].0;
    }
  }

  /** What a block leaves at an outpoint: created last there, spent, or where it was. */
  lemma {:induction false} PlaceAfter(before: Epoch, after: Epoch, e: JournalEntry, o: OutPoint)
    requires WellFormed(e) && after.read(LeafOf(o)) == Redo(before.read(LeafOf(o)), TouchOf(e, LeafOf(o)))
    ensures Place(after, o) == if Mentions(e.added, o) then LastPosition(e.added, o)
            else if Mentions(e.removed, o) then None else Place(before, o)
  {
    LastPositionExists(e.removed, o);
    LastPositionExists(e.added, o);
  }

  /** Spending mapped leaves and appending new ones keeps the leaf map naming unspent leaves, each once. */
  lemma {:induction false} StaysMapped(before: Epoch, after: Epoch, e: JournalEntry, deletions: seq<(OutPoint, nat)>,
                                       additions: seq<(OutPoint, Hash)>)
    requires Mapped(before) && WellFormed(e) && after.leaves == NextLeaves(before.leaves, deletions, additions)
    requires forall o :: after.read(LeafOf(o)) == Redo(before.read(LeafOf(o)), TouchOf(e, LeafOf(o)))
    requires |e.removed| == |deletions| && forall i :: 0 <= i < |deletions| ==>
               e.removed[i].outpoint == deletions[i].0 && Place(before, deletions[i].0) == Some(deletions[i].1)
    requires |e.added| == |additions| && forall i :: 0 <= i < |additions| ==> e.added[i].position == |before.leaves| + i
    ensures Mapped(after)
  {
    hide TouchOf, WellFormed, LastPosition, Place;
    forall o | Place(after, o).Some?
      ensures Place(after, o).value < |after.leaves| && !after.leaves[Place(after, o).value].spent
      ensures Mentions(e.added, o) ==> Place(after, o).value >= |before.leaves| && AddedAt(e, o, Place(after, o).value)
      ensures !Mentions(e.added, o) ==> Place(after, o).value < |before.leaves| && Place(after, o) == Place(before, o)
    {
      PlaceAfter(before, after, e, o);
      if Mentions(e.added, o) {
        LastPositionExists(e.added, o);
        var i :| 0 <= i < |e.added| && e.added[i] == IndexDelta(o, LastPosition(e.added, o).value);
      } else {
        NotDeleted(before, e, deletions, o);
      }
    }
    forall o, q | Place(after, o).Some? && Place(after, o) == Place(after, q)
      ensures o == q
    {
      assert Mentions(e.added, o) <==> Mentions(e.added, q);
    }
  }

  /** The outpoint's last entry among those added. */
  ghost predicate AddedAt(e: JournalEntry, o: OutPoint, p: nat) {
    exists i :: 0 <= i < |e.added| && e.added[i] == IndexDelta(o, p)
  }

  /** An outpoint the block does not spend is not at a deleted position. */
  lemma {:induction false} NotDeleted(before: Epoch, e: JournalEntry, deletions: seq<(OutPoint, nat)>, o: OutPoint)
    requires Mapped(before) && Place(before, o).Some? && !Mentions(e.removed, o)
    requires |e.removed| == |deletions| && forall i :: 0 <= i < |deletions| ==>
               e.removed[i].outpoint == deletions[i].0 && Place(before, deletions[i].0) == Some(deletions[i].1)
    ensures Place(before, o).value !in PositionSet(deletions)
  {
    hide Place;
    forall i | 0 <= i < |deletions|
      ensures deletions[i].1 != Place(before, o).value
    {
      assert e.removed[i].outpoint != o;
    }
  }

  lemma {:induction false} PlannedExtends(before: Epoch, after: Epoch, e: JournalEntry, s: ForestState,
                       deletions: seq<(OutPoint, nat)>, additions: seq<(OutPoint, Hash)>)
    requires Represents(before) && Blocks.Holds(s, before.leaves) && forall k :: s.Read(k) == before.read(k)
    requires PlanOf(e, s.cells, s.rows, before.leaves, deletions, additions)
    requires forall i :: 0 <= i < |deletions| ==> Lookup(s.leafMap, deletions[i].0) == Some(deletions[i].1)
    requires forall i :: 0 <= i < |additions| ==>
               additions[i].0 !in s.leafMap || exists j :: 0 <= j < |deletions| && deletions[j].0 == additions[i].0
    requires after.leaves == NextLeaves(before.leaves, deletions, additions)
    requires e.previousBlockHash == before.tip && e.blockHash == after.tip
    requires WellFormed(e) ==> forall k :: after.read(k) == Redo(before.read(k), TouchOf(e, k))
    ensures Represents(after) && Extends(before, e, after)
  {
    hide NextLeaves, Cell, TouchOf, IsForest, After, Blocks.IndexMatches;
    Blocks.PlanWellFormed(e, s, before.leaves, deletions, additions);
    FoundAndFresh(e, s.leafMap, deletions, additions);
    Blocks.PlannedStarts(e, s, before.leaves, deletions, additions);
    forall c
      ensures after.read(CellAt(c)) == CellVal(Cell(after.leaves, c))
    {
      PlannedCells(e, s, before.leaves, deletions, additions, c);
    }
    StaysMapped(before, after, e, deletions, additions) by {
      assert forall i :: 0 <= i < |deletions| ==> s.Read(LeafOf(deletions[i].0)) == before.read(LeafOf(deletions[i].0));
    }
    CountTouched(e);
    assert after.read(LeafCount) == Redo(before.read(LeafCount), TouchOf(e, LeafCount));
    assert forall k :: StartsAt(e, k, s.Read(k));
    PlanSorted(e, s.cells, s.rows, before.leaves, deletions, additions);
  }

  lemma {:induction false} CountTouched(e: JournalEntry)
    requires WellFormed(e)
    ensures TouchOf(e, LeafCount) == Touched(CountVal(e.numLeaves - |e.added|), CountVal(e.numLeaves))
  {
  }

  lemma {:induction false} PlanSorted(e: JournalEntry, view: seq<NodeState>, rows: nat, leaves: seq<Node>,
                                      deletions: seq<(OutPoint, nat)>, additions: seq<(OutPoint, Hash)>)
    requires PlanOf(e, view, rows, leaves, deletions, additions)
    ensures EntryForestSorted(e)
  {
    hide IsForest, After, NextLeaves;
  }

  // ----- The two threads -----

  /** The one command or completion between the threads. */
  datatype Inflight = Inflight(blocks: seq<JournalEntry>, applied: bool)

  datatype CachedLeaf = CachedLeaf(height: nat, position: nat)

  datatype ProveError = NotOnTip | UnknownOutpoint | NoCapacity

  datatype ReorgError = BeyondJournal

  /** Pending blocks are the submitted window followed by the accumulating one. */
  ghost predicate Queues(journal: seq<JournalEntry>, pending: seq<JournalEntry>, window: seq<JournalEntry>,
                         submitted: nat, inflight: Option<Inflight>) {
    && |pending| <= |journal| && pending == journal[|journal| - |pending|..]
    && submitted <= |pending| && window == pending[submitted..]
    && submitted <= PUBLICATION_BLOCKS && |window| <= PUBLICATION_BLOCKS
    && (inflight.Some? <==> submitted > 0)
    && (inflight.Some? ==> inflight.value.blocks == pending[..submitted])
  }

  /** How many journal records the durable forest has. */
  function DurableCount(journal: seq<JournalEntry>, pending: seq<JournalEntry>, submitted: nat,
                        inflight: Option<Inflight>): int {
    |journal| - |pending| + (if inflight.Some? && inflight.value.applied then submitted else 0)
  }

  ghost predicate StoredAt(s: ForestState, e: Epoch) {
    s.Valid() && forall k :: s.Read(k) == e.read(k)
  }

  /** Every record fits the file; the pending ones were planned for exactly this height. */
  ghost predicate Fits(journal: seq<JournalEntry>, epochs: seq<Epoch>, first: nat, rows: nat) {
    && (forall i :: 0 <= i < |journal| ==> journal[i].forestRows.Some? && journal[i].forestRows.value <= rows)
    && (forall i :: first <= i < |journal| ==> journal[i].forestRows == Some(rows))
    && forall i :: 0 <= i < |epochs| ==> |epochs[i].leaves| <= Pow2(rows)
  }

  /** The overlay holds the last pending change of every node and outpoint. */
  ghost predicate Overlaid(overlay: ForestOverlay, pending: seq<JournalEntry>)
    reads overlay
  {
    && overlay.Valid()
    && (forall p :: overlay.NodeLayer(p) == LastNode(pending, p))
    && (forall o :: overlay.IndexLayer(o) == LastIndex(pending, o))
  }

  ghost predicate CacheAgrees(leafData: map<OutPoint, CachedLeaf>, e: Epoch) {
    forall o :: o in leafData ==>
      e.read(LeafOf(o)) == PositionVal(Some(leafData[o].position)) && leafData[o].position < |e.leaves|
  }

  /** Everything the two threads know but the overlay and the forest, and the states they stand for. */
  datatype ProverState = ProverState(
    journal: seq<JournalEntry>, pending: seq<JournalEntry>, window: seq<JournalEntry>, submitted: nat,
    inflight: Option<Inflight>, leafData: map<OutPoint, CachedLeaf>,
    leaves: nat, height: nat, tip: Hash, durableHeight: nat, durableTip: Hash,
    epochs: seq<Epoch>, baseHeight: nat)

  ghost predicate Consistent(s: ProverState, forest: ForestState) {
    && Linked(s.epochs, s.journal, s.baseHeight)
    && Queues(s.journal, s.pending, s.window, s.submitted, s.inflight)
    && var durable := DurableCount(s.journal, s.pending, s.submitted, s.inflight);
    && StoredAt(forest, s.epochs[durable])
    && s.durableHeight == s.baseHeight + durable && s.durableTip == s.epochs[durable].tip
    && Fits(s.journal, s.epochs, |s.journal| - |s.pending|, forest.rows)
    && var current := s.epochs[|s.journal|];
    && s.leaves == |current.leaves| && s.height == s.baseHeight + |s.journal| && s.tip == current.tip
    && CacheAgrees(s.leafData, current)
  }

  // ----- The durable forest under the overlay -----

  function SeenIndex(leafMap: map<OutPoint, nat>, positions: map<OutPoint, (nat, Option<nat>)>,
                     o: OutPoint): Option<nat> {
    if o in positions then positions[o].1 else Lookup(leafMap, o)
  }

  function SeenState(forest: ForestState, nodes: map<nat, NodeState>, positions: map<OutPoint, (nat, Option<nat>)>,
                     leaves: nat): ForestState {
    ForestState(forest.rows, View(forest.cells, nodes),
                map o | o in forest.leafMap.Keys + positions.Keys && SeenIndex(forest.leafMap, positions, o).Some? ::
                  SeenIndex(forest.leafMap, positions, o).value,
                leaves)
  }

  /** The overlay's contents are the last pending changes. */
  ghost predicate Shows(nodes: map<nat, NodeState>, positions: map<OutPoint, (nat, Option<nat>)>,
                        pending: seq<JournalEntry>) {
    && (forall p :: p in nodes <==> LastNode(pending, p).Some?)
    && (forall p :: p in nodes ==> LastNode(pending, p).value.1 == nodes[p])
    && (forall o :: o in positions <==> LastIndex(pending, o).Some?)
    && (forall o :: o in positions ==> LastIndex(pending, o).value == positions[o])
  }

  lemma {:induction false} SeenIsCurrent(s: ProverState, forest: ForestState, nodes: map<nat, NodeState>,
                                         positions: map<OutPoint, (nat, Option<nat>)>)
    requires Consistent(s, forest) && Shows(nodes, positions, s.pending)
    ensures |s.epochs| == |s.journal| + 1
    ensures StoredAt(SeenState(forest, nodes, positions, s.leaves), s.epochs[|s.journal|])
    ensures Blocks.Holds(SeenState(forest, nodes, positions, s.leaves), s.epochs[|s.journal|].leaves)
  {
    hide Position, Pow2, At, LastNode, LastIndex, Linked, Cell;
    var first, durable := |s.journal| - |s.pending|, DurableCount(s.journal, s.pending, s.submitted, s.inflight);
    LinkedSizes(s.epochs, s.journal, s.baseHeight);
    var v, current := SeenState(forest, nodes, positions, s.leaves), s.epochs[|s.journal|];
    CurrentRepresents(s.epochs, s.journal, s.baseHeight);
    forall k
      ensures v.Read(k) == current.read(k)
    {
      match k
      case CellAt(c) =>
        assert forest.Read(k) == s.epochs[durable].read(k);
        if InLayout(c, forest.rows) {
          SeenNode(s.epochs, s.journal, s.baseHeight, forest.rows, first, durable, c);
        } else {
          OutsideCell(current.leaves, c, forest.rows);
        }
      case LeafOf(o) =>
        assert forest.Read(k) == s.epochs[durable].read(k);
        SeenOutpoint(s.epochs, s.journal, s.baseHeight, first, durable, o);
        assert v.Read(k) == PositionVal(SeenIndex(forest.leafMap, positions, o));
      case LeafCount =>
    }
    StoredIsForest(v, current);
  }

  class FlatFileProver {
    const acc: SteadyStateForest
    var overlay: ForestOverlay
    var journal: seq<JournalEntry>
    var pending: seq<JournalEntry>
    var window: seq<JournalEntry>
    var submitted: nat
    var inflight: Option<Inflight>
    var leafData: map<OutPoint, CachedLeaf>
    var leaves: nat
    var height: nat
    var tip: Hash
    var durableHeight: nat
    var durableTip: Hash

    ghost var epochs: seq<Epoch>
    ghost var baseHeight: nat

    /** The durable height, and how many records there were, at the start or after the last rollback. */
    ghost var origin: nat
    ghost var kept: nat

    /** A recovered prover: nothing pending, the forest at the last retained record. */
    constructor (acc: SteadyStateForest, records: seq<JournalEntry>, height: nat, tip: Hash, ghost epochs: seq<Epoch>)
      requires |records| <= height && Linked(epochs, records, height - |records|)
      requires StoredAt(acc.State(), epochs[|records|]) && tip == epochs[|records|].tip
      requires Fits(records, epochs, |records|, acc.rows)
      ensures Valid() && fresh(overlay) && this.acc == acc
      ensures this.epochs == epochs && journal == records && pending == [] && this.height == height
      ensures origin == height && kept == |records| && durableHeight == height
    {
      hide Linked, Cell, Pow2, Position, At, Fits, CacheAgrees, InLayout;
      LinkedSizes(epochs, records, height - |records|);
      EmptyCache(epochs[|records|]);
      this.overlay := new ForestOverlay();
      this.acc, this.journal, this.pending, this.window := acc, records, [], [];
      this.submitted, this.inflight, this.leafData := 0, None, map[];
      this.leaves, this.height, this.tip, this.durableHeight, this.durableTip := acc.leaves, height, tip, height, tip;
      this.epochs, this.baseHeight, this.origin, this.kept := epochs, height - |records|, height, |records|;
      new;
      CurrentRepresents(epochs, records, height - |records|);
      assert acc.State().Read(LeafCount) == epochs[|records|].read(LeafCount);
    }

    ghost function Snap(): ProverState
      reads this
    {
      ProverState(journal, pending, window, submitted, inflight, leafData, leaves, height, tip, durableHeight,
          durableTip, epochs, baseHeight)
    }

    ghost predicate Core()
      reads this, acc, overlay
    {
      Consistent(Snap(), acc.State()) && Overlaid(overlay, pending) && Retained(Snap(), origin, kept)
    }

    /** Between two calls the accumulating window is never full. */
    ghost predicate Valid()
      reads this, acc, overlay
    {
      Core() && |window| < PUBLICATION_BLOCKS
    }

    /** The state after the last proved block. */
    ghost function Current(): Epoch
      reads this
      requires |epochs| > 0
    {
      epochs[|epochs| - 1]
    }

    /** What the producer reads: the overlay over the durable forest and leaf map. */
    function ViewIndex(o: OutPoint): Option<nat>
      reads this, acc, overlay
    {
      SeenIndex(acc.leafMap, overlay.positions, o)
    }

    function ViewState(): ForestState
      reads this, acc, overlay
    {
      SeenState(acc.State(), overlay.nodes, overlay.positions, leaves)
    }

    /** Seen through the overlay, the durable forest and leaf map are the state after the last proved block. */
    lemma {:induction false} ViewIsCurrent()
      requires Core()
      ensures StoredAt(ViewState(), Current()) && Blocks.Holds(ViewState(), Current().leaves)
    {
      hide Consistent, SeenState, LastNode, LastIndex;
      ConsistentSizes(Snap(), acc.State());
      assert Shows(overlay.nodes, overlay.positions, pending) by {
        assert forall p :: overlay.NodeLayer(p) == LastNode(pending, p);
        assert forall o :: overlay.IndexLayer(o) == LastIndex(pending, o);
      }
      SeenIsCurrent(Snap(), acc.State(), overlay.nodes, overlay.positions);
    }

    // ----- The worker -----

    /** Makes the submitted window durable; the checks against the durable tip always pass. */
    method WorkerApply()
      requires Core() && inflight.Some? && !inflight.value.applied
      modifies this, acc
      ensures Core() && inflight == Some(Inflight(old(inflight).value.blocks, true))
      ensures pending == old(pending) && window == old(window) && submitted == old(submitted) && overlay == old(overlay)
      ensures leafData == old(leafData) && acc.rows == old(acc.rows)
      ensures Current() == old(Current()) && leaves == old(leaves) && height == old(height) && tip == old(tip)
      ensures IsSuffix(epochs, old(epochs)) && KeptNewest(old(journal), journal, |window|)
      ensures durableHeight == old(durableHeight) + submitted
      ensures origin == old(origin) && kept == old(kept)
    {
      hide Consistent, WellFormed, EntryForestSorted, Overlaid, RedoEntries, TouchOf, Retained, KeptNewest, IsSuffix,
           LastOf;
      var blocks := inflight.value.blocks;
      ghost var before, forest := Snap(), acc.State();
      WindowReady(before, forest);
      assert Extending(durableHeight, durableTip, blocks);
      var applied := acc.ApplyForwardBatch(blocks);
      var last := LastOf(durableHeight, durableTip, blocks);
      ghost var after := before.(durableHeight := last.0, durableTip := last.1,
          inflight := Some(Inflight(blocks, true)));
      WindowConsistent(before, after, forest, acc.State());
      durableHeight, durableTip, inflight := last.0, last.1, Some(Inflight(blocks, true));
      assert Snap() == after;
      ConsistentSizes(before, forest);
      SubmittedBlocks(before, forest);
      PruneJournal();
      WorkerRetained(before, Snap(), origin, kept);
    }

    /** Keeps the newest durable records for rollback. */
    method PruneJournal()
      requires Consistent(Snap(), acc.State()) && Overlaid(overlay, pending) && inflight.Some? && inflight.value.applied
      modifies this`journal, this`epochs, this`baseHeight
      ensures Consistent(Snap(), acc.State()) && Overlaid(overlay, pending) && Current() == old(Current())
      ensures IsSuffix(epochs, old(epochs)) && KeptNewest(old(journal), journal, |window|)
    {
      hide Consistent, Overlaid;
      ghost var before := Snap();
      ConsistentSizes(before, acc.State());
      var durable := |journal| - |pending| + submitted;
      var count := if durable > RETAINED_BLOCKS then durable - RETAINED_BLOCKS else 0;
      PruneConsistent(before, acc.State(), count);
      journal := journal[count..];
      epochs := epochs[count..];
      baseHeight := baseHeight + count;
    }

    // ----- The producer waits for the worker -----

    /** The worker has yet to answer. */
    predicate Waiting()
      reads this
    {
      inflight.Some? && !inflight.value.applied
    }

    /** Takes the finished window out of the queue and out of the overlay. */
    method RetireApply()
      requires Core() && inflight.Some? && inflight.value.applied
      modifies this, overlay
      ensures Core() && inflight == None && submitted == 0
      ensures pending == old(window) && window == old(window) && overlay == old(overlay) && leafData == old(leafData)
      ensures epochs == old(epochs) && leaves == old(leaves) && height == old(height) && tip == old(tip)
      ensures journal == old(journal) && durableHeight == old(durableHeight)
      ensures origin == old(origin) && kept == old(kept)
    {
      hide Consistent, Overlaid;
      ghost var before := Snap();
      ConsistentSizes(before, acc.State());
      RetireConsistent(before, acc.State());
      var blocks := |inflight.value.blocks|;
      RetireBlocks(overlay, pending, blocks);
      pending, submitted, inflight := pending[blocks..], submitted - blocks, None;
    }

    /** Picks up a completion if there is one. */
    method CollectCompleted()
      requires Core()
      modifies this, acc, overlay
      ensures inflight == if old(inflight).Some? && old(inflight).value.applied then None else old(inflight)
      ensures Core() && Current() == old(Current())
      ensures window == old(window) && submitted <= old(submitted) && overlay == old(overlay)
              && leafData == old(leafData)
      ensures leaves == old(leaves) && height == old(height) && tip == old(tip) && acc.rows == old(acc.rows)
      ensures journal == old(journal) && epochs == old(epochs) && durableHeight == old(durableHeight)
      ensures origin == old(origin) && kept == old(kept)
    {
      hide Linked, StoredAt, Fits, CacheAgrees, Overlaid, Queues;
      QueueSizes(journal, pending, window, submitted, inflight);
      if inflight.Some? && inflight.value.applied {
        RetireApply();
      }
    }

    /** Blocks until the worker answers: there must be something it can answer. */
    method WaitForApply()
      requires Core() && inflight.Some?
      modifies this, acc, overlay
      ensures Core() && Current() == old(Current()) && submitted == 0
      ensures pending == window == old(window) && overlay == old(overlay) && leafData == old(leafData)
      ensures leaves == old(leaves) && height == old(height) && tip == old(tip) && acc.rows == old(acc.rows)
      ensures IsSuffix(epochs, old(epochs))
      ensures if old(inflight).value.applied then journal == old(journal)
              else KeptNewest(old(journal), journal, |window|)
      ensures durableHeight == old(durableHeight) + (if old(inflight).value.applied then 0 else old(submitted))
      ensures origin == old(origin) && kept == old(kept)
    {
      hide Linked, StoredAt, Fits, CacheAgrees, Overlaid, Queues, KeptNewest;
      if !inflight.value.applied {
        WorkerApply();
      }
      RetireApply();
    }

    method DrainPendingApply()
      requires Core()
      modifies this, acc, overlay
      ensures Core() && Current() == old(Current()) && submitted == 0
      ensures pending == window == old(window) && overlay == old(overlay) && leafData == old(leafData)
      ensures leaves == old(leaves) && height == old(height) && tip == old(tip) && acc.rows == old(acc.rows)
      ensures IsSuffix(epochs, old(epochs))
      ensures if old(Waiting()) then KeptNewest(old(journal), journal, |window|) else journal == old(journal)
      ensures durableHeight == old(durableHeight) + (if old(Waiting()) then old(submitted) else 0)
      ensures origin == old(origin) && kept == old(kept)
    {
      hide KeptNewest, Represents, Extends, StoredAt, Fits, CacheAgrees, Overlaid, Queues;
      QueueSizes(journal, pending, window, submitted, inflight);
      if submitted == 0 { WindowIsPending(journal, pending, window, inflight); }
      while submitted != 0
        invariant Core() && Current() == old(Current())
        invariant submitted != 0 ==> epochs == old(epochs)
        invariant IsSuffix(epochs, old(epochs))
        invariant submitted != 0 ==> inflight.Some?
        invariant window == old(window) && overlay == old(overlay) && leafData == old(leafData)
        invariant submitted == 0 ==> pending == window
        invariant leaves == old(leaves) && height == old(height) && tip == old(tip) && acc.rows == old(acc.rows)
        invariant origin == old(origin) && kept == old(kept)
        invariant submitted != 0 ==> journal == old(journal) && inflight == old(inflight) && submitted == old(submitted)
        invariant submitted != 0 ==> durableHeight == old(durableHeight)
        invariant submitted == 0 ==>
          if old(Waiting()) then KeptNewest(old(journal), journal, |window|) else journal == old(journal)
        invariant submitted == 0 ==>
                    durableHeight == old(durableHeight) + (if old(Waiting()) then old(submitted) else 0)
        decreases submitted
      {
        WaitForApply();
      }
    }

    /**
     Makes room for one more block. Fewer than the maximum are pending whenever a block is
     started, so the loop that would wait here for room is never entered.
     */
    method ReservePersistence()
      requires Valid()
      modifies this, acc, overlay
      ensures inflight == if old(inflight).Some? && old(inflight).value.applied then None else old(inflight)
      ensures Valid() && |pending| < 200 && window == old(window)
      ensures Current() == old(Current()) && overlay == old(overlay) && leafData == old(leafData)
      ensures leaves == old(leaves) && height == old(height) && tip == old(tip) && acc.rows == old(acc.rows)
      ensures journal == old(journal) && epochs == old(epochs) && durableHeight == old(durableHeight)
      ensures origin == old(origin) && kept == old(kept)
    {
      hide Linked, StoredAt, Fits, CacheAgrees, Overlaid, Queues;
      CollectCompleted();
      QueueSizes(journal, pending, window, submitted, inflight);
    }

    /** Hands the accumulated window to the worker once it has answered for the last one. */
    method PublishPending()
      requires Core()
      modifies this, acc, overlay
      ensures Valid() && Current() == old(Current()) && window == []
      ensures overlay == old(overlay) && leafData == old(leafData)
      ensures leaves == old(leaves) && height == old(height) && tip == old(tip) && acc.rows == old(acc.rows)
      ensures IsSuffix(epochs, old(epochs))
      ensures old(window) == [] ==>
                && pending == old(pending) && submitted == old(submitted) && inflight == old(inflight)
                && journal == old(journal) && epochs == old(epochs) && durableHeight == old(durableHeight)
      ensures old(window) != [] ==>
                && pending == old(window) && submitted == |old(window)|
                     && inflight == Some(Inflight(old(window), false))
                && (if old(Waiting()) then KeptNewest(old(journal), journal, |pending|) else journal == old(journal))
                && durableHeight == old(durableHeight) + (if old(Waiting()) then old(submitted) else 0)
      ensures origin == old(origin) && kept == old(kept)
    {
      hide Consistent, Overlaid, KeptNewest, IsSuffix;
      ConsistentSizes(Snap(), acc.State());
      if window == [] {
        WholeSuffix(epochs);
        return;
      }
      DrainPendingApply();
      ConsistentSizes(Snap(), acc.State());
      SubmitConsistent(Snap(), acc.State());
      var blocks := window;
      window, submitted, inflight := [], |blocks|, Some(Inflight(blocks, false));
    }

    /** Makes everything proved so far durable. */
    method Sync()
      requires Core()
      modifies this, acc, overlay
      ensures Valid() && Current() == old(Current()) && pending == []
      ensures overlay.nodes == map[] && overlay.positions == map[]
      ensures overlay == old(overlay) && leafData == old(leafData)
      ensures leaves == old(leaves) && height == old(height) && tip == old(tip) && acc.rows == old(acc.rows)
      ensures inflight == None && submitted == 0
      ensures durableHeight == height && durableTip == tip && window == []
      ensures IsSuffix(epochs, old(epochs))
      ensures if old(window) != []
              || old(Waiting()) then KeptNewest(old(journal), journal, 0) else journal == old(journal)
      ensures origin == old(origin) && kept == old(kept)
    {
      hide Linked, StoredAt, Fits, CacheAgrees, Overlaid, Queues;
      QueueSizes(journal, pending, window, submitted, inflight);
      ghost var first, states := journal, epochs;
      PublishPending();
      ghost var second := journal;
      DrainPendingApply();
      QueueSizes(journal, pending, window, submitted, inflight);
      NothingOverlaid(overlay);
    }

    /** The file grows only when nothing is pending and the overlay is empty. */
    method EnsureForestCapacity(additions: nat) returns (ok: bool)
      requires Valid()
      modifies this, acc, overlay
      ensures Valid() && Current() == old(Current()) && overlay == old(overlay) && leafData == old(leafData)
      ensures leaves == old(leaves) && height == old(height) && tip == old(tip)
      ensures ok ==> leaves + additions <= Pow2(acc.rows)
      ensures acc.rows == if old(leaves) + additions > Pow2(old(acc.rows)) && ok then TreeRows(old(leaves) + additions)
                          else old(acc.rows)
      ensures inflight == if old(leaves) + additions <= Pow2(old(acc.rows)) then old(inflight) else None
      ensures ok <==> !NoRoom(old(leaves) + additions, old(acc.rows))
      ensures window == if old(leaves) + additions <= Pow2(old(acc.rows)) then old(window) else []
      ensures origin == old(origin) && kept == old(kept)
    {
      hide Linked, StoredAt, Fits, CacheAgrees, Overlaid, Queues, Pow2;
      var required := leaves + additions;
      if required <= Pow2(acc.rows) {
        return true;
      }
      Sync();
      ok := ResizeBarrier(required);
    }

    method ResizeBarrier(required: nat) returns (ok: bool)
      requires Valid() && pending == [] && overlay.nodes == map[] && overlay.positions == map[]
      modifies acc
      ensures Valid()
      ensures ok ==> required <= Pow2(acc.rows)
      ensures acc.rows == if required > Pow2(old(acc.rows)) && ok then TreeRows(required) else old(acc.rows)
      ensures ok <==> !NoRoom(required, old(acc.rows))
    {
      hide Linked, CacheAgrees, Overlaid, Queues, Pow2;
      LinkedSizes(epochs, journal, baseHeight);
      QueueSizes(journal, pending, window, submitted, inflight);
      ghost var before := acc.State();
      var grown := acc.EnsureLeafCapacity(required);
      ok := grown.Ok?;
      StoredSame(before, acc.State(), epochs[|journal|]);
      Pow2Monotone(before.rows, acc.rows);
    }

    // ----- Proving a block -----

    /** Looks spent outpoints up in the recent-leaf cache, else through the overlay in the leaf map. */
    method FindPositions(spends: seq<OutPoint>) returns (r: Option<seq<(OutPoint, nat)>>)
      requires Core()
      ensures r.Some? ==> |r.value| == |spends|
      ensures r.Some? ==> forall i :: 0 <= i < |spends| ==>
                r.value[i].0 == spends[i] && r.value[i].1 < leaves
                    && Current().read(LeafOf(spends[i])) == PositionVal(Some(r.value[i].1))
      ensures r.None? <==> exists i :: 0 <= i < |spends| && !Locates(Current().read(LeafOf(spends[i])), leaves)
    {
      hide Linked, Fits, Overlaid, Queues, View;
      ViewIsCurrent();
      LinkedSizes(epochs, journal, baseHeight);
      var found: seq<(OutPoint, nat)> := [];
      for i := 0 to |spends|
        invariant |found| == i
        invariant forall j :: 0 <= j < i ==>
          found[j].0 == spends[j] && found[j].1 < leaves
              && Current().read(LeafOf(spends[j])) == PositionVal(Some(found[j].1))
      {
        var o := spends[i];
        assert ViewState().Read(LeafOf(o)) == Current().read(LeafOf(o));
        if o in leafData {
          found := found + [(o, leafData[o].position)];
        } else {
          var position := ViewIndex(o);
          if position == None || position.value >= leaves {
            return None;
          }
          found := found + [(o, position.value)];
        }
      }
      return Some(found);
    }

    /** Proves the next block: plans it against the view, queues it, and submits a full window. */
    method ProveBlock(blockHash: Hash, previous: Hash, spends: seq<OutPoint>, additions: seq<(OutPoint, Hash)>)
      returns (r: Result<JournalEntry, ProveError>)
      requires Valid()
      requires forall i :: 0 <= i < |additions| ==>
                 Current().read(LeafOf(additions[i].0)) == PositionVal(None) || additions[i].0 in spends
      modifies this, acc, overlay
      ensures Valid()
      ensures inflight.Some? ==> !inflight.value.applied
      ensures r == Err(NotOnTip) <==> previous != old(tip)
      ensures r == Err(NoCapacity) <==> previous == old(tip) && NoRoom(old(leaves) + |additions|, old(acc.rows))
      ensures r == Err(UnknownOutpoint) <==>
                && previous == old(tip) && !NoRoom(old(leaves) + |additions|, old(acc.rows))
                && exists i :: 0 <= i < |spends| && !Locates(old(Current()).read(LeafOf(spends[i])), old(leaves))
      ensures r.Err? ==>
                Current() == old(Current()) && height == old(height) && tip == old(tip) && leaves == old(leaves)
      ensures r.Ok? ==> QueuedAs(if old(leaves) + |additions| <= Pow2(old(acc.rows)) then old(window) else [], r.value)
      ensures origin == old(origin) && kept == old(kept)
      ensures r.Ok? ==>
                Proved(old(Current()), r.value, Current(), blockHash, spends, additions)
                && height == old(height) + 1 == r.value.height
    {
      hide Consistent, Linked, StoredAt, Fits, CacheAgrees, Overlaid, Queues, Pow2, NoRoom, Locates, Retained,
           KeptNewest, IsSuffix, Proved,
           Represents, Extends;
      ReservePersistence();
      ConsistentSizes(Snap(), acc.State());
      ghost var before := Current();
      if previous != tip {
        return Err(NotOnTip);
      }
      var room := EnsureForestCapacity(|additions|);
      ConsistentSizes(Snap(), acc.State());
      if !room {
        return Err(NoCapacity);
      }
      var planned;
      ghost var next;
      planned, next := PlanBlock(blockHash, previous, spends, additions);
      if planned == None {
        return Err(UnknownOutpoint);
      }
      Enqueue(planned.value, next);
      ConsistentSizes(Snap(), acc.State());
      if |window| == PUBLICATION_BLOCKS {
        PublishPending();
      }
      return Ok(planned.value);
    }

    /** Locates the block's spends and plans it against what the producer sees; none if one is not there. */
    method PlanBlock(blockHash: Hash, previous: Hash, spends: seq<OutPoint>, additions: seq<(OutPoint, Hash)>)
      returns (r: Option<JournalEntry>, ghost next: Epoch)
      requires Core() && previous == tip && |epochs| > 0 && leaves + |additions| <= Pow2(acc.rows)
      requires forall i :: 0 <= i < |additions| ==>
                 Current().read(LeafOf(additions[i].0)) == PositionVal(None) || additions[i].0 in spends
      ensures r.None? <==> exists i :: 0 <= i < |spends| && !Locates(Current().read(LeafOf(spends[i])), leaves)
      ensures r.Some? ==>
                && Proved(Current(), r.value, next, blockHash, spends, additions)
                && Represents(next) && Extends(Current(), r.value, next) && |next.leaves| <= Pow2(acc.rows)
                && r.value.forestRows == Some(acc.rows) && r.value.height == height + 1
                     && r.value.blockHash == blockHash
                && r.value.numLeaves == |next.leaves| >= leaves
                && forall i :: 0 <= i < |r.value.added| ==> r.value.added[i].position < |next.leaves|
    {
      hide Linked, StoredAt, Fits, CacheAgrees, Overlaid, Queues, Pow2, View, Blocks.Holds, Locates, SeenIndex,
           Proved, PlanOf, Retained;
      r, next := None, Current();
      var deletions := FindPositions(spends);
      if deletions == None {
        return;
      }
      ConsistentSizes(Snap(), acc.State());
      ViewIsCurrent();
      Blocks.HoldsForest(ViewState(), Current().leaves);
      var planned := PlanUpdate(acc.cells, overlay.nodes, acc.rows, Current().leaves, leaves, height + 1, blockHash,
                                previous, deletions.value, additions);
      r, next := Some(planned.value), NextEpoch(Current(), planned.value, deletions.value, additions);
      PlannedNext(Current(), next, planned.value, ViewState(), spends, deletions.value, additions);
    }

    /** The block joins those that wait; a hundred of them go to the worker. */
    predicate QueuedAs(waiting: seq<JournalEntry>, e: JournalEntry)
      reads this
    {
      if |waiting| == 99 then window == [] && submitted == 100 && inflight == Some(Inflight(waiting + [e], false))
      else window == waiting + [e]
    }

    /** Appends a planned block to the journal, the cache, the window, the overlay and the queue. */
    method Enqueue(e: JournalEntry, ghost next: Epoch)
      requires Valid() && e.forestRows == Some(acc.rows) && e.height == height + 1 && e.numLeaves == |next.leaves|
      requires Represents(next) && Extends(Current(), e, next) && |next.leaves| <= Pow2(acc.rows)
      requires |next.leaves| >= leaves && forall i :: 0 <= i < |e.added| ==> e.added[i].position < |next.leaves|
      modifies this, overlay
      ensures Core() && Current() == next && overlay == old(overlay)
      ensures window == old(window) + [e] && journal == old(journal) + [e] && pending == old(pending) + [e]
      ensures origin == old(origin) && kept == old(kept)
      ensures inflight == old(inflight) && submitted == old(submitted)
      ensures height == e.height && tip == e.blockHash
    {
      hide Consistent, CacheAgrees, Pow2, Represents, Extends, Overlaid, CachedAfter, Retained, Mentions;
      ghost var before := Snap();
      ConsistentSizes(before, acc.State());
      var cache := UpdatedCache(leafData, e);
      CacheExtends(leafData, cache, Current(), e, next);
      ghost var after := before.(journal := journal + [e], pending := pending + [e], window := window + [e],
          epochs := epochs + [next], leafData := cache, leaves := e.numLeaves, height := e.height, tip := e.blockHash);
      EnqueueConsistent(before, after, acc.State(), e, next);
      EnqueueRetained(before, after, origin, kept);
      PushBlock(overlay, pending, e);
      TakeUp(e, cache, next);
      assert Snap() == after;
    }

    method TakeUp(e: JournalEntry, cache: map<OutPoint, CachedLeaf>, ghost next: Epoch)
      modifies this`journal, this`epochs, this`window, this`pending, this`leafData, this`leaves, this`height, this`tip
      ensures journal == old(journal) + [e] && window == old(window) + [e] && pending == old(pending) + [e]
      ensures epochs == old(epochs) + [next] && leafData == cache
      ensures leaves == e.numLeaves && height == e.height && tip == e.blockHash
    {
      hide *;
      journal, window, pending, epochs := journal + [e], window + [e], pending + [e], epochs + [next];
      leafData, leaves, height, tip := cache, e.numLeaves, e.height, e.blockHash;
    }

    // ----- Reorganisations -----

    /** Forgets everything after the first records and follows the forest to that tip. */
    method ReturnTo(keep: nat, height: nat, tip: Hash)
      requires keep <= |journal| && |epochs| == |journal| + 1
      modifies this`journal, this`epochs, this`window, this`pending, this`leafData, this`leaves,
               this`height, this`tip, this`durableHeight, this`durableTip
      ensures journal == old(journal)[..keep] && epochs == old(epochs)[..keep + 1] && window == [] && pending == []
      ensures leafData == map[] && leaves == acc.leaves && this.height == durableHeight == height
              && this.tip == durableTip == tip
    {
      hide *;
      journal, window, pending, leafData := journal[..keep], [], [], map[];
      epochs := epochs[..keep + 1];
      leaves, this.height, this.tip, durableHeight, durableTip := acc.leaves, height, tip, height, tip;
    }

    /** Gives up the accumulating window: back to the durable tip. */
    method DiscardUnpublished() returns (discarded: nat)
      requires Valid() && submitted == 0
      modifies this
      ensures Valid() && pending == [] && discarded == |old(window)| && (overlay == old(overlay) || fresh(overlay))
      ensures discarded < |old(epochs)| && Current() == old(epochs)[|old(epochs)| - 1 - discarded]
      ensures height == old(height) - discarded && window == []
      ensures discarded <= |old(journal)| && journal == old(journal)[..|old(journal)| - discarded]
      ensures epochs == old(epochs)[..|old(epochs)| - discarded]
      ensures origin == old(origin) && kept == old(kept)
    {
      hide Consistent, Overlaid;
      ghost var before := Snap();
      ConsistentSizes(before, acc.State());
      DiscardConsistent(before, acc.State());
      discarded := |window|;
      ReturnTo(|journal| - discarded, durableHeight, durableTip);
      assert Snap().epochs == before.epochs[..|before.epochs| - discarded];
      overlay := new ForestOverlay();
      EmptyOverlaid(overlay);
    }

    /** Undoes the durable tip, as far back as the journal reaches. */
    method RollbackTip() returns (r: Result<(), ReorgError>)
      requires Valid() && pending == []
      modifies this, acc
      ensures Valid() && pending == [] && overlay == old(overlay)
      ensures r.Err? <==> old(journal) == []
      ensures r.Err? ==>
                Current() == old(Current()) && height == old(height) && epochs == old(epochs)
                && journal == old(journal)
      ensures r.Ok? ==> |old(epochs)| >= 2 && Current() == old(epochs)[|old(epochs)| - 2] && height == old(height) - 1
      ensures r.Ok? ==> journal == old(journal)[..|old(journal)| - 1] && epochs == old(epochs)[..|old(epochs)| - 1]
      ensures r.Ok? ==> origin == durableHeight && kept == |journal|
    {
      hide Consistent, Overlaid, WellFormed, TouchOf, EntryForestSorted, Undo, Retained, Represents;
      ghost var before, forest := Snap(), acc.State();
      ConsistentSizes(before, forest);
      if journal == [] {
        return Err(BeyondJournal);
      }
      var e := journal[|journal| - 1];
      RollbackReady(before, forest);
      var undone := acc.ApplyBackward(e);
      RollbackConsistent(before, forest, acc.State());
      ReturnTo(|journal| - 1, e.height - 1, e.previousBlockHash);
      origin, kept := durableHeight, |journal|;
      StartRetained(Snap());
      return Ok(());
    }

    /**
     After any number of blocks became durable since the start or since the last rollback, so many
     rollbacks succeed, each landing on the state before: as many as there are records, at most 144.
     */
    method RollBackBlocks(count: nat)
      requires Valid() && pending == []
      requires var since := durableHeight - origin;
               count <= (if since == 0 then kept else if kept + since < 144 then kept + since else 144)
      modifies this, acc
      ensures Valid() && pending == []
      ensures count < |old(epochs)| && Current() == old(epochs)[|old(epochs)| - 1 - count]
              && height == old(height) - count
    {
      hide Consistent, Overlaid;
      ConsistentSizes(Snap(), acc.State());
      ghost var all := epochs;
      for i := 0 to count
        invariant Valid() && pending == [] && |journal| == |old(journal)| - i && |epochs| == |journal| + 1
        invariant epochs == all[..|all| - i] && height == old(height) - i
      {
        var undone := RollbackTip();
        ConsistentSizes(Snap(), acc.State());
      }
    }

    /**
     One turn of the reorganisation loop, taken when the tip is not on the active chain: back to the
     state before the unpublished window if there is one, else exactly one block.
     */
    method ReconcileOnce() returns (r: Result<(), ReorgError>)
      requires Valid()
      modifies this, acc, overlay
      ensures Valid() && pending == []
      ensures r.Err? <==> old(journal) == []
      ensures r.Err? ==> Current() == old(Current()) && height == old(height)
      ensures r.Ok? ==>
                var back := if old(window) != [] then |old(window)| else 1;
                back < |old(epochs)| && Current() == old(epochs)[|old(epochs)| - 1 - back]
                    && height == old(height) - back
    {
      hide Consistent, Overlaid;
      ConsistentSizes(Snap(), acc.State());
      SubmittedSome(Snap(), acc.State());
      DrainPendingApply();
      ConsistentSizes(Snap(), acc.State());
      if window != [] {
        var discarded := DiscardUnpublished();
        return Ok(());
      }
      r := RollbackTip();
    }
  }

  /** Of the durable records the newest 144 are left, or all if there are fewer; those still waiting stay. */
  predicate KeptNewest(was: seq<JournalEntry>, now: seq<JournalEntry>, waiting: nat) {
    && waiting <= |was|
    && |now| == waiting + (if |was| - waiting < 144 then |was| - waiting else 144)
    && now == was[|was| - |now|..]
  }

  /** How many records there are when so many blocks became durable since there were `kept`. */
  function RetainedCount(kept: nat, since: nat): nat {
    if since == 0 then kept else if kept + since < 144 then kept + since else 144
  }

  ghost predicate Retained(s: ProverState, origin: nat, kept: nat) {
    && origin <= s.durableHeight
    && DurableCount(s.journal, s.pending, s.submitted, s.inflight) == RetainedCount(kept, s.durableHeight - origin)
  }

  lemma {:induction false} WorkerRetained(s: ProverState, s': ProverState, origin: nat, kept: nat)
    requires Retained(s, origin, kept) && s.inflight.Some? && !s.inflight.value.applied && s.submitted > 0
    requires s'.inflight.Some? && s'.inflight.value.applied && s'.durableHeight == s.durableHeight + s.submitted
    requires |s.pending| == s.submitted + |s.window| && s'.submitted == s.submitted && s'.pending == s.pending
    requires KeptNewest(s.journal, s'.journal, |s.window|)
    ensures Retained(s', origin, kept)
  {
  }

  lemma {:induction false} StartRetained(s: ProverState)
    requires s.pending == [] && s.inflight == None
    ensures Retained(s, s.durableHeight, |s.journal|)
  {
  }

  lemma {:induction false} EnqueueRetained(s: ProverState, s': ProverState, origin: nat, kept: nat)
    requires Retained(s, origin, kept)
    requires |s'.journal| == |s.journal| + 1 && |s'.pending| == |s.pending| + 1 && s'.submitted == s.submitted
    requires s'.inflight == s.inflight && s'.durableHeight == s.durableHeight
    ensures Retained(s', origin, kept)
  {
  }

  lemma {:induction false} SubmittedSome(s: ProverState, forest: ForestState)
    requires Consistent(s, forest)
    ensures s.inflight.Some? ==> s.submitted > 0
    ensures |s.window| <= |s.journal| && s.submitted + |s.window| <= |s.journal|
  {
    hide Linked, StoredAt, Fits, CacheAgrees;
  }

  lemma {:induction false} WholeSuffix(s: seq<Epoch>)
    ensures IsSuffix(s, s)
  {
  }

  lemma {:induction false} SubmittedBlocks(s: ProverState, forest: ForestState)
    requires Consistent(s, forest) && s.inflight.Some? && !s.inflight.value.applied
    ensures |s.inflight.value.blocks| == s.submitted > 0
    ensures LastOf(s.durableHeight, s.durableTip, s.inflight.value.blocks).0 == s.durableHeight + s.submitted
  {
    hide Linked, StoredAt, Fits, CacheAgrees;
    WindowReady(s, forest);
  }

  ghost predicate IsSuffix(s: seq<Epoch>, t: seq<Epoch>) {
    |s| <= |t| && s == t[|t| - |s|..]
  }

  /** Neither the file as it is nor the tallest one holds the leaves. */
  predicate NoRoom(required: nat, rows: nat) {
    required > Pow2(rows) && TreeRows(required) > MAX_ROWS
  }

  predicate Locates(v: Val, leaves: nat) {
    v.PositionVal? && v.position.Some? && v.position.value < leaves
  }

  function PositionIn(deltas: seq<IndexDelta>, o: OutPoint): nat
    requires Mentions(deltas, o)
  {
    LastPositionExists(deltas, o);
    LastPosition(deltas, o).value
  }

  function CachedAfter(leafData: map<OutPoint, CachedLeaf>, e: JournalEntry, o: OutPoint): Option<CachedLeaf> {
    if Mentions(e.added, o) then Some(CachedLeaf(e.height, PositionIn(e.added, o)))
    else if Mentions(e.removed, o) || o !in leafData then None
    else Some(leafData[o])
  }

  function DeletionsOf(e: JournalEntry): (r: seq<(OutPoint, nat)>)
    ensures |r| == |e.removed|
  {
    seq(|e.removed|, i requires 0 <= i < |e.removed| => (e.removed[i].outpoint, e.removed[i].position))
  }

  /** What proving a block means for the state. */
  ghost predicate Proved(before: Epoch, e: JournalEntry, after: Epoch, blockHash: Hash, spends: seq<OutPoint>,
                         additions: seq<(OutPoint, Hash)>) {
    && Extends(before, e, after) && after.tip == blockHash
    && after.leaves == NextLeaves(before.leaves, DeletionsOf(e), additions)
    && |e.removed| == |spends|
    && (forall i :: 0 <= i < |spends| ==>
          e.removed[i].outpoint == spends[i]
              && before.read(LeafOf(spends[i])) == PositionVal(Some(e.removed[i].position)))
    && |e.added| == |additions|
    && forall i :: 0 <= i < |additions| ==> e.added[i] == IndexDelta(additions[i].0, |before.leaves| + i)
  }

  ghost function NextEpoch(before: Epoch, e: JournalEntry, deletions: seq<(OutPoint, nat)>,
                           additions: seq<(OutPoint, Hash)>): Epoch {
    Epoch(k => if WellFormed(e) then Redo(before.read(k), TouchOf(e, k)) else before.read(k),
          NextLeaves(before.leaves, deletions, additions), e.blockHash)
  }

  lemma {:induction false} PlannedNext(before: Epoch, next: Epoch, e: JournalEntry, s: ForestState,
                                       spends: seq<OutPoint>,
                    deletions: seq<(OutPoint, nat)>, additions: seq<(OutPoint, Hash)>)
    requires StoredAt(s, before) && Represents(before) && Blocks.Holds(s, before.leaves)
             && next == NextEpoch(before, e, deletions, additions)
    requires PlanOf(e, s.cells, s.rows, before.leaves, deletions, additions) && e.previousBlockHash == before.tip
    requires |deletions| == |spends| && forall i :: 0 <= i < |spends| ==>
               deletions[i].0 == spends[i] && before.read(LeafOf(spends[i])) == PositionVal(Some(deletions[i].1))
    requires forall i :: 0 <= i < |additions| ==>
               before.read(LeafOf(additions[i].0)) == PositionVal(None) || additions[i].0 in spends
    ensures Represents(next) && Extends(before, e, next) && Proved(before, e, next, e.blockHash, spends, additions)
    ensures e.numLeaves == |next.leaves| && e.forestRows == Some(s.rows) && |next.leaves| <= Pow2(s.rows)
    ensures |next.leaves| >= |before.leaves| && forall i :: 0 <= i < |e.added| ==> e.added[i].position < |next.leaves|
  {
    hide Represents, TouchOf, WellFormed, Pow2, After, Cell;
    forall i | 0 <= i < |deletions|
      ensures Lookup(s.leafMap, deletions[i].0) == Some(deletions[i].1)
    {
      assert s.Read(LeafOf(spends[i])) == before.read(LeafOf(spends[i]));
    }
    forall i | 0 <= i < |additions|
      ensures additions[i].0 !in s.leafMap || exists j :: 0 <= j < |deletions| && deletions[j].0 == additions[i].0
    {
      assert s.Read(LeafOf(additions[i].0)) == before.read(LeafOf(additions[i].0));
    }
    PlannedExtends(before, next, e, s, deletions, additions);
    assert DeletionsOf(e) == deletions;
  }

  /** Drops the spent leaves, adds the created ones, forgets those created too long ago. */
  method UpdatedCache(leafData: map<OutPoint, CachedLeaf>, e: JournalEntry) returns (r: map<OutPoint, CachedLeaf>)
    ensures forall o :: o in r <==>
              CachedAfter(leafData, e, o).Some?
                  && CachedAfter(leafData, e, o).value.height + 144 > e.height
    ensures forall o :: o in r ==> Some(r[o]) == CachedAfter(leafData, e, o)
  {
    var cache := leafData;
    for i := 0 to |e.removed|
      invariant forall o :: o in cache <==> o in leafData && !Mentions(e.removed[..i], o)
      invariant forall o :: o in cache ==> cache[o] == leafData[o]
    {
      MentionsMore(e.removed, i);
      cache := cache - {e.removed[i].outpoint};
    }
    assert e.removed[..|e.removed|] == e.removed;
    ghost var kept := cache;
    for i := 0 to |e.added|
      invariant forall o :: o in cache <==> o in kept || Mentions(e.added[..i], o)
      invariant forall o :: o in cache ==>
        cache[o] == if Mentions(e.added[..i], o) then CachedLeaf(e.height, PositionIn(e.added[..i], o)) else kept[o]
    {
      MentionsMore(e.added, i);
      assert e.added[..i + 1][..i] == e.added[..i];
      cache := cache[e.added[i].outpoint := CachedLeaf(e.height, e.added[i].position)];
    }
    assert e.added[..|e.added|] == e.added;
    var oldest := if e.height >= LEAF_CACHE_BLOCKS - 1 then e.height - (LEAF_CACHE_BLOCKS - 1) else 0;
    r := map o | o in cache && cache[o].height >= oldest :: cache[o];
  }

  lemma {:induction false} ConsistentSizes(s: ProverState, forest: ForestState)
    requires Consistent(s, forest)
    ensures |s.epochs| == |s.journal| + 1 && |s.pending| <= |s.journal| && |s.pending| == s.submitted + |s.window|
    ensures |s.window| <= PUBLICATION_BLOCKS && s.submitted <= PUBLICATION_BLOCKS
    ensures s.inflight.Some? <==> s.submitted > 0
    ensures forest.Valid() && |s.epochs[|s.journal|].leaves| == s.leaves <= Pow2(forest.rows)
    ensures CacheAgrees(s.leafData, s.epochs[|s.journal|]) && Represents(s.epochs[|s.journal|])
            && s.epochs[|s.journal|].tip == s.tip
    ensures s.submitted == 0 ==> s.pending == s.window
  {
    hide Represents, Extends, CacheAgrees, Pow2;
  }

  lemma {:induction false} WindowReady(s: ProverState, forest: ForestState)
    requires Consistent(s, forest) && s.inflight.Some? && !s.inflight.value.applied
    ensures forest.Valid() && Extending(s.durableHeight, s.durableTip, s.inflight.value.blocks)
    ensures forall i :: 0 <= i < |s.inflight.value.blocks| ==>
              && WellFormed(s.inflight.value.blocks[i]) && EntryForestSorted(s.inflight.value.blocks[i])
              && s.inflight.value.blocks[i].forestRows == Some(forest.rows)
  {
    hide Linked, WellFormed, EntryForestSorted, CacheAgrees, Pow2, Fits, Extending;
    var first, blocks := |s.journal| - |s.pending|, s.inflight.value.blocks;
    assert blocks == s.journal[first..first + |blocks|];
    LinkedSizes(s.epochs, s.journal, s.baseHeight);
    CheckExtends(blocks, s.epochs, s.journal, s.baseHeight, first);
    StretchFits(s.epochs, s.journal, s.baseHeight, first, forest.rows, blocks);
  }

  lemma {:induction false} WindowConsistent(s: ProverState, s': ProverState, forest: ForestState, forest': ForestState)
    requires Consistent(s, forest) && s.inflight.Some? && !s.inflight.value.applied
    requires var blocks := s.inflight.value.blocks;
             && (forall i :: 0 <= i < |blocks| ==> WellFormed(blocks[i]))
             && forest'.Valid() && forest'.rows == forest.rows
                  && (forall k :: forest'.Read(k) == RedoEntries(forest.Read(k), blocks, k))
             && s' == s.(durableHeight := LastOf(s.durableHeight, s.durableTip, blocks).0,
                         durableTip := LastOf(s.durableHeight, s.durableTip, blocks).1,
                             inflight := Some(Inflight(blocks, true)))
    ensures Consistent(s', forest')
  {
    hide Linked, WellFormed, CacheAgrees, Pow2, Fits, StoredAt, RedoEntries, LastOf;
    var first, blocks := |s.journal| - |s.pending|, s.inflight.value.blocks;
    assert blocks == s.journal[first..first + |blocks|];
    LinkedSizes(s.epochs, s.journal, s.baseHeight);
    CheckExtends(blocks, s.epochs, s.journal, s.baseHeight, first);
    WindowStored(forest, forest', s.epochs, s.journal, s.baseHeight, first, first + |blocks|, blocks);
  }

  lemma {:induction false} PruneConsistent(s: ProverState, forest: ForestState, count: nat)
    requires Consistent(s, forest) && |s.epochs| == |s.journal| + 1 && |s.pending| <= |s.journal|
             && count <= |s.journal| - |s.pending|
    ensures Consistent(s.(journal := s.journal[count..], epochs := s.epochs[count..],
            baseHeight := s.baseHeight + count), forest)
  {
    hide Linked, StoredAt, Fits, CacheAgrees, Queues;
    QueueSizes(s.journal, s.pending, s.window, s.submitted, s.inflight);
    LinkedSuffix(s.epochs, s.journal, s.baseHeight, count);
    FitsSuffix(s.journal, s.epochs, |s.journal| - |s.pending|, forest.rows, count);
    QueuesSuffix(s.journal, s.pending, s.window, s.submitted, s.inflight, count);
  }

  lemma {:induction false} RetireConsistent(s: ProverState, forest: ForestState)
    requires Consistent(s, forest) && s.inflight.Some? && s.inflight.value.applied
    ensures s.submitted == |s.inflight.value.blocks| <= |s.pending| && HeightsAscend(s.pending)
            && s.pending[s.submitted..] == s.window
    ensures Consistent(s.(pending := s.pending[s.submitted..], submitted := 0, inflight := None), forest)
  {
    hide Linked, StoredAt, Fits, CacheAgrees;
    LinkedSizes(s.epochs, s.journal, s.baseHeight);
    StretchAscends(s.epochs, s.journal, s.baseHeight, |s.journal| - |s.pending|, |s.journal|);
    assert s.pending == s.journal[|s.journal| - |s.pending|..|s.journal|];
    FitsLater(s.journal, s.epochs, |s.journal| - |s.pending|, |s.journal| - |s.window|, forest.rows);
    assert s.journal[|s.journal| - |s.window|..] == s.window;
  }

  lemma {:induction false} SubmitConsistent(s: ProverState, forest: ForestState)
    requires Consistent(s, forest) && s.submitted == 0 && s.window != []
    ensures Consistent(s.(window := [], submitted := |s.window|, inflight := Some(Inflight(s.window, false))), forest)
  {
    hide Linked, StoredAt, Fits, CacheAgrees;
  }

  /** Dropping the unpublished window leads back to the durable state. */
  lemma {:induction false} DiscardConsistent(s: ProverState, forest: ForestState)
    requires Consistent(s, forest) && s.submitted == 0
    ensures |s.window| <= |s.journal| && |s.epochs| == |s.journal| + 1 && s.height >= |s.window|
            && s.durableHeight == s.height - |s.window|
    ensures Consistent(s.(journal := s.journal[..|s.journal| - |s.window|],
            epochs := s.epochs[..|s.epochs| - |s.window|],
                          window := [], pending := [], leafData := map[],
                          leaves := forest.leaves, height := s.durableHeight, tip := s.durableTip), forest)
  {
    hide Linked, StoredAt, Fits, CacheAgrees;
    var keep := |s.journal| - |s.window|;
    LinkedSizes(s.epochs, s.journal, s.baseHeight);
    LinkedPrefix(s.epochs, s.journal, s.baseHeight, keep);
    FitsPrefix(s.journal, s.epochs, keep, forest.rows, keep);
    EmptyCache(s.epochs[keep]);
    LinkedRepresents(s.epochs, s.journal, s.baseHeight, keep);
    StoredCount(forest, s.epochs[keep]);
  }

  lemma {:induction false} EmptyOverlaid(overlay: ForestOverlay)
    requires overlay.Valid() && (forall p :: overlay.NodeLayer(p) == None) && forall o :: overlay.IndexLayer(o) == None
    ensures Overlaid(overlay, [])
  {
  }

  lemma {:induction false} EnqueueConsistent(s: ProverState, s': ProverState, forest: ForestState, e: JournalEntry,
                                             next: Epoch)
    requires Consistent(s, forest) && |s.window| < PUBLICATION_BLOCKS
    requires e.forestRows == Some(forest.rows) && e.height == s.height + 1
             && e.numLeaves == |next.leaves| <= Pow2(forest.rows)
    requires |s.epochs| == |s.journal| + 1 && Represents(next) && Extends(s.epochs[|s.journal|], e, next)
             && CacheAgrees(s'.leafData, next)
    requires s' == s.(journal := s.journal + [e], pending := s.pending + [e], window := s.window + [e],
             epochs := s.epochs + [next],
                      leafData := s'.leafData, leaves := e.numLeaves, height := e.height, tip := e.blockHash)
    ensures Consistent(s', forest)
  {
    hide Linked, StoredAt, Fits, CacheAgrees, Queues, Pow2, Represents, Extends;
    LinkedMore(s.epochs, s.journal, s.baseHeight, e, next);
    QueueSizes(s.journal, s.pending, s.window, s.submitted, s.inflight);
    QueuesMore(s.journal, s.pending, s.window, s.submitted, s.inflight, e);
    FitsMore(s.journal, s.epochs, |s.journal| - |s.pending|, forest.rows, e, next);
    ExtendsTip(s.epochs[|s.journal|], e, next);
  }

  lemma {:induction false} CacheExtends(leafData: map<OutPoint, CachedLeaf>, after: map<OutPoint, CachedLeaf>,
                                        e: Epoch, entry: JournalEntry, next: Epoch)
    requires CacheAgrees(leafData, e) && Extends(e, entry, next) && |e.leaves| <= |next.leaves|
    requires forall i :: 0 <= i < |entry.added| ==> entry.added[i].position < |next.leaves|
    requires forall o :: o in after ==> Some(after[o]) == CachedAfter(leafData, entry, o)
    ensures CacheAgrees(after, next)
  {
    hide LastPosition, FirstBefore, LastAfter, Position, Pow2;
    forall o | o in after
      ensures next.read(LeafOf(o)) == PositionVal(Some(after[o].position)) && after[o].position < |next.leaves|
    {
      LastPositionExists(entry.removed, o);
      LastPositionExists(entry.added, o);
      assert next.read(LeafOf(o)) == Redo(e.read(LeafOf(o)), TouchOf(entry, LeafOf(o)));
    }
  }

  lemma {:induction false} QueuesMore(journal: seq<JournalEntry>, pending: seq<JournalEntry>, window: seq<JournalEntry>,
                   submitted: nat, inflight: Option<Inflight>, e: JournalEntry)
    requires Queues(journal, pending, window, submitted, inflight) && |window| < PUBLICATION_BLOCKS
    ensures Queues(journal + [e], pending + [e], window + [e], submitted, inflight)
  {
    var n := |journal| - |pending|;
    assert (journal + [e])[n..] == journal[n..] + [e];
    assert (pending + [e])[submitted..] == pending[submitted..] + [e];
    assert (pending + [e])[..submitted] == pending[..submitted];
  }

  lemma {:induction false} FitsMore(journal: seq<JournalEntry>, epochs: seq<Epoch>, first: nat, rows: nat,
                                    e: JournalEntry, next: Epoch)
    requires Fits(journal, epochs, first, rows) && e.forestRows == Some(rows) && |next.leaves| <= Pow2(rows)
    ensures Fits(journal + [e], epochs + [next], first, rows)
  {
    hide Pow2;
  }

  lemma {:induction false} FitsPrefix(journal: seq<JournalEntry>, epochs: seq<Epoch>, first: nat, rows: nat, n: nat)
    requires Fits(journal, epochs, first, rows) && n < |epochs| && n <= |journal|
    ensures Fits(journal[..n], epochs[..n + 1], n, rows)
  {
    hide Pow2;
  }

  lemma {:induction false} OverlaidMore(pending: seq<JournalEntry>, e: JournalEntry)
    ensures forall p :: LastNode(pending + [e], p) == NodePushed(LastNode(pending, p), e.forest, e.height, p)
    ensures forall o ::
              LastIndex(pending + [e], o) == IndexPushed(LastIndex(pending, o), e.removed, e.added, e.height, o)
  {
    hide NodePushed, IndexPushed;
    assert (pending + [e])[..|pending|] == pending;
  }

  lemma {:induction false} ExtendsTip(before: Epoch, e: JournalEntry, after: Epoch)
    requires Extends(before, e, after)
    ensures e.blockHash == after.tip && e.previousBlockHash == before.tip
  {
  }

  lemma {:induction false} LinkedRepresents(epochs: seq<Epoch>, chain: seq<JournalEntry>, baseHeight: nat, i: nat)
    requires Linked(epochs, chain, baseHeight) && i <= |chain|
    ensures Represents(epochs[i])
  {
  }

  lemma {:induction false} StoredCount(s: ForestState, e: Epoch)
    requires StoredAt(s, e) && Represents(e)
    ensures s.leaves == |e.leaves|
  {
    assert s.Read(LeafCount) == e.read(LeafCount);
  }

  lemma {:induction false} RollbackReady(s: ProverState, forest: ForestState)
    requires Consistent(s, forest) && s.journal != []
    ensures forest.Valid() && WellFormed(s.journal[|s.journal| - 1])
            && s.journal[|s.journal| - 1].forestRows.value <= forest.rows
    ensures s.journal[|s.journal| - 1].height > 0
  {
    hide Represents, WellFormed, TouchOf, StartsAt, Queues, CacheAgrees;
    var n := |s.journal| - 1;
    assert Extends(s.epochs[n], s.journal[n], s.epochs[n + 1]);
  }

  /** Undoing the durable tip with nothing pending. */
  lemma {:induction false} RollbackConsistent(s: ProverState, forest: ForestState, forest': ForestState)
    requires Consistent(s, forest) && s.pending == [] && s.journal != []
    requires forest'.Valid() && forest'.rows == forest.rows && WellFormed(s.journal[|s.journal| - 1])
    requires forall k :: forest'.Read(k) == Undo(forest.Read(k), TouchOf(s.journal[|s.journal| - 1], k))
    ensures |s.epochs| == |s.journal| + 1
    ensures var e := s.journal[|s.journal| - 1];
            && e.height > 0 && s.height == e.height && Represents(s.epochs[|s.journal| - 1])
            && Consistent(s.(journal := s.journal[..|s.journal| - 1], epochs := s.epochs[..|s.journal|],
                 leafData := map[],
                             durableHeight := e.height - 1, durableTip := e.previousBlockHash,
                             leaves := forest'.leaves, height := e.height - 1, tip := e.previousBlockHash), forest')
  {
    hide Represents, WellFormed, TouchOf, StoredAt, CacheAgrees, Fits;
    var n := |s.journal| - 1;
    QueueSizes(s.journal, s.pending, s.window, s.submitted, s.inflight);
    RolledBack(forest, forest', s.epochs, s.journal, s.baseHeight);
    assert Extends(s.epochs[n], s.journal[n], s.epochs[n + 1]);
    LinkedPrefix(s.epochs, s.journal, s.baseHeight, n);
    FitsPrefix(s.journal, s.epochs, n + 1, forest.rows, n);
    EmptyCache(s.epochs[n]);
    StoredCount(forest', s.epochs[n]);
  }

  /** Undoing the last block of the chain stores the state before it. */
  lemma {:induction false} RolledBack(s: ForestState, t: ForestState, epochs: seq<Epoch>, chain: seq<JournalEntry>,
                                      baseHeight: nat)
    requires Linked(epochs, chain, baseHeight) && chain != [] && StoredAt(s, epochs[|chain|]) && t.Valid()
    requires WellFormed(chain[|chain| - 1]) && forall k :: t.Read(k) == Undo(s.Read(k), TouchOf(chain[|chain| - 1], k))
    ensures StoredAt(t, epochs[|chain| - 1])
  {
    hide Represents, WellFormed, TouchOf;
    var n := |chain| - 1;
    assert Extends(epochs[n], chain[n], epochs[n + 1]);
    forall k
      ensures t.Read(k) == epochs[n].read(k)
    {
      UndoRedo(chain[n], k, epochs[n].read(k));
      assert s.Read(k) == epochs[n + 1].read(k);
    }
  }

  lemma {:induction false} QueueSizes(journal: seq<JournalEntry>, pending: seq<JournalEntry>, window: seq<JournalEntry>,
                   submitted: nat, inflight: Option<Inflight>)
    requires Queues(journal, pending, window, submitted, inflight)
    ensures |pending| <= |journal| && |pending| == submitted + |window|
    ensures submitted <= PUBLICATION_BLOCKS && |window| <= PUBLICATION_BLOCKS && |pending| <= MAX_PENDING_BLOCKS
    ensures inflight.Some? <==> submitted > 0
  {
  }

  lemma {:induction false} QueuesSuffix(journal: seq<JournalEntry>, pending: seq<JournalEntry>,
                                        window: seq<JournalEntry>,
                     submitted: nat, inflight: Option<Inflight>, count: nat)
    requires Queues(journal, pending, window, submitted, inflight) && count <= |journal| - |pending|
    ensures Queues(journal[count..], pending, window, submitted, inflight)
  {
    assert journal[count..][|journal| - count - |pending|..] == journal[|journal| - |pending|..];
  }

  lemma {:induction false} FitsSuffix(journal: seq<JournalEntry>, epochs: seq<Epoch>, first: nat, rows: nat, count: nat)
    requires Fits(journal, epochs, first, rows) && count <= first <= |journal| < |epochs|
    ensures Fits(journal[count..], epochs[count..], first - count, rows)
  {
  }

  /** Each block extends the one before, starting from the tip. */
  predicate Extending(height: nat, tip: Hash, blocks: seq<JournalEntry>) {
    && (forall i :: 0 <= i < |blocks| ==> blocks[i].height == height + i + 1)
    && forall i :: 0 <= i < |blocks| ==> blocks[i].previousBlockHash == if i == 0 then tip else blocks[i - 1].blockHash
  }

  function LastOf(height: nat, tip: Hash, blocks: seq<JournalEntry>): (nat, Hash) {
    if blocks == [] then (height, tip) else (blocks[|blocks| - 1].height, blocks[|blocks| - 1].blockHash)
  }

  lemma {:induction false} CheckExtends(blocks: seq<JournalEntry>, epochs: seq<Epoch>, chain: seq<JournalEntry>,
                                        baseHeight: nat, first: nat)
    requires Linked(epochs, chain, baseHeight) && first + |blocks| <= |chain|
             && blocks == chain[first..first + |blocks|]
    ensures Extending(baseHeight + first, epochs[first].tip, blocks)
    ensures LastOf(baseHeight + first, epochs[first].tip, blocks)
            == (baseHeight + first + |blocks|, epochs[first + |blocks|].tip)
  {
    hide Represents, WellFormed, TouchOf, StartsAt, EntryForestSorted;
    forall i | 0 <= i < |blocks|
      ensures blocks[i].previousBlockHash == epochs[first + i].tip && blocks[i].blockHash == epochs[first + i + 1].tip
    {
      assert Extends(epochs[first + i], chain[first + i], epochs[first + i + 1]);
    }
  }

  /** Applying a stretch of the chain to its first state stores its last. */
  lemma {:induction false} WindowStored(s: ForestState, t: ForestState, epochs: seq<Epoch>, chain: seq<JournalEntry>,
                                        baseHeight: nat,
                     a: nat, b: nat, blocks: seq<JournalEntry>)
    requires Linked(epochs, chain, baseHeight) && a <= b <= |chain| && StoredAt(s, epochs[a]) && t.Valid()
    requires blocks == chain[a..b] && forall i :: 0 <= i < |blocks| ==> WellFormed(blocks[i])
    requires forall k :: t.Read(k) == RedoEntries(s.Read(k), blocks, k)
    ensures StoredAt(t, epochs[b])
  {
    hide Linked, WellFormed, RedoEntries;
    LinkedSizes(epochs, chain, baseHeight);
    forall k
      ensures t.Read(k) == epochs[b].read(k)
    {
      assert s.Read(k) == epochs[a].read(k);
      RedoStretch(epochs, chain, baseHeight, a, b, k);
    }
  }

  lemma {:induction false} StretchFits(epochs: seq<Epoch>, chain: seq<JournalEntry>, baseHeight: nat, a: nat,
                                       rows: nat, blocks: seq<JournalEntry>)
    requires Linked(epochs, chain, baseHeight) && a + |blocks| <= |chain| && Fits(chain, epochs, a, rows)
    requires blocks == chain[a..a + |blocks|]
    ensures forall i :: 0 <= i < |blocks| ==>
              WellFormed(blocks[i]) && EntryForestSorted(blocks[i]) && blocks[i].forestRows == Some(rows)
  {
    hide Represents, WellFormed, TouchOf, StartsAt, EntryForestSorted;
    forall i | 0 <= i < |blocks|
      ensures WellFormed(blocks[i]) && EntryForestSorted(blocks[i]) && blocks[i].forestRows == Some(rows)
    {
      assert Extends(epochs[a + i], chain[a + i], epochs[a + i + 1]);
    }
  }

  method PushBlock(overlay: ForestOverlay, pending: seq<JournalEntry>, e: JournalEntry)
    requires Overlaid(overlay, pending)
    modifies overlay
    ensures Overlaid(overlay, pending + [e])
  {
    hide NodePushed, IndexPushed, LastNode, LastIndex;
    OverlaidMore(pending, e);
    overlay.Push(e);
  }

  /** Retiring the submitted blocks oldest first leaves the overlay of the others. */
  method RetireBlocks(overlay: ForestOverlay, pending: seq<JournalEntry>, count: nat)
    requires count <= |pending| && HeightsAscend(pending) && Overlaid(overlay, pending)
    modifies overlay
    ensures Overlaid(overlay, pending[count..])
  {
    hide LastNode, LastIndex, NodePushed, IndexPushed;
    assert pending[0..] == pending;
    for i := 0 to count
      invariant Overlaid(overlay, pending[i..])
    {
      var rest := pending[i..];
      assert rest[1..] == pending[i + 1..];
      overlay.Retire(rest[0]);
      forall p
        ensures overlay.NodeLayer(p) == LastNode(rest[1..], p)
      {
        RetireFirstNode(rest, p);
      }
      forall o
        ensures overlay.IndexLayer(o) == LastIndex(rest[1..], o)
      {
        RetireFirstIndex(rest, o);
      }
    }
  }

  lemma {:induction false} FitsLater(journal: seq<JournalEntry>, epochs: seq<Epoch>, first: nat, later: nat, rows: nat)
    requires Fits(journal, epochs, first, rows) && first <= later
    ensures Fits(journal, epochs, later, rows)
  {
  }

  lemma {:induction false} WindowIsPending(journal: seq<JournalEntry>, pending: seq<JournalEntry>,
                                           window: seq<JournalEntry>, inflight: Option<Inflight>)
    requires Queues(journal, pending, window, 0, inflight)
    ensures pending == window
  {
  }

  lemma {:induction false} NothingOverlaid(overlay: ForestOverlay)
    requires Overlaid(overlay, [])
    ensures overlay.nodes == map[] && overlay.positions == map[]
  {
    forall p
      ensures p !in overlay.nodes
    {
      assert overlay.NodeLayer(p) == None;
    }
    forall o
      ensures o !in overlay.positions
    {
      assert overlay.IndexLayer(o) == None;
    }
  }

  lemma {:induction false} StoredSame(s: ForestState, t: ForestState, e: Epoch)
    requires StoredAt(s, e) && t.Valid() && forall k :: t.Read(k) == s.Read(k)
    ensures StoredAt(t, e)
  {
  }

  lemma {:induction false} EmptyCache(e: Epoch)
    ensures CacheAgrees(map[], e)
  {
  }

  lemma {:induction false} CurrentRepresents(epochs: seq<Epoch>, chain: seq<JournalEntry>, baseHeight: nat)
    requires Linked(epochs, chain, baseHeight)
    ensures |epochs| > 0 && Represents(epochs[|epochs| - 1])
  {
  }

  lemma {:induction false} StoredIsForest(s: ForestState, e: Epoch)
    requires StoredAt(s, e) && Represents(e) && |e.leaves| <= Pow2(s.rows)
    ensures Blocks.Holds(s, e.leaves)
  {
    hide Position, Pow2, At, Cell;
    forall p | 0 <= p < |s.cells|
      ensures s.cells[p] == Cell(e.leaves, At(p, s.rows))
    {
      PositionAt(p, s.rows);
      assert s.Read(CellAt(At(p, s.rows))) == e.read(CellAt(At(p, s.rows)));
    }
    assert s.Read(LeafCount) == e.read(LeafCount);
  }
}
