/**
 The producer and the worker interleaved.

 The class `FlatFileProver` lets the worker move only where the producer waits for it. Here both
 threads take small steps in any order: the worker may make its window durable, and prune, between
 any two lookups of a block, between the lookups and the plan, or between the plan and the queue.
 What the producer sees never changes under it, and a block is queued against the state it was
 planned for.
 */
module Threads {
  import opened Bits
  import opened Wrappers
  import opened Coordinates
  import opened Forest
  import opened Entry
  import opened Ledger
  import opened Planner
  import opened Steady
  import opened Overlay
  import opened Pipeline
  import Blocks

  /** The overlay as a value. */
  datatype Layers = Layers(nodes: map<nat, NodeState>, heights: map<nat, nat>, positions: map<OutPoint,
                           (nat, Option<nat>)>) {
    predicate Valid() {
      nodes.Keys == heights.Keys
    }

    function NodeLayer(p: nat): Option<(nat, NodeState)>
      requires Valid()
    {
      if p in nodes then Some((heights[p], nodes[p])) else None
    }

    function IndexLayer(o: OutPoint): Option<(nat, Option<nat>)> {
      if o in positions then Some(positions[o]) else None
    }
  }

  datatype Block = Block(hash: Hash, spends: seq<OutPoint>, additions: seq<(OutPoint, Hash)>)

  /** What the producer is doing with a block. */
  datatype Work = Between | Looking(block: Block, found: seq<(OutPoint, nat)>) | Planned(block: Block,
                                    entry: JournalEntry)

  datatype Threads = Threads(s: ProverState, forest: ForestState, layers: Layers, work: Work) {
    /** The state after the last queued block. */
    ghost function Current(): Epoch
      requires |s.epochs| > 0
    {
      s.epochs[|s.epochs| - 1]
    }

    /** What the producer reads. */
    function Seen(): ForestState {
      SeenState(forest, layers.nodes, layers.positions, s.leaves)
    }
  }

  // ----- Steps of the producer -----

  /** A block is taken up: it builds on the tip, the file has room for it, what it creates is new. */
  ghost predicate Begins(t: Threads, t': Threads, b: Block) {
    && t.work == Between && |t.s.window| < PUBLICATION_BLOCKS && |t.s.epochs| > 0 && Fresh(t.Current(), b)
    && t.s.leaves + |b.additions| <= Pow2(t.forest.rows) && t' == t.(work := Looking(b, []))
  }

  ghost predicate Fresh(e: Epoch, b: Block) {
    forall i :: 0 <= i < |b.additions| ==>
          e.read(LeafOf(b.additions[i].0)) == PositionVal(None) || b.additions[i].0 in b.spends
  }

  /** The recent-leaf cache, else the overlaid leaf map. */
  function Located(t: Threads, o: OutPoint): Option<nat> {
    if o in t.s.leafData then Some(t.s.leafData[o].position)
    else match SeenIndex(t.forest.leafMap, t.layers.positions, o)
      case Some(p) => if p < t.s.leaves then Some(p) else None
      case None => None
  }

  ghost predicate LooksUp(t: Threads, t': Threads) {
    && t.work.Looking? && |t.work.found| < |t.work.block.spends|
    && var o := t.work.block.spends[|t.work.found|];
    && t' == t.(work := match Located(t, o)
                        case Some(p) => Looking(t.work.block, t.work.found + [(o, p)])
                        case None => Between)
  }

  ghost predicate Plans(t: Threads, t': Threads, e: JournalEntry) {
    && t.work.Looking? && |t.work.found| == |t.work.block.spends| && |t.s.epochs| > 0
    && PlanOf(e, t.Seen().cells, t.forest.rows, t.Current().leaves, t.work.found, t.work.block.additions)
    && e.height == t.s.height + 1 && e.blockHash == t.work.block.hash && e.previousBlockHash == t.s.tip
    && t' == t.(work := Planned(t.work.block, e))
  }

  ghost predicate Pushed(l: Layers, l': Layers, e: JournalEntry) {
    && l.Valid() && l'.Valid()
    && (forall p :: l'.NodeLayer(p) == NodePushed(l.NodeLayer(p), e.forest, e.height, p))
    && forall o :: l'.IndexLayer(o) == IndexPushed(l.IndexLayer(o), e.removed, e.added, e.height, o)
  }

  ghost predicate Enqueues(t: Threads, t': Threads) {
    && t.work.Planned? && |t.s.epochs| > 0
    && var e := t.work.entry;
    && Pushed(t.layers, t'.layers, e)
    && (forall o :: o in t'.s.leafData ==> Some(t'.s.leafData[o]) == CachedAfter(t.s.leafData, e, o))
    && t' == t.(layers := t'.layers, work := Between,
                s := t.s.(journal := t.s.journal + [e], pending := t.s.pending + [e], window := t.s.window + [e],
                          epochs := t.s.epochs + [NextEpoch(t.Current(), e, DeletionsOf(e), t.work.block.additions)],
                          leafData := t'.s.leafData, leaves := e.numLeaves, height := e.height, tip := e.blockHash))
  }

  /** A window goes to the worker once it has answered for the last one. */
  ghost predicate Submits(t: Threads, t': Threads) {
    && t.s.submitted == 0 && t.s.window != []
    && t' == t.(s := t.s.(window := [], submitted := |t.s.window|, inflight := Some(Inflight(t.s.window, false))))
  }

  ghost predicate RetiresOne(l: Layers, l': Layers, e: JournalEntry) {
    && l.Valid() && l'.Valid()
    && (forall p :: l'.NodeLayer(p) == Retired(l.NodeLayer(p), LastAfter(e.forest, p).Some?, e.height))
    && forall o :: l'.IndexLayer(o)
         == Retired(l.IndexLayer(o), Mentions(e.removed, o) || Mentions(e.added, o), e.height)
  }

  /** The answered blocks leave the queue, and the overlay block by block. */
  ghost predicate Retires(t: Threads, t': Threads, ls: seq<Layers>) {
    && t.s.inflight.Some? && t.s.inflight.value.applied && t.s.submitted <= |t.s.pending|
    && |ls| == t.s.submitted + 1 && ls[0] == t.layers
    && (forall i :: 0 <= i < t.s.submitted ==> RetiresOne(ls[i], ls[i + 1], t.s.pending[i]))
    && t' == t.(layers := ls[t.s.submitted],
         s := t.s.(pending := t.s.pending[t.s.submitted..], submitted := 0, inflight := None))
  }

  /** The file grows between blocks with nothing pending. */
  ghost predicate Grows(t: Threads, t': Threads) {
    && t.work == Between && t.s.pending == [] && t.forest.Valid()
    && t'.forest.Valid() && t'.forest.rows >= t.forest.rows && (forall k :: t'.forest.Read(k) == t.forest.Read(k))
    && t' == t.(forest := t'.forest)
  }

  /** Nothing is overlaid any more. */
  const NOTHING: Layers := Layers(map[], map[], map[])

  ghost predicate Discards(t: Threads, t': Threads) {
    && t.work == Between && t.s.submitted == 0 && |t.s.window| <= |t.s.journal| && |t.s.window| <= |t.s.epochs|
    && t' == t.(layers := NOTHING,
                s := t.s.(journal := t.s.journal[..|t.s.journal| - |t.s.window|],
                    epochs := t.s.epochs[..|t.s.epochs| - |t.s.window|],
                          window := [], pending := [], leafData := map[],
                          leaves := t.forest.leaves, height := t.s.durableHeight, tip := t.s.durableTip))
  }

  ghost predicate RollsBack(t: Threads, t': Threads) {
    && t.work == Between && t.s.pending == [] && t.s.journal != [] && |t.s.epochs| == |t.s.journal| + 1
    && var e := t.s.journal[|t.s.journal| - 1];
    && t.forest.Valid() && t'.forest.Valid() && t'.forest.rows == t.forest.rows && WellFormed(e) && e.height > 0
    && (forall k :: t'.forest.Read(k) == Undo(t.forest.Read(k), TouchOf(e, k)))
    && t' == t.(forest := t'.forest,
                s := t.s.(journal := t.s.journal[..|t.s.journal| - 1], epochs := t.s.epochs[..|t.s.journal|],
                    leafData := map[],
                          durableHeight := e.height - 1, durableTip := e.previousBlockHash,
                          leaves := t'.forest.leaves, height := e.height - 1, tip := e.previousBlockHash))
  }

  // ----- Steps of the worker -----

  ghost predicate Applies(t: Threads, t': Threads) {
    && t.s.inflight.Some? && !t.s.inflight.value.applied
    && var blocks := t.s.inflight.value.blocks;
    && (forall i :: 0 <= i < |blocks| ==> WellFormed(blocks[i]))
    && t.forest.Valid() && t'.forest.Valid() && t'.forest.rows == t.forest.rows
    && (forall k :: t'.forest.Read(k) == RedoEntries(t.forest.Read(k), blocks, k))
    && t' == t.(forest := t'.forest,
                s := t.s.(durableHeight := LastOf(t.s.durableHeight, t.s.durableTip, blocks).0,
                          durableTip := LastOf(t.s.durableHeight, t.s.durableTip, blocks).1,
                              inflight := Some(Inflight(blocks, true))))
  }

  /** Behind an applied window all but the newest 144 durable records are dropped. */
  ghost predicate Prunes(t: Threads, t': Threads, count: nat) {
    && t.s.inflight.Some? && t.s.inflight.value.applied && |t.s.epochs| == |t.s.journal| + 1
    && var durable := |t.s.journal| - |t.s.pending| + t.s.submitted;
    && count == (if durable > RETAINED_BLOCKS then durable - RETAINED_BLOCKS else 0) && count <= |t.s.journal|
    && t' == t.(s := t.s.(journal := t.s.journal[count..], epochs := t.s.epochs[count..],
         baseHeight := t.s.baseHeight + count))
  }

  ghost predicate WorkerStep(t: Threads, t': Threads) {
    Applies(t, t') || exists count :: Prunes(t, t', count)
  }

  ghost predicate ProducerStep(t: Threads, t': Threads) {
    || (exists b :: Begins(t, t', b))
    || LooksUp(t, t')
    || (exists e :: Plans(t, t', e))
    || Enqueues(t, t')
    || Submits(t, t')
    || (exists ls :: Retires(t, t', ls))
    || Grows(t, t')
    || Discards(t, t')
    || RollsBack(t, t')
  }

  // ----- The invariant -----

  ghost predicate Layered(l: Layers, pending: seq<JournalEntry>) {
    && l.Valid()
    && (forall p :: l.NodeLayer(p) == LastNode(pending, p))
    && forall o :: l.IndexLayer(o) == LastIndex(pending, o)
  }

  /** What the producer found so far is so in the current state. */
  ghost predicate FoundIn(e: Epoch, leaves: nat, b: Block, found: seq<(OutPoint, nat)>) {
    && |found| <= |b.spends|
    && forall i :: 0 <= i < |found| ==>
         found[i].0 == b.spends[i] && found[i].1 < leaves
             && e.read(LeafOf(b.spends[i])) == PositionVal(Some(found[i].1))
  }

  /** The planned entry leads from the current state to the next. */
  ghost predicate LeadsOn(current: Epoch, height: nat, rows: nat, b: Block, e: JournalEntry) {
    var next := NextEpoch(current, e, DeletionsOf(e), b.additions);
    && Represents(next) && Extends(current, e, next) && Proved(current, e, next, b.hash, b.spends, b.additions)
    && e.forestRows == Some(rows) && e.height == height + 1 && e.numLeaves == |next.leaves| <= Pow2(rows)
    && |next.leaves| >= |current.leaves| && forall i :: 0 <= i < |e.added| ==> e.added[i].position < |next.leaves|
  }

  ghost predicate WorkInv(work: Work, current: Epoch, s: ProverState, rows: nat) {
    match work
    case Between => true
    case Looking(b, found) =>
      |s.window| < PUBLICATION_BLOCKS && Fresh(current, b) && s.leaves + |b.additions| <= Pow2(rows)
          && FoundIn(current, s.leaves, b, found)
    case Planned(b, e) => |s.window| < PUBLICATION_BLOCKS && LeadsOn(current, s.height, rows, b, e)
  }

  ghost predicate Inv(t: Threads) {
    && Consistent(t.s, t.forest) && |t.s.epochs| == |t.s.journal| + 1 && Layered(t.layers, t.s.pending)
    && WorkInv(t.work, t.Current(), t.s, t.forest.rows)
  }

  /**
   In every state of every run the durable forest, seen through the overlay, is the state after the
   last queued block.
   */
  lemma {:induction false} SeenIsCurrentState(t: Threads)
    requires Inv(t)
    ensures StoredAt(t.Seen(), t.Current()) && Blocks.Holds(t.Seen(), t.Current().leaves)
  {
    hide Consistent, SeenState, LastNode, LastIndex, WorkInv;
    assert Shows(t.layers.nodes, t.layers.positions, t.s.pending) by {
      assert forall p :: t.layers.NodeLayer(p) == LastNode(t.s.pending, p);
      assert forall o :: t.layers.IndexLayer(o) == LastIndex(t.s.pending, o);
    }
    SeenIsCurrent(t.s, t.forest, t.layers.nodes, t.layers.positions);
  }

  /** Where a step leaves the current state, the height and the file's height alone, the producer's work stays good. */
  lemma {:induction false} WorkKept(t: Threads, t': Threads)
    requires Inv(t) && |t'.s.epochs| > 0 && t'.work == t.work && t'.Current() == t.Current()
    requires t'.s.leaves == t.s.leaves && t'.s.height == t.s.height && t'.forest.rows == t.forest.rows
             && |t'.s.window| <= |t.s.window|
    ensures WorkInv(t'.work, t'.Current(), t'.s, t'.forest.rows)
  {
    hide Consistent, Layered, LeadsOn, Fresh, FoundIn, Pow2;
  }

  lemma {:induction false} AppliesKeeps(t: Threads, t': Threads)
    requires Inv(t) && Applies(t, t')
    ensures Inv(t')
  {
    hide Consistent, Layered, WorkInv, RedoEntries, WellFormed;
    WindowConsistent(t.s, t'.s, t.forest, t'.forest);
    WorkKept(t, t');
  }

  lemma {:induction false} PrunesKeeps(t: Threads, t': Threads, count: nat)
    requires Inv(t) && Prunes(t, t', count)
    ensures Inv(t') && t'.Current() == t.Current() && KeptNewest(t.s.journal, t'.s.journal, |t.s.window|)
  {
    hide Consistent, Layered, WorkInv;
    ConsistentSizes(t.s, t.forest);
    PruneConsistent(t.s, t.forest, count);
    WorkKept(t, t');
  }

  /** The worker's steps change nothing the producer can see. */
  lemma {:induction false} WorkerUnseen(t: Threads, t': Threads)
    requires Inv(t) && WorkerStep(t, t')
    ensures Inv(t') && t'.Current() == t.Current() && t'.work == t.work
    ensures t.Seen().Valid() && t'.Seen().Valid() && forall k :: t'.Seen().Read(k) == t.Seen().Read(k)
  {
    hide Consistent, Layered, WorkInv, SeenState, RedoEntries, WellFormed;
    if Applies(t, t') {
      AppliesKeeps(t, t');
    } else {
      var count :| Prunes(t, t', count);
      PrunesKeeps(t, t', count);
    }
    SeenIsCurrentState(t);
    SeenIsCurrentState(t');
  }

  // ----- The producer keeps the invariant -----

  lemma {:induction false} BeginsKeeps(t: Threads, t': Threads, b: Block)
    requires Inv(t) && Begins(t, t', b)
    ensures Inv(t')
  {
    hide Consistent, Layered, Fresh, Pow2;
  }

  /** A lookup gives the position the current state has, or there is none. */
  lemma {:induction false} LocatedRight(t: Threads, o: OutPoint)
    requires Inv(t)
    ensures Located(t, o).None? <==> !Locates(t.Current().read(LeafOf(o)), t.s.leaves)
    ensures Located(t, o).Some? ==>
              Located(t, o).value < t.s.leaves && t.Current().read(LeafOf(o)) == PositionVal(Located(t, o))
  {
    hide Consistent, Layered, WorkInv, Represents, View;
    ConsistentSizes(t.s, t.forest);
    SeenIsCurrentState(t);
    assert t.Seen().Read(LeafOf(o)) == t.Current().read(LeafOf(o));
  }

  lemma {:induction false} LooksKeeps(t: Threads, t': Threads)
    requires Inv(t) && LooksUp(t, t')
    ensures Inv(t')
  {
    hide Consistent, Layered, Fresh, Pow2, Located;
    LocatedRight(t, t.work.block.spends[|t.work.found|]);
  }

  /** A plan made from what was found and from the view leads to the next state. */
  lemma {:induction false} PlansKeeps(t: Threads, t': Threads, e: JournalEntry)
    requires Inv(t) && Plans(t, t', e)
    ensures Inv(t')
  {
    hide Consistent, Layered, Pow2, PlanOf, SeenState, Represents, Blocks.Holds;
    ConsistentSizes(t.s, t.forest);
    SeenIsCurrentState(t);
    SeenRows(t);
    var b, found, before := t.work.block, t.work.found, t.Current();
    var next := NextEpoch(before, e, found, b.additions);
    PlannedNext(before, next, e, t.Seen(), b.spends, found, b.additions);
    PlannedDeletions(e, t.Seen().cells, t.forest.rows, before.leaves, found, b.additions);
  }

  lemma {:induction false} SeenRows(t: Threads)
    ensures t.Seen().rows == t.forest.rows
  {
  }

  lemma {:induction false} PlannedDeletions(e: JournalEntry, view: seq<NodeState>, rows: nat, leaves: seq<Node>,
                                            deletions: seq<(OutPoint, nat)>, additions: seq<(OutPoint, Hash)>)
    requires PlanOf(e, view, rows, leaves, deletions, additions)
    ensures DeletionsOf(e) == deletions
  {
    hide IsForest, After, NextLeaves;
  }

  lemma {:induction false} PushedLayered(l: Layers, l': Layers, pending: seq<JournalEntry>, e: JournalEntry)
    requires Layered(l, pending) && Pushed(l, l', e)
    ensures Layered(l', pending + [e])
  {
    hide NodePushed, IndexPushed, LastNode, LastIndex;
    OverlaidMore(pending, e);
  }

  /** A block is queued against the very state it was planned for, whatever the worker did meanwhile. */
  lemma {:induction false} EnqueuesKeeps(t: Threads, t': Threads)
    requires Inv(t) && Enqueues(t, t')
    ensures Inv(t')
    ensures Proved(t.Current(), t.work.entry, t'.Current(), t.work.block.hash, t.work.block.spends,
            t.work.block.additions)
  {
    hide Consistent, Layered, Pow2, Pushed, Represents, Extends, Proved, CacheAgrees, CachedAfter, NextEpoch;
    var e, next := t.work.entry, t'.Current();
    ConsistentSizes(t.s, t.forest);
    CacheExtends(t.s.leafData, t'.s.leafData, t.Current(), e, next);
    EnqueueConsistent(t.s, t'.s, t.forest, e, next);
    PushedLayered(t.layers, t'.layers, t.s.pending, e);
  }

  lemma {:induction false} SubmitsKeeps(t: Threads, t': Threads)
    requires Inv(t) && Submits(t, t')
    ensures Inv(t')
  {
    hide Consistent, Layered, WorkInv;
    SubmitConsistent(t.s, t.forest);
    WorkKept(t, t');
  }

  lemma {:induction false} RetiredLayered(pending: seq<JournalEntry>, ls: seq<Layers>, n: nat)
    requires n < |ls| && n <= |pending| && HeightsAscend(pending) && Layered(ls[0], pending)
    requires forall i :: 0 <= i < n ==> RetiresOne(ls[i], ls[i + 1], pending[i])
    ensures Layered(ls[n], pending[n..])
  {
    hide LastNode, LastIndex;
    if n == 0 {
      assert pending[0..] == pending;
    } else {
      RetiredLayered(pending, ls, n - 1);
      var rest := pending[n - 1..];
      assert rest[1..] == pending[n..] && RetiresOne(ls[n - 1], ls[n], rest[0]);
      forall p
        ensures ls[n].NodeLayer(p) == LastNode(rest[1..], p)
      {
        RetireFirstNode(rest, p);
      }
      forall o
        ensures ls[n].IndexLayer(o) == LastIndex(rest[1..], o)
      {
        RetireFirstIndex(rest, o);
      }
    }
  }

  lemma {:induction false} RetiresKeeps(t: Threads, t': Threads, ls: seq<Layers>)
    requires Inv(t) && Retires(t, t', ls)
    ensures Inv(t')
  {
    hide Consistent, Layered, WorkInv, RetiresOne, HeightsAscend;
    RetireConsistent(t.s, t.forest);
    RetiredLayered(t.s.pending, ls, t.s.submitted);
    WorkKept(t, t');
  }

  lemma {:induction false} GrowsKeeps(t: Threads, t': Threads)
    requires Inv(t) && Grows(t, t')
    ensures Inv(t')
  {
    hide Linked, CacheAgrees, Layered, Represents, Pow2;
    Pow2Monotone(t.forest.rows, t'.forest.rows);
  }

  lemma {:induction false} NothingLayered()
    ensures Layered(NOTHING, [])
  {
  }

  lemma {:induction false} DiscardsKeeps(t: Threads, t': Threads)
    requires Inv(t) && Discards(t, t')
    ensures Inv(t')
  {
    hide Consistent, Layered;
    DiscardConsistent(t.s, t.forest);
    NothingLayered();
  }

  lemma {:induction false} RollsBackKeeps(t: Threads, t': Threads)
    requires Inv(t) && RollsBack(t, t')
    ensures Inv(t')
  {
    hide Consistent, Layered, WellFormed, TouchOf;
    RollbackConsistent(t.s, t.forest, t'.forest);
  }

  lemma {:induction false} ProducerKeeps(t: Threads, t': Threads)
    requires Inv(t) && ProducerStep(t, t')
    ensures Inv(t')
  {
    hide Inv;
    if b :| Begins(t, t', b) {
      BeginsKeeps(t, t', b);
    } else if LooksUp(t, t') {
      LooksKeeps(t, t');
    } else if e :| Plans(t, t', e) {
      PlansKeeps(t, t', e);
    } else if Enqueues(t, t') {
      EnqueuesKeeps(t, t');
    } else if Submits(t, t') {
      SubmitsKeeps(t, t');
    } else if ls :| Retires(t, t', ls) {
      RetiresKeeps(t, t', ls);
    } else if Grows(t, t') {
      GrowsKeeps(t, t');
    } else if Discards(t, t') {
      DiscardsKeeps(t, t');
    } else {
      RollsBackKeeps(t, t');
    }
  }

  // ----- Every interleaving -----

  ghost predicate IsRun(run: seq<Threads>) {
    && |run| > 0 && Inv(run[0]) && run[0].work == Between
    && forall i :: 0 <= i < |run| - 1 ==> ProducerStep(run[i], run[i + 1]) || WorkerStep(run[i], run[i + 1])
  }

  /**
   From a running prover, over every interleaving, what the producer sees is the state after the
   last queued block.
   */
  lemma {:induction false} EveryRunSees(run: seq<Threads>, i: nat)
    requires IsRun(run) && i < |run|
    ensures Inv(run[i]) && StoredAt(run[i].Seen(), run[i].Current())
            && Blocks.Holds(run[i].Seen(), run[i].Current().leaves)
    ensures |run[i].s.pending| <= 200
    decreases i
  {
    hide Inv, ProducerStep, WorkerStep, StoredAt, Blocks.Holds;
    if i > 0 {
      EveryRunSees(run, i - 1);
      if ProducerStep(run[i - 1], run[i]) { ProducerKeeps(run[i - 1], run[i]); }
          else { WorkerUnseen(run[i - 1], run[i]); }
    }
    SeenIsCurrentState(run[i]);
    PendingBounded(run[i]);
  }

  lemma {:induction false} PendingBounded(t: Threads)
    requires Inv(t)
    ensures |t.s.epochs| > 0 && |t.s.pending| <= MAX_PENDING_BLOCKS
  {
    hide Consistent, Layered, WorkInv;
    ConsistentSizes(t.s, t.forest);
  }

  /** A running prover between two calls is such a state. */
  lemma {:induction false} ProverStarts(prover: FlatFileProver)
    requires prover.Valid()
    ensures Inv(Threads(prover.Snap(), prover.acc.State(),
            Layers(prover.overlay.nodes, prover.overlay.nodeHeights, prover.overlay.positions), Between))
  {
    hide Consistent, LastNode, LastIndex;
    ConsistentSizes(prover.Snap(), prover.acc.State());
    assert forall p :: prover.overlay.NodeLayer(p) == LastNode(prover.pending, p);
    assert forall o :: prover.overlay.IndexLayer(o) == LastIndex(prover.pending, o);
  }
}
