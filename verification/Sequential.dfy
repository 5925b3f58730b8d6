/**
 Proving a chain one block at a time, from an empty forest.

 For every chain that the scanner accepts, from a file of any height that grows as it must, every
 lookup succeeds and every block is planned and applied; the forest and the leaf map this ends
 with are those the bootstrap makes from the scanner's hints.
 */
module Sequential {
  import opened Bits
  import opened Wrappers
  import opened Coordinates
  import opened Forest
  import opened Entry
  import opened Ledger
  import opened Planner
  import opened Steady
  import opened Scanner
  import opened Hints
  import Blocks
  import Resize
  import Pipeline
  import Startup

  /** How many leaves a chain creates. */
  function LeafTotal(blocks: seq<seq<Tx>>): nat {
    LeafStart(LeafLists(blocks), |blocks|)
  }

  ghost predicate ProperChain(blocks: seq<seq<Tx>>) {
    forall i :: 0 <= i < |blocks| ==> ProperInputs(blocks[i])
  }

  lemma {:induction false} StartOfPrefix(blocks: seq<seq<Tx>>, n: nat, h: nat)
    requires h <= n <= |blocks|
    ensures LeafStart(LeafLists(blocks[..n]), h) == LeafStart(LeafLists(blocks), h)
  {
    hide Eligible, InsideSet;
    if h > 0 { StartOfPrefix(blocks, n, h - 1); }
  }

  /** What the first blocks create, and the next one, fits into what all create. */
  lemma {:induction false} RoomForNext(blocks: seq<seq<Tx>>, i: nat)
    requires i < |blocks|
    ensures LeafTotal(blocks[..i]) + |Eligible(blocks[i], InsideSet(blocks[i]))| <= LeafTotal(blocks)
  {
    hide Eligible, InsideSet;
    StartOfPrefix(blocks, i, i);
    StartsAscend(LeafLists(blocks), i, |blocks|);
  }

  /** A scanned chain was scanned block by block. */
  lemma {:induction false} ScannedPrefix(blocks: seq<seq<Tx>>, i: nat)
    requires i < |blocks| && ScanChain(blocks).Some?
    ensures ScanChain(blocks[..i]).Some?
    ensures ScanBlock(ScanChain(blocks[..i]).value, blocks[i], InsideSet(blocks[i]), i + 1).Some?
  {
    hide ScanBlock, InsideSet;
    if ScanChain(blocks[..i + 1]) == None { ScanFails(blocks, i + 1); }
    assert blocks[..i + 1][..i] == blocks[..i];
  }

  /** In step with the scanner, the leaf map has every outpoint a block spends, at a position of the forest. */
  lemma {:induction false} SpendsFound(utxos: map<OutPoint, LeafPosition>, lists: seq<seq<(OutPoint, Hash)>>,
                                       leafMap: map<OutPoint, nat>, leaves: seq<Node>,
                                       txs: seq<Tx>, height: nat, k: nat)
    requires Matches(utxos, lists, leafMap, leaves) && ProperInputs(txs)
             && ScanBlock(utxos, txs, InsideSet(txs), height).Some?
    requires k < |ExternalOutpoints(txs, InsideSet(txs))|
    ensures ExternalOutpoints(txs, InsideSet(txs))[k] in leafMap
            && leafMap[ExternalOutpoints(txs, InsideSet(txs))[k]] < |leaves|
  {
    hide InsideSet, ExternalOutpoints, Spends, RemoveAll, InsertAll, LeafStart, SameLeaf;
    SameSpends(txs, InsideSet(txs));
    var spends := Spends(txs, InsideSet(txs));
    RemovedAll(utxos, spends);
    var o := spends[k];
    assert Hints.SamePlace(utxos, lists, leafMap, o);
    LeafAtBelow(lists, utxos[o].height - 1, utxos[o].index);
  }

  /** Looks every spent outpoint up. */
  method LookUp(spends: seq<OutPoint>, leafMap: map<OutPoint, nat>) returns (r: Option<seq<(OutPoint, nat)>>)
    ensures r.None? <==> exists k :: 0 <= k < |spends| && spends[k] !in leafMap
    ensures r.Some? ==> |r.value| == |spends|
    ensures r.Some? ==> forall k :: 0 <= k < |spends| ==>
              r.value[k].0 == spends[k] && Lookup(leafMap, spends[k]) == Some(r.value[k].1)
  {
    var found: seq<(OutPoint, nat)> := [];
    for i := 0 to |spends|
      invariant |found| == i
      invariant forall k :: 0 <= k < i ==> found[k].0 == spends[k] && Lookup(leafMap, spends[k]) == Some(found[k].1)
    {
      if spends[i] !in leafMap {
        return None;
      }
      found := found + [(spends[i], leafMap[spends[i]])];
    }
    return Some(found);
  }

  lemma {:induction false} EmptyHolds(rows: nat)
    requires rows <= MAX_ROWS
    ensures Blocks.Holds(ForestState(rows, Rebuild([], rows), map[], 0), [])
  {
  }

  lemma {:induction false} NothingOverlaid(cells: seq<NodeState>)
    ensures View(cells, map[]) == cells
  {
  }

  /** One more block of a sequential run. */
  lemma {:induction false} RunMore(states: seq<ForestState>, rows: seq<seq<Node>>, entries: seq<JournalEntry>,
                                   blocks: seq<seq<Tx>>,
                                   e: JournalEntry, s: ForestState, row: seq<Node>, txs: seq<Tx>)
    requires SequentialRun(states, rows, entries, blocks)
             && PlannedBlock(states[|blocks|], rows[|blocks|], e, s, row, txs)
    ensures SequentialRun(states + [s], rows + [row], entries + [e], blocks + [txs])
  {
    hide PlannedBlock, Blocks.Holds;
    var states', rows', entries', blocks' := states + [s], rows + [row], entries + [e], blocks + [txs];
    forall i | 0 <= i < |blocks'|
      ensures PlannedBlock(states'[i], rows'[i], entries'[i], states'[i + 1], rows'[i + 1], blocks'[i])
    {
      if i < |blocks| { assert PlannedBlock(states[i], rows[i], entries[i], states[i + 1], rows[i + 1], blocks[i]); }
    }
  }

  /** Growing the file for the next block gives the state raised to the height it needs. */
  method MakeRoom(acc: SteadyStateForest, required: nat, ghost row: seq<Node>)
    requires acc.Valid() && Blocks.Holds(acc.State(), row) && required <= Pow2(MAX_ROWS)
    modifies acc
    ensures acc.rows == RowsFor(old(acc.rows), required) && acc.rows >= old(acc.rows) && required <= Pow2(acc.rows)
    ensures acc.Valid() && acc.State() == Raised(old(acc.State()), acc.rows) && Blocks.Holds(acc.State(), row)
  {
    hide At, Position, Pow2, Cell, IsForest;
    ghost var before := acc.State();
    TreeRowsLeast(required);
    var grown := acc.EnsureLeafCapacity(required);
    ghost var raised := Raised(before, acc.rows);
    RaisedHolds(before, row, acc.rows);
    forall k
      ensures raised.Read(k) == acc.State().Read(k)
    {
      Resize.GrownReads(before, acc.rows, k);
    }
    Blocks.SameReads(raised, acc.State());
  }

  /** Proves one block, growing the file for it if need be. */
  method ProveNext(acc: SteadyStateForest, txs: seq<Tx>, height: nat, blockHash: Hash, previous: Hash,
                   ghost row: seq<Node>)
    returns (ghost e: JournalEntry)
    requires acc.Valid() && Blocks.Holds(acc.State(), row) && ProperInputs(txs)
    requires |row| + |Eligible(txs, InsideSet(txs))| <= Pow2(MAX_ROWS)
    requires forall k :: 0 <= k < |ExternalOutpoints(txs, InsideSet(txs))| ==>
               var o := ExternalOutpoints(txs, InsideSet(txs))[k]; o in acc.leafMap && acc.leafMap[o] < |row|
    modifies acc
    ensures PlannedBlock(old(acc.State()), row, e, acc.State(),
            NextLeaves(row, PairsOf(e.removed), Eligible(txs, InsideSet(txs))), txs)
    ensures e.height == height && e.blockHash == blockHash && e.previousBlockHash == previous
  {
    hide InsideSet, ExternalOutpoints, Eligible, IsForest, After, Pow2, NextLeaves, TouchOf, WellFormed, View,
         ProperInputs, PlanOf,
         Blocks.Holds, RowsFor, Resize.Grown;
    var inside := SameBlockSpends(txs);
    InsideSetIs(txs);
    assert inside == InsideSet(txs);
    var spends, created := ExternalOutpoints(txs, inside), Eligible(txs, inside);
    Blocks.HoldsForest(acc.State(), row);
    MakeRoom(acc, acc.leaves + |created|, row);
    var found := LookUp(spends, acc.leafMap);
    ghost var before := acc.State();
    Blocks.HoldsForest(before, row);
    NothingOverlaid(acc.cells);
    var planned := PlanUpdate(acc.cells, map[], acc.rows, row, acc.leaves, height, blockHash, previous, found.value,
        created);
    e := planned.value;
    PlannedParts(e, before, row, found.value, created);
    var applied := acc.ApplyForward(planned.value);
  }

  lemma {:induction false} PlannedParts(e: JournalEntry, s: ForestState, leaves: seq<Node>,
                                        deletions: seq<(OutPoint, nat)>, created: seq<(OutPoint, Hash)>)
    requires Blocks.Holds(s, leaves) && PlanOf(e, s.cells, s.rows, leaves, deletions, created)
    ensures WellFormed(e) && PairsOf(e.removed) == deletions && e.forestRows == Some(s.rows)
    ensures |e.removed| == |deletions|
            && forall k :: 0 <= k < |deletions| ==> e.removed[k] == IndexDelta(deletions[k].0, deletions[k].1)
  {
    hide IsForest, After, NextLeaves;
    Blocks.PlanWellFormed(e, s, leaves, deletions, created);
  }

  predicate Named(e: JournalEntry, i: nat, hashes: seq<Hash>)
    requires i < |hashes|
  {
    && e.height == i + 1 && e.blockHash == hashes[i]
    && e.previousBlockHash == (if i == 0 then ZERO_HASH else hashes[i - 1])
  }

  /** The entries carry the blocks' heights and hashes, each following the one before. */
  predicate NamedAs(entries: seq<JournalEntry>, hashes: seq<Hash>) {
    |entries| == |hashes| && forall i :: 0 <= i < |entries| ==> Named(entries[i], i, hashes)
  }

  /** Every accepted chain can be proved block by block: no lookup fails and no block is refused. */
  method ProveSequentially(blocks: seq<seq<Tx>>, hashes: seq<Hash>, rows: nat)
    returns (acc: SteadyStateForest, ghost states: seq<ForestState>, ghost bottoms: seq<seq<Node>>,
             ghost entries: seq<JournalEntry>)
    requires ProperChain(blocks) && ScanChain(blocks).Some? && |hashes| == |blocks|
    requires rows <= MAX_ROWS && LeafTotal(blocks) <= Pow2(MAX_ROWS)
    ensures fresh(acc) && SequentialRun(states, bottoms, entries, blocks)
    ensures |states| == |blocks| + 1 && acc.State() == states[|blocks|] && states[0].rows == rows
    ensures NamedAs(entries, hashes)
  {
    hide SequentialRun, ScanChain, ScanBlock, Matches, LeafTotal, PlannedBlock, Blocks.Holds, InsideSet, Eligible,
         ExternalOutpoints, ProperInputs, Pow2, Rebuild, NextLeaves;
    acc := new SteadyStateForest(rows, Rebuild([], rows), map[], 0);
    states, bottoms, entries := [acc.State()], [[]], [];
    EmptyHolds(rows);
    EmptyRun(acc.State());
    assert blocks[..0] == [];
    for i := 0 to |blocks|
      invariant fresh(acc) && SequentialRun(states, bottoms, entries, blocks[..i])
      invariant |states| == |bottoms| == i + 1 && acc.State() == states[i] && states[0].rows == rows
      invariant |entries| == i && NamedAs(entries, hashes[..i])
    {
      ghost var txs := blocks[i];
      ScannedPrefix(blocks, i);
      NextReady(states, bottoms, entries, blocks, i);
      ghost var e := ProveNext(acc, blocks[i], i + 1, hashes[i], if i == 0 then ZERO_HASH
          else hashes[i - 1], bottoms[i]);
      ghost var row := NextLeaves(bottoms[i], PairsOf(e.removed), Eligible(txs, InsideSet(txs)));
      RunMore(states, bottoms, entries, blocks[..i], e, acc.State(), row, txs);
      assert blocks[..i] + [txs] == blocks[..i + 1];
      NamedMore(entries, hashes, i, e);
      states, bottoms, entries := states + [acc.State()], bottoms + [row], entries + [e];
    }
    assert blocks[..|blocks|] == blocks && hashes[..|hashes|] == hashes;
  }

  lemma {:induction false} NamedMore(entries: seq<JournalEntry>, hashes: seq<Hash>, i: nat, e: JournalEntry)
    requires i < |hashes| && NamedAs(entries, hashes[..i]) && Named(e, i, hashes)
    ensures NamedAs(entries + [e], hashes[..i + 1])
  {
    var entries', hashes' := entries + [e], hashes[..i + 1];
    forall k | 0 <= k < |entries'|
      ensures Named(entries'[k], k, hashes')
    {
      if k < i { assert Named(entries[k], k, hashes[..i]); }
    }
  }

  lemma {:induction false} EmptyRun(s: ForestState)
    requires s.leafMap == map[] && Blocks.Holds(s, [])
    ensures SequentialRun([s], [[]], [], [])
  {
  }

  /** After any number of blocks the next one can be proved. */
  lemma {:induction false} NextReady(states: seq<ForestState>, bottoms: seq<seq<Node>>, entries: seq<JournalEntry>,
                                     blocks: seq<seq<Tx>>, i: nat)
    requires i < |blocks| && SequentialRun(states, bottoms, entries, blocks[..i]) && |states| == |bottoms| == i + 1
    requires ProperChain(blocks) && ScanChain(blocks).Some? && LeafTotal(blocks) <= Pow2(MAX_ROWS)
    ensures Blocks.Holds(states[i], bottoms[i]) && states[i].Valid() && ProperInputs(blocks[i])
    ensures |bottoms[i]| + |Eligible(blocks[i], InsideSet(blocks[i]))| <= Pow2(MAX_ROWS)
    ensures forall k :: 0 <= k < |ExternalOutpoints(blocks[i], InsideSet(blocks[i]))| ==>
              var o := ExternalOutpoints(blocks[i], InsideSet(blocks[i]))[k];
                  o in states[i].leafMap && states[i].leafMap[o] < |bottoms[i]|
  {
    hide SequentialRun, ScanChain, ScanBlock, InsideSet, Eligible, ExternalOutpoints, ProperInputs, Pow2, IsForest,
         Hints.SamePlace, SameLeaf;
    ScannedPrefix(blocks, i);
    assert blocks[..i][..i] == blocks[..i];
    RunMatchesScan(states, bottoms, entries, blocks[..i], i);
    RoomForNext(blocks, i);
    forall k | 0 <= k < |ExternalOutpoints(blocks[i], InsideSet(blocks[i]))|
      ensures var o := ExternalOutpoints(blocks[i], InsideSet(blocks[i]))[k];
              o in states[i].leafMap && states[i].leafMap[o] < |bottoms[i]|
    {
      SpendsFound(ScanChain(blocks[..i]).value, LeafLists(blocks[..i]), states[i].leafMap, bottoms[i], blocks[i],
          i + 1, k);
    }
  }

  /** For every accepted chain: the bootstrapped row and leaf map are those of the forest proved block by block. */
  method BootstrapOrProve(blocks: seq<seq<Tx>>, hashes: seq<Hash>, rows: nat)
    returns (acc: SteadyStateForest, row: seq<Node>, leafMap: map<OutPoint, nat>,
             ghost states: seq<ForestState>, ghost bottoms: seq<seq<Node>>, ghost entries: seq<JournalEntry>)
    requires ProperChain(blocks) && ScanChain(blocks).Some? && |hashes| == |blocks|
    requires rows <= MAX_ROWS && LeafTotal(blocks) <= Pow2(MAX_ROWS)
    ensures SequentialRun(states, bottoms, entries, blocks) && |states| == |bottoms| == |blocks| + 1
            && states[0].rows == rows
    ensures fresh(acc) && acc.State() == states[|blocks|] && row == bottoms[|blocks|]
            && leafMap == states[|blocks|].leafMap
    ensures Blocks.Holds(states[|blocks|], row) && Matches(ScanChain(blocks).value, LeafLists(blocks), leafMap, row)
  {
    hide SequentialRun, ScanChain, Matches, LeafTotal, Blocks.Holds, Pow2;
    acc, states, bottoms, entries := ProveSequentially(blocks, hashes, rows);
    RunShape(states, bottoms, entries, blocks);
    row, leafMap := Bootstrap(blocks, states, bottoms, entries);
    assert blocks[..|blocks|] == blocks;
    RunMatchesScan(states, bottoms, entries, blocks, |blocks|);
  }

  // ----- The first prover -----

  /** In step with the scanner, the leaf map names unspent leaves, different ones for different outpoints. */
  lemma {:induction false} MatchedPlaces(utxos: map<OutPoint, LeafPosition>, lists: seq<seq<(OutPoint, Hash)>>,
                                         leafMap: map<OutPoint, nat>, leaves: seq<Node>)
    requires Matches(utxos, lists, leafMap, leaves)
    ensures forall o :: o in leafMap ==> leafMap[o] < |leaves| && !leaves[leafMap[o]].spent
    ensures forall o, q :: o in leafMap && q in leafMap && leafMap[o] == leafMap[q] ==> o == q
  {
    hide LeafStart, LeafAt;
    forall o | o in leafMap
      ensures leafMap[o] < |leaves| && !leaves[leafMap[o]].spent
    {
      assert Hints.SamePlace(utxos, lists, leafMap, o);
      assert SameLeaf(utxos, lists, leaves, utxos[o].height - 1, utxos[o].index);
    }
    forall o, q | o in leafMap && q in leafMap && leafMap[o] == leafMap[q]
      ensures o == q
    {
      assert Hints.SamePlace(utxos, lists, leafMap, o) && Hints.SamePlace(utxos, lists, leafMap, q);
      LeafAtUnique(lists, utxos[o].height - 1, utxos[o].index, utxos[q].height - 1, utxos[q].index);
    }
  }

  /** The state after the last scanned block. */
  ghost function FirstEpoch(s: ForestState, row: seq<Node>, tip: Hash): Pipeline.Epoch
    requires s.Valid()
  {
    Pipeline.Epoch(Startup.ReadsOf(s), row, tip)
  }

  lemma {:induction false} FirstRepresents(s: ForestState, row: seq<Node>, tip: Hash)
    requires Blocks.Holds(s, row)
    requires forall o :: o in s.leafMap ==> s.leafMap[o] < |row| && !row[s.leafMap[o]].spent
    requires forall o, q :: o in s.leafMap && q in s.leafMap && s.leafMap[o] == s.leafMap[q] ==> o == q
    ensures Pipeline.Represents(FirstEpoch(s, row, tip)) && Pipeline.StoredAt(s, FirstEpoch(s, row, tip))
  {
    hide Position, At, Pow2, Cell;
    var e := FirstEpoch(s, row, tip);
    forall c
      ensures e.read(CellAt(c)) == CellVal(Cell(row, c))
    {
      if InLayout(c, s.rows) {
        assert At(Position(c, s.rows), s.rows) == c;
      } else {
        OutsideCell(row, c, s.rows);
      }
    }
    forall o
      ensures Pipeline.Place(e, o) == Lookup(s.leafMap, o)
    {
      assert e.read(LeafOf(o)) == s.Read(LeafOf(o));
    }
  }

  /**
   For every accepted chain, the forest rebuilt over the bootstrapped row, with the bootstrapped leaf
   map, is one a prover can start from; its state is that of proving the chain block by block.
   */
  method FirstProver(blocks: seq<seq<Tx>>, hashes: seq<Hash>, rows: nat)
    returns (prover: Pipeline.FlatFileProver, ghost states: seq<ForestState>, ghost bottoms: seq<seq<Node>>,
             ghost entries: seq<JournalEntry>)
    requires ProperChain(blocks) && ScanChain(blocks).Some? && |hashes| == |blocks|
    requires rows <= MAX_ROWS && LeafTotal(blocks) <= Pow2(MAX_ROWS)
    ensures SequentialRun(states, bottoms, entries, blocks) && |states| == |bottoms| == |blocks| + 1
            && states[0].rows == rows
    ensures fresh(prover) && fresh(prover.acc) && prover.Valid() && prover.pending == [] && prover.journal == []
            && prover.height == |blocks|
    ensures prover.acc.State() == states[|blocks|] && |prover.epochs| == 1
            && prover.Current().leaves == bottoms[|blocks|]
    ensures prover.tip == if blocks == [] then ZERO_HASH else hashes[|blocks| - 1]
  {
    hide SequentialRun, ScanChain, Matches, LeafTotal, IsForest, Pow2, Pipeline.Represents, Pipeline.StoredAt,
         LeafLists, Rebuild, Blocks.Holds;
    var proved, row, leafMap;
    proved, row, leafMap, states, bottoms, entries := BootstrapOrProve(blocks, hashes, rows);
    MatchedPlaces(ScanChain(blocks).value, LeafLists(blocks), leafMap, row);
    HeldIsRebuilt(proved.State(), row);
    var built := new SteadyStateForest(proved.rows, Rebuild(row, proved.rows), leafMap, |row|);
    ghost var s := built.State();
    assert s == proved.State();
    var tip := if blocks == [] then ZERO_HASH else hashes[|blocks| - 1];
    FirstRepresents(s, row, tip);
    prover := new Pipeline.FlatFileProver(built, [], |blocks|, tip, [FirstEpoch(s, row, tip)]);
  }

  lemma {:induction false} HeldIsRebuilt(s: ForestState, row: seq<Node>)
    requires Blocks.Holds(s, row)
    ensures s.Valid() && |row| <= Pow2(s.rows) && s.leaves == |row| && s.cells == Rebuild(row, s.rows)
  {
    RebuildUnique(s.cells, s.rows, row);
  }
}
