/**
 Bootstrapping from scanner hints.

 The scanner follows only the set of unspent outputs, as (height, index in block) pairs, and
 writes down which leaves are still unspent at the end. The bootstrap fills the bottom row and
 the leaf map from that. Proving the same blocks one at a time instead keeps a forest and a leaf
 map of positions. Both must come out alike, for every chain that the scanner accepts.
 */
module Hints {
  import opened Bits
  import opened Wrappers
  import opened Sorting
  import opened Coordinates
  import opened Forest
  import opened Entry
  import opened Ledger
  import opened Planner
  import opened Steady
  import opened Scanner
  import Blocks
  import Build
  import Resize

  // ----- The two accounts of the same blocks -----

  /** Where the leaves of a block start in the bottom row. */
  function LeafStart(lists: seq<seq<(OutPoint, Hash)>>, h: nat): nat
    requires h <= |lists|
  {
    if h == 0 then 0 else LeafStart(lists, h - 1) + |lists[h - 1]|
  }

  lemma {:induction false} StartsAscend(lists: seq<seq<(OutPoint, Hash)>>, a: nat, b: nat)
    requires a < b <= |lists|
    ensures LeafStart(lists, a) + |lists[a]| <= LeafStart(lists, b)
  {
    if a + 1 < b { StartsAscend(lists, a, b - 1); }
  }

  lemma {:induction false} StartKept(lists: seq<seq<(OutPoint, Hash)>>, more: seq<(OutPoint, Hash)>, h: nat)
    requires h <= |lists|
    ensures LeafStart(lists + [more], h) == LeafStart(lists, h)
  {
    if h > 0 { StartKept(lists, more, h - 1); }
  }

  predicate InLists(lists: seq<seq<(OutPoint, Hash)>>, h: nat, i: nat) {
    h < |lists| && i < |lists[h]|
  }

  function LeafAt(lists: seq<seq<(OutPoint, Hash)>>, h: nat, i: nat): nat
    requires InLists(lists, h, i)
  {
    LeafStart(lists, h) + i
  }

  lemma {:induction false} LeafAtUnique(lists: seq<seq<(OutPoint, Hash)>>, h: nat, i: nat, h': nat, i': nat)
    requires InLists(lists, h, i) && InLists(lists, h', i') && LeafAt(lists, h, i) == LeafAt(lists, h', i')
    ensures h == h' && i == i'
  {
    hide LeafStart;
    if h < h' { StartsAscend(lists, h, h'); }
    if h' < h { StartsAscend(lists, h', h); }
  }

  lemma {:induction false} LeafAtBelow(lists: seq<seq<(OutPoint, Hash)>>, h: nat, i: nat)
    requires InLists(lists, h, i)
    ensures LeafAt(lists, h, i) < LeafStart(lists, |lists|)
  {
    StartsAscend(lists, h, |lists|);
  }

  /** The scanner still has this leaf. */
  predicate IsLive(utxos: map<OutPoint, LeafPosition>, lists: seq<seq<(OutPoint, Hash)>>, h: nat, i: nat)
    requires InLists(lists, h, i)
  {
    lists[h][i].0 in utxos && utxos[lists[h][i].0] == LeafPosition(h + 1, i)
  }

  /** The scanner's entry for an outpoint names the leaf that created it, and the leaf map its position. */
  predicate SamePlace(utxos: map<OutPoint, LeafPosition>, lists: seq<seq<(OutPoint, Hash)>>, leafMap: map<OutPoint,
                      nat>, o: OutPoint) {
    && (o in utxos <==> o in leafMap)
    && (o in utxos ==>
          && utxos[o].height > 0 && InLists(lists, utxos[o].height - 1, utxos[o].index)
          && lists[utxos[o].height - 1][utxos[o].index].0 == o
          && leafMap[o] == LeafAt(lists, utxos[o].height - 1, utxos[o].index))
  }

  predicate SameLeaf(utxos: map<OutPoint, LeafPosition>, lists: seq<seq<(OutPoint, Hash)>>, leaves: seq<Node>, h: nat,
                     i: nat)
    requires InLists(lists, h, i)
  {
    LeafAt(lists, h, i) < |leaves| && leaves[LeafAt(lists, h, i)] == Node(lists[h][i].1, !IsLive(utxos, lists, h, i))
  }

  ghost predicate Matches(utxos: map<OutPoint, LeafPosition>, lists: seq<seq<(OutPoint, Hash)>>,
                          leafMap: map<OutPoint, nat>, leaves: seq<Node>) {
    && |leaves| == LeafStart(lists, |lists|)
    && (forall o :: SamePlace(utxos, lists, leafMap, o))
    && (forall h, i :: InLists(lists, h, i) ==> SameLeaf(utxos, lists, leaves, h, i))
  }

  /** Proving a block: look its spends up, mark them, append its leaves, update the map. */
  ghost predicate ProvedBlock(leafMap: map<OutPoint, nat>, leaves: seq<Node>, leafMap': map<OutPoint, nat>,
                              leaves': seq<Node>,
                              spends: seq<OutPoint>, created: seq<(OutPoint, Hash)>, deletions: seq<(OutPoint, nat)>,
                              removed: seq<IndexDelta>, added: seq<IndexDelta>) {
    && |deletions| == |spends| == |removed| && |added| == |created|
    && (forall k :: 0 <= k < |spends| ==>
          deletions[k].0 == spends[k] && Lookup(leafMap, spends[k]) == Some(deletions[k].1)
              && removed[k] == IndexDelta(spends[k], deletions[k].1))
    && (forall i :: 0 <= i < |created| ==> added[i] == IndexDelta(created[i].0, |leaves| + i))
    && leaves' == NextLeaves(leaves, deletions, created)
    && forall o :: Lookup(leafMap', o) == IndexAfter(Lookup(leafMap, o), removed, added, o)
  }

  /** A deleted position is a spent leaf's: its outpoint is among the spends. */
  lemma {:induction false} DeletedIsSpent(utxos: map<OutPoint, LeafPosition>, lists: seq<seq<(OutPoint, Hash)>>,
                                          leafMap: map<OutPoint, nat>,
                                          spends: seq<OutPoint>, deletions: seq<(OutPoint, nat)>, h: nat, i: nat)
    requires InLists(lists, h, i) && |deletions| == |spends|
    requires forall o :: SamePlace(utxos, lists, leafMap, o)
    requires forall k :: 0 <= k < |spends| ==> Lookup(leafMap, spends[k]) == Some(deletions[k].1)
    ensures LeafAt(lists, h, i) in PositionSet(deletions) <==> lists[h][i].0 in spends && IsLive(utxos, lists, h, i)
  {
    hide LeafAt;
    var o := lists[h][i].0;
    if LeafAt(lists, h, i) in PositionSet(deletions) {
      var k :| 0 <= k < |deletions| && deletions[k].1 == LeafAt(lists, h, i);
      var q := spends[k];
      assert SamePlace(utxos, lists, leafMap, q);
      LeafAtUnique(lists, utxos[q].height - 1, utxos[q].index, h, i);
    }
    if o in spends && IsLive(utxos, lists, h, i) {
      var k :| 0 <= k < |spends| && spends[k] == o;
      assert SamePlace(utxos, lists, leafMap, o);
    }
  }

  lemma {:induction false} OldLeaf(utxos: map<OutPoint, LeafPosition>, utxos': map<OutPoint, LeafPosition>,
                                   lists: seq<seq<(OutPoint, Hash)>>,
                                   spends: seq<OutPoint>, created: seq<(OutPoint, Hash)>, h: nat, i: nat)
    requires InLists(lists, h, i)
    requires RemoveAll(utxos, spends).Some?
             && InsertAll(RemoveAll(utxos, spends).value, created, |lists| + 1) == Some(utxos')
    ensures IsLive(utxos', lists + [created], h, i) <==> IsLive(utxos, lists, h, i) && lists[h][i].0 !in spends
  {
    var kept := RemoveAll(utxos, spends).value;
    RemovedAll(utxos, spends);
    InsertedAll(kept, created, |lists| + 1);
    var o := lists[h][i].0;
    if CreatesLeaf(created, o) {
      var k :| 0 <= k < |created| && created[k].0 == o;
      assert utxos'[o] == LeafPosition(|lists| + 1, k);
    }
  }

  lemma {:induction false} LeavesMatch(utxos: map<OutPoint, LeafPosition>, utxos': map<OutPoint, LeafPosition>,
                                       lists: seq<seq<(OutPoint, Hash)>>,
                                       leafMap: map<OutPoint, nat>, leaves: seq<Node>, leaves': seq<Node>,
                                       spends: seq<OutPoint>, created: seq<(OutPoint, Hash)>,
                                       deletions: seq<(OutPoint, nat)>, h: nat, i: nat)
    requires Matches(utxos, lists, leafMap, leaves) && InLists(lists + [created], h, i)
    requires RemoveAll(utxos, spends).Some?
             && InsertAll(RemoveAll(utxos, spends).value, created, |lists| + 1) == Some(utxos')
    requires |deletions| == |spends|
             && forall k :: 0 <= k < |spends| ==> Lookup(leafMap, spends[k]) == Some(deletions[k].1)
    requires leaves' == NextLeaves(leaves, deletions, created)
    ensures SameLeaf(utxos', lists + [created], leaves', h, i)
  {
    hide LeafStart, RemoveAll, InsertAll, PositionSet, SamePlace;
    var lists' := lists + [created];
    StartKept(lists, created, h);
    if h < |lists| {
      assert lists'[h] == lists[h];
      assert SameLeaf(utxos, lists, leaves, h, i);
      DeletedIsSpent(utxos, lists, leafMap, spends, deletions, h, i);
      OldLeaf(utxos, utxos', lists, spends, created, h, i);
      LeafAtBelow(lists, h, i);
    } else {
      InsertedAll(RemoveAll(utxos, spends).value, created, |lists| + 1);
      assert lists'[h] == created;
    }
  }

  lemma {:induction false} PlacesMatch(utxos: map<OutPoint, LeafPosition>, utxos': map<OutPoint, LeafPosition>,
                                       lists: seq<seq<(OutPoint, Hash)>>,
                                       leafMap: map<OutPoint, nat>, leaves: seq<Node>, leafMap': map<OutPoint, nat>,
                                       leaves': seq<Node>,
                                       spends: seq<OutPoint>, created: seq<(OutPoint, Hash)>,
                                       deletions: seq<(OutPoint, nat)>,
                                       removed: seq<IndexDelta>, added: seq<IndexDelta>, o: OutPoint)
    requires Matches(utxos, lists, leafMap, leaves)
             && ProvedBlock(leafMap, leaves, leafMap', leaves', spends, created, deletions, removed, added)
    requires RemoveAll(utxos, spends).Some?
             && InsertAll(RemoveAll(utxos, spends).value, created, |lists| + 1) == Some(utxos')
    ensures SamePlace(utxos', lists + [created], leafMap', o)
  {
    hide LeafStart, RemoveAll, InsertAll, NextLeaves, SameLeaf, LastPosition;
    var lists' := lists + [created];
    var kept := RemoveAll(utxos, spends).value;
    RemovedAll(utxos, spends);
    InsertedAll(kept, created, |lists| + 1);
    assert Lookup(leafMap', o) == IndexAfter(Lookup(leafMap, o), removed, added, o);
    assert SamePlace(utxos, lists, leafMap, o);
    MentionsCreated(created, added, |leaves|, o);
    MentionsSpent(spends, removed, o);
    if CreatesLeaf(created, o) {
      var k :| 0 <= k < |created| && created[k].0 == o;
      OnlyCreation(kept, created, |lists| + 1, added, |leaves|, k);
      assert lists'[|lists|] == created;
      StartKept(lists, created, |lists|);
    } else if o in utxos' {
      var h := utxos[o].height - 1;
      assert lists'[h] == lists[h];
      StartKept(lists, created, h);
    }
  }

  lemma {:induction false} MentionsCreated(created: seq<(OutPoint, Hash)>, added: seq<IndexDelta>, start: nat,
                                           o: OutPoint)
    requires |added| == |created| && forall i :: 0 <= i < |created| ==> added[i] == IndexDelta(created[i].0, start + i)
    ensures Mentions(added, o) <==> CreatesLeaf(created, o)
  {
    if i :| 0 <= i < |added| && added[i].outpoint == o { assert created[i].0 == o; }
    if i :| 0 <= i < |created| && created[i].0 == o { assert added[i].outpoint == o; }
  }

  lemma {:induction false} MentionsSpent(spends: seq<OutPoint>, removed: seq<IndexDelta>, o: OutPoint)
    requires |removed| == |spends| && forall k :: 0 <= k < |spends| ==> removed[k].outpoint == spends[k]
    ensures Mentions(removed, o) <==> o in spends
  {
    if i :| 0 <= i < |removed| && removed[i].outpoint == o { assert spends[i] == o; }
    if i :| 0 <= i < |spends| && spends[i] == o { assert removed[i].outpoint == o; }
  }

  /** An accepted block creates each outpoint once, so the last entry for it is the only one. */
  lemma {:induction false} OnlyCreation(kept: map<OutPoint, LeafPosition>, created: seq<(OutPoint, Hash)>,
                                        height: nat, added: seq<IndexDelta>, start: nat, k: nat)
    requires InsertAll(kept, created, height).Some? && k < |created|
    requires |added| == |created| && forall i :: 0 <= i < |created| ==> added[i] == IndexDelta(created[i].0, start + i)
    ensures LastPosition(added, created[k].0) == Some(start + k)
  {
    hide InsertAll, LastPosition;
    InsertedAll(kept, created, height);
    var o := created[k].0;
    assert added[k].outpoint == o;
    LastPositionExists(added, o);
    var i :| 0 <= i < |added| && added[i] == IndexDelta(o, LastPosition(added, o).value);
    assert created[i].0 == o && InsertAll(kept, created, height).value[o] == LeafPosition(height, i);
  }

  /** One block keeps the two accounts in step. */
  lemma {:induction false} BlockKeepsMatch(utxos: map<OutPoint, LeafPosition>, utxos': map<OutPoint, LeafPosition>,
                                           lists: seq<seq<(OutPoint, Hash)>>,
                                           leafMap: map<OutPoint, nat>, leaves: seq<Node>, leafMap': map<OutPoint,
                                           nat>, leaves': seq<Node>,
                                           spends: seq<OutPoint>, created: seq<(OutPoint, Hash)>,
                                           deletions: seq<(OutPoint, nat)>,
                                           removed: seq<IndexDelta>, added: seq<IndexDelta>)
    requires Matches(utxos, lists, leafMap, leaves)
             && ProvedBlock(leafMap, leaves, leafMap', leaves', spends, created, deletions, removed, added)
    requires RemoveAll(utxos, spends).Some?
             && InsertAll(RemoveAll(utxos, spends).value, created, |lists| + 1) == Some(utxos')
    ensures Matches(utxos', lists + [created], leafMap', leaves')
  {
    hide RemoveAll, InsertAll, SamePlace, SameLeaf;
    var lists' := lists + [created];
    StartKept(lists, created, |lists|);
    forall o
      ensures SamePlace(utxos', lists', leafMap', o)
    {
      PlacesMatch(utxos, utxos', lists, leafMap, leaves, leafMap', leaves', spends, created, deletions, removed,
          added, o);
    }
    forall h, i | InLists(lists', h, i)
      ensures SameLeaf(utxos', lists', leaves', h, i)
    {
      LeavesMatch(utxos, utxos', lists, leafMap, leaves, leaves', spends, created, deletions, h, i);
    }
  }

  // ----- Whole chains -----

  function InsideSet(txs: seq<Tx>): set<OutPoint> {
    set j, k | 0 <= j < |txs| && 0 <= k < |txs[j].inputs| && SpentInside(txs, txs[j].inputs[k]) :: txs[j].inputs[k]
  }

  lemma {:induction false} InsideSetIs(txs: seq<Tx>)
    ensures forall o :: o in InsideSet(txs) <==> SpentInside(txs, o)
  {
    hide Creates;
    forall o | SpentInside(txs, o)
      ensures o in InsideSet(txs)
    {
      var i, j :| 0 <= i < j < |txs| && Creates(txs[i], o) && o in txs[j].inputs;
      var k :| 0 <= k < |txs[j].inputs| && txs[j].inputs[k] == o;
      assert SpentInside(txs, txs[j].inputs[k]);
    }
  }

  function ScanChain(blocks: seq<seq<Tx>>): Option<map<OutPoint, LeafPosition>> {
    if blocks == [] then Some(map[])
    else
      var last := blocks[|blocks| - 1];
      match ScanChain(blocks[..|blocks| - 1])
      case None => None
      case Some(m) => ScanBlock(m, last, InsideSet(last), |blocks|)
  }

  function LeafLists(blocks: seq<seq<Tx>>): (lists: seq<seq<(OutPoint, Hash)>>)
    ensures |lists| == |blocks|
  {
    seq(|blocks|, i requires 0 <= i < |blocks| => Eligible(blocks[i], InsideSet(blocks[i])))
  }

  /** The scan: block after block, counting the leaves of each. */
  method Scan(blocks: seq<seq<Tx>>) returns (r: Result<(map<OutPoint, LeafPosition>, seq<nat>), ScanError>)
    ensures r.Ok? <==> ScanChain(blocks).Some?
    ensures r.Ok? ==> r.value.0 == ScanChain(blocks).value
    ensures r.Ok? ==> |r.value.1| == |blocks| && forall i :: 0 <= i < |blocks| ==>
              r.value.1[i] == |LeafLists(blocks)[i]|
    ensures r.Ok? ==> forall i :: 0 <= i < |blocks| ==> r.value.1[i] == |LeavesBefore(blocks[i], |blocks[i]|, 0)|
  {
    hide ScanBlock, InsideSet, Eligible, LeavesBefore, BadInput, BadLeaf, ScannedTo;
    var utxos: map<OutPoint, LeafPosition>, counts: seq<nat> := map[], [];
    for i := 0 to |blocks|
      invariant ScanChain(blocks[..i]) == Some(utxos)
      invariant |counts| == i && forall k :: 0 <= k < i ==> counts[k] == |LeafLists(blocks)[k]|
      invariant forall k :: 0 <= k < i ==> counts[k] == |LeavesBefore(blocks[k], |blocks[k]|, 0)|
    {
      assert blocks[..i + 1][..i] == blocks[..i];
      InsideSetIs(blocks[i]);
      var applied := ApplyBlock(i + 1, blocks[i], utxos, InsideSet(blocks[i]));
      if applied.Err? {
        ScanFails(blocks, i + 1);
        return Err(applied.error);
      }
      utxos, counts := applied.value.0, counts + [applied.value.1];
    }
    assert blocks[..|blocks|] == blocks;
    return Ok((utxos, counts));
  }

  /** The scan of a longer chain, block by block: when it fails, and what it leaves. */
  lemma {:induction false} ScanOneMore(blocks: seq<seq<Tx>>, txs: seq<Tx>)
    ensures ScanChain([]) == Some(map[])
    ensures ScanChain(blocks) == None ==> ScanChain(blocks + [txs]) == None
    ensures ScanChain(blocks).Some? ==>
              var utxos := ScanChain(blocks).value;
              && (ScanChain(blocks + [txs]).Some? <==> !BadInput(txs, utxos) && !BadLeaf(txs, utxos))
              && (ScanChain(blocks + [txs]).Some? ==>
                     ScannedTo(txs, |blocks| + 1, utxos, ScanChain(blocks + [txs]).value))
  {
    hide ScanBlock, InsideSet, BadInput, BadLeaf, ScannedTo, PassesThrough, SpentInside;
    assert (blocks + [txs])[..|blocks|] == blocks;
    forall o
      ensures o in InsideSet(txs) <==> PassesThrough(txs, o)
    {
      InsideSetIs(txs);
      PassesIsInside(txs, o);
    }
    if ScanChain(blocks).Some? { ScanMeans(txs, InsideSet(txs), |blocks| + 1, ScanChain(blocks).value); }
  }

  lemma {:induction false} ScanFails(blocks: seq<seq<Tx>>, n: nat)
    requires n <= |blocks| && ScanChain(blocks[..n]) == None
    ensures ScanChain(blocks) == None
    decreases |blocks|
  {
    if n == |blocks| {
      assert blocks[..n] == blocks;
    } else {
      assert blocks[..|blocks| - 1][..n] == blocks[..n];
      ScanFails(blocks[..|blocks| - 1], n);
    }
  }

  function PairsOf(deltas: seq<IndexDelta>): (r: seq<(OutPoint, nat)>)
    ensures |r| == |deltas|
  {
    seq(|deltas|, i requires 0 <= i < |deltas| => (deltas[i].outpoint, deltas[i].position))
  }

  /** The height a file grows to for the leaves it must hold, if it does not hold them already. */
  function RowsFor(rows: nat, required: nat): nat {
    if required <= Pow2(rows) then rows else TreeRows(required)
  }

  /** A state in a taller file. */
  function Raised(s: ForestState, rows: nat): ForestState
    requires s.Valid()
  {
    ForestState(rows, Resize.Grown(s.cells, s.rows, rows), s.leafMap, s.leaves)
  }

  lemma {:induction false} RaisedHolds(s: ForestState, leaves: seq<Node>, rows: nat)
    requires Blocks.Holds(s, leaves) && s.rows <= rows <= MAX_ROWS
    ensures Blocks.Holds(Raised(s, rows), leaves)
  {
    hide At, Position, Pow2, Cell, Shr;
    var g := Raised(s, rows);
    Pow2Monotone(s.rows, rows);
    forall p | 0 <= p < |g.cells|
      ensures g.cells[p] == Cell(leaves, At(p, rows))
    {
      var c := At(p, rows);
      if InLayout(c, s.rows) {
        assert At(Position(c, s.rows), s.rows) == c;
      } else {
        OutsideCell(leaves, c, s.rows);
      }
    }
  }

  /** A block planned from the state before it, in a file grown to hold it, and applied. */
  ghost predicate PlannedBlock(s: ForestState, leaves: seq<Node>, e: JournalEntry, s': ForestState,
                               leaves': seq<Node>, txs: seq<Tx>) {
    var spends, created := ExternalOutpoints(txs, InsideSet(txs)), Eligible(txs, InsideSet(txs));
    && Blocks.Holds(s, leaves) && ProperInputs(txs)
    && |e.removed| == |spends|
    && (forall k :: 0 <= k < |spends| ==>
           e.removed[k].outpoint == spends[k] && Lookup(s.leafMap, spends[k]) == Some(e.removed[k].position))
    && s'.Valid() && s'.rows == RowsFor(s.rows, |leaves| + |created|) && s.rows <= s'.rows
    && var grown := Raised(s, s'.rows);
    && PlanOf(e, grown.cells, grown.rows, leaves, PairsOf(e.removed), created) && WellFormed(e)
    && (forall k :: s'.Read(k) == Redo(grown.Read(k), TouchOf(e, k)))
    && leaves' == NextLeaves(leaves, PairsOf(e.removed), created)
  }

  lemma {:induction false} PlannedIsProved(s: ForestState, leaves: seq<Node>, e: JournalEntry, s': ForestState,
                                           leaves': seq<Node>, txs: seq<Tx>)
    requires PlannedBlock(s, leaves, e, s', leaves', txs)
    ensures Blocks.Holds(s', leaves')
    ensures ProvedBlock(s.leafMap, leaves, s'.leafMap, leaves', ExternalOutpoints(txs, InsideSet(txs)),
            Eligible(txs, InsideSet(txs)),
                        PairsOf(e.removed), e.removed, e.added)
  {
    hide IsForest, After, NextLeaves, TouchOf, WellFormed, InsideSet, Eligible, ExternalOutpoints, ProperInputs,
         RowsFor;
    RaisedHolds(s, leaves, s'.rows);
    Blocks.PlannedRedo(e, Raised(s, s'.rows), s', leaves, PairsOf(e.removed), Eligible(txs, InsideSet(txs)));
  }

  ghost predicate SequentialRun(states: seq<ForestState>, rows: seq<seq<Node>>, entries: seq<JournalEntry>,
                                blocks: seq<seq<Tx>>) {
    && |states| == |rows| == |blocks| + 1 && |entries| == |blocks|
    && states[0].leafMap == map[] && rows[0] == [] && Blocks.Holds(states[0], [])
    && forall i :: 0 <= i < |blocks| ==>
           PlannedBlock(states[i], rows[i], entries[i], states[i + 1], rows[i + 1], blocks[i])
  }

  /** Scanning and proving the same blocks stay in step. */
  lemma {:induction false} RunMatchesScan(states: seq<ForestState>, rows: seq<seq<Node>>, entries: seq<JournalEntry>,
                                          blocks: seq<seq<Tx>>, n: nat)
    requires SequentialRun(states, rows, entries, blocks) && n <= |blocks| && ScanChain(blocks[..n]).Some?
    ensures Matches(ScanChain(blocks[..n]).value, LeafLists(blocks[..n]), states[n].leafMap, rows[n])
    ensures Blocks.Holds(states[n], rows[n])
  {
    hide Matches, PlannedBlock, ProvedBlock, Blocks.Holds, InsideSet, Eligible, ExternalOutpoints, RemoveAll,
         InsertAll, Spends;
    if n == 0 {
      NothingScanned();
      assert LeafLists(blocks[..0]) == [];
    } else {
      var txs := blocks[n - 1];
      assert blocks[..n][..n - 1] == blocks[..n - 1] && blocks[..n][n - 1] == txs;
      RunMatchesScan(states, rows, entries, blocks, n - 1);
      assert PlannedBlock(states[n - 1], rows[n - 1], entries[n - 1], states[n], rows[n], txs);
      PlannedIsProved(states[n - 1], rows[n - 1], entries[n - 1], states[n], rows[n], txs);
      SpendsAgree(states[n - 1], rows[n - 1], entries[n - 1], states[n], rows[n], txs);
      var created := Eligible(txs, InsideSet(txs));
      assert LeafLists(blocks[..n]) == LeafLists(blocks[..n - 1]) + [created];
      var utxos, utxos' := ScanChain(blocks[..n - 1]).value, ScanChain(blocks[..n]).value;
      BlockKeepsMatch(utxos, utxos', LeafLists(blocks[..n - 1]), states[n - 1].leafMap, rows[n - 1],
          states[n].leafMap, rows[n],
                      Spends(txs, InsideSet(txs)), created, PairsOf(entries[n - 1].removed), entries[n - 1].removed,
                          entries[n - 1].added);
    }
  }

  lemma {:induction false} NothingScanned()
    ensures Matches(map[], [], map[], [])
  {
  }

  lemma {:induction false} SpendsAgree(s: ForestState, leaves: seq<Node>, e: JournalEntry, s': ForestState,
                                       leaves': seq<Node>, txs: seq<Tx>)
    requires PlannedBlock(s, leaves, e, s', leaves', txs)
    ensures Spends(txs, InsideSet(txs)) == ExternalOutpoints(txs, InsideSet(txs))
  {
    hide InsideSet, TouchOf, WellFormed, PlanOf, Blocks.Holds;
    SameSpends(txs, InsideSet(txs));
  }

  // ----- From hints to the bottom row -----

  /** The hints of a height name exactly the indices the scanner still has there. */
  ghost predicate Hinted(utxos: map<OutPoint, LeafPosition>, indices: seq<seq<nat>>, stop: nat) {
    && |indices| == stop + 1
    && (forall h :: 0 <= h <= stop ==> Ascending(indices[h]))
    && forall h, i :: 0 <= h <= stop ==> (i in indices[h] <==> StillUnspent(utxos, h, i))
  }

  ghost predicate StillUnspent(utxos: map<OutPoint, LeafPosition>, h: nat, i: nat) {
    exists o :: o in utxos && utxos[o] == LeafPosition(h, i)
  }

  datatype CollectError = BeyondStop | DuplicateIndex

  /** Sorts the remaining outputs into per-height lists of indices. */
  method CollectUnspentIndices(stop: nat, utxos: map<OutPoint, LeafPosition>)
    returns (r: Result<seq<seq<nat>>, CollectError>)
    ensures r.Ok? <==>
              && (forall o :: o in utxos ==> utxos[o].height <= stop)
              && (forall o, q :: o in utxos && q in utxos && utxos[o] == utxos[q] ==> o == q)
    ensures r == Err(BeyondStop) ==> exists o :: o in utxos && utxos[o].height > stop
    ensures r == Err(DuplicateIndex) ==> exists o, q :: o in utxos && q in utxos && o != q && utxos[o] == utxos[q]
    ensures r.Ok? ==> |r.value| == stop + 1 && Hinted(utxos, r.value, stop)
  {
    var at: seq<set<nat>> := seq(stop + 1, h => {});
    var left := utxos.Keys;
    while left != {}
      invariant left <= utxos.Keys && |at| == stop + 1
      invariant forall h, i :: 0 <= h <= stop ==>
                  (i in at[h] <==> exists o :: o in utxos && o !in left && utxos[o] == LeafPosition(h, i))
      invariant forall o :: o in utxos && o !in left ==> utxos[o].height <= stop
      invariant forall o, q :: o in utxos && q in utxos && o !in left && q !in left && utxos[o] == utxos[q] ==> o == q
      decreases |left|
    {
      var o :| o in left;
      var position := utxos[o];
      if position.height > stop {
        return Err(BeyondStop);
      }
      if position.index in at[position.height] {
        return Err(DuplicateIndex);
      }
      ghost var was, before := at, left;
      at := at[position.height := at[position.height] + {position.index}];
      left := left - {o};
      forall h, i | 0 <= h <= stop
        ensures i in at[h] <==> exists q :: q in utxos && q !in left && utxos[q] == LeafPosition(h, i)
      {
        if i in at[h] {
          if i in was[h] {
            var q :| q in utxos && q !in before && utxos[q] == LeafPosition(h, i);
            assert q !in left;
          } else {
            assert o !in left && utxos[o] == LeafPosition(h, i);
          }
        }
        if q :| q in utxos && q !in left && utxos[q] == LeafPosition(h, i) {
          if q != o { assert q !in before; }
        }
      }
    }
    var indices := seq(stop + 1, h requires 0 <= h <= stop => Sorted(at[h]));
    forall h, i | 0 <= h <= stop
      ensures i in indices[h] <==> StillUnspent(utxos, h, i)
    {
    }
    return Ok(indices);
  }

  datatype FillError = NotIncreasing | OutsideBlock

  /** Walks the leaves of a block beside its hints: what is not hinted is spent. */
  method FillBlock(list: seq<(OutPoint, Hash)>, unspent: seq<nat>, offset: nat)
    returns (r: Result<(seq<Node>, seq<(OutPoint, nat)>), FillError>)
    ensures r.Ok? <==> Ascending(unspent) && forall u :: u in unspent ==> u < |list|
    ensures r.Ok? ==> |r.value.0| == |list| && forall i :: 0 <= i < |list| ==>
              r.value.0[i] == Node(list[i].1, i !in unspent)
    ensures r.Ok? ==> |r.value.1| == |unspent| && forall k :: 0 <= k < |unspent| ==>
              unspent[k] < |list| && r.value.1[k] == (list[unspent[k]].0, offset + unspent[k])
  {
    if exists k :: 0 <= k < |unspent| - 1 && unspent[k] >= unspent[k + 1] {
      return Err(NotIncreasing);
    }
    IncreasingPairs(unspent);
    var nodes: seq<Node>, entries: seq<(OutPoint, nat)> := [], [];
    var hint := 0;
    for i := 0 to |list|
      invariant |nodes| == i && hint <= |unspent| && |entries| == hint
      invariant forall k :: 0 <= k < hint ==> unspent[k] < i
      invariant forall k :: hint <= k < |unspent| ==> unspent[k] >= i
      invariant forall k :: 0 <= k < i ==> nodes[k] == Node(list[k].1, k !in unspent)
      invariant forall k :: 0 <= k < hint ==> entries[k] == (list[unspent[k]].0, offset + unspent[k])
    {
      var live := hint < |unspent| && unspent[hint] == i;
      assert live <==> i in unspent;
      nodes := nodes + [Node(list[i].1, !live)];
      if live {
        entries := entries + [(list[i].0, offset + i)];
        hint := hint + 1;
      }
    }
    if hint != |unspent| {
      assert unspent[hint] in unspent;
      return Err(OutsideBlock);
    }
    return Ok((nodes, entries));
  }

  lemma {:induction false} IncreasingPairs(s: seq<nat>)
    requires forall k :: 0 <= k < |s| - 1 ==> s[k] < s[k + 1]
    ensures Ascending(s)
  {
    if |s| > 1 {
      var n := |s| - 1;
      IncreasingPairs(s[..n]);
      assert forall i :: 0 <= i < n ==> s[i] < s[n] by {
        forall i | 0 <= i < n
          ensures s[i] < s[n]
        {
          if i < n - 1 { assert s[..n][i] < s[..n][n - 1]; }
        }
      }
    }
  }

  /** Below a number of leaves, the filled map is the proved one. */
  ghost predicate FilledBelow(filled: map<OutPoint, nat>, leafMap: map<OutPoint, nat>, end: nat) {
    && (forall o :: o in filled <==> o in leafMap && leafMap[o] < end)
    && (forall o :: o in filled ==> filled[o] == leafMap[o])
  }

  function HintsOf(indices: seq<seq<nat>>, h: nat): seq<nat>
    requires h + 1 < |indices|
  {
    indices[h + 1]
  }

  /** A leaf of a block is hinted exactly when it is live. */
  lemma {:induction false} HintedIsLive(utxos: map<OutPoint, LeafPosition>, lists: seq<seq<(OutPoint, Hash)>>,
                                        leafMap: map<OutPoint, nat>,
                                        leaves: seq<Node>, indices: seq<seq<nat>>, h: nat, i: nat)
    requires Matches(utxos, lists, leafMap, leaves) && |indices| == |lists| + 1 && Hinted(utxos, indices, |lists|)
             && h < |lists|
    ensures i in HintsOf(indices, h) <==> InLists(lists, h, i) && IsLive(utxos, lists, h, i)
  {
    hide LeafStart, SameLeaf;
    if i in HintsOf(indices, h) {
      var o :| o in utxos && utxos[o] == LeafPosition(h + 1, i);
      assert SamePlace(utxos, lists, leafMap, o);
    }
    if InLists(lists, h, i) && IsLive(utxos, lists, h, i) {
      assert StillUnspent(utxos, h + 1, i);
    }
  }

  /** The position of a live leaf of a block is its own, and no outpoint outside the hints lies in the block. */
  lemma {:induction false} MapInBlock(utxos: map<OutPoint, LeafPosition>, lists: seq<seq<(OutPoint, Hash)>>,
                                      leafMap: map<OutPoint, nat>,
                                      leaves: seq<Node>, indices: seq<seq<nat>>, h: nat, o: OutPoint)
    requires Matches(utxos, lists, leafMap, leaves) && |indices| == |lists| + 1 && Hinted(utxos, indices, |lists|)
             && h < |lists|
    ensures o in leafMap && LeafStart(lists, h) <= leafMap[o] < LeafStart(lists, h + 1) <==>
              exists i :: i in HintsOf(indices, h) && i < |lists[h]| && lists[h][i].0 == o
    ensures forall i :: i in HintsOf(indices, h) && i < |lists[h]| ==>
              lists[h][i].0 in leafMap && leafMap[lists[h][i].0] == LeafStart(lists, h) + i
  {
    hide SameLeaf, Ascending;
    if o in leafMap && LeafStart(lists, h) <= leafMap[o] < LeafStart(lists, h + 1) {
      assert SamePlace(utxos, lists, leafMap, o);
      var i := leafMap[o] - LeafStart(lists, h);
      LeafAtUnique(lists, utxos[o].height - 1, utxos[o].index, h, i);
      HintedIsLive(utxos, lists, leafMap, leaves, indices, h, i);
    }
    forall i | i in HintsOf(indices, h) && i < |lists[h]|
      ensures lists[h][i].0 in leafMap && leafMap[lists[h][i].0] == LeafStart(lists, h) + i
    {
      HintedIsLive(utxos, lists, leafMap, leaves, indices, h, i);
      assert SamePlace(utxos, lists, leafMap, lists[h][i].0);
    }
  }

  method PutBatch(m: map<OutPoint, nat>, entries: seq<(OutPoint, nat)>, ghost leafMap: map<OutPoint, nat>)
    returns (r: map<OutPoint, nat>)
    requires forall k :: 0 <= k < |entries| ==> entries[k].0 in leafMap && leafMap[entries[k].0] == entries[k].1
    ensures forall o :: o in r <==> o in m || exists k :: 0 <= k < |entries| && entries[k].0 == o
    ensures forall o :: o in r && !(exists k :: 0 <= k < |entries| && entries[k].0 == o) ==> r[o] == m[o]
    ensures forall k :: 0 <= k < |entries| ==> r[entries[k].0] == entries[k].1
  {
    r := m;
    for i := 0 to |entries|
      invariant forall o :: o in r <==> o in m || exists k :: 0 <= k < i && entries[k].0 == o
      invariant forall o :: o in r && !(exists k :: 0 <= k < i && entries[k].0 == o) ==> r[o] == m[o]
      invariant forall k :: 0 <= k < i ==> r[entries[k].0] == entries[k].1
    {
      r := r[entries[i].0 := entries[i].1];
    }
  }

  /** Filling one more block extends the bottom row and the map by exactly that block. */
  lemma {:induction false} FilledMore(utxos: map<OutPoint, LeafPosition>, lists: seq<seq<(OutPoint, Hash)>>,
                                      leafMap: map<OutPoint, nat>,
                                      leaves: seq<Node>, indices: seq<seq<nat>>, h: nat,
                                      filled: map<OutPoint, nat>, filled': map<OutPoint, nat>,
                                      entries: seq<(OutPoint, nat)>)
    requires Matches(utxos, lists, leafMap, leaves) && |indices| == |lists| + 1 && Hinted(utxos, indices, |lists|)
             && h < |lists|
    requires FilledBelow(filled, leafMap, LeafStart(lists, h))
    requires |entries| == |HintsOf(indices, h)| && forall k :: 0 <= k < |entries| ==>
               HintsOf(indices, h)[k] < |lists[h]|
                   && entries[k] == (lists[h][HintsOf(indices, h)[k]].0, LeafStart(lists, h) + HintsOf(indices, h)[k])
    requires forall o :: o in filled' <==> o in filled || exists k :: 0 <= k < |entries| && entries[k].0 == o
    requires forall o :: o in filled' && !(exists k :: 0 <= k < |entries| && entries[k].0 == o) ==>
               filled'[o] == filled[o]
    requires forall k :: 0 <= k < |entries| ==> filled'[entries[k].0] == entries[k].1
    ensures FilledBelow(filled', leafMap, LeafStart(lists, h + 1))
  {
    hide Matches, Hinted, LeafStart;
    StartStep(lists, h);
    forall o
      ensures o in filled' <==> o in leafMap && leafMap[o] < LeafStart(lists, h + 1)
      ensures o in filled' ==> filled'[o] == leafMap[o]
    {
      MapInBlock(utxos, lists, leafMap, leaves, indices, h, o);
      if k :| 0 <= k < |entries| && entries[k].0 == o {
        assert HintsOf(indices, h)[k] in HintsOf(indices, h);
      }
      if o in leafMap && LeafStart(lists, h) <= leafMap[o] < LeafStart(lists, h + 1) {
        var i :| i in HintsOf(indices, h) && i < |lists[h]| && lists[h][i].0 == o;
        var k :| 0 <= k < |HintsOf(indices, h)| && HintsOf(indices, h)[k] == i;
        assert entries[k].0 == o;
      }
    }
  }

  lemma {:induction false} StartStep(lists: seq<seq<(OutPoint, Hash)>>, h: nat)
    requires h < |lists|
    ensures LeafStart(lists, h + 1) == LeafStart(lists, h) + |lists[h]|
  {
  }

  /** Filling every height from the hints gives the bottom row and the leaf map that proving the blocks gives. */
  method FillFromHints(lists: seq<seq<(OutPoint, Hash)>>, indices: seq<seq<nat>>,
                       ghost utxos: map<OutPoint, LeafPosition>, ghost leafMap: map<OutPoint, nat>,
                           ghost leaves: seq<Node>)
    returns (row: seq<Node>, filled: map<OutPoint, nat>)
    requires Matches(utxos, lists, leafMap, leaves) && |indices| == |lists| + 1 && Hinted(utxos, indices, |lists|)
    ensures row == leaves && filled == leafMap
  {
    hide Matches, Hinted, FilledBelow, LeafStart, Ascending;
    row, filled := [], map[];
    FilledNothing(utxos, lists, leafMap, leaves);
    for h := 0 to |lists|
      invariant |indices| == |lists| + 1 && LeafStart(lists, h) <= |leaves|
      invariant row == leaves[..LeafStart(lists, h)] && FilledBelow(filled, leafMap, LeafStart(lists, h))
    {
      StartStep(lists, h);
      HintsFit(utxos, lists, leafMap, leaves, indices, h);
      var block := FillBlock(lists[h], HintsOf(indices, h), |row|);
      var nodes, entries := block.value.0, block.value.1;
      BlockNodes(utxos, lists, leafMap, leaves, indices, h, nodes);
      EntriesMapped(utxos, lists, leafMap, leaves, indices, h, entries);
      var more := PutBatch(filled, entries, leafMap);
      FilledMore(utxos, lists, leafMap, leaves, indices, h, filled, more, entries);
      row, filled := row + nodes, more;
    }
    FilledAll(utxos, lists, leafMap, leaves, filled);
  }

  lemma {:induction false} FilledNothing(utxos: map<OutPoint, LeafPosition>, lists: seq<seq<(OutPoint, Hash)>>,
                                         leafMap: map<OutPoint, nat>, leaves: seq<Node>)
    ensures LeafStart(lists, 0) == 0 && FilledBelow(map[], leafMap, 0) && leaves[..0] == []
  {
  }

  lemma {:induction false} FilledAll(utxos: map<OutPoint, LeafPosition>, lists: seq<seq<(OutPoint, Hash)>>,
                                     leafMap: map<OutPoint, nat>,
                                     leaves: seq<Node>, filled: map<OutPoint, nat>)
    requires Matches(utxos, lists, leafMap, leaves) && FilledBelow(filled, leafMap, LeafStart(lists, |lists|))
    ensures filled == leafMap && leaves[..LeafStart(lists, |lists|)] == leaves
  {
    hide LeafStart, SameLeaf;
    forall o | o in leafMap
      ensures o in filled
    {
      assert SamePlace(utxos, lists, leafMap, o);
      LeafAtBelow(lists, utxos[o].height - 1, utxos[o].index);
    }
  }

  lemma {:induction false} HintsFit(utxos: map<OutPoint, LeafPosition>, lists: seq<seq<(OutPoint, Hash)>>,
                                    leafMap: map<OutPoint, nat>,
                                    leaves: seq<Node>, indices: seq<seq<nat>>, h: nat)
    requires Matches(utxos, lists, leafMap, leaves) && |indices| == |lists| + 1 && Hinted(utxos, indices, |lists|)
             && h < |lists|
    ensures Ascending(HintsOf(indices, h)) && (forall u :: u in HintsOf(indices, h) ==> u < |lists[h]|)
    ensures LeafStart(lists, h) + |lists[h]| <= |leaves|
  {
    hide Matches;
    forall u | u in HintsOf(indices, h)
      ensures u < |lists[h]|
    {
      HintedIsLive(utxos, lists, leafMap, leaves, indices, h, u);
    }
    RowLength(utxos, lists, leafMap, leaves);
    StartsAscend(lists, h, |lists|);
  }

  lemma {:induction false} RowLength(utxos: map<OutPoint, LeafPosition>, lists: seq<seq<(OutPoint, Hash)>>,
                                     leafMap: map<OutPoint, nat>, leaves: seq<Node>)
    requires Matches(utxos, lists, leafMap, leaves)
    ensures |leaves| == LeafStart(lists, |lists|)
  {
  }

  lemma {:induction false} BlockNodes(utxos: map<OutPoint, LeafPosition>, lists: seq<seq<(OutPoint, Hash)>>,
                                      leafMap: map<OutPoint, nat>,
                                      leaves: seq<Node>, indices: seq<seq<nat>>, h: nat, nodes: seq<Node>)
    requires Matches(utxos, lists, leafMap, leaves) && |indices| == |lists| + 1 && Hinted(utxos, indices, |lists|)
             && h < |lists|
    requires |nodes| == |lists[h]|
             && forall i :: 0 <= i < |nodes| ==> nodes[i] == Node(lists[h][i].1, i !in HintsOf(indices, h))
    ensures LeafStart(lists, h) + |lists[h]| <= |leaves|
    ensures leaves[..LeafStart(lists, h)] + nodes == leaves[..LeafStart(lists, h) + |lists[h]|]
  {
    hide LeafStart, SamePlace, Ascending;
    HintsFit(utxos, lists, leafMap, leaves, indices, h);
    forall i | 0 <= i < |nodes|
      ensures nodes[i] == leaves[LeafStart(lists, h) + i]
    {
      HintedIsLive(utxos, lists, leafMap, leaves, indices, h, i);
      assert SameLeaf(utxos, lists, leaves, h, i);
    }
  }

  lemma {:induction false} EntriesMapped(utxos: map<OutPoint, LeafPosition>, lists: seq<seq<(OutPoint, Hash)>>,
                                         leafMap: map<OutPoint, nat>,
                                         leaves: seq<Node>, indices: seq<seq<nat>>, h: nat,
                                         entries: seq<(OutPoint, nat)>)
    requires Matches(utxos, lists, leafMap, leaves) && |indices| == |lists| + 1 && Hinted(utxos, indices, |lists|)
             && h < |lists|
    requires |entries| == |HintsOf(indices, h)| && forall k :: 0 <= k < |entries| ==>
               HintsOf(indices, h)[k] < |lists[h]|
                   && entries[k] == (lists[h][HintsOf(indices, h)[k]].0, LeafStart(lists, h) + HintsOf(indices, h)[k])
    ensures forall k :: 0 <= k < |entries| ==> entries[k].0 in leafMap && leafMap[entries[k].0] == entries[k].1
  {
    hide Matches, Hinted, LeafStart;
    forall k | 0 <= k < |entries|
      ensures entries[k].0 in leafMap && leafMap[entries[k].0] == entries[k].1
    {
      MapInBlock(utxos, lists, leafMap, leaves, indices, h, entries[k].0);
      assert HintsOf(indices, h)[k] in HintsOf(indices, h);
    }
  }

  // ----- Bootstrap against one block at a time -----

  /** The scanner's outpoints lie in distinct leaves of heights it has seen, so its hints are accepted. */
  lemma {:induction false} HintsAccepted(utxos: map<OutPoint, LeafPosition>, lists: seq<seq<(OutPoint, Hash)>>,
                                         leafMap: map<OutPoint, nat>, leaves: seq<Node>)
    requires Matches(utxos, lists, leafMap, leaves)
    ensures forall o :: o in utxos ==> utxos[o].height <= |lists|
    ensures forall o, q :: o in utxos && q in utxos && utxos[o] == utxos[q] ==> o == q
  {
    hide LeafStart, SameLeaf;
    forall o | o in utxos
      ensures utxos[o].height <= |lists|
    {
      assert SamePlace(utxos, lists, leafMap, o);
    }
    forall o, q | o in utxos && q in utxos && utxos[o] == utxos[q]
      ensures o == q
    {
      assert SamePlace(utxos, lists, leafMap, o) && SamePlace(utxos, lists, leafMap, q);
    }
  }

  /** Scan, collect, fill: the bottom row and the leaf map are those of proving the blocks one at a time. */
  method Bootstrap(blocks: seq<seq<Tx>>, ghost states: seq<ForestState>, ghost rows: seq<seq<Node>>,
                   ghost entries: seq<JournalEntry>)
    returns (row: seq<Node>, leafMap: map<OutPoint, nat>)
    requires SequentialRun(states, rows, entries, blocks) && ScanChain(blocks).Some?
    ensures row == rows[|blocks|] && leafMap == states[|blocks|].leafMap
  {
    hide SequentialRun, ScanChain, Matches, Hinted, LeafLists;
    RunShape(states, rows, entries, blocks);
    assert blocks[..|blocks|] == blocks;
    RunMatchesScan(states, rows, entries, blocks, |blocks|);
    var scanned := Scan(blocks);
    var utxos := scanned.value.0;
    var lists := LeafLists(blocks);
    HintsAccepted(utxos, lists, states[|blocks|].leafMap, rows[|blocks|]);
    var hints := CollectUnspentIndices(|blocks|, utxos);
    row, leafMap := FillFromHints(lists, hints.value, utxos, states[|blocks|].leafMap, rows[|blocks|]);
  }

  /** Any finished parallel build over the bottom row of a proved forest is that forest, node for node. */
  lemma {:induction false} BuiltIsProved(b: Build.BuildState, s: ForestState, leaves: seq<Node>)
    requires Build.Inv(b, leaves) && Build.Finished(b) && Blocks.Holds(s, leaves)
    ensures Build.Flat(b.cells, s.rows) == s.cells
  {
    hide Build.Inv, Build.Finished;
    Build.FinishedIsRebuild(b, leaves, s.rows);
    RebuildUnique(s.cells, s.rows, leaves);
  }

  lemma {:induction false} RunShape(states: seq<ForestState>, rows: seq<seq<Node>>, entries: seq<JournalEntry>,
                                    blocks: seq<seq<Tx>>)
    requires SequentialRun(states, rows, entries, blocks)
    ensures |states| == |rows| == |blocks| + 1
  {
  }
}
