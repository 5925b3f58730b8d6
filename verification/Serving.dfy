/**
 The proof of a block, read through the overlay.

 In every state of the prover the outpoints of a block that the current state has are unspent
 leaves; their positions are translated together, and the hashes on the way to the roots are read
 from the durable forest under the overlay. Each target's hashes fold from its leaf to the current
 root of its tree.
 */
module Serving {
  import opened Bits
  import opened Wrappers
  import opened Coordinates
  import opened Forest
  import opened Entry
  import opened Ledger
  import opened Planner
  import opened Proofs
  import opened Walks
  import Detwin
  import Steady
  import Pipeline
  import Blocks

  /** A path of sibling hashes from a position of the promoted forest to its root. */
  method LoadPath(cells: seq<NodeState>, rows: nat, n: nat, target: nat, ghost leaves: seq<Node>)
    returns (path: seq<Hash>)
    requires IsForest(cells, rows, leaves) && n == |leaves| && target < Capacity(TreeRows(n))
    requires HashAt(leaves, At(target, TreeRows(n))).Some?
    ensures Ready(n, At(target, TreeRows(n))) && ProofFor(leaves, At(target, TreeRows(n))) == Some(path)
  {
    hide IsForest, Position, At, Pow2, TreeRows, Parent, Value, Resolve, RootAbove, Directions, IsRootPosition,
         IsRoot, Shr;
    var logical := TreeRows(n);
    LogicalRows(cells, rows, leaves);
    TreeRowsLeast(n);
    ghost var c := At(target, logical);
    PositionAt(target, logical);
    ReadyWhereHashed(leaves, c);
    ghost var all := ProofFor(leaves, c);
    ProofFolds(leaves, c);
    path := [];
    assert [] + all.value == all.value;
    var p := target;
    IsRootAgrees(c, n, logical);
    while !IsRootPosition(p, n, logical)
      invariant InLayout(c, logical) && p == Position(c, logical) && Ready(n, c) && HashAt(leaves, c).Some?
      invariant IsRootPosition(p, n, logical) <==> IsRoot(n, c)
      invariant ProofFor(leaves, c).Some? && all == Some(path + ProofFor(leaves, c).value)
      decreases logical - c.row
    {
      StepUp(leaves, c, logical);
      var sibling := CompressedHash(cells, rows, FlipLow(p), leaves, n);
      ghost var rest := ProofFor(leaves, Above(c)).value;
      assert path + ([sibling.value] + rest) == path + [sibling.value] + rest;
      path := path + [sibling.value];
      p := Parent(p, logical);
      c := Above(c);
      IsRootAgrees(c, n, logical);
    }
    assert path + [] == path;
  }

  lemma {:induction false} LogicalRows(cells: seq<NodeState>, rows: nat, leaves: seq<Node>)
    requires IsForest(cells, rows, leaves)
    ensures TreeRows(|leaves|) <= rows <= MAX_ROWS
  {
    TreeRowsLeast(|leaves|);
  }

  lemma {:induction false} ReadyWhereHashed(leaves: seq<Node>, c: Coord)
    requires HashAt(leaves, c).Some?
    ensures Ready(|leaves|, c)
  {
  }

  /** One step towards the root: the sibling and the node above resolve, and the rest of the path starts there. */
  lemma {:induction false} StepUp(leaves: seq<Node>, c: Coord, logical: nat)
    requires |leaves| <= Pow2(logical) && logical <= MAX_ROWS
    requires InLayout(c, logical) && Ready(|leaves|, c) && !IsRoot(|leaves|, c) && HashAt(leaves, c).Some?
    ensures c.row < logical && InLayout(Above(c), logical) && InLayout(Sibling(c), logical) && Ready(|leaves|, Above(c))
    ensures Parent(Position(c, logical), logical) == Position(Above(c), logical)
    ensures FlipLow(Position(c, logical)) == Position(Sibling(c), logical)
    ensures HashAt(leaves, Sibling(c)).Some? && HashAt(leaves, Above(c)).Some?
    ensures ProofFor(leaves, c).Some? && ProofFor(leaves, Above(c)).Some?
    ensures ProofFor(leaves, c).value == [HashAt(leaves, Sibling(c)).value] + ProofFor(leaves, Above(c)).value
  {
    hide Position, At, Pow2, Parent, Value, HashAt, Shr, IsRoot;
    ReadyAbove(|leaves|, c);
    ReadyInLayout(|leaves|, Above(c), logical);
    ParentAgrees(c, logical);
    SiblingAgrees(c, logical);
    SiblingsHash(leaves, c);
    ProofFolds(leaves, c);
    ProofFolds(leaves, Above(c));
  }

  /** A target of a block: where it is in the promoted forest, and the hashes beside its way to the root. */
  datatype Target = Target(position: nat, hash: Hash, path: seq<Hash>)

  /** The target proves an unspent leaf against the root of its tree. */
  ghost predicate Verifies(leaves: seq<Node>, i: nat, t: Target) {
    && i < |leaves| && !leaves[i].spent && t.hash == leaves[i].hash && Ready(|leaves|, Coord(0, i))
    && t.position < Capacity(TreeRows(|leaves|))
    && var c := At(t.position, TreeRows(|leaves|));
    && c == ProofCoord(leaves, Coord(0, i)) && Ready(|leaves|, c)
    && FoldPath(|leaves|, c, t.hash, t.path) == Some(Value(leaves, RootAbove(|leaves|, Coord(0, i))).hash)
  }

  /** Reads one target: its own hash, and its path. */
  method LoadTarget(cells: seq<NodeState>, rows: nat, n: nat, position: nat, ghost leaves: seq<Node>, ghost i: nat)
    returns (t: Target)
    requires IsForest(cells, rows, leaves) && n == |leaves| && i < n && !leaves[i].spent && Ready(n, Coord(0, i))
    requires position < Capacity(TreeRows(n)) && At(position, TreeRows(n)) == ProofCoord(leaves, Coord(0, i))
    ensures t.position == position && Verifies(leaves, i, t)
  {
    hide IsForest, At, TreeRows, Value, RootAbove, LivePath, Descend, Resolve, Directions, FoldPath, ProofFor,
         ProofCoord;
    LeafHashAtProof(leaves, i);
    EveryLeafProves(leaves, i);
    var hash := CompressedHash(cells, rows, position, leaves, n);
    var path := LoadPath(cells, rows, n, position, leaves);
    t := Target(position, hash.value, path);
  }

  /** What the prover finds for a block is a live leaf each time. */
  lemma {:induction false} FoundLive(e: Pipeline.Epoch, o: OutPoint, p: nat)
    requires Pipeline.Represents(e) && e.read(LeafOf(o)) == PositionVal(Some(p))
    ensures p < |e.leaves| && !e.leaves[p].spent
  {
    assert Pipeline.Place(e, o) == Some(p);
  }

  /**
   The proof of a block in any state of the prover: refused iff the current state does not have one
   of its outpoints; otherwise every outpoint gets a target that proves its leaf against the
   current roots, whatever part of the state is still in the overlay.
   */
  method ProveSpends(prover: Pipeline.FlatFileProver, spends: seq<OutPoint>) returns (r: Option<seq<Target>>)
    requires prover.Core()
    ensures r.None? <==>
              exists i ::
                0 <= i < |spends| && !Pipeline.Locates(prover.Current().read(LeafOf(spends[i])), prover.leaves)
    ensures r.Some? ==> |r.value| == |spends|
    ensures r.Some? ==> forall i :: 0 <= i < |spends| ==> ProvesOutpoint(prover.Current(), spends[i], r.value[i])
  {
    hide Pipeline.Consistent, Pipeline.Overlaid, Pipeline.StoredAt, IsForest, At, TreeRows, Pipeline.Represents,
         Verifies, ProofCoord, Pipeline.SeenState;
    var found := prover.FindPositions(spends);
    if found == None {
      return None;
    }
    Pipeline.ConsistentSizes(prover.Snap(), prover.acc.State());
    prover.ViewIsCurrent();
    ghost var leaves := prover.Current().leaves;
    var view := prover.ViewState();
    Blocks.HoldsForest(view, leaves);
    var positions := new nat[|spends|](i requires 0 <= i < |spends| => found.value[i].1);
    forall i | 0 <= i < |spends|
      ensures found.value[i].1 < |leaves| && !leaves[found.value[i].1].spent
    {
      FoundLive(prover.Current(), spends[i], found.value[i].1);
    }
    Detwin.TranslateProofPositions(positions, view.cells, view.rows, view.leaves, leaves);
    var translated, targets: seq<Target> := positions[..], [];
    assert forall i :: 0 <= i < |spends| ==> Detwin.Promoted(leaves, found.value[i].1, translated[i]);
    for i := 0 to |spends|
      invariant |targets| == i && forall j :: 0 <= j < i ==> ProvesOutpoint(prover.Current(), spends[j], targets[j])
    {
      var t := LoadTarget(view.cells, view.rows, view.leaves, translated[i], leaves, found.value[i].1);
      targets := targets + [t];
    }
    return Some(targets);
  }

  ghost predicate ProvesOutpoint(e: Pipeline.Epoch, o: OutPoint, t: Target) {
    Pipeline.Place(e, o).Some? && Verifies(e.leaves, Pipeline.Place(e, o).value, t)
  }
}
