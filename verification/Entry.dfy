/** A journal entry: everything one block changes in the forest file and in the leaf map. */
module Entry {
  import opened Wrappers
  import opened Forest

  datatype ForestDelta = ForestDelta(position: nat, before: NodeState, after: NodeState)

  datatype OutPoint = OutPoint(txid: Hash, vout: nat)

  datatype IndexDelta = IndexDelta(outpoint: OutPoint, position: nat)

  datatype JournalEntry = JournalEntry(
    height: nat,
    blockHash: Hash,
    numLeaves: nat,
    previousBlockHash: Hash,
    forest: seq<ForestDelta>,
    removed: seq<IndexDelta>,
    added: seq<IndexDelta>,
    forestRows: Option<nat>)
  {
    /** The leaf count before the block; absent when the record claims more additions than leaves. */
    function PreviousNumLeaves(): Option<nat> {
      if numLeaves < |added| then None else Some(numLeaves - |added|)
    }
  }

  /** The state a list of deltas leaves at a position when written first to last. */
  function LastAfter(deltas: seq<ForestDelta>, p: nat): Option<NodeState> {
    if deltas == [] then None
    else if deltas[|deltas| - 1].position == p then Some(deltas[|deltas| - 1].after)
    else LastAfter(deltas[..|deltas| - 1], p)
  }

  /** The state a list of deltas leaves at a position when undone last to first. */
  function FirstBefore(deltas: seq<ForestDelta>, p: nat): Option<NodeState> {
    if deltas == [] then None
    else if deltas[0].position == p then Some(deltas[0].before)
    else FirstBefore(deltas[1..], p)
  }

  function After(cells: seq<NodeState>, deltas: seq<ForestDelta>): (r: seq<NodeState>)
    ensures |r| == |cells|
  {
    seq(|cells|, p requires 0 <= p < |cells| =>
      match LastAfter(deltas, p) case Some(s) => s case None => cells[p])
  }

  predicate AscendingDeltas(deltas: seq<ForestDelta>) {
    forall i, j :: 0 <= i < j < |deltas| ==> deltas[i].position < deltas[j].position
  }

  lemma {:induction false} LastAfterAt(deltas: seq<ForestDelta>, i: nat)
    requires AscendingDeltas(deltas) && i < |deltas|
    ensures LastAfter(deltas, deltas[i].position) == Some(deltas[i].after)
  {
    var n := |deltas| - 1;
    if i < n { LastAfterAt(deltas[..n], i); }
  }

  lemma {:induction false} LastAfterNone(deltas: seq<ForestDelta>, p: nat)
    requires forall i :: 0 <= i < |deltas| ==> deltas[i].position != p
    ensures LastAfter(deltas, p) == None
  {
    if deltas != [] { LastAfterNone(deltas[..|deltas| - 1], p); }
  }

  lemma {:induction false} FirstBeforeAt(deltas: seq<ForestDelta>, i: nat)
    requires AscendingDeltas(deltas) && i < |deltas|
    ensures FirstBefore(deltas, deltas[i].position) == Some(deltas[i].before)
  {
    if i > 0 { FirstBeforeAt(deltas[1..], i - 1); }
  }

  /** A position is written going forward exactly when it is restored going back. */
  lemma {:induction false} TouchedBothWays(deltas: seq<ForestDelta>, p: nat)
    ensures LastAfter(deltas, p).Some? <==> exists i :: 0 <= i < |deltas| && deltas[i].position == p
    ensures FirstBefore(deltas, p).Some? <==> exists i :: 0 <= i < |deltas| && deltas[i].position == p
  {
    if deltas != [] {
      var n := |deltas| - 1;
      TouchedBothWays(deltas[..n], p);
      TouchedBothWays(deltas[1..], p);
      if i :| 0 <= i < |deltas| && deltas[i].position == p {
        if i < n { assert deltas[..n][i].position == p; }
        if i > 0 { assert deltas[1..][i - 1].position == p; }
      }
    }
  }
}
