/**
 Foreground state newer than the durable forest.

 Every proved but not yet durable block is pushed; a block is retired once it is durable, and
 only the changes nobody made again later are dropped. With strictly increasing heights the
 overlay always holds, for each position and outpoint, the last pending change.
 */
module Overlay {
  import opened Wrappers
  import opened Forest
  import opened Entry
  import opened Ledger
  import opened Steady

  class ForestOverlay {
    var nodes: map<nat, NodeState>
    var nodeHeights: map<nat, nat>
    var positions: map<OutPoint, (nat, Option<nat>)>

    predicate Valid()
      reads this
    {
      nodes.Keys == nodeHeights.Keys
    }

    /** The overlaid node at a position, with the height that wrote it. */
    function NodeLayer(p: nat): Option<(nat, NodeState)>
      reads this
      requires Valid()
    {
      if p in nodes then Some((nodeHeights[p], nodes[p])) else None
    }

    /** The overlaid location of an outpoint; an inner None means spent. */
    function IndexLayer(o: OutPoint): Option<(nat, Option<nat>)>
      reads this
    {
      if o in positions then Some(positions[o]) else None
    }

    constructor ()
      ensures Valid()
      ensures (forall p :: NodeLayer(p) == None) && forall o :: IndexLayer(o) == None
    {
      nodes, nodeHeights, positions := map[], map[], map[];
    }

    method PushNodes(forest: seq<ForestDelta>, height: nat)
      requires Valid()
      modifies this
      ensures Valid() && positions == old(positions)
      ensures forall p :: NodeLayer(p) == NodePushed(old(NodeLayer(p)), forest, height, p)
    {
      for i := 0 to |forest|
        invariant Valid() && positions == old(positions)
        invariant forall p :: NodeLayer(p) == NodePushed(old(NodeLayer(p)), forest[..i], height, p)
      {
        assert forest[..i + 1][..i] == forest[..i];
        nodes := nodes[forest[i].position := forest[i].after];
        nodeHeights := nodeHeights[forest[i].position := height];
      }
      assert forest[..|forest|] == forest;
    }

    method PushPositions(removed: seq<IndexDelta>, added: seq<IndexDelta>, height: nat)
      requires Valid()
      modifies this
      ensures Valid() && nodes == old(nodes) && nodeHeights == old(nodeHeights)
      ensures forall o :: IndexLayer(o) == IndexPushed(old(IndexLayer(o)), removed, added, height, o)
    {
      for i := 0 to |removed|
        invariant nodes == old(nodes) && nodeHeights == old(nodeHeights)
        invariant forall o :: IndexLayer(o) == IndexPushed(old(IndexLayer(o)), removed[..i], [], height, o)
      {
        MentionsMore(removed, i);
        positions := positions[removed[i].outpoint := (height, None)];
      }
      assert removed[..|removed|] == removed;
      for i := 0 to |added|
        invariant nodes == old(nodes) && nodeHeights == old(nodeHeights)
        invariant forall o :: IndexLayer(o) == IndexPushed(old(IndexLayer(o)), removed, added[..i], height, o)
      {
        MentionsMore(added, i);
        assert added[..i + 1][..i] == added[..i];
        positions := positions[added[i].outpoint := (height, Some(added[i].position))];
      }
      assert added[..|added|] == added;
    }

    method Push(e: JournalEntry)
      requires Valid()
      modifies this
      ensures Valid()
      ensures forall p :: NodeLayer(p) == NodePushed(old(NodeLayer(p)), e.forest, e.height, p)
      ensures forall o :: IndexLayer(o) == IndexPushed(old(IndexLayer(o)), e.removed, e.added, e.height, o)
    {
      PushNodes(e.forest, e.height);
      PushPositions(e.removed, e.added, e.height);
    }

    method RetireNodes(forest: seq<ForestDelta>, height: nat)
      requires Valid()
      modifies this
      ensures Valid() && positions == old(positions)
      ensures forall p :: NodeLayer(p) == Retired(old(NodeLayer(p)), LastAfter(forest, p).Some?, height)
    {
      for i := 0 to |forest|
        invariant Valid() && positions == old(positions)
        invariant forall p :: NodeLayer(p) == Retired(old(NodeLayer(p)), LastAfter(forest[..i], p).Some?, height)
      {
        assert forest[..i + 1][..i] == forest[..i];
        var p := forest[i].position;
        if p in nodeHeights && nodeHeights[p] == height {
          nodes := nodes - {p};
          nodeHeights := nodeHeights - {p};
        }
      }
      assert forest[..|forest|] == forest;
    }

    method RetirePositions(touched: seq<IndexDelta>, height: nat)
      requires Valid()
      modifies this
      ensures Valid() && nodes == old(nodes) && nodeHeights == old(nodeHeights)
      ensures forall o :: IndexLayer(o) == Retired(old(IndexLayer(o)), Mentions(touched, o), height)
    {
      for i := 0 to |touched|
        invariant nodes == old(nodes) && nodeHeights == old(nodeHeights)
        invariant forall o :: IndexLayer(o) == Retired(old(IndexLayer(o)), Mentions(touched[..i], o), height)
      {
        MentionsMore(touched, i);
        var o := touched[i].outpoint;
        if o in positions && positions[o].0 == height {
          positions := positions - {o};
        }
      }
      assert touched[..|touched|] == touched;
    }

    method Retire(e: JournalEntry)
      requires Valid()
      modifies this
      ensures Valid()
      ensures forall p :: NodeLayer(p) == Retired(old(NodeLayer(p)), LastAfter(e.forest, p).Some?, e.height)
      ensures forall o ::
                IndexLayer(o) == Retired(old(IndexLayer(o)), Mentions(e.removed, o) || Mentions(e.added, o), e.height)
    {
      RetireNodes(e.forest, e.height);
      forall o
        ensures Mentions(e.removed + e.added, o) <==> Mentions(e.removed, o) || Mentions(e.added, o)
      {
        MentionsConcat(e.removed, e.added, o);
      }
      RetirePositions(e.removed + e.added, e.height);
    }
  }

  function NodePushed(was: Option<(nat, NodeState)>, forest: seq<ForestDelta>, height: nat, p: nat): Option<(nat,
                      NodeState)> {
    match LastAfter(forest, p) case Some(s) => Some((height, s)) case None => was
  }

  function IndexPushed(was: Option<(nat, Option<nat>)>, removed: seq<IndexDelta>, added: seq<IndexDelta>, height: nat,
                       o: OutPoint): Option<(nat, Option<nat>)> {
    if Mentions(added, o) then Some((height, LastPosition(added, o)))
    else if Mentions(removed, o) then Some((height, None))
    else was
  }

  function Retired<T>(was: Option<(nat, T)>, touched: bool, height: nat): Option<(nat, T)> {
    if touched && was.Some? && was.value.0 == height then None else was
  }

  // ----- What the overlay holds for a list of pending blocks -----

  function LastNode(pending: seq<JournalEntry>, p: nat): Option<(nat, NodeState)> {
    if pending == [] then None
    else
      var last := pending[|pending| - 1];
      NodePushed(LastNode(pending[..|pending| - 1], p), last.forest, last.height, p)
  }

  function LastIndex(pending: seq<JournalEntry>, o: OutPoint): Option<(nat, Option<nat>)> {
    if pending == [] then None
    else
      var last := pending[|pending| - 1];
      IndexPushed(LastIndex(pending[..|pending| - 1], o), last.removed, last.added, last.height, o)
  }

  predicate HeightsAscend(pending: seq<JournalEntry>) {
    forall i, j :: 0 <= i < j < |pending| ==> pending[i].height < pending[j].height
  }

  /** Retiring the oldest pending block leaves what the others wrote. */
  lemma {:induction false} RetireFirstNode(pending: seq<JournalEntry>, p: nat)
    requires pending != [] && HeightsAscend(pending)
    ensures Retired(LastNode(pending, p), LastAfter(pending[0].forest, p).Some?, pending[0].height)
            == LastNode(pending[1..], p)
    ensures LastNode(pending, p).Some? ==> LastNode(pending, p).value.0 <= pending[|pending| - 1].height
    ensures LastNode(pending[1..], p).Some? ==> LastNode(pending[1..], p).value.0 > pending[0].height
  {
    var n := |pending| - 1;
    if n > 0 {
      RetireFirstNode(pending[..n], p);
      assert pending[..n][1..] == pending[1..][..n - 1];
    }
  }

  lemma {:induction false} RetireFirstIndex(pending: seq<JournalEntry>, o: OutPoint)
    requires pending != [] && HeightsAscend(pending)
    ensures Retired(LastIndex(pending, o), Mentions(pending[0].removed, o)
            || Mentions(pending[0].added, o), pending[0].height)
            == LastIndex(pending[1..], o)
    ensures LastIndex(pending, o).Some? ==> LastIndex(pending, o).value.0 <= pending[|pending| - 1].height
    ensures LastIndex(pending[1..], o).Some? ==> LastIndex(pending[1..], o).value.0 > pending[0].height
  {
    var n := |pending| - 1;
    if n > 0 {
      RetireFirstIndex(pending[..n], o);
      assert pending[..n][1..] == pending[1..][..n - 1];
    }
  }
}
