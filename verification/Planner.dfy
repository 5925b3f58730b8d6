/**
 Planning one block against the forest without writing it.

 Deleted leaves are marked spent and their ancestors recombined one row at a time; then every
 addition is appended and carried up through the roots it completes. The result is one delta
 per touched position. The theorem: applying the planned after-states to the forest of a bottom
 row gives the forest rebuilt from the new bottom row.
 */
module Planner {
  import opened Bits
  import opened Wrappers
  import opened Coordinates
  import opened Forest
  import opened Entry
  import opened Sorting

  datatype PlannedNode = PlannedNode(before: NodeState, after: Node)

  datatype PlanError = CapacityExhausted

  // ----- The bottom row after a block -----

  function MarkSpent(leaves: seq<Node>, positions: set<nat>): (r: seq<Node>)
    ensures |r| == |leaves|
  {
    seq(|leaves|, i requires 0 <= i < |leaves| => if i in positions then Node(leaves[i].hash, true) else leaves[i])
  }

  function Unspent(hashes: seq<Hash>): (r: seq<Node>)
    ensures |r| == |hashes|
  {
    seq(|hashes|, i requires 0 <= i < |hashes| => Node(hashes[i], false))
  }

  function PositionSet(deletions: seq<(OutPoint, nat)>): (r: set<nat>)
    ensures forall i :: 0 <= i < |deletions| ==> deletions[i].1 in r
  {
    set i | 0 <= i < |deletions| :: deletions[i].1
  }

  lemma {:induction false} PositionSetStep(deletions: seq<(OutPoint, nat)>, i: nat)
    requires i < |deletions|
    ensures PositionSet(deletions[..i + 1]) == PositionSet(deletions[..i]) + {deletions[i].1}
  {
    var s, t := deletions[..i], deletions[..i + 1];
    forall x | x in PositionSet(t)
      ensures x in PositionSet(s) + {deletions[i].1}
    {
      var j :| 0 <= j < |t| && t[j].1 == x;
      if j < i { assert s[j].1 == x; }
    }
    forall x | x in PositionSet(s)
      ensures x in PositionSet(t)
    {
      var j :| 0 <= j < |s| && s[j].1 == x;
      assert t[j].1 == x;
    }
    assert t[i].1 == deletions[i].1;
  }

  function HashesOf(additions: seq<(OutPoint, Hash)>): (r: seq<Hash>)
    ensures |r| == |additions|
  {
    seq(|additions|, i requires 0 <= i < |additions| => additions[i].1)
  }

  /** Deletions marked spent, additions appended. */
  function NextLeaves(leaves: seq<Node>, deletions: seq<(OutPoint, nat)>,
                      additions: seq<(OutPoint, Hash)>): (r: seq<Node>)
    ensures |r| == |leaves| + |additions|
  {
    MarkSpent(leaves, PositionSet(deletions)) + Unspent(HashesOf(additions))
  }

  // ----- Reading through the overlay and the plan -----

  /** The forest as the producer sees it: durable cells under the newer overlay. */
  function View(cells: seq<NodeState>, overlay: map<nat, NodeState>): (view: seq<NodeState>)
    ensures |view| == |cells|
  {
    seq(|cells|, p requires 0 <= p < |cells| => if p in overlay then overlay[p] else cells[p])
  }

  function StagedState(view: seq<NodeState>, nodes: map<nat, PlannedNode>, p: nat): NodeState
    requires p < |view|
  {
    if p in nodes then ReadyState(nodes[p].after) else view[p]
  }

  function StagedRead(cells: seq<NodeState>, overlay: map<nat, NodeState>, nodes: map<nat, PlannedNode>,
                      p: nat): (r: Option<Node>)
    ensures p < |cells| ==>
              var s := StagedState(View(cells, overlay), nodes, p);
              r == if s.ready then Some(NodeOf(s)) else None
  {
    if p in nodes then Some(nodes[p].after)
    else if p in overlay then (if overlay[p].ready then Some(NodeOf(overlay[p])) else None)
    else if p < |cells| && cells[p].ready then Some(NodeOf(cells[p]))
    else None
  }

  function StageNode(cells: seq<NodeState>, overlay: map<nat, NodeState>, nodes: map<nat, PlannedNode>, p: nat,
                     after: Node): (r: map<nat, PlannedNode>)
    requires p < |cells|
    ensures r.Keys == nodes.Keys + {p}
    ensures r[p].after == after
    ensures Truthful(View(cells, overlay), nodes) ==> Truthful(View(cells, overlay), r)
    ensures forall q :: q in nodes && q != p ==> r[q] == nodes[q]
  {
    if p in nodes then nodes[p := PlannedNode(nodes[p].before, after)]
    else nodes[p := PlannedNode(if p in overlay then overlay[p] else cells[p], after)]
  }

  /** Every planned node remembers the state it replaces. */
  ghost predicate Truthful(view: seq<NodeState>, nodes: map<nat, PlannedNode>) {
    forall p :: p in nodes ==> p < |view| && nodes[p].before == view[p]
  }

  // ----- Facts about the bottom row -----

  /** Some deleted leaf lies below the coordinate. */
  ghost predicate Touched(c: Coord, deleted: set<nat>) {
    exists d :: d in deleted && Shr(d, c.row) == c.off
  }

  lemma {:induction false} UntouchedValue(leaves: seq<Node>, deleted: set<nat>, c: Coord)
    requires Ready(|leaves|, c) && !Touched(c, deleted)
    ensures Value(MarkSpent(leaves, deleted), c) == Value(leaves, c)
  {
    ValueLocal(MarkSpent(leaves, deleted), leaves, c);
  }

  /** A ready node above a deleted leaf has a ready node above that leaf in every lower row. */
  lemma {:induction false} TouchedBelow(leaves: nat, c: Coord, row: nat, d: nat)
    requires Ready(leaves, c) && Shr(d, c.row) == c.off && row <= c.row
    ensures Ready(leaves, Coord(row, Shr(d, row)))
  {
    if Shr(d, row) >= Shr(leaves, row) {
      ShrMonotone(Shr(leaves, row), Shr(d, row), c.row - row);
      ShrShr(leaves, row, c.row - row);
      ShrShr(d, row, c.row - row);
    }
  }

  /** Appending a leaf whose low bits are all carried makes one new node ready in each carried row. */
  lemma {:induction false} ShrCarry(n: nat, row: nat, k: nat)
    requires forall j: nat :: j < row ==> Shr(n, j) % 2 == 1
    ensures k <= row ==> Shr(n + 1, k) == Shr(n, k) + 1
    ensures k > row && Shr(n, row) % 2 == 0 ==> Shr(n + 1, k) == Shr(n, k)
  {
    if k > 0 { ShrCarry(n, row, k - 1); }
  }

  lemma {:induction false} AppendedValue(leaves: seq<Node>, more: seq<Node>, c: Coord)
    requires Ready(|leaves|, c)
    ensures Ready(|leaves + more|, c)
    ensures Value(leaves + more, c) == Value(leaves, c)
  {
    ShrMonotone(|leaves|, |leaves + more|, c.row);
    forall i | 0 <= i < |leaves + more| && i < |leaves|
      ensures (leaves + more)[i] == leaves[i]
    {
    }
    ValueLocal(leaves + more, leaves, c);
  }

  /** The cell of a coordinate while an appended leaf has been carried up to `row`. */
  ghost function CarriedCell(leaves: seq<Node>, leaf: Node, row: nat, c: Coord): NodeState {
    if c.row <= row && c.off == Shr(|leaves|, c.row) then Cell(leaves + [leaf], c) else Cell(leaves, c)
  }

  lemma {:induction false} CarriedToTop(leaves: seq<Node>, leaf: Node, row: nat, c: Coord)
    requires forall j: nat :: j < row ==> Shr(|leaves|, j) % 2 == 1
    requires Shr(|leaves|, row) % 2 == 0
    ensures CarriedCell(leaves, leaf, row, c) == Cell(leaves + [leaf], c)
  {
    ShrCarry(|leaves|, row, c.row);
    if Ready(|leaves|, c) { AppendedValue(leaves, [leaf], c); }
  }

  // ----- Deletions -----

  /** The cell of a coordinate once deletions have been propagated up to `row`. */
  ghost function LevelCell(leaves: seq<Node>, deleted: set<nat>, row: int, c: Coord): NodeState {
    if c.row <= row then Cell(MarkSpent(leaves, deleted), c) else Cell(leaves, c)
  }

  /** The staged view holds `LevelCell` everywhere. */
  ghost predicate StagedToLevel(view: seq<NodeState>, nodes: map<nat, PlannedNode>, rows: nat, leaves: seq<Node>,
                                deleted: set<nat>, row: int) {
    && |view| == Capacity(rows)
    && Truthful(view, nodes)
    && forall p :: 0 <= p < |view| ==> StagedState(view, nodes, p) == LevelCell(leaves, deleted, row, At(p, rows))
  }

  method StageDeletions(cells: seq<NodeState>, overlay: map<nat, NodeState>, rows: nat, ghost leaves: seq<Node>,
                        deletions: seq<(OutPoint, nat)>)
    returns (nodes: map<nat, PlannedNode>, positions: set<nat>, removed: seq<IndexDelta>)
    requires IsForest(View(cells, overlay), rows, leaves)
    requires forall i :: 0 <= i < |deletions| ==> deletions[i].1 < |leaves|
    ensures positions == PositionSet(deletions)
    ensures StagedToLevel(View(cells, overlay), nodes, rows, leaves, positions, 0)
    ensures |removed| == |deletions|
            && forall i :: 0 <= i < |deletions| ==> removed[i] == IndexDelta(deletions[i].0, deletions[i].1)
  {
    hide At, Position, Pow2, Value, Cell, View, StagedToLevel;
    nodes, positions, removed := map[], {}, [];
    ghost var view := View(cells, overlay);
    for i := 0 to |deletions|
      invariant Truthful(view, nodes)
      invariant positions == PositionSet(deletions[..i])
      invariant SpentNodes(nodes, leaves, positions)
      invariant |removed| == i && forall j :: 0 <= j < i ==> removed[j] == IndexDelta(deletions[j].0, deletions[j].1)
    {
      var position := deletions[i].1;
      LeafStaged(view, nodes, rows, leaves, positions, position);
      var node := StagedRead(cells, overlay, nodes, position);
      nodes := StageNode(cells, overlay, nodes, position, Node(node.value.hash, true));
      PositionSetStep(deletions, i);
      positions := positions + {position};
      removed := removed + [IndexDelta(deletions[i].0, position)];
    }
    assert deletions[..|deletions|] == deletions;
    DeletionsStaged(view, nodes, rows, leaves, positions);
  }

  /** Exactly the deleted leaves are staged, as spent. */
  ghost predicate SpentNodes(nodes: map<nat, PlannedNode>, leaves: seq<Node>, deleted: set<nat>) {
    && nodes.Keys == deleted
    && forall d :: d in deleted ==> d < |leaves| && nodes[d].after == Node(leaves[d].hash, true)
  }

  lemma {:induction false} LeafStaged(view: seq<NodeState>, nodes: map<nat, PlannedNode>, rows: nat,
                                      leaves: seq<Node>, deleted: set<nat>, p: nat)
    requires IsForest(view, rows, leaves) && SpentNodes(nodes, leaves, deleted) && p < |leaves|
    ensures p < |view|
    ensures StagedState(view, nodes, p).ready && StagedState(view, nodes, p).hash == leaves[p].hash
  {
    BottomPosition(p, rows);
    assert Shr(|leaves|, 0) == |leaves|;
  }

  lemma {:induction false} DeletionsStaged(view: seq<NodeState>, nodes: map<nat, PlannedNode>, rows: nat,
                                           leaves: seq<Node>, deleted: set<nat>)
    requires IsForest(view, rows, leaves) && Truthful(view, nodes) && SpentNodes(nodes, leaves, deleted)
    ensures StagedToLevel(view, nodes, rows, leaves, deleted, 0)
  {
    forall p | 0 <= p < |view|
      ensures StagedState(view, nodes, p) == LevelCell(leaves, deleted, 0, At(p, rows))
    {
      PositionAt(p, rows);
      assert Shr(|leaves|, 0) == |leaves|;
      if p in deleted { BottomPosition(p, rows); }
    }
  }

  /** Recombines the given nodes of one row from their staged children. */
  method StageParents(cells: seq<NodeState>, overlay: map<nat, NodeState>, rows: nat, ghost leaves: seq<Node>,
                      ghost deleted: set<nat>,
                      ghost row: nat, nodes: map<nat, PlannedNode>, parents: set<nat>)
    returns (staged: map<nat, PlannedNode>)
    requires rows <= MAX_ROWS && |leaves| <= Pow2(rows)
    requires StagedToLevel(View(cells, overlay), nodes, rows, leaves, deleted, row)
    requires forall q :: q in parents ==> q < |cells| && At(q, rows).row == row + 1 && Ready(|leaves|, At(q, rows))
    requires forall q :: 0 <= q < |cells| && At(q, rows).row == row + 1 ==>
               Ready(|leaves|, At(q, rows)) && Touched(At(q, rows), deleted) ==> q in parents
    ensures StagedToLevel(View(cells, overlay), staged, rows, leaves, deleted, row + 1)
  {
    hide At, Position, Pow2, Shr, Value, Cell, CombineStaged;
    ghost var view := View(cells, overlay);
    var todo: set<nat> := parents;
    staged := nodes;
    while todo != {}
      invariant todo <= parents
      invariant Truthful(view, staged)
      invariant StagedExcept(view, staged, rows, leaves, deleted, row, parents - todo)
      decreases |todo|
    {
      var q := Least(todo);
      ParentCombined(cells, overlay, nodes, rows, leaves, deleted, row, q);
      var after := CombineStaged(cells, overlay, nodes, rows, q);
      var next := StageNode(cells, overlay, staged, q, after.value);
      PositionAt(q, rows);
      ParentStaged(view, staged, next, rows, leaves, deleted, row, parents - todo, At(q, rows), q);
      staged := next;
      assert parents - (todo - {q}) == parents - todo + {q};
      todo := todo - {q};
    }
    assert parents - {} == parents;
    RowStaged(view, staged, rows, leaves, deleted, row, parents);
  }

  /** Of the next row exactly the nodes in `done` are recombined already. */
  ghost predicate StagedExcept(view: seq<NodeState>, staged: map<nat, PlannedNode>, rows: nat, leaves: seq<Node>,
                               deleted: set<nat>, row: nat, done: set<nat>) {
    && |view| == Capacity(rows)
    && forall p :: 0 <= p < |view| ==>
           StagedState(view, staged, p) == LevelCell(leaves, deleted, if p in done then row + 1 else row, At(p, rows))
  }

  lemma {:induction false} ParentStaged(view: seq<NodeState>, staged: map<nat, PlannedNode>, next: map<nat,
                                        PlannedNode>, rows: nat, leaves: seq<Node>, deleted: set<nat>,
                     row: nat, done: set<nat>, c: Coord, q: nat)
    requires StagedExcept(view, staged, rows, leaves, deleted, row, done)
    requires c.row == row + 1 && Ready(|leaves|, c) && InLayout(c, rows) && q == Position(c, rows) < |view|
    requires next.Keys == staged.Keys + {q} && forall p :: p in staged && p != q ==> next[p] == staged[p]
    requires next[q].after == Value(MarkSpent(leaves, deleted), c)
    ensures StagedExcept(view, next, rows, leaves, deleted, row, done + {q})
  {
    assert At(q, rows) == c;
    forall p | 0 <= p < |view|
      ensures StagedState(view, next, p)
              == LevelCell(leaves, deleted, if p in done + {q} then row + 1 else row, At(p, rows))
    {
      if p != q { assert p in next <==> p in staged; }
    }
  }

  lemma {:induction false} RowStaged(view: seq<NodeState>, staged: map<nat, PlannedNode>, rows: nat,
                                     leaves: seq<Node>, deleted: set<nat>, row: nat, parents: set<nat>)
    requires rows <= MAX_ROWS && |view| == Capacity(rows) && Truthful(view, staged)
    requires StagedExcept(view, staged, rows, leaves, deleted, row, parents)
    requires forall q :: 0 <= q < |view| && At(q, rows).row == row + 1 ==>
               Ready(|leaves|, At(q, rows)) && Touched(At(q, rows), deleted) ==> q in parents
    ensures StagedToLevel(view, staged, rows, leaves, deleted, row + 1)
  {
    forall p | 0 <= p < |view|
      ensures StagedState(view, staged, p) == LevelCell(leaves, deleted, row + 1, At(p, rows))
    {
      if p !in parents && At(p, rows).row == row + 1 && Ready(|leaves|, At(p, rows)) {
        UntouchedValue(leaves, deleted, At(p, rows));
      }
    }
  }

  /** Reads both staged children of a node and combines them. */
  function CombineStaged(cells: seq<NodeState>, overlay: map<nat, NodeState>, nodes: map<nat, PlannedNode>, rows: nat,
                         q: nat): Option<Node>
    requires rows <= MAX_ROWS
  {
    MaskPositive(rows);
    var left := LeftChild(q, rows);
    match (StagedRead(cells, overlay, nodes, left), StagedRead(cells, overlay, nodes, left + 1))
    case (Some(l), Some(r)) => Some(Combine(l, r))
    case _ => None
  }

  lemma {:induction false} ParentCombined(cells: seq<NodeState>, overlay: map<nat, NodeState>, nodes: map<nat,
                                          PlannedNode>, rows: nat, leaves: seq<Node>,
                       deleted: set<nat>, row: nat, q: nat)
    requires rows <= MAX_ROWS && |leaves| <= Pow2(rows)
    requires StagedToLevel(View(cells, overlay), nodes, rows, leaves, deleted, row)
    requires q < |cells| && At(q, rows).row == row + 1 && Ready(|leaves|, At(q, rows))
    ensures CombineStaged(cells, overlay, nodes, rows, q) == Some(Value(MarkSpent(leaves, deleted), At(q, rows)))
  {
    hide At, Position, Pow2, LeftChild, Value, Shl, Shr;
    PositionAt(q, rows);
    LeftChildAgrees(At(q, rows), rows);
    ChildrenStaged(View(cells, overlay), nodes, rows, leaves, deleted, row, q);
  }

  lemma {:induction false} ChildrenStaged(view: seq<NodeState>, nodes: map<nat, PlannedNode>, rows: nat,
                                          leaves: seq<Node>, deleted: set<nat>, row: nat, q: nat)
    requires rows <= MAX_ROWS && |leaves| <= Pow2(rows)
    requires StagedToLevel(view, nodes, rows, leaves, deleted, row)
    requires q < |view| && At(q, rows).row == row + 1 && Ready(|leaves|, At(q, rows))
    ensures InLayout(LeftBelow(At(q, rows)), rows) && InLayout(RightBelow(At(q, rows)), rows)
    ensures var left, right := StagedState(view, nodes, Position(LeftBelow(At(q, rows)), rows)),
            StagedState(view, nodes, Position(RightBelow(At(q, rows)), rows));
            && left.ready && right.ready
            && Combine(NodeOf(left), NodeOf(right)) == Value(MarkSpent(leaves, deleted), At(q, rows))
  {
    var c := At(q, rows);
    ReadyBelow(|leaves|, c);
    ReadyInLayout(|leaves|, LeftBelow(c), rows);
    ReadyInLayout(|leaves|, RightBelow(c), rows);
    assert At(Position(LeftBelow(c), rows), rows) == LeftBelow(c);
    assert At(Position(RightBelow(c), rows), rows) == RightBelow(c);
  }

  /** The positions of one row that lie above a deleted leaf. */
  ghost predicate IsFrontier(positions: set<nat>, rows: nat, leaves: nat, deleted: set<nat>, row: nat) {
    && (forall p :: p in positions ==>
           p < Capacity(rows) && At(p, rows).row == row && Ready(leaves, At(p, rows))
           && Touched(At(p, rows), deleted))
    && (forall p :: 0 <= p < Capacity(rows) && At(p, rows).row == row ==>
          Ready(leaves, At(p, rows)) && Touched(At(p, rows), deleted) ==> p in positions)
  }

  function ParentSet(positions: set<nat>, leaves: nat, rows: nat): set<nat>
    requires rows <= MAX_ROWS && forall p :: p in positions ==> p < Capacity(rows)
  {
    set p | p in positions && !IsRootPosition(p, leaves, rows) :: Parent(p, rows)
  }

  lemma {:induction false} ParentAbove(p: nat, leaves: nat, rows: nat)
    requires rows <= MAX_ROWS && leaves <= Pow2(rows) && p < Capacity(rows) && Ready(leaves, At(p, rows))
    requires !IsRootPosition(p, leaves, rows)
    ensures InLayout(Above(At(p, rows)), rows) && Ready(leaves, Above(At(p, rows)))
    ensures Parent(p, rows) == Position(Above(At(p, rows)), rows)
    ensures !IsRoot(leaves, At(p, rows))
  {
    var c := At(p, rows);
    PositionAt(p, rows);
    IsRootAgrees(c, leaves, rows);
    ReadyAbove(leaves, c);
    ReadyInLayout(leaves, Above(c), rows);
    ParentAgrees(c, rows);
  }

  lemma {:induction false} FrontierAbove(positions: set<nat>, rows: nat, leaves: nat, deleted: set<nat>, row: nat)
    requires rows <= MAX_ROWS && leaves <= Pow2(rows)
    requires IsFrontier(positions, rows, leaves, deleted, row)
    ensures IsFrontier(ParentSet(positions, leaves, rows), rows, leaves, deleted, row + 1)
  {
    hide At, Position, Pow2, IsRootPosition, Parent;
    var parents := ParentSet(positions, leaves, rows);
    forall q | q in parents
      ensures q < Capacity(rows) && At(q, rows).row == row + 1 && Ready(leaves, At(q, rows))
              && Touched(At(q, rows), deleted)
    {
      var p :| p in positions && !IsRootPosition(p, leaves, rows) && Parent(p, rows) == q;
      ParentAbove(p, leaves, rows);
      var d :| d in deleted && Shr(d, row) == At(p, rows).off;
      assert Shr(d, row + 1) == At(q, rows).off;
    }
    forall q | 0 <= q < Capacity(rows) && At(q, rows).row == row + 1 && Ready(leaves, At(q, rows))
        && Touched(At(q, rows), deleted)
      ensures q in parents
    {
      FrontierChild(positions, rows, leaves, deleted, row, q);
    }
  }

  lemma {:induction false} FrontierChild(positions: set<nat>, rows: nat, leaves: nat, deleted: set<nat>, row: nat,
                                         q: nat)
    requires rows <= MAX_ROWS && leaves <= Pow2(rows)
    requires IsFrontier(positions, rows, leaves, deleted, row)
    requires q < Capacity(rows) && At(q, rows).row == row + 1 && Ready(leaves, At(q, rows))
             && Touched(At(q, rows), deleted)
    ensures q in ParentSet(positions, leaves, rows)
  {
    hide At, Position, Pow2, IsRootPosition, Parent;
    var c := At(q, rows);
    var d :| d in deleted && Shr(d, row + 1) == c.off;
    var below := Coord(row, Shr(d, row));
    TouchedBelow(leaves, c, row, d);
    ReadyInLayout(leaves, below, rows);
    var p := Position(below, rows);
    assert Touched(At(p, rows), deleted);
    assert p in positions;
    ReadyBelow(leaves, c);
    assert below == LeftBelow(c) || below == RightBelow(c);
    IsRootAgrees(below, leaves, rows);
    ParentAbove(p, leaves, rows);
    PositionAt(q, rows);
    assert Above(below) == c;
  }

  method PropagateDeletions(cells: seq<NodeState>, overlay: map<nat, NodeState>, rows: nat, ghost leaves: seq<Node>,
                            baseLeaves: nat,
                            nodes: map<nat, PlannedNode>, deleted: set<nat>)
    returns (staged: map<nat, PlannedNode>)
    requires rows <= MAX_ROWS && |leaves| == baseLeaves <= Pow2(rows)
    requires forall d :: d in deleted ==> d < baseLeaves
    requires StagedToLevel(View(cells, overlay), nodes, rows, leaves, deleted, 0)
    ensures StagedToLevel(View(cells, overlay), staged, rows, leaves, deleted, rows)
  {
    hide Position, Value, Pow2;
    ghost var view := View(cells, overlay);
    var positions: set<nat> := deleted;
    staged := nodes;
    ghost var row := 0;
    forall p | p in positions
      ensures p < Capacity(rows) && At(p, rows) == Coord(0, p) && Ready(baseLeaves, At(p, rows))
              && Touched(At(p, rows), deleted)
    {
      BottomPosition(p, rows);
      assert Shr(baseLeaves, 0) == baseLeaves && Shr(p, 0) == p;
    }
    forall p | 0 <= p < Capacity(rows) && At(p, rows).row == 0 && Touched(At(p, rows), deleted)
      ensures p in positions
    {
      PositionAt(p, rows);
      var d :| d in deleted && Shr(d, 0) == At(p, rows).off;
    }
    while positions != {}
      invariant IsFrontier(positions, rows, baseLeaves, deleted, row)
      invariant StagedToLevel(view, staged, rows, leaves, deleted, row)
      decreases rows + 1 - row
    {
      assert row <= rows by { var p: nat :| p in positions; assert InLayout(At(p, rows), rows); }
      var parents := ParentSet(positions, baseLeaves, rows);
      FrontierAbove(positions, rows, baseLeaves, deleted, row);
      staged := StageParents(cells, overlay, rows, leaves, deleted, row, staged, parents);
      positions := parents;
      row := row + 1;
    }
    forall p | 0 <= p < |view|
      ensures LevelCell(leaves, deleted, row, At(p, rows)) == LevelCell(leaves, deleted, rows, At(p, rows))
    {
      var c := At(p, rows);
      if c.row > row && Ready(baseLeaves, c) {
        NothingAboveEmptyFrontier(rows, baseLeaves, deleted, row, c);
        UntouchedValue(leaves, deleted, c);
      }
    }
  }

  lemma {:induction false} NothingAboveEmptyFrontier(rows: nat, leaves: nat, deleted: set<nat>, row: nat, c: Coord)
    requires rows <= MAX_ROWS && leaves <= Pow2(rows)
    requires IsFrontier({}, rows, leaves, deleted, row)
    requires c.row >= row && Ready(leaves, c)
    ensures !Touched(c, deleted)
  {
    if Touched(c, deleted) {
      var d :| d in deleted && Shr(d, c.row) == c.off;
      var below := Coord(row, Shr(d, row));
      TouchedBelow(leaves, c, row, d);
      ReadyInLayout(leaves, below, rows);
      assert At(Position(below, rows), rows) == below;
      assert Touched(below, deleted);
    }
  }

  // ----- Additions -----

  ghost predicate StagedAs(view: seq<NodeState>, nodes: map<nat, PlannedNode>, rows: nat, leaves: seq<Node>) {
    && |view| == Capacity(rows)
    && Truthful(view, nodes)
    && forall p :: 0 <= p < |view| ==> StagedState(view, nodes, p) == Cell(leaves, At(p, rows))
  }

  /** The staged view holds the old forest with `leaf` carried up to `row`. */
  ghost predicate StagedCarried(view: seq<NodeState>, nodes: map<nat, PlannedNode>, rows: nat, leaves: seq<Node>,
                                leaf: Node, row: nat) {
    && |view| == Capacity(rows)
    && Truthful(view, nodes)
    && forall p :: 0 <= p < |view| ==> StagedState(view, nodes, p) == CarriedCell(leaves, leaf, row, At(p, rows))
  }

  /** Bits below `row` are all set, so an appended leaf is carried at least that far. */
  ghost predicate CarryReaches(count: nat, row: nat) {
    forall j: nat :: j < row ==> Shr(count, j) % 2 == 1
  }

  function CombineRead(cells: seq<NodeState>, overlay: map<nat, NodeState>, nodes: map<nat, PlannedNode>, left: nat,
                       right: nat): Option<Node> {
    match (StagedRead(cells, overlay, nodes, left), StagedRead(cells, overlay, nodes, right))
    case (Some(l), Some(r)) => Some(Combine(l, r))
    case _ => None
  }

  method StageAddition(cells: seq<NodeState>, overlay: map<nat, NodeState>, rows: nat, nodes: map<nat, PlannedNode>,
                       ghost leaves: seq<Node>, count: nat, hash: Hash)
    returns (staged: map<nat, PlannedNode>)
    requires rows <= MAX_ROWS && count == |leaves| < Pow2(rows)
    requires StagedAs(View(cells, overlay), nodes, rows, leaves)
    ensures StagedAs(View(cells, overlay), staged, rows, leaves + [Node(hash, false)])
  {
    hide RootPosition, Parent, Shl, And, At, Position, Pow2, Value, Cell, CarriedCell, StagedRead;
    ghost var view := View(cells, overlay);
    var leaf := Node(hash, false);
    BottomPosition(count, rows);
    staged := StageNode(cells, overlay, nodes, count, leaf);
    LeafCarried(view, nodes, staged, rows, leaves, leaf);
    var position, row := count, 0;
    assert Shr(count, 0) == count;
    ShlOne(0);
    MaskPositive(rows);
    while And(count, Shl(1, row)) != 0
      invariant row <= rows && CarryReaches(count, row)
      invariant InLayout(Coord(row, Shr(count, row)), rows) && position == Position(Coord(row, Shr(count, row)), rows)
      invariant StagedCarried(view, staged, rows, leaves, leaf, row)
      decreases rows - row
    {
      CarryBit(count, row, rows);
      var left := RootPosition(count, row, rows);
      CarriedReady(count, row);
      CarryCombined(cells, overlay, staged, rows, leaves, leaf, row);
      var after := CombineRead(cells, overlay, staged, left, position);
      CarriedParent(count, row, rows);
      position := Parent(position, rows);
      var next := StageNode(cells, overlay, staged, position, after.value);
      CarriedUp(view, staged, next, rows, leaves, leaf, row);
      staged := next;
      row := row + 1;
    }
    CarryBit(count, row, rows);
    CarriedAll(view, staged, rows, leaves, leaf, row);
  }

  lemma {:induction false} CarriedAll(view: seq<NodeState>, staged: map<nat, PlannedNode>, rows: nat,
                                      leaves: seq<Node>, leaf: Node, row: nat)
    requires StagedCarried(view, staged, rows, leaves, leaf, row)
    requires CarryReaches(|leaves|, row) && Shr(|leaves|, row) % 2 == 0
    ensures StagedAs(view, staged, rows, leaves + [leaf])
  {
    forall p | 0 <= p < |view|
      ensures StagedState(view, staged, p) == Cell(leaves + [leaf], At(p, rows))
    {
      CarriedToTop(leaves, leaf, row, At(p, rows));
    }
  }

  lemma {:induction false} CarryBit(count: nat, row: nat, rows: nat)
    requires row <= rows <= MAX_ROWS && count < Pow2(rows)
    ensures And(count, Shl(1, row)) != 0 <==> Shr(count, row) % 2 == 1
    ensures Shr(count, row) % 2 == 1 ==> row < rows
  {
    hide Shl, And;
    AndBit(count, row);
    ShlOne(row);
    ShrBound(count, rows, 0);
  }

  lemma {:induction false} LeafCarried(view: seq<NodeState>, nodes: map<nat, PlannedNode>, staged: map<nat,
                                       PlannedNode>, rows: nat, leaves: seq<Node>, leaf: Node)
    requires StagedAs(view, nodes, rows, leaves) && |leaves| < Pow2(rows)
    requires Truthful(view, staged) && staged.Keys == nodes.Keys + {|leaves|} && staged[|leaves|].after == leaf
    requires forall q :: q in nodes && q != |leaves| ==> staged[q] == nodes[q]
    ensures StagedCarried(view, staged, rows, leaves, leaf, 0)
  {
    var n := |leaves|;
    forall p | 0 <= p < |view|
      ensures StagedState(view, staged, p) == CarriedCell(leaves, leaf, 0, At(p, rows))
    {
      assert Shr(n, 0) == n && Shr(n + 1, 0) == n + 1;
      if p == n {
        BottomPosition(n, rows);
        assert Value(leaves + [leaf], Coord(0, n)) == leaf;
      } else {
        PositionAt(p, rows);
        assert p in staged <==> p in nodes;
      }
    }
  }

  /** The carried node combines the last root of its row with the node carried so far. */
  lemma {:induction false} CarryCombined(cells: seq<NodeState>, overlay: map<nat, NodeState>, staged: map<nat,
                                         PlannedNode>, rows: nat, leaves: seq<Node>, leaf: Node, row: nat)
    requires row < rows <= MAX_ROWS && |leaves| < Pow2(rows) && CarryReaches(|leaves|, row)
             && Shr(|leaves|, row) % 2 == 1
    requires StagedCarried(View(cells, overlay), staged, rows, leaves, leaf, row)
    ensures Shl(2, rows) > 0
    ensures InLayout(Coord(row, Shr(|leaves|, row)), rows)
    ensures Ready(|leaves| + 1, Coord(row + 1, Shr(|leaves|, row + 1)))
    ensures CombineRead(cells, overlay, staged, RootPosition(|leaves|, row, rows),
            Position(Coord(row, Shr(|leaves|, row)), rows))
            == Some(Value(leaves + [leaf], Coord(row + 1, Shr(|leaves|, row + 1))))
  {
    hide RootPosition, Value, StagedRead, StagedState, At, Position, Pow2, Shl;
    var n := |leaves|;
    RootPositionAgrees(n, row, rows);
    CarriedReady(n, row);
    var left, right := Coord(row, Shr(n, row) - 1), Coord(row, Shr(n, row));
    var up := Coord(row + 1, Shr(n, row + 1));
    assert LeftBelow(up) == left && RightBelow(up) == right;
    CarriedRead(cells, overlay, staged, rows, leaves, leaf, row, left);
    CarriedRead(cells, overlay, staged, rows, leaves, leaf, row, right);
    ValueAbove(leaves + [leaf], up);
  }

  lemma {:induction false} ValueAbove(leaves: seq<Node>, c: Coord)
    requires c.row > 0 && Ready(|leaves|, c)
    ensures Ready(|leaves|, LeftBelow(c)) && Ready(|leaves|, RightBelow(c))
    ensures Value(leaves, c) == Combine(Value(leaves, LeftBelow(c)), Value(leaves, RightBelow(c)))
  {
    ReadyBelow(|leaves|, c);
  }

  /** The carried forest reads like the grown one wherever the old or the carried nodes are. */
  lemma {:induction false} CarriedRead(cells: seq<NodeState>, overlay: map<nat, NodeState>, staged: map<nat,
                                       PlannedNode>, rows: nat, leaves: seq<Node>, leaf: Node,
                    row: nat, c: Coord)
    requires rows <= MAX_ROWS && |leaves| < Pow2(rows)
    requires StagedCarried(View(cells, overlay), staged, rows, leaves, leaf, row)
    requires Ready(|leaves| + 1, c) && c.row <= row
    requires Ready(|leaves|, c) || c.off == Shr(|leaves|, c.row)
    ensures InLayout(c, rows)
    ensures StagedRead(cells, overlay, staged, Position(c, rows)) == Some(Value(leaves + [leaf], c))
  {
    hide At, Position, Pow2, Value, Shl, StagedRead, StagedState, View, Shr;
    ReadyInLayout(|leaves| + 1, c, rows);
    var p, grown := Position(c, rows), leaves + [leaf];
    assert StagedState(View(cells, overlay), staged, p) == ReadyState(Value(grown, c)) by {
      assert At(p, rows) == c;
      assert CarriedCell(leaves, leaf, row, c) == ReadyState(Value(grown, c)) by {
        if Ready(|leaves|, c) { AppendedValue(leaves, [leaf], c); }
      }
    }
  }

  lemma {:induction false} CarriedReady(n: nat, row: nat)
    requires CarryReaches(n, row) && Shr(n, row) % 2 == 1
    ensures CarryReaches(n, row + 1)
    ensures Ready(n, Coord(row, Shr(n, row) - 1)) && Ready(n + 1, Coord(row, Shr(n, row)))
    ensures Ready(n + 1, Coord(row + 1, Shr(n, row + 1)))
    ensures Shr(n, row + 1) == Shr(n, row) / 2
  {
    ShrCarry(n, row, row);
    ShrCarry(n, row + 1, row + 1);
  }

  lemma {:induction false} CarriedParent(n: nat, row: nat, rows: nat)
    requires row < rows <= MAX_ROWS && InLayout(Coord(row, Shr(n, row)), rows)
    ensures InLayout(Coord(row + 1, Shr(n, row + 1)), rows)
    ensures Parent(Position(Coord(row, Shr(n, row)), rows), rows) == Position(Coord(row + 1, Shr(n, row + 1)), rows)
  {
    ParentAgrees(Coord(row, Shr(n, row)), rows);
    assert Coord(row + 1, Shr(n, row + 1)) == Above(Coord(row, Shr(n, row)));
  }

  lemma {:induction false} CarriedUp(view: seq<NodeState>, staged: map<nat, PlannedNode>, next: map<nat, PlannedNode>,
                                     rows: nat, leaves: seq<Node>, leaf: Node, row: nat)
    requires row < rows <= MAX_ROWS && |leaves| < Pow2(rows) && Shr(|leaves|, row) % 2 == 1
    requires StagedCarried(view, staged, rows, leaves, leaf, row) && Truthful(view, next)
    requires InLayout(Coord(row, Shr(|leaves|, row)), rows)
    requires InLayout(Coord(row + 1, Shr(|leaves|, row + 1)), rows)
    requires Ready(|leaves| + 1, Coord(row + 1, Shr(|leaves|, row + 1)))
    requires var q := Position(Coord(row + 1, Shr(|leaves|, row + 1)), rows);
             && next.Keys == staged.Keys + {q} && (forall p :: p in staged && p != q ==> next[p] == staged[p])
             && next[q].after == Value(leaves + [leaf], Coord(row + 1, Shr(|leaves|, row + 1)))
    ensures StagedCarried(view, next, rows, leaves, leaf, row + 1)
  {
    var n := |leaves|;
    var up := Coord(row + 1, Shr(n, row + 1));
    var q := Position(up, rows);
    assert At(q, rows) == up;
    forall p | 0 <= p < |view|
      ensures StagedState(view, next, p) == CarriedCell(leaves, leaf, row + 1, At(p, rows))
    {
      PositionAt(p, rows);
      if p != q {
        assert p in next <==> p in staged;
        CarriedElsewhere(leaves, leaf, row, At(p, rows));
      }
    }
  }

  lemma {:induction false} CarriedElsewhere(leaves: seq<Node>, leaf: Node, row: nat, c: Coord)
    requires c != Coord(row + 1, Shr(|leaves|, row + 1))
    ensures CarriedCell(leaves, leaf, row, c) == CarriedCell(leaves, leaf, row + 1, c)
  {
  }

  method StageAdditions(cells: seq<NodeState>, overlay: map<nat, NodeState>, rows: nat, nodes: map<nat, PlannedNode>,
                        ghost leaves: seq<Node>, baseLeaves: nat, additions: seq<(OutPoint, Hash)>)
    returns (staged: map<nat, PlannedNode>, added: seq<IndexDelta>)
    requires rows <= MAX_ROWS && baseLeaves == |leaves| && baseLeaves + |additions| <= Pow2(rows)
    requires StagedAs(View(cells, overlay), nodes, rows, leaves)
    ensures StagedAs(View(cells, overlay), staged, rows, leaves + Unspent(HashesOf(additions)))
    ensures |added| == |additions|
            && forall i :: 0 <= i < |additions| ==> added[i] == IndexDelta(additions[i].0, baseLeaves + i)
  {
    staged, added := nodes, [];
    ghost var grown := leaves;
    for i := 0 to |additions|
      invariant grown == leaves + Unspent(HashesOf(additions))[..i]
      invariant StagedAs(View(cells, overlay), staged, rows, grown)
      invariant |added| == i && forall j :: 0 <= j < i ==> added[j] == IndexDelta(additions[j].0, baseLeaves + j)
    {
      staged := StageAddition(cells, overlay, rows, staged, grown, baseLeaves + i, additions[i].1);
      grown := grown + [Node(additions[i].1, false)];
      added := added + [IndexDelta(additions[i].0, baseLeaves + i)];
    }
    assert grown == leaves + Unspent(HashesOf(additions));
  }

  // ----- The whole plan -----

  function SortedDeltas(nodes: map<nat, PlannedNode>): (deltas: seq<ForestDelta>)
    ensures AscendingDeltas(deltas)
    ensures |deltas| == |nodes|
  {
    var order := Sorted(nodes.Keys);
    seq(|order|,
        i requires 0 <= i < |order| => ForestDelta(order[i], nodes[order[i]].before,
        ReadyState(nodes[order[i]].after)))
  }

  /** Every delta starts from what the view holds and leaves a ready node. */
  ghost predicate StartsFrom(view: seq<NodeState>, deltas: seq<ForestDelta>) {
    forall i :: 0 <= i < |deltas| ==>
      deltas[i].position < |view| && deltas[i].before == view[deltas[i].position] && deltas[i].after.ready
  }

  lemma {:induction false} DeltasOfPlan(view: seq<NodeState>, nodes: map<nat, PlannedNode>, rows: nat,
                                        leaves: seq<Node>)
    requires rows <= MAX_ROWS && |leaves| <= Pow2(rows) && StagedAs(view, nodes, rows, leaves)
    ensures StartsFrom(view, SortedDeltas(nodes))
    ensures IsForest(After(view, SortedDeltas(nodes)), rows, leaves)
  {
    hide At, Position, Value, Cell, Pow2;
    var deltas := SortedDeltas(nodes);
    forall p | 0 <= p < |view|
      ensures After(view, deltas)[p] == StagedState(view, nodes, p)
    {
      DeltaOfPlan(view, nodes, p);
    }
  }

  lemma {:induction false} DeltaOfPlan(view: seq<NodeState>, nodes: map<nat, PlannedNode>, p: nat)
    requires p < |view|
    ensures After(view, SortedDeltas(nodes))[p] == StagedState(view, nodes, p)
  {
    var deltas := SortedDeltas(nodes);
    var order := Sorted(nodes.Keys);
    if p in nodes {
      assert p in order;
      var i :| 0 <= i < |order| && order[i] == p;
      LastAfterAt(deltas, i);
    } else {
      assert p !in order;
      LastAfterNone(deltas, p);
    }
  }

  /** What a planned entry says about the block it was planned for. */
  ghost predicate PlanOf(entry: JournalEntry, view: seq<NodeState>, rows: nat, leaves: seq<Node>,
                         deletions: seq<(OutPoint, nat)>, additions: seq<(OutPoint, Hash)>) {
    && entry.forestRows == Some(rows)
    && entry.numLeaves == |leaves| + |additions|
    && AscendingDeltas(entry.forest)
    && StartsFrom(view, entry.forest)
    && IsForest(After(view, entry.forest), rows, NextLeaves(leaves, deletions, additions))
    && |entry.removed| == |deletions|
    && (forall i :: 0 <= i < |deletions| ==> entry.removed[i] == IndexDelta(deletions[i].0, deletions[i].1))
    && |entry.added| == |additions|
    && (forall i :: 0 <= i < |additions| ==> entry.added[i] == IndexDelta(additions[i].0, |leaves| + i))
  }

  /** Deletion positions come from the leaf map, so they lie below the leaf count. */
  method PlanUpdate(cells: seq<NodeState>, overlay: map<nat, NodeState>, rows: nat, ghost leaves: seq<Node>,
                    baseLeaves: nat,
                    height: nat, blockHash: Hash, previousBlockHash: Hash,
                    deletions: seq<(OutPoint, nat)>, additions: seq<(OutPoint, Hash)>)
    returns (r: Result<JournalEntry, PlanError>)
    requires IsForest(View(cells, overlay), rows, leaves) && baseLeaves == |leaves|
    requires forall i :: 0 <= i < |deletions| ==> deletions[i].1 < baseLeaves
    ensures r.Err? <==> baseLeaves + |additions| > Pow2(rows)
    ensures r.Ok? ==>
              && PlanOf(r.value, View(cells, overlay), rows, leaves, deletions, additions)
              && r.value.height == height && r.value.blockHash == blockHash
                   && r.value.previousBlockHash == previousBlockHash
  {
    var finalLeaves := baseLeaves + |additions|;
    if finalLeaves > Pow2(rows) {
      return Err(CapacityExhausted);
    }
    var nodes, positions, removed := StageDeletions(cells, overlay, rows, leaves, deletions);
    DeletedBelow(deletions, baseLeaves);
    nodes := PropagateDeletions(cells, overlay, rows, leaves, baseLeaves, nodes, positions);
    ghost var marked := MarkSpent(leaves, positions);
    assert StagedAs(View(cells, overlay), nodes, rows, marked);
    var added;
    nodes, added := StageAdditions(cells, overlay, rows, nodes, marked, baseLeaves, additions);
    DeltasOfPlan(View(cells, overlay), nodes, rows, NextLeaves(leaves, deletions, additions));
    r := Ok(JournalEntry(height, blockHash, finalLeaves, previousBlockHash, SortedDeltas(nodes), removed, added,
        Some(rows)));
  }

  lemma {:induction false} DeletedBelow(deletions: seq<(OutPoint, nat)>, count: nat)
    requires forall i :: 0 <= i < |deletions| ==> deletions[i].1 < count
    ensures forall d :: d in PositionSet(deletions) ==> d < count
  {
  }

  // ----- Roots -----

  function AccumulatorHash(n: Node): Hash {
    if n.spent then ZERO_HASH else n.hash
  }

  /** The roots of a bottom row, tallest tree first, for the rows up to `row`. */
  function RootsFrom(leaves: seq<Node>, row: int): seq<Hash>
    requires row >= -1
    decreases row + 1
  {
    if row < 0 then []
    else if Shr(|leaves|, row) % 2 == 1 then
      [AccumulatorHash(Value(leaves, Coord(row, Shr(|leaves|, row) - 1)))] + RootsFrom(leaves, row - 1)
    else RootsFrom(leaves, row - 1)
  }

  /** The set bits of a number. */
  function Ones(x: nat): nat {
    if x == 0 then 0 else x % 2 + Ones(x / 2)
  }

  lemma {:induction false} OnesShifted(n: nat, row: nat)
    ensures Ones(Shr(n, row)) == Shr(n, row) % 2 + Ones(Shr(n, row + 1))
  {
    hide Ones;
    assert Shr(n, row + 1) == Shr(n, row) / 2;
    assert Ones(Shr(n, row)) == Shr(n, row) % 2 + Ones(Shr(n, row) / 2) by { OnesStep(Shr(n, row)); }
  }

  lemma {:induction false} OnesStep(x: nat)
    ensures Ones(x) == x % 2 + Ones(x / 2)
  {
  }

  /** The root of the tree of each set bit stands behind those of the higher bits; a spent one is the zero hash. */
  lemma {:induction false} RootsListed(leaves: seq<Node>, row: int)
    requires row >= -1
    ensures |RootsFrom(leaves, row)| == Ones(|leaves|) - Ones(Shr(|leaves|, row + 1))
    ensures forall r :: 0 <= r <= row && Shr(|leaves|, r) % 2 == 1 ==>
              var i := Ones(Shr(|leaves|, r + 1)) - Ones(Shr(|leaves|, row + 1));
              var root := Value(leaves, Coord(r, Shr(|leaves|, r) - 1));
              0 <= i < |RootsFrom(leaves, row)|
                  && RootsFrom(leaves, row)[i] == if root.spent then ZERO_HASH else root.hash
    decreases row + 1
  {
    hide Shr, Ones, Value;
    if row < 0 {
      assert Shr(|leaves|, 0) == |leaves| by { ShrNone(|leaves|); }
    } else {
      OnesShifted(|leaves|, row);
      RootsListed(leaves, row - 1);
    }
  }

  lemma {:induction false} ShrNone(n: nat)
    ensures Shr(n, 0) == n
  {
  }

  /** A position after the entry: its delta, else the overlay, else the file. */
  function ChangedState(cells: seq<NodeState>, overlay: map<nat, NodeState>, deltas: seq<ForestDelta>,
                        p: nat): (s: NodeState)
    requires p < |cells|
    ensures s == After(View(cells, overlay), deltas)[p]
  {
    match LastAfter(deltas, p)
    case Some(s) => s
    case None => if p in overlay then overlay[p] else cells[p]
  }

  datatype RootsError = DifferentBase

  lemma {:induction false} RootRead(view: seq<NodeState>, rows: nat, leaves: seq<Node>, row: nat)
    requires IsForest(view, rows, leaves) && row <= rows && Shr(|leaves|, row) % 2 == 1
    ensures Shl(2, rows) > 0
    ensures RootPosition(|leaves|, row, rows) < |view|
    ensures view[RootPosition(|leaves|, row, rows)] == ReadyState(Value(leaves, Coord(row, Shr(|leaves|, row) - 1)))
  {
    hide RootPosition, Value, Shl, At, Position, Pow2;
    RootPositionAgrees(|leaves|, row, rows);
    ForestRead(view, rows, leaves, Coord(row, Shr(|leaves|, row) - 1));
  }

  lemma {:induction false} FileSize(cells: seq<NodeState>, overlay: map<nat, NodeState>, deltas: seq<ForestDelta>,
                                    rows: nat, leaves: seq<Node>)
    requires IsForest(After(View(cells, overlay), deltas), rows, leaves)
    ensures rows <= MAX_ROWS && |cells| == Capacity(rows) && |leaves| <= Pow2(rows)
  {
  }

  lemma {:induction false} RootsMore(roots: seq<Hash>, leaves: seq<Node>, row: nat)
    requires Shr(|leaves|, row) % 2 == 1
    ensures roots + RootsFrom(leaves, row)
            == roots + [AccumulatorHash(Value(leaves, Coord(row, Shr(|leaves|, row) - 1)))] + RootsFrom(leaves, row - 1)
  {
  }

  lemma {:induction false} RootsSkip(leaves: seq<Node>, row: nat)
    requires Shr(|leaves|, row) % 2 != 1
    ensures RootsFrom(leaves, row) == RootsFrom(leaves, row - 1)
  {
  }

  lemma {:induction false} RootsDone(roots: seq<Hash>, leaves: seq<Node>)
    ensures roots + RootsFrom(leaves, -1) == roots
  {
  }

  lemma {:induction false} RootsOfAll(leaves: seq<Node>, rows: nat)
    requires |leaves| <= Pow2(rows)
    ensures |RootsFrom(leaves, rows)| == Ones(|leaves|)
    ensures forall row :: 0 <= row && Shr(|leaves|, row) % 2 == 1 ==>
              var i, root := Ones(Shr(|leaves|, row + 1)), Value(leaves, Coord(row, Shr(|leaves|, row) - 1));
              i < |RootsFrom(leaves, rows)| && RootsFrom(leaves, rows)[i] == if root.spent then ZERO_HASH else root.hash
  {
    hide Shr, Value, RootsFrom, Pow2;
    ShrBeyond(|leaves|, rows, rows + 1);
    RootsListed(leaves, rows);
    forall row | row > rows
      ensures Shr(|leaves|, row) == 0
    {
      ShrBeyond(|leaves|, rows, row);
    }
  }

  method RootsAfter(cells: seq<NodeState>, overlay: map<nat, NodeState>, rows: nat, baseLeaves: nat,
                    entry: JournalEntry, ghost after: seq<Node>)
    returns (r: Result<seq<Hash>, RootsError>)
    requires IsForest(After(View(cells, overlay), entry.forest), rows, after)
    requires entry.numLeaves == |after|
    ensures r == if entry.PreviousNumLeaves() == Some(baseLeaves) then Ok(RootsFrom(after, rows))
            else Err(DifferentBase)
    ensures r.Err? <==> entry.numLeaves != baseLeaves + |entry.added|
    ensures r.Ok? ==> |r.value| == Ones(|after|)
    ensures r.Ok? ==> forall row :: 0 <= row && Shr(|after|, row) % 2 == 1 ==>
              var i, root := Ones(Shr(|after|, row + 1)), Value(after, Coord(row, Shr(|after|, row) - 1));
              i < |r.value| && r.value[i] == if root.spent then ZERO_HASH else root.hash
  {
    hide Ones, RootPosition, And, Shl, At, Position, Pow2, Value, Cell, View, After, LastAfter, Shr, RootsFrom,
         IsForest;
    assert rows <= MAX_ROWS && |cells| == Capacity(rows)
        && |after| <= Pow2(rows) by { FileSize(cells, overlay, entry.forest, rows, after); }
    if entry.PreviousNumLeaves() != Some(baseLeaves) {
      return Err(DifferentBase);
    }
    ghost var view := After(View(cells, overlay), entry.forest);
    var roots: seq<Hash> := [];
    var row: int := rows;
    while row >= 0
      invariant -1 <= row <= rows
      invariant roots + RootsFrom(after, row) == RootsFrom(after, rows)
      decreases row + 1
    {
      AndBit(entry.numLeaves, row);
      ShlOne(row);
      MaskPositive(rows);
      if And(entry.numLeaves, Shl(1, row)) != 0 {
        var position := RootPosition(entry.numLeaves, row, rows);
        RootRead(view, rows, after, row);
        var state := ChangedState(cells, overlay, entry.forest, position);
        assert state.ready;
        RootsMore(roots, after, row);
        roots := roots + [AccumulatorHash(NodeOf(state))];
      } else {
        RootsSkip(after, row);
      }
      row := row - 1;
    }
    RootsDone(roots, after);
    r := Ok(roots);
    RootsOfAll(after, rows);
  }
}
