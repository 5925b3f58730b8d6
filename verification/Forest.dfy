/**
 The value of a forest over its bottom row.

 Deleting a leaf only marks it spent; a node whose one child is spent takes the other child's
 place, so live hashes are promoted towards the root. `Value` is the meaning of every internal
 node, `IsForest` says that a flat array holds exactly those values.
 */
module Forest {
  import opened Bits
  import opened Coordinates

  newtype byte = x: int | 0 <= x < 256

  /** A hash is its bytes; only the journal codec looks inside, and asks for 32 of them. */
  datatype Hash = Hash(bytes: seq<byte>)

  function Zeros(n: nat): seq<byte> {
    seq(n, i => 0 as byte)
  }

  const ZERO_HASH: Hash := Hash(Zeros(32))

  /** The accumulator's node hash; nothing is assumed about it. */
  const ParentHash: (Hash, Hash) -> Hash

  datatype Node = Node(hash: Hash, spent: bool)

  /** One cell of the flat file. An untouched cell is all zero. */
  datatype NodeState = NodeState(ready: bool, spent: bool, hash: Hash)

  const UNINITIALIZED: NodeState := NodeState(false, false, ZERO_HASH)

  /** The zero hash is 32 zero bytes, and a cell that nobody wrote is neither ready nor spent and holds it. */
  lemma {:induction false} ZeroCell()
    ensures |ZERO_HASH.bytes| == 32 && forall i :: 0 <= i < 32 ==> ZERO_HASH.bytes[i] == 0
    ensures !UNINITIALIZED.ready && !UNINITIALIZED.spent && UNINITIALIZED.hash == ZERO_HASH
  {
  }

  function Combine(left: Node, right: Node): Node {
    match (left.spent, right.spent)
    case (true, true) => Node(ZERO_HASH, true)
    case (true, false) => right
    case (false, true) => left
    case (false, false) => Node(ParentHash(left.hash, right.hash), false)
  }

  function ReadyState(n: Node): NodeState {
    NodeState(true, n.spent, n.hash)
  }

  function Value(leaves: seq<Node>, c: Coord): Node
    requires Ready(|leaves|, c)
    decreases c.row
  {
    if c.row == 0 then leaves[c.off]
    else
      ReadyBelow(|leaves|, c);
      Combine(Value(leaves, LeftBelow(c)), Value(leaves, RightBelow(c)))
  }

  /** Some leaf below a node is unspent. */
  predicate LiveBelow(leaves: seq<Node>, c: Coord)
    requires Ready(|leaves|, c)
    decreases c.row
  {
    if c.row == 0 then !leaves[c.off].spent
    else
      ReadyBelow(|leaves|, c);
      LiveBelow(leaves, LeftBelow(c)) || LiveBelow(leaves, RightBelow(c))
  }

  /**
   A node is spent exactly when every leaf below it is, and then holds the zero hash above the bottom
   row; it is its child's where only that one is live, and the parent hash of both where both are.
   */
  lemma {:induction false} ValueMeans(leaves: seq<Node>, c: Coord)
    requires Ready(|leaves|, c)
    ensures Value(leaves, c).spent <==> !LiveBelow(leaves, c)
    ensures c.row > 0 && Value(leaves, c).spent ==> Value(leaves, c).hash.bytes == Zeros(32)
    ensures c.row > 0 ==>
              && Ready(|leaves|, LeftBelow(c)) && Ready(|leaves|, RightBelow(c))
              && var v, left, right := Value(leaves, c), Value(leaves, LeftBelow(c)), Value(leaves, RightBelow(c));
              var leftLive, rightLive := LiveBelow(leaves, LeftBelow(c)), LiveBelow(leaves, RightBelow(c));
              && (leftLive && rightLive ==> v.hash == ParentHash(left.hash, right.hash))
              && (leftLive && !rightLive ==> v == left) && (!leftLive && rightLive ==> v == right)
    decreases c.row
  {
    if c.row > 0 {
      ReadyBelow(|leaves|, c);
      ValueMeans(leaves, LeftBelow(c));
      ValueMeans(leaves, RightBelow(c));
    }
  }

  /** What the flat file holds at a coordinate. */
  function Cell(leaves: seq<Node>, c: Coord): NodeState {
    if Ready(|leaves|, c) then ReadyState(Value(leaves, c)) else UNINITIALIZED
  }

  ghost predicate IsForest(cells: seq<NodeState>, rows: nat, leaves: seq<Node>) {
    && rows <= MAX_ROWS
    && |cells| == Capacity(rows)
    && |leaves| <= Pow2(rows)
    && forall p :: 0 <= p < |cells| ==> cells[p] == Cell(leaves, At(p, rows))
  }

  /** Outside a layout that holds the leaves there is nothing. */
  lemma {:induction false} OutsideCell(leaves: seq<Node>, c: Coord, rows: nat)
    requires |leaves| <= Pow2(rows) && !InLayout(c, rows)
    ensures Cell(leaves, c) == UNINITIALIZED
  {
    if Ready(|leaves|, c) { ReadyInLayout(|leaves|, c, rows); }
  }

  /** The forest rebuilt from nothing but its bottom row. */
  function Rebuild(leaves: seq<Node>, rows: nat): (cells: seq<NodeState>)
    requires rows <= MAX_ROWS && |leaves| <= Pow2(rows)
    ensures IsForest(cells, rows, leaves)
  {
    seq(Capacity(rows), p requires 0 <= p < Capacity(rows) => Cell(leaves, At(p, rows)))
  }

  lemma {:induction false} RebuildUnique(cells: seq<NodeState>, rows: nat, leaves: seq<Node>)
    requires IsForest(cells, rows, leaves)
    ensures cells == Rebuild(leaves, rows)
  {
  }

  /** Reading a ready coordinate of a forest gives its value. */
  lemma {:induction false} ForestRead(cells: seq<NodeState>, rows: nat, leaves: seq<Node>, c: Coord)
    requires IsForest(cells, rows, leaves) && Ready(|leaves|, c)
    ensures InLayout(c, rows)
    ensures cells[Position(c, rows)] == ReadyState(Value(leaves, c))
  {
    ReadyInLayout(|leaves|, c, rows);
    assert At(Position(c, rows), rows) == c;
  }

  /** A value depends only on the leaves below it. */
  lemma {:induction false} ValueLocal(a: seq<Node>, b: seq<Node>, c: Coord)
    requires Ready(|a|, c) && Ready(|b|, c)
    requires forall i :: 0 <= i < |a| && i < |b| && Shr(i, c.row) == c.off ==> a[i] == b[i]
    ensures Value(a, c) == Value(b, c)
    decreases c.row
  {
    if c.row > 0 {
      ReadyBelow(|a|, c);
      ReadyBelow(|b|, c);
      forall i: nat | i < |a| && i < |b| && (Shr(i, c.row - 1) == 2 * c.off || Shr(i, c.row - 1) == 2 * c.off + 1)
        ensures a[i] == b[i]
      {
        assert Shr(i, c.row) == Shr(i, c.row - 1) / 2;
      }
      ValueLocal(a, b, LeftBelow(c));
      ValueLocal(a, b, RightBelow(c));
    }
  }

  // ----- The local form of the invariant -----

  /**
   A node is ready iff its offset is below the leaf count shifted by its row,
   and every ready internal node combines its two children.
   */
  ghost predicate LocallyConsistent(cells: seq<NodeState>, rows: nat, count: nat) {
    && rows <= MAX_ROWS
    && |cells| == Capacity(rows)
    && count <= Pow2(rows)
    && (forall p :: 0 <= p < |cells| ==> cells[p].ready == Ready(count, At(p, rows)))
    && (forall p :: 0 <= p < |cells| ==> cells[p].ready || cells[p] == UNINITIALIZED)
    && (forall p :: 0 <= p < |cells| ==> cells[p].ready && At(p, rows).row > 0 ==> CombinesChildren(cells, rows, p))
  }

  function NodeOf(s: NodeState): Node { Node(s.hash, s.spent) }

  predicate CombinesChildren(cells: seq<NodeState>, rows: nat, p: nat) {
    && p < |cells| == Capacity(rows) && At(p, rows).row > 0
    && var c := At(p, rows);
    ChildrenInLayout(c, rows);
    NodeOf(cells[p]) == Combine(NodeOf(cells[Position(LeftBelow(c), rows)]),
        NodeOf(cells[Position(RightBelow(c), rows)]))
  }

  lemma {:induction false} BottomPosition(i: nat, rows: nat)
    requires i < Pow2(rows)
    ensures i < Capacity(rows) && At(i, rows) == Coord(0, i) && Position(Coord(0, i), rows) == i
  {
    assert Shr(i, 0) == i;
  }

  function BottomRow(cells: seq<NodeState>, rows: nat, count: nat): (leaves: seq<Node>)
    requires |cells| == Capacity(rows) && count <= Pow2(rows)
    ensures |leaves| == count
  {
    seq(count, i requires 0 <= i < count => NodeOf(cells[i]))
  }

  /** The local invariant is exactly: the array is the forest of its own bottom row. */
  lemma {:induction false} LocalIsGlobal(cells: seq<NodeState>, rows: nat, count: nat)
    requires rows <= MAX_ROWS && |cells| == Capacity(rows) && count <= Pow2(rows)
    ensures LocallyConsistent(cells, rows, count) <==> IsForest(cells, rows, BottomRow(cells, rows, count))
  {
    hide At, Value, Pow2, Shr;
    var leaves := BottomRow(cells, rows, count);
    if LocallyConsistent(cells, rows, count) {
      forall p | 0 <= p < |cells|
        ensures cells[p] == Cell(leaves, At(p, rows))
      {
        if cells[p].ready { LocalValue(cells, rows, count, p); }
      }
    }
    if IsForest(cells, rows, leaves) {
      forall p | 0 <= p < |cells|
        ensures cells[p].ready && At(p, rows).row > 0 ==> CombinesChildren(cells, rows, p)
      {
        if cells[p].ready && At(p, rows).row > 0 {
          PositionAt(p, rows);
          ForestCombines(cells, rows, leaves, At(p, rows));
        }
      }
    }
  }

  lemma {:induction false} ForestCombines(cells: seq<NodeState>, rows: nat, leaves: seq<Node>, c: Coord)
    requires IsForest(cells, rows, leaves) && Ready(|leaves|, c) && c.row > 0
    ensures InLayout(c, rows) && CombinesChildren(cells, rows, Position(c, rows))
  {
    ForestRead(cells, rows, leaves, c);
    assert At(Position(c, rows), rows) == c;
    ReadyBelow(|leaves|, c);
    ForestRead(cells, rows, leaves, LeftBelow(c));
    ForestRead(cells, rows, leaves, RightBelow(c));
  }

  lemma {:induction false} LocalValue(cells: seq<NodeState>, rows: nat, count: nat, p: nat)
    requires LocallyConsistent(cells, rows, count) && p < |cells| && cells[p].ready
    ensures NodeOf(cells[p]) == Value(BottomRow(cells, rows, count), At(p, rows))
    decreases At(p, rows).row
  {
    var c := At(p, rows);
    PositionAt(p, rows);
    if c.row == 0 {
      assert Shr(count, 0) == count;
    } else {
      ReadyBelow(count, c);
      ChildrenInLayout(c, rows);
      assert CombinesChildren(cells, rows, p);
      var l, r := Position(LeftBelow(c), rows), Position(RightBelow(c), rows);
      assert At(l, rows) == LeftBelow(c) && At(r, rows) == RightBelow(c);
      LocalValue(cells, rows, count, l);
      LocalValue(cells, rows, count, r);
    }
  }
}
