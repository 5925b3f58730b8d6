/**
 The two walks over stored positions: from a leaf up to its proof position, and from a proof
 position down to the hash it stands for. Storage uses the preallocated row count, proofs the
 least row count that holds the leaves.
 */
module Walks {
  import opened Bits
  import opened Wrappers
  import opened Coordinates
  import opened Forest
  import opened Proofs

  /** One step up in positions is one step up in coordinates. */
  lemma {:induction false} ClimbStep(n: nat, c: Coord, rows: nat)
    requires Ready(n, c) && n <= Pow2(rows) && rows <= MAX_ROWS
    ensures InLayout(c, rows)
    ensures IsRootPosition(Position(c, rows), n, rows) <==> IsRoot(n, c)
    ensures !IsRoot(n, c) ==>
              && Ready(n, Above(c)) && Ready(n, Sibling(c))
              && InLayout(Above(c), rows) && InLayout(Sibling(c), rows)
              && Parent(Position(c, rows), rows) == Position(Above(c), rows)
              && FlipLow(Position(c, rows)) == Position(Sibling(c), rows)
              && Shr(n, Above(c).row) < Shr(n, c.row) && RootAbove(n, Above(c)) == RootAbove(n, c)
  {
    hide IsRootPosition, Position, Pow2, At, Parent;
    ReadyInLayout(n, c, rows);
    IsRootAgrees(c, n, rows);
    if !IsRoot(n, c) {
      ReadyAbove(n, c);
      ReadyInLayout(n, Above(c), rows);
      ParentAgrees(c, rows);
      SiblingAgrees(c, rows);
    }
  }

  lemma {:induction false} ParityOfPosition(c: Coord, rows: nat)
    requires InLayout(c, rows)
    ensures Position(c, rows) % 2 == 1 <==> c.off % 2 == 1
  {
    hide Position, At, Pow2;
    PositionFromStart(c, rows);
    StartEven(c.row, rows);
  }

  // ----- Packed turns -----

  /** Turns packed into a word, the last turn in bit 0. */
  function Pack(ds: seq<bool>): nat {
    if ds == [] then 0
    else 2 * Pack(ds[..|ds| - 1]) + (if ds[|ds| - 1] then 1 else 0)
  }

  lemma {:induction false} PackBound(ds: seq<bool>)
    ensures Pack(ds) < Pow2(|ds|)
  {
    if ds != [] { PackBound(ds[..|ds| - 1]); }
  }

  /** Packing a turn in front sets the bit above all the others. */
  lemma {:induction false} PackFront(d: bool, ds: seq<bool>)
    ensures Pack([d] + ds) == Pack(ds) + Scale(if d then 1 else 0, |ds|)
    decreases |ds|
  {
    if ds == [] {
      assert [d] + ds == [d] && [d][..0] == [];
    } else {
      var m := |ds| - 1;
      PackFront(d, ds[..m]);
      assert ([d] + ds)[..|ds|] == [d] + ds[..m];
      assert ([d] + ds)[|ds|] == ds[m];
    }
  }

  lemma {:induction false} PackOr(d: bool, ds: seq<bool>)
    requires |ds| < 64
    ensures Or(Pack(ds), Shl(if d then 1 else 0, |ds|)) == Pack([d] + ds)
  {
    hide Pack, Or, Shl;
    var k, bit := |ds|, if d then 1 else 0;
    PackBound(ds);
    PackFront(d, ds);
    ScaleMonotone(bit, 1, k);
    ScaleOne(k);
    Pow2Of64();
    Pow2Monotone(k + 1, 64);
    ShlExact(bit, k);
    OrDisjoint(Pack(ds), k, bit);
  }

  /** Reading bit `shift` gives back the turn packed there. */
  lemma {:induction false} PackBit(ds: seq<bool>, shift: nat)
    requires shift < |ds|
    ensures Shr(Pack(ds), shift) % 2 == 1 <==> ds[|ds| - 1 - shift]
  {
    var m := |ds| - 1;
    if shift == 0 {
      assert Shr(Pack(ds), 0) == Pack(ds);
    } else {
      PackBit(ds[..m], shift - 1);
      assert Pack(ds) / 2 == Pack(ds[..m]);
      ShrHalf(Pack(ds), shift - 1);
    }
  }

  // ----- From a leaf up -----

  /** The turns found by climbing with the given knowledge of which siblings are spent. */
  function ClimbPath(n: nat, c: Coord, rows: nat, spent: map<nat, bool>): (r: Option<seq<bool>>)
    requires Ready(n, c) && n <= Pow2(rows)
    ensures r.Some? ==> |r.value| <= RootAbove(n, c).row - c.row
    decreases Shr(n, c.row)
  {
    if IsRoot(n, c) then Some([])
    else
      ReadyAbove(n, c);
      ReadyInLayout(n, Sibling(c), rows);
      var sibling := Position(Sibling(c), rows);
      if sibling !in spent then None
      else match ClimbPath(n, Above(c), rows, spent)
        case None => None
        case Some(up) => Some(up + (if spent[sibling] then [] else [c.off % 2 == 1]))
  }

  /** The map tells the truth about one ready node. */
  predicate TellsSpent(leaves: seq<Node>, c: Coord, rows: nat, spent: map<nat, bool>)
    requires Ready(|leaves|, c) && |leaves| <= Pow2(rows)
  {
    ReadyInLayout(|leaves|, c, rows);
    var p := Position(c, rows);
    p in spent && spent[p] == Spent(leaves, c)
  }

  /** The map knows, truly, every sibling on the way up. */
  predicate Informed(leaves: seq<Node>, c: Coord, rows: nat, spent: map<nat, bool>)
    requires Ready(|leaves|, c) && |leaves| <= Pow2(rows)
    decreases Shr(|leaves|, c.row)
  {
    IsRoot(|leaves|, c) ||
    (ReadyAbove(|leaves|, c);
     TellsSpent(leaves, Sibling(c), rows, spent) && Informed(leaves, Above(c), rows, spent))
  }

  /** With truthful knowledge the climb finds the live path. */
  lemma {:induction false} InformedClimb(leaves: seq<Node>, c: Coord, rows: nat, spent: map<nat, bool>)
    requires Ready(|leaves|, c) && |leaves| <= Pow2(rows)
    requires Informed(leaves, c, rows, spent)
    ensures ClimbPath(|leaves|, c, rows, spent) == Some(LivePath(leaves, c))
    decreases Shr(|leaves|, c.row)
  {
    hide Position, Value, Pow2;
    if !IsRoot(|leaves|, c) {
      ReadyAbove(|leaves|, c);
      InformedClimb(leaves, Above(c), rows, spent);
    }
  }

  /** Where turns from a root lead, as a position of the proof layout. */
  function PromotedPosition(n: nat, root: Coord, ds: seq<bool>): (p: nat)
    requires Ready(n, root) && IsRoot(n, root) && |ds| <= root.row
    ensures p < Capacity(TreeRows(n))
  {
    DescendReady(n, root, ds);
    TreeRowsLeast(n);
    ReadyInLayout(n, Descend(root, ds), TreeRows(n));
    Position(Descend(root, ds), TreeRows(n))
  }

  /** Prefixing the turns found so far. */
  function Extend(up: Option<seq<bool>>, found: seq<bool>): Option<seq<bool>> {
    match up case None => None case Some(ds) => Some(ds + found)
  }

  lemma {:induction false} ExtendNothing(up: Option<seq<bool>>)
    ensures Extend(up, []) == up
  {
    if up.Some? { assert up.value + [] == up.value; }
  }

  method ProofPositionFromSpent(bottom: nat, n: nat, rows: nat, spent: map<nat, bool>) returns (r: Option<nat>)
    requires bottom < n <= Pow2(rows) && rows <= MAX_ROWS
    ensures Ready(n, Coord(0, bottom))
    ensures var path := ClimbPath(n, Coord(0, bottom), rows, spent);
            r == match path case None => None
                 case Some(ds) => Some(PromotedPosition(n, RootAbove(n, Coord(0, bottom)), ds))
  {
    hide Position, At, Pow2, Shl, Or, Parent, IsRootPosition, RootPosition, LeftChild, PromotedPosition, TreeRows,
         And, Descend, Shr, RootAbove, ClimbPath, IsRoot;
    assert Shr(n, 0) == n by { ShrNone(n); }
    ghost var start := Coord(0, bottom);
    ghost var c: Coord := start;
    ghost var found: seq<bool> := [];
    ReadyInLayout(n, c, rows);
    BottomPosition(bottom, rows);
    var position, directions, depth := bottom, 0, 0;
    ClimbStep(n, c, rows);
    ExtendNothing(ClimbPath(n, start, rows, spent));
    while !IsRootPosition(position, n, rows)
      invariant Ready(n, c) && InLayout(c, rows) && position == Position(c, rows) && position < Capacity(rows)
      invariant IsRootPosition(position, n, rows) <==> IsRoot(n, c)
      invariant RootAbove(n, c) == RootAbove(n, start)
      invariant depth == |found| <= c.row && directions == Pack(found)
      invariant ClimbPath(n, start, rows, spent) == Extend(ClimbPath(n, c, rows, spent), found)
      decreases Shr(n, c.row)
    {
      ClimbStep(n, c, rows);
      ParityOfPosition(c, rows);
      var sibling := FlipLow(position);
      if sibling !in spent {
        ClimbBlind(n, c, rows, spent);
        return None;
      }
      ClimbExtend(n, c, rows, spent, found);
      if !spent[sibling] {
        PackOr(c.off % 2 == 1, found);
        directions := Or(directions, Shl(position % 2, depth));
        depth := depth + 1;
        found := [c.off % 2 == 1] + found;
      }
      position := Parent(position, rows);
      c := Above(c);
      ClimbStep(n, c, rows);
    }
    ClimbDone(n, c, rows, spent, found);
    r := Promote(n, rows, c, position, directions, depth, found);
  }

  lemma {:induction false} ShrNone(n: nat)
    ensures Shr(n, 0) == n
  {
  }

  lemma {:induction false} ClimbDone(n: nat, c: Coord, rows: nat, spent: map<nat, bool>, found: seq<bool>)
    requires Ready(n, c) && n <= Pow2(rows) && IsRoot(n, c)
    ensures Extend(ClimbPath(n, c, rows, spent), found) == Some(found) && RootAbove(n, c) == c
  {
    assert [] + found == found;
  }

  lemma {:induction false} ClimbBlind(n: nat, c: Coord, rows: nat, spent: map<nat, bool>)
    requires Ready(n, c) && n <= Pow2(rows) && !IsRoot(n, c) && InLayout(Sibling(c), rows)
    requires Position(Sibling(c), rows) !in spent
    ensures ClimbPath(n, c, rows, spent) == None
  {
  }

  lemma {:induction false} ClimbExtend(n: nat, c: Coord, rows: nat, spent: map<nat, bool>, found: seq<bool>)
    requires Ready(n, c) && n <= Pow2(rows) && !IsRoot(n, c) && Ready(n, Above(c)) && Ready(n, Sibling(c))
    requires InLayout(Sibling(c), rows) && Position(Sibling(c), rows) in spent
    ensures Extend(ClimbPath(n, c, rows, spent), found)
            == Extend(ClimbPath(n, Above(c), rows, spent),
                      if spent[Position(Sibling(c), rows)] then found else [c.off % 2 == 1] + found)
  {
    hide Position, Pow2, At;
    var up := ClimbPath(n, Above(c), rows, spent);
    if up.Some? {
      var turn := if spent[Position(Sibling(c), rows)] then [] else [c.off % 2 == 1];
      assert (up.value + turn) + found == up.value + (turn + found);
      assert [] + found == found;
    }
  }

  /** The second half: from the root down the packed turns, in the proof layout. */
  method Promote(n: nat, rows: nat, ghost root: Coord, position: nat, directions: nat, depth: nat, ghost ds: seq<bool>)
    returns (r: Option<nat>)
    requires 0 < n <= Pow2(rows) && rows <= MAX_ROWS
    requires Ready(n, root) && IsRoot(n, root) && InLayout(root, rows) && position == Position(root, rows)
    requires depth == |ds| <= root.row && directions == Pack(ds)
    ensures r == Some(PromotedPosition(n, root, ds))
  {
    hide Position, At, Pow2, Shl, Or, Parent, IsRootPosition, RootPosition, LeftChild, Pack, TreeRows, And;
    var logical := TreeRows(n);
    TreeRowsLeast(n);
    var row := DetectRow(position, rows);
    ReadyInLayout(n, root, logical);
    RootPositionAgrees(n, row, logical);
    var promoted := RootPosition(n, row, logical);
    var k := 0;
    assert Descend(root, ds[..0]) == root;
    while k < depth
      invariant k <= depth
      invariant var at := Descend(root, ds[..k]); InLayout(at, logical) && promoted == Position(at, logical)
    {
      ghost var at := Descend(root, ds[..k]);
      var shift := depth - 1 - k;
      PackBit(ds, shift);
      LeftChildAgrees(at, logical);
      assert ds[..k + 1][..k] == ds[..k];
      assert Descend(root, ds[..k + 1]) == Turn(at, ds[k]);
      promoted := LeftChild(promoted, logical) + Shr(directions, shift) % 2;
      k := k + 1;
    }
    assert ds[..depth] == ds;
    return Some(promoted);
  }

  /** A truthful climb from a live or spent leaf ends at its proof coordinate. */
  lemma {:induction false} PromotedIsProofCoord(leaves: seq<Node>, i: nat, rows: nat, spent: map<nat, bool>)
    requires i < |leaves| <= Pow2(rows) && Ready(|leaves|, Coord(0, i))
    requires Informed(leaves, Coord(0, i), rows, spent)
    ensures var c := Coord(0, i);
            && ClimbPath(|leaves|, c, rows, spent) == Some(LivePath(leaves, c))
            && At(PromotedPosition(|leaves|, RootAbove(|leaves|, c), LivePath(leaves, c)), TreeRows(|leaves|))
               == ProofCoord(leaves, c)
  {
    hide Position, Pow2, Value, TreeRows;
    InformedClimb(leaves, Coord(0, i), rows, spent);
    var n, root, ds := |leaves|, RootAbove(|leaves|, Coord(0, i)), LivePath(leaves, Coord(0, i));
    DescendReady(n, root, ds);
    TreeRowsLeast(n);
    ReadyInLayout(n, Descend(root, ds), TreeRows(n));
  }

  // ----- From a proof position down -----

  /** A root at or above a coordinate makes it ready and is the root found by climbing. */
  lemma {:induction false} RootOver(n: nat, root: Coord, c: Coord)
    requires IsRoot(n, root) && IsAtOrAbove(root, c)
    ensures Ready(n, c) && RootAbove(n, c) == root
  {
    var k := root.row - c.row;
    ShrShr(n, c.row, k);
    if !Ready(n, c) { ShrMonotone(Shr(n, c.row), c.off, k); }
    AboveIsPrefix(n, root, c);
  }

  lemma {:induction false} RootAboveIsAbove(n: nat, c: Coord)
    requires Ready(n, c)
    ensures IsAtOrAbove(RootAbove(n, c), c)
    decreases Shr(n, c.row)
  {
    if IsRoot(n, c) {
      assert Shr(c.off, 0) == c.off;
    } else {
      ReadyAbove(n, c);
      RootAboveIsAbove(n, Above(c));
      ShrHalf(c.off, RootAbove(n, c).row - c.row - 1);
    }
  }

  function UpBy(c: Coord, k: nat): Coord {
    Coord(c.row + k, Shr(c.off, k))
  }

  lemma {:induction false} RootReached(n: nat, c: Coord, rows: nat)
    requires Ready(n, c) && n <= Pow2(rows)
    ensures c.row <= rows && exists j :: 0 <= j <= rows - c.row && IsRoot(n, UpBy(c, j))
  {
    RootAboveIsAbove(n, c);
    ReadyInLayout(n, RootAbove(n, c), rows);
    assert RootAbove(n, c) == UpBy(c, RootAbove(n, c).row - c.row);
  }

  method ContainingRoot(position: nat, n: nat, rows: nat) returns (r: Option<(nat, nat)>)
    requires n <= Pow2(rows) && rows <= MAX_ROWS && position < Capacity(rows)
    ensures var c := At(position, rows);
            if Ready(n, c) then
              && InLayout(RootAbove(n, c), rows)
              && r == Some((Position(RootAbove(n, c), rows), RootAbove(n, c).row))
            else r == None
  {
    hide Position, At, Pow2, Shl, And, RootPosition, Parent, RootAbove, Shr;
    ghost var c := At(position, rows);
    PositionAt(position, rows);
    var positionRow := DetectRow(position, rows);
    var rootRow := positionRow;
    while rootRow <= rows
      invariant positionRow <= rootRow <= rows + 1
      invariant forall j :: 0 <= j < rootRow - positionRow ==> !IsRoot(n, UpBy(c, j))
    {
      assert And(n, Shl(1, rootRow)) != 0 <==> Shr(n, rootRow) % 2 == 1 by {
        AndBit(n, rootRow);
        ShlOne(rootRow);
      }
      if And(n, Shl(1, rootRow)) != 0 {
        var ancestor := Climb(position, rows, rootRow - positionRow);
        RootPositionAgrees(n, rootRow, rows);
        var root := RootPosition(n, rootRow, rows);
        ghost var up := UpBy(c, rootRow - positionRow);
        SamePosition(up, Coord(rootRow, Shr(n, rootRow) - 1), rows);
        if ancestor == root {
          RootOver(n, up, c);
          return Some((root, rootRow));
        }
      }
      rootRow := rootRow + 1;
    }
    if Ready(n, c) {
      RootReached(n, c, rows);
      assert false;
    }
    return None;
  }

  lemma {:induction false} SamePosition(c: Coord, d: Coord, rows: nat)
    requires InLayout(c, rows) && InLayout(d, rows)
    ensures Position(c, rows) == Position(d, rows) <==> c == d
  {
    assert At(Position(c, rows), rows) == c && At(Position(d, rows), rows) == d;
  }

  /** The inner loop: `steps` parents up. */
  method Climb(position: nat, rows: nat, steps: nat) returns (ancestor: nat)
    requires rows <= MAX_ROWS && position < Capacity(rows) && At(position, rows).row + steps <= rows
    ensures var up := UpBy(At(position, rows), steps); InLayout(up, rows) && ancestor == Position(up, rows)
  {
    hide Position, At, Pow2, Parent;
    ghost var c := At(position, rows);
    PositionAt(position, rows);
    ancestor := position;
    assert UpBy(c, 0) == c;
    for k := 0 to steps
      invariant InLayout(UpBy(c, k), rows) && ancestor == Position(UpBy(c, k), rows)
    {
      ParentAgrees(UpBy(c, k), rows);
      assert Above(UpBy(c, k)) == UpBy(c, k + 1);
      ancestor := Parent(ancestor, rows);
    }
  }

  /**
   The hash at a proof position: none exactly where the promoted forest has no node. Reading
   never meets a position that was not initialized.
   */
  method CompressedHash(cells: seq<NodeState>, rows: nat, position: nat, ghost leaves: seq<Node>, n: nat)
    returns (r: Option<Hash>)
    requires IsForest(cells, rows, leaves) && n == |leaves|
    requires position < Capacity(TreeRows(n))
    ensures r == HashAt(leaves, At(position, TreeRows(n)))
  {
    hide IsForest, Position, At, Pow2, TreeRows, TranslatePosition, Parent, Resolve, Value, RootAbove, Directions;
    assert rows <= MAX_ROWS && |cells| == Capacity(rows) && n <= Pow2(rows) by { Bounds(cells, rows, leaves); }
    var logical := TreeRows(n);
    TreeRowsLeast(n);
    ghost var c := At(position, logical);
    PositionAt(position, logical);
    TranslateAgrees(c, logical, rows);
    var stored := TranslatePosition(position, logical, rows).value;
    var containing := ContainingRoot(stored, n, rows);
    if containing == None { return None; }
    var (root, rootRow) := containing.value;
    var directions := TurnsUpTo(stored, root, n, rows, c);
    r := FollowTurns(cells, rows, leaves, root, rootRow, directions, RootAbove(n, c));
  }

  lemma {:induction false} Bounds(cells: seq<NodeState>, rows: nat, leaves: seq<Node>)
    requires IsForest(cells, rows, leaves)
    ensures rows <= MAX_ROWS && |cells| == Capacity(rows) && |leaves| <= Pow2(rows)
  {
  }

  function Reversed(ds: seq<bool>): (r: seq<bool>)
    ensures |r| == |ds|
    ensures forall i :: 0 <= i < |ds| ==> r[i] == ds[|ds| - 1 - i]
  {
    seq(|ds|, i requires 0 <= i < |ds| => ds[|ds| - 1 - i])
  }

  /** Collects the turns bottom up, as the program pushes them. */
  method TurnsUpTo(position: nat, root: nat, n: nat, rows: nat, ghost c: Coord) returns (turns: seq<bool>)
    requires n <= Pow2(rows) && rows <= MAX_ROWS && Ready(n, c)
    requires InLayout(c, rows) && position == Position(c, rows)
    requires InLayout(RootAbove(n, c), rows) && root == Position(RootAbove(n, c), rows)
    ensures Reversed(turns) == Directions(n, c)
  {
    hide Position, At, Pow2, Parent, IsRootPosition, Shr, IsRoot, RootAbove, Directions;
    turns := [];
    var logical := position;
    ghost var d := c;
    SamePosition(d, RootAbove(n, c), rows);
    assert Directions(n, c) + [] == Directions(n, c);
    while logical != root
      invariant Ready(n, d) && InLayout(d, rows) && logical == Position(d, rows)
      invariant RootAbove(n, d) == RootAbove(n, c)
      invariant Directions(n, c) == Directions(n, d) + Reversed(turns)
      invariant logical == root <==> d == RootAbove(n, c)
      decreases Shr(n, d.row)
    {
      RootIsFixed(n, d);
      ClimbStep(n, d, rows);
      ParityOfPosition(d, rows);
      DirectionsStep(n, d, turns);
      turns := turns + [logical % 2 == 1];
      logical := Parent(logical, rows);
      d := Above(d);
      SamePosition(d, RootAbove(n, c), rows);
    }
    RootIsFixed(n, d);
    assert [] + Reversed(turns) == Reversed(turns);
  }

  lemma {:induction false} RootIsFixed(n: nat, d: Coord)
    requires Ready(n, d)
    ensures RootAbove(n, d) == d <==> IsRoot(n, d)
    ensures IsRoot(n, d) ==> Directions(n, d) == []
  {
  }

  lemma {:induction false} DirectionsStep(n: nat, d: Coord, turns: seq<bool>)
    requires Ready(n, d) && !IsRoot(n, d) && Ready(n, Above(d))
    ensures Directions(n, d) + Reversed(turns)
            == Directions(n, Above(d)) + Reversed(turns + [d.off % 2 == 1])
  {
    var t := d.off % 2 == 1;
    assert Reversed(turns + [t]) == [t] + Reversed(turns);
    assert Directions(n, d) == Directions(n, Above(d)) + [t];
  }

  /** Goes down the turns, past every level with one spent side. */
  method FollowTurns(cells: seq<NodeState>, rows: nat, ghost leaves: seq<Node>, root: nat, rootRow: nat,
                     turns: seq<bool>, ghost start: Coord) returns (r: Option<Hash>)
    requires IsForest(cells, rows, leaves) && Ready(|leaves|, start)
    requires InLayout(start, rows) && root == Position(start, rows) && rootRow == start.row
    ensures r == Resolve(leaves, start, Reversed(turns))
  {
    hide IsForest, Position, At, Pow2, LeftChild, Resolve, Value, Shr;
    Bounds(cells, rows, leaves);
    ghost var ds := Reversed(turns);
    ghost var d := start;
    var position, row, k := root, rootRow, 0;
    assert ds[0..] == ds;
    while k < |turns|
      invariant k <= |turns|
      invariant Ready(|leaves|, d) && InLayout(d, rows) && position == Position(d, rows) && row == d.row
      invariant Resolve(leaves, start, ds) == Resolve(leaves, d, ds[k..])
    {
      var right := turns[|turns| - 1 - k];
      assert right == ds[k];
      assert ds[k..][0] == ds[k] && ds[k..][1..] == ds[k + 1..];
      var taken := false;
      while !taken
        invariant Ready(|leaves|, d) && InLayout(d, rows) && position == Position(d, rows) && row == d.row
        invariant Resolve(leaves, start, ds) == Resolve(leaves, d, if taken then ds[k + 1..] else ds[k..])
        decreases !taken, row
      {
        ResolveStep(leaves, d, ds[k..]);
        if row == 0 { return None; }
        ReadPair(cells, rows, leaves, d);
        var leftPosition := LeftChild(position, rows);
        var left, rightNode := cells[leftPosition], cells[leftPosition + 1];
        row := row - 1;
        match (left.spent, rightNode.spent)
        case (true, true) => return None;
        case (true, false) => position, d := leftPosition + 1, RightBelow(d);
        case (false, true) => position, d := leftPosition, LeftBelow(d);
        case (false, false) =>
          position, d := leftPosition + (if right then 1 else 0), Turn(d, right);
          taken := true;
      }
      k := k + 1;
    }
    assert ds[k..] == [];
    ResolveStep(leaves, d, []);
    ForestRead(cells, rows, leaves, d);
    var node := cells[position];
    if node.spent { return None; }
    return Some(node.hash);
  }

  lemma {:induction false} ReadPair(cells: seq<NodeState>, rows: nat, leaves: seq<Node>, d: Coord)
    requires IsForest(cells, rows, leaves) && Ready(|leaves|, d) && d.row > 0 && InLayout(d, rows)
    ensures Ready(|leaves|, LeftBelow(d)) && Ready(|leaves|, RightBelow(d))
    ensures InLayout(LeftBelow(d), rows) && InLayout(RightBelow(d), rows)
    ensures Shl(2, rows) > 0
    ensures LeftChild(Position(d, rows), rows) == Position(LeftBelow(d), rows)
    ensures Position(RightBelow(d), rows) == Position(LeftBelow(d), rows) + 1 < |cells|
    ensures cells[Position(LeftBelow(d), rows)] == ReadyState(Value(leaves, LeftBelow(d)))
    ensures cells[Position(RightBelow(d), rows)] == ReadyState(Value(leaves, RightBelow(d)))
  {
    hide Position, At, Pow2, LeftChild, Value, Shr, IsForest;
    Bounds(cells, rows, leaves);
    ReadyBelow(|leaves|, d);
    LeftChildAgrees(d, rows);
    ForestRead(cells, rows, leaves, LeftBelow(d));
    ForestRead(cells, rows, leaves, RightBelow(d));
  }

  /** One unfolding of the descent. */
  lemma {:induction false} ResolveStep(leaves: seq<Node>, d: Coord, ds: seq<bool>)
    requires Ready(|leaves|, d)
    ensures ds == [] ==> Resolve(leaves, d, ds) == if Value(leaves, d).spent then None else Some(Value(leaves, d).hash)
    ensures ds != [] && d.row == 0 ==> Resolve(leaves, d, ds) == None
    ensures ds != [] && d.row > 0 ==>
              && Ready(|leaves|, LeftBelow(d)) && Ready(|leaves|, RightBelow(d))
              && Resolve(leaves, d, ds)
                 == match (Value(leaves, LeftBelow(d)).spent, Value(leaves, RightBelow(d)).spent)
                    case (true, true) => None
                    case (true, false) => Resolve(leaves, RightBelow(d), ds)
                    case (false, true) => Resolve(leaves, LeftBelow(d), ds)
                    case (false, false) => Resolve(leaves, Turn(d, ds[0]), ds[1..])
  {
    hide Value;
    if d.row > 0 { ReadyBelow(|leaves|, d); }
  }
}
