/**
 Proof coordinates in the promoted forest.

 A proof addresses a live leaf in the forest from which spent subtrees have been cut out: going
 up from the leaf, only the levels whose sibling is live count. The flat file keeps the uncut
 forest, so a proof position is found by walking up and the hash at a proof position by walking
 down past the cut levels. This module proves that both walks describe one tree, that its
 hashes fold to the stored root, and that live leaves never collide.
 */
module Proofs {
  import opened Bits
  import opened Wrappers
  import opened Coordinates
  import opened Forest

  // ----- Climbing to the root -----

  function RootAbove(n: nat, c: Coord): (r: Coord)
    requires Ready(n, c)
    ensures Ready(n, r) && IsRoot(n, r) && c.row <= r.row
    decreases Shr(n, c.row)
  {
    if IsRoot(n, c) then c
    else
      ReadyAbove(n, c);
      RootAbove(n, Above(c))
  }

  /** The turns from the root down to a coordinate; true is right. */
  function Directions(n: nat, c: Coord): (ds: seq<bool>)
    requires Ready(n, c)
    ensures |ds| == RootAbove(n, c).row - c.row
    decreases Shr(n, c.row)
  {
    if IsRoot(n, c) then []
    else
      ReadyAbove(n, c);
      Directions(n, Above(c)) + [c.off % 2 == 1]
  }

  function Turn(c: Coord, right: bool): Coord
    requires c.row > 0
  {
    if right then RightBelow(c) else LeftBelow(c)
  }

  function Descend(c: Coord, ds: seq<bool>): (d: Coord)
    requires |ds| <= c.row
    ensures d.row == c.row - |ds|
  {
    if ds == [] then c else Turn(Descend(c, ds[..|ds| - 1]), ds[|ds| - 1])
  }

  lemma {:induction false} DescendReady(n: nat, root: Coord, ds: seq<bool>)
    requires Ready(n, root) && IsRoot(n, root) && |ds| <= root.row
    ensures Ready(n, Descend(root, ds))
    ensures RootAbove(n, Descend(root, ds)) == root && Directions(n, Descend(root, ds)) == ds
  {
    if ds != [] {
      var m := |ds| - 1;
      DescendReady(n, root, ds[..m]);
      var up := Descend(root, ds[..m]);
      ReadyBelow(n, up);
      assert Above(Turn(up, ds[m])) == up;
      assert ds == ds[..m] + [ds[m]];
    }
  }

  lemma {:induction false} DescendDirections(n: nat, c: Coord)
    requires Ready(n, c)
    ensures Descend(RootAbove(n, c), Directions(n, c)) == c
    decreases Shr(n, c.row)
  {
    if !IsRoot(n, c) {
      ReadyAbove(n, c);
      DescendDirections(n, Above(c));
      var ds := Directions(n, c);
      assert ds[..|ds| - 1] == Directions(n, Above(c));
    }
  }

  // ----- The promoted forest -----

  function Spent(leaves: seq<Node>, c: Coord): bool
    requires Ready(|leaves|, c)
  {
    Value(leaves, c).spent
  }

  /** The turns that remain when levels with a spent sibling are cut out. */
  function LivePath(leaves: seq<Node>, c: Coord): (ds: seq<bool>)
    requires Ready(|leaves|, c)
    ensures |ds| <= RootAbove(|leaves|, c).row - c.row
    decreases Shr(|leaves|, c.row)
  {
    if IsRoot(|leaves|, c) then []
    else
      ReadyAbove(|leaves|, c);
      LivePath(leaves, Above(c)) + (if Spent(leaves, Sibling(c)) then [] else [c.off % 2 == 1])
  }

  /** Where a proof addresses the node. */
  function ProofCoord(leaves: seq<Node>, c: Coord): (p: Coord)
    requires Ready(|leaves|, c)
    ensures Ready(|leaves|, p)
  {
    DescendReady(|leaves|, RootAbove(|leaves|, c), LivePath(leaves, c));
    Descend(RootAbove(|leaves|, c), LivePath(leaves, c))
  }

  /** Follows turns down, skipping every level that was cut out. */
  function Resolve(leaves: seq<Node>, c: Coord, ds: seq<bool>): Option<Hash>
    requires Ready(|leaves|, c)
    decreases c.row
  {
    if ds == [] then (if Spent(leaves, c) then None else Some(Value(leaves, c).hash))
    else if c.row == 0 then None
    else
      ReadyBelow(|leaves|, c);
      match (Spent(leaves, LeftBelow(c)), Spent(leaves, RightBelow(c)))
      case (true, true) => None
      case (true, false) => Resolve(leaves, RightBelow(c), ds)
      case (false, true) => Resolve(leaves, LeftBelow(c), ds)
      case (false, false) => Resolve(leaves, Turn(c, ds[0]), ds[1..])
  }

  /** The hash a proof coordinate stands for; none below a spent subtree or past the leaves. */
  function HashAt(leaves: seq<Node>, c: Coord): Option<Hash> {
    if Ready(|leaves|, c) then Resolve(leaves, RootAbove(|leaves|, c), Directions(|leaves|, c)) else None
  }

  /** The node above a live one is live. */
  lemma {:induction false} LiveAbove(leaves: seq<Node>, c: Coord)
    requires Ready(|leaves|, c) && !IsRoot(|leaves|, c) && !Spent(leaves, c)
    ensures Ready(|leaves|, Above(c)) && !Spent(leaves, Above(c))
    ensures Ready(|leaves|, Sibling(c))
    ensures Spent(leaves, Sibling(c)) ==> Value(leaves, Above(c)) == Value(leaves, c)
  {
    ReadyAbove(|leaves|, c);
    assert c == Turn(Above(c), c.off % 2 == 1);
  }

  /** Resolving the live path of a node, and then on, is resolving on from the node itself. */
  lemma {:induction false} ResolveLivePath(leaves: seq<Node>, c: Coord, ds: seq<bool>)
    requires Ready(|leaves|, c) && !Spent(leaves, c)
    ensures Resolve(leaves, RootAbove(|leaves|, c), LivePath(leaves, c) + ds) == Resolve(leaves, c, ds)
    decreases Shr(|leaves|, c.row)
  {
    if IsRoot(|leaves|, c) {
      assert LivePath(leaves, c) + ds == ds;
    } else {
      LiveAbove(leaves, c);
      var up := Above(c);
      assert c == Turn(up, c.off % 2 == 1) && Sibling(c) == Turn(up, c.off % 2 == 0);
      var more := if Spent(leaves, Sibling(c)) then ds else [c.off % 2 == 1] + ds;
      assert LivePath(leaves, c) + ds == LivePath(leaves, up) + more;
      ResolveLivePath(leaves, up, more);
      if !Spent(leaves, Sibling(c)) { assert more[1..] == ds; }
    }
  }

  /** The hash at the proof coordinate of a live leaf is the leaf's hash. */
  lemma {:induction false} LeafHashAtProof(leaves: seq<Node>, i: nat)
    requires i < |leaves| && !leaves[i].spent
    ensures Ready(|leaves|, Coord(0, i))
    ensures HashAt(leaves, ProofCoord(leaves, Coord(0, i))) == Some(leaves[i].hash)
  {
    var n, c := |leaves|, Coord(0, i);
    assert Shr(n, 0) == n;
    DescendReady(n, RootAbove(n, c), LivePath(leaves, c));
    ResolveLivePath(leaves, c, []);
    assert LivePath(leaves, c) + [] == LivePath(leaves, c);
  }

  // ----- Sibling pairs -----

  /** One turn further: both children resolve or neither does, and their hashes make the parent's. */
  lemma {:induction false} ResolvePair(leaves: seq<Node>, c: Coord, ds: seq<bool>)
    requires Ready(|leaves|, c)
    ensures Resolve(leaves, c, ds + [false]).Some? <==> Resolve(leaves, c, ds + [true]).Some?
    ensures Resolve(leaves, c, ds + [false]).Some? ==>
              Resolve(leaves, c,
                  ds) == Some(ParentHash(Resolve(leaves, c, ds + [false]).value,
                  Resolve(leaves, c, ds + [true]).value))
    decreases c.row
  {
    if c.row > 0 {
      ReadyBelow(|leaves|, c);
      var l, r := LeftBelow(c), RightBelow(c);
      if Spent(leaves, l) != Spent(leaves, r) {
        var live := if Spent(leaves, l) then r else l;
        ResolvePair(leaves, live, ds);
        assert Value(leaves, c) == Value(leaves, live);
      } else if !Spent(leaves, l) {
        if ds != [] {
          ResolvePair(leaves, Turn(c, ds[0]), ds[1..]);
          assert (ds + [false])[1..] == ds[1..] + [false] && (ds + [true])[1..] == ds[1..] + [true];
        } else {
          assert (ds + [false])[1..] == [] && (ds + [true])[1..] == [];
        }
      }
    }
  }

  /** Sibling coordinates resolve together, and then their hashes combine to the one above. */
  lemma {:induction false} SiblingsHash(leaves: seq<Node>, c: Coord)
    requires Ready(|leaves|, c) && !IsRoot(|leaves|, c)
    ensures Ready(|leaves|, Above(c))
    ensures HashAt(leaves, c).Some? <==> HashAt(leaves, Sibling(c)).Some?
    ensures HashAt(leaves, c).Some? ==>
              var left, right := if c.off % 2 == 0 then c else Sibling(c), if c.off % 2 == 0 then Sibling(c) else c;
              HashAt(leaves, Above(c)) == Some(ParentHash(HashAt(leaves, left).value, HashAt(leaves, right).value))
  {
    var n := |leaves|;
    ReadyAbove(n, c);
    assert !IsRoot(n, Sibling(c));
    assert Above(Sibling(c)) == Above(c);
    ResolvePair(leaves, RootAbove(n, Above(c)), Directions(n, Above(c)));
  }

  // ----- Verifying a path -----

  /** What a verifier computes from a leaf hash, its proof position and the sibling hashes. */
  function FoldPath(n: nat, c: Coord, h: Hash, proof: seq<Hash>): Option<Hash>
    requires Ready(n, c)
    decreases Shr(n, c.row)
  {
    if IsRoot(n, c) then (if proof == [] then Some(h) else None)
    else if proof == [] then None
    else
      ReadyAbove(n, c);
      FoldPath(n, Above(c), if c.off % 2 == 0 then ParentHash(h, proof[0]) else ParentHash(proof[0], h), proof[1..])
  }

  /** The sibling hashes the forest supplies on the way from a coordinate to its root. */
  function ProofFor(leaves: seq<Node>, c: Coord): Option<seq<Hash>>
    requires Ready(|leaves|, c)
    decreases Shr(|leaves|, c.row)
  {
    if IsRoot(|leaves|, c) then Some([])
    else
      ReadyAbove(|leaves|, c);
      match (HashAt(leaves, Sibling(c)), ProofFor(leaves, Above(c)))
      case (Some(h), Some(rest)) => Some([h] + rest)
      case _ => None
  }

  /** From any coordinate that resolves, the forest can supply a proof, and it folds to the root. */
  lemma {:induction false} ProofFolds(leaves: seq<Node>, c: Coord)
    requires Ready(|leaves|, c) && HashAt(leaves, c).Some?
    ensures ProofFor(leaves, c).Some?
    ensures FoldPath(|leaves|, c, HashAt(leaves, c).value, ProofFor(leaves, c).value)
            == Some(Value(leaves, RootAbove(|leaves|, c)).hash)
    ensures !Spent(leaves, RootAbove(|leaves|, c))
    decreases Shr(|leaves|, c.row)
  {
    if !IsRoot(|leaves|, c) {
      SiblingsHash(leaves, c);
      ProofFolds(leaves, Above(c));
      var proof := ProofFor(leaves, c).value;
      assert proof[1..] == ProofFor(leaves, Above(c)).value;
    }
  }

  /** Every live leaf has a proof that verifies against the stored root of its tree. */
  lemma {:induction false} EveryLeafProves(leaves: seq<Node>, i: nat)
    requires i < |leaves| && !leaves[i].spent
    ensures Ready(|leaves|, Coord(0, i))
    ensures var c := ProofCoord(leaves, Coord(0, i));
            && RootAbove(|leaves|, c) == RootAbove(|leaves|, Coord(0, i))
            && ProofFor(leaves, c).Some?
            && FoldPath(|leaves|, c, leaves[i].hash, ProofFor(leaves, c).value)
               == Some(Value(leaves, RootAbove(|leaves|, Coord(0, i))).hash)
  {
    LeafHashAtProof(leaves, i);
    var c := Coord(0, i);
    DescendReady(|leaves|, RootAbove(|leaves|, c), LivePath(leaves, c));
    ProofFolds(leaves, ProofCoord(leaves, c));
  }

  // ----- Live leaves do not collide -----

  ghost predicate Diverge(p: seq<bool>, q: seq<bool>) {
    exists k :: 0 <= k < |p| && k < |q| && p[k] != q[k]
  }

  lemma {:induction false} DivergeExtended(p: seq<bool>, q: seq<bool>, p': seq<bool>, q': seq<bool>)
    requires Diverge(p, q)
    ensures Diverge(p + p', q + q')
  {
    var k :| 0 <= k < |p| && k < |q| && p[k] != q[k];
    assert (p + p')[k] != (q + q')[k];
  }

  lemma {:induction false} LivePathsDiverge(leaves: seq<Node>, c: Coord, d: Coord)
    requires Ready(|leaves|, c) && Ready(|leaves|, d) && c.row == d.row && c != d
    requires !Spent(leaves, c) && !Spent(leaves, d)
    requires RootAbove(|leaves|, c) == RootAbove(|leaves|, d)
    ensures Diverge(LivePath(leaves, c), LivePath(leaves, d))
    decreases Shr(|leaves|, c.row)
  {
    var n := |leaves|;
    assert !IsRoot(n, c) && !IsRoot(n, d);
    LiveAbove(leaves, c);
    LiveAbove(leaves, d);
    if Above(c) == Above(d) {
      assert d == Sibling(c) && c == Sibling(d);
      var up := LivePath(leaves, Above(c));
      assert LivePath(leaves, c) == up + [c.off % 2 == 1] && LivePath(leaves, d) == up + [d.off % 2 == 1];
      assert (up + [c.off % 2 == 1])[|up|] != (up + [d.off % 2 == 1])[|up|];
    } else {
      LivePathsDiverge(leaves, Above(c), Above(d));
      DivergeExtended(LivePath(leaves, Above(c)), LivePath(leaves, Above(d)),
                      if Spent(leaves, Sibling(c)) then [] else [c.off % 2 == 1],
                      if Spent(leaves, Sibling(d)) then [] else [d.off % 2 == 1]);
    }
  }

  /** `a` is `c` or lies on the way from `c` to the top. */
  predicate IsAtOrAbove(a: Coord, c: Coord) {
    a.row >= c.row && Shr(c.off, a.row - c.row) == a.off
  }

  lemma {:induction false} AboveIsPrefix(n: nat, a: Coord, c: Coord)
    requires Ready(n, a) && Ready(n, c) && IsAtOrAbove(a, c)
    ensures RootAbove(n, a) == RootAbove(n, c)
    ensures Directions(n, a) <= Directions(n, c)
    decreases a.row - c.row
  {
    if a.row > c.row {
      ShrHalf(c.off, a.row - c.row - 1);
      assert IsAtOrAbove(a, Above(c));
      assert !IsRoot(n, c) by { RootHasNothingAbove(n, a, c); }
      ReadyAbove(n, c);
      AboveIsPrefix(n, a, Above(c));
    } else {
      assert Shr(c.off, 0) == c.off;
    }
  }

  lemma {:induction false} RootHasNothingAbove(n: nat, a: Coord, c: Coord)
    requires Ready(n, a) && IsAtOrAbove(a, c) && a.row > c.row
    ensures !IsRoot(n, c)
  {
    var m, k := Shr(n, c.row), a.row - c.row;
    ShrShr(n, c.row, k);
    if IsRoot(n, c) {
      assert m / 2 == (m - 1) / 2;
      ShrHalf(m, k - 1);
      ShrHalf(m - 1, k - 1);
    }
  }

  /** Distinct live leaves have proof coordinates of which neither is at or above the other. */
  lemma {:induction false} ProofCoordsApart(leaves: seq<Node>, i: nat, j: nat)
    requires i < |leaves| && j < |leaves| && i != j && !leaves[i].spent && !leaves[j].spent
    ensures Ready(|leaves|, Coord(0, i)) && Ready(|leaves|, Coord(0, j))
    ensures !IsAtOrAbove(ProofCoord(leaves, Coord(0, i)), ProofCoord(leaves, Coord(0, j)))
  {
    var n, c, d := |leaves|, Coord(0, i), Coord(0, j);
    assert Shr(n, 0) == n;
    var p, q := ProofCoord(leaves, c), ProofCoord(leaves, d);
    if IsAtOrAbove(p, q) {
      AboveIsPrefix(n, p, q);
      DescendReady(n, RootAbove(n, c), LivePath(leaves, c));
      DescendReady(n, RootAbove(n, d), LivePath(leaves, d));
      LivePathsDiverge(leaves, c, d);
    }
  }
}
