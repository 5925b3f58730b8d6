/**
 Proof positions of a whole batch of targets with each shared path walked once.

 One growing frontier is visited from the front; two neighbours that are siblings are merged, so
 neither has to be read. The traversal must find every sibling that any single target needs.
 */
module Detwin {
  import opened Bits
  import opened Wrappers
  import opened Sorting
  import opened Coordinates
  import opened Forest
  import opened Proofs
  import opened Walks

  predicate NodeReady(leaves: seq<Node>, rows: nat, p: nat) {
    p < Capacity(rows) && Ready(|leaves|, At(p, rows))
  }

  predicate Live(leaves: seq<Node>, rows: nat, p: nat) {
    NodeReady(leaves, rows, p) && !Spent(leaves, At(p, rows))
  }

  predicate Truthful(leaves: seq<Node>, rows: nat, spent: map<nat, bool>) {
    forall p :: p in spent ==> NodeReady(leaves, rows, p) && spent[p] == Spent(leaves, At(p, rows))
  }

  lemma {:induction false} LiveStep(leaves: seq<Node>, rows: nat, p: nat)
    requires Live(leaves, rows, p) && |leaves| <= Pow2(rows) && rows <= MAX_ROWS
    ensures !IsRootPosition(p, |leaves|, rows) ==>
              && Parent(p, rows) == p / 2 + Pow2(rows)
              && Live(leaves, rows, Parent(p, rows))
              && NodeReady(leaves, rows, FlipLow(p))
  {
    hide Position, Pow2, At, IsRootPosition, Parent, Value;
    var n, c := |leaves|, At(p, rows);
    PositionAt(p, rows);
    ClimbStep(n, c, rows);
    if !IsRoot(n, c) {
      LiveAbove(leaves, c);
      assert At(Position(Above(c), rows), rows) == Above(c);
      assert At(Position(Sibling(c), rows), rows) == Sibling(c);
      ParentValue(c, rows);
    }
  }

  lemma {:induction false} ParentValue(c: Coord, rows: nat)
    requires InLayout(c, rows) && InLayout(Above(c), rows)
    ensures Position(Above(c), rows) == Position(c, rows) / 2 + Pow2(rows)
  {
    hide Position, Pow2, At;
    PositionFromStart(c, rows);
    PositionFromStart(Above(c), rows);
    StartEven(c.row, rows);
    StartEven(c.row + 1, rows);
    Pow2Step(rows - c.row - 1);
  }

  // ----- The frontier -----

  /** What is settled once a position has been visited. */
  predicate Settled(frontier: seq<nat>, known: set<nat>, n: nat, rows: nat, p: nat) {
    p < Capacity(rows) && rows <= MAX_ROWS &&
    (IsRootPosition(p, n, rows) || (FlipLow(p) in known && Parent(p, rows) in frontier))
  }

  /** Every parent still to be pushed sorts behind the whole frontier. */
  predicate ParentsAhead(frontier: seq<nat>, index: nat, rows: nat) {
    forall i :: index <= i < |frontier| ==> frontier[i] / 2 + Pow2(rows) > frontier[|frontier| - 1]
  }

  predicate AllSettled(frontier: seq<nat>, index: nat, known: set<nat>, n: nat, rows: nat) {
    index <= |frontier| && forall i :: 0 <= i < index ==> Settled(frontier, known, n, rows, frontier[i])
  }

  ghost predicate FrontierInv(leaves: seq<Node>, rows: nat, frontier: seq<nat>, index: nat,
                              spent: map<nat, bool>, toLoad: set<nat>) {
    && index <= |frontier|
    && Ascending(frontier)
    && (forall i :: 0 <= i < |frontier| ==> Live(leaves, rows, frontier[i]))
    && ParentsAhead(frontier, index, rows)
    && AllSettled(frontier, index, spent.Keys + toLoad, |leaves|, rows)
    && (forall p :: p in toLoad ==> NodeReady(leaves, rows, p))
    && Truthful(leaves, rows, spent)
  }

  /** Distinct positions are bounded, so the growing frontier is too. */
  lemma {:induction false} AscendingBound(s: seq<nat>, bound: nat)
    requires Ascending(s) && forall i :: 0 <= i < |s| ==> s[i] < bound
    ensures |s| <= bound
  {
    if s != [] {
      var m := |s| - 1;
      AscendingBound(s[..m], s[m]);
    }
  }

  lemma {:induction false} FrontierBound(leaves: seq<Node>, rows: nat, frontier: seq<nat>, index: nat,
                      spent: map<nat, bool>, toLoad: set<nat>)
    requires FrontierInv(leaves, rows, frontier, index, spent, toLoad)
    ensures index <= |frontier| <= Capacity(rows)
  {
    assert forall i :: 0 <= i < |frontier| ==> Live(leaves, rows, frontier[i]);
    AscendingBound(frontier, Capacity(rows));
  }

  lemma {:induction false} FrontierStart(leaves: seq<Node>, rows: nat, positions: set<nat>)
    requires rows <= MAX_ROWS && |leaves| <= Pow2(rows)
    requires forall p :: p in positions ==> p < |leaves| && !leaves[p].spent
    ensures FrontierInv(leaves, rows, Sorted(positions), 0, map[], {})
  {
    hide Sorted, Position, Pow2, At;
    var frontier := Sorted(positions);
    forall i | 0 <= i < |frontier|
      ensures Live(leaves, rows, frontier[i]) && frontier[i] < Pow2(rows)
    {
      assert frontier[i] in positions;
      BottomLive(leaves, rows, frontier[i]);
    }
  }

  lemma {:induction false} BottomLive(leaves: seq<Node>, rows: nat, p: nat)
    requires |leaves| <= Pow2(rows) && p < |leaves| && !leaves[p].spent
    ensures Live(leaves, rows, p)
  {
    BottomPosition(p, rows);
    assert Shr(|leaves|, 0) == |leaves|;
  }

  /** A root is visited and left alone. */
  lemma {:induction false} SkipRoot(leaves: seq<Node>, rows: nat, frontier: seq<nat>, index: nat,
                 spent: map<nat, bool>, toLoad: set<nat>)
    requires FrontierInv(leaves, rows, frontier, index, spent, toLoad) && index < |frontier| && rows <= MAX_ROWS
    requires frontier[index] < Capacity(rows) && IsRootPosition(frontier[index], |leaves|, rows)
    ensures FrontierInv(leaves, rows, frontier, index + 1, spent, toLoad)
  {
    hide Position, Pow2, At, IsRootPosition, Parent, Value;
  }

  lemma {:induction false} Pushed(frontier: seq<nat>, up: nat)
    requires Ascending(frontier) && frontier != [] && frontier[|frontier| - 1] < up
    ensures Ascending(frontier + [up])
    ensures forall x :: x in frontier ==> x in frontier + [up]
    ensures up in frontier + [up]
  {
  }

  /** The sibling is not a target's ancestor: it must be read. */
  lemma {:induction false} VisitSingle(leaves: seq<Node>, rows: nat, frontier: seq<nat>, index: nat,
                    spent: map<nat, bool>, toLoad: set<nat>)
    requires FrontierInv(leaves, rows, frontier, index, spent, toLoad) && index < |frontier|
    requires rows <= MAX_ROWS && |leaves| <= Pow2(rows)
    requires frontier[index] < Capacity(rows) && !IsRootPosition(frontier[index], |leaves|, rows)
    requires index + 1 < |frontier| ==> frontier[index + 1] != FlipLow(frontier[index])
    ensures FrontierInv(leaves, rows, frontier + [Parent(frontier[index], rows)], index + 1, spent,
            toLoad + {FlipLow(frontier[index])})
  {
    hide Position, Pow2, At, IsRootPosition, Parent, Value, Settled;
    var p := frontier[index];
    LiveStep(leaves, rows, p);
    Visited(leaves, rows, frontier, index, index + 1, spent, toLoad, spent, toLoad + {FlipLow(p)});
  }

  /** Both siblings lead to targets: neither can be spent, neither is read. */
  lemma {:induction false} VisitPair(leaves: seq<Node>, rows: nat, frontier: seq<nat>, index: nat,
                  spent: map<nat, bool>, toLoad: set<nat>)
    requires FrontierInv(leaves, rows, frontier, index, spent, toLoad) && index + 1 < |frontier|
    requires rows <= MAX_ROWS && |leaves| <= Pow2(rows)
    requires frontier[index] < Capacity(rows) && !IsRootPosition(frontier[index], |leaves|, rows)
    requires frontier[index + 1] == FlipLow(frontier[index])
    ensures FrontierInv(leaves, rows, frontier + [Parent(frontier[index], rows)], index + 2,
                        spent[frontier[index] := false][FlipLow(frontier[index]) := false], toLoad)
  {
    hide Position, Pow2, At, IsRootPosition, Parent, Value, Settled;
    var p, q := frontier[index], frontier[index + 1];
    LiveStep(leaves, rows, p);
    LiveStep(leaves, rows, q);
    assert Live(leaves, rows, p) && Live(leaves, rows, q);
    Visited(leaves, rows, frontier, index, index + 2, spent, toLoad, spent[p := false][q := false], toLoad);
  }

  /** What visiting a position, alone or with its sibling, keeps. */
  lemma {:induction false} Visited(leaves: seq<Node>, rows: nat, frontier: seq<nat>, index: nat, next: nat,
                spent: map<nat, bool>, toLoad: set<nat>, spent': map<nat, bool>, toLoad': set<nat>)
    requires FrontierInv(leaves, rows, frontier, index, spent, toLoad) && index < next <= index + 2
             && next <= |frontier|
    requires rows <= MAX_ROWS && |leaves| <= Pow2(rows)
    requires frontier[index] < Capacity(rows) && !IsRootPosition(frontier[index], |leaves|, rows)
    requires next == index + 2 <==> index + 1 < |frontier| && frontier[index + 1] == FlipLow(frontier[index])
    requires FlipLow(frontier[index]) in spent'.Keys + toLoad'
    requires next == index + 2 ==> frontier[index] in spent'.Keys + toLoad'
    requires spent.Keys + toLoad <= spent'.Keys + toLoad'
    requires forall q :: q in toLoad' ==> NodeReady(leaves, rows, q)
    requires Truthful(leaves, rows, spent')
    ensures FrontierInv(leaves, rows, frontier + [Parent(frontier[index], rows)], next, spent', toLoad')
  {
    hide Position, Pow2, At, IsRootPosition, Parent, Truthful, Settled, FlipLow, Spent, Ready, ParentsAhead, AllSettled;
    var p := frontier[index];
    assert Live(leaves, rows, p) && frontier[|frontier| - 1] < p / 2 + Pow2(rows) by { AheadAt(frontier, index, rows); }
    LiveStep(leaves, rows, p);
    Pushed(frontier, Parent(p, rows));
    VisitedAhead(frontier, index, next, rows);
    VisitedSettled(leaves, rows, frontier, index, next, spent.Keys + toLoad, spent'.Keys + toLoad');
  }

  lemma {:induction false} AheadAt(frontier: seq<nat>, index: nat, rows: nat)
    requires ParentsAhead(frontier, index, rows) && index < |frontier|
    ensures frontier[|frontier| - 1] < frontier[index] / 2 + Pow2(rows)
  {
  }

  lemma {:induction false} VisitedAhead(frontier: seq<nat>, index: nat, next: nat, rows: nat)
    requires Ascending(frontier) && index < next <= index + 2 && next <= |frontier|
    requires next == index + 2 <==> index + 1 < |frontier| && frontier[index + 1] == FlipLow(frontier[index])
    requires Parent(frontier[index], rows) == frontier[index] / 2 + Pow2(rows) < Capacity(rows)
    ensures ParentsAhead(frontier + [Parent(frontier[index], rows)], next, rows)
  {
    hide Pow2, Parent, FlipLow;
    var up := Parent(frontier[index], rows);
    var grown := frontier + [up];
    forall i | next <= i < |grown|
      ensures grown[i] / 2 + Pow2(rows) > up
    {
      if i < |frontier| { LaterParent(frontier, index, next, i); } else { UpperHalf(up, rows); }
    }
  }

  lemma {:induction false} VisitedSettled(leaves: seq<Node>, rows: nat, frontier: seq<nat>, index: nat, next: nat,
                                          known: set<nat>, known': set<nat>)
    requires rows <= MAX_ROWS && |leaves| <= Pow2(rows)
    requires AllSettled(frontier, index, known, |leaves|, rows) && known <= known'
    requires index < next <= index + 2 && next <= |frontier|
    requires Live(leaves, rows, frontier[index]) && !IsRootPosition(frontier[index], |leaves|, rows)
    requires FlipLow(frontier[index]) in known'
    requires next == index + 2 ==>
               && frontier[index + 1] == FlipLow(frontier[index]) && frontier[index] in known'
               && Live(leaves, rows, frontier[index + 1])
    ensures AllSettled(frontier + [Parent(frontier[index], rows)], next, known', |leaves|, rows)
  {
    hide Position, Pow2, At, IsRootPosition, Parent, Spent, Ready, Settled, FlipLow;
    var p := frontier[index];
    var grown := frontier + [Parent(p, rows)];
    forall i | 0 <= i < next
      ensures Settled(grown, known', |leaves|, rows, grown[i])
    {
      assert grown[i] == frontier[i];
      assert grown[|frontier|] == Parent(p, rows);
      if i < index {
        SettledGrows(frontier, grown, known, known', |leaves|, rows, frontier[i]);
      } else if i == index {
        SettledNow(leaves, grown, known', rows, p, p);
      } else {
        PairSettled(leaves, rows, frontier, index);
        SettledNow(leaves, grown, known', rows, p, frontier[i]);
      }
    }
  }

  lemma {:induction false} SettledGrows(frontier: seq<nat>, grown: seq<nat>, known: set<nat>, known': set<nat>,
                                        n: nat, rows: nat, p: nat)
    requires Settled(frontier, known, n, rows, p) && known <= known' && forall x :: x in frontier ==> x in grown
    ensures Settled(grown, known', n, rows, p)
  {
    hide IsRootPosition, Parent, Pow2;
  }

  lemma {:induction false} SettledNow(leaves: seq<Node>, grown: seq<nat>, known: set<nat>, rows: nat, p: nat, q: nat)
    requires rows <= MAX_ROWS && q < Capacity(rows) && p < Capacity(rows)
    requires IsRootPosition(q, |leaves|, rows) || (Parent(q, rows) == Parent(p, rows) && FlipLow(q) in known)
    requires Parent(p, rows) in grown
    ensures Settled(grown, known, |leaves|, rows, q)
  {
    hide IsRootPosition, Parent, Pow2;
  }

  lemma {:induction false} LaterParent(frontier: seq<nat>, index: nat, next: nat, i: nat)
    requires Ascending(frontier) && index < next <= i < |frontier|
    requires next == index + 2 <==> index + 1 < |frontier| && frontier[index + 1] == FlipLow(frontier[index])
    ensures frontier[i] / 2 > frontier[index] / 2
  {
    if next == index + 2 {
      assert frontier[index] < frontier[index + 1] < frontier[i];
    } else {
      assert frontier[index] < frontier[index + 1] <= frontier[i];
    }
  }

  lemma {:induction false} UpperHalf(up: nat, rows: nat)
    requires up < Capacity(rows)
    ensures up / 2 + Pow2(rows) > up
  {
    hide Pow2;
    Pow2Step(rows);
  }

  /** A merged sibling has the same parent. */
  lemma {:induction false} PairSettled(leaves: seq<Node>, rows: nat, frontier: seq<nat>, index: nat)
    requires index + 1 < |frontier| && frontier[index + 1] == FlipLow(frontier[index])
    requires rows <= MAX_ROWS && |leaves| <= Pow2(rows)
    requires Live(leaves, rows, frontier[index]) && Live(leaves, rows, frontier[index + 1])
    requires !IsRootPosition(frontier[index], |leaves|, rows)
    ensures IsRootPosition(frontier[index + 1], |leaves|, rows)
            || Parent(frontier[index + 1], rows) == Parent(frontier[index], rows)
    ensures FlipLow(frontier[index + 1]) == frontier[index]
  {
    hide Position, Pow2, At, IsRootPosition, Parent, Value;
    LiveStep(leaves, rows, frontier[index]);
    LiveStep(leaves, rows, frontier[index + 1]);
  }

  // ----- Using what the traversal found -----

  /** Climbing from any visited position, every sibling is known. */
  lemma {:induction false} VisitedInformed(leaves: seq<Node>, rows: nat, frontier: seq<nat>, spent: map<nat, bool>,
                                           c: Coord)
    requires rows <= MAX_ROWS && |leaves| <= Pow2(rows) && Truthful(leaves, rows, spent)
    requires AllSettled(frontier, |frontier|, spent.Keys, |leaves|, rows)
    requires Ready(|leaves|, c) && InLayout(c, rows) && Position(c, rows) in frontier
    ensures Informed(leaves, c, rows, spent)
    decreases Shr(|leaves|, c.row)
  {
    hide Position, Pow2, At, IsRootPosition, Parent, Value;
    var p := Position(c, rows);
    ClimbStep(|leaves|, c, rows);
    if !IsRoot(|leaves|, c) {
      assert Settled(frontier, spent.Keys, |leaves|, rows, p);
      assert At(Position(Sibling(c), rows), rows) == Sibling(c);
      assert TellsSpent(leaves, Sibling(c), rows, spent);
      VisitedInformed(leaves, rows, frontier, spent, Above(c));
    }
  }

  /** Visits the frontier, then reads the siblings it could not settle, in ascending order. */
  method CollectSpent(positions: set<nat>, cells: seq<NodeState>, rows: nat, n: nat, ghost leaves: seq<Node>)
    returns (spent: map<nat, bool>)
    requires IsForest(cells, rows, leaves) && n == |leaves|
    requires forall p :: p in positions ==> p < |leaves| && !leaves[p].spent
    ensures forall p :: p in positions ==> Ready(n, Coord(0, p)) && Informed(leaves, Coord(0, p), rows, spent)
  {
    hide IsForest, Position, Pow2, At, IsRootPosition, Parent, Value, FrontierInv, Sorted, Informed, Truthful,
         AllSettled;
    Bounds(cells, rows, leaves);
    FrontierStart(leaves, rows, positions);
    var frontier := Sorted(positions);
    var toLoad: set<nat>;
    spent, toLoad := map[], {};
    var index := 0;
    while index < |frontier|
      invariant FrontierInv(leaves, rows, frontier, index, spent, toLoad) && index <= |frontier|
      invariant forall p :: p in positions ==> p in frontier
      decreases Capacity(rows) - index
    {
      FrontierBound(leaves, rows, frontier, index, spent, toLoad);
      var position := frontier[index];
      assert position < Capacity(rows) by { InFrontier(leaves, rows, frontier, index, spent, toLoad, index); }
      index := index + 1;
      if IsRootPosition(position, n, rows) {
        SkipRoot(leaves, rows, frontier, index - 1, spent, toLoad);
        continue;
      }
      var sibling := FlipLow(position);
      if index < |frontier| && frontier[index] == sibling {
        VisitPair(leaves, rows, frontier, index - 1, spent, toLoad);
        spent := spent[position := false][sibling := false];
        index := index + 1;
      } else {
        VisitSingle(leaves, rows, frontier, index - 1, spent, toLoad);
        toLoad := toLoad + {sibling};
      }
      frontier := frontier + [Parent(position, rows)];
    }
    AllLoaded(leaves, rows, frontier, spent, toLoad);
    spent := LoadSpent(spent, toLoad, cells, rows, leaves);
    forall p | p in positions
      ensures Ready(n, Coord(0, p)) && Informed(leaves, Coord(0, p), rows, spent)
    {
      BottomReady(n, rows, p);
      VisitedInformed(leaves, rows, frontier, spent, Coord(0, p));
    }
  }

  lemma {:induction false} BottomReady(n: nat, rows: nat, p: nat)
    requires p < n <= Pow2(rows)
    ensures Ready(n, Coord(0, p)) && InLayout(Coord(0, p), rows) && Position(Coord(0, p), rows) == p
  {
    BottomPosition(p, rows);
    assert Shr(n, 0) == n;
  }

  lemma {:induction false} InFrontier(leaves: seq<Node>, rows: nat, frontier: seq<nat>, index: nat,
                   spent: map<nat, bool>, toLoad: set<nat>, i: nat)
    requires FrontierInv(leaves, rows, frontier, index, spent, toLoad) && i < |frontier|
    ensures Live(leaves, rows, frontier[i])
  {
  }

  method LoadSpent(found: map<nat, bool>, toLoad: set<nat>, cells: seq<NodeState>, rows: nat, ghost leaves: seq<Node>)
    returns (spent: map<nat, bool>)
    requires IsForest(cells, rows, leaves) && Truthful(leaves, rows, found)
    requires forall p :: p in toLoad ==> NodeReady(leaves, rows, p)
    ensures Truthful(leaves, rows, spent) && spent.Keys == found.Keys + toLoad
  {
    hide IsForest, Pow2, At, Spent, Ready, Sorted, Truthful;
    spent := found;
    var order := Sorted(toLoad);
    ghost var loaded: set<nat> := {};
    var k := 0;
    while k < |order|
      invariant k <= |order|
      invariant Truthful(leaves, rows, spent)
      invariant spent.Keys == found.Keys + loaded && loaded <= toLoad
      invariant forall i :: 0 <= i < k ==> order[i] in loaded
    {
      var p := order[k];
      assert p in toLoad;
      StoredSpent(cells, rows, leaves, p);
      TruthfulPlus(leaves, rows, spent, p, cells[p].spent);
      spent := spent[p := cells[p].spent];
      loaded := loaded + {p};
      k := k + 1;
    }
    assert loaded == toLoad by { assert forall p :: p in toLoad ==> p in order; }
  }

  lemma {:induction false} TruthfulPlus(leaves: seq<Node>, rows: nat, spent: map<nat, bool>, p: nat, b: bool)
    requires Truthful(leaves, rows, spent) && NodeReady(leaves, rows, p) && b == Spent(leaves, At(p, rows))
    ensures Truthful(leaves, rows, spent[p := b])
  {
    hide Pow2, At, Spent, Ready;
  }

  lemma {:induction false} AllLoaded(leaves: seq<Node>, rows: nat, frontier: seq<nat>, found: map<nat, bool>,
                                     toLoad: set<nat>)
    requires FrontierInv(leaves, rows, frontier, |frontier|, found, toLoad)
    ensures Truthful(leaves, rows, found) && forall p :: p in toLoad ==> NodeReady(leaves, rows, p)
    ensures AllSettled(frontier, |frontier|, found.Keys + toLoad, |leaves|, rows)
  {
    hide Pow2, At, Spent, Ready, Settled, Truthful, ParentsAhead;
  }

  lemma {:induction false} StoredSpent(cells: seq<NodeState>, rows: nat, leaves: seq<Node>, p: nat)
    requires IsForest(cells, rows, leaves) && NodeReady(leaves, rows, p)
    ensures p < |cells| && cells[p].ready && cells[p].spent == Spent(leaves, At(p, rows))
  {
    hide Value, Pow2, At;
  }

  /**
   Replaces every target by its proof position, in place. The traversal never lacks a sibling,
   and each target gets what a walk of its own would give it.
   */
  method TranslateProofPositions(positions: array<nat>, cells: seq<NodeState>, rows: nat, n: nat,
                                 ghost leaves: seq<Node>)
    requires IsForest(cells, rows, leaves) && n == |leaves|
    requires forall i :: 0 <= i < positions.Length ==> positions[i] < n && !leaves[positions[i]].spent
    modifies positions
    ensures forall i :: 0 <= i < positions.Length ==>
              && old(positions[i]) < n && Ready(n, Coord(0, old(positions[i])))
              && positions[i] < Capacity(TreeRows(n))
              && At(positions[i], TreeRows(n)) == ProofCoord(leaves, Coord(0, old(positions[i])))
  {
    hide IsForest, Position, Pow2, At, Value, Informed, TreeRows, ClimbPath, PromotedPosition, LivePath, RootAbove,
         Descend;
    Bounds(cells, rows, leaves);
    ghost var targets := positions[..];
    var spent := CollectSpent((set p | p in positions[..]), cells, rows, n, leaves);
    for i := 0 to positions.Length
      invariant forall j :: i <= j < positions.Length ==> positions[j] == targets[j]
      invariant forall j :: 0 <= j < i ==> Promoted(leaves, targets[j], positions[j])
    {
      var p := positions[i];
      assert p == targets[i];
      var found := ProofPositionFromSpent(p, n, rows, spent);
      PromotedIsProofCoord(leaves, p, rows, spent);
      positions[i] := found.value;
    }
  }

  predicate Promoted(leaves: seq<Node>, leaf: nat, p: nat) {
    && leaf < |leaves| && Ready(|leaves|, Coord(0, leaf))
    && p < Capacity(TreeRows(|leaves|))
    && At(p, TreeRows(|leaves|)) == ProofCoord(leaves, Coord(0, leaf))
  }
}
