/**
 The k-way merge of a window's position-sorted deltas.

 The program keeps one head per block in a heap ordered by (position, block, index) and writes
 every touched node once, with the state of the last block that touches it. Written in that
 order the batch equals applying the blocks one after another.
 */
module Merge {
  import opened Wrappers
  import opened Forest
  import opened Entry

  datatype Head = Head(position: nat, block: nat, index: nat)

  predicate Before(a: Head, b: Head) {
    || a.position < b.position
    || (a.position == b.position && (a.block < b.block || (a.block == b.block && a.index <= b.index)))
  }

  predicate Later(block: nat, index: nat, block': nat, index': nat) {
    block < block' || (block == block' && index <= index')
  }

  predicate SortedDeltas(deltas: seq<ForestDelta>) {
    forall i, j :: 0 <= i < j < |deltas| ==> deltas[i].position <= deltas[j].position
  }

  predicate SortedWindow(window: seq<seq<ForestDelta>>) {
    forall b :: 0 <= b < |window| ==> SortedDeltas(window[b])
  }

  /** What a position holds after the blocks in order; the last touching delta wins. */
  function LastInWindow(window: seq<seq<ForestDelta>>, p: nat): Option<NodeState> {
    if window == [] then None
    else match LastAfter(window[|window| - 1], p)
         case Some(s) => Some(s)
         case None => LastInWindow(window[..|window| - 1], p)
  }

  lemma {:induction false} LeastHeadExists(heads: set<Head>)
    requires heads != {}
    ensures exists h :: h in heads && forall x :: x in heads ==> Before(h, x)
  {
    var h :| h in heads;
    var rest := heads - {h};
    if rest == {} {
      assert heads == {h};
    } else {
      LeastHeadExists(rest);
      var k :| k in rest && forall x :: x in rest ==> Before(k, x);
      var least := if Before(h, k) then h else k;
      assert forall x :: x in heads ==> x == h || x in rest;
      assert least in heads && forall x :: x in heads ==> Before(least, x);
    }
  }

  /** The heap's top. */
  function Peek(heads: set<Head>): (h: Head)
    requires heads != {}
    ensures h in heads && forall x :: x in heads ==> Before(h, x)
  {
    LeastHeadExists(heads);
    var h :| h in heads && forall x :: x in heads ==> Before(h, x);
    h
  }

  // ----- The heap invariant -----

  /** `next[b]` deltas of block `b` have been taken off; the heap holds the following one. */
  ghost predicate HeapOf(heads: set<Head>, window: seq<seq<ForestDelta>>, next: seq<nat>, except: int) {
    && |next| == |window|
    && (forall b :: 0 <= b < |window| ==> next[b] <= |window[b]|)
    && (forall b :: 0 <= b < |window| && b != except && next[b] < |window[b]| ==>
           Head(window[b][next[b]].position, b, next[b]) in heads)
    && (forall h :: h in heads ==>
           h.block < |window| && h.block != except && h.index == next[h.block] < |window[h.block]|
           && h.position == window[h.block][h.index].position)
  }

  /** Every delta not yet taken lies at or after `p`. */
  ghost predicate RestFrom(window: seq<seq<ForestDelta>>, next: seq<nat>, p: nat)
    requires |next| == |window|
  {
    forall b, i :: 0 <= b < |window| && next[b] <= i < |window[b]| ==> window[b][i].position >= p
  }

  /** `(block, index)` is the latest taken delta at `p`. */
  ghost predicate IsLatest(window: seq<seq<ForestDelta>>, next: seq<nat>, p: nat, block: nat, index: nat)
    requires |next| == |window|
  {
    && block < |window| && index < next[block] && index < |window[block]| && window[block][index].position == p
    && forall b, i :: 0 <= b < |window| && 0 <= i < next[b] && i < |window[b]| && window[b][i].position == p ==>
           Later(b, i, block, index)
  }

  function Remaining(window: seq<seq<ForestDelta>>, next: seq<nat>): (n: nat)
    requires |next| == |window| && forall b :: 0 <= b < |window| ==> next[b] <= |window[b]|
  {
    if window == [] then 0
    else
      var l := |window| - 1;
      Remaining(window[..l], next[..l]) + (|window[l]| - next[l])
  }

  lemma {:induction false} RemainingStep(window: seq<seq<ForestDelta>>, next: seq<nat>, b: nat)
    requires |next| == |window| && forall x :: 0 <= x < |window| ==> next[x] <= |window[x]|
    requires b < |window| && next[b] < |window[b]|
    ensures Remaining(window, next[b := next[b] + 1]) == Remaining(window, next) - 1
  {
    var l := |window| - 1;
    if b < l {
      RemainingStep(window[..l], next[..l], b);
      assert next[b := next[b] + 1][..l] == next[..l][b := next[..l][b] + 1];
    } else {
      assert next[b := next[b] + 1][..l] == next[..l];
    }
  }

  /** The least head bounds every delta not yet taken, because each block is sorted. */
  lemma {:induction false} HeadBounds(heads: set<Head>, window: seq<seq<ForestDelta>>, next: seq<nat>, p: nat)
    requires SortedWindow(window) && HeapOf(heads, window, next, -1)
    requires forall h :: h in heads ==> h.position >= p
    ensures RestFrom(window, next, p)
  {
    forall b, i | 0 <= b < |window| && next[b] <= i < |window[b]|
      ensures window[b][i].position >= p
    {
      assert Head(window[b][next[b]].position, b, next[b]) in heads;
      assert SortedDeltas(window[b]);
      if next[b] < i { assert window[b][next[b]].position <= window[b][i].position; }
    }
  }

  /** Taking one more delta off its block. */
  lemma {:induction false} TakeHead(heads: set<Head>, window: seq<seq<ForestDelta>>, next: seq<nat>, h: Head)
    requires HeapOf(heads, window, next, -1) && h in heads
    ensures HeapOf(heads - {h}, window, next[h.block := next[h.block] + 1], h.block)
  {
    var next' := next[h.block := next[h.block] + 1];
    forall b | 0 <= b < |window| && b != h.block && next'[b] < |window[b]|
      ensures Head(window[b][next'[b]].position, b, next'[b]) in heads - {h}
    {
    }
  }

  /** Pushing the next delta of the block just taken from. */
  function PushNext(heads: set<Head>, window: seq<seq<ForestDelta>>, block: nat, index: nat): set<Head>
    requires block < |window|
  {
    if index + 1 < |window[block]| then heads + {Head(window[block][index + 1].position, block, index + 1)} else heads
  }

  lemma {:induction false} PushKeepsHeap(heads: set<Head>, window: seq<seq<ForestDelta>>, next: seq<nat>, block: nat,
                                         index: nat)
    requires HeapOf(heads, window, next, block) && block < |window| && next[block] == index + 1
    ensures HeapOf(PushNext(heads, window, block, index), window, next, -1)
  {
  }

  /** Between two takings only deltas at `p` were taken. */
  ghost predicate TakenAt(window: seq<seq<ForestDelta>>, next0: seq<nat>, next: seq<nat>, p: nat) {
    && |next0| == |next| == |window|
    && (forall b :: 0 <= b < |window| ==> next0[b] <= next[b] <= |window[b]|)
    && (forall b, i :: 0 <= b < |window| && next0[b] <= i < next[b] ==> window[b][i].position == p)
  }

  /** Every delta taken so far lies below `p`. */
  ghost predicate TakenBelow(window: seq<seq<ForestDelta>>, next: seq<nat>, p: nat) {
    && |next| == |window|
    && forall b, i :: 0 <= b < |window| && 0 <= i < next[b] && i < |window[b]| ==> window[b][i].position < p
  }

  lemma {:induction false} FirstTaken(heads: set<Head>, window: seq<seq<ForestDelta>>, next: seq<nat>, h: Head)
    requires HeapOf(heads, window, next, -1) && h in heads && TakenBelow(window, next, h.position)
    ensures var next' := next[h.block := next[h.block] + 1];
            && TakenAt(window, next, next', h.position)
            && IsLatest(window, next', h.position, h.block, h.index)
  {
  }

  lemma {:induction false} TakenMore(window: seq<seq<ForestDelta>>, next0: seq<nat>, next: seq<nat>, p: nat, top: Head)
    requires TakenAt(window, next0, next, p)
    requires top.block < |window| && top.index == next[top.block] < |window[top.block]|
             && window[top.block][top.index].position == p
    ensures TakenAt(window, next0, next[top.block := next[top.block] + 1], p)
  {
  }

  lemma {:induction false} RestShrinks(window: seq<seq<ForestDelta>>, next: seq<nat>, p: nat, b: nat)
    requires |next| == |window| && b < |window| && RestFrom(window, next, p)
    ensures RestFrom(window, next[b := next[b] + 1], p)
  {
  }

  /** Takes every delta at the least position off the heap; the last of them wins. */
  method TakePosition(window: seq<seq<ForestDelta>>, heads0: set<Head>, ghost next0: seq<nat>)
    returns (heads: set<Head>, position: nat, block: nat, index: nat, ghost next: seq<nat>)
    requires SortedWindow(window) && HeapOf(heads0, window, next0, -1) && heads0 != {}
    requires TakenBelow(window, next0, Peek(heads0).position)
    ensures HeapOf(heads, window, next, -1)
    ensures position == Peek(heads0).position
    ensures IsLatest(window, next, position, block, index)
    ensures RestFrom(window, next, position + 1)
    ensures TakenAt(window, next0, next, position)
    ensures Remaining(window, next) < Remaining(window, next0)
  {
    hide HeapOf, RestFrom, IsLatest, TakenAt, TakenBelow, SortedWindow, Remaining;
    var head := Peek(heads0);
    HeadsInWindow(heads0, window, next0);
    HeadBounds(heads0, window, next0, head.position);
    TakeHead(heads0, window, next0, head);
    FirstTaken(heads0, window, next0, head);
    RemainingStep(window, next0, head.block);
    RestShrinks(window, next0, head.position, head.block);
    heads, next := heads0 - {head}, next0[head.block := next0[head.block] + 1];
    position := head.position;
    block, index := head.block, head.index;
    var current: nat, at: nat := head.block, head.index;
    while true
      invariant |next| == |window| && current < |window| && next[current] == at + 1
      invariant forall b :: 0 <= b < |window| ==> next[b] <= |window[b]|
      invariant HeapOf(heads, window, next, current)
      invariant IsLatest(window, next, position, block, index)
      invariant RestFrom(window, next, position)
      invariant TakenAt(window, next0, next, position)
      invariant Remaining(window, next) < Remaining(window, next0)
      decreases Remaining(window, next)
    {
      PushKeepsHeap(heads, window, next, current, at);
      heads := PushNext(heads, window, current, at);
      if heads == {} || Peek(heads).position != position {
        NoMore(heads, window, next, position);
        break;
      }
      var top := Peek(heads);
      HeadsInWindow(heads, window, next);
      TakeHead(heads, window, next, top);
      RemainingStep(window, next, top.block);
      LatestStep(window, next, position, block, index, top);
      TakenMore(window, next0, next, position, top);
      RestShrinks(window, next, position, top.block);
      heads, next := heads - {top}, next[top.block := next[top.block] + 1];
      current, at := top.block, top.index;
      if Later(block, index, current, at) {
        block, index := current, at;
      }
    }
  }

  lemma {:induction false} HeadsInWindow(heads: set<Head>, window: seq<seq<ForestDelta>>, next: seq<nat>)
    requires HeapOf(heads, window, next, -1)
    ensures |next| == |window| && forall b :: 0 <= b < |window| ==> next[b] <= |window[b]|
    ensures forall h :: h in heads ==>
              && h.block < |window| && h.index == next[h.block] < |window[h.block]|
              && h.position == window[h.block][h.index].position
  {
  }

  lemma {:induction false} NoMore(heads: set<Head>, window: seq<seq<ForestDelta>>, next: seq<nat>, position: nat)
    requires SortedWindow(window) && HeapOf(heads, window, next, -1) && RestFrom(window, next, position)
    requires heads == {} || Peek(heads).position != position
    ensures RestFrom(window, next, position + 1)
  {
    forall h | h in heads
      ensures h.position >= position + 1
    {
      var top := Peek(heads);
      assert window[top.block][top.index].position >= position;
    }
    HeadBounds(heads, window, next, position + 1);
  }

  lemma {:induction false} LatestStep(window: seq<seq<ForestDelta>>, next: seq<nat>, p: nat, block: nat, index: nat,
                                      top: Head)
    requires |next| == |window| && IsLatest(window, next, p, block, index)
    requires top.block < |window| && top.index == next[top.block] < |window[top.block]|
             && window[top.block][top.index].position == p
    ensures var later := Later(block, index, top.block, top.index);
            IsLatest(window, next[top.block := next[top.block] + 1], p, if later then top.block
                else block, if later then top.index else index)
  {
    var next' := next[top.block := next[top.block] + 1];
    var later := Later(block, index, top.block, top.index);
    var b', i' := if later then top.block else block, if later then top.index else index;
    forall b, i | 0 <= b < |window| && 0 <= i < next'[b] && i < |window[b]| && window[b][i].position == p
      ensures Later(b, i, b', i')
    {
      if i < next[b] { assert Later(b, i, block, index); }
    }
  }

  /** The latest delta at a position, over the whole window, decides what it holds. */
  lemma {:induction false} LatestDecides(window: seq<seq<ForestDelta>>, p: nat, block: nat, index: nat)
    requires block < |window| && index < |window[block]| && window[block][index].position == p
    requires forall b, i :: 0 <= b < |window| && 0 <= i < |window[b]| && window[b][i].position == p ==>
               Later(b, i, block, index)
    ensures LastInWindow(window, p) == Some(window[block][index].after)
  {
    var l := |window| - 1;
    if block == l {
      LastAfterOf(window[l], index);
    } else {
      LastAfterNone(window[l], p);
      LatestDecides(window[..l], p, block, index);
    }
  }

  lemma {:induction false} LastAfterOf(deltas: seq<ForestDelta>, index: nat)
    requires index < |deltas|
    requires forall i :: index < i < |deltas| ==> deltas[i].position != deltas[index].position
    ensures LastAfter(deltas, deltas[index].position) == Some(deltas[index].after)
  {
    if index < |deltas| - 1 { LastAfterOf(deltas[..|deltas| - 1], index); }
  }

  lemma {:induction false} NothingAt(window: seq<seq<ForestDelta>>, p: nat)
    requires forall b, i :: 0 <= b < |window| && 0 <= i < |window[b]| ==> window[b][i].position != p
    ensures LastInWindow(window, p) == None
  {
    if window != [] {
      LastAfterNone(window[|window| - 1], p);
      NothingAt(window[..|window| - 1], p);
    }
  }

  datatype Write = Write(position: nat, state: NodeState)

  predicate AscendingWrites(writes: seq<Write>) {
    forall i, j :: 0 <= i < j < |writes| ==> writes[i].position < writes[j].position
  }

  /** The writes cover exactly the deltas taken so far. */
  ghost predicate Covers(writes: seq<Write>, window: seq<seq<ForestDelta>>, next: seq<nat>)
    requires |next| == |window|
  {
    && (forall w :: 0 <= w < |writes| ==> LastInWindow(window, writes[w].position) == Some(writes[w].state))
    && (forall b, i :: 0 <= b < |window| && 0 <= i < next[b] && i < |window[b]| ==>
           exists w :: 0 <= w < |writes| && writes[w].position == window[b][i].position)
  }

  method MergedForestWrites(window: seq<seq<ForestDelta>>) returns (writes: seq<Write>)
    requires SortedWindow(window)
    ensures AscendingWrites(writes)
    ensures forall p, s :: Write(p, s) in writes <==> LastInWindow(window, p) == Some(s)
  {
    hide Covers, RestFrom, IsLatest, TakenAt, TakenBelow, SortedWindow, Remaining, LastInWindow, AscendingWrites;
    ghost var next: seq<nat> := seq(|window|, b => 0);
    var heads := set b | 0 <= b < |window| && 0 < |window[b]| :: Head(window[b][0].position, b, 0);
    writes := [];
    NothingTaken(window, next);
    while heads != {}
      invariant HeapOf(heads, window, next, -1)
      invariant heads != {} ==> TakenBelow(window, next, Peek(heads).position)
      invariant heads != {} ==> WritesBelow(writes, Peek(heads).position)
      invariant AscendingWrites(writes)
      invariant Covers(writes, window, next)
      decreases Remaining(window, next)
    {
      ghost var before := next;
      var position, block, index;
      heads, position, block, index, next := TakePosition(window, heads, next);
      LatestOverall(window, next, position, block, index);
      LatestDecides(window, position, block, index);
      var write := Write(position, window[block][index].after);
      CoversMore(writes, window, before, next, write);
      WriteAbove(writes, write);
      NextIsAbove(heads, window, before, next, position, writes + [write]);
      writes := writes + [write];
    }
    AllCovered(writes, window, next);
  }

  ghost predicate WritesBelow(writes: seq<Write>, p: nat) {
    forall w :: 0 <= w < |writes| ==> writes[w].position < p
  }

  lemma {:induction false} WriteAbove(writes: seq<Write>, w: Write)
    requires AscendingWrites(writes) && WritesBelow(writes, w.position)
    ensures AscendingWrites(writes + [w]) && WritesBelow(writes + [w], w.position + 1)
  {
  }

  lemma {:induction false} NothingTaken(window: seq<seq<ForestDelta>>, next: seq<nat>)
    requires |next| == |window| && forall b :: 0 <= b < |next| ==> next[b] == 0
    ensures Covers([], window, next) && AscendingWrites([])
    ensures forall p: nat :: TakenBelow(window, next, p)
  {
  }

  lemma {:induction false} LatestOverall(window: seq<seq<ForestDelta>>, next: seq<nat>, p: nat, block: nat, index: nat)
    requires |next| == |window| && IsLatest(window, next, p, block, index) && RestFrom(window, next, p + 1)
    ensures block < |window| && index < |window[block]| && window[block][index].position == p
    ensures forall b, i :: 0 <= b < |window| && 0 <= i < |window[b]| && window[b][i].position == p ==>
              Later(b, i, block, index)
  {
  }

  lemma {:induction false} CoversMore(writes: seq<Write>, window: seq<seq<ForestDelta>>, before: seq<nat>,
                                      next: seq<nat>, w: Write)
    requires |before| == |next| == |window| && Covers(writes, window, before)
    requires LastInWindow(window, w.position) == Some(w.state)
    requires TakenAt(window, before, next, w.position)
    ensures Covers(writes + [w], window, next)
  {
    var more := writes + [w];
    assert more[|writes|] == w;
    forall b, i | 0 <= b < |window| && 0 <= i < next[b] && i < |window[b]|
      ensures exists v :: 0 <= v < |more| && more[v].position == window[b][i].position
    {
      if i < before[b] {
        var v :| 0 <= v < |writes| && writes[v].position == window[b][i].position;
        assert more[v].position == window[b][i].position;
      }
    }
  }

  lemma {:induction false} NextIsAbove(heads: set<Head>, window: seq<seq<ForestDelta>>, before: seq<nat>,
                                       next: seq<nat>, position: nat, writes: seq<Write>)
    requires HeapOf(heads, window, next, -1) && RestFrom(window, next, position + 1)
    requires TakenBelow(window, before, position) && TakenAt(window, before, next, position)
    requires WritesBelow(writes, position + 1)
    ensures heads != {} ==> TakenBelow(window, next, Peek(heads).position) && WritesBelow(writes, Peek(heads).position)
  {
    if heads != {} {
      var top := Peek(heads);
      assert window[top.block][top.index].position >= position + 1;
      forall b, i | 0 <= b < |window| && 0 <= i < next[b] && i < |window[b]|
        ensures window[b][i].position < top.position
      {
        if i < before[b] { assert window[b][i].position < position; }
      }
    }
  }

  lemma {:induction false} AllCovered(writes: seq<Write>, window: seq<seq<ForestDelta>>, next: seq<nat>)
    requires HeapOf({}, window, next, -1) && AscendingWrites(writes) && Covers(writes, window, next)
    ensures forall p, s :: Write(p, s) in writes <==> LastInWindow(window, p) == Some(s)
  {
    forall p, s | LastInWindow(window, p) == Some(s)
      ensures Write(p, s) in writes
    {
      if forall b, i :: 0 <= b < |window| && 0 <= i < |window[b]| ==> window[b][i].position != p {
        NothingAt(window, p);
      } else {
        var b, i :| 0 <= b < |window| && 0 <= i < |window[b]| && window[b][i].position == p;
        assert next[b] == |window[b]|;
        var w :| 0 <= w < |writes| && writes[w].position == p;
        assert writes[w] == Write(p, s);
      }
    }
  }
}
