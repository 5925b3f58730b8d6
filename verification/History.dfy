/**
 Undo and redo over every history of the journal.

 Blocks are appended, the latest one may be rolled back, and a prefix that starts before a
 forward record may be pruned. Replay undoes every retained record, newest first, then redoes
 those still marked forward. Whatever an interrupted write left at the touched keys, that
 restores the state of the last completed operation.
 */
module History {
  import opened Wrappers
  import opened Entry
  import opened Ledger

  datatype Record = Record(entry: JournalEntry, forward: bool)

  // ----- One key -----

  datatype KeyRecord = KeyRecord(touch: Touch, forward: bool)

  function RedoForward(v: Val, h: seq<KeyRecord>): Val {
    if h == [] then v
    else
      var before := RedoForward(v, h[..|h| - 1]);
      var last := h[|h| - 1];
      if last.forward then Redo(before, last.touch) else before
  }

  function UndoAll(v: Val, h: seq<KeyRecord>): Val {
    if h == [] then v else Undo(UndoAll(v, h[1..]), h[0].touch)
  }

  function Replay(v: Val, h: seq<KeyRecord>): Val {
    RedoForward(UndoAll(v, h), h)
  }

  /** No record in the range touches the key. */
  predicate UntouchedIn(h: seq<KeyRecord>, from: nat, to: nat)
    requires from <= to <= |h|
  {
    forall i :: from <= i < to ==> h[i].touch.Untouched?
  }

  predicate AllUntouched(h: seq<KeyRecord>) {
    UntouchedIn(h, 0, |h|)
  }

  /** A forward record starts from the forward records before it. */
  predicate ChainedAt(base: Val, h: seq<KeyRecord>, j: nat)
    requires j < |h|
  {
    h[j].forward && h[j].touch.Touched? ==> h[j].touch.before == RedoForward(base, h[..j])
  }

  /**
   Any record starts from the forward records up to an earlier forward one (or from the base),
   as far as nothing in between touches the key.
   */
  predicate AnchoredAt(base: Val, h: seq<KeyRecord>, a: nat, j: nat)
    requires a <= j < |h|
  {
    (a == 0 || h[a - 1].forward) && UntouchedIn(h, a, j) && h[j].touch.Touched? ==>
      h[j].touch.before == RedoForward(base, h[..a])
  }

  predicate KeyInv(base: Val, h: seq<KeyRecord>, now: Val) {
    && now == RedoForward(base, h)
    && (forall j :: 0 <= j < |h| ==> ChainedAt(base, h, j))
    && (forall a, j :: 0 <= a <= j < |h| ==> AnchoredAt(base, h, a, j))
  }

  lemma {:induction false} RedoSplit(v: Val, h: seq<KeyRecord>, i: nat)
    requires i <= |h|
    ensures RedoForward(v, h) == RedoForward(RedoForward(v, h[..i]), h[i..])
  {
    if i < |h| {
      var n := |h| - 1;
      RedoSplit(v, h[..n], i);
      assert h[..n][..i] == h[..i];
      assert h[..n][i..] == h[i..][..n - i];
      assert h[i..][n - i] == h[n];
    } else {
      assert h[..i] == h;
    }
  }

  lemma {:induction false} RedoUntouched(v: Val, h: seq<KeyRecord>)
    requires AllUntouched(h)
    ensures RedoForward(v, h) == v
  {
    if h != [] { RedoUntouched(v, h[..|h| - 1]); }
  }

  lemma {:induction false} RedoNoneForward(v: Val, h: seq<KeyRecord>)
    requires forall i :: 0 <= i < |h| ==> !h[i].forward
    ensures RedoForward(v, h) == v
  {
    if h != [] { RedoNoneForward(v, h[..|h| - 1]); }
  }

  lemma {:induction false} KeyAppend(base: Val, h: seq<KeyRecord>, now: Val, t: Touch)
    requires KeyInv(base, h, now)
    requires t.Touched? ==> t.before == now
    ensures KeyInv(base, h + [KeyRecord(t, true)], Redo(now, t))
  {
    var h' := h + [KeyRecord(t, true)];
    assert h'[..|h|] == h;
    forall j | 0 <= j < |h'|
      ensures ChainedAt(base, h', j)
    {
      assert h'[..j] == h[..j];
      if j < |h| { assert ChainedAt(base, h, j); }
    }
    forall a, j | 0 <= a <= j < |h'|
      ensures AnchoredAt(base, h', a, j)
    {
      assert h'[..a] == h[..a];
      if j < |h| {
        assert AnchoredAt(base, h, a, j);
      } else if UntouchedIn(h', a, j) {
        RedoSplit(base, h, a);
        RedoUntouched(RedoForward(base, h[..a]), h[a..]);
      }
    }
  }

  /** Undoing the latest forward record leaves the forward records before it. */
  lemma {:induction false} KeyRollback(base: Val, h: seq<KeyRecord>, now: Val, i: nat)
    requires KeyInv(base, h, now)
    requires i < |h| && h[i].forward && forall j :: i < j < |h| ==> !h[j].forward
    ensures KeyInv(base, h[i := KeyRecord(h[i].touch, false)], Undo(now, h[i].touch))
  {
    var h' := h[i := KeyRecord(h[i].touch, false)];
    UndoLatest(base, h, i);
    assert forall x :: 0 <= x < |h| ==> h'[x].touch == h[x].touch;
    assert ChainedAt(base, h, i);
    forall j | 0 <= j < |h'|
      ensures ChainedAt(base, h', j)
    {
      assert ChainedAt(base, h, j);
      if j <= i { assert h'[..j] == h[..j]; }
    }
    forall a, j | 0 <= a <= j < |h'|
      ensures AnchoredAt(base, h', a, j)
    {
      assert AnchoredAt(base, h, a, j);
      if a <= i { assert h'[..a] == h[..a]; }
      assert UntouchedIn(h', a, j) <==> UntouchedIn(h, a, j);
    }
  }

  lemma {:induction false} UndoLatest(base: Val, h: seq<KeyRecord>, i: nat)
    requires i < |h| && h[i].forward && forall j :: i < j < |h| ==> !h[j].forward
    ensures RedoForward(base, h) == Redo(RedoForward(base, h[..i]), h[i].touch)
    ensures RedoForward(base, h[i := KeyRecord(h[i].touch, false)]) == RedoForward(base, h[..i])
  {
    var h' := h[i := KeyRecord(h[i].touch, false)];
    RedoSplit(base, h, i + 1);
    RedoNoneForward(RedoForward(base, h[..i + 1]), h[i + 1..]);
    assert h[..i + 1][..i] == h[..i];
    RedoSplit(base, h', i);
    assert h'[..i] == h[..i];
    RedoNoneForward(RedoForward(base, h[..i]), h'[i..]);
  }

  /** A prefix that ends before a forward record can be folded into the base. */
  lemma {:induction false} KeyPrune(base: Val, h: seq<KeyRecord>, now: Val, n: nat)
    requires KeyInv(base, h, now)
    requires n < |h| && h[n].forward
    ensures KeyInv(RedoForward(base, h[..n]), h[n..], now)
  {
    var base', h' := RedoForward(base, h[..n]), h[n..];
    RedoSplit(base, h, n);
    forall j | 0 <= j < |h'|
      ensures ChainedAt(base', h', j)
    {
      assert ChainedAt(base, h, n + j);
      PrunedPrefix(base, h, n, j);
    }
    forall a, j | 0 <= a <= j < |h'|
      ensures AnchoredAt(base', h', a, j)
    {
      PrunedAnchor(base, h, now, n, a, j);
    }
  }

  lemma {:induction false} PrunedAnchor(base: Val, h: seq<KeyRecord>, now: Val, n: nat, a: nat, j: nat)
    requires KeyInv(base, h, now)
    requires n < |h| && h[n].forward && a <= j < |h| - n
    ensures AnchoredAt(RedoForward(base, h[..n]), h[n..], a, j)
  {
    var h' := h[n..];
    if UntouchedIn(h', a, j) {
      assert UntouchedIn(h, n + a, n + j) by {
        assert forall x :: n + a <= x < n + j ==> h[x] == h'[x - n];
      }
      PrunedPrefix(base, h, n, a);
      if a > 0 {
        assert AnchoredAt(base, h, n + a, n + j);
      } else if j == 0 {
        assert ChainedAt(base, h, n);
      } else {
        assert AnchoredAt(base, h, n + 1, n + j);
        assert h'[0] == h[n];
        assert h[..n + 1][..n] == h[..n];
      }
    }
  }

  lemma {:induction false} PrunedPrefix(base: Val, h: seq<KeyRecord>, n: nat, j: nat)
    requires n + j <= |h|
    ensures RedoForward(RedoForward(base, h[..n]), h[n..][..j]) == RedoForward(base, h[..n + j])
  {
    RedoSplit(base, h[..n + j], n);
    assert h[..n + j][..n] == h[..n];
    assert h[..n + j][n..] == h[n..][..j];
  }

  /** Undoing every record from any value gives the base, if some record touches the key. */
  lemma {:induction false} UndoReachesBase(base: Val, h: seq<KeyRecord>, now: Val, v: Val)
    requires KeyInv(base, h, now)
    ensures UndoAll(v, h) == if AllUntouched(h) then v else base
  {
    if AllUntouched(h) {
      UndoUntouched(v, h);
    } else {
      var f := FirstTouch(h);
      UndoFirst(v, h, f);
      assert AnchoredAt(base, h, 0, f);
    }
  }

  lemma {:induction false} UndoUntouched(v: Val, h: seq<KeyRecord>)
    requires AllUntouched(h)
    ensures UndoAll(v, h) == v
  {
    if h != [] { UndoUntouched(v, h[1..]); }
  }

  function FirstTouch(h: seq<KeyRecord>): (f: nat)
    requires !AllUntouched(h)
    ensures f < |h| && h[f].touch.Touched? && UntouchedIn(h, 0, f)
  {
    if h[0].touch.Touched? then 0
    else
      assert !AllUntouched(h[1..]) by {
        var i :| 0 <= i < |h| && !h[i].touch.Untouched?;
        assert h[1..][i - 1] == h[i];
      }
      var f := FirstTouch(h[1..]);
      assert forall i :: 0 < i <= f ==> h[i] == h[1..][i - 1];
      f + 1
  }

  lemma {:induction false} UndoFirst(v: Val, h: seq<KeyRecord>, f: nat)
    requires f < |h| && h[f].touch.Touched? && UntouchedIn(h, 0, f)
    ensures UndoAll(v, h) == h[f].touch.before
  {
    if f > 0 { UndoFirst(v, h[1..], f - 1); }
  }

  /** Replay from any value of a touched key, or from the true value of any key, restores it. */
  lemma {:induction false} KeyReplay(base: Val, h: seq<KeyRecord>, now: Val, v: Val)
    requires KeyInv(base, h, now)
    requires AllUntouched(h) ==> v == now
    ensures Replay(v, h) == now
  {
    UndoReachesBase(base, h, now, v);
    if AllUntouched(h) { RedoUntouched(base, h); }
  }

  // ----- Whole histories -----

  /** The durable state behind the retained records, those records, and the current state. */
  datatype HistoryState = HistoryState(base: Key -> Val, records: seq<Record>, now: Key -> Val)

  predicate AllWellFormed(records: seq<Record>) {
    forall i :: 0 <= i < |records| ==> WellFormed(records[i].entry)
  }

  function ForKey(records: seq<Record>, k: Key): (h: seq<KeyRecord>)
    requires AllWellFormed(records)
    ensures |h| == |records|
  {
    seq(|records|, i requires 0 <= i < |records| => KeyRecord(TouchOf(records[i].entry, k), records[i].forward))
  }

  /** The latest record still marked forward. */
  function LatestForward(records: seq<Record>): (r: Option<nat>)
    ensures r.None? ==> forall i :: 0 <= i < |records| ==> !records[i].forward
    ensures r.Some? ==> r.value < |records| && records[r.value].forward && forall i :: r.value < i < |records| ==>
              !records[i].forward
  {
    if records == [] then None
    else if records[|records| - 1].forward then Some(|records| - 1)
    else LatestForward(records[..|records| - 1])
  }

  ghost predicate Append(s: HistoryState, s': HistoryState, e: JournalEntry) {
    && WellFormed(e)
    && (forall k :: StartsAt(e, k, s.now(k)))
    && s'.base == s.base
    && s'.records == s.records + [Record(e, true)]
    && forall k :: s'.now(k) == Redo(s.now(k), TouchOf(e, k))
  }

  ghost predicate Rollback(s: HistoryState, s': HistoryState) {
    && AllWellFormed(s.records)
    && LatestForward(s.records).Some?
    && var i := LatestForward(s.records).value;
    && s'.base == s.base
    && s'.records == s.records[i := Record(s.records[i].entry, false)]
    && forall k :: s'.now(k) == Undo(s.now(k), TouchOf(s.records[i].entry, k))
  }

  /** The number of records dropped so that `keep` forward ones (at least one) stay. */
  function PruneCount(records: seq<Record>, keep: nat): (count: nat)
    ensures count <= |records|
    ensures 0 < count ==> count < |records| && records[count].forward
  {
    PruneFrom(records, if keep == 0 then 1 else keep)
  }

  function PruneFrom(records: seq<Record>, keep: nat): (count: nat)
    requires keep > 0
    ensures count <= |records|
    ensures 0 < count ==> count < |records| && records[count].forward
  {
    if records == [] then 0
    else
      var last := |records| - 1;
      if !records[last].forward then PruneFrom(records[..last], keep)
      else if keep == 1 then last
      else PruneFrom(records[..last], keep - 1)
  }

  function ForwardCount(records: seq<Record>): nat {
    if records == [] then 0
    else ForwardCount(records[..|records| - 1]) + (if records[|records| - 1].forward then 1 else 0)
  }

  /** Pruning keeps the newest `keep` forward records, at least one, or all there are; what it keeps begins with one. */
  lemma {:induction false} PruneKeepsNewest(records: seq<Record>, keep: nat)
    ensures var n, k := PruneCount(records, keep), if keep == 0 then 1 else keep;
            && ForwardCount(records[n..]) == (if ForwardCount(records) < k then ForwardCount(records) else k)
            && (n > 0 ==> records[n].forward)
  {
    PruneFromKeeps(records, if keep == 0 then 1 else keep);
  }

  lemma {:induction false} PruneFromKeeps(records: seq<Record>, keep: nat)
    requires keep > 0
    ensures ForwardCount(records[PruneFrom(records, keep)..])
            == if ForwardCount(records) < keep then ForwardCount(records) else keep
  {
    if records != [] {
      var last := |records| - 1;
      var more := if records[last].forward then keep - 1 else keep;
      if more > 0 {
        var n := PruneFrom(records[..last], more);
        PruneFromKeeps(records[..last], more);
        assert records[n..][..|records[n..]| - 1] == records[..last][n..];
      } else {
        assert records[last..][..0] == [];
      }
    }
  }

  ghost predicate Prune(s: HistoryState, s': HistoryState, keep: nat) {
    && AllWellFormed(s.records)
    && var count := PruneCount(s.records, keep);
    && s'.records == s.records[count..]
    && (forall k :: s'.base(k) == RedoForward(s.base(k), ForKey(s.records[..count], k)))
    && forall k :: s'.now(k) == s.now(k)
  }

  ghost predicate Step(s: HistoryState, s': HistoryState) {
    || (exists e :: Append(s, s', e))
    || Rollback(s, s')
    || (exists keep :: Prune(s, s', keep))
  }

  ghost predicate Inv(s: HistoryState) {
    && AllWellFormed(s.records)
    && forall k :: KeyInv(s.base(k), ForKey(s.records, k), s.now(k))
  }

  lemma {:induction false} StepKeepsInv(s: HistoryState, s': HistoryState)
    requires Inv(s) && Step(s, s')
    ensures Inv(s')
  {
    forall k
      ensures AllWellFormed(s'.records) && KeyInv(s'.base(k), ForKey(s'.records, k), s'.now(k))
    {
      if e :| Append(s, s', e) {
        KeyAppend(s.base(k), ForKey(s.records, k), s.now(k), TouchOf(e, k));
        assert ForKey(s'.records, k) == ForKey(s.records, k) + [KeyRecord(TouchOf(e, k), true)];
      } else if Rollback(s, s') {
        var i := LatestForward(s.records).value;
        KeyRollback(s.base(k), ForKey(s.records, k), s.now(k), i);
        assert ForKey(s'.records, k) == ForKey(s.records, k)[i := KeyRecord(TouchOf(s.records[i].entry, k), false)];
      } else {
        var keep :| Prune(s, s', keep);
        PruneKeepsKey(s, s', keep, k);
      }
    }
  }

  lemma {:induction false} PruneKeepsKey(s: HistoryState, s': HistoryState, keep: nat, k: Key)
    requires Inv(s) && Prune(s, s', keep)
    ensures AllWellFormed(s'.records) && KeyInv(s'.base(k), ForKey(s'.records, k), s'.now(k))
  {
    var n := PruneCount(s.records, keep);
    var h := ForKey(s.records, k);
    assert ForKey(s.records[..n], k) == h[..n];
    assert ForKey(s'.records, k) == h[n..];
    if n > 0 {
      KeyPrune(s.base(k), h, s.now(k), n);
    } else {
      assert h[0..] == h;
      assert h[..0] == [];
    }
  }

  /** A run starts with an empty journal over some durable state. */
  ghost predicate IsRun(run: seq<HistoryState>) {
    && |run| > 0
    && run[0].records == [] && (forall k :: run[0].base(k) == run[0].now(k))
    && forall i :: 0 <= i < |run| - 1 ==> Step(run[i], run[i + 1])
  }

  lemma {:induction false} RunKeepsInv(run: seq<HistoryState>)
    requires IsRun(run)
    ensures Inv(run[|run| - 1])
  {
    if |run| > 1 {
      var n := |run| - 1;
      RunKeepsInv(run[..n]);
      assert Step(run[n - 1], run[n]);
      StepKeepsInv(run[n - 1], run[n]);
    }
  }

  /**
   After any run, replay restores the current state from any disk that agrees with it on the
   keys no retained record touches.
   */
  lemma {:induction false} ReplayRestores(run: seq<HistoryState>, disk: Key -> Val)
    requires IsRun(run)
    requires var s := run[|run| - 1];
             AllWellFormed(s.records) ==> forall k :: AllUntouched(ForKey(s.records, k)) ==> disk(k) == s.now(k)
    ensures var s := run[|run| - 1];
            && AllWellFormed(s.records)
            && forall k :: Replay(disk(k), ForKey(s.records, k)) == s.now(k)
  {
    RunKeepsInv(run);
    var s := run[|run| - 1];
    forall k
      ensures Replay(disk(k), ForKey(s.records, k)) == s.now(k)
    {
      KeyReplay(s.base(k), ForKey(s.records, k), s.now(k), disk(k));
    }
  }
}
