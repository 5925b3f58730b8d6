/**
 Startup as a whole: the forest is replayed from the journal, the other stores are reconciled
 with it, and both end at one tip. Stopping a persist or a rollback anywhere and starting again
 gives exactly the old or exactly the new tip in every store.
 */
module Startup {
  import opened Wrappers
  import opened Forest
  import opened Entry
  import opened Ledger
  import opened Wal
  import opened ProofStore
  import opened Recovery
  import opened Interruption
  import opened Steady
  import History

  /** The journal's history, and a forest that differs from its state only where a retained record writes. */
  ghost predicate ForestRecoverable(forest: ForestState, records: seq<Retained>, h: History.HistoryState,
                                    needsReplay: bool) {
    && forest.Valid() && History.Inv(h) && h.records == HistoryRecords(records) && NoneTaller(h.records, forest.rows)
    && (needsReplay ==> forall k :: History.Replay(forest.Read(k), History.ForKey(h.records, k)) == h.now(k))
    && (!needsReplay ==> forall k :: forest.Read(k) == h.now(k))
  }

  /** What a forest on disk reads at every key. */
  function ReadsOf(forest: ForestState): Key -> Val
    requires forest.Valid()
  {
    k => if forest.Valid() then forest.Read(k) else PositionVal(None)
  }

  /** The count startup expects: that of the journal tip. */
  function ExpectedLeaves(records: seq<Retained>, current: nat): Option<nat> {
    if records == [] then Some(current)
    else match LatestForward(records)
      case Some(i) => Some(records[i].payload.entry.numLeaves)
      case None => records[0].payload.entry.PreviousNumLeaves()
  }

  method Restart(s: Stores, records: seq<Retained>, proofs: ProofFile, acc: SteadyStateForest, needsReplay: bool,
                 bootstrap: nat, tipFromNode: Hash,
                 ghost chain: seq<Payload>, ghost base: nat, ghost genesis: Hash, ghost h: History.HistoryState)
    returns (r: Stores, tip: Hash)
    requires Recoverable(s, records, chain, base, bootstrap, genesis)
    requires ForestRecoverable(acc.State(), records, h, needsReplay)
    requires proofs.Valid() && proofs.bytes == s.file
    requires records == [] ==> tipFromNode == TipHash(chain, genesis)
    modifies proofs, acc
    ensures proofs.Valid() && proofs.bytes == r.file
    ensures Settled(r, chain, bootstrap) && tip == TipHash(chain, genesis)
    ensures exists w :: Reconciled(s, r, w, records, chain, bootstrap)
    ensures acc.Valid() && acc.rows == old(acc.rows) && forall k :: acc.State().Read(k) == h.now(k)
    ensures ExpectedLeaves(records, acc.leaves) == Some(acc.leaves)
  {
    hide Startable, InOrder, Settled, History.Inv, History.Replay, Reconciled;
    HistoryWellFormed(h);
    var replayed := acc.ReplayJournal(HistoryRecords(records), needsReplay);
    r, tip := Recover(s, records, proofs, bootstrap, tipFromNode, chain, base, genesis);
    if records != [] { LeavesExpected(records, h, acc.State()); }
  }

  lemma {:induction false} HistoryWellFormed(h: History.HistoryState)
    requires History.Inv(h)
    ensures History.AllWellFormed(h.records)
  {
  }

  lemma {:induction false} LeavesExpected(records: seq<Retained>, h: History.HistoryState, forest: ForestState)
    requires forest.Valid() && History.Inv(h) && h.records == HistoryRecords(records) && records != []
    requires forest.Read(LeafCount) == h.now(LeafCount)
    ensures ExpectedLeaves(records, forest.leaves) == Some(forest.leaves)
  {
    hide TouchOf, History.KeyInv, History.ForKey;
    CountMatchesTip(h);
    SameLatest(records);
    assert WellFormed(h.records[0].entry);
  }

  lemma {:induction false} SameLatest(records: seq<Retained>)
    ensures History.LatestForward(HistoryRecords(records)) == LatestForward(records)
  {
    if records != [] {
      SameLatest(records[..|records| - 1]);
      assert HistoryRecords(records)[..|records| - 1] == HistoryRecords(records[..|records| - 1]);
    }
  }

  // ----- After an interrupted persist -----

  function Entries(window: seq<Payload>): (r: seq<JournalEntry>)
    ensures |r| == |window|
  {
    seq(|window|, i requires 0 <= i < |window| => window[i].entry)
  }

  /**
   How far a persist came: not published, published with some index entries written, or pruning
   behind the committed height.
   */
  datatype PersistStop = Unpublished | Persisting(written: nat) | Pruning(dropped: nat)

  /** Records may be dropped in front of a forward record. */
  predicate CutBefore(records: seq<Retained>, n: nat) {
    n == 0 || (n < |records| && records[n].forward)
  }

  /** The records a reopened journal yields: the replay floor is raised or it is not. */
  function RecordsAt(stop: PersistStop, records: seq<Retained>, window: seq<Payload>): seq<Retained>
    requires stop.Pruning? ==> stop.dropped <= |records + Interruption.Published(window)|
  {
    match stop
    case Unpublished => records
    case Persisting(_) => records + Interruption.Published(window)
    case Pruning(n) => (records + Interruption.Published(window))[n..]
  }

  /** The chain startup must reach. */
  function ChainAt(stop: PersistStop, chain: seq<Payload>, window: seq<Payload>): seq<Payload> {
    if stop == Unpublished then chain else chain + window
  }

  ghost function StateAt(stop: PersistStop, states: seq<History.HistoryState>): Key -> Val
    requires states != []
  {
    if stop == Unpublished then states[0].now else states[|states| - 1].now
  }

  /**
   Before publication nothing else has been written; up to the committed height anything a
   persist writes may be missing; when it prunes, everything but the journal is done.
   */
  ghost predicate PersistInterrupted(stop: PersistStop, s: Stores, s0: Stores, forest: ForestState,
                                     states: seq<History.HistoryState>,
                                     records: seq<Retained>, chain: seq<Payload>, window: seq<Payload>,
                                     bootstrap: nat) {
    && AppendAll(states, Entries(window)) && forest.Valid()
    && match stop
       case Unpublished => s == s0 && forall k :: forest.Read(k) == states[0].now(k)
       case Persisting(v) =>
         && PersistStopped(s, s0, window, v)
         && ((forall i :: 0 <= i < |window| ==> WellFormed(Entries(window)[i])) ==>
               DiffersOnlyWhereTouched(ReadsOf(forest), states[0].now, Entries(window)))
       case Pruning(n) =>
         && Settled(s, chain + window, bootstrap) && CutBefore(records + Interruption.Published(window), n)
         && forall k :: forest.Read(k) == states[|window|].now(k)
  }

  /**
   A persist stopped anywhere restarts at exactly the old or exactly the new tip; the journal it
   leaves fits that tip.
   */
  method RestartAfterPersist(s: Stores, records: seq<Retained>, proofs: ProofFile, acc: SteadyStateForest,
                             bootstrap: nat, tipFromNode: Hash,
                             ghost stop: PersistStop, ghost s0: Stores, ghost records0: seq<Retained>,
                                 ghost window: seq<Payload>,
                             ghost chain: seq<Payload>, ghost base: nat, ghost genesis: Hash,
                                 ghost states: seq<History.HistoryState>)
    returns (r: Stores, tip: Hash, ghost base': nat, ghost h: History.HistoryState)
    requires Settled(s0, chain, bootstrap) && JournalFits(records0, chain, base, bootstrap, genesis)
    requires Interruption.Extends(records0, chain, window, bootstrap, genesis)
    requires PersistInterrupted(stop, s, s0, acc.State(), states, records0, chain, window, bootstrap)
    requires History.Inv(states[0]) && states[0].records == HistoryRecords(records0)
    requires records == RecordsAt(stop, records0, window)
    requires NoneTaller(HistoryRecords(records), acc.rows)
    requires proofs.Valid() && proofs.bytes == s.file
    requires records == [] ==> tipFromNode == TipHash(ChainAt(stop, chain, window), genesis)
    modifies proofs, acc
    ensures proofs.Valid() && proofs.bytes == r.file && acc.Valid() && acc.rows == old(acc.rows)
    ensures Settled(r, ChainAt(stop, chain, window), bootstrap) && tip == TipHash(ChainAt(stop, chain, window), genesis)
    ensures forall k :: acc.State().Read(k) == StateAt(stop, states)(k)
    ensures JournalFits(records, ChainAt(stop, chain, window), base', bootstrap, genesis)
    ensures History.Inv(h) && h.records == HistoryRecords(records) && forall k :: h.now(k) == StateAt(stop, states)(k)
  {
    hide Recoverable, Settled, JournalFits, Interruption.Extends, PersistStopped, ForestRecoverable, History.Inv,
         CutBefore;
    ghost var target := ChainAt(stop, chain, window);
    base' := PersistTarget(stop, s, s0, acc.State(), states, records0, chain, window, base, bootstrap, genesis);
    h := PersistHistory(stop, s, s0, acc.State(), states, records0, chain, window, bootstrap);
    r, tip := Restart(s, records, proofs, acc, true, bootstrap, tipFromNode, target, base', genesis, h);
  }

  /** The stores can be recovered to the target, whose journal this is. */
  lemma {:induction false} PersistTarget(stop: PersistStop, s: Stores, s0: Stores, forest: ForestState,
                                         states: seq<History.HistoryState>,
                                         records: seq<Retained>, chain: seq<Payload>, window: seq<Payload>, base: nat,
                                         bootstrap: nat, genesis: Hash)
    returns (base': nat)
    requires Settled(s0, chain, bootstrap) && JournalFits(records, chain, base, bootstrap, genesis)
    requires Interruption.Extends(records, chain, window, bootstrap, genesis)
    requires PersistInterrupted(stop, s, s0, forest, states, records, chain, window, bootstrap)
    ensures stop.Pruning? ==> stop.dropped <= |records + Interruption.Published(window)|
    ensures Recoverable(s, RecordsAt(stop, records, window), ChainAt(stop, chain, window), base', bootstrap, genesis)
    ensures JournalFits(RecordsAt(stop, records, window), ChainAt(stop, chain, window), base', bootstrap, genesis)
  {
    hide Recoverable, Settled, JournalFits, Interruption.Extends, PersistStopped, AppendAll, DiffersOnlyWhereTouched;
    base' := base;
    match stop
    case Unpublished =>
      UntouchedRecoverable(s, records, chain, base, bootstrap, genesis);
    case Persisting(v) =>
      PersistRecoverable(s, s0, records, chain, window, base, bootstrap, genesis, v);
      WindowFits(s0, records, chain, window, base, bootstrap, genesis);
    case Pruning(n) =>
      var all := records + Interruption.Published(window);
      WindowFits(s0, records, chain, window, base, bootstrap, genesis);
      base' := CutFits(s, all, n, chain + window, base, bootstrap, genesis);
      UntouchedRecoverable(s, all[n..], chain + window, base', bootstrap, genesis);
  }

  lemma {:induction false} WindowFits(s0: Stores, records: seq<Retained>, chain: seq<Payload>, window: seq<Payload>,
                                      base: nat, bootstrap: nat, genesis: Hash)
    requires Settled(s0, chain, bootstrap) && JournalFits(records, chain, base, bootstrap, genesis)
             && Interruption.Extends(records, chain, window, bootstrap, genesis)
    ensures JournalFits(records + Interruption.Published(window), chain + window, base, bootstrap, genesis)
  {
    hide JournalFits, Interruption.Extends;
    SettledChain(s0, chain, bootstrap);
    JournalGrows(records, chain, window, base, bootstrap, genesis);
  }

  lemma {:induction false} CutFits(s: Stores, records: seq<Retained>, n: nat, chain: seq<Payload>, base: nat,
                                   bootstrap: nat, genesis: Hash) returns (base': nat)
    requires Settled(s, chain, bootstrap) && JournalFits(records, chain, base, bootstrap, genesis)
             && CutBefore(records, n)
    ensures n <= |records| && JournalFits(records[n..], chain, base', bootstrap, genesis)
  {
    hide JournalFits, Settled;
    SettledChain(s, chain, bootstrap);
    base' := base;
    if n == 0 {
      assert records[0..] == records;
    } else {
      JournalPruned(records, n, chain, base, bootstrap, genesis);
      base' := base + |Forwards(records[..n])|;
    }
  }

  /** The history behind the journal, and the forest replay brings to its state. */
  lemma {:induction false} PersistHistory(stop: PersistStop, s: Stores, s0: Stores, forest: ForestState,
                                          states: seq<History.HistoryState>,
                                          records: seq<Retained>, chain: seq<Payload>, window: seq<Payload>,
                                          bootstrap: nat)
    returns (h: History.HistoryState)
    requires PersistInterrupted(stop, s, s0, forest, states, records, chain, window, bootstrap)
    requires History.Inv(states[0]) && states[0].records == HistoryRecords(records)
    requires stop.Pruning? ==> stop.dropped <= |records + Interruption.Published(window)|
    requires NoneTaller(HistoryRecords(RecordsAt(stop, records, window)), forest.rows)
    ensures ForestRecoverable(forest, RecordsAt(stop, records, window), h, true)
    ensures History.Inv(h) && h.records == HistoryRecords(RecordsAt(stop, records, window))
    ensures forall k :: h.now(k) == StateAt(stop, states)(k)
  {
    hide History.Inv, Settled, PersistStopped, NoneTaller, ForestRecoverable;
    h := states[0];
    match stop {
      case Unpublished =>
        IntactForest(forest, records, h);
      case Persisting(v) =>
        h := states[|window|];
        WindowForest(forest, states, records, window);
      case Pruning(n) =>
        AppendedState(states, Entries(window), |window|);
        AppendedRecords(states, records, window, |window|);
        assert window[..|window|] == window;
        PrunedHistory(states[|window|], records + Interruption.Published(window), n);
        h := PrunedAt(states[|window|], n);
        IntactForest(forest, (records + Interruption.Published(window))[n..], h);
    }
    RecoverableHistory(forest, RecordsAt(stop, records, window), h);
  }

  lemma {:induction false} RecoverableHistory(forest: ForestState, records: seq<Retained>, h: History.HistoryState)
    requires ForestRecoverable(forest, records, h, true)
    ensures History.Inv(h) && h.records == HistoryRecords(records)
  {
  }

  /** The history without its first records: they are folded into the base. */
  ghost function PrunedAt(h: History.HistoryState, n: nat): History.HistoryState
    requires n <= |h.records|
  {
    if n == 0 then h
    else
      var front := h.records[..n];
      History.HistoryState(k => if History.AllWellFormed(front) then History.RedoForward(h.base(k),
          History.ForKey(front, k)) else h.base(k),
                           h.records[n..], h.now)
  }

  /** Dropping records in front of a forward one keeps the history's invariant and its state. */
  lemma {:induction false} PrunedHistory(h: History.HistoryState, records: seq<Retained>, n: nat)
    requires History.Inv(h) && h.records == HistoryRecords(records) && CutBefore(records, n)
    ensures n <= |records| && History.Inv(PrunedAt(h, n)) && PrunedAt(h, n).records == HistoryRecords(records[n..])
            && PrunedAt(h, n).now == h.now
  {
    hide TouchOf, History.KeyInv, WellFormed;
    var h' := PrunedAt(h, n);
    if n == 0 {
      assert records[0..] == records;
    } else {
      var front := h.records[..n];
      assert h'.records == HistoryRecords(records[n..]);
      forall k
        ensures History.KeyInv(h'.base(k), History.ForKey(h'.records, k), h'.now(k))
      {
        var keys := History.ForKey(h.records, k);
        assert History.ForKey(front, k) == keys[..n] && History.ForKey(h'.records, k) == keys[n..];
        History.KeyPrune(h.base(k), keys, h.now(k), n);
      }
    }
  }

  /** The program drops all but the newest 144 forward records. */
  lemma {:induction false} PruneCutsBefore(records: seq<Retained>, keep: nat)
    ensures CutBefore(records, History.PruneCount(HistoryRecords(records), keep))
  {
  }

  lemma {:induction false} IntactForest(forest: ForestState, records: seq<Retained>, h: History.HistoryState)
    requires forest.Valid() && History.Inv(h) && h.records == HistoryRecords(records)
             && NoneTaller(h.records, forest.rows)
    requires forall k :: forest.Read(k) == h.now(k)
    ensures ForestRecoverable(forest, records, h, true)
  {
    hide TouchOf, History.KeyInv, History.Replay, History.AllUntouched;
    forall k
      ensures History.Replay(forest.Read(k), History.ForKey(h.records, k)) == h.now(k)
    {
      History.KeyReplay(h.base(k), History.ForKey(h.records, k), h.now(k), forest.Read(k));
    }
  }

  lemma {:induction false} WindowForest(forest: ForestState, states: seq<History.HistoryState>,
                                        records: seq<Retained>, window: seq<Payload>)
    requires forest.Valid() && AppendAll(states, Entries(window)) && History.Inv(states[0])
             && states[0].records == HistoryRecords(records)
    requires (forall i :: 0 <= i < |window| ==> WellFormed(Entries(window)[i])) ==>
               DiffersOnlyWhereTouched(ReadsOf(forest), states[0].now, Entries(window))
    requires NoneTaller(HistoryRecords(records + Interruption.Published(window)), forest.rows)
    ensures ForestRecoverable(forest, records + Interruption.Published(window), states[|window|], true)
  {
    hide History.Inv, TouchOf, WellFormed, History.Append, NoneTaller, History.Replay;
    var disk := ReadsOf(forest);
    AppendedState(states, Entries(window), |window|);
    PersistForest(states, Entries(window), disk);
    AppendedRecords(states, records, window, |window|);
    var all := records + Interruption.Published(window);
    assert window[..|window|] == window;
    assert states[|window|].records == HistoryRecords(all);
    assert forall k :: disk(k) == forest.Read(k);
  }

  lemma {:induction false} AppendedRecords(states: seq<History.HistoryState>, records: seq<Retained>,
                                           window: seq<Payload>, n: nat)
    requires AppendAll(states, Entries(window)) && states[0].records == HistoryRecords(records) && n <= |window|
    ensures states[n].records == HistoryRecords(records + Interruption.Published(window[..n]))
  {
    hide TouchOf, WellFormed;
    if n == 0 {
      assert records + Interruption.Published(window[..0]) == records;
    } else {
      AppendedRecords(states, records, window, n - 1);
      assert History.Append(states[n - 1], states[n], Entries(window)[n - 1]);
      assert HistoryRecords(records + Interruption.Published(window[..n]))
          == HistoryRecords(records + Interruption.Published(window[..n - 1]))
              + [History.Record(window[n - 1].entry, true)];
    }
  }

  // ----- After an interrupted replay -----

  /** Replay writes only where some retained record writes, so it may be interrupted and repeated. */
  lemma {:induction false} ReplayInterrupted(forest: ForestState, forest': ForestState, records: seq<Retained>,
                                             h: History.HistoryState)
    requires ForestRecoverable(forest, records, h, true) && forest'.Valid() && forest'.rows == forest.rows
    requires History.AllWellFormed(h.records) ==>
               forall k :: History.AllUntouched(History.ForKey(h.records, k)) ==> forest'.Read(k) == forest.Read(k)
    ensures ForestRecoverable(forest', records, h, true)
  {
    hide TouchOf, History.KeyInv, WellFormed, NoneTaller;
    forall k
      ensures History.Replay(forest'.Read(k), History.ForKey(h.records, k)) == h.now(k)
    {
      var keys := History.ForKey(h.records, k);
      assert History.KeyInv(h.base(k), keys, h.now(k));
      History.UndoReachesBase(h.base(k), keys, h.now(k), forest.Read(k));
      History.UndoReachesBase(h.base(k), keys, h.now(k), forest'.Read(k));
      assert History.Replay(forest.Read(k), keys) == h.now(k);
    }
  }

  // ----- After an interrupted rollback -----

  /** The forest differs from the state at the tip only where undoing the tip's block writes. */
  ghost predicate UndoInterrupted(forest: ForestState, e: JournalEntry, h: History.HistoryState) {
    forest.Valid() && (WellFormed(e) ==> DiffersOnlyWhereTouched(ReadsOf(forest), h.now, [e]))
  }

  method RestartAfterRollback(s: Stores, records: seq<Retained>, proofs: ProofFile, acc: SteadyStateForest,
                              bootstrap: nat, tipFromNode: Hash,
                              ghost marked: bool, ghost s0: Stores, ghost records0: seq<Retained>, ghost i: nat,
                                  ghost chain: seq<Payload>, ghost base: nat,
                              ghost genesis: Hash, ghost h: History.HistoryState, ghost h': History.HistoryState)
    returns (r: Stores, tip: Hash)
    requires Settled(s0, chain, bootstrap) && JournalFits(records0, chain, base, bootstrap, genesis)
             && LatestForward(records0) == Some(i)
    requires History.Inv(h) && h.records == HistoryRecords(records0) && History.Rollback(h, h') && chain != []
    requires records == if marked then MarkedBack(records0, i) else records0
    requires acc.Valid() && NoneTaller(HistoryRecords(records), acc.rows)
    requires marked ==> RollbackStopped(s, s0, chain) && UndoInterrupted(acc.State(), records0[i].payload.entry, h)
    requires !marked ==> s == s0 && forall k :: acc.State().Read(k) == h.now(k)
    requires proofs.Valid() && proofs.bytes == s.file
    modifies proofs, acc
    ensures proofs.Valid() && proofs.bytes == r.file && acc.Valid() && acc.rows == old(acc.rows)
    ensures marked ==>
              && Settled(r, Front(chain), bootstrap) && tip == TipHash(Front(chain), genesis)
              && forall k :: acc.State().Read(k) == h'.now(k)
    ensures !marked ==>
              && Settled(r, chain, bootstrap) && tip == TipHash(chain, genesis)
              && forall k :: acc.State().Read(k) == h.now(k)
  {
    hide Recoverable, Settled, JournalFits, RollbackStopped, ForestRecoverable, History.Inv, TouchOf, History.Rollback;
    ghost var target, state := if marked then Front(chain) else chain, if marked then h' else h;
    if marked {
      RollbackRecoverable(s, s0, records0, i, chain, base, bootstrap, genesis);
      UndoneForest(acc.State(), records0, i, h, h');
    } else {
      UntouchedRecoverable(s, records, chain, base, bootstrap, genesis);
      IntactForest(acc.State(), records, h);
    }
    r, tip := Restart(s, records, proofs, acc, true, bootstrap, tipFromNode, target, base, genesis, state);
  }

  /** The history after a rollback is the one of the marked journal. */
  lemma {:induction false} MarkedHistory(records: seq<Retained>, i: nat, h: History.HistoryState,
                                         h': History.HistoryState)
    requires LatestForward(records) == Some(i) && History.Inv(h) && h.records == HistoryRecords(records)
             && History.Rollback(h, h')
    ensures History.Inv(h') && h'.records == HistoryRecords(MarkedBack(records, i))
  {
    hide History.Inv, LatestForward;
    SameLatest(records);
    History.StepKeepsInv(h, h');
    assert h'.records == HistoryRecords(MarkedBack(records, i));
  }

  lemma {:induction false} UndoneForest(forest: ForestState, records: seq<Retained>, i: nat, h: History.HistoryState,
                                        h': History.HistoryState)
    requires LatestForward(records) == Some(i) && forest.Valid()
    requires History.Inv(h) && h.records == HistoryRecords(records) && History.Rollback(h, h')
    requires NoneTaller(HistoryRecords(MarkedBack(records, i)), forest.rows)
    requires UndoInterrupted(forest, records[i].payload.entry, h)
    ensures ForestRecoverable(forest, MarkedBack(records, i), h', true)
  {
    hide TouchOf, History.KeyInv, WellFormed, History.Replay, NoneTaller;
    SameLatest(records);
    MarkedHistory(records, i, h, h');
    var disk := ReadsOf(forest);
    assert WellFormed(h.records[i].entry) && h.records[i].entry == records[i].payload.entry;
    RollbackForest(h, h', disk);
    assert forall k :: disk(k) == forest.Read(k);
  }
}
