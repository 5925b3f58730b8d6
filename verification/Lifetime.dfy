/**
 A node over its whole life: it persists windows, prunes, rolls back, stops anywhere in any of
 these, starts, and may stop anywhere while starting. Whenever it is up, forest, leaf map, count,
 headers, proof index, proof bytes and height show one chain; whenever it is down, startup can
 bring it to that chain.
 */
module Lifetime {
  import opened Wrappers
  import opened Forest
  import opened Entry
  import opened Ledger
  import opened Wal
  import opened ProofStore
  import opened Recovery
  import opened Interruption
  import opened Persist
  import opened Repair
  import opened Startup
  import opened Steady
  import opened Coordinates
  import History

  /**
   What is on disk (`forest` is what every key of the forest state reads, `rows` the height of its
   file), and the chain and history it stands for.
   */
  datatype Bridge = Bridge(up: bool, stores: Stores, records: seq<Retained>, rows: nat, forest: Key -> Val,
                           chain: seq<Payload>, base: nat, h: History.HistoryState)

  /** The readable proofs are a front part of the chain. */
  predicate ReadableFront(s: Stores, chain: seq<Payload>) {
    forall i, j :: 0 <= i < j < |chain| && ProofOk(s.index, s.file, chain[j]) ==> ProofOk(s.index, s.file, chain[i])
  }

  ghost predicate Replays(forest: Key -> Val, h: History.HistoryState) {
    History.AllWellFormed(h.records) && forall k :: History.Replay(forest(k), History.ForKey(h.records, k)) == h.now(k)
  }

  ghost predicate Sound(n: Bridge, bootstrap: nat, genesis: Hash) {
    && ValidChain(n.chain, bootstrap) && JournalFits(n.records, n.chain, n.base, bootstrap, genesis)
    && History.Inv(n.h) && n.h.records == HistoryRecords(n.records) && NoneTaller(n.h.records, n.rows)
    && if n.up then
         Settled(n.stores, n.chain, bootstrap) && forall k :: n.forest(k) == n.h.now(k)
       else
         && Recoverable(n.stores, n.records, n.chain, n.base, bootstrap, genesis)
         && IndexWithin(n.stores) && ReadableFront(n.stores, n.chain) && Replays(n.forest, n.h)
  }

  // ----- Steps -----

  /** The process stops between operations. */
  ghost predicate Stops(n: Bridge, n': Bridge) {
    n.up && n' == n.(up := false)
  }

  /** The window extends the chain, leads through these states, and was planned for this file. */
  ghost predicate Follows(n: Bridge, window: seq<Payload>, states: seq<History.HistoryState>, bootstrap: nat,
                          genesis: Hash) {
    && Interruption.Extends(n.records, n.chain, window, bootstrap, genesis)
    && AppendAll(states, Entries(window)) && states[0] == n.h
    && NoneTaller(HistoryRecords(Interruption.Published(window)), n.rows)
  }

  /** A published window, and how far the stores came. */
  ghost predicate PersistStops(n: Bridge, n': Bridge, window: seq<Payload>, states: seq<History.HistoryState>, v: nat,
                               bootstrap: nat, genesis: Hash) {
    && n.up && Follows(n, window, states, bootstrap, genesis)
    && PersistStopped(n'.stores, n.stores, window, v)
    && ((forall i :: 0 <= i < |window| ==> WellFormed(Entries(window)[i])) ==>
           DiffersOnlyWhereTouched(n'.forest, n.forest, Entries(window)))
    && n' == n.(up := false, stores := n'.stores, records := n.records + Interruption.Published(window),
         forest := n'.forest,
                chain := n.chain + window, h := states[|window|])
  }

  /** A persist runs to its end: everything is written, and every block is redone in the forest. */
  ghost predicate Persists(n: Bridge, n': Bridge, window: seq<Payload>, states: seq<History.HistoryState>,
                           bootstrap: nat, genesis: Hash) {
    && n.up && Follows(n, window, states, bootstrap, genesis)
    && Persisted(n'.stores, n.stores, window)
    && ((forall i :: 0 <= i < |window| ==> WellFormed(Entries(window)[i])) ==>
          forall k :: n'.forest(k) == RedoEntries(n.forest(k), Entries(window), k))
    && n' == n.(stores := n'.stores, records := n.records + Interruption.Published(window), forest := n'.forest,
                chain := n.chain + window, h := states[|window|])
  }

  /** The file grows; interrupted anywhere, opening it again completes that. */
  ghost predicate Grows(n: Bridge, n': Bridge, rows: nat) {
    n.up && n.rows <= rows <= MAX_ROWS && n' == n.(rows := rows)
  }

  /** The replay floor rises; a crash in the middle yields the records of before or of after. */
  ghost predicate Prunes(n: Bridge, n': Bridge, cut: nat) {
    && n.up && CutBefore(n.records, cut) && cut <= |n.records| && cut <= |n.h.records|
    && n' == n.(records := n.records[cut..], base := n.base + |Forwards(n.records[..cut])|, h := PrunedAt(n.h, cut))
  }

  ghost predicate RollbackStops(n: Bridge, n': Bridge, i: nat) {
    && n.up && LatestForward(n.records) == Some(i) && n.chain != []
    && RollbackStopped(n'.stores, n.stores, n.chain) && History.Rollback(n.h, n'.h)
    && (WellFormed(n.records[i].payload.entry) ==>
           DiffersOnlyWhereTouched(n'.forest, n.forest, [n.records[i].payload.entry]))
    && n' == n.(up := false, stores := n'.stores, records := MarkedBack(n.records, i), forest := n'.forest,
         chain := Front(n.chain), h := n'.h)
  }

  /** A rollback runs to its end: the tip is out of every store, and undone in the forest. */
  ghost predicate RollsBack(n: Bridge, n': Bridge, i: nat) {
    && n.up && LatestForward(n.records) == Some(i) && n.chain != []
    && RolledBack(n'.stores, n.stores, n.chain) && History.Rollback(n.h, n'.h)
    && (WellFormed(n.records[i].payload.entry) ==>
           forall k :: n'.forest(k) == Undo(n.forest(k), TouchOf(n.records[i].payload.entry, k)))
    && n' == n.(stores := n'.stores, records := MarkedBack(n.records, i), forest := n'.forest,
         chain := Front(n.chain), h := n'.h)
  }

  /** Startup appends proofs and puts headers back; behind the old end of the file anything may be found. */
  ghost predicate AppendsStop(n: Bridge, n': Bridge, bootstrap: nat) {
    && !n.up && n' == n.(stores := n'.stores)
    && n.stores.file <= n'.stores.file && n'.stores.index == n.stores.index && n'.stores.height == n.stores.height
    && HeadersRepaired(n'.stores.headerAt, n'.stores.heightOf, n.stores.headerAt, n.chain, n.base, bootstrap)
  }

  /** Startup has written `j` of the repaired index entries. */
  ghost predicate IndexStop(n: Bridge, n': Bridge, file: seq<byte>, repaired: seq<(Hash, ProofIndex)>, tail: bool,
                            t: nat, j: nat, bootstrap: nat) {
    && !n.up && n' == n.(stores := n'.stores) && j <= |repaired|
    && ProofsRepaired(n.stores, file, repaired, tail, n.chain, t, |n.chain|)
    && HeadersRepaired(n'.stores.headerAt, n'.stores.heightOf, n.stores.headerAt, n.chain, n.base, bootstrap)
    && n'.stores == StoppedAt(n.stores, file, repaired, j, n'.stores.headerAt, n'.stores.heightOf)
  }

  /** Startup has treated the first `k` records of the journal for orphans. */
  ghost predicate OrphansStop(n: Bridge, n': Bridge, k: nat) {
    && !n.up && n' == n.(stores := n'.stores) && k <= |n.records|
    && var s, s' := n.stores, n'.stores;
    && (forall x :: x in s'.headerAt <==> x in s.headerAt && !RemovedHeader(n.records, k, x, s.headerAt[x].hash))
    && (forall x :: x in s'.headerAt ==> s'.headerAt[x] == s.headerAt[x])
    && (forall g :: g in s.heightOf && !RemovedHash(n.records, k, g) ==>
           g in s'.heightOf && s'.heightOf[g] == s.heightOf[g])
    && (forall g :: g in s'.index <==> g in s.index && !RemovedHash(n.records, k, g))
    && (forall g :: g in s'.index ==> s'.index[g] == s.index[g])
    && s'.file == s.file && s'.height == s.height
  }

  /** Startup has cut the file, and perhaps committed the height; only the chain is indexed by then. */
  ghost predicate CutStop(n: Bridge, n': Bridge, bootstrap: nat) {
    && !n.up && n' == n.(stores := n'.stores)
    && var s, s' := n.stores, n'.stores;
    && (forall i :: 0 <= i < |n.chain| ==> ProofOk(s.index, s.file, n.chain[i]))
    && (n.chain != [] ==> HashOf(n.chain[|n.chain| - 1]) in s.index)
         && (forall g :: g in s.index ==> InChain(n.chain, g))
    && s' == s.(file := s'.file, height := s'.height) && (s'.height == s.height || s'.height == bootstrap + |n.chain|)
    && TipEnd(s.index, n.chain) <= |s.file| && s'.file == s.file[..TipEnd(s.index, n.chain)]
  }

  /** Replay writes where some retained record writes. */
  ghost predicate ReplayStop(n: Bridge, n': Bridge) {
    && !n.up && n' == n.(forest := n'.forest)
    && (History.AllWellFormed(n.h.records) ==>
          forall k :: History.AllUntouched(History.ForKey(n.h.records, k)) ==> n'.forest(k) == n.forest(k))
  }

  /** Startup runs to its end: the stores are reconciled with the journal, and the forest is replayed. */
  ghost predicate Starts(n: Bridge, n': Bridge, w: Repairs, bootstrap: nat) {
    && !n.up && Reconciled(n.stores, n'.stores, w, n.records, n.chain, bootstrap)
    && (History.AllWellFormed(n.h.records) ==>
           forall k :: n'.forest(k) == History.Replay(n.forest(k), History.ForKey(n.h.records, k)))
    && n' == n.(up := true, stores := n'.stores, forest := n'.forest)
  }

  ghost predicate Step(n: Bridge, n': Bridge, bootstrap: nat, genesis: Hash) {
    || Stops(n, n')
    || (exists window, states, v :: PersistStops(n, n', window, states, v, bootstrap, genesis))
    || (exists window, states :: Persists(n, n', window, states, bootstrap, genesis))
    || (exists rows :: Grows(n, n', rows))
    || (exists cut :: Prunes(n, n', cut))
    || (exists i :: RollbackStops(n, n', i))
    || (exists i :: RollsBack(n, n', i))
    || AppendsStop(n, n', bootstrap)
    || (exists file, repaired, tail, t, j :: IndexStop(n, n', file, repaired, tail, t, j, bootstrap))
    || (exists k :: OrphansStop(n, n', k))
    || CutStop(n, n', bootstrap)
    || ReplayStop(n, n')
    || (exists w :: Starts(n, n', w, bootstrap))
  }

  // ----- Going down -----

  lemma {:induction false} SettledWithin(s: Stores, chain: seq<Payload>, bootstrap: nat)
    requires Settled(s, chain, bootstrap)
    ensures IndexWithin(s) && ReadableFront(s, chain) && ValidChain(chain, bootstrap)
  {
    hide HeaderOk, InOrder, ValidChain;
    forall h | h in s.index
      ensures s.index[h].End() <= |s.file|
    {
      var k :| 0 <= k < |chain| && HashOf(chain[k]) == h;
      ProofIndexed(s.index, s.file, chain[k]);
    }
  }

  lemma {:induction false} IntactReplays(forest: Key -> Val, h: History.HistoryState)
    requires History.Inv(h) && forall k :: forest(k) == h.now(k)
    ensures Replays(forest, h)
  {
    hide TouchOf, History.KeyInv, History.Replay, History.AllUntouched;
    forall k
      ensures History.Replay(forest(k), History.ForKey(h.records, k)) == h.now(k)
    {
      History.KeyReplay(h.base(k), History.ForKey(h.records, k), h.now(k), forest(k));
    }
  }

  lemma {:induction false} StopKeepsSound(n: Bridge, n': Bridge, bootstrap: nat, genesis: Hash)
    requires Sound(n, bootstrap, genesis) && Stops(n, n')
    ensures Sound(n', bootstrap, genesis)
  {
    hide Settled, JournalFits, ValidChain, History.Inv, Recoverable, IndexWithin, ReadableFront, Replays;
    UntouchedRecoverable(n.stores, n.records, n.chain, n.base, bootstrap, genesis);
    SettledWithin(n.stores, n.chain, bootstrap);
    IntactReplays(n.forest, n.h);
  }

  lemma {:induction false} WindowHistory(n: Bridge, window: seq<Payload>, states: seq<History.HistoryState>,
                                         bootstrap: nat, genesis: Hash)
    requires Sound(n, bootstrap, genesis) && n.up && Follows(n, window, states, bootstrap, genesis)
    ensures |states| == |window| + 1 && NoneTaller(states[|window|].records, n.rows)
    ensures ValidChain(n.chain + window, bootstrap)
            && JournalFits(n.records + Interruption.Published(window), n.chain + window, n.base, bootstrap, genesis)
    ensures History.Inv(states[|window|])
            && states[|window|].records == HistoryRecords(n.records + Interruption.Published(window))
  {
    hide Settled, JournalFits, History.Inv, History.Append;
    JournalGrows(n.records, n.chain, window, n.base, bootstrap, genesis);
    AppendedState(states, Entries(window), |window|);
    AppendedRecords(states, n.records, window, |window|);
    assert window[..|window|] == window;
    TallerConcat(n.records, Interruption.Published(window), n.rows);
  }

  lemma {:induction false} TallerConcat(a: seq<Retained>, b: seq<Retained>, rows: nat)
    requires NoneTaller(HistoryRecords(a), rows) && NoneTaller(HistoryRecords(b), rows)
    ensures NoneTaller(HistoryRecords(a + b), rows)
  {
    assert HistoryRecords(a + b) == HistoryRecords(a) + HistoryRecords(b);
  }

  lemma {:induction false} PersistStopKeepsSound(n: Bridge, n': Bridge, window: seq<Payload>,
                                                 states: seq<History.HistoryState>, v: nat, bootstrap: nat,
                                                 genesis: Hash)
    requires Sound(n, bootstrap, genesis) && PersistStops(n, n', window, states, v, bootstrap, genesis)
    ensures Sound(n', bootstrap, genesis)
  {
    hide Settled, JournalFits, ValidChain, History.Inv, Recoverable, IndexWithin, ReadableFront, PersistStopped,
         AppendAll, DiffersOnlyWhereTouched, Interruption.Extends;
    WindowHistory(n, window, states, bootstrap, genesis);
    PersistRecoverable(n'.stores, n.stores, n.records, n.chain, window, n.base, bootstrap, genesis, v);
    PersistIndexWithin(n'.stores, n.stores, n.chain, window, bootstrap, v);
    PersistFront(n'.stores, n.stores, n.chain, window, bootstrap, v);
    WindowReplays(n.forest, n'.forest, states, window);
  }

  lemma {:induction false} WindowReplays(forest: Key -> Val, forest': Key -> Val, states: seq<History.HistoryState>,
                                         window: seq<Payload>)
    requires AppendAll(states, Entries(window)) && History.Inv(states[0]) && forall k :: forest(k) == states[0].now(k)
    requires (forall i :: 0 <= i < |window| ==> WellFormed(Entries(window)[i])) ==>
               DiffersOnlyWhereTouched(forest', forest, Entries(window))
    ensures Replays(forest', states[|window|])
  {
    hide TouchOf, WellFormed, History.Inv, History.Append, History.Replay;
    PersistForest(states, Entries(window), forest');
  }

  lemma {:induction false} PersistFront(s: Stores, s0: Stores, chain: seq<Payload>, window: seq<Payload>,
                                        bootstrap: nat, v: nat)
    requires Settled(s0, chain, bootstrap) && ValidChain(chain + window, bootstrap) && PersistStopped(s, s0, window, v)
    ensures ReadableFront(s, chain + window)
  {
    hide Settled, ValidChain, ProofOk, PersistStopped;
    forall i, j | 0 <= i < j < |chain + window| && ProofOk(s.index, s.file, (chain + window)[j])
      ensures ProofOk(s.index, s.file, (chain + window)[i])
    {
      PersistReadable(s, s0, chain, window, bootstrap, v, i);
      PersistReadable(s, s0, chain, window, bootstrap, v, j);
    }
  }

  /** Redoing the window's blocks leads through the states. */
  lemma {:induction false} RedoneState(states: seq<History.HistoryState>, entries: seq<JournalEntry>, n: nat, k: Key)
    requires AppendAll(states, entries) && n <= |entries|
    ensures forall i :: 0 <= i < n ==> WellFormed(entries[..n][i])
    ensures RedoEntries(states[0].now(k), entries[..n], k) == states[n].now(k)
  {
    hide TouchOf, WellFormed;
    assert forall i :: 0 <= i < |entries| ==> WellFormed(entries[i]) by {
      forall i | 0 <= i < |entries|
        ensures WellFormed(entries[i])
      {
        assert History.Append(states[i], states[i + 1], entries[i]);
      }
    }
    if n > 0 {
      RedoneState(states, entries, n - 1, k);
      assert entries[..n][..n - 1] == entries[..n - 1];
      assert History.Append(states[n - 1], states[n], entries[n - 1]);
    }
  }

  lemma {:induction false} PersistKeepsSound(n: Bridge, n': Bridge, window: seq<Payload>,
                                             states: seq<History.HistoryState>, bootstrap: nat, genesis: Hash)
    requires Sound(n, bootstrap, genesis) && Persists(n, n', window, states, bootstrap, genesis)
    ensures Sound(n', bootstrap, genesis)
  {
    hide Settled, JournalFits, ValidChain, History.Inv, AppendAll, Interruption.Extends, NoneTaller, Persisted,
         RedoEntries, WellFormed;
    WindowHistory(n, window, states, bootstrap, genesis);
    PersistDone(n'.stores, n.stores, n.chain, window, bootstrap);
    var entries := Entries(window);
    assert entries[..|entries|] == entries;
    forall k
      ensures n'.forest(k) == states[|window|].now(k)
    {
      RedoneState(states, entries, |entries|, k);
    }
  }

  lemma {:induction false} GrowKeepsSound(n: Bridge, n': Bridge, rows: nat, bootstrap: nat, genesis: Hash)
    requires Sound(n, bootstrap, genesis) && Grows(n, n', rows)
    ensures Sound(n', bootstrap, genesis)
  {
    hide Settled, JournalFits, ValidChain, History.Inv;
  }

  lemma {:induction false} TallerSuffix(records: seq<Retained>, cut: nat, rows: nat)
    requires NoneTaller(HistoryRecords(records), rows) && cut <= |records|
    ensures NoneTaller(HistoryRecords(records[cut..]), rows)
  {
    assert HistoryRecords(records[cut..]) == HistoryRecords(records)[cut..];
  }

  lemma {:induction false} PruneKeepsSound(n: Bridge, n': Bridge, cut: nat, bootstrap: nat, genesis: Hash)
    requires Sound(n, bootstrap, genesis) && Prunes(n, n', cut)
    ensures Sound(n', bootstrap, genesis)
  {
    hide Settled, JournalFits, ValidChain, History.Inv, PrunedAt, Forwards;
    PrunedHistory(n.h, n.records, cut);
    TallerSuffix(n.records, cut, n.rows);
    if cut == 0 {
      assert n.records[0..] == n.records && n.records[..0] == [];
      NoForwards();
    } else {
      JournalPruned(n.records, cut, n.chain, n.base, bootstrap, genesis);
    }
  }

  lemma {:induction false} MarkedNode(n: Bridge, i: nat, h': History.HistoryState, bootstrap: nat, genesis: Hash)
    requires Sound(n, bootstrap, genesis) && LatestForward(n.records) == Some(i) && n.chain != []
             && History.Rollback(n.h, h')
    ensures ValidChain(Front(n.chain), bootstrap)
            && JournalFits(MarkedBack(n.records, i), Front(n.chain), n.base, bootstrap, genesis)
    ensures History.Inv(h') && h'.records == HistoryRecords(MarkedBack(n.records, i))
    ensures History.LatestForward(n.h.records) == Some(i) && n.h.records[i].entry == n.records[i].payload.entry
    ensures NoneTaller(h'.records, n.rows)
  {
    hide Settled, JournalFits, ValidChain, History.Inv, Recoverable, LatestForward;
    FrontValid(n.chain, bootstrap);
    JournalShrinks(n.records, i, n.chain, n.base, bootstrap, genesis);
    SameLatest(n.records);
    MarkedHistory(n.records, i, n.h, h');
  }

  lemma {:induction false} RollbackStopKeepsSound(n: Bridge, n': Bridge, i: nat, bootstrap: nat, genesis: Hash)
    requires Sound(n, bootstrap, genesis) && RollbackStops(n, n', i)
    ensures Sound(n', bootstrap, genesis)
  {
    hide Settled, JournalFits, ValidChain, History.Inv, Recoverable, IndexWithin, ReadableFront, RollbackStopped,
         DiffersOnlyWhereTouched, LatestForward, History.Rollback, WellFormed;
    MarkedNode(n, i, n'.h, bootstrap, genesis);
    RollbackRecoverable(n'.stores, n.stores, n.records, i, n.chain, n.base, bootstrap, genesis);
    RollbackWithin(n'.stores, n.stores, n.chain, bootstrap);
    UndoneReplays(n.forest, n'.forest, n.h, n'.h, i);
  }

  lemma {:induction false} UndoneReplays(forest: Key -> Val, forest': Key -> Val, h: History.HistoryState,
                                         h': History.HistoryState, i: nat)
    requires History.Inv(h) && History.Rollback(h, h') && History.LatestForward(h.records) == Some(i)
             && forall k :: forest(k) == h.now(k)
    requires WellFormed(h.records[i].entry) ==> DiffersOnlyWhereTouched(forest', forest, [h.records[i].entry])
    ensures Replays(forest', h')
  {
    hide TouchOf, WellFormed, History.KeyInv, History.Replay;
    assert WellFormed(h.records[i].entry);
    RollbackForest(h, h', forest');
  }

  lemma {:induction false} RollbackWithin(s: Stores, s0: Stores, chain: seq<Payload>, bootstrap: nat)
    requires Settled(s0, chain, bootstrap) && RollbackStopped(s, s0, chain)
    ensures IndexWithin(s) && ReadableFront(s, Front(chain))
  {
    hide HeaderOk, InOrder, ValidChain, ProofOk;
    var front, p := Front(chain), chain[|chain| - 1];
    forall k | 0 <= k < |front|
      ensures ProofOk(s.index, s.file, front[k])
    {
      BelowTip(s, s0, chain, bootstrap, k);
    }
    forall h | h in s.index
      ensures s.index[h].End() <= |s.file|
    {
      if h == HashOf(p) {
        ProofIndexed(s0.index, s0.file, p);
      } else {
        var k :| 0 <= k < |chain| && HashOf(chain[k]) == h;
        ProofIndexed(s.index, s.file, front[k]);
      }
    }
  }

  lemma {:induction false} RollKeepsSound(n: Bridge, n': Bridge, i: nat, bootstrap: nat, genesis: Hash)
    requires Sound(n, bootstrap, genesis) && RollsBack(n, n', i)
    ensures Sound(n', bootstrap, genesis)
  {
    hide Settled, JournalFits, ValidChain, History.Inv, LatestForward, NoneTaller, RolledBack, WellFormed, TouchOf;
    MarkedNode(n, i, n'.h, bootstrap, genesis);
    RollbackDone(n'.stores, n.stores, n.chain, bootstrap);
    assert WellFormed(n.h.records[i].entry);
  }

  // ----- Going up -----

  lemma {:induction false} AppendsKeepSound(n: Bridge, n': Bridge, bootstrap: nat, genesis: Hash)
    requires Sound(n, bootstrap, genesis) && AppendsStop(n, n', bootstrap)
    ensures Sound(n', bootstrap, genesis)
  {
    hide JournalFits, ValidChain, History.Inv, Recoverable, IndexWithin, Replays, HeadersRepaired, ProofOk;
    AppendsInterrupted(n.stores, n'.stores, n.records, n.chain, n.base, bootstrap, genesis);
    forall i | 0 <= i < |n.chain|
      ensures ProofOk(n'.stores.index, n'.stores.file, n.chain[i]) <==>
                ProofOk(n.stores.index, n.stores.file, n.chain[i])
    {
      SameReadable(n.stores, n'.stores.file, n.chain[i]);
    }
  }

  lemma {:induction false} IndexKeepsSound(n: Bridge, n': Bridge, file: seq<byte>, repaired: seq<(Hash, ProofIndex)>,
                                           tail: bool, t: nat, j: nat, bootstrap: nat, genesis: Hash)
    requires Sound(n, bootstrap, genesis) && IndexStop(n, n', file, repaired, tail, t, j, bootstrap)
    ensures Sound(n', bootstrap, genesis)
  {
    hide JournalFits, ValidChain, History.Inv, Startable, InOrder, IndexWithin, Replays, HeadersRepaired, ProofOk,
         ProofsRepaired, StoppedAt, Partly, ReadableFront;
    FrontThenNothing(n.stores, n.records, n.chain, n.base, bootstrap, genesis, file, repaired, tail, t);
    RepairRecoverable(n.stores, n.records, n.chain, n.base, bootstrap, genesis, file, repaired, tail, t, j,
        n'.stores.headerAt, n'.stores.heightOf);
    StoppedFront(n.stores, n.chain, bootstrap, file, repaired, tail, t, j, n'.stores);
  }

  lemma {:induction false} FrontThenNothing(s: Stores, records: seq<Retained>, chain: seq<Payload>, base: nat,
                                            bootstrap: nat, genesis: Hash,
                                            file: seq<byte>, repaired: seq<(Hash, ProofIndex)>, tail: bool, t: nat)
    requires Startable(s, records, chain, base, bootstrap, genesis) && ReadableFront(s, chain)
    requires ProofsRepaired(s, file, repaired, tail, chain, t, |chain|)
    ensures base <= t && NothingReadableAfter(s, chain, t)
  {
    hide ProofOk, ValidChain, JournalFits, HeaderOk, GoodIndex;
    assert base <= |chain| by { StartableParts(s, records, chain, base, bootstrap, genesis); }
    RepairedFirst(s, file, repaired, tail, chain, t);
  }

  lemma {:induction false} StoppedFront(s: Stores, chain: seq<Payload>, bootstrap: nat, file: seq<byte>,
                                        repaired: seq<(Hash, ProofIndex)>, tail: bool, t: nat, j: nat, s': Stores)
    requires ProofsRepaired(s, file, repaired, tail, chain, t, |chain|) && ValidChain(chain, bootstrap)
             && IndexWithin(s) && NothingReadableAfter(s, chain, t)
    requires j <= |repaired| && s' == StoppedAt(s, file, repaired, j, s'.headerAt, s'.heightOf)
    ensures IndexWithin(s') && ReadableFront(s', chain)
  {
    hide ProofOk, ValidChain, Partly, GoodIndex, NothingReadableAfter;
    forall i | 0 <= i < |chain|
      ensures ProofOk(s'.index, s'.file, chain[i]) <==> i < t + j || (i == t && ProofOk(s.index, s.file, chain[i]))
    {
      PartlyReadable(s, file, repaired, tail, chain, t, bootstrap, j, i);
      RepairedFirst(s, file, repaired, tail, chain, t);
      if i > t { NothingThere(s, chain, t, i); }
    }
    RepairedFirst(s, file, repaired, tail, chain, t);
    forall h | h in s'.index
      ensures s'.index[h].End() <= |s'.file|
    {
      PartlyWithin(s, file, repaired, tail, chain, t, j, h);
    }
  }

  lemma {:induction false} NothingThere(s: Stores, chain: seq<Payload>, t: nat, i: nat)
    requires NothingReadableAfter(s, chain, t) && t < i < |chain|
    ensures !ProofOk(s.index, s.file, chain[i])
  {
  }

  lemma {:induction false} PartlyWithin(s: Stores, file: seq<byte>, repaired: seq<(Hash, ProofIndex)>, tail: bool,
                                        chain: seq<Payload>, t: nat, j: nat, h: Hash)
    requires ProofsRepaired(s, file, repaired, tail, chain, t, |chain|) && IndexWithin(s) && j <= |repaired|
             && h in Partly(s.index, repaired, j)
    ensures Partly(s.index, repaired, j)[h].End() <= |file|
  {
    hide ProofOk;
    if j > 0 {
      if h == repaired[j - 1].0 {
        assert GoodIndex(file, repaired[j - 1].1, chain[t + (j - 1)]);
      } else {
        PartlyWithin(s, file, repaired, tail, chain, t, j - 1, h);
      }
    }
  }

  lemma {:induction false} OrphansKeepSound(n: Bridge, n': Bridge, k: nat, bootstrap: nat, genesis: Hash)
    requires Sound(n, bootstrap, genesis) && OrphansStop(n, n', k)
    ensures Sound(n', bootstrap, genesis)
  {
    hide JournalFits, ValidChain, History.Inv, Startable, InOrder, Replays, Get, RemovedHash, RemovedHeader;
    OrphansInterrupted(n.stores, n'.stores, n.records, n.chain, n.base, bootstrap, genesis, k);
    forall i | 0 <= i < |n.chain|
      ensures ProofOk(n'.stores.index, n'.stores.file, n.chain[i]) <==>
                ProofOk(n.stores.index, n.stores.file, n.chain[i])
    {
      NeverRemovedYet(n.stores, n.records, n.chain, n.base, bootstrap, genesis, i, k);
    }
  }

  lemma {:induction false} CutKeepsSound(n: Bridge, n': Bridge, bootstrap: nat, genesis: Hash)
    requires Sound(n, bootstrap, genesis) && CutStop(n, n', bootstrap)
    ensures Sound(n', bootstrap, genesis)
  {
    hide JournalFits, ValidChain, History.Inv, Startable, Replays, Get;
    var s, s' := n.stores, n'.stores;
    CutInterrupted(s, s', n.records, n.chain, n.base, bootstrap, genesis);
    forall i | 0 <= i < |n.chain|
      ensures ProofOk(s'.index, s'.file, n.chain[i]) && HashOf(n.chain[i]) in s.index
              && s.index[HashOf(n.chain[i])].End() <= |s'.file|
    {
      EndsBeforeTip(s.index, s.file, n.chain, i);
      GetTruncated(s.file, TipEnd(s.index, n.chain), s.index[HashOf(n.chain[i])]);
    }
    forall g | g in s'.index
      ensures s'.index[g].End() <= |s'.file|
    {
      var i :| 0 <= i < |n.chain| && HashOf(n.chain[i]) == g;
    }
  }

  lemma {:induction false} ReplayKeepsSound(n: Bridge, n': Bridge, bootstrap: nat, genesis: Hash)
    requires Sound(n, bootstrap, genesis) && ReplayStop(n, n')
    ensures Sound(n', bootstrap, genesis)
  {
    hide JournalFits, ValidChain, Recoverable, IndexWithin, ReadableFront, TouchOf, History.KeyInv, WellFormed;
    forall k
      ensures History.Replay(n'.forest(k), History.ForKey(n.h.records, k)) == n.h.now(k)
    {
      var keys := History.ForKey(n.h.records, k);
      assert History.KeyInv(n.h.base(k), keys, n.h.now(k));
      History.UndoReachesBase(n.h.base(k), keys, n.h.now(k), n.forest(k));
      History.UndoReachesBase(n.h.base(k), keys, n.h.now(k), n'.forest(k));
      assert History.Replay(n.forest(k), keys) == n.h.now(k);
    }
  }

  lemma {:induction false} StartKeepsSound(n: Bridge, n': Bridge, w: Repairs, bootstrap: nat, genesis: Hash)
    requires Sound(n, bootstrap, genesis) && Starts(n, n', w, bootstrap)
    ensures Sound(n', bootstrap, genesis)
  {
    hide Settled, JournalFits, ValidChain, History.Inv, Startable, InOrder, NoneTaller, Reconciled, StartsInOrder,
         History.Replay, History.ForKey;
    StartableParts(n.stores, n.records, n.chain, n.base, bootstrap, genesis);
    ReconciledSettles(n.stores, n'.stores, w, n.records, n.chain, n.base, bootstrap, genesis);
    PrefixInOrder(n.stores, n.chain);
  }

  // ----- Every step -----

  lemma {:induction false} StepKeepsSound(n: Bridge, n': Bridge, bootstrap: nat, genesis: Hash)
    requires Sound(n, bootstrap, genesis) && Step(n, n', bootstrap, genesis)
    ensures Sound(n', bootstrap, genesis)
  {
    hide Sound;
    if Stops(n, n') {
      StopKeepsSound(n, n', bootstrap, genesis);
    } else if window, states, v :| PersistStops(n, n', window, states, v, bootstrap, genesis) {
      PersistStopKeepsSound(n, n', window, states, v, bootstrap, genesis);
    } else if window, states :| Persists(n, n', window, states, bootstrap, genesis) {
      PersistKeepsSound(n, n', window, states, bootstrap, genesis);
    } else if rows :| Grows(n, n', rows) {
      GrowKeepsSound(n, n', rows, bootstrap, genesis);
    } else if cut :| Prunes(n, n', cut) {
      PruneKeepsSound(n, n', cut, bootstrap, genesis);
    } else if i :| RollbackStops(n, n', i) {
      RollbackStopKeepsSound(n, n', i, bootstrap, genesis);
    } else if i :| RollsBack(n, n', i) {
      RollKeepsSound(n, n', i, bootstrap, genesis);
    } else if AppendsStop(n, n', bootstrap) {
      AppendsKeepSound(n, n', bootstrap, genesis);
    } else if file, repaired, tail, t, j :| IndexStop(n, n', file, repaired, tail, t, j, bootstrap) {
      IndexKeepsSound(n, n', file, repaired, tail, t, j, bootstrap, genesis);
    } else if k :| OrphansStop(n, n', k) {
      OrphansKeepSound(n, n', k, bootstrap, genesis);
    } else if CutStop(n, n', bootstrap) {
      CutKeepsSound(n, n', bootstrap, genesis);
    } else if ReplayStop(n, n') {
      ReplayKeepsSound(n, n', bootstrap, genesis);
    } else {
      var w :| Starts(n, n', w, bootstrap);
      StartKeepsSound(n, n', w, bootstrap, genesis);
    }
  }

  // ----- The program takes these steps -----

  /** The objects and values of a process whose disk is this node's. */
  ghost predicate Shown(n: Bridge, s: Stores, proofs: ProofFile, acc: SteadyStateForest)
    reads proofs, acc
  {
    && s == n.stores && proofs.Valid() && proofs.bytes == s.file
    && acc.Valid() && acc.rows == n.rows && forall k :: acc.State().Read(k) == n.forest(k)
  }

  /** From every sound node that is down, startup succeeds and is a step to a node that is up. */
  method Start(ghost n: Bridge, s: Stores, records: seq<Retained>, proofs: ProofFile, acc: SteadyStateForest,
               bootstrap: nat, tipFromNode: Hash,
               ghost genesis: Hash)
    returns (r: Stores, tip: Hash, ghost n': Bridge, ghost w: Repairs)
    requires Sound(n, bootstrap, genesis) && !n.up && Shown(n, s, proofs, acc) && records == n.records
    requires records == [] ==> tipFromNode == TipHash(n.chain, genesis)
    modifies proofs, acc
    ensures Starts(n, n', w, bootstrap) && Sound(n', bootstrap, genesis) && Shown(n', r, proofs, acc)
            && tip == TipHash(n.chain, genesis)
  {
    hide Recoverable, Settled, JournalFits, ValidChain, History.Inv, History.Replay, NoneTaller, Reconciled;
    r, tip := Restart(s, records, proofs, acc, true, bootstrap, tipFromNode, n.chain, n.base, genesis, n.h);
    w :| Reconciled(s, r, w, records, n.chain, bootstrap);
    n' := n.(up := true, stores := r, forest := ReadsOf(acc.State()));
    StartKeepsSound(n, n', w, bootstrap, genesis);
  }

  /** Persisting a window that was planned for this file is a step to a node at the longer chain. */
  method PersistAll(ghost n: Bridge, s: Stores, window: seq<Payload>, proofs: ProofFile, acc: SteadyStateForest,
                    ghost states: seq<History.HistoryState>, ghost bootstrap: nat, ghost genesis: Hash)
    returns (r: Stores, ghost n': Bridge)
    requires Sound(n, bootstrap, genesis) && n.up && Shown(n, s, proofs, acc)
             && Follows(n, window, states, bootstrap, genesis)
    requires forall i :: 0 <= i < |window| ==>
               EntryForestSorted(window[i].entry) && window[i].entry.forestRows == Some(acc.rows)
    modifies proofs, acc
    ensures Persists(n, n', window, states, bootstrap, genesis) && Sound(n', bootstrap, genesis)
            && Shown(n', r, proofs, acc)
  {
    hide Settled, JournalFits, ValidChain, History.Inv, NoneTaller, Persisted, RedoEntries, WellFormed,
         EntryForestSorted, TouchOf, PersistStopped;
    WindowShape(n, window, states, bootstrap, genesis);
    r := PersistWindow(s, window, proofs, n.chain, bootstrap);
    var applied := acc.ApplyForwardBatch(Entries(window));
    n' := n.(stores := r, records := n.records + Interruption.Published(window), forest := ReadsOf(acc.State()),
        chain := n.chain + window,
             h := states[|window|]);
    PersistKeepsSound(n, n', window, states, bootstrap, genesis);
  }

  lemma {:induction false} WindowShape(n: Bridge, window: seq<Payload>, states: seq<History.HistoryState>,
                                       bootstrap: nat, genesis: Hash)
    requires Follows(n, window, states, bootstrap, genesis)
    ensures window != [] && ValidChain(n.chain + window, bootstrap) && |states| == |window| + 1
    ensures forall i :: 0 <= i < |window| ==> WellFormed(Entries(window)[i])
  {
    hide ValidChain, WellFormed, TouchOf, NoneTaller;
    forall i | 0 <= i < |window|
      ensures WellFormed(Entries(window)[i])
    {
      assert History.Append(states[i], states[i + 1], Entries(window)[i]);
    }
  }

  /** Rolling the tip back is a step to a node at the shorter chain. */
  method RollBack(ghost n: Bridge, s: Stores, records: seq<Retained>, i: nat, proofs: ProofFile,
                  acc: SteadyStateForest, bootstrap: nat,
                  ghost h': History.HistoryState, ghost genesis: Hash)
    returns (r: Stores, ghost n': Bridge)
    requires Sound(n, bootstrap, genesis) && n.up && Shown(n, s, proofs, acc) && records == n.records
    requires LatestForward(records) == Some(i) && History.Rollback(n.h, h')
    modifies proofs, acc
    ensures RollsBack(n, n', i) && Sound(n', bootstrap, genesis) && Shown(n', r, proofs, acc)
  {
    hide Settled, JournalFits, ValidChain, History.Inv, LatestForward, RolledBack, WellFormed, TouchOf,
         RollbackStopped, History.Rollback;
    JournalShrinks(n.records, i, n.chain, n.base, bootstrap, genesis);
    MarkedNode(n, i, h', bootstrap, genesis);
    var e := records[i].payload.entry;
    RecordFits(n, i);
    var undone := acc.ApplyBackward(e);
    r := RollbackTip(s, proofs, records[i].payload, bootstrap, n.chain);
    n' := n.(stores := r, records := MarkedBack(records, i), forest := ReadsOf(acc.State()), chain := Front(n.chain),
        h := h');
    RollKeepsSound(n, n', i, bootstrap, genesis);
  }

  lemma {:induction false} RecordFits(n: Bridge, i: nat)
    requires History.Inv(n.h) && n.h.records == HistoryRecords(n.records) && NoneTaller(n.h.records, n.rows)
             && i < |n.records|
    ensures var e := n.records[i].payload.entry; WellFormed(e) && e.forestRows.Some? && e.forestRows.value <= n.rows
  {
    hide TouchOf, History.KeyInv;
    assert WellFormed(n.h.records[i].entry);
  }

  // ----- Every life -----

  /** A node begins up, with an empty journal over a bootstrapped forest and no proofs yet. */
  ghost predicate Begins(n: Bridge) {
    && n.up && n.records == [] && n.chain == [] && n.base == 0
    && n.h.records == [] && (forall k :: n.h.base(k) == n.h.now(k)) && (forall k :: n.forest(k) == n.h.now(k))
  }

  ghost predicate IsLife(life: seq<Bridge>, bootstrap: nat, genesis: Hash) {
    && |life| > 0 && Begins(life[0]) && Settled(life[0].stores, [], bootstrap)
    && forall i :: 0 <= i < |life| - 1 ==> Step(life[i], life[i + 1], bootstrap, genesis)
  }

  lemma {:induction false} BeginsSound(n: Bridge, bootstrap: nat, genesis: Hash)
    requires Begins(n) && Settled(n.stores, [], bootstrap)
    ensures Sound(n, bootstrap, genesis)
  {
    hide TouchOf;
    forall k
      ensures History.KeyInv(n.h.base(k), History.ForKey(n.h.records, k), n.h.now(k))
    {
      assert History.ForKey(n.h.records, k) == [];
    }
    assert n.h.records == HistoryRecords(n.records);
  }

  /** Over every life, with stops anywhere, an up node agrees with itself and a down one can start. */
  lemma {:induction false} EveryLifeIsSound(life: seq<Bridge>, bootstrap: nat, genesis: Hash, i: nat)
    requires IsLife(life, bootstrap, genesis) && i < |life|
    ensures Sound(life[i], bootstrap, genesis)
    decreases i
  {
    hide Sound, Step, Settled, Begins;
    if i == 0 {
      BeginsSound(life[0], bootstrap, genesis);
    } else {
      EveryLifeIsSound(life, bootstrap, genesis, i - 1);
      StepKeepsSound(life[i - 1], life[i], bootstrap, genesis);
    }
  }
}
