/**
 From one persist to the next, and from one life to the next.

 Between operations a prover stands on settled stores and a quiet journal. Publishing, writing the
 stores and pruning lead the journal from there through the phases of a persist, whatever the
 producer appends meanwhile; at the end the prover stands again, one window further. So it does
 after a rollback, after anything the producer does, and (`Reopen`) after a crash anywhere.
 */
module Lives {
  import opened Bits
  import opened Wrappers
  import opened Forest
  import opened Entry
  import opened Ledger
  import opened Wal
  import opened ProofStore
  import opened Recovery
  import opened Interruption
  import opened Persist
  import opened Startup
  import opened Reopen
  import opened Steady
  import opened Planner
  import History
  import Pipeline
  import Threads

  // ----- The journal along a persist -----

  /** A step of the journal while the window up to `end` is persisted: pruning comes after its publication. */
  ghost predicate PersistStep(j: Journal, j': Journal, end: nat) {
    || (exists p :: Append(j, j', p))
    || (exists clean :: DataFlushed(j, j', clean))
    || MarkerFlushed(j, j')
    || Fails(j, j')
    || (end <= j.marker.end && exists start :: PruneStarts(j, j', start))
    || Punches(j, j')
  }

  /** In a phase, with the window unpublished exactly while it is being published. */
  ghost predicate Reached(phase: Phase, j: Journal, records: seq<Retained>, window: seq<Payload>, end: nat) {
    && JournalIn(phase, j, records, window) && (phase.Publishing? <==> j.marker.end < end)
    && (phase.Publishing? ==> Captured(j, end, window) && Names(j, end))
  }

  /** Whatever is in flight ends at the captured boundary. */
  predicate Names(j: Journal, end: nat) {
    && (j.task.Flushing? ==> j.task.boundary.end == end)
    && match InFlight(j) case None => true case Some(next) => next.end == end
  }

  lemma {:induction false} QuietPublishes(j: Journal, j': Journal, b: Boundary, records: seq<Retained>)
    requires Quiet(j, records) && PublishStarts(j, j', b)
    ensures j.marker.end <= b.end && AllWritten(j.disk.data, j.marker.end, b.end)
    ensures Reached(Publishing, j', records, Appended(j.disk.data, j.marker.end, b.end), b.end)
  {
    hide Covered, Follows;
    PublishKeeps(j, j', b);
    CoveredWhole(j.disk.data, j.clean, j.marker);
  }

  lemma {:induction false} UnderSame(data: seq<Slot>, data': seq<Slot>, m: Marker)
    requires Readable(data, m) && m.end <= |data'| && forall i :: m.replayStart <= i < m.end ==> data'[i] == data[i]
    ensures Readable(data', m) && Under(data', m) == Under(data, m)
  {
  }

  lemma {:induction false} AppendReaches(phase: Phase, j: Journal, j': Journal, p: Payload, records: seq<Retained>,
                                         window: seq<Payload>, end: nat)
    requires Reached(phase, j, records, window, end) && Append(j, j', p)
    ensures Reached(phase, j', records, window, end)
  {
    hide Inv, Under, Appended, CutBefore;
    AppendKeeps(j, j', p);
    UnderSame(j.disk.data, j'.disk.data, j.marker);
    if phase.Publishing? { AppendedSame(j, j', end); }
    if phase.Dropping? { DroppedSame(j, j', records + Interruption.Published(window)); }
  }

  lemma {:induction false} AppendedSame(j: Journal, j': Journal, end: nat)
    requires j.marker.end <= end && AllWritten(j.disk.data, j.marker.end, end)
    requires end <= |j'.disk.data| && forall i :: j.marker.end <= i < end ==> j'.disk.data[i] == j.disk.data[i]
    ensures AllWritten(j'.disk.data, j.marker.end, end)
    ensures Appended(j'.disk.data, j.marker.end, end) == Appended(j.disk.data, j.marker.end, end)
  {
  }

  lemma {:induction false} DroppedSame(j: Journal, j': Journal, all: seq<Retained>)
    requires Readable(j.disk.data, j.marker) && Readable(j'.disk.data, j'.marker)
    requires Under(j'.disk.data, j'.marker) == Under(j.disk.data, j.marker)
    ensures forall n: nat :: n <= |all| && DroppedTo(j, all, n) ==> DroppedTo(j', all, n)
  {
    hide Under, CutBefore;
  }

  lemma {:induction false} FlushReaches(phase: Phase, j: Journal, j': Journal, clean: nat, records: seq<Retained>,
                                        window: seq<Payload>, end: nat)
    requires Reached(phase, j, records, window, end) && DataFlushed(j, j', clean)
    ensures Reached(phase, j', records, window, end)
  {
    hide Inv, Under, Appended, CutBefore, Readable, AllWritten;
    FlushKeeps(j, j', clean);
  }

  lemma {:induction false} FailReaches(phase: Phase, j: Journal, j': Journal, records: seq<Retained>,
                                       window: seq<Payload>, end: nat)
    requires Reached(phase, j, records, window, end) && Fails(j, j')
    ensures Reached(phase, j', records, window, end)
  {
    hide Inv, Under, Appended, CutBefore, Readable, AllWritten;
    FailKeeps(j, j');
    if phase.Dropping? { DroppedSame(j, j', records + Interruption.Published(window)); }
  }

  /** The marker flush that publishes ends the publishing; one that prunes goes on pruning. */
  lemma {:induction false} MarkerReaches(phase: Phase, j: Journal, j': Journal, records: seq<Retained>,
                                         window: seq<Payload>, end: nat) returns (phase': Phase)
    requires Reached(phase, j, records, window, end) && MarkerFlushed(j, j')
    ensures Reached(phase', j', records, window, end) && phase' == if phase.Publishing? then Storing(0) else Dropping
  {
    hide Inv, Under, Appended, CutBefore, Readable, AllWritten;
    phase' := if phase.Publishing? then Storing(0) else Dropping;
    MarkerKeeps(j, j');
    var next := j.task.next;
    InvReadable(j);
    if phase.Publishing? {
      UnderGrown(j, next);
    } else {
      var all := records + Interruption.Published(window);
      var n: nat :| n <= |all| && DroppedTo(j, all, n);
      var more := DroppedMore(j, next, all, n);
      assert DroppedTo(j', all, n + more);
    }
  }

  lemma {:induction false} PruneReaches(phase: Phase, j: Journal, j': Journal, start: nat, records: seq<Retained>,
                                        window: seq<Payload>, end: nat)
    requires Reached(phase, j, records, window, end) && PruneStarts(j, j', start) && end <= j.marker.end
    ensures Reached(Dropping, j', records, window, end)
  {
    hide Inv, Under, Appended, AllWritten;
    PruneKeeps(j, j', start);
    var all := records + Interruption.Published(window);
    if phase.Storing? {
      assert all[0..] == all;
      assert DroppedTo(j', all, 0);
    } else {
      DroppedSame(j, j', all);
    }
  }

  /** Only records below the floor become holes. */
  lemma {:induction false} PunchReaches(phase: Phase, j: Journal, j': Journal, records: seq<Retained>,
                                        window: seq<Payload>, end: nat)
    requires Reached(phase, j, records, window, end) && Punches(j, j')
    ensures Reached(phase, j', records, window, end)
  {
    hide Under, Appended, CutBefore, Covered, Follows;
    PunchKeeps(j, j');
    UnderSame(j.disk.data, j'.disk.data, j.marker);
    DroppedSame(j, j', records + Interruption.Published(window));
  }

  /** The phases come in order. */
  predicate NoEarlier(phase: Phase, phase': Phase) {
    match phase
    case Publishing => phase' == Publishing || phase' == Storing(0)
    case Storing(_) => phase' == phase || phase' == Dropping
    case Dropping => phase' == Dropping
  }

  lemma {:induction false} StepReaches(phase: Phase, j: Journal, j': Journal, records: seq<Retained>,
                                       window: seq<Payload>, end: nat) returns (phase': Phase)
    requires Reached(phase, j, records, window, end) && PersistStep(j, j', end)
    ensures Reached(phase', j', records, window, end) && NoEarlier(phase, phase')
  {
    hide Reached;
    phase' := phase;
    if p :| Append(j, j', p) {
      AppendReaches(phase, j, j', p, records, window, end);
    } else if clean :| DataFlushed(j, j', clean) {
      FlushReaches(phase, j, j', clean, records, window, end);
    } else if MarkerFlushed(j, j') {
      NoMarkerWhileStoring(phase, j, records, window, end);
      phase' := MarkerReaches(phase, j, j', records, window, end);
    } else if Fails(j, j') {
      FailReaches(phase, j, j', records, window, end);
    } else if Punches(j, j') {
      PunchReaches(phase, j, j', records, window, end);
    } else {
      var start :| PruneStarts(j, j', start);
      PublishedPhase(phase, j, records, window, end);
      PruneReaches(phase, j, j', start, records, window, end);
      phase' := Dropping;
    }
  }

  lemma {:induction false} NoMarkerWhileStoring(phase: Phase, j: Journal, records: seq<Retained>,
                                                window: seq<Payload>, end: nat)
    requires Reached(phase, j, records, window, end) && j.task.Marking?
    ensures !phase.Storing?
  {
    hide Inv, Under, Appended, Readable, AllWritten;
  }

  lemma {:induction false} PublishedPhase(phase: Phase, j: Journal, records: seq<Retained>, window: seq<Payload>,
                                          end: nat)
    requires Reached(phase, j, records, window, end) && end <= j.marker.end
    ensures !phase.Publishing?
  {
    hide Inv, Under, Appended, Readable, AllWritten;
  }

  ghost predicate IsPersist(js: seq<Journal>, b: Boundary) {
    && |js| > 1 && PublishStarts(js[0], js[1], b)
    && forall i :: 1 <= i < |js| - 1 ==> PersistStep(js[i], js[i + 1], b.end)
  }

  /**
   From a quiet journal, along every persist of a captured boundary, with whatever the producer
   appends behind it, the journal is in one of the phases from which a crash restarts at the old or the new tip.
   */
  lemma {:induction false} AlongPersist(js: seq<Journal>, b: Boundary, records: seq<Retained>, i: nat)
    returns (phase: Phase)
    requires IsPersist(js, b) && Quiet(js[0], records) && 1 <= i < |js|
    ensures js[0].marker.end <= b.end && AllWritten(js[0].disk.data, js[0].marker.end, b.end)
    ensures Reached(phase, js[i], records, Appended(js[0].disk.data, js[0].marker.end, b.end), b.end)
    decreases i
  {
    hide Reached, Quiet, PersistStep, AllWritten;
    QuietPublishes(js[0], js[1], b, records);
    var window := Appended(js[0].disk.data, js[0].marker.end, b.end);
    if i == 1 {
      phase := Publishing;
    } else {
      phase := AlongPersist(js, b, records, i - 1);
      phase := StepReaches(phase, js[i - 1], js[i], records, window, b.end);
    }
  }

  /**
   When nothing is in flight any more after the publication, the journal is quiet with the window
   in it and perhaps less in front.
   */
  lemma {:induction false} PersistQuiet(phase: Phase, j: Journal, records: seq<Retained>, window: seq<Payload>)
    returns (n: nat)
    requires JournalIn(phase, j, records, window) && j.task == Idle && !phase.Publishing?
    ensures n <= |records| + |window| && CutBefore(records + Interruption.Published(window), n)
    ensures Quiet(j, (records + Interruption.Published(window))[n..])
  {
    hide Inv, Under, Appended;
    var all := records + Interruption.Published(window);
    n := 0;
    if phase.Storing? {
      assert all[0..] == all;
    } else {
      n :| n <= |all| && DroppedTo(j, all, n);
    }
  }

  // ----- A persist that completes -----

  /** The prover after its window is durable, retired, and the first records are pruned. */
  ghost function AfterPersist(p: Pipeline.ProverState, blocks: seq<JournalEntry>, dropped: nat): Pipeline.ProverState
    requires p.submitted <= |p.pending| && dropped <= |p.journal| && dropped <= |p.epochs|
  {
    var last := Pipeline.LastOf(p.durableHeight, p.durableTip, blocks);
    p.(durableHeight := last.0, durableTip := last.1, pending := p.pending[p.submitted..], submitted := 0,
        inflight := None,
       journal := p.journal[dropped..], epochs := p.epochs[dropped..], baseHeight := p.baseHeight + dropped)
  }

  lemma {:induction false} AppliedConsistent(p: Pipeline.ProverState, forest: ForestState, forest': ForestState,
                                             window: seq<Payload>, dropped: nat)
    requires Pipeline.Consistent(p, forest) && Submitted(p, window) && dropped <= Before(p) + |window|
    requires forest'.Valid() && forest'.rows == forest.rows
             && forall i :: 0 <= i < |window| ==> WellFormed(Entries(window)[i])
    requires forest.Valid() && forall k :: forest'.Read(k) == RedoEntries(forest.Read(k), Entries(window), k)
    ensures p.submitted == |window| <= |p.pending|
    ensures Pipeline.Consistent(AfterPersist(p, Entries(window), dropped), forest')
  {
    hide Pipeline.Consistent, Pipeline.LastOf, WellFormed, RedoEntries;
    Pipeline.ConsistentSizes(p, forest);
    var blocks := p.inflight.value.blocks;
    var applied := p.(durableHeight := Pipeline.LastOf(p.durableHeight, p.durableTip, blocks).0,
                      durableTip := Pipeline.LastOf(p.durableHeight, p.durableTip, blocks).1,
                          inflight := Some(Pipeline.Inflight(blocks, true)));
    Pipeline.WindowConsistent(p, applied, forest, forest');
    Pipeline.RetireConsistent(applied, forest');
    var retired := applied.(pending := applied.pending[applied.submitted..], submitted := 0, inflight := None);
    Pipeline.PruneConsistent(retired, forest', dropped);
  }

  /** The entries the pruned prover keeps are those of the pruned journal. */
  lemma {:induction false} KeptEntries(p: Pipeline.ProverState, forest: ForestState, a: Durable, window: seq<Payload>,
                                       n: nat, bootstrap: nat, genesis: Hash)
    requires Serves(p, forest, a.h, a.records, a.chain, bootstrap, genesis) && Submitted(p, window)
    requires n <= |a.records| + |window|
    ensures var all := a.records + Interruption.Published(window);
            var dropped := |Forwards(all[..n])|;
            && dropped <= Before(p) + |window|
            && Entries(Forwards(all[n..])) == p.journal[dropped..Before(p) + |window|]
  {
    hide Forwards, Pipeline.Consistent;
    WindowStretch(p, forest, window);
    var all := a.records + Interruption.Published(window);
    ForwardsOfPublished(a.records, window);
    ForwardsSplit(all, n);
    assert Entries(Forwards(all)) == p.journal[..Before(p) + |window|];
  }

  /** What is durable after a persist that pruned the first `n` records. */
  ghost function DurableAfter(p: Pipeline.ProverState, a: Durable, window: seq<Payload>, s: Stores, n: nat,
                              base: nat): Durable
    requires 0 <= Before(p) && Before(p) + |window| < |p.epochs| && n <= |a.records| + |window|
    requires |StatesOf(p, a.h, window)[|window|].records| >= n
  {
    Durable(s, (a.records + Interruption.Published(window))[n..], a.chain + window, base,
        PrunedAt(StatesOf(p, a.h, window)[|window|], n))
  }

  lemma {:induction false} WindowStates(p: Pipeline.ProverState, forest: ForestState, a: Durable,
                                        window: seq<Payload>, n: nat, bootstrap: nat, genesis: Hash)
    requires Standing(p, forest, a, bootstrap, genesis) && Submitted(p, window) && window != []
    requires n <= |a.records| + |window| && CutBefore(a.records + Interruption.Published(window), n)
    ensures var all, last := a.records + Interruption.Published(window), StatesOf(p, a.h, window)[|window|];
            && |last.records| == |all| && History.Inv(PrunedAt(last, n))
                 && PrunedAt(last, n).records == HistoryRecords(all[n..])
            && forall k :: PrunedAt(last, n).now(k) == p.epochs[Before(p) + |window|].read(k)
    ensures forall i :: 0 <= i < |window| ==> WellFormed(Entries(window)[i])
  {
    hide Settled, JournalFits, History.Inv, NoneTaller, Pipeline.Consistent, WellFormed, CutBefore, PrunedAt,
         History.Append, Forwards;
    var states := StatesOf(p, a.h, window);
    StatesAppend(p, forest, a.h, a.records, a.chain, window, bootstrap, genesis);
    AppendedState(states, Entries(window), |window|);
    AppendedRecords(states, a.records, window, |window|);
    assert window[..|window|] == window;
    PrunedHistory(states[|window|], a.records + Interruption.Published(window), n);
  }

  /** With the stores written, the blocks redone and the floor raised, the prover stands again, one window further. */
  lemma {:induction false} PersistStands(p: Pipeline.ProverState, forest: ForestState, a: Durable,
                                         window: seq<Payload>, s: Stores, forest': ForestState,
                                         n: nat, bootstrap: nat, genesis: Hash)
    returns (p': Pipeline.ProverState, a': Durable)
    requires Standing(p, forest, a, bootstrap, genesis) && Submitted(p, window)
    requires Interruption.Extends(a.records, a.chain, window, bootstrap, genesis) && Persisted(s, a.stores, window)
    requires n <= |a.records| + |window| && CutBefore(a.records + Interruption.Published(window), n)
    requires forest'.Valid() && forest'.rows == forest.rows && forest.Valid()
    requires (forall i :: 0 <= i < |window| ==> WellFormed(Entries(window)[i])) ==>
               forall k :: forest'.Read(k) == RedoEntries(forest.Read(k), Entries(window), k)
    ensures Standing(p', forest', a', bootstrap, genesis)
    ensures a'.stores == s && a'.chain == a.chain + window
            && a'.records == (a.records + Interruption.Published(window))[n..]
    ensures |p.epochs| > 0 && |p'.epochs| > 0 && p'.epochs[|p'.epochs| - 1] == p.epochs[|p.epochs| - 1]
    ensures p'.window == p.window && p'.pending == p.window
  {
    hide Settled, JournalFits, History.Inv, NoneTaller, Pipeline.Consistent, WellFormed, CutBefore, PrunedAt,
         Forwards, RedoEntries, Persisted,
         Interruption.Extends, AfterPersist, StatesOf;
    WindowNotEmpty(a.records, a.chain, window, bootstrap, genesis);
    WindowStates(p, forest, a, window, n, bootstrap, genesis);
    KeptEntries(p, forest, a, window, n, bootstrap, genesis);
    var all := a.records + Interruption.Published(window);
    var dropped := |Forwards(all[..n])|;
    AppliedConsistent(p, forest, forest', window, dropped);
    p' := AfterPersist(p, Entries(window), dropped);
    WindowFits(a.stores, a.records, a.chain, window, a.base, bootstrap, genesis);
    ExtendsValid(a.records, a.chain, window, bootstrap, genesis);
    PersistDone(s, a.stores, a.chain, window, bootstrap);
    var base := CutFits(s, all, n, a.chain + window, a.base, bootstrap, genesis);
    a' := DurableAfter(p, a, window, s, n, base);
    WindowNoneTaller(p, forest, a, window, bootstrap, genesis);
    NoneTallerAt(Pruning(n), a.records, window, forest.rows);
    TipOfEnd(p, forest, Persisting(0), a.h, a.records, a.chain, window, bootstrap, genesis);
    PersistServes(p, forest, forest', a, window, s, n, base, dropped, bootstrap, genesis);
  }

  lemma {:induction false} ExtendsValid(records: seq<Retained>, chain: seq<Payload>, window: seq<Payload>,
                                        bootstrap: nat, genesis: Hash)
    requires Interruption.Extends(records, chain, window, bootstrap, genesis)
    ensures ValidChain(chain + window, bootstrap)
  {
  }

  lemma {:induction false} PersistServes(p: Pipeline.ProverState, forest: ForestState, forest': ForestState,
                                         a: Durable, window: seq<Payload>, s: Stores,
                                         n: nat, base: nat, dropped: nat, bootstrap: nat, genesis: Hash)
    requires Serves(p, forest, a.h, a.records, a.chain, bootstrap, genesis) && Submitted(p, window)
             && p.submitted == |window| <= |p.pending|
    requires n <= |a.records| + |window| && dropped <= Before(p) + |window|
    requires Pipeline.Consistent(AfterPersist(p, Entries(window), dropped), forest')
    requires Entries(Forwards((a.records + Interruption.Published(window))[n..]))
             == p.journal[dropped..Before(p) + |window|]
    requires |StatesOf(p, a.h, window)[|window|].records| >= n
    requires var h := PrunedAt(StatesOf(p, a.h, window)[|window|], n);
             h.records == HistoryRecords((a.records + Interruption.Published(window))[n..])
                 && forall k :: h.now(k) == p.epochs[Before(p) + |window|].read(k)
    requires p.epochs[Before(p) + |window|].tip == TipHash(a.chain + window, genesis)
    ensures var p', a' := AfterPersist(p, Entries(window), dropped), DurableAfter(p, a, window, s, n, base);
            && Serves(p', forest', a'.h, a'.records, a'.chain, bootstrap, genesis)
            && |p.epochs| > 0 && |p'.epochs| > 0 && p'.epochs[|p'.epochs| - 1] == p.epochs[|p.epochs| - 1]
            && p'.window == p.window && p'.pending == p.window
  {
    hide Pipeline.Linked, Pipeline.StoredAt, Pipeline.Fits, Pipeline.CacheAgrees, Forwards, PrunedAt, Pipeline.LastOf;
    Pipeline.ConsistentSizes(p, forest);
    var p' := AfterPersist(p, Entries(window), dropped);
    assert p'.journal[..Before(p')] == p.journal[dropped..Before(p) + |window|];
  }

  lemma {:induction false} ForwardsCounted(records: seq<Retained>)
    ensures History.ForwardCount(HistoryRecords(records)) == |Forwards(records)|
  {
    if records != [] {
      var n := |records| - 1;
      ForwardsCounted(records[..n]);
      assert HistoryRecords(records)[..n] == HistoryRecords(records[..n]);
    }
  }

  /** Pruning the journal to 144 forward records leaves as many as the prover keeps. */
  lemma {:induction false} PrunesAlike(p: Pipeline.ProverState, forest: ForestState, a: Durable, window: seq<Payload>,
                                       bootstrap: nat, genesis: Hash)
    requires Serves(p, forest, a.h, a.records, a.chain, bootstrap, genesis) && Submitted(p, window)
    ensures var all := a.records + Interruption.Published(window);
            var durable, n := Before(p) + |window|, History.PruneCount(HistoryRecords(all), 144);
            n <= |all| && |Forwards(all[n..])| == (if durable < 144 then durable else 144)
            && CutBefore(all, n)
  {
    hide Forwards, Pipeline.Consistent, History.PruneCount, History.ForwardCount;
    WindowStretch(p, forest, window);
    var all := a.records + Interruption.Published(window);
    var n := History.PruneCount(HistoryRecords(all), 144);
    ForwardsOfPublished(a.records, window);
    assert |Entries(Forwards(a.records))| == |p.journal[..Before(p)]|;
    PruneCutsBefore(all, 144);
    History.PruneKeepsNewest(HistoryRecords(all), 144);
    assert HistoryRecords(all)[n..] == HistoryRecords(all[n..]);
    ForwardsCounted(all[n..]);
    ForwardsCounted(all);
  }

  // ----- A rollback that completes -----

  /** With the record marked, the tip out of the stores and undone in the forest, the prover stands one block lower. */
  lemma {:induction false} RollbackStands(p: Pipeline.ProverState, forest: ForestState, a: Durable, i: nat, s: Stores,
                                          forest': ForestState,
                                          h': History.HistoryState, bootstrap: nat, genesis: Hash)
    returns (p': Pipeline.ProverState, a': Durable)
    requires Standing(p, forest, a, bootstrap, genesis) && p.pending == [] && LatestForward(a.records) == Some(i)
    requires History.Rollback(a.h, h') && a.chain != [] && RolledBack(s, a.stores, a.chain)
    requires forest'.Valid() && forest'.rows == forest.rows && forest.Valid()
    requires WellFormed(a.records[i].payload.entry) ==>
               forall k :: forest'.Read(k) == Undo(forest.Read(k), TouchOf(a.records[i].payload.entry, k))
    ensures Standing(p', forest', a', bootstrap, genesis)
    ensures a' == AfterRollback(a, true, i, s, h') && p'.pending == []
    ensures |p.epochs| > 1 && |p'.epochs| > 0 && p'.epochs[|p'.epochs| - 1] == p.epochs[|p.epochs| - 2]
  {
    hide Settled, JournalFits, History.Inv, History.Rollback, NoneTaller, Pipeline.Consistent, WellFormed, TouchOf,
         Forwards, RolledBack, LatestForward,
         HistoryRecords;
    UndoneEpoch(p, forest, a.h, h', a.records, i, a.chain, bootstrap, genesis);
    FrontTip(a.stores, a.records, i, a.chain, a.base, bootstrap, genesis);
    MarkedEntries(a.records, i);
    MarkedHistory(a.records, i, a.h, h');
    MarkedNoneTaller(a.records, i, forest.rows);
    ShrunkFits(a, i, bootstrap, genesis);
    RollbackDone(s, a.stores, a.chain, bootstrap);
    a' := AfterRollback(a, true, i, s, h');
    Pipeline.RollbackReady(p, forest);
    Pipeline.RollbackConsistent(p, forest, forest');
    var e := p.journal[|p.journal| - 1];
    p' := p.(journal := p.journal[..|p.journal| - 1], epochs := p.epochs[..|p.journal|], leafData := map[],
             durableHeight := e.height - 1, durableTip := e.previousBlockHash,
             leaves := forest'.leaves, height := e.height - 1, tip := e.previousBlockHash);
    Heights(p, forest, a, s, bootstrap, genesis);
    NewStanding(p', forest', a', bootstrap, genesis);
  }

  /** The prover's height is the committed one. */
  lemma {:induction false} Heights(p: Pipeline.ProverState, forest: ForestState, a: Durable, s: Stores,
                                   bootstrap: nat, genesis: Hash)
    requires Standing(p, forest, a, bootstrap, genesis) && p.pending == [] && p.journal != []
    requires a.chain != [] && Settled(s, Front(a.chain), bootstrap)
    ensures p.height == a.stores.height == s.height + 1
  {
    hide JournalFits, History.Inv, NoneTaller, Pipeline.Linked, Pipeline.StoredAt, Pipeline.Fits,
         Pipeline.CacheAgrees, Forwards, ValidChain,
         HeaderOk, ProofOk, InOrder;
  }

  // ----- The producer, and the first prover -----

  /** Steps of the producer that leave what is durable alone. */
  ghost predicate RunsAhead(t: Threads.Threads, t': Threads.Threads) {
    || (exists b :: Threads.Begins(t, t', b))
    || Threads.LooksUp(t, t')
    || (exists e :: Threads.Plans(t, t', e))
    || Threads.Enqueues(t, t')
    || Threads.Submits(t, t')
    || Threads.Grows(t, t')
    || Threads.Discards(t, t')
  }

  /** The durable part of the prover stays as it is. */
  ghost predicate SameDurable(p: Pipeline.ProverState, p': Pipeline.ProverState) {
    && Before(p') == Before(p) && 0 <= Before(p) && Before(p) <= |p.journal| < |p.epochs|
         && |p'.journal| < |p'.epochs| && Before(p) <= |p'.journal|
    && p'.journal[..Before(p)] == p.journal[..Before(p)] && p'.epochs[Before(p)] == p.epochs[Before(p)]
         && p'.baseHeight == p.baseHeight
  }

  lemma {:induction false} AheadSameDurable(t: Threads.Threads, t': Threads.Threads)
    requires Threads.Inv(t) && RunsAhead(t, t') && 0 <= Before(t.s) <= |t.s.journal|
    ensures SameDurable(t.s, t'.s) && t'.forest.rows >= t.forest.rows
  {
    hide Threads.Layered, Threads.WorkInv, Pipeline.Linked, Pipeline.StoredAt, Pipeline.Fits, Pipeline.CacheAgrees,
         PlanOf, Threads.Pushed,
         Pipeline.NextEpoch, Threads.Fresh;
  }

  /** Whatever the producer does ahead of the worker, it goes on standing. */
  lemma {:induction false} AheadStands(t: Threads.Threads, t': Threads.Threads, a: Durable, bootstrap: nat,
                                       genesis: Hash)
    requires Threads.Inv(t) && RunsAhead(t, t') && Standing(t.s, t.forest, a, bootstrap, genesis)
    ensures Threads.Inv(t') && Standing(t'.s, t'.forest, a, bootstrap, genesis)
  {
    hide Threads.Inv, RunsAhead, Pipeline.Consistent, Settled, JournalFits, History.Inv, Forwards;
    AheadSameDurable(t, t');
    AheadKeeps(t, t');
  }

  lemma {:induction false} AheadKeeps(t: Threads.Threads, t': Threads.Threads)
    requires Threads.Inv(t) && RunsAhead(t, t')
    ensures Threads.Inv(t') && Pipeline.Consistent(t'.s, t'.forest)
  {
    hide Threads.Inv, Threads.Begins, Threads.LooksUp, Threads.Plans, Threads.Enqueues, Threads.Submits,
         Threads.Grows, Threads.Discards;
    assert Threads.ProducerStep(t, t');
    Threads.ProducerKeeps(t, t');
    ThreadsConsistent(t');
  }

  lemma {:induction false} ThreadsConsistent(t: Threads.Threads)
    requires Threads.Inv(t)
    ensures Pipeline.Consistent(t.s, t.forest)
  {
    hide Pipeline.Consistent, Threads.Layered, Threads.WorkInv;
  }

  /** A prover started on a bootstrapped forest, with no proofs yet and a new journal, stands. */
  lemma {:induction false} FirstStands(p: Pipeline.ProverState, forest: ForestState, s: Stores, bootstrap: nat)
    returns (a: Durable)
    requires Pipeline.Consistent(p, forest) && p.journal == [] && p.pending == [] && p.height == bootstrap
             && Settled(s, [], bootstrap)
    ensures a.stores == s && a.chain == [] && Standing(p, forest, a, bootstrap, p.tip) && Quiet(INITIAL, a.records)
  {
    hide Pipeline.Consistent, TouchOf;
    Pipeline.ConsistentSizes(p, forest);
    var now := p.epochs[0].read;
    a := Durable(s, [], [], 0, History.HistoryState(now, [], now));
    assert HistoryRecords([]) == [] && Entries(Forwards([])) == [];
    forall k
      ensures History.KeyInv(now(k), History.ForKey([], k), now(k))
    {
      assert History.ForKey([], k) == [];
    }
    InitialInv();
    SettledHeight(s, [], bootstrap);
    NewStanding(p, forest, a, bootstrap, p.tip);
  }
}
