/**
 From what a crash leaves in the journal's files to a running prover.

 The records a reopened journal yields are those of before the operation in flight or those of
 after it. So a crash anywhere in a persist or a rollback ends, once the journal is opened, the
 forest replayed and the stores reconciled, in a prover at the old tip or at the new one.
 */
module Reopen {
  import opened Wrappers
  import opened Forest
  import opened Entry
  import opened Ledger
  import opened Wal
  import opened ProofStore
  import opened Recovery
  import opened Interruption
  import opened Startup
  import opened Steady
  import History
  import Pipeline

  // ----- What a reopened journal yields -----

  /** The records a marker covers, as startup reads them. */
  function Under(data: seq<Slot>, m: Marker): (r: seq<Retained>)
    requires m.replayStart <= m.end && AllWritten(data, m.replayStart, m.end)
    ensures |r| == m.end - m.replayStart
  {
    seq(m.end - m.replayStart, i requires 0 <= i < m.end - m.replayStart =>
      Retained(data[m.replayStart + i].payload, data[m.replayStart + i].forward))
  }

  /** The payloads appended behind a published end. */
  function Appended(data: seq<Slot>, from: nat, to: nat): (r: seq<Payload>)
    requires from <= to && AllWritten(data, from, to)
    ensures |r| == to - from
  {
    seq(to - from, i requires 0 <= i < to - from => data[from + i].payload)
  }

  predicate Readable(data: seq<Slot>, m: Marker) {
    m.replayStart <= m.end && AllWritten(data, m.replayStart, m.end)
  }

  lemma {:induction false} InvReadable(j: Journal)
    requires Inv(j)
    ensures Readable(j.disk.data, j.marker) && (InFlight(j).Some? ==> Readable(j.disk.data, InFlight(j).value))
    ensures InFlight(j).Some? ==>
              j.marker.end <= InFlight(j).value.end && AllWritten(j.disk.data, j.marker.end, InFlight(j).value.end)
    ensures InFlight(j).Some? ==>
              j.marker.replayStart <= InFlight(j).value.replayStart < j.marker.end
              || InFlight(j).value.replayStart == j.marker.replayStart
  {
  }

  /** Opening yields the records under the marker that won, as they were; a status being written may read either way. */
  lemma {:induction false} OpenYields(j: Journal, d: Disk)
    requires Inv(j) && Crash(j, d)
    ensures var m := Winner(j, d);
            && Readable(d.data, m) && Readable(j.disk.data, m)
            && (!j.task.StatusWrite? ==> Under(d.data, m) == Under(j.disk.data, m))
            && (j.task.StatusWrite? ==>
                  && m == j.marker && j.task.index < m.end
                  && (j.task.index < m.replayStart ==> Under(d.data, m) == Under(j.disk.data, m))
                  && (j.task.index >= m.replayStart ==>
                        var i, records := j.task.index - m.replayStart, Under(j.disk.data, m);
                        exists forward :: Under(d.data, m) == records[i := Retained(records[i].payload, forward)]))
  {
    hide Inv, Crash, ReadMarker, Winner, LastPayload;
    CrashReopens(j, d);
    var m := Winner(j, d);
    InvReadable(j);
    if j.task.StatusWrite? {
      StatusMarker(j, d);
      if j.task.index >= m.replayStart {
        var i, records := j.task.index - m.replayStart, Under(j.disk.data, m);
        assert Under(d.data, m) == records[i := Retained(records[i].payload, d.data[j.task.index].forward)];
      }
    }
  }

  lemma {:induction false} StatusMarker(j: Journal, d: Disk)
    requires Inv(j) && j.task.StatusWrite?
    ensures Winner(j, d) == j.marker && j.task.index < j.marker.end
  {
  }

  /** Publishing more only appends forward records. */
  lemma {:induction false} UnderGrown(j: Journal, next: Marker)
    requires Inv(j) && InFlight(j) == Some(next) && next.replayStart == j.marker.replayStart
    ensures Readable(j.disk.data, j.marker) && Readable(j.disk.data, next) && j.marker.end <= next.end
            && AllWritten(j.disk.data, j.marker.end, next.end)
    ensures Under(j.disk.data, next)
            == Under(j.disk.data, j.marker) + Interruption.Published(Appended(j.disk.data, j.marker.end, next.end))
  {
    hide Covered, Follows;
    InvReadable(j);
  }

  /** Raising the floor only drops records in front of a forward one. */
  lemma {:induction false} UnderRaised(j: Journal, next: Marker)
    requires Inv(j) && InFlight(j) == Some(next) && next.replayStart != j.marker.replayStart
    ensures Readable(j.disk.data, j.marker) && Readable(j.disk.data, next)
            && j.marker.replayStart < next.replayStart < j.marker.end
    ensures var n, records := next.replayStart - j.marker.replayStart, Under(j.disk.data, j.marker);
            CutBefore(records, n) && Under(j.disk.data, next) == records[n..]
  {
    hide Covered, Follows;
    InvReadable(j);
    assert FloorForward(j, next);
  }

  /**
   Over every run and whatever the crash left, the reopened journal yields the published records,
   or those with the window in flight appended, or those without the prefix being pruned, or
   those with the one status in flight changed back.
   */
  lemma {:induction false} EveryOpenYields(run: seq<Journal>, d: Disk)
    requires IsRun(run) && Crash(run[|run| - 1], d)
    ensures var j, m := run[|run| - 1], Winner(run[|run| - 1], d);
            && Opens(d, m) && Readable(d.data, m) && Readable(j.disk.data, j.marker)
            && var before, after := Under(j.disk.data, j.marker), Under(d.data, m);
            || after == before
            || (exists window :: after == before + Interruption.Published(window))
            || (exists n: nat :: n < |before| && CutBefore(before, n) && after == before[n..])
            || (exists i: nat :: j.task == StatusWrite(j.marker.replayStart + i) && i < |before|
                 && after == before[i := Retained(before[i].payload, true)])
  {
    hide Inv, Step, Crash, Winner, Opens, KeepsPublished, CutBefore;
    var j, m := run[|run| - 1], Winner(run[|run| - 1], d);
    RunKeepsPublished(run, |run| - 1, |run| - 1);
    CrashReopens(j, d);
    OpenYields(j, d);
    InvReadable(j);
    var before := Under(j.disk.data, j.marker);
    if m != j.marker {
      if m.replayStart == j.marker.replayStart { UnderGrown(j, m); } else { UnderRaised(j, m); }
    } else if j.task.StatusWrite? && j.task.index >= m.replayStart {
      var i := j.task.index - m.replayStart;
      var forward :| Under(d.data, m) == before[i := Retained(before[i].payload, forward)];
      if !forward { StatusWritten(j); assert Under(d.data, m) == before; }
    }
  }

  lemma {:induction false} StatusWritten(j: Journal)
    requires Inv(j) && j.task.StatusWrite? && j.task.index >= j.marker.replayStart
    ensures Readable(j.disk.data, j.marker) && j.task.index < j.marker.end
            && !Under(j.disk.data, j.marker)[j.task.index - j.marker.replayStart].forward
  {
  }

  // ----- A crash in a persist -----

  /** Where a persist is: publishing its window, writing the stores, or pruning behind them. */
  datatype Phase = Publishing | Storing(written: nat) | Dropping

  /** The journal in a persist that found `records` published and publishes `window`. */
  ghost predicate JournalIn(phase: Phase, j: Journal, records: seq<Retained>, window: seq<Payload>) {
    && Inv(j) && Readable(j.disk.data, j.marker) && !j.task.StatusWrite?
    && match phase
       case Publishing =>
         && records == Under(j.disk.data, j.marker) && !j.task.Punching?
              && (j.task.Marking? ==> j.task.after == Wal.Published)
         && (j.task.Flushing? ==> Captured(j, j.task.boundary.end, window))
         && (match InFlight(j)
             case None => true
             case Some(next) => next.replayStart == j.marker.replayStart && Captured(j, next.end, window))
       case Storing(_) =>
         j.task == Idle && Under(j.disk.data, j.marker) == records + Interruption.Published(window)
       case Dropping =>
         && !j.task.Flushing? && (j.task.Marking? ==> j.task.after != Wal.Published)
         && (exists n: nat :: n <= |records| + |window| && DroppedTo(j, records + Interruption.Published(window), n))
         && (match InFlight(j) case None => true case Some(next) => next.end == j.marker.end)
  }

  /** The window is what was appended behind the published end, up to the captured boundary. */
  ghost predicate Captured(j: Journal, end: nat, window: seq<Payload>) {
    j.marker.end <= end && AllWritten(j.disk.data, j.marker.end, end)
        && window == Appended(j.disk.data, j.marker.end, end)
  }

  ghost predicate DroppedTo(j: Journal, all: seq<Retained>, n: nat)
    requires Readable(j.disk.data, j.marker) && n <= |all|
  {
    CutBefore(all, n) && Under(j.disk.data, j.marker) == all[n..]
  }

  /** The stores and the forest in each phase. */
  ghost predicate StoresIn(phase: Phase, s: Stores, s0: Stores, forest: ForestState, states: seq<History.HistoryState>,
                           chain: seq<Payload>, window: seq<Payload>, bootstrap: nat) {
    && |states| == |window| + 1 && forest.Valid()
    && match phase
       case Publishing => s == s0 && forall k :: forest.Read(k) == states[0].now(k)
       case Storing(v) =>
         && PersistStopped(s, s0, window, v)
         && ((forall i :: 0 <= i < |window| ==> WellFormed(Entries(window)[i])) ==>
               DiffersOnlyWhereTouched(ReadsOf(forest), states[0].now, Entries(window)))
       case Dropping =>
         Settled(s, chain + window, bootstrap) && forall k :: forest.Read(k) == states[|window|].now(k)
  }

  /** What startup finds after a crash in each phase. */
  predicate Finds(phase: Phase, stop: PersistStop, records: seq<Retained>, window: seq<Payload>) {
    match phase
    case Publishing => stop == Unpublished || stop == Persisting(0)
    case Storing(v) => stop == Persisting(v)
    case Dropping =>
      && stop.Pruning? && stop.dropped <= |records| + |window|
      && CutBefore(records + Interruption.Published(window), stop.dropped)
  }

  lemma {:induction false} CrashStops(phase: Phase, j: Journal, d: Disk, records: seq<Retained>, window: seq<Payload>)
    returns (stop: PersistStop)
    requires JournalIn(phase, j, records, window) && Crash(j, d)
    ensures Opens(d, Winner(j, d)) && Readable(d.data, Winner(j, d)) && Finds(phase, stop, records, window)
    ensures Under(d.data, Winner(j, d)) == RecordsAt(stop, records, window)
  {
    hide Inv, Crash, Winner, Opens, KeepsPublished, CutBefore;
    var m := Winner(j, d);
    CrashReopens(j, d);
    OpenYields(j, d);
    match phase
    case Publishing =>
      stop := if m == j.marker then Unpublished else Persisting(0);
      if m != j.marker { UnderGrown(j, m); }
    case Storing(v) =>
      stop := Persisting(v);
    case Dropping =>
      var all := records + Interruption.Published(window);
      var n: nat :| n <= |all| && DroppedTo(j, all, n);
      stop := Pruning(n);
      if m != j.marker {
        var more := DroppedMore(j, m, all, n);
        stop := Pruning(n + more);
      }
  }

  /** A floor raised further drops records of what was left. */
  lemma {:induction false} DroppedMore(j: Journal, m: Marker, all: seq<Retained>, n: nat) returns (more: nat)
    requires Inv(j) && Readable(j.disk.data, j.marker) && Readable(j.disk.data, m) && InFlight(j) == Some(m)
             && m.end == j.marker.end
    requires n <= |all| && DroppedTo(j, all, n)
    ensures n + more <= |all| && CutBefore(all, n + more) && Under(j.disk.data, m) == all[n + more..]
  {
    hide Inv;
    more := 0;
    if m.replayStart == j.marker.replayStart {
      UnderGrown(j, m);
      assert Under(j.disk.data, m) == Under(j.disk.data, j.marker);
    } else {
      UnderRaised(j, m);
      more := m.replayStart - j.marker.replayStart;
      assert all[n..][more..] == all[n + more..];
    }
  }

  lemma {:induction false} PhaseInterrupted(phase: Phase, stop: PersistStop, s: Stores, s0: Stores,
                                            forest: ForestState, states: seq<History.HistoryState>,
                                            records: seq<Retained>, chain: seq<Payload>, window: seq<Payload>,
                                            bootstrap: nat)
    requires Finds(phase, stop, records, window) && StoresIn(phase, s, s0, forest, states, chain, window, bootstrap)
    requires AppendAll(states, Entries(window))
    ensures PersistInterrupted(stop, s, s0, forest, states, records, chain, window, bootstrap)
  {
    hide Settled, CutBefore, AppendAll, TouchOf, WellFormed;
    if phase.Publishing? && stop == Persisting(0) {
      assert PersistStopped(s, s0, window, 0);
    }
  }

  lemma {:induction false} NoneTallerAt(stop: PersistStop, records: seq<Retained>, window: seq<Payload>, rows: nat)
    requires NoneTaller(HistoryRecords(records + Interruption.Published(window)), rows)
    requires stop.Pruning? ==> stop.dropped <= |records + Interruption.Published(window)|
    ensures NoneTaller(HistoryRecords(RecordsAt(stop, records, window)), rows)
  {
    var all, found := records + Interruption.Published(window), RecordsAt(stop, records, window);
    var from := if stop.Pruning? then stop.dropped else 0;
    assert forall i :: 0 <= i < |found| ==> HistoryRecords(found)[i] == HistoryRecords(all)[from + i];
  }

  /** Some record is left unless nothing was ever published. */
  lemma {:induction false} SomeLeft(phase: Phase, stop: PersistStop, records: seq<Retained>, window: seq<Payload>)
    requires Finds(phase, stop, records, window) && window != []
    ensures RecordsAt(stop, records, window) == [] ==> stop == Unpublished && phase.Publishing? && records == []
  {
  }

  /** A journal with nothing going on that has these records published. */
  ghost predicate Quiet(j: Journal, records: seq<Retained>) {
    Inv(j) && j.task == Idle && Readable(j.disk.data, j.marker) && records == Under(j.disk.data, j.marker)
  }

  /** Whatever a crash left opens, with nothing going on. */
  method OpenJournal(d: Disk, ghost j: Journal) returns (journal: Journal, records: seq<Retained>)
    requires Inv(j) && Crash(j, d)
    ensures Readable(d.data, Winner(j, d)) && records == Under(d.data, Winner(j, d)) && Quiet(journal, records)
            && !journal.poisoned
  {
    hide Inv, Crash, Winner;
    CrashReopens(j, d);
    OpenYields(j, d);
    var found := Open(d);
    journal := found.value;
    InvReadable(journal);
    records := Under(journal.disk.data, journal.marker);
    assert records == Under(d.data, journal.marker);
  }

  /** Whatever a crash in a persist left on disk opens, and startup ends at exactly the old or exactly the new tip. */
  method ReopenAfterPersist(d: Disk, s: Stores, proofs: ProofFile, acc: SteadyStateForest, bootstrap: nat,
                            tipFromNode: Hash,
                            ghost phase: Phase, ghost j: Journal, ghost s0: Stores, ghost records0: seq<Retained>,
                                ghost window: seq<Payload>,
                            ghost chain: seq<Payload>, ghost base: nat, ghost genesis: Hash,
                                ghost states: seq<History.HistoryState>)
    returns (journal: Journal, records: seq<Retained>, r: Stores, tip: Hash, ghost stop: PersistStop,
             ghost base': nat, ghost h: History.HistoryState)
    requires JournalIn(phase, j, records0, window) && Crash(j, d)
    requires StoresIn(phase, s, s0, acc.State(), states, chain, window, bootstrap) && AppendAll(states, Entries(window))
    requires Settled(s0, chain, bootstrap) && JournalFits(records0, chain, base, bootstrap, genesis)
    requires Interruption.Extends(records0, chain, window, bootstrap, genesis)
    requires History.Inv(states[0]) && states[0].records == HistoryRecords(records0)
    requires NoneTaller(HistoryRecords(records0 + Interruption.Published(window)), acc.rows)
    requires proofs.Valid() && proofs.bytes == s.file
    requires phase.Publishing? && records0 == [] ==> tipFromNode == TipHash(chain, genesis)
    modifies proofs, acc
    ensures Finds(phase, stop, records0, window) && records == RecordsAt(stop, records0, window)
    ensures proofs.Valid() && proofs.bytes == r.file && acc.Valid() && acc.rows == old(acc.rows)
    ensures Settled(r, ChainAt(stop, chain, window), bootstrap) && tip == TipHash(ChainAt(stop, chain, window), genesis)
    ensures forall k :: acc.State().Read(k) == StateAt(stop, states)(k)
    ensures JournalFits(records, ChainAt(stop, chain, window), base', bootstrap, genesis)
    ensures History.Inv(h) && h.records == HistoryRecords(records) && forall k :: h.now(k) == StateAt(stop, states)(k)
    ensures Quiet(journal, records)
  {
    hide Inv, Crash, Winner, JournalIn, StoresIn, Settled, JournalFits, Interruption.Extends, History.Inv,
         PersistInterrupted, NoneTaller, CutBefore, AppendAll, Quiet;
    InPhase(phase, j, records0, window);
    stop := CrashStops(phase, j, d, records0, window);
    PhaseInterrupted(phase, stop, s, s0, acc.State(), states, records0, chain, window, bootstrap);
    NoneTallerAt(stop, records0, window, acc.rows);
    assert window != [] by { WindowNotEmpty(records0, chain, window, bootstrap, genesis); }
    SomeLeft(phase, stop, records0, window);
    journal, records := OpenJournal(d, j);
    r, tip, base',
        h := RestartAfterPersist(s, records, proofs, acc, bootstrap, tipFromNode, stop, s0, records0, window, chain,
        base, genesis, states);
  }

  lemma {:induction false} InPhase(phase: Phase, j: Journal, records: seq<Retained>, window: seq<Payload>)
    requires JournalIn(phase, j, records, window)
    ensures Inv(j)
  {
  }

  lemma {:induction false} WindowNotEmpty(records: seq<Retained>, chain: seq<Payload>, window: seq<Payload>,
                                          bootstrap: nat, genesis: Hash)
    requires Interruption.Extends(records, chain, window, bootstrap, genesis)
    ensures window != []
  {
  }

  // ----- Back to a running prover -----

  /** How many of a prover's blocks were durable when the worker took its window. */
  function Before(p: Pipeline.ProverState): int {
    |p.journal| - |p.pending|
  }

  /** The prover that stopped: its durable blocks are the journal's forward records, the window is what it submitted. */
  ghost predicate Serves(p: Pipeline.ProverState, forest: ForestState, h: History.HistoryState,
                         records: seq<Retained>, chain: seq<Payload>,
                         bootstrap: nat, genesis: Hash) {
    && Pipeline.Consistent(p, forest) && 0 <= Before(p) <= |p.journal| < |p.epochs|
    && Entries(Forwards(records)) == p.journal[..Before(p)]
    && p.baseHeight + Before(p) == bootstrap + |chain| && p.epochs[Before(p)].tip == TipHash(chain, genesis)
    && h.records == HistoryRecords(records) && forall k :: h.now(k) == p.epochs[Before(p)].read(k)
  }

  /** What is durable: the stores, the journal's records, and the chain and history they stand for. */
  datatype Durable = Durable(stores: Stores, records: seq<Retained>, chain: seq<Payload>, base: nat,
                             h: History.HistoryState)

  /** A prover over settled stores and a journal that fits them; its forest, chain of states and history agree. */
  ghost predicate Standing(p: Pipeline.ProverState, forest: ForestState, a: Durable, bootstrap: nat, genesis: Hash) {
    && Serves(p, forest, a.h, a.records, a.chain, bootstrap, genesis) && History.Inv(a.h)
         && NoneTaller(a.h.records, forest.rows)
    && Settled(a.stores, a.chain, bootstrap) && JournalFits(a.records, a.chain, a.base, bootstrap, genesis)
  }

  /** The submitted blocks were planned for this file. */
  lemma {:induction false} WindowNoneTaller(p: Pipeline.ProverState, forest: ForestState, a: Durable,
                                            window: seq<Payload>, bootstrap: nat, genesis: Hash)
    requires Standing(p, forest, a, bootstrap, genesis) && Submitted(p, window)
    ensures NoneTaller(HistoryRecords(a.records + Interruption.Published(window)), forest.rows)
  {
    hide Pipeline.Linked, Pipeline.StoredAt, Pipeline.CacheAgrees, Settled, JournalFits, History.Inv, Forwards;
    WindowStretch(p, forest, window);
    var all := a.records + Interruption.Published(window);
    forall i | 0 <= i < |all|
      ensures match HistoryRecords(all)[i].entry.forestRows case Some(r) => r <= forest.rows case None => true
    {
      if i < |a.records| {
        assert HistoryRecords(all)[i] == a.h.records[i];
      } else {
        var k := i - |a.records|;
        assert HistoryRecords(all)[i].entry == Entries(window)[k] == p.journal[Before(p) + k];
      }
    }
  }

  ghost predicate Submitted(p: Pipeline.ProverState, window: seq<Payload>) {
    && p.inflight.Some? && !p.inflight.value.applied && Entries(window) == p.inflight.value.blocks
    && 0 <= Before(p) && Before(p) + |window| <= |p.journal| < |p.epochs|
  }

  /** The histories after each block of the window. */
  ghost function StatesOf(p: Pipeline.ProverState, h: History.HistoryState,
                          window: seq<Payload>): (r: seq<History.HistoryState>)
    requires 0 <= Before(p) && Before(p) + |window| < |p.epochs|
    ensures |r| == |window| + 1
  {
    seq(|window| + 1, i requires 0 <= i < |window| + 1 =>
      if i == 0 then h
      else History.HistoryState(h.base, h.records + HistoryRecords(Interruption.Published(window[..i])),
          p.epochs[Before(p) + i].read))
  }

  lemma {:induction false} StatesAppend(p: Pipeline.ProverState, forest: ForestState, h: History.HistoryState,
                                        records: seq<Retained>,
                                        chain: seq<Payload>, window: seq<Payload>, bootstrap: nat, genesis: Hash)
    requires Serves(p, forest, h, records, chain, bootstrap, genesis) && Submitted(p, window)
    ensures AppendAll(StatesOf(p, h, window), Entries(window))
  {
    hide WellFormed, TouchOf, StartsAt, Pipeline.StoredAt, Pipeline.Fits, Pipeline.CacheAgrees, Pipeline.Represents,
         EntryForestSorted, Forwards;
    var states, first := StatesOf(p, h, window), Before(p);
    forall i | 0 <= i < |window|
      ensures History.Append(states[i], states[i + 1], Entries(window)[i])
    {
      assert Entries(window)[i] == p.journal[first + i];
      assert Pipeline.Extends(p.epochs[first + i], p.journal[first + i], p.epochs[first + i + 1]);
      assert forall k :: states[i].now(k) == p.epochs[first + i].read(k);
      assert HistoryRecords(Interruption.Published(window[..i + 1]))
          == HistoryRecords(Interruption.Published(window[..i])) + [History.Record(window[i].entry, true)];
    }
  }

  /** The entries of what is found are a stretch of the stopped prover's journal. */
  lemma {:induction false} FoundStretch(p: Pipeline.ProverState, stop: PersistStop, records: seq<Retained>,
                                        window: seq<Payload>) returns (a: nat, b: nat)
    requires 0 <= Before(p) <= |p.journal| && Entries(Forwards(records)) == p.journal[..Before(p)]
    requires Before(p) + |window| <= |p.journal| && Entries(window) == p.journal[Before(p)..Before(p) + |window|]
    requires stop.Pruning? ==> stop.dropped <= |records + Interruption.Published(window)|
    ensures b == EndOf(p, stop, window) && a <= b
    ensures Entries(Forwards(RecordsAt(stop, records, window))) == p.journal[a..b]
  {
    hide Forwards;
    a, b := 0, EndOf(p, stop, window);
    var all := records + Interruption.Published(window);
    if stop != Unpublished {
      ForwardsOfPublished(records, window);
      assert Entries(Forwards(all)) == p.journal[..b];
      if stop.Pruning? {
        ForwardsSplit(all, stop.dropped);
        a := |Forwards(all[..stop.dropped])|;
      }
    }
  }

  /** The number of the stopped prover's blocks that are there after the restart. */
  function EndOf(p: Pipeline.ProverState, stop: PersistStop, window: seq<Payload>): nat
    requires 0 <= Before(p)
  {
    if stop == Unpublished then Before(p) else Before(p) + |window|
  }

  lemma {:induction false} WindowStretch(p: Pipeline.ProverState, forest: ForestState, window: seq<Payload>)
    requires Pipeline.Consistent(p, forest) && Submitted(p, window)
    ensures Entries(window) == p.journal[Before(p)..Before(p) + |window|]
  {
    hide Pipeline.Linked, Pipeline.StoredAt, Pipeline.Fits, Pipeline.CacheAgrees;
  }

  /** A stretch of a prover's chain is what a new prover may start from. */
  lemma {:induction false} StretchStarts(p: Pipeline.ProverState, forest: ForestState, a: nat, b: nat)
    requires Pipeline.Consistent(p, forest) && a <= b <= |p.journal| < |p.epochs|
    ensures Pipeline.Linked(p.epochs[a..b + 1], p.journal[a..b], p.baseHeight + a)
    ensures Pipeline.Fits(p.journal[a..b], p.epochs[a..b + 1], b - a, forest.rows)
  {
    hide Pipeline.Linked, Pipeline.StoredAt, Pipeline.Fits, Pipeline.CacheAgrees, Pipeline.Queues;
    Pipeline.LinkedSizes(p.epochs, p.journal, p.baseHeight);
    Pipeline.QueueSizes(p.journal, p.pending, p.window, p.submitted, p.inflight);
    Pipeline.LinkedPrefix(p.epochs, p.journal, p.baseHeight, b);
    Pipeline.LinkedSuffix(p.epochs[..b + 1], p.journal[..b], p.baseHeight, a);
    Pipeline.FitsPrefix(p.journal, p.epochs, |p.journal| - |p.pending|, forest.rows, b);
    Pipeline.FitsSuffix(p.journal[..b], p.epochs[..b + 1], b, forest.rows, a);
    assert p.epochs[..b + 1][a..] == p.epochs[a..b + 1] && p.journal[..b][a..] == p.journal[a..b];
  }

  /** The tip of the chain after the restart is the tip of that state. */
  lemma {:induction false} TipOfEnd(p: Pipeline.ProverState, forest: ForestState, stop: PersistStop,
                                    h: History.HistoryState, records: seq<Retained>,
                                    chain: seq<Payload>, window: seq<Payload>, bootstrap: nat, genesis: Hash)
    requires Serves(p, forest, h, records, chain, bootstrap, genesis) && Submitted(p, window) && window != []
    ensures p.epochs[EndOf(p, stop, window)].tip == TipHash(ChainAt(stop, chain, window), genesis)
    ensures p.baseHeight + EndOf(p, stop, window) == bootstrap + |ChainAt(stop, chain, window)|
  {
    hide Pipeline.StoredAt, Pipeline.Fits, Pipeline.CacheAgrees, Pipeline.Represents, WellFormed, TouchOf, StartsAt,
         EntryForestSorted, Forwards;
    if stop != Unpublished {
      WindowStretch(p, forest, window);
      var i := Before(p) + |window| - 1;
      assert p.journal[i] == Entries(window)[|window| - 1];
      assert Pipeline.Extends(p.epochs[i], p.journal[i], p.epochs[i + 1]);
    }
  }

  /** A standing prover has submitted a window; journal, stores and forest are where its persist has brought them. */
  ghost predicate PersistingIn(phase: Phase, j: Journal, s: Stores, forest: ForestState, window: seq<Payload>,
                               p: Pipeline.ProverState, forest0: ForestState, a: Durable, bootstrap: nat,
                               genesis: Hash) {
    && Standing(p, forest0, a, bootstrap, genesis) && Submitted(p, window) && forest.rows == forest0.rows
    && Interruption.Extends(a.records, a.chain, window, bootstrap, genesis)
    && JournalIn(phase, j, a.records, window)
    && StoresIn(phase, s, a.stores, forest, StatesOf(p, a.h, window), a.chain, window, bootstrap)
  }

  /**
   The new prover is at the old one's state before its window, or after it, with the journal and
   chain of that stop.
   */
  ghost predicate StandsAfter(stop: PersistStop, window: seq<Payload>, p: Pipeline.ProverState, a: Durable,
                              p': Pipeline.ProverState, a': Durable) {
    && 0 <= Before(p) && EndOf(p, stop, window) < |p.epochs| && 0 < |p'.epochs|
    && p'.epochs[|p'.epochs| - 1] == p.epochs[EndOf(p, stop, window)]
    && (stop.Pruning? ==> stop.dropped <= |a.records + Interruption.Published(window)|)
    && a'.records == RecordsAt(stop, a.records, window) && a'.chain == ChainAt(stop, a.chain, window)
  }

  /**
   A process that stops anywhere in a persist, with its files in any state a crash can leave, comes
   back as a prover at the state before the submitted window or at the state after it, standing on
   settled stores and a quiet journal as before: the next window or rollback may begin.
   */
  method RecoverProver(d: Disk, s: Stores, proofs: ProofFile, acc: SteadyStateForest, bootstrap: nat,
                       tipFromNode: Hash, ghost genesis: Hash,
                       ghost phase: Phase, ghost j: Journal, ghost window: seq<Payload>,
                       ghost p: Pipeline.ProverState, ghost forest0: ForestState, ghost a: Durable)
    returns (prover: Pipeline.FlatFileProver, journal: Journal, ghost stop: PersistStop, ghost a': Durable)
    requires PersistingIn(phase, j, s, acc.State(), window, p, forest0, a, bootstrap, genesis) && Crash(j, d)
    requires proofs.Valid() && proofs.bytes == s.file
    requires phase.Publishing? && a.records == [] ==> tipFromNode == TipHash(a.chain, genesis)
    modifies proofs, acc
    ensures Finds(phase, stop, a.records, window) && StandsAfter(stop, window, p, a, prover.Snap(), a')
    ensures fresh(prover) && prover.acc == acc && prover.Valid() && prover.pending == []
    ensures Standing(prover.Snap(), acc.State(), a', bootstrap, genesis) && Quiet(journal, a'.records)
    ensures proofs.Valid() && proofs.bytes == a'.stores.file
  {
    hide Inv, Crash, JournalIn, StoresIn, Settled, JournalFits, Interruption.Extends, History.Inv, NoneTaller,
         CutBefore, AppendAll,
         Pipeline.Consistent, Pipeline.Linked, Pipeline.Fits, Forwards, Quiet, HistoryRecords;
    StatesAppend(p, forest0, a.h, a.records, a.chain, window, bootstrap, genesis);
    WindowNoneTaller(p, forest0, a, window, bootstrap, genesis);
    var records, r, tip;
    ghost var base', h';
    journal, records, r, tip, stop, base',
        h' := ReopenAfterPersist(d, s, proofs, acc, bootstrap, tipFromNode, phase, j, a.stores, a.records, window,
                                                                    a.chain, a.base, genesis, StatesOf(p, a.h, window));
    a' := Durable(r, records, ChainAt(stop, a.chain, window), base', h');
    WindowStretch(p, forest0, window);
    WindowNotEmpty(a.records, a.chain, window, bootstrap, genesis);
    NoneTallerAt(stop, a.records, window, forest0.rows);
    ghost var from, to := FoundStretch(p, stop, a.records, window);
    StretchStarts(p, forest0, from, to);
    TipOfEnd(p, forest0, stop, a.h, a.records, a.chain, window, bootstrap, genesis);
    SettledHeight(r, a'.chain, bootstrap);
    prover := new Pipeline.FlatFileProver(acc, Entries(Forwards(records)), r.height, tip, p.epochs[from..to + 1]);
    NewStanding(prover.Snap(), acc.State(), a', bootstrap, genesis);
  }

  /** A prover with nothing pending, built from the journal's forward records at the state of the history. */
  lemma {:induction false} NewStanding(p: Pipeline.ProverState, forest: ForestState, a: Durable, bootstrap: nat,
                                       genesis: Hash)
    requires Pipeline.Consistent(p, forest) && p.pending == [] && p.journal == Entries(Forwards(a.records))
             && p.height == a.stores.height
    requires |p.epochs| == |p.journal| + 1 && p.epochs[|p.journal|].tip == TipHash(a.chain, genesis)
    requires a.h.records == HistoryRecords(a.records) && forall k :: a.h.now(k) == p.epochs[|p.journal|].read(k)
    requires History.Inv(a.h) && NoneTaller(a.h.records, forest.rows) && Settled(a.stores, a.chain, bootstrap)
    requires JournalFits(a.records, a.chain, a.base, bootstrap, genesis)
    ensures Standing(p, forest, a, bootstrap, genesis)
  {
    hide Pipeline.Linked, Pipeline.StoredAt, Pipeline.Fits, Pipeline.CacheAgrees, Pipeline.Queues, History.Inv,
         NoneTaller, JournalFits, Settled, Forwards;
    SettledHeight(a.stores, a.chain, bootstrap);
    assert p.journal[..|p.journal|] == p.journal;
  }

  lemma {:induction false} SettledHeight(s: Stores, chain: seq<Payload>, bootstrap: nat)
    requires Settled(s, chain, bootstrap)
    ensures s.height == bootstrap + |chain|
  {
  }

  // ----- A crash in a rollback -----

  /**
   Marking the latest forward record of `records` back: its status is being written, or is flushed
   and the undo goes on.
   */
  ghost predicate RollbackIn(flushed: bool, j: Journal, records: seq<Retained>, i: nat, s: Stores, s0: Stores,
                             chain: seq<Payload>,
                             forest: ForestState, h: History.HistoryState) {
    && Inv(j) && Readable(j.disk.data, j.marker) && LatestForward(records) == Some(i) && forest.Valid() && chain != []
    && Under(j.disk.data, j.marker) == MarkedBack(records, i)
    && if flushed then
         !j.task.StatusWrite? && InFlight(j) == None && RollbackStopped(s, s0, chain)
             && UndoInterrupted(forest, records[i].payload.entry, h)
       else
         j.task == StatusWrite(j.marker.replayStart + i) && s == s0 && forall k :: forest.Read(k) == h.now(k)
  }

  lemma {:induction false} StatusFound(flushed: bool, j: Journal, d: Disk, records: seq<Retained>, i: nat, s: Stores,
                                       s0: Stores, chain: seq<Payload>,
                                       forest: ForestState, h: History.HistoryState) returns (marked: bool)
    requires RollbackIn(flushed, j, records, i, s, s0, chain, forest, h) && Crash(j, d)
    ensures Opens(d, Winner(j, d)) && Readable(d.data, Winner(j, d)) && (flushed ==> marked)
    ensures Under(d.data, Winner(j, d)) == if marked then MarkedBack(records, i) else records
  {
    hide Inv, Crash, Opens, KeepsPublished, RollbackStopped, UndoInterrupted;
    CrashReopens(j, d);
    OpenYields(j, d);
    marked := true;
    if !flushed {
      var back := MarkedBack(records, i);
      var forward :| Under(d.data, j.marker) == back[i := Retained(back[i].payload, forward)];
      marked := !forward;
      assert back[i := Retained(back[i].payload, false)] == back
          && back[i := Retained(back[i].payload, true)] == records;
    }
  }

  /** A status write that reached the disk is a rollback stopped before anything else. */
  lemma {:induction false} MarkedOnly(s: Stores, chain: seq<Payload>, bootstrap: nat)
    requires Settled(s, chain, bootstrap) && chain != []
    ensures RollbackStopped(s, s, chain)
  {
    hide InOrder, ProofOk, ValidChain;
    assert HeaderOk(s.headerAt, s.heightOf, chain[|chain| - 1]);
  }

  lemma {:induction false} NotYetUndone(forest: ForestState, e: JournalEntry, h: History.HistoryState)
    requires forest.Valid() && forall k :: forest.Read(k) == h.now(k)
    ensures UndoInterrupted(forest, e, h)
  {
    hide TouchOf, WellFormed;
  }

  lemma {:induction false} MarkedNoneTaller(records: seq<Retained>, i: nat, rows: nat)
    requires i < |records| && NoneTaller(HistoryRecords(records), rows)
    ensures NoneTaller(HistoryRecords(MarkedBack(records, i)), rows)
  {
    forall k | 0 <= k < |records|
      ensures HistoryRecords(MarkedBack(records, i))[k].entry == HistoryRecords(records)[k].entry
    {
    }
  }

  /**
   Whatever a crash in a rollback left on disk opens, and startup ends at exactly the old tip or
   exactly the one below.
   */
  method ReopenAfterRollback(d: Disk, s: Stores, proofs: ProofFile, acc: SteadyStateForest, bootstrap: nat,
                             tipFromNode: Hash,
                             ghost flushed: bool, ghost j: Journal, ghost s0: Stores, ghost records0: seq<Retained>,
                                 ghost i: nat,
                             ghost chain: seq<Payload>, ghost base: nat, ghost genesis: Hash,
                                 ghost h: History.HistoryState, ghost h': History.HistoryState)
    returns (journal: Journal, records: seq<Retained>, r: Stores, tip: Hash, ghost marked: bool)
    requires acc.Valid() && RollbackIn(flushed, j, records0, i, s, s0, chain, acc.State(), h) && Crash(j, d)
    requires Settled(s0, chain, bootstrap) && JournalFits(records0, chain, base, bootstrap, genesis)
    requires History.Inv(h) && h.records == HistoryRecords(records0) && History.Rollback(h, h')
    requires NoneTaller(HistoryRecords(records0), acc.rows)
    requires proofs.Valid() && proofs.bytes == s.file
    modifies proofs, acc
    ensures (flushed ==> marked) && i < |records0| && records == if marked then MarkedBack(records0, i) else records0
    ensures proofs.Valid() && proofs.bytes == r.file && acc.Valid() && acc.rows == old(acc.rows)
    ensures chain != [] && Settled(r, if marked then Front(chain) else chain, bootstrap)
            && tip == TipHash(if marked then Front(chain) else chain, genesis)
    ensures forall k :: acc.State().Read(k) == (if marked then h' else h).now(k)
    ensures Quiet(journal, records)
  {
    hide Inv, Crash, Winner, Settled, JournalFits, History.Inv, History.Rollback, LatestForward, RollbackStopped,
         UndoInterrupted, Quiet;
    marked := StatusFound(flushed, j, d, records0, i, s, s0, chain, acc.State(), h);
    if !flushed {
      MarkedOnly(s, chain, bootstrap);
      NotYetUndone(acc.State(), records0[i].payload.entry, h);
    }
    journal, records := OpenJournal(d, j);
    assert NoneTaller(HistoryRecords(records), acc.rows) by { MarkedNoneTaller(records0, i, acc.rows); }
    r, tip := RestartAfterRollback(s, records, proofs, acc, bootstrap, tipFromNode, marked, s0, records0, i, chain,
        base, genesis, h, h');
  }

  /** The state below the tip, from undoing the tip's block. */
  lemma {:induction false} UndoneEpoch(p: Pipeline.ProverState, forest: ForestState, h: History.HistoryState,
                                       h': History.HistoryState,
                                       records: seq<Retained>, i: nat, chain: seq<Payload>, bootstrap: nat,
                                       genesis: Hash)
    requires Serves(p, forest, h, records, chain, bootstrap, genesis) && p.pending == []
    requires LatestForward(records) == Some(i) && History.Rollback(h, h')
    ensures p.journal != [] && p.journal[|p.journal| - 1] == records[i].payload.entry
    ensures p.journal[|p.journal| - 1].previousBlockHash == p.epochs[|p.journal| - 1].tip
    ensures forall k :: h'.now(k) == p.epochs[|p.journal| - 1].read(k)
  {
    hide WellFormed, TouchOf, StartsAt, Pipeline.StoredAt, Pipeline.Fits, Pipeline.CacheAgrees, Pipeline.Represents,
         EntryForestSorted,
         Forwards, LatestForward, History.LatestForward;
    LatestIsLast(records);
    SameLatest(records);
    var n, e := |p.journal| - 1, records[i].payload.entry;
    assert Entries(Forwards(records))[n] == e;
    assert p.journal[..|p.journal|] == p.journal;
    assert Pipeline.Extends(p.epochs[n], p.journal[n], p.epochs[n + 1]);
    forall k
      ensures h'.now(k) == p.epochs[n].read(k)
    {
      UndoRedo(e, k, p.epochs[n].read(k));
    }
  }

  /** The forward records after the rollback, and after none. */
  lemma {:induction false} MarkedEntries(records: seq<Retained>, i: nat)
    requires LatestForward(records) == Some(i)
    ensures Forwards(records) != []
            && Entries(Forwards(MarkedBack(records, i))) == Entries(Forwards(records))[..|Forwards(records)| - 1]
  {
    hide Forwards, LatestForward;
    ForwardsMarkedBack(records, i);
  }

  lemma {:induction false} FrontTip(s: Stores, records: seq<Retained>, i: nat, chain: seq<Payload>, base: nat,
                                    bootstrap: nat, genesis: Hash)
    requires Settled(s, chain, bootstrap) && JournalFits(records, chain, base, bootstrap, genesis)
             && LatestForward(records) == Some(i)
    ensures chain != [] && records[i].payload.entry.previousBlockHash == TipHash(Front(chain), genesis)
  {
    hide Forwards, LatestForward, HeaderOk, ProofOk, InOrder, PayloadOk;
    JournalShrinks(records, i, chain, base, bootstrap, genesis);
  }

  /** What is durable after the rollback, if it was marked, or as before. */
  ghost function AfterRollback(a: Durable, marked: bool, i: nat, r: Stores, h': History.HistoryState): Durable
    requires a.chain != [] && i < |a.records|
  {
    if marked then Durable(r, MarkedBack(a.records, i), Front(a.chain), a.base, h') else a.(stores := r)
  }

  /**
   A process that stops anywhere in a rollback comes back as a prover at the tip's state or at the one
   below, standing on settled stores and a quiet journal.
   */
  method RecoverProverAfterRollback(d: Disk, s: Stores, proofs: ProofFile, acc: SteadyStateForest, bootstrap: nat,
                                    tipFromNode: Hash, ghost genesis: Hash,
                                    ghost flushed: bool, ghost j: Journal, ghost i: nat,
                                        ghost p: Pipeline.ProverState, ghost forest0: ForestState,
                                    ghost a: Durable, ghost h': History.HistoryState)
    returns (prover: Pipeline.FlatFileProver, journal: Journal, ghost marked: bool, ghost a': Durable)
    requires Standing(p, forest0, a, bootstrap, genesis) && p.pending == [] && acc.Valid() && acc.rows == forest0.rows
    requires RollbackIn(flushed, j, a.records, i, s, a.stores, a.chain, acc.State(), a.h) && Crash(j, d)
             && History.Rollback(a.h, h')
    requires proofs.Valid() && proofs.bytes == s.file
    modifies proofs, acc
    ensures fresh(prover) && prover.acc == acc && prover.Valid() && prover.pending == [] && (flushed ==> marked)
    ensures |prover.epochs| > 0 && 0 < |p.journal| < |p.epochs|
            && prover.Current() == p.epochs[if marked then |p.journal| - 1 else |p.journal|]
    ensures a.chain != [] && a'.chain == (if marked then Front(a.chain) else a.chain)
    ensures Standing(prover.Snap(), acc.State(), a', bootstrap, genesis) && Quiet(journal, a'.records)
    ensures proofs.Valid() && proofs.bytes == a'.stores.file
  {
    hide Inv, Crash, RollbackIn, Settled, JournalFits, History.Inv, History.Rollback, NoneTaller, LatestForward,
         Forwards, HistoryRecords,
         Pipeline.Consistent, Pipeline.Linked, Pipeline.Fits, MarkedBack, Quiet;
    RollbackNames(flushed, j, a.records, i, s, a.stores, a.chain, acc.State(), a.h);
    UndoneEpoch(p, forest0, a.h, h', a.records, i, a.chain, bootstrap, genesis);
    FrontTip(a.stores, a.records, i, a.chain, a.base, bootstrap, genesis);
    MarkedEntries(a.records, i);
    MarkedHistory(a.records, i, a.h, h');
    MarkedNoneTaller(a.records, i, forest0.rows);
    var records, r, tip;
    journal, records, r, tip, marked :=
        ReopenAfterRollback(d, s, proofs, acc, bootstrap, tipFromNode, flushed, j, a.stores, a.records, i, a.chain,
        a.base,
                                                            genesis, a.h, h');
    a' := AfterRollback(a, marked, i, r, h');
    ghost var b := if marked then |p.journal| - 1 else |p.journal|;
    SettledHeight(r, a'.chain, bootstrap);
    StretchStarts(p, forest0, 0, b);
    assert Entries(Forwards(records)) == p.journal[0..b];
    prover := new Pipeline.FlatFileProver(acc, Entries(Forwards(records)), r.height, tip, p.epochs[0..b + 1]);
    ShrunkFits(a, i, bootstrap, genesis);
    NewStanding(prover.Snap(), acc.State(), a', bootstrap, genesis);
  }

  lemma {:induction false} ShrunkFits(a: Durable, i: nat, bootstrap: nat, genesis: Hash)
    requires Settled(a.stores, a.chain, bootstrap) && JournalFits(a.records, a.chain, a.base, bootstrap, genesis)
             && LatestForward(a.records) == Some(i)
    ensures a.chain != [] && JournalFits(MarkedBack(a.records, i), Front(a.chain), a.base, bootstrap, genesis)
  {
    hide JournalFits, Settled, LatestForward, MarkedBack;
    SettledChain(a.stores, a.chain, bootstrap);
    JournalShrinks(a.records, i, a.chain, a.base, bootstrap, genesis);
  }

  lemma {:induction false} RollbackNames(flushed: bool, j: Journal, records: seq<Retained>, i: nat, s: Stores,
                                         s0: Stores, chain: seq<Payload>,
                                         forest: ForestState, h: History.HistoryState)
    requires RollbackIn(flushed, j, records, i, s, s0, chain, forest, h)
    ensures LatestForward(records) == Some(i) && chain != []
  {
  }
}
