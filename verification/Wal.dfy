/**
 The published write-ahead log.

 Records are appended without any flush. Publishing a captured boundary flushes the data, writes
 a checksummed marker into the slot of its generation's parity, and flushes that; a boundary
 never covers records appended later. Pruning first raises the replay floor in both slots, then
 deallocates. A crash keeps what was flushed and leaves anything at all elsewhere: a marker slot
 being written may be old, new or torn, an unflushed record may be lost, whole or garbage.

 A record is one unit here and is addressed by its number in the file; record offsets are an
 increasing function of that number. Checksums are ideal: a slot or record that is not exactly
 what was written is recognised as invalid.
 */
module Wal {
  import opened Wrappers
  import opened Forest
  import opened Entry

  datatype Header = Header(hash: Hash, previous: Hash)

  datatype CompactProof = CompactProof(bytes: seq<byte>)

  /** Everything needed to redo a block in every store. */
  datatype Payload = Payload(entry: JournalEntry, header: Header, proof: CompactProof, proofRows: nat)

  datatype Slot = Written(payload: Payload, forward: bool) | Garbage | Hole

  /** A complete, immutable append boundary: how many records, and the last one. */
  datatype Boundary = Boundary(epoch: nat, end: nat, last: Option<Payload>)

  datatype Marker = Marker(generation: nat, replayStart: nat, end: nat, last: Option<Payload>)

  datatype Disk = Disk(data: seq<Slot>, even: Option<Marker>, odd: Option<Marker>) {
    function MarkerSlot(generation: nat): Option<Marker> {
      if generation % 2 == 0 then even else odd
    }

    function WithMarker(m: Marker): Disk {
      if m.generation % 2 == 0 then this.(even := Some(m)) else this.(odd := Some(m))
    }
  }

  datatype After = Published | SecondSlot(from: nat) | Punch(from: nat)

  /** What the holder of the marker lock, or of the journal lock, is in the middle of. */
  datatype Task =
    | Idle
    | Flushing(boundary: Boundary)
    | Marking(next: Marker, after: After)
    | Unknown(lost: Marker)
    | Punching(from: nat, to: nat)
    | StatusWrite(index: nat)

  /**
   `disk` is what the process would read back; of its records the first `clean` are flushed.
   The marker slots hold their flushed content. `first` is the oldest record kept in memory.
   */
  datatype Journal = Journal(disk: Disk, clean: nat, marker: Marker, first: nat, epoch: nat, poisoned: bool, task: Task)

  // ----- Opening -----

  datatype OpenError = InvalidMarker | NoMarker | NotMonotonic | Truncated | BadRecord | BoundaryMismatch

  predicate ReadableMarker(m: Marker, parity: nat) {
    && m.generation % 2 == parity
    && m.replayStart <= m.end
    && (m.end > 0 ==> m.replayStart < m.end)
  }

  /** Reads both slots and takes the newer valid one. */
  function ReadMarker(d: Disk): Result<Marker, OpenError> {
    if d.even.Some? && !ReadableMarker(d.even.value, 0) then Err(InvalidMarker)
    else if d.odd.Some? && !ReadableMarker(d.odd.value, 1) then Err(InvalidMarker)
    else match (d.even, d.odd)
      case (Some(a), Some(b)) =>
        var (older, newer) := if a.generation < b.generation then (a, b) else (b, a);
        if newer.end < older.end || newer.replayStart < older.replayStart
            || (newer.end == older.end && newer.last != older.last)
        then Err(NotMonotonic) else Ok(newer)
      case (Some(a), None) => Ok(a)
      case (None, Some(b)) => Ok(b)
      case (None, None) => Err(NoMarker)
  }

  predicate AllWritten(data: seq<Slot>, from: nat, to: nat) {
    to <= |data| && forall i :: from <= i < to ==> data[i].Written?
  }

  /** Reads the published records; a hole, a torn record or a wrong last record is an error. */
  method ScanPublished(data: seq<Slot>, m: Marker) returns (r: Result<seq<Slot>, OpenError>)
    requires m.replayStart <= m.end <= |data|
    ensures r.Ok? <==> AllWritten(data, m.replayStart, m.end) && m.last == LastPayload(data, m.replayStart, m.end)
    ensures r.Ok? ==> r.value == data[m.replayStart..m.end]
    ensures r.Err? ==> r.error == if AllWritten(data, m.replayStart, m.end) then BoundaryMismatch else BadRecord
  {
    var i := m.replayStart;
    var records: seq<Slot> := [];
    while i < m.end
      invariant m.replayStart <= i <= m.end
      invariant records == data[m.replayStart..i] && AllWritten(data, m.replayStart, i)
    {
      if !data[i].Written? {
        return Err(BadRecord);
      }
      records := records + [data[i]];
      i := i + 1;
    }
    var last := if records == [] then None else Some(records[|records| - 1].payload);
    if last != m.last {
      return Err(BoundaryMismatch);
    }
    return Ok(records);
  }

  function LastPayload(data: seq<Slot>, from: nat, to: nat): Option<Payload>
    requires to <= |data|
  {
    if from < to && data[to - 1].Written? then Some(data[to - 1].payload) else None
  }

  predicate Opens(d: Disk, m: Marker) {
    && ReadMarker(d) == Ok(m) && m.replayStart <= m.end <= |d.data|
    && AllWritten(d.data, m.replayStart, m.end) && m.last == LastPayload(d.data, m.replayStart, m.end)
  }

  function Opened(d: Disk, m: Marker): Journal
    requires m.end <= |d.data|
  {
    Journal(d.(data := d.data[..m.end]), m.end, m, m.replayStart, 0, false, Idle)
  }

  /** A slot of the other parity, or one whose range is reversed, or empty behind some record. */
  predicate Invalid(m: Marker, parity: nat) {
    m.generation % 2 != parity || m.end < m.replayStart || (m.end == m.replayStart && m.end > 0)
  }

  /** A later marker that takes something back. */
  predicate Backwards(older: Marker, newer: Marker) {
    || newer.end < older.end || newer.replayStart < older.replayStart
    || (newer.end == older.end && newer.last != older.last)
  }

  predicate Newest(d: Disk, m: Marker) {
    && (d.even == Some(m) || d.odd == Some(m))
    && (d.even.Some? ==> d.even.value.generation <= m.generation)
    && (d.odd.Some? ==> d.odd.value.generation <= m.generation)
  }

  method Open(d: Disk) returns (r: Result<Journal, OpenError>)
    ensures r.Ok? <==> ReadMarker(d).Ok? && Opens(d, ReadMarker(d).value)
    ensures r.Ok? ==> r.value == Opened(d, ReadMarker(d).value)
    ensures r.Ok? ==> Newest(d, r.value.marker) && r.value.disk.data == d.data[..r.value.marker.end]
    ensures r.Ok? ==> r.value.disk.even == d.even && r.value.disk.odd == d.odd && r.value.clean == r.value.marker.end
    ensures r.Ok? ==> r.value.first == r.value.marker.replayStart && !r.value.poisoned && r.value.task == Idle
    ensures r.Ok? ==> r.value.epoch == 0
    ensures r == Err(NoMarker) <==> d.even == None && d.odd == None
    ensures r == Err(InvalidMarker) <==>
              (d.even.Some? && Invalid(d.even.value, 0)) || (d.odd.Some? && Invalid(d.odd.value, 1))
    ensures r == Err(NotMonotonic) <==>
              && d.even.Some? && d.odd.Some? && !Invalid(d.even.value, 0) && !Invalid(d.odd.value, 1)
              && (if d.even.value.generation < d.odd.value.generation then Backwards(d.even.value, d.odd.value)
                  else Backwards(d.odd.value, d.even.value))
    ensures r == Err(Truncated) ==> exists m :: Newest(d, m) && |d.data| < m.end
  {
    var marker := ReadMarker(d);
    if marker.Err? {
      return Err(marker.error);
    }
    var m := marker.value;
    if |d.data| < m.end {
      return Err(Truncated);
    }
    assert m.replayStart <= m.end;
    var records := ScanPublished(d.data, m);
    if records.Err? {
      return Err(records.error);
    }
    return Ok(Opened(d, m));
  }

  // ----- Steps of a running journal -----

  /** An append writes behind the end and flushes nothing; it is refused after a failure. */
  ghost predicate Append(j: Journal, j': Journal, p: Payload) {
    && !j.poisoned && !j.task.StatusWrite?
    && j' == j.(disk := j.disk.(data := j.disk.data + [Written(p, true)]))
  }

  /** The boundary after the last append. */
  function BoundaryOf(j: Journal): Boundary {
    Boundary(j.epoch, |j.disk.data|, LastPayload(j.disk.data, j.first, |j.disk.data|))
  }

  ghost predicate PublishStarts(j: Journal, j': Journal, b: Boundary) {
    && !j.poisoned && j.task == Idle
    && b.epoch == j.epoch && j.marker.end < b.end <= |j.disk.data|
    && j.disk.data[b.end - 1].Written? && b.last == Some(j.disk.data[b.end - 1].payload)
    && j' == j.(task := Flushing(b))
  }

  /** The data flush returns: everything up to the boundary is durable. The marker is written. */
  ghost predicate DataFlushed(j: Journal, j': Journal, clean: nat) {
    && j.task.Flushing? && j.task.boundary.end <= clean <= |j.disk.data| && j.clean <= clean
    && var b := j.task.boundary;
       j' == j.(clean := clean, task :=
           Marking(Marker(j.marker.generation + 1, j.marker.replayStart, b.end, b.last), Published))
  }

  /** The marker flush returns; publishing is then done, pruning goes on. */
  ghost predicate MarkerFlushed(j: Journal, j': Journal) {
    && j.task.Marking?
    && var next := j.task.next;
       j' == j.(disk := j.disk.WithMarker(next), marker := next, task :=
         match j.task.after
         case Published => Idle
         case SecondSlot(from) => Marking(next.(generation := next.generation + 1), Punch(from))
         case Punch(from) => Punching(from, next.replayStart))
  }

  /** A failed write or flush: nothing more is accepted until the journal is reopened. */
  ghost predicate Fails(j: Journal, j': Journal) {
    && j'.poisoned
    && j' == j.(poisoned := true, task := match j.task
                                           case Flushing(_) => Idle
                                           case Marking(next, _) => Unknown(next)
                                           case _ => j.task)
  }

  ghost predicate Discard(j: Journal, j': Journal) {
    && !j.poisoned && j.task == Idle && j.marker.end <= |j.disk.data|
    && j' == j.(disk := j.disk.(data := j.disk.data[..j.marker.end]), epoch := j.epoch + 1,
                clean := if j.clean < j.marker.end then j.clean else j.marker.end)
  }

  ghost predicate RollbackStarts(j: Journal, j': Journal, i: nat) {
    && !j.poisoned && j.task == Idle && j.marker.end == |j.disk.data|
    && j.first <= i < |j.disk.data| && j.disk.data[i].Written?
    && j' == j.(disk := j.disk.(data := j.disk.data[i := j.disk.data[i].(forward := false)]), task := StatusWrite(i))
  }

  ghost predicate RollbackFlushed(j: Journal, j': Journal) {
    j.task.StatusWrite? && !j.poisoned && j' == j.(task := Idle)
  }

  predicate ForwardAt(data: seq<Slot>, i: nat) {
    i < |data| && data[i].Written? && data[i].forward
  }

  /** Drops old records from memory, down to a published forward record, and raises the replay floor. */
  ghost predicate PruneStarts(j: Journal, j': Journal, start: nat) {
    && !j.poisoned && j.task == Idle && j.first < start < j.marker.end && ForwardAt(j.disk.data, start)
    && j' == j.(first := start,
                task := Marking(j.marker.(generation := j.marker.generation + 1, replayStart := start),
                    SecondSlot(j.marker.replayStart)))
  }

  /** Any part of the pruned range may have become a hole by now. */
  ghost predicate Punches(j: Journal, j': Journal) {
    && j.task.Punching? && |j'.disk.data| == |j.disk.data|
    && (forall i :: 0 <= i < |j.disk.data| ==>
          j'.disk.data[i] == j.disk.data[i] || (j.task.from <= i < j.task.to && j'.disk.data[i] == Hole))
    && (j'.task == j.task || j'.task == Idle)
    && j' == j.(disk := j.disk.(data := j'.disk.data), task := j'.task)
  }

  // ----- Crashes -----

  /** What may be found in a marker slot. */
  ghost predicate SlotAfterCrash(j: Journal, parity: nat, found: Option<Marker>) {
    || found == j.disk.MarkerSlot(parity)
    || (j.task.Marking? && j.task.next.generation % 2 == parity && (found == None || found == Some(j.task.next)))
    || (j.task.Unknown? && j.task.lost.generation % 2 == parity && (found == None || found == Some(j.task.lost)))
  }

  /** What may be found of a record: flushed ones survive, except where something was going on. */
  ghost predicate RecordAfterCrash(j: Journal, i: nat, found: Slot) {
    || i >= j.clean
    || i >= |j.disk.data|
    || found == j.disk.data[i]
    || j.disk.data[i] == Hole
    || (j.task.Punching? && j.task.from <= i < j.task.to)
    || (j.task == StatusWrite(i) && found.Written? && j.disk.data[i].Written?
         && found.payload == j.disk.data[i].payload)
  }

  ghost predicate Crash(j: Journal, d: Disk) {
    && SlotAfterCrash(j, 0, d.even) && SlotAfterCrash(j, 1, d.odd)
    && |d.data| >= j.clean
    && forall i :: 0 <= i < |d.data| ==> RecordAfterCrash(j, i, d.data[i])
  }

  ghost predicate CrashAndReopen(j: Journal, j': Journal, d: Disk, m: Marker) {
    Crash(j, d) && Opens(d, m) && j' == Opened(d, m)
  }

  /** A step of the running process. */
  ghost predicate LiveStep(j: Journal, j': Journal) {
    || (exists p :: Append(j, j', p))
    || (exists b :: PublishStarts(j, j', b))
    || (exists clean :: DataFlushed(j, j', clean))
    || MarkerFlushed(j, j')
    || Fails(j, j')
    || Discard(j, j')
    || (exists i :: RollbackStarts(j, j', i))
    || RollbackFlushed(j, j')
    || (exists start :: PruneStarts(j, j', start))
    || Punches(j, j')
  }

  ghost predicate Step(j: Journal, j': Journal) {
    LiveStep(j, j') || exists d, m :: CrashAndReopen(j, j', d, m)
  }

  // ----- The invariant -----

  /** The records a marker covers are flushed, whole, and end with the one it names. */
  predicate Covered(data: seq<Slot>, clean: nat, m: Marker) {
    && m.replayStart <= m.end <= clean <= |data|
    && (m.end > 0 ==> m.replayStart < m.end)
    && AllWritten(data, m.replayStart, m.end)
    && m.last == LastPayload(data, m.replayStart, m.end)
  }

  /** `n` may follow `m`. */
  predicate Follows(m: Marker, n: Marker) {
    && m.generation < n.generation && m.generation % 2 != n.generation % 2
    && m.end <= n.end && m.replayStart <= n.replayStart && (m.end == n.end ==> m.last == n.last)
  }

  /** Only published records are ever rolled back. */
  predicate NewForward(data: seq<Slot>, end: nat) {
    forall i :: end <= i < |data| ==> data[i].Written? && data[i].forward
  }

  /** A marker in flight either publishes more or raises the floor to a forward record. */
  predicate FloorForward(j: Journal, next: Marker) {
    next.replayStart == j.marker.replayStart || (next.end == j.marker.end && ForwardAt(j.disk.data, next.replayStart))
  }

  predicate TaskInv(j: Journal) {
    match j.task
    case Idle => true
    case Flushing(b) =>
      && j.marker.end < b.end <= |j.disk.data|
      && j.disk.data[b.end - 1].Written? && b.last == Some(j.disk.data[b.end - 1].payload)
    case Marking(next, after) =>
      && next.generation == j.marker.generation + 1
      && Covered(j.disk.data, j.clean, next) && Follows(j.marker, next) && FloorForward(j, next)
      && (match after
          case Published => next.replayStart == j.marker.replayStart
          case SecondSlot(from) => from <= j.marker.replayStart && next.replayStart <= j.first
          case Punch(from) => next.replayStart == j.marker.replayStart && next.end == j.marker.end)
    case Unknown(lost) =>
      && j.poisoned && lost.generation == j.marker.generation + 1
      && Covered(j.disk.data, j.clean, lost) && Follows(j.marker, lost) && FloorForward(j, lost)
    case Punching(from, to) =>
      && to == j.marker.replayStart
      && (match j.disk.MarkerSlot(j.marker.generation + 1) case None => true case Some(m) => m.replayStart >= to)
    case StatusWrite(i) => i < j.marker.end == |j.disk.data| && (j.disk.data[i].Written? ==> !j.disk.data[i].forward)
  }

  predicate Inv(j: Journal) {
    && Covered(j.disk.data, j.clean, j.marker)
    && AllWritten(j.disk.data, j.marker.replayStart, |j.disk.data|)
    && j.marker.replayStart <= j.first <= j.marker.end
    && NewForward(j.disk.data, j.marker.end)
    && (j.poisoned ==> !j.task.Flushing? && !j.task.Marking?)
    && j.disk.MarkerSlot(j.marker.generation) == Some(j.marker)
    && (match j.disk.MarkerSlot(j.marker.generation + 1)
        case None => true
        case Some(m) => Covered(j.disk.data, j.clean, m) && Follows(m, j.marker))
    && TaskInv(j)
  }

  /** What was published stays published, and unchanged, down to the replay floor. */
  predicate KeepsPublished(j: Journal, j': Journal) {
    && j.marker.end <= j'.marker.end && j.marker.replayStart <= j'.marker.replayStart
    && j.marker.end <= |j.disk.data| && j'.marker.end <= |j'.disk.data|
    && forall i :: j'.marker.replayStart <= i < j.marker.end ==> SameRecord(j.disk.data[i], j'.disk.data[i])
  }

  predicate SameRecord(a: Slot, b: Slot) {
    a.Written? && b.Written? && a.payload == b.payload
  }

  /** Changing data only where a marker does not look keeps it covered. */
  lemma {:induction false} CoveredSame(data: seq<Slot>, clean: nat, data': seq<Slot>, clean': nat, m: Marker)
    requires Covered(data, clean, m) && m.end <= clean' <= |data'|
    requires forall i :: m.replayStart <= i < m.end ==> SameRecord(data[i], data'[i])
    ensures Covered(data', clean', m)
  {
  }

  lemma {:induction false} AppendKeeps(j: Journal, j': Journal, p: Payload)
    requires Inv(j) && Append(j, j', p)
    ensures Inv(j') && KeepsPublished(j, j')
  {
    hide Covered, Follows;
    CoveredWhole(j.disk.data, j.clean, j.marker);
    StillCovered(j, j'.disk.data);
  }

  lemma {:induction false} CoveredWhole(data: seq<Slot>, clean: nat, m: Marker)
    requires Covered(data, clean, m)
    ensures m.replayStart <= m.end <= clean <= |data| && AllWritten(data, m.replayStart, m.end)
  {
  }

  /** All the markers in play stay covered when their records stay as they are. */
  lemma {:induction false} StillCovered(j: Journal, data': seq<Slot>)
    requires Inv(j) && j.clean <= |data'|
    requires forall i :: 0 <= i < j.clean ==> data'[i] == j.disk.data[i]
    ensures Covered(data', j.clean, j.marker)
    ensures match j.disk.MarkerSlot(j.marker.generation + 1) case None => true case Some(m) =>
            Covered(data', j.clean, m)
    ensures match j.task case Marking(next, _) => Covered(data', j.clean, next) case Unknown(lost) =>
            Covered(data', j.clean, lost) case _ => true
  {
    hide Follows;
    CoveredSame(j.disk.data, j.clean, data', j.clean, j.marker);
    match j.disk.MarkerSlot(j.marker.generation + 1)
    case None =>
    case Some(m) => CoveredSame(j.disk.data, j.clean, data', j.clean, m);
    match j.task
    case Marking(next, _) => CoveredSame(j.disk.data, j.clean, data', j.clean, next);
    case Unknown(lost) => CoveredSame(j.disk.data, j.clean, data', j.clean, lost);
    case _ =>
  }

  lemma {:induction false} FlushKeeps(j: Journal, j': Journal, clean: nat)
    requires Inv(j) && DataFlushed(j, j', clean)
    ensures Inv(j') && KeepsPublished(j, j')
  {
  }

  lemma {:induction false} MarkerKeeps(j: Journal, j': Journal)
    requires Inv(j) && MarkerFlushed(j, j')
    ensures Inv(j') && KeepsPublished(j, j')
  {
    hide Covered;
    var next := j.task.next;
    CoveredWhole(j.disk.data, j.clean, j.marker);
    CoveredWhole(j.disk.data, j.clean, next);
    assert j'.disk.MarkerSlot(next.generation) == Some(next);
    assert j'.disk.MarkerSlot(next.generation + 1) == j.disk.MarkerSlot(j.marker.generation);
    if j.task.after.SecondSlot? { CoveredGeneration(j.disk.data, j.clean, next); }
  }

  lemma {:induction false} CoveredGeneration(data: seq<Slot>, clean: nat, m: Marker)
    requires Covered(data, clean, m)
    ensures Covered(data, clean, m.(generation := m.generation + 1))
  {
  }

  lemma {:induction false} DiscardKeeps(j: Journal, j': Journal)
    requires Inv(j) && Discard(j, j')
    ensures Inv(j') && KeepsPublished(j, j')
  {
    hide Follows;
    CoveredSame(j.disk.data, j.clean, j'.disk.data, j'.clean, j.marker);
    match j.disk.MarkerSlot(j.marker.generation + 1)
    case None =>
    case Some(m) =>
      assert Follows(m, j.marker);
      assert m.end <= j.marker.end by { FollowsEnd(m, j.marker); }
      CoveredSame(j.disk.data, j.clean, j'.disk.data, j'.clean, m);
  }

  lemma {:induction false} FollowsEnd(m: Marker, n: Marker)
    requires Follows(m, n)
    ensures m.end <= n.end && m.replayStart <= n.replayStart && m.generation < n.generation
  {
  }

  lemma {:induction false} RollbackKeeps(j: Journal, j': Journal, i: nat)
    requires Inv(j) && RollbackStarts(j, j', i)
    ensures Inv(j') && KeepsPublished(j, j')
  {
    hide Follows;
    CoveredSame(j.disk.data, j.clean, j'.disk.data, j'.clean, j.marker);
    match j.disk.MarkerSlot(j.marker.generation + 1)
    case None =>
    case Some(m) =>
      CoveredSame(j.disk.data, j.clean, j'.disk.data, j'.clean, m);
  }

  lemma {:induction false} PruneKeeps(j: Journal, j': Journal, start: nat)
    requires Inv(j) && PruneStarts(j, j', start)
    ensures Inv(j') && KeepsPublished(j, j')
  {
  }

  lemma {:induction false} PunchKeeps(j: Journal, j': Journal)
    requires Inv(j) && Punches(j, j')
    ensures Inv(j') && KeepsPublished(j, j')
  {
    hide Follows;
    CoveredSame(j.disk.data, j.clean, j'.disk.data, j'.clean, j.marker);
    match j.disk.MarkerSlot(j.marker.generation + 1)
    case None =>
    case Some(m) =>
      CoveredSame(j.disk.data, j.clean, j'.disk.data, j'.clean, m);
  }

  // ----- Reopening after a crash -----

  /** The records under a marker that nothing is deallocating survive. */
  lemma {:induction false} Survives(j: Journal, d: Disk, m: Marker, end: nat)
    requires Inv(j) && Crash(j, d) && Covered(j.disk.data, j.clean, m) && m.end <= end <= |d.data|
    requires j.task.Punching? ==> m.replayStart >= j.task.to
    ensures Covered(d.data[..end], end, m)
    ensures forall i :: m.replayStart <= i < m.end ==> SameRecord(j.disk.data[i], d.data[i])
    ensures forall i :: m.replayStart <= i < m.end && j.task != StatusWrite(i) ==> j.disk.data[i] == d.data[i]
  {
    hide Follows;
    forall i | m.replayStart <= i < m.end
      ensures SameRecord(j.disk.data[i], d.data[i])
      ensures j.task != StatusWrite(i) ==> j.disk.data[i] == d.data[i]
    {
      assert RecordAfterCrash(j, i, d.data[i]);
    }
    CoveredSame(j.disk.data, j.clean, d.data[..end], end, m);
  }

  /** The marker being written when the process stopped, if any. */
  function InFlight(j: Journal): Option<Marker> {
    match j.task case Marking(next, _) => Some(next) case Unknown(lost) => Some(lost) case _ => None
  }

  /** What the crash left in the other slot. */
  function OtherSlot(j: Journal, d: Disk): Option<Marker> {
    d.MarkerSlot(j.marker.generation + 1)
  }

  function Winner(j: Journal, d: Disk): Marker {
    if InFlight(j).Some? && OtherSlot(j, d) == InFlight(j) then InFlight(j).value else j.marker
  }

  lemma {:induction false} SlotsAfterCrash(j: Journal, d: Disk)
    requires Inv(j) && Crash(j, d)
    ensures d.MarkerSlot(j.marker.generation) == Some(j.marker)
    ensures OtherSlot(j, d) == None || OtherSlot(j, d) == j.disk.MarkerSlot(j.marker.generation + 1)
            || (InFlight(j).Some? && OtherSlot(j, d) == InFlight(j))
  {
    hide Covered;
  }

  /** Whatever the crash left, one of the two markers in play is chosen. */
  lemma {:induction false} ReadsWinner(j: Journal, d: Disk)
    requires Inv(j) && Crash(j, d)
    ensures ReadMarker(d) == Ok(Winner(j, d))
  {
    SlotsAfterCrash(j, d);
  }

  /**
   From every state, whatever the crash did, the journal opens: at the boundary of the last
   publish that returned, or of the one in flight; with the records that were there; and the
   invariant holds again.
   */
  lemma {:induction false} CrashReopens(j: Journal, d: Disk)
    requires Inv(j) && Crash(j, d)
    ensures Opens(d, Winner(j, d))
    ensures Winner(j, d) == j.marker || InFlight(j) == Some(Winner(j, d))
    ensures Inv(Opened(d, Winner(j, d))) && KeepsPublished(j, Opened(d, Winner(j, d)))
    ensures var m := Winner(j, d);
            m.end <= |j.disk.data| && forall i :: m.replayStart <= i < m.end ==>
              SameRecord(j.disk.data[i], d.data[i]) && (j.task != StatusWrite(i) ==> d.data[i] == j.disk.data[i])
  {
    hide ReadMarker, Covered, Follows, SlotAfterCrash, RecordAfterCrash, AllWritten, SameRecord;
    var m := Winner(j, d);
    ReadsWinner(j, d);
    SlotsAfterCrash(j, d);
    InPlay(j, d);
    Survives(j, d, m, m.end);
    CoveredOpens(d.data, m);
    Survives(j, d, j.marker, m.end);
    match OtherSlot(j, d)
    case None =>
    case Some(o) =>
      if m == j.marker { Survives(j, d, o, m.end); }
  }

  /** The slots found are covered, in order, and not being deallocated. */
  lemma {:induction false} InPlay(j: Journal, d: Disk)
    requires Inv(j) && Crash(j, d)
    ensures var m := Winner(j, d);
            && Covered(j.disk.data, j.clean, m) && m.end <= |d.data| && j.marker.end <= m.end
                 && j.marker.replayStart <= m.replayStart
            && (j.task.Punching? ==> m.replayStart >= j.task.to)
            && d.MarkerSlot(m.generation) == Some(m)
            && (m != j.marker ==> Follows(j.marker, m) && d.MarkerSlot(m.generation + 1) == Some(j.marker))
            && (m == j.marker ==> match OtherSlot(j, d)
                                  case None => true
                                  case Some(o) => Covered(j.disk.data, j.clean, o) && Follows(o, m) && o.end <= m.end
                                                  && (j.task.Punching? ==> o.replayStart >= j.task.to))
  {
    SlotsAfterCrash(j, d);
  }

  lemma {:induction false} CoveredOpens(data: seq<Slot>, m: Marker)
    requires m.end <= |data| && Covered(data[..m.end], m.end, m)
    ensures m.replayStart <= m.end && AllWritten(data, m.replayStart, m.end)
            && m.last == LastPayload(data, m.replayStart, m.end)
    ensures AllWritten(data[..m.end], m.replayStart, m.end)
  {
    assert forall i :: m.replayStart <= i < m.end ==> data[..m.end][i] == data[i];
  }

  // ----- Every run -----

  lemma {:induction false} PublishKeeps(j: Journal, j': Journal, b: Boundary)
    requires Inv(j) && PublishStarts(j, j', b)
    ensures Inv(j') && KeepsPublished(j, j')
  {
    hide Covered, Follows;
    CoveredWhole(j.disk.data, j.clean, j.marker);
  }

  lemma {:induction false} FailKeeps(j: Journal, j': Journal)
    requires Inv(j) && Fails(j, j')
    ensures Inv(j') && KeepsPublished(j, j')
  {
    hide Covered, Follows;
    CoveredWhole(j.disk.data, j.clean, j.marker);
  }

  lemma {:induction false} RollbackFlushKeeps(j: Journal, j': Journal)
    requires Inv(j) && RollbackFlushed(j, j')
    ensures Inv(j') && KeepsPublished(j, j')
  {
    hide Covered, Follows;
    CoveredWhole(j.disk.data, j.clean, j.marker);
  }

  lemma {:induction false} StepKeepsInv(j: Journal, j': Journal)
    requires Inv(j) && Step(j, j')
    ensures Inv(j') && KeepsPublished(j, j')
  {
    hide Inv, KeepsPublished;
    if p :| Append(j, j', p) {
      AppendKeeps(j, j', p);
    } else if b :| PublishStarts(j, j', b) {
      PublishKeeps(j, j', b);
    } else if clean :| DataFlushed(j, j', clean) {
      FlushKeeps(j, j', clean);
    } else if MarkerFlushed(j, j') {
      MarkerKeeps(j, j');
    } else if Fails(j, j') {
      FailKeeps(j, j');
    } else if Discard(j, j') {
      DiscardKeeps(j, j');
    } else if i :| RollbackStarts(j, j', i) {
      RollbackKeeps(j, j', i);
    } else if RollbackFlushed(j, j') {
      RollbackFlushKeeps(j, j');
    } else if start :| PruneStarts(j, j', start) {
      PruneKeeps(j, j', start);
    } else if Punches(j, j') {
      PunchKeeps(j, j');
    } else {
      var d, m :| CrashAndReopen(j, j', d, m);
      ReadsWinner(j, d);
      CrashReopens(j, d);
    }
  }

  /** A newly initialised journal: no records, both slots filled. */
  const INITIAL: Journal :=
    Journal(Disk([], Some(Marker(0, 0, 0, None)), Some(Marker(1, 0, 0, None))), 0, Marker(1, 0, 0, None), 0, 0, false,
        Idle)

  ghost predicate IsRun(run: seq<Journal>) {
    |run| > 0 && run[0] == INITIAL && forall i :: 0 <= i < |run| - 1 ==> Step(run[i], run[i + 1])
  }

  lemma {:induction false} KeepsTransitive(a: Journal, b: Journal, c: Journal)
    requires KeepsPublished(a, b) && KeepsPublished(b, c)
    ensures KeepsPublished(a, c)
  {
    forall i | c.marker.replayStart <= i < a.marker.end
      ensures SameRecord(a.disk.data[i], c.disk.data[i])
    {
      assert SameRecord(a.disk.data[i], b.disk.data[i]);
      assert SameRecord(b.disk.data[i], c.disk.data[i]);
    }
  }

  /** Over any run with any crashes, nothing published is ever lost or altered above the replay floor. */
  lemma {:induction false} RunKeepsPublished(run: seq<Journal>, a: nat, b: nat)
    requires IsRun(run) && a <= b < |run|
    ensures Inv(run[b]) && KeepsPublished(run[a], run[b])
    decreases b
  {
    hide Inv, KeepsPublished, Step;
    if b == 0 {
      assert Inv(INITIAL) && KeepsPublished(INITIAL, INITIAL) by { InitialInv(); }
    } else {
      RunKeepsPublished(run, if a < b then a else b - 1, b - 1);
      StepKeepsInv(run[b - 1], run[b]);
      if a < b { KeepsTransitive(run[a], run[b - 1], run[b]); } else { KeepsSelf(run[b]); }
    }
  }

  lemma {:induction false} InitialInv()
    ensures Inv(INITIAL) && KeepsPublished(INITIAL, INITIAL)
  {
  }

  lemma {:induction false} KeepsSelf(j: Journal)
    requires Inv(j)
    ensures KeepsPublished(j, j)
  {
  }

  /**
   After any run, whatever a crash leaves on disk opens, at the last boundary whose publication
   returned or at the one in flight, with exactly the records that were written there.
   */
  lemma {:induction false} EveryCrashOpens(run: seq<Journal>, d: Disk)
    requires IsRun(run) && Crash(run[|run| - 1], d)
    ensures var j, m := run[|run| - 1], Winner(run[|run| - 1], d);
            && Opens(d, m) && (m == j.marker || InFlight(j) == Some(m)) && m.end <= |j.disk.data|
            && (forall i :: m.replayStart <= i < m.end ==>
                  SameRecord(j.disk.data[i], d.data[i]) && (j.task != StatusWrite(i) ==> d.data[i] == j.disk.data[i]))
  {
    hide Inv, KeepsPublished, Step, Opens, Crash, Winner;
    RunKeepsPublished(run, |run| - 1, |run| - 1);
    CrashReopens(run[|run| - 1], d);
  }

  // ----- Boundaries -----

  /** From one index of a run to another the process does not stop. */
  ghost predicate Alive(run: seq<Journal>, a: nat, c: nat) {
    c < |run| && forall i :: a <= i < c ==> LiveStep(run[i], run[i + 1])
  }

  /** A record that is still unpublished afterwards keeps its payload, unless a discard starts a new epoch. */
  lemma {:induction false} UnpublishedStays(j: Journal, j': Journal, i: nat)
    requires Inv(j) && LiveStep(j, j') && i < |j.disk.data| && j'.marker.end <= i
    ensures j.epoch <= j'.epoch
    ensures j'.epoch == j.epoch ==> i < |j'.disk.data| && SameRecord(j.disk.data[i], j'.disk.data[i])
  {
    hide Covered, Follows;
    assert j.marker.end <= j'.marker.end && j.marker.replayStart <= j.marker.end by {
      StepKeepsInv(j, j');
      CoveredWhole(j.disk.data, j.clean, j.marker);
    }
  }

  /** Over a stretch of one epoch, discards before and after included, an unpublished record stays. */
  lemma {:induction false} EpochKeepsRecord(run: seq<Journal>, a: nat, c: nat, i: nat)
    requires IsRun(run) && a <= c && Alive(run, a, c) && i < |run[a].disk.data| && run[c].marker.end <= i
    ensures run[a].epoch <= run[c].epoch
    ensures run[c].epoch == run[a].epoch ==>
              i < |run[c].disk.data| && SameRecord(run[a].disk.data[i], run[c].disk.data[i])
    decreases c
  {
    hide Inv, LiveStep, Step;
    RunKeepsPublished(run, a, a);
    if a == c {
      assert SameRecord(run[a].disk.data[i], run[a].disk.data[i]) by { UnpublishedWritten(run[a], i); }
    } else {
      assert LiveStep(run[c - 1], run[c]);
      RunKeepsPublished(run, c - 1, c);
      RunKeepsPublished(run, c - 1, c - 1);
      EpochKeepsRecord(run, a, c - 1, i);
      if i < |run[c - 1].disk.data| { UnpublishedStays(run[c - 1], run[c], i); }
          else { EpochGrows(run[c - 1], run[c]); }
    }
  }

  lemma {:induction false} UnpublishedWritten(j: Journal, i: nat)
    requires Inv(j) && j.marker.end <= i < |j.disk.data|
    ensures j.disk.data[i].Written?
  {
  }

  lemma {:induction false} EpochGrows(j: Journal, j': Journal)
    requires LiveStep(j, j')
    ensures j.epoch <= j'.epoch
  {
  }

  /**
   A boundary captured by the producer and handed to the publisher later: while its epoch is the
   current one it still names its record, whatever was appended, published, pruned or rolled
   back since, so publishing it is accepted; after a discard it is refused.
   */
  lemma {:induction false} BoundaryStillNames(run: seq<Journal>, a: nat, c: nat)
    requires IsRun(run) && a <= c && Alive(run, a, c)
    requires run[c].marker.end < |run[a].disk.data|
    ensures var b, j := BoundaryOf(run[a]), run[c];
            !j.poisoned && j.task == Idle ==>
              (PublishStarts(j, j.(task := Flushing(b)), b) <==> b.epoch == j.epoch)
  {
    hide Inv, LiveStep, Step;
    var i := |run[a].disk.data| - 1;
    EpochKeepsRecord(run, a, c, i);
    RunKeepsPublished(run, a, c);
    RunKeepsPublished(run, a, a);
    UnpublishedWritten(run[a], i);
    FirstBelow(run[a], i);
  }

  lemma {:induction false} FirstBelow(j: Journal, i: nat)
    requires Inv(j) && j.marker.end <= i
    ensures j.first <= i
  {
  }

  // ----- What was discarded -----

  /** A discard cuts at the published end: the next append is the record with that number. */
  lemma {:induction false} AfterDiscard(j: Journal, j': Journal, j'': Journal, p: Payload)
    requires Discard(j, j') && Append(j', j'', p)
    ensures |j'.disk.data| == j.marker.end && j'.disk.data == j.disk.data[..j.marker.end]
    ensures j''.disk.data == j.disk.data[..j.marker.end] + [Written(p, true)]
  {
  }

  /** Only appending makes the journal longer, by one record. */
  lemma {:induction false} OnlyAppendsGrow(j: Journal, j': Journal)
    requires Inv(j) && Step(j, j') && |j'.disk.data| > |j.disk.data|
    ensures |j'.disk.data| == |j.disk.data| + 1 && exists p :: Append(j, j', p)
  {
    hide Covered, Follows;
    if d, m :| CrashAndReopen(j, j', d, m) {
      ReadsWinner(j, d);
      CrashReopens(j, d);
    }
  }

  /** A record above the floor that is still there holds what it held. */
  lemma {:induction false} RecordStays(j: Journal, j': Journal, i: nat)
    requires Inv(j) && Step(j, j') && j'.marker.replayStart <= i < |j.disk.data| && i < |j'.disk.data|
    ensures j.marker.replayStart <= i && SameRecord(j.disk.data[i], j'.disk.data[i])
  {
    hide Covered, Follows;
    StepKeepsInv(j, j');
    if d, m :| CrashAndReopen(j, j', d, m) {
      ReadsWinner(j, d);
      CrashReopens(j, d);
    } else {
      LiveRecordStays(j, j', i);
    }
  }

  lemma {:induction false} LiveRecordStays(j: Journal, j': Journal, i: nat)
    requires Inv(j) && LiveStep(j, j') && j'.marker.replayStart <= i < |j.disk.data| && i < |j'.disk.data|
    requires j.marker.replayStart <= j'.marker.replayStart
    ensures SameRecord(j.disk.data[i], j'.disk.data[i])
  {
    hide Covered, Follows;
  }

  /** Every record above the floor was appended, with this number and payload, and has been there ever since. */
  lemma {:induction false} Provenance(run: seq<Journal>, c: nat, i: nat) returns (s: nat, p: Payload)
    requires IsRun(run) && c < |run| && run[c].marker.replayStart <= i < |run[c].disk.data|
    ensures s < c && Append(run[s], run[s + 1], p) && |run[s].disk.data| == i
    ensures run[c].disk.data[i].Written? && run[c].disk.data[i].payload == p
    ensures forall t :: s < t <= c ==> i < |run[t].disk.data|
    decreases c
  {
    hide Inv, Step, Append;
    RunKeepsPublished(run, c - 1, c);
    RunKeepsPublished(run, c - 1, c - 1);
    if i < |run[c - 1].disk.data| {
      RecordStays(run[c - 1], run[c], i);
      s, p := Provenance(run, c - 1, i);
    } else {
      OnlyAppendsGrow(run[c - 1], run[c]);
      s := c - 1;
      p :| Append(run[c - 1], run[c], p);
      AppendedLast(run[c - 1], run[c], p);
    }
  }

  lemma {:induction false} AppendedLast(j: Journal, j': Journal, p: Payload)
    requires Append(j, j', p)
    ensures j'.disk.data == j.disk.data + [Written(p, true)]
  {
  }

  /**
   Whatever is found at or behind the published end of a discard was appended after it: in any later
   state, published or not, none of the discarded records.
   */
  lemma {:induction false} DiscardedGone(run: seq<Journal>, d: nat, c: nat, i: nat) returns (s: nat, p: Payload)
    requires IsRun(run) && d < c < |run| && Discard(run[d], run[d + 1])
    requires run[d].marker.end <= i && run[c].marker.replayStart <= i < |run[c].disk.data|
    ensures d < s < c && Append(run[s], run[s + 1], p) && |run[s].disk.data| == i
    ensures run[c].disk.data[i].Written? && run[c].disk.data[i].payload == p
  {
    hide Inv, Step, Append;
    s, p := Provenance(run, c, i);
    assert |run[d + 1].disk.data| == run[d].marker.end;
  }

  /** Nor does any later open return one. */
  lemma {:induction false} DiscardedNeverOpens(run: seq<Journal>, d: nat, disk: Disk, i: nat)
    returns (s: nat, p: Payload)
    requires IsRun(run) && d < |run| - 1 && Discard(run[d], run[d + 1]) && Crash(run[|run| - 1], disk)
    requires var m := Winner(run[|run| - 1], disk); run[d].marker.end <= i && m.replayStart <= i < m.end
    ensures d < s < |run| - 1 && Append(run[s], run[s + 1], p) && |run[s].disk.data| == i
    ensures i < |disk.data| && disk.data[i].Written? && disk.data[i].payload == p
  {
    hide Inv, Step, Append, Crash, Winner, Opens;
    var c := |run| - 1;
    EveryCrashOpens(run, disk);
    OpensWithin(disk, Winner(run[c], disk));
    RunKeepsPublished(run, c, c);
    WinnerFloor(run[c], disk);
    s, p := DiscardedGone(run, d, c, i);
  }

  lemma {:induction false} OpensWithin(d: Disk, m: Marker)
    requires Opens(d, m)
    ensures m.end <= |d.data|
  {
  }

  lemma {:induction false} WinnerFloor(j: Journal, d: Disk)
    requires Inv(j) && Crash(j, d)
    ensures j.marker.replayStart <= Winner(j, d).replayStart
  {
    InPlay(j, d);
  }

  // ----- After a failure -----

  /** Until it is opened again a failed journal accepts nothing: no append, publication, discard, rollback or prune. */
  lemma {:induction false} PoisonHolds(j: Journal, j': Journal)
    requires Inv(j) && j.poisoned && LiveStep(j, j')
    ensures j'.poisoned && j'.marker == j.marker && j'.epoch == j.epoch && |j'.disk.data| == |j.disk.data|
    ensures j'.disk.even == j.disk.even && j'.disk.odd == j.disk.odd
    ensures forall i :: 0 <= i < |j.disk.data| ==>
              j'.disk.data[i] == j.disk.data[i] || (i < j.marker.replayStart && j'.disk.data[i] == Hole)
  {
    hide Covered, Follows;
  }

  /** A failure of any kind is remembered, and the marker whose write failed stays in play. */
  lemma {:induction false} FailPoisons(j: Journal, j': Journal)
    requires Fails(j, j')
    ensures j'.poisoned && InFlight(j') == InFlight(j)
    ensures j'.disk == j.disk && j'.marker == j.marker && j'.clean == j.clean
    ensures !j'.task.Flushing? && !j'.task.Marking?
  {
  }

  // ----- A rollback and a prune that return -----

  /**
   Once a rollback's status write has returned, every crash finds that record rolled back, and the
   others as they were.
   */
  lemma {:induction false} RollbackLasts(j: Journal, j': Journal, j'': Journal, i: nat, d: Disk)
    requires Inv(j) && RollbackStarts(j, j', i) && RollbackFlushed(j', j'') && Crash(j'', d)
    ensures var m := Winner(j'', d);
            && Opens(d, m) && m == j.marker && m.end <= |d.data| && i < m.end
            && (i >= m.replayStart ==> d.data[i] == Written(j.disk.data[i].payload, false))
            && forall k :: m.replayStart <= k < m.end && k != i ==> d.data[k] == j.disk.data[k]
  {
    hide Covered, Follows, Crash, Opens, AllWritten;
    RollbackKeeps(j, j', i);
    RollbackFlushKeeps(j', j'');
    CrashReopens(j'', d);
    OpensWithin(d, Winner(j'', d));
  }

  /** A prune raises the floor in one slot, then in the other, and only then deallocates what lies below it. */
  lemma {:induction false} PruneRaisesBoth(j: Journal, j1: Journal, j2: Journal, j3: Journal, start: nat)
    requires Inv(j) && PruneStarts(j, j1, start) && MarkerFlushed(j1, j2) && MarkerFlushed(j2, j3)
    ensures j.first < start < j.marker.end
    ensures j2.marker.replayStart == j3.marker.replayStart == start && j2.marker.end == j3.marker.end == j.marker.end
    ensures j3.disk.even.Some? && j3.disk.odd.Some?
    ensures j3.disk.even.value.replayStart == j3.disk.odd.value.replayStart == start
    ensures j3.disk.data == j.disk.data && j3.task == Punching(j.marker.replayStart, start)
  {
    hide Covered, Follows;
  }

  // ----- What is never refused -----

  /**
   An idle journal that has not failed takes an append and a discard, and a rollback and a prune
   where they make sense.
   */
  lemma {:induction false} IdleAccepts(j: Journal, p: Payload, i: nat)
    requires Inv(j) && !j.poisoned && j.task == Idle
    ensures exists j' :: Append(j, j', p)
    ensures exists j' :: Discard(j, j')
    ensures j.marker.end == |j.disk.data| && j.first <= i < |j.disk.data| ==> exists j' :: RollbackStarts(j, j', i)
    ensures j.first < i < j.marker.end && ForwardAt(j.disk.data, i) ==> exists j' :: PruneStarts(j, j', i)
  {
    hide Follows;
    assert Append(j, j.(disk := j.disk.(data := j.disk.data + [Written(p, true)])), p);
    var cut := if j.clean < j.marker.end then j.clean else j.marker.end;
    assert Discard(j, j.(disk := j.disk.(data := j.disk.data[..j.marker.end]), epoch := j.epoch + 1, clean := cut));
    if j.marker.end == |j.disk.data| && j.first <= i < |j.disk.data| {
      var data := j.disk.data[i := j.disk.data[i].(forward := false)];
      assert RollbackStarts(j, j.(disk := j.disk.(data := data), task := StatusWrite(i)), i);
    }
    if j.first < i < j.marker.end && ForwardAt(j.disk.data, i) {
      var next := j.marker.(generation := j.marker.generation + 1, replayStart := i);
      assert PruneStarts(j, j.(first := i, task := Marking(next, SecondSlot(j.marker.replayStart))), i);
    }
  }

  /** A publication that has begun goes on: its data flush, its marker flush, and appends meanwhile. */
  lemma {:induction false} PublishingGoesOn(j: Journal, p: Payload)
    requires Inv(j) && !j.poisoned
    ensures j.task.Flushing? ==> (exists j', clean :: DataFlushed(j, j', clean)) && exists j' :: Append(j, j', p)
    ensures j.task.Marking? ==> (exists j' :: MarkerFlushed(j, j')) && exists j' :: Append(j, j', p)
  {
    hide Follows;
    if j.task.Flushing? || j.task.Marking? {
      assert Append(j, j.(disk := j.disk.(data := j.disk.data + [Written(p, true)])), p);
    }
    if j.task.Flushing? {
      var b, clean := j.task.boundary, |j.disk.data|;
      var next := Marker(j.marker.generation + 1, j.marker.replayStart, b.end, b.last);
      assert DataFlushed(j, j.(clean := clean, task := Marking(next, Published)), clean);
    }
    if j.task.Marking? {
      var next := j.task.next;
      var task := match j.task.after
                  case Published => Idle
                  case SecondSlot(from) => Marking(next.(generation := next.generation + 1), Punch(from))
                  case Punch(from) => Punching(from, next.replayStart);
      assert MarkerFlushed(j, j.(disk := j.disk.WithMarker(next), marker := next, task := task));
    }
  }

  // ----- How bad a crash may be -----

  /** Behind the flushed records anything at all may be found, and nothing. */
  lemma {:induction false} UnflushedMayBeAnything(j: Journal, tail: seq<Slot>)
    requires Inv(j)
    ensures j.clean <= |j.disk.data| && Crash(j, j.disk.(data := j.disk.data[..j.clean] + tail))
  {
    hide Follows;
  }

  /** The slot of a marker being written, or whose write failed, may be as before, torn, or new. */
  lemma {:induction false} MarkerMayBeTorn(j: Journal)
    requires Inv(j) && InFlight(j).Some?
    ensures var next := InFlight(j).value;
            && Crash(j, j.disk) && Crash(j, j.disk.WithMarker(next))
            && Crash(j, if next.generation % 2 == 0 then j.disk.(even := None) else j.disk.(odd := None))
  {
    hide Covered, Follows;
    CoveredWhole(j.disk.data, j.clean, j.marker);
  }

  /** A status being written may be found either way. */
  lemma {:induction false} StatusMayBeEither(j: Journal, forward: bool)
    requires Inv(j) && j.task.StatusWrite? && j.disk.data[j.task.index].Written?
    ensures var i := j.task.index; Crash(j, j.disk.(data := j.disk.data[i := j.disk.data[i].(forward := forward)]))
  {
    hide Covered, Follows;
    CoveredWhole(j.disk.data, j.clean, j.marker);
  }

  /** Anything may fail at any time. */
  lemma {:induction false} AnythingMayFail(j: Journal)
    ensures exists j' :: Fails(j, j')
  {
    var task := match j.task
                case Flushing(_) => Idle
                case Marking(next, _) => Unknown(next)
                case _ => j.task;
    assert Fails(j, j.(poisoned := true, task := task));
  }

  /** All that was pruned, or nothing, may be a hole afterwards, and a crash may find anything there meanwhile. */
  lemma {:induction false} PrunedMayBeHoles(j: Journal, found: Slot, i: nat)
    requires Inv(j) && j.task.Punching?
    ensures exists j' :: Punches(j, j') && j'.disk == j.disk && j'.task == Idle
    ensures exists j' :: Punches(j, j') && |j'.disk.data| == |j.disk.data| && j'.task == Idle
              && forall k :: j.task.from <= k < j.task.to && k < |j.disk.data| ==> j'.disk.data[k] == Hole
    ensures j.task.from <= i < j.task.to && i < |j.disk.data| ==> Crash(j, j.disk.(data := j.disk.data[i := found]))
  {
    hide Covered, Follows;
    CoveredWhole(j.disk.data, j.clean, j.marker);
    assert Punches(j, j.(task := Idle));
    var holes := seq(|j.disk.data|, k requires 0 <= k < |j.disk.data| => if j.task.from <= k < j.task.to then Hole
        else j.disk.data[k]);
    assert Punches(j, j.(disk := j.disk.(data := holes), task := Idle));
  }
}
