/**
 The parallel bootstrap: leaf workers and chasers over write-once cells.

 A thread's work is a list of actions. A leaf job puts leaves; a chaser awaits children, puts
 their parent, and announces after each of its ranges. Awaiting a node that is not ready puts
 the thread to sleep until the epoch moves; only an announcement moves it, and a node may be
 ready long before it is announced. Chasers have a job each; leaf workers acquire the next leaf
 job whenever they are free.
 */
module Build {
  import opened Bits
  import opened Wrappers
  import opened Coordinates
  import opened Forest

  datatype Action = Await(coord: Coord) | Put(coord: Coord) | Announce

  /** What is left to do, what was put since the last announcement, and the epoch slept on. */
  datatype Job = Job(todo: seq<Action>, quiet: set<Coord>, asleep: Option<nat>)

  datatype BuildState = BuildState(cells: map<Coord, Node>, jobs: seq<Job>, chasers: nat, held: seq<Option<nat>>,
                                   next: nat, epoch: nat)

  // ----- Steps -----

  ghost predicate Running(b: BuildState, j: nat) {
    j < |b.jobs| && (j < b.chasers || exists l :: 0 <= l < |b.held| && b.held[l] == Some(j))
  }

  function NewNode(leaves: seq<Node>, cells: map<Coord, Node>, c: Coord): Option<Node> {
    if c.row == 0 then (if c.off < |leaves| then Some(leaves[c.off]) else None)
    else if LeftBelow(c) in cells
        && RightBelow(c) in cells then Some(Combine(cells[LeftBelow(c)], cells[RightBelow(c)]))
    else None
  }

  function Done(job: Job): Job
    requires job.todo != []
  {
    Job(job.todo[1..], job.quiet, None)
  }

  /** A cell is written only if nobody wrote it before. */
  ghost predicate Puts(b: BuildState, b': BuildState, j: nat, leaves: seq<Node>) {
    && Running(b, j) && b.jobs[j].todo != [] && b.jobs[j].todo[0].Put?
    && var c := b.jobs[j].todo[0].coord;
    && c !in b.cells && NewNode(leaves, b.cells, c).Some?
    && b' == b.(cells := b.cells[c := NewNode(leaves, b.cells, c).value],
                jobs := b.jobs[j := Done(b.jobs[j]).(quiet := b.jobs[j].quiet + {c})])
  }

  ghost predicate Announces(b: BuildState, b': BuildState, j: nat) {
    && Running(b, j) && b.jobs[j].todo != [] && b.jobs[j].todo[0].Announce?
    && b' == b.(epoch := b.epoch + 1, jobs := b.jobs[j := Done(b.jobs[j]).(quiet := {})])
  }

  predicate Awake(b: BuildState, job: Job) {
    job.asleep != Some(b.epoch)
  }

  ghost predicate Passes(b: BuildState, b': BuildState, j: nat) {
    && Running(b, j) && b.jobs[j].todo != [] && b.jobs[j].todo[0].Await? && Awake(b, b.jobs[j])
    && b.jobs[j].todo[0].coord in b.cells
    && b' == b.(jobs := b.jobs[j := Done(b.jobs[j])])
  }

  ghost predicate Sleeps(b: BuildState, b': BuildState, j: nat) {
    && Running(b, j) && b.jobs[j].todo != [] && b.jobs[j].todo[0].Await? && Awake(b, b.jobs[j])
    && b.jobs[j].todo[0].coord !in b.cells
    && b' == b.(jobs := b.jobs[j := b.jobs[j].(asleep := Some(b.epoch))])
  }

  ghost predicate Free(b: BuildState, l: nat) {
    l < |b.held| && (match b.held[l] case None => true case Some(j) => j < |b.jobs| && b.jobs[j].todo == [])
  }

  ghost predicate Acquires(b: BuildState, b': BuildState, l: nat) {
    && Free(b, l) && b.next < |b.jobs|
    && b' == b.(held := b.held[l := Some(b.next)], next := b.next + 1)
  }

  /** Everything but going to sleep. */
  ghost predicate Progress(b: BuildState, b': BuildState, leaves: seq<Node>) {
    || (exists j :: Puts(b, b', j, leaves))
    || (exists j :: Announces(b, b', j))
    || (exists j :: Passes(b, b', j))
    || (exists l :: Acquires(b, b', l))
  }

  ghost predicate Step(b: BuildState, b': BuildState, leaves: seq<Node>) {
    Progress(b, b', leaves) || exists j :: Sleeps(b, b', j)
  }

  ghost predicate Finished(b: BuildState) {
    forall j :: 0 <= j < |b.jobs| ==> b.jobs[j].todo == []
  }

  // ----- How a job is written -----

  predicate HasPut(p: seq<Action>, c: Coord) {
    exists x :: 0 <= x < |p| && p[x] == Put(c)
  }

  predicate AwaitedBefore(p: seq<Action>, x: nat, c: Coord)
    requires x <= |p|
  {
    exists y :: 0 <= y < x && p[y] == Await(c)
  }

  predicate QuietBetween(p: seq<Action>, x: nat, y: nat)
    requires y <= |p|
  {
    forall z :: x <= z < y ==> !p[z].Announce?
  }

  /** Whatever is awaited before a put lies below it. */
  predicate AwaitsBelow(p: seq<Action>) {
    forall x, y :: 0 <= x < y < |p| && p[x].Await? && p[y].Put? ==> p[x].coord.row < p[y].coord.row
  }

  /** Whatever is awaited after a put and before the next announcement lies below it. */
  predicate QuietAwaitsBelow(p: seq<Action>) {
    forall x, y :: 0 <= x < y < |p| && p[x].Put? && p[y].Await? && QuietBetween(p, x, y) ==>
          p[y].coord.row < p[x].coord.row
  }

  predicate EndsAnnounced(p: seq<Action>) {
    p != [] ==> p[|p| - 1].Announce?
  }

  predicate PutsOnce(p: seq<Action>) {
    forall x, y :: 0 <= x < y < |p| && p[x].Put? && p[y].Put? ==> p[x].coord != p[y].coord
  }

  /** A parent is put only after both children are ready or have been awaited. */
  predicate ChildrenAwaited(p: seq<Action>, cells: map<Coord, Node>) {
    forall x :: 0 <= x < |p| && p[x].Put? && p[x].coord.row > 0 ==>
      && (LeftBelow(p[x].coord) in cells || AwaitedBefore(p, x, LeftBelow(p[x].coord)))
      && (RightBelow(p[x].coord) in cells || AwaitedBefore(p, x, RightBelow(p[x].coord)))
  }

  predicate QuietBelow(p: seq<Action>, quiet: set<Coord>) {
    && (quiet != {} ==> p != [])
    && forall c, y :: c in quiet && 0 <= y < |p| && p[y].Await? && QuietBetween(p, 0, y) ==> p[y].coord.row < c.row
  }

  predicate Orderly(job: Job, cells: map<Coord, Node>, n: nat) {
    && AwaitsBelow(job.todo) && QuietAwaitsBelow(job.todo) && EndsAnnounced(job.todo) && PutsOnce(job.todo)
    && ChildrenAwaited(job.todo, cells) && QuietBelow(job.todo, job.quiet)
    && (forall x :: 0 <= x < |job.todo| && job.todo[x].Put? ==>
           Ready(n, job.todo[x].coord) && job.todo[x].coord !in cells)
    && (forall x :: 0 <= x < |job.todo| && job.todo[x].Await? ==> Ready(n, job.todo[x].coord))
    && (job.asleep.Some? ==> job.todo != [] && job.todo[0].Await?)
  }

  // ----- The invariant -----

  ghost predicate IsQuiet(b: BuildState, c: Coord) {
    exists j :: 0 <= j < |b.jobs| && c in b.jobs[j].quiet
  }

  ghost predicate Owed(b: BuildState, c: Coord) {
    exists j :: 0 <= j < |b.jobs| && HasPut(b.jobs[j].todo, c)
  }

  /** A sleeper waits for a node that is not ready, or ready and not yet announced. */
  ghost predicate SleepsForReason(b: BuildState, job: Job) {
    job.asleep.Some? && job.todo != [] && job.todo[0].Await? ==>
      && job.asleep.value <= b.epoch
      && (job.asleep.value == b.epoch ==> job.todo[0].coord !in b.cells || IsQuiet(b, job.todo[0].coord))
  }

  ghost predicate Scheduled(b: BuildState) {
    && b.chasers <= b.next <= |b.jobs| && |b.held| > 0
    && (forall l :: 0 <= l < |b.held| && b.held[l].Some? ==> b.chasers <= b.held[l].value < b.next)
    && (forall j :: b.chasers <= j < b.next && b.jobs[j].todo != [] ==>
           exists l :: 0 <= l < |b.held| && b.held[l] == Some(j))
    && (forall j, x :: b.chasers <= j < |b.jobs| && 0 <= x < |b.jobs[j].todo| ==> !b.jobs[j].todo[x].Await?)
    && (forall j :: b.next <= j < |b.jobs| ==> b.jobs[j].quiet == {})
  }

  ghost predicate Apart(jobs: seq<Job>) {
    forall i, j, c :: 0 <= i < j < |jobs| && HasPut(jobs[i].todo, c) ==> !HasPut(jobs[j].todo, c)
  }

  ghost predicate Inv(b: BuildState, leaves: seq<Node>) {
    && Scheduled(b)
    && Apart(b.jobs)
    && (forall j :: 0 <= j < |b.jobs| ==> Orderly(b.jobs[j], b.cells, |leaves|) && SleepsForReason(b, b.jobs[j]))
    && (forall c :: c in b.cells ==> Ready(|leaves|, c) && b.cells[c] == Value(leaves, c))
    && (forall c :: Ready(|leaves|, c) ==> c in b.cells || Owed(b, c))
  }

  // ----- Taking the first action off a job -----

  lemma {:induction false} TailOrdered(p: seq<Action>)
    requires p != [] && AwaitsBelow(p) && QuietAwaitsBelow(p) && EndsAnnounced(p) && PutsOnce(p)
    ensures AwaitsBelow(p[1..]) && QuietAwaitsBelow(p[1..]) && EndsAnnounced(p[1..]) && PutsOnce(p[1..])
  {
    var q := p[1..];
    forall x, y | 0 <= x < y < |q| && q[x].Put? && q[y].Await? && QuietBetween(q, x, y)
      ensures q[y].coord.row < q[x].coord.row
    {
      QuietShift(p, x, y);
      assert p[x + 1] == q[x] && p[y + 1] == q[y];
    }
  }

  lemma {:induction false} QuietShift(p: seq<Action>, x: nat, y: nat)
    requires p != [] && y < |p|
    ensures QuietBetween(p[1..], x, y) <==> QuietBetween(p, x + 1, y + 1)
  {
    if QuietBetween(p[1..], x, y) {
      forall z | x + 1 <= z < y + 1
        ensures !p[z].Announce?
      {
        assert p[1..][z - 1] == p[z];
      }
    }
  }

  lemma {:induction false} TailChildren(p: seq<Action>, cells: map<Coord, Node>, cells': map<Coord, Node>)
    requires p != [] && ChildrenAwaited(p, cells) && cells.Keys <= cells'.Keys && (p[0].Await? ==> p[0].coord in cells')
    ensures ChildrenAwaited(p[1..], cells')
  {
    var q := p[1..];
    forall x | 0 <= x < |q| && q[x].Put? && q[x].coord.row > 0
      ensures LeftBelow(q[x].coord) in cells' || AwaitedBefore(q, x, LeftBelow(q[x].coord))
      ensures RightBelow(q[x].coord) in cells' || AwaitedBefore(q, x, RightBelow(q[x].coord))
    {
      assert p[x + 1] == q[x];
      StillAwaited(p, x, LeftBelow(q[x].coord), cells');
      StillAwaited(p, x, RightBelow(q[x].coord), cells');
    }
  }

  lemma {:induction false} StillAwaited(p: seq<Action>, x: nat, c: Coord, cells': map<Coord, Node>)
    requires p != [] && x < |p| - 1 && (p[0].Await? ==> p[0].coord in cells')
    ensures AwaitedBefore(p, x + 1, c) ==> c in cells' || AwaitedBefore(p[1..], x, c)
  {
    if AwaitedBefore(p, x + 1, c) {
      var y :| 0 <= y < x + 1 && p[y] == Await(c);
      if y > 0 { assert p[1..][y - 1] == Await(c); }
    }
  }

  lemma {:induction false} TailQuiet(p: seq<Action>, quiet: set<Coord>, quiet': set<Coord>)
    requires p != [] && QuietBelow(p, quiet) && QuietAwaitsBelow(p) && EndsAnnounced(p)
    requires match p[0]
             case Await(_) => quiet' == quiet
             case Put(c) => quiet' == quiet + {c}
             case Announce => quiet' == {}
    ensures QuietBelow(p[1..], quiet')
  {
    var q := p[1..];
    forall c, y | c in quiet' && 0 <= y < |q| && q[y].Await? && QuietBetween(q, 0, y)
      ensures q[y].coord.row < c.row
    {
      QuietShift(p, 0, y);
      assert p[y + 1] == q[y];
      assert QuietBetween(p, 0, y + 1);
    }
  }

  lemma {:induction false} TailOrderly(job: Job, cells: map<Coord, Node>, n: nat, cells': map<Coord, Node>,
                                       quiet': set<Coord>)
    requires Orderly(job, cells, n) && job.todo != []
    requires match job.todo[0]
             case Await(c) => cells' == cells && c in cells && quiet' == job.quiet
             case Put(c) => c !in cells && cells'.Keys == cells.Keys + {c} && quiet' == job.quiet + {c}
             case Announce => cells' == cells && quiet' == {}
    ensures Orderly(Job(job.todo[1..], quiet', None), cells', n)
  {
    hide AwaitsBelow, QuietAwaitsBelow, EndsAnnounced, ChildrenAwaited, QuietBelow, Ready;
    var p := job.todo;
    var q := p[1..];
    TailOrdered(p);
    TailChildren(p, cells, cells');
    TailQuiet(p, job.quiet, quiet');
    forall x | 0 <= x < |q| && q[x].Put?
      ensures Ready(n, q[x].coord) && q[x].coord !in cells'
    {
      assert p[x + 1] == q[x];
    }
    forall x | 0 <= x < |q| && q[x].Await?
      ensures Ready(n, q[x].coord)
    {
      assert p[x + 1] == q[x];
    }
  }

  /** A put by one job leaves every other job in order. */
  lemma {:induction false} OtherOrderly(job: Job, cells: map<Coord, Node>, n: nat, cells': map<Coord, Node>, c: Coord)
    requires Orderly(job, cells, n) && cells'.Keys == cells.Keys + {c} && !HasPut(job.todo, c)
    ensures Orderly(job, cells', n)
  {
    hide AwaitsBelow, QuietAwaitsBelow, EndsAnnounced, QuietBelow, Ready, PutsOnce;
    forall x | 0 <= x < |job.todo| && job.todo[x].Put?
      ensures job.todo[x].coord !in cells'
    {
      assert job.todo[x] == Put(job.todo[x].coord);
    }
  }

  lemma {:induction false} TailPuts(p: seq<Action>, c: Coord)
    requires p != []
    ensures HasPut(p[1..], c) ==> HasPut(p, c)
    ensures HasPut(p, c) && p[0] != Put(c) ==> HasPut(p[1..], c)
  {
    if x :| 0 <= x < |p[1..]| && p[1..][x] == Put(c) { assert p[x + 1] == Put(c); }
    if x :| 0 <= x < |p| && p[x] == Put(c) {
      if x > 0 { assert p[1..][x - 1] == Put(c); }
    }
  }

  // ----- Every step keeps the invariant -----

  /** What a job that takes its first action off does to the rest of the schedule. */
  lemma {:induction false} AdvanceKeepsSchedule(b: BuildState, b': BuildState, j: nat, quiet': set<Coord>)
    requires Scheduled(b) && Apart(b.jobs) && Running(b, j) && b.jobs[j].todo != []
    requires b'.jobs == b.jobs[j := Job(b.jobs[j].todo[1..], quiet', None)]
    requires b'.chasers == b.chasers && b'.held == b.held && b'.next == b.next
    ensures Scheduled(b') && Apart(b'.jobs)
    ensures forall c :: Owed(b, c) && b.jobs[j].todo[0] != Put(c) ==> Owed(b', c)
  {
    hide HasPut;
    var p := b.jobs[j].todo;
    forall i, k, c | 0 <= i < k < |b'.jobs| && HasPut(b'.jobs[i].todo, c)
      ensures !HasPut(b'.jobs[k].todo, c)
    {
      TailPuts(p, c);
      assert HasPut(b.jobs[i].todo, c);
      assert !HasPut(b.jobs[k].todo, c);
    }
    forall c | Owed(b, c) && p[0] != Put(c)
      ensures Owed(b', c)
    {
      TailPuts(p, c);
      var i :| 0 <= i < |b.jobs| && HasPut(b.jobs[i].todo, c);
      assert HasPut(b'.jobs[i].todo, c);
    }
    TailNoAwait(b, b', j);
  }

  lemma {:induction false} TailNoAwait(b: BuildState, b': BuildState, j: nat)
    requires Scheduled(b) && Running(b, j) && b.jobs[j].todo != []
    requires |b'.jobs| == |b.jobs| && b'.jobs[j].todo == b.jobs[j].todo[1..]
             && forall i :: 0 <= i < |b.jobs| && i != j ==> b'.jobs[i] == b.jobs[i]
    ensures forall i, x :: b.chasers <= i < |b'.jobs| && 0 <= x < |b'.jobs[i].todo| ==> !b'.jobs[i].todo[x].Await?
  {
    forall i, x | b.chasers <= i < |b'.jobs| && 0 <= x < |b'.jobs[i].todo|
      ensures !b'.jobs[i].todo[x].Await?
    {
      if i == j { assert b'.jobs[j].todo[x] == b.jobs[j].todo[x + 1]; }
    }
  }

  lemma {:induction false} PutKeepsInv(b: BuildState, b': BuildState, j: nat, leaves: seq<Node>)
    requires Inv(b, leaves) && Puts(b, b', j, leaves)
    ensures Inv(b', leaves)
  {
    hide Scheduled, Apart, Ready, Orderly, Owed, HasPut;
    var c := b.jobs[j].todo[0].coord;
    AdvanceKeepsSchedule(b, b', j, b.jobs[j].quiet + {c});
    PutValue(b, j, leaves);
    forall i | 0 <= i < |b.jobs|
      ensures Orderly(b'.jobs[i], b'.cells, |leaves|) && SleepsForReason(b', b'.jobs[i])
    {
      if i == j {
        TailOrderly(b.jobs[j], b.cells, |leaves|, b'.cells, b.jobs[j].quiet + {c});
      } else {
        NotTheirs(b, j, i, c);
        OtherOrderly(b.jobs[i], b.cells, |leaves|, b'.cells, c);
        StillQuiet(b, b', j, c);
      }
    }
    forall d | Ready(|leaves|, d)
      ensures d in b'.cells || Owed(b', d)
    {
      if d != c { assert b.jobs[j].todo[0] != Put(d); }
    }
  }

  lemma {:induction false} PutValue(b: BuildState, j: nat, leaves: seq<Node>)
    requires Inv(b, leaves) && j < |b.jobs| && b.jobs[j].todo != [] && b.jobs[j].todo[0].Put?
    ensures var c := b.jobs[j].todo[0].coord;
            Ready(|leaves|, c) && c !in b.cells && NewNode(leaves, b.cells, c) == Some(Value(leaves, c))
  {
    hide Scheduled, Apart, Owed;
    var c := b.jobs[j].todo[0].coord;
    assert Orderly(b.jobs[j], b.cells, |leaves|);
    if c.row == 0 {
      assert Shr(|leaves|, 0) == |leaves|;
    } else {
      assert !AwaitedBefore(b.jobs[j].todo, 0, LeftBelow(c)) && !AwaitedBefore(b.jobs[j].todo, 0, RightBelow(c));
    }
  }

  lemma {:induction false} NotTheirs(b: BuildState, j: nat, i: nat, c: Coord)
    requires Apart(b.jobs) && j < |b.jobs| && i < |b.jobs| && i != j && b.jobs[j].todo != []
             && b.jobs[j].todo[0] == Put(c)
    ensures !HasPut(b.jobs[i].todo, c)
  {
    assert HasPut(b.jobs[j].todo, c);
  }

  lemma {:induction false} StillQuiet(b: BuildState, b': BuildState, j: nat, c: Coord)
    requires j < |b.jobs| && |b'.jobs| == |b.jobs| && b'.jobs[j].quiet == b.jobs[j].quiet + {c}
    requires forall i :: 0 <= i < |b.jobs| && i != j ==> b'.jobs[i].quiet == b.jobs[i].quiet
    ensures forall d :: IsQuiet(b, d) || d == c ==> IsQuiet(b', d)
  {
    forall d | IsQuiet(b, d) || d == c
      ensures IsQuiet(b', d)
    {
      if d == c {
        assert c in b'.jobs[j].quiet;
      } else {
        var i :| 0 <= i < |b.jobs| && d in b.jobs[i].quiet;
        assert d in b'.jobs[i].quiet;
      }
    }
  }

  lemma {:induction false} AnnounceKeepsInv(b: BuildState, b': BuildState, j: nat, leaves: seq<Node>)
    requires Inv(b, leaves) && Announces(b, b', j)
    ensures Inv(b', leaves)
  {
    hide Scheduled, Apart, Ready, Orderly, Owed;
    AdvanceKeepsSchedule(b, b', j, {});
    forall i | 0 <= i < |b.jobs|
      ensures Orderly(b'.jobs[i], b'.cells, |leaves|) && SleepsForReason(b', b'.jobs[i])
    {
      assert Orderly(b.jobs[i], b.cells, |leaves|);
      if i == j { TailOrderly(b.jobs[j], b.cells, |leaves|, b.cells, {}); }
    }
  }

  lemma {:induction false} PassKeepsInv(b: BuildState, b': BuildState, j: nat, leaves: seq<Node>)
    requires Inv(b, leaves) && Passes(b, b', j)
    ensures Inv(b', leaves)
  {
    hide Scheduled, Apart, Ready, Orderly, Owed;
    AdvanceKeepsSchedule(b, b', j, b.jobs[j].quiet);
    forall i | 0 <= i < |b.jobs|
      ensures Orderly(b'.jobs[i], b'.cells, |leaves|) && SleepsForReason(b', b'.jobs[i])
    {
      assert Orderly(b.jobs[i], b.cells, |leaves|);
      if i == j { TailOrderly(b.jobs[j], b.cells, |leaves|, b.cells, b.jobs[j].quiet); } else { SameQuiet(b, b'); }
    }
  }

  lemma {:induction false} SameQuiet(b: BuildState, b': BuildState)
    requires |b'.jobs| == |b.jobs| && forall i :: 0 <= i < |b.jobs| ==> b'.jobs[i].quiet == b.jobs[i].quiet
    ensures forall d :: IsQuiet(b, d) ==> IsQuiet(b', d)
  {
    forall d | IsQuiet(b, d)
      ensures IsQuiet(b', d)
    {
      var i :| 0 <= i < |b.jobs| && d in b.jobs[i].quiet;
      assert d in b'.jobs[i].quiet;
    }
  }

  lemma {:induction false} SleepKeepsInv(b: BuildState, b': BuildState, j: nat, leaves: seq<Node>)
    requires Inv(b, leaves) && Sleeps(b, b', j)
    ensures Inv(b', leaves)
  {
    hide Ready, Value, Scheduled, Apart, Owed, Orderly, IsQuiet;
    SameQuiet(b, b');
    SameTodo(b, b');
    assert Scheduled(b') by { SleepKeepsSchedule(b, b', j); }
    forall i | 0 <= i < |b.jobs|
      ensures Orderly(b'.jobs[i], b'.cells, |leaves|) && SleepsForReason(b', b'.jobs[i])
    {
      assert Orderly(b.jobs[i], b.cells, |leaves|) && SleepsForReason(b, b.jobs[i]);
      if i == j { AsleepOrderly(b.jobs[j], b.cells, |leaves|, b.epoch); }
    }
  }

  lemma {:induction false} AsleepOrderly(job: Job, cells: map<Coord, Node>, n: nat, epoch: nat)
    requires Orderly(job, cells, n) && job.todo != [] && job.todo[0].Await?
    ensures Orderly(job.(asleep := Some(epoch)), cells, n)
  {
  }

  lemma {:induction false} SleepKeepsSchedule(b: BuildState, b': BuildState, j: nat)
    requires Scheduled(b) && Sleeps(b, b', j)
    ensures Scheduled(b')
  {
  }

  lemma {:induction false} SameTodo(b: BuildState, b': BuildState)
    requires |b'.jobs| == |b.jobs| && forall i :: 0 <= i < |b.jobs| ==> b'.jobs[i].todo == b.jobs[i].todo
    ensures forall c :: Owed(b, c) ==> Owed(b', c)
    ensures Apart(b.jobs) ==> Apart(b'.jobs)
  {
    hide HasPut;
    forall c | Owed(b, c)
      ensures Owed(b', c)
    {
      var i :| 0 <= i < |b.jobs| && HasPut(b.jobs[i].todo, c);
      assert HasPut(b'.jobs[i].todo, c);
    }
  }

  lemma {:induction false} AcquireKeepsInv(b: BuildState, b': BuildState, l: nat, leaves: seq<Node>)
    requires Inv(b, leaves) && Acquires(b, b', l)
    ensures Inv(b', leaves)
  {
    hide Ready, HasPut, Orderly;
    SameQuiet(b, b');
    SameTodo(b, b');
    forall j | b'.chasers <= j < b'.next && b'.jobs[j].todo != []
      ensures exists m :: 0 <= m < |b'.held| && b'.held[m] == Some(j)
    {
      if j == b.next {
        assert b'.held[l] == Some(j);
      } else {
        var m :| 0 <= m < |b.held| && b.held[m] == Some(j);
        assert b'.held[m] == Some(j);
      }
    }
    forall i | 0 <= i < |b.jobs|
      ensures SleepsForReason(b', b'.jobs[i])
    {
      assert SleepsForReason(b, b.jobs[i]);
    }
  }

  lemma {:induction false} StepKeepsInv(b: BuildState, b': BuildState, leaves: seq<Node>)
    requires Inv(b, leaves) && Step(b, b', leaves)
    ensures Inv(b', leaves)
  {
    hide Inv;
    if j :| Puts(b, b', j, leaves) {
      PutKeepsInv(b, b', j, leaves);
    } else if j :| Announces(b, b', j) {
      AnnounceKeepsInv(b, b', j, leaves);
    } else if j :| Passes(b, b', j) {
      PassKeepsInv(b, b', j, leaves);
    } else if j :| Sleeps(b, b', j) {
      SleepKeepsInv(b, b', j, leaves);
    } else {
      var l :| Acquires(b, b', l);
      AcquireKeepsInv(b, b', l, leaves);
    }
  }

  // ----- No deadlock -----

  /** The job can do nothing but sleep. */
  predicate Blocked(b: BuildState, j: nat) {
    j < |b.jobs| && b.jobs[j].todo != [] && b.jobs[j].todo[0].Await?
        && (b.jobs[j].todo[0].coord !in b.cells || !Awake(b, b.jobs[j]))
  }

  /** Who is to put a node that is not ready, or to announce one that is, waits only below it. */
  lemma {:induction false} WaitsLower(b: BuildState, leaves: seq<Node>, j: nat) returns (k: nat)
    requires Inv(b, leaves) && Blocked(b, j)
    ensures k < |b.jobs| && b.jobs[k].todo != []
    ensures Blocked(b, k) ==> b.jobs[k].todo[0].coord.row < b.jobs[j].todo[0].coord.row
  {
    hide Scheduled, Apart, Ready, HasPut, ChildrenAwaited, PutsOnce, QuietAwaitsBelow;
    var c := b.jobs[j].todo[0].coord;
    assert Orderly(b.jobs[j], b.cells, |leaves|) && SleepsForReason(b, b.jobs[j]);
    if c !in b.cells {
      assert Owed(b, c);
      k :| 0 <= k < |b.jobs| && HasPut(b.jobs[k].todo, c);
      OwesAbove(b.jobs[k].todo, c) by { assert Orderly(b.jobs[k], b.cells, |leaves|); }
    } else {
      assert IsQuiet(b, c);
      k :| 0 <= k < |b.jobs| && c in b.jobs[k].quiet;
      assert Orderly(b.jobs[k], b.cells, |leaves|);
      assert QuietBetween(b.jobs[k].todo, 0, 0);
    }
  }

  lemma {:induction false} OwesAbove(p: seq<Action>, c: Coord)
    requires HasPut(p, c) && AwaitsBelow(p)
    ensures p != [] && (p[0].Await? ==> p[0].coord.row < c.row)
  {
    var x :| 0 <= x < |p| && p[x] == Put(c);
    if p[0].Await? { assert x > 0; }
  }

  /** Following who waits for whom downwards ends at a job that can go on. */
  lemma {:induction false} SomeUnblocked(b: BuildState, leaves: seq<Node>, j: nat) returns (k: nat)
    requires Inv(b, leaves) && j < |b.jobs| && b.jobs[j].todo != []
    ensures k < |b.jobs| && b.jobs[k].todo != [] && !Blocked(b, k)
    decreases if Blocked(b, j) then 1 + b.jobs[j].todo[0].coord.row else 0
  {
    hide Inv;
    if Blocked(b, j) {
      k := WaitsLower(b, leaves, j);
      k := SomeUnblocked(b, leaves, k);
    } else {
      k := j;
    }
  }

  lemma {:induction false} RunningProgresses(b: BuildState, leaves: seq<Node>, j: nat) returns (b': BuildState)
    requires Inv(b, leaves) && Running(b, j) && b.jobs[j].todo != [] && !Blocked(b, j)
    ensures Progress(b, b', leaves)
  {
    hide Inv;
    var job := b.jobs[j];
    match job.todo[0]
    case Put(c) =>
      PutValue(b, j, leaves);
      b' := b.(cells := b.cells[c := NewNode(leaves, b.cells, c).value],
          jobs := b.jobs[j := Done(job).(quiet := job.quiet + {c})]);
      assert Puts(b, b', j, leaves);
    case Announce =>
      b' := b.(epoch := b.epoch + 1, jobs := b.jobs[j := Done(job).(quiet := {})]);
      assert Announces(b, b', j);
    case Await(c) =>
      b' := b.(jobs := b.jobs[j := Done(job)]);
      assert Passes(b, b', j);
  }

  /** In every state that is not finished some worker can go on: no deadlock, no lost wakeup. */
  lemma {:induction false} NoDeadlock(b: BuildState, leaves: seq<Node>) returns (b': BuildState)
    requires Inv(b, leaves) && !Finished(b)
    ensures Progress(b, b', leaves)
  {
    hide Orderly, SleepsForReason, Apart, Ready, Owed;
    var j :| 0 <= j < |b.jobs| && b.jobs[j].todo != [];
    var k := SomeUnblocked(b, leaves, j);
    if k < b.next {
      if k >= b.chasers {
        var l :| 0 <= l < |b.held| && b.held[l] == Some(k);
      }
      b' := RunningProgresses(b, leaves, k);
    } else if Free(b, 0) {
      b' := b.(held := b.held[0 := Some(b.next)], next := b.next + 1);
      assert Acquires(b, b', 0);
    } else {
      var m := b.held[0].value;
      assert b.jobs[m].todo[0] == b.jobs[m].todo[0] && !b.jobs[m].todo[0].Await?;
      b' := RunningProgresses(b, leaves, m);
    }
  }

  // ----- Finished builds -----

  /** A finished build has put exactly the forest of its leaves, so all finished builds agree. */
  lemma {:induction false} FinishedIsForest(b: BuildState, leaves: seq<Node>)
    requires Inv(b, leaves) && Finished(b)
    ensures forall c :: c in b.cells <==> Ready(|leaves|, c)
    ensures forall c :: c in b.cells ==> b.cells[c] == Value(leaves, c)
  {
    hide Ready, Scheduled, Apart, Orderly;
    forall c | Ready(|leaves|, c)
      ensures c in b.cells
    {
      if Owed(b, c) {
        assert false;
      }
    }
  }

  /** The file the cells make up. */
  function Flat(cells: map<Coord, Node>, rows: nat): (r: seq<NodeState>)
    ensures |r| == Capacity(rows)
  {
    seq(Capacity(rows), p requires 0 <= p < Capacity(rows) =>
      if At(p, rows) in cells then ReadyState(cells[At(p, rows)]) else UNINITIALIZED)
  }

  /** The built file is the one rebuilt from the leaves, at any preallocated height. */
  lemma {:induction false} FinishedIsRebuild(b: BuildState, leaves: seq<Node>, rows: nat)
    requires Inv(b, leaves) && Finished(b) && rows <= MAX_ROWS && |leaves| <= Pow2(rows)
    ensures Flat(b.cells, rows) == Rebuild(leaves, rows)
  {
    hide Inv, Finished, At, Pow2, Value, Ready;
    FinishedIsForest(b, leaves);
  }

  /** Each step writes at most one cell and never one that was written before. */
  lemma {:induction false} WriteOnce(b: BuildState, b': BuildState, leaves: seq<Node>)
    requires Step(b, b', leaves)
    ensures forall c :: c in b.cells ==> c in b'.cells && b'.cells[c] == b.cells[c]
  {
  }

  /** A job never finds a cell it is to write already written, and never lacks a child. */
  lemma {:induction false} PutNeverFails(b: BuildState, leaves: seq<Node>, j: nat)
    requires Inv(b, leaves) && j < |b.jobs| && b.jobs[j].todo != [] && b.jobs[j].todo[0].Put?
    ensures b.jobs[j].todo[0].coord !in b.cells && NewNode(leaves, b.cells, b.jobs[j].todo[0].coord).Some?
  {
    hide Inv;
    PutValue(b, j, leaves);
  }

  ghost predicate IsRun(run: seq<BuildState>, leaves: seq<Node>) {
    |run| > 0 && Inv(run[0], leaves) && forall i :: 0 <= i < |run| - 1 ==> Step(run[i], run[i + 1], leaves)
  }

  lemma {:induction false} RunKeepsInv(run: seq<BuildState>, leaves: seq<Node>)
    requires IsRun(run, leaves)
    ensures Inv(run[|run| - 1], leaves)
  {
    hide Inv, Step;
    if |run| > 1 {
      var n := |run| - 1;
      RunKeepsInv(run[..n], leaves);
      assert Step(run[n - 1], run[n], leaves);
      StepKeepsInv(run[n - 1], run[n], leaves);
    }
  }

  /** Whatever the number of workers and the schedule, finished runs over the same leaves agree. */
  lemma {:induction false} FinishedRunsAgree(run: seq<BuildState>, run': seq<BuildState>, leaves: seq<Node>)
    requires IsRun(run, leaves) && IsRun(run', leaves)
    requires Finished(run[|run| - 1]) && Finished(run'[|run'| - 1])
    ensures run[|run| - 1].cells == run'[|run'| - 1].cells
  {
    hide Inv, Step, Finished, Ready;
    RunKeepsInv(run, leaves);
    RunKeepsInv(run', leaves);
    FinishedIsForest(run[|run| - 1], leaves);
    FinishedIsForest(run'[|run'| - 1], leaves);
  }

  // ----- Every build ends -----

  /** The actions of the first `n` jobs that are still to be done. */
  function ActionsLeft(jobs: seq<Job>, n: nat): nat
    requires n <= |jobs|
  {
    if n == 0 then 0 else ActionsLeft(jobs, n - 1) + |jobs[n - 1].todo|
  }

  /** How many of the first `n` jobs are not asleep on this epoch. */
  function AwakeCount(jobs: seq<Job>, epoch: nat, n: nat): (count: nat)
    requires n <= |jobs|
    ensures count <= n
  {
    if n == 0 then 0 else AwakeCount(jobs, epoch, n - 1) + (if jobs[n - 1].asleep == Some(epoch) then 0 else 1)
  }

  /** The steps of progress still to come. */
  function Work(b: BuildState): int {
    ActionsLeft(b.jobs, |b.jobs|) + |b.jobs| - b.next
  }

  /** Each step of progress may wake every job once. */
  function Rank(b: BuildState): int {
    Work(b) * (|b.jobs| + 1) + AwakeCount(b.jobs, b.epoch, |b.jobs|)
  }

  lemma {:induction false} OneActionLess(jobs: seq<Job>, j: nat, job: Job, n: nat)
    requires j < |jobs| && n <= |jobs| && |job.todo| == |jobs[j].todo| - 1
    ensures ActionsLeft(jobs[j := job], n) == ActionsLeft(jobs, n) - (if j < n then 1 else 0)
  {
    if n > 0 { OneActionLess(jobs, j, job, n - 1); }
  }

  lemma {:induction false} OneAsleep(jobs: seq<Job>, j: nat, epoch: nat, n: nat)
    requires j < |jobs| && n <= |jobs| && jobs[j].asleep != Some(epoch)
    ensures var jobs' := jobs[j := jobs[j].(asleep := Some(epoch))];
            && AwakeCount(jobs', epoch, n) == AwakeCount(jobs, epoch, n) - (if j < n then 1 else 0)
            && ActionsLeft(jobs', n) == ActionsLeft(jobs, n)
  {
    if n > 0 { OneAsleep(jobs, j, epoch, n - 1); }
  }

  /** Progress takes one piece of work away, and sleeping takes none and wakes nobody. */
  lemma {:induction false} StepWorks(b: BuildState, b': BuildState, leaves: seq<Node>)
    requires Step(b, b', leaves)
    ensures |b'.jobs| == |b.jobs|
    ensures Progress(b, b', leaves) ==> Work(b') == Work(b) - 1
    ensures !Progress(b, b', leaves) ==>
              Work(b') == Work(b)
                  && AwakeCount(b'.jobs, b'.epoch, |b.jobs|) == AwakeCount(b.jobs, b.epoch, |b.jobs|) - 1
  {
    hide ActionsLeft, AwakeCount;
    var n := |b.jobs|;
    if j: nat :| Puts(b, b', j, leaves) {
      OneActionLess(b.jobs, j, b'.jobs[j], n);
    } else if j: nat :| Announces(b, b', j) {
      OneActionLess(b.jobs, j, b'.jobs[j], n);
    } else if j: nat :| Passes(b, b', j) {
      OneActionLess(b.jobs, j, b'.jobs[j], n);
    } else if l: nat :| Acquires(b, b', l) {
    } else {
      var j: nat :| Sleeps(b, b', j);
      OneAsleep(b.jobs, j, b.epoch, n);
    }
  }

  /** Every step of every worker, going to sleep included, lowers the rank. */
  lemma {:induction false} StepLowersRank(b: BuildState, b': BuildState, leaves: seq<Node>)
    requires Step(b, b', leaves)
    ensures Rank(b') < Rank(b)
  {
    hide Step, Progress, Work;
    StepWorks(b, b', leaves);
    var n, w := |b.jobs|, Work(b);
    if Progress(b, b', leaves) {
      assert (w - 1) * (n + 1) == w * (n + 1) - (n + 1);
    }
  }

  lemma {:induction false} RankPositive(b: BuildState, leaves: seq<Node>)
    requires Inv(b, leaves)
    ensures Rank(b) >= 0
  {
    hide Apart, Orderly, Owed, Ready;
    assert Work(b) >= 0;
    assert Work(b) * (|b.jobs| + 1) >= 0;
  }

  /** Every node of the forest is there, with its value, and nothing else. */
  ghost predicate Built(b: BuildState, leaves: seq<Node>) {
    && (forall c :: c in b.cells <==> Ready(|leaves|, c))
    && forall c :: c in b.cells ==> b.cells[c] == Value(leaves, c)
  }

  /**
   No schedule goes on forever: a run has at most as many steps as the rank it starts with, and one
   in which no worker can make progress any more has built the forest of the leaves.
   */
  lemma {:induction false} EveryRunEnds(run: seq<BuildState>, leaves: seq<Node>)
    requires IsRun(run, leaves)
    ensures |run| - 1 <= Rank(run[0]) - Rank(run[|run| - 1]) <= Rank(run[0])
    ensures var b := run[|run| - 1];
            (forall b' :: !Progress(b, b', leaves)) ==> Finished(b) && Built(b, leaves)
  {
    hide Inv, Step, Progress, Rank, Built, Finished;
    RankFalls(run, leaves);
    RunKeepsInv(run, leaves);
    RankPositive(run[|run| - 1], leaves);
    StuckIsBuilt(run[|run| - 1], leaves);
  }

  lemma {:induction false} StuckIsBuilt(b: BuildState, leaves: seq<Node>)
    requires Inv(b, leaves)
    ensures (forall b' :: !Progress(b, b', leaves)) ==> Finished(b) && Built(b, leaves)
  {
    hide Inv, Progress, Ready, Value, Finished;
    if !Finished(b) {
      var b' := NoDeadlock(b, leaves);
    } else {
      FinishedIsForest(b, leaves);
    }
  }

  lemma {:induction false} RankFalls(run: seq<BuildState>, leaves: seq<Node>)
    requires IsRun(run, leaves)
    ensures |run| - 1 <= Rank(run[0]) - Rank(run[|run| - 1])
  {
    hide Inv, Step, Rank;
    if |run| > 1 {
      var n := |run| - 1;
      RankFalls(run[..n], leaves);
      assert Step(run[n - 1], run[n], leaves);
      StepLowersRank(run[n - 1], run[n], leaves);
    }
  }
}
