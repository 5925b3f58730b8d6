/**
 The jobs of a bootstrap: who puts which node, and in which order.

 Chasers share each row out in ranges of parents, range number modulo the number of chasers, and
 go through the rows upwards. Leaf jobs are runs of block heights. Together they put every node
 of the forest exactly once, in an order that cannot deadlock.
 */
module Schedule {
  import opened Bits
  import opened Wrappers
  import opened Coordinates
  import opened Forest
  import opened Build

  const HEIGHT_CHUNK_SIZE: nat := 4

  // ----- Joining pieces of a job -----

  /** Awaits and puts lie in a band of rows. */
  predicate Banded(p: seq<Action>, low: nat, high: nat) {
    forall x :: 0 <= x < |p| ==>
      match p[x] case Await(c) => low <= c.row <= high case Put(c) => low + 1 <= c.row <= high + 1 case Announce => true
  }

  predicate WellOrdered(p: seq<Action>) {
    AwaitsBelow(p) && QuietAwaitsBelow(p) && EndsAnnounced(p) && ChildrenAwaited(p, map[])
  }

  lemma {:induction false} JoinOrdered(a: seq<Action>, b: seq<Action>, low: nat, middle: nat, high: nat)
    requires WellOrdered(a) && WellOrdered(b) && Banded(a, low, middle) && Banded(b, middle, high)
             && low <= middle <= high
    ensures WellOrdered(a + b) && Banded(a + b, low, high)
  {
    hide ChildrenAwaited;
    var p := a + b;
    forall x, y | 0 <= x < y < |p| && p[x].Await? && p[y].Put?
      ensures p[x].coord.row < p[y].coord.row
    {
      if x < |a| <= y {
        assert p[y] == b[y - |a|];
      } else if |a| <= x {
        assert p[x] == b[x - |a|] && p[y] == b[y - |a|];
      }
    }
    JoinQuiet(a, b);
    JoinChildren(a, b);
    assert EndsAnnounced(p) by {
      if b != [] { assert p[|p| - 1] == b[|b| - 1]; } else { assert p == a; }
    }
    forall x | 0 <= x < |p|
      ensures match p[x] case Await(c) => low <= c.row <= high case Put(c) => low + 1 <= c.row <= high
              + 1 case Announce => true
    {
      if x >= |a| { assert p[x] == b[x - |a|]; } else { assert p[x] == a[x]; }
    }
  }

  lemma {:induction false} JoinQuiet(a: seq<Action>, b: seq<Action>)
    requires QuietAwaitsBelow(a) && QuietAwaitsBelow(b) && EndsAnnounced(a)
    ensures QuietAwaitsBelow(a + b)
  {
    var p := a + b;
    forall x, y | 0 <= x < y < |p| && p[x].Put? && p[y].Await? && QuietBetween(p, x, y)
      ensures p[y].coord.row < p[x].coord.row
    {
      if y < |a| {
        assert QuietBetween(a, x, y) by { assert forall z :: x <= z < y ==> a[z] == p[z]; }
      } else if x < |a| {
        AnnouncedBetween(a, b, x, y);
        assert false;
      } else {
        assert QuietBetween(b, x - |a|, y - |a|) by { assert forall z :: x - |a| <= z < y - |a| ==>
              b[z] == p[z + |a|]; }
        assert p[x] == b[x - |a|] && p[y] == b[y - |a|];
      }
    }
  }

  lemma {:induction false} AnnouncedBetween(a: seq<Action>, b: seq<Action>, x: nat, y: nat)
    requires EndsAnnounced(a) && x < |a| <= y <= |a + b|
    ensures !QuietBetween(a + b, x, y)
  {
    assert (a + b)[|a| - 1].Announce?;
  }

  lemma {:induction false} JoinChildren(a: seq<Action>, b: seq<Action>)
    requires ChildrenAwaited(a, map[]) && ChildrenAwaited(b, map[])
    ensures ChildrenAwaited(a + b, map[])
  {
    var p := a + b;
    forall x | 0 <= x < |p| && p[x].Put? && p[x].coord.row > 0
      ensures AwaitedBefore(p, x, LeftBelow(p[x].coord)) && AwaitedBefore(p, x, RightBelow(p[x].coord))
    {
      if x < |a| {
        AwaitedInFront(a, b, x, LeftBelow(a[x].coord));
        AwaitedInFront(a, b, x, RightBelow(a[x].coord));
      } else {
        AwaitedBehind(a, b, x - |a|, LeftBelow(b[x - |a|].coord));
        AwaitedBehind(a, b, x - |a|, RightBelow(b[x - |a|].coord));
      }
    }
  }

  lemma {:induction false} AwaitedInFront(a: seq<Action>, b: seq<Action>, x: nat, c: Coord)
    requires x <= |a| && AwaitedBefore(a, x, c)
    ensures AwaitedBefore(a + b, x, c)
  {
    var y :| 0 <= y < x && a[y] == Await(c);
    assert (a + b)[y] == Await(c);
  }

  lemma {:induction false} AwaitedBehind(a: seq<Action>, b: seq<Action>, x: nat, c: Coord)
    requires x <= |b| && AwaitedBefore(b, x, c)
    ensures AwaitedBefore(a + b, |a| + x, c)
  {
    var y :| 0 <= y < x && b[y] == Await(c);
    assert (a + b)[|a| + y] == Await(c);
  }

  lemma {:induction false} JoinPuts(a: seq<Action>, b: seq<Action>, c: Coord)
    ensures HasPut(a + b, c) <==> HasPut(a, c) || HasPut(b, c)
  {
    var p := a + b;
    if x :| 0 <= x < |p| && p[x] == Put(c) {
      if x < |a| { assert a[x] == Put(c); } else { assert b[x - |a|] == Put(c); }
    }
    if x :| 0 <= x < |a| && a[x] == Put(c) { assert p[x] == Put(c); }
    if x :| 0 <= x < |b| && b[x] == Put(c) { assert p[|a| + x] == Put(c); }
  }

  lemma {:induction false} JoinOnce(a: seq<Action>, b: seq<Action>)
    requires PutsOnce(a) && PutsOnce(b) && forall c :: HasPut(a, c) ==> !HasPut(b, c)
    ensures PutsOnce(a + b)
  {
    var p := a + b;
    forall x, y | 0 <= x < y < |p| && p[x].Put? && p[y].Put?
      ensures p[x].coord != p[y].coord
    {
      if x < |a| <= y {
        assert a[x] == Put(p[x].coord) && HasPut(a, p[x].coord);
        assert b[y - |a|] == Put(p[y].coord) && HasPut(b, p[y].coord);
      } else if |a| <= x {
        assert p[x] == b[x - |a|] && p[y] == b[y - |a|];
      }
    }
  }

  predicate AwaitsReady(p: seq<Action>, n: nat) {
    forall x :: 0 <= x < |p| && p[x].Await? ==> Ready(n, p[x].coord)
  }

  lemma {:induction false} JoinReady(a: seq<Action>, b: seq<Action>, n: nat)
    requires AwaitsReady(a, n) && AwaitsReady(b, n)
    ensures AwaitsReady(a + b, n)
  {
    forall x | 0 <= x < |a + b| && (a + b)[x].Await?
      ensures Ready(n, (a + b)[x].coord)
    {
      if x >= |a| { assert (a + b)[x] == b[x - |a|]; } else { assert (a + b)[x] == a[x]; }
    }
  }

  // ----- Ranges of parents -----

  function ChunkCount(total: nat, minimum: nat): (count: nat)
    requires minimum > 0
    ensures count > 0
  {
    if total / minimum == 0 then 1 else total / minimum
  }

  function ChunkStart(minimum: nat, chunk: nat): nat {
    chunk * minimum
  }

  function ChunkEnd(total: nat, minimum: nat, chunk: nat): nat
    requires minimum > 0
  {
    if chunk + 1 == ChunkCount(total, minimum) then total else chunk * minimum + minimum
  }

  /** The range a parent falls into. */
  function ChunkOf(total: nat, minimum: nat, o: nat): (chunk: nat)
    requires minimum > 0
    ensures chunk < ChunkCount(total, minimum)
  {
    if o / minimum < ChunkCount(total, minimum) then o / minimum else ChunkCount(total, minimum) - 1
  }

  lemma {:induction false} Quotient(o: nat, m: nat, q: nat)
    requires m > 0
    ensures q <= o / m <==> q * m <= o
    ensures o / m == q <==> q * m <= o < q * m + m
  {
    var d, r := o / m, o % m;
    assert o == d * m + r;
    if q <= d { Scaled(q, d, m); } else { Scaled(d + 1, q, m); assert (d + 1) * m == d * m + m; }
    if q < d { Scaled(q + 1, d, m); assert (q + 1) * m == q * m + m; }
  }

  lemma {:induction false} Scaled(a: nat, b: nat, m: nat)
    requires a <= b
    ensures a * m <= b * m
  {
  }

  /** The ranges of a row partition its parents. */
  lemma {:induction false} ChunksPartition(total: nat, minimum: nat, chunk: nat, o: nat)
    requires minimum > 0 && chunk < ChunkCount(total, minimum)
    ensures total > 0 ==> ChunkStart(minimum, chunk) < ChunkEnd(total, minimum, chunk) <= total
    ensures o < total ==>
              (ChunkStart(minimum, chunk) <= o < ChunkEnd(total, minimum, chunk) <==>
                ChunkOf(total, minimum, o) == chunk)
  {
    var count := ChunkCount(total, minimum);
    Quotient(o, minimum, chunk);
    Quotient(total, minimum, chunk);
    Quotient(total, minimum, chunk + 1);
    assert (chunk + 1) * minimum == chunk * minimum + minimum;
    if o < total { Quotient(total, minimum, o / minimum); Quotient(o, minimum, o / minimum); }
  }

  /** Which of `workers` takes a range: its number modulo their number. */
  function Owner(chunk: nat, workers: nat): (w: nat)
    requires workers > 0
    ensures w < workers && w <= chunk
  {
    if chunk < workers then chunk else Owner(chunk - workers, workers)
  }

  lemma {:induction false} OwnerIsRemainder(chunk: nat, workers: nat)
    requires workers > 0
    ensures Owner(chunk, workers) == chunk % workers
  {
    if chunk >= workers {
      OwnerIsRemainder(chunk - workers, workers);
      SameRemainder(chunk, workers);
    }
  }

  lemma {:induction false} SameRemainder(x: nat, m: nat)
    requires 0 < m <= x
    ensures (x - m) % m == x % m
  {
    var q: nat := x / m;
    Quotient(x, m, 1);
    assert (q - 1) * m == q * m - m;
    Quotient(x, m, q);
    Quotient(x - m, m, q - 1);
    Divided(x, m, q);
    Divided(x - m, m, q - 1);
  }

  lemma {:induction false} Divided(x: nat, m: nat, q: nat)
    requires m > 0 && x / m == q
    ensures x % m == x - q * m
  {
  }

  lemma {:induction false} OwnerGap(chunk: nat, other: nat, workers: nat)
    requires workers > 0 && chunk < other < chunk + workers
    ensures Owner(chunk, workers) != Owner(other, workers)
    decreases chunk
  {
    if chunk >= workers { OwnerGap(chunk - workers, other - workers, workers); }
  }

  // ----- A chaser -----

  /** Left child, right child, parent, for each parent of the range. */
  function Parents(row: nat, first: nat, end: nat): (p: seq<Action>)
    requires first <= end
    ensures |p| == 3 * (end - first)
  {
    seq(3 * (end - first), i requires 0 <= i < 3 * (end - first) =>
      var o := first + i / 3;
      if i % 3 == 0 then Await(Coord(row, 2 * o))
      else if i % 3 == 1 then Await(Coord(row, 2 * o + 1))
      else Put(Coord(row + 1, o)))
  }

  function ChunkActions(row: nat, first: nat, end: nat): seq<Action>
    requires first < end
  {
    [Await(Coord(row, 2 * end - 1))] + Parents(row, first, end) + [Announce]
  }

  /** What a chaser does at each point of a range. */
  lemma {:induction false} ChunkAt(row: nat, first: nat, end: nat, x: nat)
    requires first < end && x < |ChunkActions(row, first, end)|
    ensures |ChunkActions(row, first, end)| == 3 * (end - first) + 2
    ensures var a, o := ChunkActions(row, first, end)[x], first + (x - 1) / 3;
            if x == 0 then a == Await(Coord(row, 2 * end - 1))
            else if x == 3 * (end - first) + 1 then a == Announce
            else
              && first <= o < end
              && a == if (x - 1) % 3 == 0 then Await(Coord(row, 2 * o))
                      else if (x - 1) % 3 == 1 then Await(Coord(row, 2 * o + 1))
                      else Put(Coord(row + 1, o))
  {
  }

  lemma {:induction false} ChunkBanded(row: nat, first: nat, end: nat, n: nat)
    requires first < end <= Shr(n, row + 1)
    ensures var p := ChunkActions(row, first, end);
            Banded(p, row, row) && AwaitsReady(p, n) && EndsAnnounced(p)
  {
    hide ChunkActions, Shr;
    var p := ChunkActions(row, first, end);
    ShrStep(n, row);
    forall x | 0 <= x < |p|
      ensures match p[x] case Await(c) => c.row == row
              && Ready(n, c) case Put(c) => c.row == row + 1 case Announce => true
    {
      ChunkAt(row, first, end, x);
    }
    if p != [] { ChunkAt(row, first, end, |p| - 1); }
  }

  lemma {:induction false} ChunkPuts(row: nat, first: nat, end: nat, c: Coord)
    requires first < end
    ensures HasPut(ChunkActions(row, first, end), c) <==> c.row == row + 1 && first <= c.off < end
  {
    hide ChunkActions;
    var p := ChunkActions(row, first, end);
    ChunkLength(row, first, end);
    if c.row == row + 1 && first <= c.off < end {
      var x := 3 * (c.off - first) + 3;
      ChunkAt(row, first, end, x);
      assert p[x] == Put(c);
    }
    if x :| 0 <= x < |p| && p[x] == Put(c) { ChunkAt(row, first, end, x); }
  }

  lemma {:induction false} ChunkLength(row: nat, first: nat, end: nat)
    requires first < end
    ensures |ChunkActions(row, first, end)| == 3 * (end - first) + 2
  {
  }

  lemma {:induction false} ChunkOnce(row: nat, first: nat, end: nat)
    requires first < end
    ensures PutsOnce(ChunkActions(row, first, end)) && ChildrenAwaited(ChunkActions(row, first, end), map[])
  {
    hide ChunkActions;
    var p := ChunkActions(row, first, end);
    forall x, y | 0 <= x < y < |p| && p[x].Put? && p[y].Put?
      ensures p[x].coord != p[y].coord
    {
      ChunkAt(row, first, end, x);
      ChunkAt(row, first, end, y);
    }
    forall x | 0 <= x < |p| && p[x].Put?
      ensures p[x].coord.row > 0 && AwaitedBefore(p, x, LeftBelow(p[x].coord))
              && AwaitedBefore(p, x, RightBelow(p[x].coord))
    {
      ChunkAt(row, first, end, x);
      ChunkAt(row, first, end, x - 1);
      ChunkAt(row, first, end, x - 2);
      assert p[x - 2] == Await(LeftBelow(p[x].coord)) && p[x - 1] == Await(RightBelow(p[x].coord));
    }
  }

  lemma {:induction false} BandOrdered(p: seq<Action>, row: nat)
    requires Banded(p, row, row)
    ensures AwaitsBelow(p) && QuietAwaitsBelow(p)
  {
    hide QuietBetween;
  }

  lemma {:induction false} ChunkOrdered(row: nat, first: nat, end: nat, n: nat)
    requires first < end <= Shr(n, row + 1)
    ensures var p := ChunkActions(row, first, end);
            WellOrdered(p) && Banded(p, row, row) && PutsOnce(p) && AwaitsReady(p, n)
    ensures forall c :: HasPut(ChunkActions(row, first, end), c) <==> c.row == row + 1 && first <= c.off < end
  {
    hide ChunkActions, Shr, Banded, PutsOnce, AwaitsReady, HasPut, AwaitsBelow, QuietAwaitsBelow, EndsAnnounced,
         ChildrenAwaited;
    ChunkBanded(row, first, end, n);
    ChunkOnce(row, first, end);
    BandOrdered(ChunkActions(row, first, end), row);
    forall c
      ensures HasPut(ChunkActions(row, first, end), c) <==> c.row == row + 1 && first <= c.off < end
    {
      ChunkPuts(row, first, end, c);
    }
  }

  lemma {:induction false} ShrStep(n: nat, row: nat)
    ensures Shr(n, row + 1) == Shr(n, row) / 2
  {
  }

  /** The ranges of one row that a worker takes, from its range `chunk` on. */
  function RowActions(row: nat, total: nat, minimum: nat, chunk: nat, workers: nat): seq<Action>
    requires minimum > 0 && workers > 0 && total > 0
    decreases ChunkCount(total, minimum) - chunk
  {
    if chunk >= ChunkCount(total, minimum) then []
    else
      ChunksPartition(total, minimum, chunk, 0);
      ChunkActions(row, ChunkStart(minimum, chunk), ChunkEnd(total, minimum, chunk))
          + RowActions(row, total, minimum, chunk + workers, workers)
  }

  predicate InRow(row: nat, total: nat, minimum: nat, chunk: nat, workers: nat, c: Coord)
    requires minimum > 0 && workers > 0
  {
    c.row == row + 1 && c.off < total && ChunkOf(total, minimum, c.off) >= chunk
    && Owner(ChunkOf(total, minimum, c.off), workers) == Owner(chunk, workers)
  }

  lemma {:induction false} RowOrdered(row: nat, n: nat, total: nat, minimum: nat, chunk: nat, workers: nat)
    requires minimum > 0 && workers > 0 && total == Shr(n, row + 1) > 0
    ensures var p := RowActions(row, total, minimum, chunk, workers);
            WellOrdered(p) && Banded(p, row, row) && PutsOnce(p) && AwaitsReady(p, n)
    ensures forall c :: HasPut(RowActions(row, total, minimum, chunk, workers), c) <==>
              InRow(row, total, minimum, chunk, workers, c)
    decreases ChunkCount(total, minimum) - chunk
  {
    hide WellOrdered, Banded, PutsOnce, AwaitsReady, HasPut, Shr, ChunkActions, ChunkOf, ChunkCount, ChunkStart,
         ChunkEnd, Owner;
    if chunk >= ChunkCount(total, minimum) {
      NothingToDo(row, n);
    } else {
      ChunksPartition(total, minimum, chunk, 0);
      var a := ChunkActions(row, ChunkStart(minimum, chunk), ChunkEnd(total, minimum, chunk));
      var b := RowActions(row, total, minimum, chunk + workers, workers);
      ChunkOrdered(row, ChunkStart(minimum, chunk), ChunkEnd(total, minimum, chunk), n);
      RowOrdered(row, n, total, minimum, chunk + workers, workers);
      JoinOrdered(a, b, row, row, row);
      JoinReady(a, b, n);
      forall c
        ensures HasPut(a + b, c) <==> InRow(row, total, minimum, chunk, workers, c)
        ensures HasPut(a, c) ==> !HasPut(b, c)
      {
        JoinPuts(a, b, c);
        RowStep(row, total, minimum, chunk, workers, c);
      }
      JoinOnce(a, b);
    }
  }

  lemma {:induction false} NothingToDo(row: nat, n: nat)
    ensures WellOrdered([]) && Banded([], row, row) && PutsOnce([]) && AwaitsReady([], n) && forall c :: !HasPut([], c)
  {
  }

  lemma {:induction false} RowStep(row: nat, total: nat, minimum: nat, chunk: nat, workers: nat, c: Coord)
    requires minimum > 0 && workers > 0 && total > 0 && chunk < ChunkCount(total, minimum)
    ensures InRow(row, total, minimum, chunk, workers, c) <==>
              || (c.row == row + 1 && ChunkStart(minimum, chunk) <= c.off < ChunkEnd(total, minimum, chunk))
              || InRow(row, total, minimum, chunk + workers, workers, c)
    ensures c.row == row + 1 && ChunkStart(minimum, chunk) <= c.off < ChunkEnd(total, minimum, chunk) ==>
              !InRow(row, total, minimum, chunk + workers, workers, c)
  {
    hide ChunkOf, ChunkCount, ChunkStart, ChunkEnd;
    ChunksPartition(total, minimum, chunk, c.off);
    var k := ChunkOf(total, minimum, c.off);
    if chunk < k < chunk + workers { OwnerGap(chunk, k, workers); }
  }

  /** A chaser's whole job, from a row upwards. */
  function ChaserActions(n: nat, rows: nat, minimum: nat, worker: nat, workers: nat, row: nat): seq<Action>
    requires minimum > 0 && workers > 0
    decreases rows - row
  {
    if row >= rows || Shr(n, row) / 2 == 0 then []
    else
      RowActions(row, Shr(n, row + 1), minimum, worker, workers)
          + ChaserActions(n, rows, minimum, worker, workers, row + 1)
  }

  predicate Chases(n: nat, minimum: nat, worker: nat, workers: nat, row: nat, c: Coord)
    requires minimum > 0 && workers > 0
  {
    c.row > row && Ready(n, c) && Owner(ChunkOf(Shr(n, c.row), minimum, c.off), workers) == worker
  }

  lemma {:induction false} ChaserOrdered(n: nat, rows: nat, minimum: nat, worker: nat, workers: nat, row: nat)
    requires minimum > 0 && worker < workers && n <= Pow2(rows) && row <= rows
    ensures var p := ChaserActions(n, rows, minimum, worker, workers, row);
            WellOrdered(p) && Banded(p, row, rows) && PutsOnce(p) && AwaitsReady(p, n)
    ensures forall c :: HasPut(ChaserActions(n, rows, minimum, worker, workers, row), c) <==>
              Chases(n, minimum, worker, workers, row, c)
    decreases rows - row
  {
    hide WellOrdered, Banded, PutsOnce, AwaitsReady, HasPut, Shr, RowActions, ChunkOf, Pow2, Owner;
    ShrStep(n, row);
    if row >= rows || Shr(n, row) / 2 == 0 {
      NothingAbove(n, rows, minimum, worker, workers, row);
    } else {
      var a := RowActions(row, Shr(n, row + 1), minimum, worker, workers);
      var b := ChaserActions(n, rows, minimum, worker, workers, row + 1);
      RowOrdered(row, n, Shr(n, row + 1), minimum, worker, workers);
      ChaserOrdered(n, rows, minimum, worker, workers, row + 1);
      BandWider(b, row + 1, rows, row);
      JoinOrdered(a, b, row, row, rows);
      JoinReady(a, b, n);
      forall c
        ensures HasPut(a + b, c) <==> Chases(n, minimum, worker, workers, row, c)
        ensures HasPut(a, c) ==> !HasPut(b, c)
      {
        JoinPuts(a, b, c);
        OwnFirst(worker, workers);
      }
      JoinOnce(a, b);
    }
  }

  lemma {:induction false} OwnFirst(worker: nat, workers: nat)
    requires worker < workers
    ensures Owner(worker, workers) == worker
  {
  }

  lemma {:induction false} BandWider(p: seq<Action>, low: nat, high: nat, lower: nat)
    requires Banded(p, low, high) && lower <= low
    ensures Banded(p, lower, high)
  {
  }

  lemma {:induction false} NothingAbove(n: nat, rows: nat, minimum: nat, worker: nat, workers: nat, row: nat)
    requires minimum > 0 && workers > 0 && n <= Pow2(rows) && (row >= rows || Shr(n, row + 1) == 0)
    ensures WellOrdered([]) && Banded([], row, rows) && PutsOnce([]) && AwaitsReady([], n)
    ensures forall c :: !HasPut([], c) && !Chases(n, minimum, worker, workers, row, c)
  {
    hide Pow2, Shr, ChunkOf, Owner;
    forall c: Coord | c.row > row
      ensures !Ready(n, c)
    {
      if row >= rows {
        ShrBeyond(n, rows, c.row);
      } else {
        ShrShr(n, row + 1, c.row - row - 1);
        ShrZero(c.row - row - 1);
      }
    }
  }

  // ----- Leaf workers -----

  /** Where the leaves of a block start: the leaf counts of the blocks before it, summed. */
  function Offset(counts: seq<nat>, h: nat): nat
    requires h <= |counts|
  {
    if h == 0 then 0 else Offset(counts, h - 1) + counts[h - 1]
  }

  /** Puts the leaves of a block, announcing whenever `batch` of them have piled up. */
  function LeafActions(off: nat, end: nat, piled: nat, batch: nat): seq<Action>
    decreases end - off
  {
    if off >= end then []
    else if piled + 1 >= batch then [Put(Coord(0, off))] + ([Announce] + LeafActions(off + 1, end, 0, batch))
    else [Put(Coord(0, off))] + LeafActions(off + 1, end, piled + 1, batch)
  }

  function RangeActions(counts: seq<nat>, first: nat, end: nat, batch: nat): seq<Action>
    requires end <= |counts|
    decreases end - first
  {
    if first >= end then []
    else
      LeafActions(Offset(counts, first), Offset(counts, first + 1), 0, batch) + [Announce]
      + RangeActions(counts, first + 1, end, batch)
  }

  /** Puts exactly these leaves, each once, and awaits nothing. */
  ghost predicate PutsLeaves(p: seq<Action>, first: nat, end: nat) {
    && (forall x :: 0 <= x < |p| ==> !p[x].Await? && (p[x].Put? ==> p[x].coord.row == 0))
    && PutsOnce(p)
    && forall c :: HasPut(p, c) <==> c.row == 0 && first <= c.off < end
  }

  lemma {:induction false} JoinLeaves(a: seq<Action>, b: seq<Action>, first: nat, middle: nat, end: nat)
    requires PutsLeaves(a, first, middle) && PutsLeaves(b, middle, end) && first <= middle <= end
    ensures PutsLeaves(a + b, first, end)
  {
    hide HasPut, PutsOnce;
    forall c
      ensures HasPut(a + b, c) <==> c.row == 0 && first <= c.off < end
    {
      JoinPuts(a, b, c);
    }
    JoinOnce(a, b);
    forall x | 0 <= x < |a + b|
      ensures !(a + b)[x].Await? && ((a + b)[x].Put? ==> (a + b)[x].coord.row == 0)
    {
      if x >= |a| { assert (a + b)[x] == b[x - |a|]; } else { assert (a + b)[x] == a[x]; }
    }
  }

  lemma {:induction false} OneLeaf(off: nat)
    ensures PutsLeaves([Put(Coord(0, off))], off, off + 1)
    ensures PutsLeaves([Announce], off, off) && PutsLeaves([], off, off)
  {
    assert [Put(Coord(0, off))][0] == Put(Coord(0, off));
  }

  lemma {:induction false} LeavesPut(off: nat, end: nat, piled: nat, batch: nat)
    requires off <= end
    ensures PutsLeaves(LeafActions(off, end, piled, batch), off, end)
    decreases end - off
  {
    hide PutsLeaves;
    if off == end {
      OneLeaf(off);
    } else {
      OneLeaf(off);
      OneLeaf(off + 1);
      if piled + 1 >= batch {
        LeavesPut(off + 1, end, 0, batch);
        JoinLeaves([Announce], LeafActions(off + 1, end, 0, batch), off + 1, off + 1, end);
        JoinLeaves([Put(Coord(0, off))], [Announce] + LeafActions(off + 1, end, 0, batch), off, off + 1, end);
      } else {
        LeavesPut(off + 1, end, piled + 1, batch);
        JoinLeaves([Put(Coord(0, off))], LeafActions(off + 1, end, piled + 1, batch), off, off + 1, end);
      }
    }
  }

  lemma {:induction false} OffsetMonotone(counts: seq<nat>, a: nat, b: nat)
    requires a <= b <= |counts|
    ensures Offset(counts, a) <= Offset(counts, b)
  {
    if a < b { OffsetMonotone(counts, a, b - 1); }
  }

  lemma {:induction false} RangePuts(counts: seq<nat>, first: nat, end: nat, batch: nat)
    requires first <= end <= |counts|
    ensures PutsLeaves(RangeActions(counts, first, end, batch), Offset(counts, first), Offset(counts, end))
    ensures EndsAnnounced(RangeActions(counts, first, end, batch))
    decreases end - first
  {
    hide PutsLeaves, LeafActions, Offset;
    OneLeaf(Offset(counts, first));
    if first < end {
      var middle := Offset(counts, first + 1);
      OffsetMonotone(counts, first, first + 1);
      OffsetMonotone(counts, first + 1, end);
      OneLeaf(middle);
      LeavesPut(Offset(counts, first), middle, 0, batch);
      var block := LeafActions(Offset(counts, first), middle, 0, batch);
      JoinLeaves(block, [Announce], Offset(counts, first), middle, middle);
      RangePuts(counts, first + 1, end, batch);
      JoinLeaves(block + [Announce], RangeActions(counts, first + 1, end, batch), Offset(counts, first), middle,
          Offset(counts, end));
    }
  }

  // ----- The whole build -----

  function JobCount(counts: seq<nat>): nat {
    (|counts| + HEIGHT_CHUNK_SIZE - 1) / HEIGHT_CHUNK_SIZE
  }

  function JobEnd(counts: seq<nat>, k: nat): nat {
    if HEIGHT_CHUNK_SIZE * k + HEIGHT_CHUNK_SIZE < |counts| then HEIGHT_CHUNK_SIZE * k + HEIGHT_CHUNK_SIZE else |counts|
  }

  function LeafJob(counts: seq<nat>, k: nat, batch: nat): seq<Action> {
    RangeActions(counts, HEIGHT_CHUNK_SIZE * k, JobEnd(counts, k), batch)
  }

  function Fresh(todo: seq<Action>): Job {
    Job(todo, {}, None)
  }

  /** Any number of chasers and of leaf workers, nothing put yet. */
  function Start(counts: seq<nat>, n: nat, rows: nat, chasers: nat, leafWorkers: nat, minimum: nat,
                 batch: nat): (b: BuildState)
    requires chasers > 0 && minimum > 0
    ensures |b.jobs| == chasers + JobCount(counts)
  {
    BuildState(map[],
               seq(chasers, w requires 0 <= w < chasers => Fresh(ChaserActions(n, rows, minimum, w, chasers, 0)))
                 + seq(JobCount(counts), k requires 0 <= k < JobCount(counts) => Fresh(LeafJob(counts, k, batch))),
               chasers, seq(leafWorkers, l => None), chasers, 0)
  }

  ghost predicate LeafRange(counts: seq<nat>, k: nat, c: Coord) {
    HEIGHT_CHUNK_SIZE * k <= |counts| && c.row == 0
        && Offset(counts, HEIGHT_CHUNK_SIZE * k) <= c.off < Offset(counts, JobEnd(counts, k))
  }

  lemma {:induction false} LeafJobOrderly(counts: seq<nat>, k: nat, batch: nat)
    requires k < JobCount(counts)
    ensures var p := LeafJob(counts, k, batch);
            && Orderly(Fresh(p), map[], Offset(counts, |counts|))
            && (forall x :: 0 <= x < |p| ==> !p[x].Await?)
            && forall c :: HasPut(p, c) <==> LeafRange(counts, k, c)
  {
    hide RangeActions, Offset, HasPut, PutsOnce, EndsAnnounced, Shr;
    var first, end, n := HEIGHT_CHUNK_SIZE * k, JobEnd(counts, k), Offset(counts, |counts|);
    RangePuts(counts, first, end, batch);
    OffsetMonotone(counts, end, |counts|);
    var p := LeafJob(counts, k, batch);
    assert Shr(n, 0) == n by { ShrNone(n); }
    forall x | 0 <= x < |p| && p[x].Put?
      ensures Ready(n, p[x].coord)
    {
      assert HasPut(p, p[x].coord) by { PutThere(p, x); }
    }
  }

  lemma {:induction false} ShrNone(n: nat)
    ensures Shr(n, 0) == n
  {
  }

  lemma {:induction false} PutThere(p: seq<Action>, x: nat)
    requires x < |p| && p[x].Put?
    ensures HasPut(p, p[x].coord)
  {
    assert p[x] == Put(p[x].coord);
  }

  lemma {:induction false} ChaserJobOrderly(n: nat, rows: nat, minimum: nat, worker: nat, workers: nat)
    requires minimum > 0 && worker < workers && n <= Pow2(rows)
    ensures var p := ChaserActions(n, rows, minimum, worker, workers, 0);
            Orderly(Fresh(p), map[], n) && forall c :: HasPut(p, c) <==> Chases(n, minimum, worker, workers, 0, c)
  {
    hide ChaserActions, HasPut, PutsOnce, EndsAnnounced, AwaitsBelow, QuietAwaitsBelow, ChildrenAwaited, ChunkOf,
         Owner, Pow2, Shr;
    var p := ChaserActions(n, rows, minimum, worker, workers, 0);
    ChaserOrdered(n, rows, minimum, worker, workers, 0);
    forall x | 0 <= x < |p| && p[x].Put?
      ensures Ready(n, p[x].coord)
    {
      PutThere(p, x);
    }
  }

  /** Every leaf falls into some leaf job. */
  lemma {:induction false} LeafOwned(counts: seq<nat>, c: Coord, h: nat) returns (k: nat)
    requires h <= |counts| && c.row == 0 && c.off < Offset(counts, h)
    ensures k < JobCount(counts) && LeafRange(counts, k, c)
    decreases h
  {
    hide Offset;
    OffsetStep(counts, h);
    if h > 0 && c.off < Offset(counts, h - 1) {
      k := LeafOwned(counts, c, h - 1);
    } else {
      k := (h - 1) / HEIGHT_CHUNK_SIZE;
      OffsetMonotone(counts, HEIGHT_CHUNK_SIZE * k, h - 1);
      OffsetMonotone(counts, h, JobEnd(counts, k));
    }
  }

  lemma {:induction false} OffsetStep(counts: seq<nat>, h: nat)
    requires h <= |counts|
    ensures h == 0 ==> Offset(counts, h) == 0
    ensures h > 0 ==> Offset(counts, h) == Offset(counts, h - 1) + counts[h - 1]
  {
  }

  lemma {:induction false} LeafRangesApart(counts: seq<nat>, i: nat, j: nat, c: Coord)
    requires i < j && j < JobCount(counts) && LeafRange(counts, i, c)
    ensures !LeafRange(counts, j, c)
  {
    hide Offset;
    OffsetMonotone(counts, JobEnd(counts, i), HEIGHT_CHUNK_SIZE * j);
  }

  /** The jobs put every node of the forest, each exactly once, in order: every run can begin. */
  lemma {:induction false} StartInv(counts: seq<nat>, leaves: seq<Node>, rows: nat, chasers: nat, leafWorkers: nat,
                                    minimum: nat, batch: nat)
    requires chasers > 0 && leafWorkers > 0 && minimum > 0
    requires |leaves| == Offset(counts, |counts|) <= Pow2(rows)
    ensures Inv(Start(counts, |leaves|, rows, chasers, leafWorkers, minimum, batch), leaves)
  {
    hide Offset, HasPut, Orderly, LeafRange, Chases, Pow2, Shr, ChaserActions, LeafJob;
    var n := |leaves|;
    var b := Start(counts, n, rows, chasers, leafWorkers, minimum, batch);
    forall j | 0 <= j < |b.jobs|
      ensures Orderly(b.jobs[j], map[], n) && SleepsForReason(b, b.jobs[j])
      ensures j < chasers ==> forall c :: HasPut(b.jobs[j].todo, c) <==> Chases(n, minimum, j, chasers, 0, c)
      ensures j >= chasers ==> forall c :: HasPut(b.jobs[j].todo, c) <==> LeafRange(counts, j - chasers, c)
      ensures j >= chasers ==> forall x :: 0 <= x < |b.jobs[j].todo| ==> !b.jobs[j].todo[x].Await?
    {
      if j < chasers {
        assert b.jobs[j].todo == ChaserActions(n, rows, minimum, j, chasers, 0);
        ChaserJobOrderly(n, rows, minimum, j, chasers);
      } else {
        assert b.jobs[j].todo == LeafJob(counts, j - chasers, batch);
        LeafJobOrderly(counts, j - chasers, batch);
      }
    }
    forall i, j, c | 0 <= i < j < |b.jobs| && HasPut(b.jobs[i].todo, c)
      ensures !HasPut(b.jobs[j].todo, c)
    {
      JobsApart(counts, n, minimum, chasers, i, j, c);
    }
    forall c | Ready(n, c)
      ensures Owed(b, c)
    {
      if c.row == 0 {
        ShrNone(n);
        var k := LeafOwned(counts, c, |counts|);
        assert HasPut(b.jobs[chasers + k].todo, c);
      } else {
        var w := Owner(ChunkOf(Shr(n, c.row), minimum, c.off), chasers);
        ChasedBy(n, minimum, chasers, c);
        assert HasPut(b.jobs[w].todo, c);
      }
    }
  }

  lemma {:induction false} ChasedBy(n: nat, minimum: nat, workers: nat, c: Coord)
    requires minimum > 0 && workers > 0 && Ready(n, c) && c.row > 0
    ensures Chases(n, minimum, Owner(ChunkOf(Shr(n, c.row), minimum, c.off), workers), workers, 0, c)
  {
  }

  lemma {:induction false} JobsApart(counts: seq<nat>, n: nat, minimum: nat, chasers: nat, i: nat, j: nat, c: Coord)
    requires minimum > 0 && chasers > 0 && i < j < chasers + JobCount(counts)
    requires if i < chasers then Chases(n, minimum, i, chasers, 0, c) else LeafRange(counts, i - chasers, c)
    ensures if j < chasers then !Chases(n, minimum, j, chasers, 0, c) else !LeafRange(counts, j - chasers, c)
  {
    hide Offset;
    if i >= chasers { LeafRangesApart(counts, i - chasers, j - chasers, c); }
  }
}
