/**
 Where a persist or a rollback can stop.

 A persist publishes the journal window, appends and flushes its proofs, writes its headers,
 then its proof index entries one by one, applies the forest, and commits the height. A rollback
 marks the record, undoes the forest, removes header and proof index entry, cuts the proof file
 and commits the height. Whatever point is reached, startup leads to the old tip or to the new.
 */
module Interruption {
  import opened Wrappers
  import opened Forest
  import opened Entry
  import opened Ledger
  import opened Wal
  import opened ProofStore
  import opened Recovery
  import History

  // ----- Persist -----

  /** The proof file with the window's proofs appended. */
  function FileAfter(file: seq<byte>, window: seq<Payload>): (r: seq<byte>)
    ensures file <= r
  {
    if window == [] then file else FileAfter(file, window[..|window| - 1]) + window[|window| - 1].proof.bytes
  }

  function IndexFor(file: seq<byte>, window: seq<Payload>, i: nat): ProofIndex
    requires i < |window|
  {
    ProofIndex(|FileAfter(file, window[..i])|, |window[i].proof.bytes|, Some(window[i].proofRows))
  }

  lemma {:induction false} AppendedInOrder(file: seq<byte>, window: seq<Payload>, i: nat, j: nat)
    requires i < j < |window|
    ensures IndexFor(file, window, i).End() <= IndexFor(file, window, j).offset
  {
    assert window[..j][..j - 1] == window[..j - 1];
    if i < j - 1 { AppendedInOrder(file, window, i, j - 1); }
  }

  ghost predicate AtWindowHeight(window: seq<Payload>, h: nat) {
    exists i :: 0 <= i < |window| && HeightOf(window[i]) == h
  }

  /**
   Any state between publication and the committed height, with `v` index entries written.
   Before the proofs are flushed the file may hold anything behind the old end; before the
   headers are flushed their places may hold anything; an index entry is written only after
   the proofs are flushed.
   */
  ghost predicate PersistStopped(s: Stores, s0: Stores, window: seq<Payload>, v: nat) {
    && v <= |window|
    && s0.file <= s.file && (v > 0 ==> FileAfter(s0.file, window) <= s.file)
    && (forall h :: !AtWindowHeight(window, h) ==>
           (h in s.headerAt <==> h in s0.headerAt) && (h in s.headerAt ==> s.headerAt[h] == s0.headerAt[h]))
    && (forall g :: !InChain(window, g) ==>
           (g in s.heightOf <==> g in s0.heightOf) && (g in s.heightOf ==> s.heightOf[g] == s0.heightOf[g]))
    && (forall g :: !InChain(window[..v], g) ==>
           (g in s.index <==> g in s0.index) && (g in s.index ==> s.index[g] == s0.index[g]))
    && (forall i :: 0 <= i < v ==>
           HashOf(window[i]) in s.index && s.index[HashOf(window[i])] == IndexFor(s0.file, window, i))
  }

  function Published(window: seq<Payload>): (r: seq<Retained>)
    ensures |r| == |window|
  {
    seq(|window|, i requires 0 <= i < |window| => Retained(window[i], true))
  }

  lemma {:induction false} ForwardsOfPublished(records: seq<Retained>, window: seq<Payload>)
    ensures Forwards(records + Published(window)) == Forwards(records) + window
    decreases |window|
  {
    if window == [] {
      assert records + Published(window) == records;
    } else {
      var n := |window| - 1;
      ForwardsOfPublished(records, window[..n]);
      var all := records + Published(window);
      assert all[..|all| - 1] == records + Published(window[..n]);
    }
  }

  /** The window may be appended: it extends the chain, and equal hashes are equal blocks. */
  ghost predicate Extends(records: seq<Retained>, chain: seq<Payload>, window: seq<Payload>, bootstrap: nat,
                          genesis: Hash) {
    && window != [] && ValidChain(chain + window, bootstrap)
    && window[0].entry.previousBlockHash == TipHash(chain, genesis)
    && forall i, j :: 0 <= i < |records| && 0 <= j < |window| && HashOf(records[i].payload) == HashOf(window[j]) ==>
         HeightOf(records[i].payload) == HeightOf(window[j])
  }

  lemma {:induction false} JournalGrows(records: seq<Retained>, chain: seq<Payload>, window: seq<Payload>, base: nat,
                                        bootstrap: nat, genesis: Hash)
    requires ValidChain(chain, bootstrap) && JournalFits(records, chain, base, bootstrap, genesis)
             && Extends(records, chain, window, bootstrap, genesis)
    ensures JournalFits(records + Published(window), chain + window, base, bootstrap, genesis)
  {
    hide Forwards, ValidChain, PayloadOk, NoneReappended, Published;
    var records', chain' := records + Published(window), chain + window;
    ForwardsOfPublished(records, window);
    assert chain'[base..] == chain[base..] + window;
    assert chain'[..base] == chain[..base];
    if records == [] { FirstRecord(records, chain, window, base, bootstrap, genesis); }
    forall i, j | 0 <= i < |records'| && 0 <= j < |chain'| && HashOf(records'[i].payload) == HashOf(chain'[j])
      ensures HeightOf(records'[i].payload) == HeightOf(chain'[j])
    {
      SameBlockSameHeight(records, chain, window, base, bootstrap, genesis, i, j);
    }
    GrownPayloads(records, chain, window, bootstrap);
    assert chain'[0] == if chain == [] then window[0] else chain[0];
  }

  lemma {:induction false} FirstRecord(records: seq<Retained>, chain: seq<Payload>, window: seq<Payload>, base: nat,
                                       bootstrap: nat, genesis: Hash)
    requires JournalFits(records, chain, base, bootstrap, genesis)
             && Extends(records, chain, window, bootstrap, genesis) && records == []
    ensures base == |chain| && (records + Published(window))[0].payload == window[0]
            && HeightOf(window[0]) == bootstrap + base + 1
    ensures window[0].entry.previousBlockHash == TipHash(chain[..base], genesis)
  {
    hide Forwards;
    NoForwards();
    assert chain[..base] == chain;
    assert (chain + window)[|chain|] == window[0];
  }

  lemma {:induction false} GrownPayloads(records: seq<Retained>, chain: seq<Payload>, window: seq<Payload>,
                                         bootstrap: nat)
    requires ValidChain(chain + window, bootstrap) && NoneReappended(records)
             && forall i :: 0 <= i < |records| ==> PayloadOk(records[i].payload)
    ensures var records' := records + Published(window);
            && NoneReappended(records') && (forall i :: 0 <= i < |records'| ==> PayloadOk(records'[i].payload))
            && forall i :: |records| <= i < |records'| ==> records'[i].forward
  {
    hide PayloadOk;
    var records' := records + Published(window);
    forall i | 0 <= i < |records'|
      ensures PayloadOk(records'[i].payload)
      ensures i < |records| ==> records'[i] == records[i]
      ensures i >= |records| ==> records'[i].forward
    {
      if i >= |records| { assert (chain + window)[|chain| + (i - |records|)] == records'[i].payload; }
    }
  }

  lemma {:induction false} NoForwards()
    ensures Forwards([]) == []
  {
  }

  lemma {:induction false} SameBlockSameHeight(records: seq<Retained>, chain: seq<Payload>, window: seq<Payload>,
                                               base: nat, bootstrap: nat, genesis: Hash, i: nat, j: nat)
    requires JournalFits(records, chain, base, bootstrap, genesis)
             && Extends(records, chain, window, bootstrap, genesis)
    requires i < |records| + |window| && j < |chain| + |window|
    requires HashOf((records + Published(window))[i].payload) == HashOf((chain + window)[j])
    ensures HeightOf((records + Published(window))[i].payload) == HeightOf((chain + window)[j])
  {
    hide Forwards;
    if i >= |records| {
      var k := |chain| + (i - |records|);
      assert (chain + window)[k] == (records + Published(window))[i].payload;
      assert k == j;
    }
  }

  /** The proof index entry of a block while the window is being persisted. */
  lemma {:induction false} IndexWhenStopped(s: Stores, s0: Stores, chain: seq<Payload>, window: seq<Payload>,
                                            bootstrap: nat, v: nat, i: nat)
    requires Settled(s0, chain, bootstrap) && ValidChain(chain + window, bootstrap)
             && PersistStopped(s, s0, window, v) && i < |chain| + |window|
    ensures i < |chain| ==>
              ProofOk(s.index, s.file, chain[i]) && s.index[HashOf(chain[i])] == s0.index[HashOf(chain[i])]
                            && s.index[HashOf(chain[i])].End() <= |s0.file|
    ensures |chain| <= i < |chain| + v ==>
              HashOf(window[i - |chain|]) in s.index
                  && s.index[HashOf(window[i - |chain|])] == IndexFor(s0.file, window, i - |chain|)
    ensures i >= |chain| + v ==> HashOf(window[i - |chain|]) !in s.index
  {
    hide HeaderOk, InOrder, FileAfter;
    var all := chain + window;
    if i < |chain| {
      NotInWindow(chain, window, bootstrap, i, v);
      ProofIndexed(s0.index, s0.file, chain[i]);
      GetExtended(s0.file, s.file, s0.index[HashOf(chain[i])]);
    } else if i >= |chain| + v {
      LaterNotWritten(chain, window, bootstrap, i - |chain|, v);
    }
  }

  lemma {:induction false} NotInWindow(chain: seq<Payload>, window: seq<Payload>, bootstrap: nat, i: nat, v: nat)
    requires ValidChain(chain + window, bootstrap) && i < |chain| && v <= |window|
    ensures !InChain(window, HashOf(chain[i])) && !InChain(window[..v], HashOf(chain[i]))
    ensures !AtWindowHeight(window, HeightOf(chain[i]))
  {
    var all := chain + window;
    assert all[i] == chain[i];
    forall j | 0 <= j < |window|
      ensures HashOf(window[j]) != HashOf(chain[i]) && HeightOf(window[j]) != HeightOf(chain[i])
    {
      assert all[|chain| + j] == window[j];
      assert HashOf(all[i]) != HashOf(all[|chain| + j]);
    }
  }

  lemma {:induction false} LaterNotWritten(chain: seq<Payload>, window: seq<Payload>, bootstrap: nat, j: nat, v: nat)
    requires ValidChain(chain + window, bootstrap) && v <= j < |window|
    ensures !InChain(window[..v], HashOf(window[j])) && !InChain(chain, HashOf(window[j]))
  {
    var all := chain + window;
    assert all[|chain| + j] == window[j];
    forall i | 0 <= i < v
      ensures HashOf(window[i]) != HashOf(window[j])
    {
      assert all[|chain| + i] == window[i];
      assert HashOf(all[|chain| + i]) != HashOf(all[|chain| + j]);
    }
    forall i | 0 <= i < |chain|
      ensures HashOf(chain[i]) != HashOf(window[j])
    {
      assert all[i] == chain[i];
      assert HashOf(all[i]) != HashOf(all[|chain| + j]);
    }
  }

  lemma {:induction false} StoppedInOrder(s: Stores, s0: Stores, chain: seq<Payload>, window: seq<Payload>,
                                          bootstrap: nat, v: nat)
    requires Settled(s0, chain, bootstrap) && ValidChain(chain + window, bootstrap) && PersistStopped(s, s0, window, v)
    ensures InOrder(s.index, s.file, chain + window)
  {
    hide HeaderOk, FileAfter, PersistStopped, ValidChain, Get;
    var all := chain + window;
    forall i, j | 0 <= i < j < |all| && ProofOk(s.index, s.file, all[i]) && ProofOk(s.index, s.file, all[j])
      ensures s.index[HashOf(all[i])].End() <= s.index[HashOf(all[j])].offset
    {
      IndexWhenStopped(s, s0, chain, window, bootstrap, v, i);
      IndexWhenStopped(s, s0, chain, window, bootstrap, v, j);
      if i >= |chain| { AppendedInOrder(s0.file, window, i - |chain|, j - |chain|); }
    }
  }

  /** Once the window is published, every point of a persist can be recovered to the new tip. */
  lemma {:induction false} PersistRecoverable(s: Stores, s0: Stores, records: seq<Retained>, chain: seq<Payload>,
                                              window: seq<Payload>,
                           base: nat, bootstrap: nat, genesis: Hash, v: nat)
    requires Settled(s0, chain, bootstrap) && JournalFits(records, chain, base, bootstrap, genesis)
    requires Extends(records, chain, window, bootstrap, genesis) && PersistStopped(s, s0, window, v)
    ensures Recoverable(s, records + Published(window), chain + window, base, bootstrap, genesis)
  {
    hide InOrder, ProofOk, HeaderOk, JournalFits, PersistStopped, Settled, ValidChain, InChain, Orphaned, OrphanHash;
    var all := chain + window;
    JournalGrows(records, chain, window, base, bootstrap, genesis) by { SettledChain(s0, chain, bootstrap); }
    StoppedInOrder(s, s0, chain, window, bootstrap, v);
    assert base <= |chain| by { BaseInChain(records, chain, base, bootstrap, genesis); }
    forall i | 0 <= i < base
      ensures HeaderOk(s.headerAt, s.heightOf, all[i]) && ProofOk(s.index, s.file, all[i])
    {
      IndexWhenStopped(s, s0, chain, window, bootstrap, v, i);
      HeaderWhenStopped(s, s0, chain, window, bootstrap, v, i);
      assert all[i] == chain[i];
    }
    HeadersWhenStopped(s, s0, chain, window, bootstrap, v);
    HashesWhenStopped(s, s0, chain, window, bootstrap, v);
  }

  lemma {:induction false} SettledChain(s: Stores, chain: seq<Payload>, bootstrap: nat)
    requires Settled(s, chain, bootstrap)
    ensures ValidChain(chain, bootstrap)
  {
  }

  lemma {:induction false} BaseInChain(records: seq<Retained>, chain: seq<Payload>, base: nat, bootstrap: nat,
                                       genesis: Hash)
    requires JournalFits(records, chain, base, bootstrap, genesis)
    ensures base <= |chain|
  {
  }

  lemma {:induction false} HeaderWhenStopped(s: Stores, s0: Stores, chain: seq<Payload>, window: seq<Payload>,
                                             bootstrap: nat, v: nat, i: nat)
    requires Settled(s0, chain, bootstrap) && ValidChain(chain + window, bootstrap)
             && PersistStopped(s, s0, window, v) && i < |chain|
    ensures HeaderOk(s.headerAt, s.heightOf, chain[i])
  {
    hide InOrder, ProofOk, ValidChain, FileAfter, IndexFor, AtWindowHeight, InChain;
    assert HeaderOk(s0.headerAt, s0.heightOf, chain[i]);
    NotInWindow(chain, window, bootstrap, i, v);
  }

  lemma {:induction false} HeadersWhenStopped(s: Stores, s0: Stores, chain: seq<Payload>, window: seq<Payload>,
                                              bootstrap: nat, v: nat)
    requires Settled(s0, chain, bootstrap) && ValidChain(chain + window, bootstrap) && PersistStopped(s, s0, window, v)
    ensures forall h :: h in s.headerAt ==> h <= bootstrap + |chain| + |window|
  {
    hide InOrder, ProofOk, HeaderOk, FileAfter, IndexFor, InChain;
    forall h | h in s.headerAt
      ensures h <= bootstrap + |chain| + |window|
    {
      if AtWindowHeight(window, h) {
        var j :| 0 <= j < |window| && HeightOf(window[j]) == h;
        assert (chain + window)[|chain| + j] == window[j];
      }
    }
  }

  lemma {:induction false} HashesWhenStopped(s: Stores, s0: Stores, chain: seq<Payload>, window: seq<Payload>,
                                             bootstrap: nat, v: nat)
    requires Settled(s0, chain, bootstrap) && PersistStopped(s, s0, window, v)
    ensures forall g :: g in s.index ==> InChain(chain + window, g)
  {
    hide InOrder, ProofOk, HeaderOk, FileAfter, IndexFor, AtWindowHeight, ValidChain;
    var all := chain + window;
    forall g | g in s.index
      ensures InChain(all, g)
    {
      if InChain(window[..v], g) {
        var j :| 0 <= j < v && HashOf(window[..v][j]) == g;
        assert HashOf(all[|chain| + j]) == g;
      } else {
        assert g in s0.index;
        var j :| 0 <= j < |chain| && HashOf(chain[j]) == g;
        assert HashOf(all[j]) == g;
      }
    }
  }

  /** Stores that no operation has touched are recovered to the tip they show. */
  lemma {:induction false} UntouchedRecoverable(s: Stores, records: seq<Retained>, chain: seq<Payload>, base: nat,
                                                bootstrap: nat, genesis: Hash)
    requires Settled(s, chain, bootstrap) && JournalFits(records, chain, base, bootstrap, genesis)
    ensures Recoverable(s, records, chain, base, bootstrap, genesis)
  {
    hide InOrder, ProofOk, HeaderOk, Forwards, ValidChain;
  }

  // ----- Rollback -----

  /** Any state between the durable status change of the tip's record and the committed height. */
  ghost predicate RollbackStopped(s: Stores, s0: Stores, chain: seq<Payload>) {
    && chain != []
    && var p := chain[|chain| - 1];
    && (forall h :: h != HeightOf(p) ==>
           (h in s.headerAt <==> h in s0.headerAt) && (h in s.headerAt ==> s.headerAt[h] == s0.headerAt[h]))
    && (HeightOf(p) in s.headerAt ==> s.headerAt[HeightOf(p)] == p.header)
    && (forall g :: g != HashOf(p) ==>
           (g in s.heightOf <==> g in s0.heightOf) && (g in s.heightOf ==> s.heightOf[g] == s0.heightOf[g]))
    && (forall g :: g != HashOf(p) ==>
           (g in s.index <==> g in s0.index) && (g in s.index ==> s.index[g] == s0.index[g]))
    && (HashOf(p) in s.index ==> HashOf(p) in s0.index && s.index[HashOf(p)] == s0.index[HashOf(p)])
    && (s.file == s0.file || CutToFront(s, s0, chain))
  }

  /** The proof file is cut only after the index entry is gone. */
  predicate CutToFront(s: Stores, s0: Stores, chain: seq<Payload>)
    requires chain != []
  {
    && HashOf(chain[|chain| - 1]) !in s.index && FrontIndexed(s0.index, chain)
    && TipEnd(s0.index, Front(chain)) <= |s0.file| && s.file == s0.file[..TipEnd(s0.index, Front(chain))]
  }

  function Front(chain: seq<Payload>): seq<Payload>
    requires chain != []
  {
    chain[..|chain| - 1]
  }

  predicate FrontIndexed(index: map<Hash, ProofIndex>, chain: seq<Payload>) {
    |chain| > 1 ==> HashOf(chain[|chain| - 2]) in index
  }

  function MarkedBack(records: seq<Retained>, i: nat): seq<Retained>
    requires i < |records|
  {
    records[i := Retained(records[i].payload, false)]
  }

  lemma {:induction false} ForwardsMarkedBack(records: seq<Retained>, i: nat)
    requires LatestForward(records) == Some(i)
    ensures Forwards(records) != [] && Forwards(MarkedBack(records, i)) == Forwards(records)[..|Forwards(records)| - 1]
  {
    var n := |records| - 1;
    var records' := MarkedBack(records, i);
    LatestIsLast(records);
    if i == n {
      assert records'[..n] == records[..n];
    } else {
      ForwardsMarkedBack(records[..n], i);
      assert records'[..n] == MarkedBack(records[..n], i);
    }
  }

  lemma {:induction false} JournalShrinks(records: seq<Retained>, i: nat, chain: seq<Payload>, base: nat,
                                          bootstrap: nat, genesis: Hash)
    requires ValidChain(chain, bootstrap) && JournalFits(records, chain, base, bootstrap, genesis)
             && LatestForward(records) == Some(i)
    ensures base < |chain| && records[i].payload == chain[|chain| - 1]
    ensures JournalFits(MarkedBack(records, i), Front(chain), base, bootstrap, genesis)
  {
    hide Forwards, LatestForward;
    LatestIsTip(records, i, chain, base, bootstrap, genesis);
    ForwardsMarkedBack(records, i);
    assert Front(chain)[base..] == chain[base..][..|chain| - base - 1];
    assert Front(chain)[..base] == chain[..base];
    var records' := MarkedBack(records, i);
    assert forall k :: 0 <= k < |records| ==> records'[k].payload == records[k].payload;
    forall k, j | 0 <= k < |records'| && !records'[k].forward && 0 <= j < base
      ensures HashOf(records'[k].payload) != HashOf(Front(chain)[j])
    {
      if k == i { assert HashOf(chain[j]) != HashOf(chain[|chain| - 1]); }
    }
    MarkedNotReappended(records, i, chain, base, bootstrap, genesis);
  }

  lemma {:induction false} MarkedNotReappended(records: seq<Retained>, i: nat, chain: seq<Payload>, base: nat,
                                               bootstrap: nat, genesis: Hash)
    requires ValidChain(chain, bootstrap) && JournalFits(records, chain, base, bootstrap, genesis)
             && LatestForward(records) == Some(i)
    ensures NoneReappended(MarkedBack(records, i))
  {
    hide Forwards, LatestForward;
    LatestIsTip(records, i, chain, base, bootstrap, genesis);
    var records' := MarkedBack(records, i);
    forall k, j | 0 <= k < j < |records'| && records'[k].forward && !records'[j].forward
      ensures HashOf(records'[k].payload) != HashOf(records'[j].payload)
    {
      if j == i { ForwardsApart(records, k, i, chain, base, bootstrap, genesis); }
    }
  }

  /** Two forward records are two blocks of the chain. */
  lemma {:induction false} ForwardsApart(records: seq<Retained>, k: nat, i: nat, chain: seq<Payload>, base: nat,
                                         bootstrap: nat, genesis: Hash)
    requires ValidChain(chain, bootstrap) && JournalFits(records, chain, base, bootstrap, genesis)
    requires k < i < |records| && records[k].forward && records[i].forward
    ensures HashOf(records[k].payload) != HashOf(records[i].payload)
  {
    hide Forwards;
    NextForward(records, chain, base, bootstrap, genesis, k);
    NextForward(records, chain, base, bootstrap, genesis, i);
    ForwardsPrefix(records[..i], k + 1);
    assert records[..i][..k + 1] == records[..k + 1];
    assert HashOf(chain[base + |Forwards(records[..k])|]) != HashOf(chain[base + |Forwards(records[..i])|]);
  }

  // ----- Pruning -----

  lemma {:induction false} ForwardsSplit(records: seq<Retained>, n: nat)
    requires n <= |records|
    ensures Forwards(records) == Forwards(records[..n]) + Forwards(records[n..])
  {
    var m := |records| - 1;
    if n == |records| {
      assert records[..n] == records && records[n..] == [];
    } else {
      ForwardsSplit(records[..m], n);
      assert records[..m][..n] == records[..n] && records[..m][n..] == records[n..][..m - n];
      assert records[n..][m - n] == records[m];
    }
  }

  /** Dropping the records before a forward one only moves the part of the chain behind the journal. */
  lemma {:induction false} JournalPruned(records: seq<Retained>, n: nat, chain: seq<Payload>, base: nat,
                                         bootstrap: nat, genesis: Hash)
    requires ValidChain(chain, bootstrap) && JournalFits(records, chain, base, bootstrap, genesis)
    requires n < |records| && records[n].forward
    ensures JournalFits(records[n..], chain, base + |Forwards(records[..n])|, bootstrap, genesis)
  {
    hide Forwards, ValidChain;
    var records', base' := records[n..], base + |Forwards(records[..n])|;
    NextForward(records, chain, base, bootstrap, genesis, n);
    ForwardsSplit(records, n);
    assert chain[base'..] == chain[base..][|Forwards(records[..n])|..];
    assert records'[0] == records[n];
    assert HeightOf(chain[base']) == bootstrap + base' + 1
        && chain[base'].entry.previousBlockHash == TipHash(chain[..base'], genesis) by {
      LinkAt(chain, base', bootstrap, genesis);
    }
    forall i, j | 0 <= i < |records'| && !records'[i].forward && 0 <= j < base'
      ensures HashOf(records'[i].payload) != HashOf(chain[j])
    {
      assert records'[i] == records[n + i];
      if j >= base { EarlierForward(records, n, chain, base, bootstrap, genesis, j, n + i); }
    }
    assert forall i :: 0 <= i < |records'| ==> records'[i] == records[n + i];
  }

  lemma {:induction false} LinkAt(chain: seq<Payload>, k: nat, bootstrap: nat, genesis: Hash)
    requires ValidChain(chain, bootstrap) && k < |chain| && chain[0].entry.previousBlockHash == genesis
    ensures HeightOf(chain[k]) == bootstrap + k + 1 && chain[k].entry.previousBlockHash == TipHash(chain[..k], genesis)
  {
  }

  /** A pruned block of the chain has a forward record in front, so no retained rolled-back record is it. */
  lemma {:induction false} EarlierForward(records: seq<Retained>, n: nat, chain: seq<Payload>, base: nat,
                                          bootstrap: nat, genesis: Hash, j: nat, r: nat)
    requires JournalFits(records, chain, base, bootstrap, genesis) && n <= r < |records| && !records[r].forward
    requires base <= j < base + |Forwards(records[..n])|
    ensures j < |chain| && HashOf(records[r].payload) != HashOf(chain[j])
  {
    hide Forwards;
    ForwardsPrefix(records, n);
    var k := RecordOf(records[..n], j - base);
    assert chain[base..][j - base] == chain[j];
    assert records[k] == records[..n][k];
  }

  /** The record of a forward block. */
  lemma {:induction false} RecordOf(records: seq<Retained>, k: nat) returns (i: nat)
    requires k < |Forwards(records)|
    ensures i < |records| && records[i].forward && records[i].payload == Forwards(records)[k]
  {
    var n := |records| - 1;
    if k < |Forwards(records[..n])| {
      i := RecordOf(records[..n], k);
    } else {
      i := n;
    }
  }

  lemma {:induction false} LatestIsTip(records: seq<Retained>, i: nat, chain: seq<Payload>, base: nat, bootstrap: nat,
                                       genesis: Hash)
    requires JournalFits(records, chain, base, bootstrap, genesis) && LatestForward(records) == Some(i)
    ensures i < |records| && base < |chain| && records[i].payload == chain[|chain| - 1]
  {
    hide Forwards, LatestForward;
    LatestIsLast(records);
    assert chain[base..][|chain| - 1 - base] == chain[|chain| - 1];
  }

  /** A block below the tip while the tip is being rolled back. */
  lemma {:induction false} BelowTip(s: Stores, s0: Stores, chain: seq<Payload>, bootstrap: nat, i: nat)
    requires Settled(s0, chain, bootstrap) && RollbackStopped(s, s0, chain) && i < |chain| - 1
    ensures HeaderOk(s.headerAt, s.heightOf, chain[i]) && ProofOk(s.index, s.file, chain[i])
    ensures HashOf(chain[i]) in s0.index && s.index[HashOf(chain[i])] == s0.index[HashOf(chain[i])]
  {
    var n := |chain| - 1;
    assert HashOf(chain[i]) != HashOf(chain[n]) && HeightOf(chain[i]) != HeightOf(chain[n]);
    assert HeaderOk(s0.headerAt, s0.heightOf, chain[i]) && ProofOk(s0.index, s0.file, chain[i]);
    if s.file != s0.file {
      EndsBefore(s0, chain, bootstrap, i);
      GetTruncated(s0.file, TipEnd(s0.index, Front(chain)), s0.index[HashOf(chain[i])]);
    }
  }

  lemma {:induction false} EndsBefore(s0: Stores, chain: seq<Payload>, bootstrap: nat, i: nat)
    requires Settled(s0, chain, bootstrap) && i < |chain| - 1
    ensures FrontIndexed(s0.index, chain) && HashOf(chain[i]) in s0.index
    ensures s0.index[HashOf(chain[i])].End() <= TipEnd(s0.index, Front(chain)) <= |s0.file|
  {
    assert ProofOk(s0.index, s0.file, chain[i]) && ProofOk(s0.index, s0.file, chain[|chain| - 2]);
  }

  /** Once the record is marked, every point of a rollback can be recovered to the tip below. */
  lemma {:induction false} RollbackRecoverable(s: Stores, s0: Stores, records: seq<Retained>, i: nat,
                                               chain: seq<Payload>, base: nat, bootstrap: nat, genesis: Hash)
    requires Settled(s0, chain, bootstrap) && JournalFits(records, chain, base, bootstrap, genesis)
             && LatestForward(records) == Some(i)
    requires RollbackStopped(s, s0, chain)
    ensures Recoverable(s, MarkedBack(records, i), Front(chain), base, bootstrap, genesis)
  {
    hide HeaderOk, ProofOk, JournalFits, LatestForward;
    var front, records' := Front(chain), MarkedBack(records, i);
    JournalShrinks(records, i, chain, base, bootstrap, genesis);
    forall k | 0 <= k < |front|
      ensures HeaderOk(s.headerAt, s.heightOf, front[k]) && ProofOk(s.index, s.file, front[k])
      ensures ProofOk(s0.index, s0.file, front[k])
      ensures HashOf(front[k]) in s.index && HashOf(front[k]) in s0.index
              && s.index[HashOf(front[k])] == s0.index[HashOf(front[k])]
    {
      BelowTip(s, s0, chain, bootstrap, k);
      ProofIndexed(s.index, s.file, front[k]);
    }
    FrontValid(chain, bootstrap);
    var p := chain[|chain| - 1];
    assert !records'[i].forward && records'[i].payload == p;
    forall g | g in s.index
      ensures InChain(front, g) || OrphanHash(records', g)
    {
      if g != HashOf(p) {
        var j :| 0 <= j < |chain| && HashOf(chain[j]) == g;
        assert HashOf(front[j]) == g;
      }
    }
  }

  lemma {:induction false} FrontValid(chain: seq<Payload>, bootstrap: nat)
    requires ValidChain(chain, bootstrap) && chain != []
    ensures ValidChain(Front(chain), bootstrap)
  {
  }

  // ----- The forest beside the stores -----

  function HistoryRecords(records: seq<Retained>): (r: seq<History.Record>)
    ensures |r| == |records|
  {
    seq(|records|, i requires 0 <= i < |records| => History.Record(records[i].payload.entry, records[i].forward))
  }

  /** The disk differs from a state only at keys some of the entries touch. */
  ghost predicate DiffersOnlyWhereTouched(disk: Key -> Val, state: Key -> Val, entries: seq<JournalEntry>)
    requires forall i :: 0 <= i < |entries| ==> WellFormed(entries[i])
  {
    forall k :: (forall i :: 0 <= i < |entries| ==> TouchOf(entries[i], k).Untouched?) ==> disk(k) == state(k)
  }

  ghost predicate AppendAll(states: seq<History.HistoryState>, entries: seq<JournalEntry>) {
    && |states| == |entries| + 1
    && forall i :: 0 <= i < |entries| ==> History.Append(states[i], states[i + 1], entries[i])
  }

  lemma {:induction false} AppendedState(states: seq<History.HistoryState>, entries: seq<JournalEntry>, n: nat)
    requires AppendAll(states, entries) && History.Inv(states[0]) && n <= |entries|
    ensures History.Inv(states[n]) && |states[n].records| == |states[0].records| + n
    ensures forall i :: 0 <= i < n ==> states[n].records[|states[0].records| + i] == History.Record(entries[i], true)
    ensures forall i :: 0 <= i < n ==> WellFormed(entries[i])
    ensures forall k :: (forall i :: 0 <= i < n ==> TouchOf(entries[i], k).Untouched?) ==>
              states[n].now(k) == states[0].now(k)
  {
    hide History.Inv, TouchOf, WellFormed;
    if n > 0 {
      AppendedState(states, entries, n - 1);
      assert History.Append(states[n - 1], states[n], entries[n - 1]);
      History.StepKeepsInv(states[n - 1], states[n]);
    }
  }

  /** After publication, replay brings the forest to the new tip from any partly applied window. */
  lemma {:induction false} PersistForest(states: seq<History.HistoryState>, entries: seq<JournalEntry>,
                                         disk: Key -> Val)
    requires AppendAll(states, entries) && History.Inv(states[0])
    requires (forall i :: 0 <= i < |entries| ==> WellFormed(entries[i])) ==>
               DiffersOnlyWhereTouched(disk, states[0].now, entries)
    ensures var h := states[|entries|];
            History.AllWellFormed(h.records)
                && forall k :: History.Replay(disk(k), History.ForKey(h.records, k)) == h.now(k)
  {
    hide TouchOf, WellFormed, History.KeyInv;
    var n := |entries|;
    var h := states[n];
    AppendedState(states, entries, n);
    forall k
      ensures History.Replay(disk(k), History.ForKey(h.records, k)) == h.now(k)
    {
      var keys := History.ForKey(h.records, k);
      if History.AllUntouched(keys) {
        forall i | 0 <= i < n
          ensures TouchOf(entries[i], k).Untouched?
        {
          assert keys[|states[0].records| + i].touch.Untouched?;
        }
      }
      History.KeyReplay(h.base(k), keys, h.now(k), disk(k));
    }
  }

  /** After the status change, replay brings the forest below the tip from any partly undone block. */
  lemma {:induction false} RollbackForest(h: History.HistoryState, h': History.HistoryState, disk: Key -> Val)
    requires History.Inv(h) && History.Rollback(h, h')
    requires var i := History.LatestForward(h.records).value;
             DiffersOnlyWhereTouched(disk, h.now, [h.records[i].entry])
    ensures History.AllWellFormed(h'.records)
            && forall k :: History.Replay(disk(k), History.ForKey(h'.records, k)) == h'.now(k)
  {
    hide TouchOf, WellFormed, History.KeyInv;
    History.StepKeepsInv(h, h');
    var i := History.LatestForward(h.records).value;
    var e := h.records[i].entry;
    forall k
      ensures History.Replay(disk(k), History.ForKey(h'.records, k)) == h'.now(k)
    {
      var keys := History.ForKey(h'.records, k);
      if History.AllUntouched(keys) {
        assert keys[i].touch == TouchOf(e, k);
        assert h'.now(k) == h.now(k);
      }
      History.KeyReplay(h'.base(k), keys, h'.now(k), disk(k));
    }
  }

  /** The replayed leaf count is the one the journal tip names, so startup accepts it. */
  lemma {:induction false} CountMatchesTip(h: History.HistoryState)
    requires History.Inv(h) && h.records != []
    ensures h.now(LeafCount) ==
            match History.LatestForward(h.records)
            case Some(i) => CountVal(h.records[i].entry.numLeaves)
            case None => CountVal(h.records[0].entry.numLeaves - |h.records[0].entry.added|)
  {
    var keys := History.ForKey(h.records, LeafCount);
    var base, now := h.base(LeafCount), h.now(LeafCount);
    assert History.KeyInv(base, keys, now);
    match History.LatestForward(h.records)
    case Some(i) =>
      History.UndoLatest(base, keys, i);
    case None =>
      History.RedoNoneForward(base, keys);
      assert History.ChainedAt(base, keys, 0) && History.AnchoredAt(base, keys, 0, 0);
      assert keys[..0] == [];
  }
}
