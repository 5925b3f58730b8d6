/**
 Startup interrupted while it repairs the proof index.

 The repaired index entries are written one after the other. Stopping in between and starting
 again is safe exactly when no readable proof followed the first unreadable one, as is the case
 after every interrupted persist. With an unreadable proof before a readable one it is not: the
 second start finds both readable but out of file order, and cutting the file after the tip
 loses the repaired one.
 */
module Repair {
  import opened Wrappers
  import opened Forest
  import opened Entry
  import opened Wal
  import opened ProofStore
  import opened Recovery
  import opened Interruption
  import opened Persist

  /** The proof index after the first `j` repaired entries are written. */
  function Partly(index: map<Hash, ProofIndex>, repaired: seq<(Hash, ProofIndex)>, j: nat): map<Hash, ProofIndex>
    requires j <= |repaired|
  {
    if j == 0 then index else Partly(index, repaired, j - 1)[repaired[j - 1].0 := repaired[j - 1].1]
  }

  lemma {:induction false} PartlyAt(s: Stores, file: seq<byte>, repaired: seq<(Hash, ProofIndex)>, tail: bool,
                                    chain: seq<Payload>, t: nat, bootstrap: nat, j: nat, i: nat)
    requires ProofsRepaired(s, file, repaired, tail, chain, t, |chain|) && ValidChain(chain, bootstrap)
             && j <= |repaired| && i < |chain|
    ensures var index, h := Partly(s.index, repaired, j), HashOf(chain[i]);
            if t <= i < t + j then h in index && index[h] == repaired[i - t].1
            else (h in index <==> h in s.index) && (h in s.index ==> index[h] == s.index[h])
  {
    hide ProofOk, GoodIndex;
    if j > 0 {
      PartlyAt(s, file, repaired, tail, chain, t, bootstrap, j - 1, i);
      var k := t + (j - 1);
      assert repaired[j - 1].0 == HashOf(chain[k]);
      if i < k { assert HashOf(chain[i]) != HashOf(chain[k]); }
      if k < i { assert HashOf(chain[k]) != HashOf(chain[i]); }
    }
  }

  /** Index entries are written only after the bytes they name are flushed. */
  predicate IndexWithin(s: Stores) {
    forall h :: h in s.index ==> s.index[h].End() <= |s.file|
  }

  lemma {:induction false} SameReadable(s: Stores, file: seq<byte>, p: Payload)
    requires IndexWithin(s) && s.file <= file
    ensures ProofOk(s.index, file, p) <==> ProofOk(s.index, s.file, p)
  {
    if HashOf(p) in s.index && s.index[HashOf(p)].size <= MAX_PROOF_BYTES {
      GetExtended(s.file, file, s.index[HashOf(p)]);
    }
  }

  ghost predicate NothingReadableAfter(s: Stores, chain: seq<Payload>, t: nat) {
    forall i :: t < i < |chain| ==> !ProofOk(s.index, s.file, chain[i])
  }

  /** Readable blocks of a partly written index: old ones before the first damage, new ones, and old ones behind. */
  lemma {:induction false} PartlyReadable(s: Stores, file: seq<byte>, repaired: seq<(Hash, ProofIndex)>, tail: bool,
                                          chain: seq<Payload>, t: nat, bootstrap: nat, j: nat, i: nat)
    requires ProofsRepaired(s, file, repaired, tail, chain, t, |chain|) && ValidChain(chain, bootstrap)
             && IndexWithin(s)
    requires j <= |repaired| && i < |chain|
    ensures var index := Partly(s.index, repaired, j);
            if t <= i < t + j then
              && ProofOk(index, file, chain[i]) && index[HashOf(chain[i])] == repaired[i - t].1
                   && |s.file| <= repaired[i - t].1.offset
            else
              && (ProofOk(index, file, chain[i]) <==> ProofOk(s.index, s.file, chain[i]))
              && (ProofOk(index, file, chain[i]) ==>
                     index[HashOf(chain[i])] == s.index[HashOf(chain[i])]
                     && s.index[HashOf(chain[i])].End() <= |s.file|)
  {
    hide Get;
    PartlyAt(s, file, repaired, tail, chain, t, bootstrap, j, i);
    SameReadable(s, file, chain[i]);
    if t <= i < t + j { assert GoodIndex(file, repaired[i - t].1, chain[t + (i - t)]); }
  }

  lemma {:induction false} SuffixDamageStays(s: Stores, file: seq<byte>, repaired: seq<(Hash, ProofIndex)>,
                                             tail: bool, chain: seq<Payload>, t: nat, bootstrap: nat, j: nat)
    requires ProofsRepaired(s, file, repaired, tail, chain, t, |chain|) && ValidChain(chain, bootstrap)
             && IndexWithin(s)
    requires InOrder(s.index, s.file, chain) && NothingReadableAfter(s, chain, t) && j <= |repaired|
    ensures InOrder(Partly(s.index, repaired, j), file, chain)
  {
    hide ProofOk, Partly, ValidChain, GoodIndex, IndexWithin;
    var index := Partly(s.index, repaired, j);
    forall a, b | 0 <= a < b < |chain| && ProofOk(index, file, chain[a]) && ProofOk(index, file, chain[b])
      ensures HashOf(chain[a]) in index && HashOf(chain[b]) in index
              && index[HashOf(chain[a])].End() <= index[HashOf(chain[b])].offset
    {
      PartlyReadable(s, file, repaired, tail, chain, t, bootstrap, j, a);
      PartlyReadable(s, file, repaired, tail, chain, t, bootstrap, j, b);
      ProofIndexed(index, file, chain[a]);
      ProofIndexed(index, file, chain[b]);
    }
  }

  /** The stores when the repair stops after `j` index writes. */
  function StoppedAt(s: Stores, file: seq<byte>, repaired: seq<(Hash, ProofIndex)>, j: nat, headerAt: map<nat,
                     Header>, heightOf: map<Hash, nat>): Stores
    requires j <= |repaired|
  {
    Stores(headerAt, heightOf, Partly(s.index, repaired, j), file, s.height)
  }

  /**
   Stopping just before a readable proof behind the damage: everything up to it is then readable,
   and the repaired proofs in front of it lie behind it in the file.
   */
  lemma {:induction false} InteriorDamageBreaks(s: Stores, file: seq<byte>, repaired: seq<(Hash, ProofIndex)>,
                                                tail: bool, chain: seq<Payload>, t: nat, bootstrap: nat, i: nat,
                                                headerAt: map<nat, Header>, heightOf: map<Hash, nat>)
    requires ProofsRepaired(s, file, repaired, tail, chain, t, |chain|) && ValidChain(chain, bootstrap)
             && IndexWithin(s)
    requires t < i < |chain| && ProofOk(s.index, s.file, chain[i]) && chain[i].proof.bytes != []
    ensures i - t <= |repaired| && !StartsInOrder(StoppedAt(s, file, repaired, i - t, headerAt, heightOf), chain)
  {
    hide Partly, ValidChain, GoodIndex, IndexWithin;
    RepairedSizes(s, file, repaired, tail, chain, t);
    var stopped := StoppedAt(s, file, repaired, i - t, headerAt, heightOf);
    forall k | 0 <= k <= i
      ensures ProofOk(stopped.index, stopped.file, chain[k])
    {
      PartlyReadable(s, file, repaired, tail, chain, t, bootstrap, i - t, k);
    }
    PartlyReadable(s, file, repaired, tail, chain, t, bootstrap, i - t, t);
    PartlyReadable(s, file, repaired, tail, chain, t, bootstrap, i - t, i);
    var u := FindUnreadable(stopped, chain, i + 1);
    assert chain[..u][t] == chain[t] && chain[..u][i] == chain[i];
    assert s.index[HashOf(chain[i])].size == |chain[i].proof.bytes|;
    assert stopped.index[HashOf(chain[t])].End() > stopped.index[HashOf(chain[i])].offset;
    assert !InOrder(stopped.index, stopped.file, chain[..u]);
  }

  lemma {:induction false} FindUnreadable(s: Stores, chain: seq<Payload>, from: nat) returns (u: nat)
    requires from <= |chain| && forall k :: 0 <= k < from ==> ProofOk(s.index, s.file, chain[k])
    ensures from <= u && FirstUnreadable(s, chain, u)
    decreases |chain| - from
  {
    hide ProofOk;
    if from < |chain| && ProofOk(s.index, s.file, chain[from]) {
      u := FindUnreadable(s, chain, from + 1);
    } else {
      u := from;
    }
  }

  /**
   Whatever index write a repair stops after, starting again settles at the same tip, exactly when
   no readable proof followed the first unreadable one. `Recover` turns `StartsInOrder` into the
   outcome: from any of these stops its result is settled if and only if that holds.
   */
  lemma {:induction false} RepairInterruptible(s: Stores, file: seq<byte>, repaired: seq<(Hash, ProofIndex)>,
                                               tail: bool, chain: seq<Payload>, t: nat, bootstrap: nat,
                                               headerAt: map<nat, Header>, heightOf: map<Hash, nat>)
    requires ProofsRepaired(s, file, repaired, tail, chain, t, |chain|) && ValidChain(chain, bootstrap)
             && IndexWithin(s)
    requires InOrder(s.index, s.file, chain) && forall i :: 0 <= i < |chain| ==> chain[i].proof.bytes != []
    ensures (forall j :: 0 <= j <= |repaired| ==>
              StartsInOrder(StoppedAt(s, file, repaired, j, headerAt, heightOf), chain))
            <==> NothingReadableAfter(s, chain, t)
  {
    hide ProofsRepaired, ValidChain, InOrder, ProofOk, Partly, IndexWithin, StartsInOrder;
    if NothingReadableAfter(s, chain, t) {
      forall j | 0 <= j <= |repaired|
        ensures StartsInOrder(StoppedAt(s, file, repaired, j, headerAt, heightOf), chain)
      {
        SuffixDamageStays(s, file, repaired, tail, chain, t, bootstrap, j);
        PrefixInOrder(StoppedAt(s, file, repaired, j, headerAt, heightOf), chain);
      }
    } else {
      var i :| t < i < |chain| && ProofOk(s.index, s.file, chain[i]);
      InteriorDamageBreaks(s, file, repaired, tail, chain, t, bootstrap, i, headerAt, heightOf);
    }
  }

  /** From every such stop the program starts: what it then ends with is decided by the order alone. */
  lemma {:induction false} StoppedStarts(s: Stores, records: seq<Retained>, chain: seq<Payload>, base: nat,
                                         bootstrap: nat, genesis: Hash,
                                         file: seq<byte>, repaired: seq<(Hash, ProofIndex)>, tail: bool, t: nat, j: nat,
                                         headerAt: map<nat, Header>, heightOf: map<Hash, nat>)
    requires Startable(s, records, chain, base, bootstrap, genesis) && IndexWithin(s) && base <= t
    requires ProofsRepaired(s, file, repaired, tail, chain, t, |chain|) && j <= |repaired|
    requires HeadersRepaired(headerAt, heightOf, s.headerAt, chain, base, bootstrap)
    ensures Startable(StoppedAt(s, file, repaired, j, headerAt, heightOf), records, chain, base, bootstrap, genesis)
  {
    hide ProofsRepaired, ValidChain, ProofOk, Partly, IndexWithin, JournalFits, HeaderOk, InChain, OrphanHash, Orphaned;
    var s' := StoppedAt(s, file, repaired, j, headerAt, heightOf);
    assert base <= |chain| by { RepairedSizes(s, file, repaired, tail, chain, t); }
    forall i | 0 <= i < base
      ensures ProofOk(s'.index, s'.file, chain[i])
    {
      RepairedBefore(s, file, repaired, tail, chain, t, i);
      PartlyReadable(s, file, repaired, tail, chain, t, bootstrap, j, i);
    }
    forall h | h in s'.index
      ensures InChain(chain, h) || OrphanHash(records, h)
    {
      PartlyKeys(s, file, repaired, tail, chain, t, j, h);
    }
  }

  /** Starting again after an interrupted repair: settled at the same tip iff the readable front is in order. */
  method StartAgain(s: Stores, records: seq<Retained>, proofs: ProofFile, bootstrap: nat, tipFromNode: Hash,
                    ghost s0: Stores, ghost chain: seq<Payload>, ghost base: nat, ghost genesis: Hash,
                    ghost file: seq<byte>, ghost repaired: seq<(Hash, ProofIndex)>, ghost tail: bool, ghost t: nat,
                        ghost j: nat)
    returns (r: Stores, tip: Hash)
    requires Startable(s0, records, chain, base, bootstrap, genesis) && InOrder(s0.index, s0.file, chain)
             && IndexWithin(s0) && base <= t
    requires ProofsRepaired(s0, file, repaired, tail, chain, t, |chain|) && j <= |repaired|
    requires HeadersRepaired(s.headerAt, s.heightOf, s0.headerAt, chain, base, bootstrap)
    requires s == StoppedAt(s0, file, repaired, j, s.headerAt, s.heightOf)
    requires proofs.Valid() && proofs.bytes == s.file
    requires records == [] ==> tipFromNode == TipHash(chain, genesis)
    modifies proofs
    ensures proofs.Valid() && proofs.bytes == r.file && tip == TipHash(chain, genesis)
    ensures Settled(r, chain, bootstrap) <==> StartsInOrder(s, chain)
    ensures NothingReadableAfter(s0, chain, t) ==> Settled(r, chain, bootstrap)
    ensures forall i :: t < i < |chain| && j == i - t ==>
              ProofOk(s0.index, s0.file, chain[i]) && chain[i].proof.bytes != [] ==> !Settled(r, chain, bootstrap)
  {
    hide ProofsRepaired, ValidChain, ProofOk, Partly, IndexWithin, JournalFits, InOrder, StartsInOrder, Settled,
         HeadersRepaired, StoppedAt;
    assert ValidChain(chain, bootstrap) by { StartableParts(s0, records, chain, base, bootstrap, genesis); }
    StoppedStarts(s0, records, chain, base, bootstrap, genesis, file, repaired, tail, t, j, s.headerAt, s.heightOf);
    r, tip := Recover(s, records, proofs, bootstrap, tipFromNode, chain, base, genesis);
    if NothingReadableAfter(s0, chain, t) {
      SuffixDamageStays(s0, file, repaired, tail, chain, t, bootstrap, j);
      assert InOrder(s.index, s.file, chain) by { StoppedFields(s0, file, repaired, j, s.headerAt, s.heightOf); }
      PrefixInOrder(s, chain);
    }
    forall i | t < i < |chain| && j == i - t && ProofOk(s0.index, s0.file, chain[i]) && chain[i].proof.bytes != []
      ensures !StartsInOrder(s, chain)
    {
      InteriorDamageBreaks(s0, file, repaired, tail, chain, t, bootstrap, i, s.headerAt, s.heightOf);
    }
  }

  lemma {:induction false} StoppedFields(s: Stores, file: seq<byte>, repaired: seq<(Hash, ProofIndex)>, j: nat,
                                         headerAt: map<nat, Header>, heightOf: map<Hash, nat>)
    requires j <= |repaired|
    ensures StoppedAt(s, file, repaired, j, headerAt, heightOf).index == Partly(s.index, repaired, j)
    ensures StoppedAt(s, file, repaired, j, headerAt, heightOf).file == file
  {
  }

  /** With nothing readable behind the damage, an interrupted repair can be recovered again, to the same tip. */
  lemma {:induction false} RepairRecoverable(s: Stores, records: seq<Retained>, chain: seq<Payload>, base: nat,
                                             bootstrap: nat, genesis: Hash,
                                             file: seq<byte>, repaired: seq<(Hash, ProofIndex)>, tail: bool, t: nat,
                                             j: nat,
                                             headerAt: map<nat, Header>, heightOf: map<Hash, nat>)
    requires Recoverable(s, records, chain, base, bootstrap, genesis) && IndexWithin(s)
             && NothingReadableAfter(s, chain, t)
    requires ProofsRepaired(s, file, repaired, tail, chain, t, |chain|) && j <= |repaired| && base <= t
    requires HeadersRepaired(headerAt, heightOf, s.headerAt, chain, base, bootstrap)
    ensures Recoverable(StoppedAt(s, file, repaired, j, headerAt, heightOf), records, chain, base, bootstrap, genesis)
  {
    hide ProofsRepaired, Startable, InOrder, Partly, IndexWithin, HeadersRepaired, NothingReadableAfter;
    assert ValidChain(chain, bootstrap) by { StartableParts(s, records, chain, base, bootstrap, genesis); }
    SuffixDamageStays(s, file, repaired, tail, chain, t, bootstrap, j);
    StoppedStarts(s, records, chain, base, bootstrap, genesis, file, repaired, tail, t, j, headerAt, heightOf);
  }

  lemma {:induction false} RepairedSizes(s: Stores, file: seq<byte>, repaired: seq<(Hash, ProofIndex)>, tail: bool,
                                         chain: seq<Payload>, t: nat)
    requires ProofsRepaired(s, file, repaired, tail, chain, t, |chain|)
    ensures t <= |chain| && |repaired| == |chain| - t
  {
  }

  lemma {:induction false} RepairedBefore(s: Stores, file: seq<byte>, repaired: seq<(Hash, ProofIndex)>, tail: bool,
                                          chain: seq<Payload>, t: nat, i: nat)
    requires ProofsRepaired(s, file, repaired, tail, chain, t, |chain|) && i < t
    ensures i < |chain| && ProofOk(s.index, s.file, chain[i])
  {
  }

  lemma {:induction false} PartlyKeys(s: Stores, file: seq<byte>, repaired: seq<(Hash, ProofIndex)>, tail: bool,
                                      chain: seq<Payload>, t: nat, j: nat, h: Hash)
    requires ProofsRepaired(s, file, repaired, tail, chain, t, |chain|) && j <= |repaired|
             && h in Partly(s.index, repaired, j)
    ensures h in s.index || InChain(chain, h)
  {
    hide ProofOk, GoodIndex;
    if j > 0 {
      if h == repaired[j - 1].0 {
        assert HashOf(chain[t + (j - 1)]) == h;
      } else {
        PartlyKeys(s, file, repaired, tail, chain, t, j - 1, h);
      }
    }
  }

  // ----- After an interrupted persist -----

  /** Whatever a persist has indexed when it stops lies in the file. */
  lemma {:induction false} PersistIndexWithin(s: Stores, s0: Stores, chain: seq<Payload>, window: seq<Payload>,
                                              bootstrap: nat, v: nat)
    requires Settled(s0, chain, bootstrap) && ValidChain(chain + window, bootstrap) && PersistStopped(s, s0, window, v)
    ensures IndexWithin(s)
  {
    hide ProofOk, HeaderOk, InOrder, FileAfter, IndexFor;
    WindowDistinct(chain, window, bootstrap);
    forall h | h in s.index
      ensures s.index[h].End() <= |s.file|
    {
      if InChain(window[..v], h) {
        var k :| 0 <= k < v && HashOf(window[..v][k]) == h;
        AppendedReadable(s0.file, window, k);
        FileGrows(s0.file, window, k + 1);
      } else {
        assert h in s0.index;
        var k :| 0 <= k < |chain| && HashOf(chain[k]) == h;
        ProofIndexed(s0.index, s0.file, chain[k]);
      }
    }
  }

  /** Exactly the old blocks and those already indexed are readable. */
  lemma {:induction false} PersistReadable(s: Stores, s0: Stores, chain: seq<Payload>, window: seq<Payload>,
                                           bootstrap: nat, v: nat, i: nat)
    requires Settled(s0, chain, bootstrap) && ValidChain(chain + window, bootstrap)
             && PersistStopped(s, s0, window, v) && i < |chain| + |window|
    ensures ProofOk(s.index, s.file, (chain + window)[i]) <==> i < |chain| + v
  {
    hide HeaderOk, InOrder, FileAfter, IndexFor, ValidChain, Settled, Get;
    WindowDistinct(chain, window, bootstrap);
    IndexWhenStopped(s, s0, chain, window, bootstrap, v, i);
    if |chain| <= i < |chain| + v {
      var k := i - |chain|;
      AppendedReadable(s0.file, window, k);
      AppendedWithin(s0.file, window, k);
      GetExtended(FileAfter(s0.file, window), s.file, IndexFor(s0.file, window, k));
      ReadableAt(s, window[k], IndexFor(s0.file, window, k), s0.file, window, k);
    }
  }

  lemma {:induction false} AppendedWithin(file: seq<byte>, window: seq<Payload>, i: nat)
    requires i < |window| && |window[i].proof.bytes| <= MAX_PROOF_BYTES
    ensures Contains(FileAfter(file, window), IndexFor(file, window, i))
  {
    AppendedReadable(file, window, i);
  }

  /** So no readable proof follows the first unreadable one. */
  lemma {:induction false} PersistNothingAfter(s: Stores, s0: Stores, chain: seq<Payload>, window: seq<Payload>,
                                               bootstrap: nat, v: nat, t: nat)
    requires Settled(s0, chain, bootstrap) && ValidChain(chain + window, bootstrap) && PersistStopped(s, s0, window, v)
    requires FirstUnreadable(s, chain + window, t)
    ensures t == |chain| + v && NothingReadableAfter(s, chain + window, t)
  {
    hide ProofOk, Settled, ValidChain;
    var all := chain + window;
    forall i | 0 <= i < |all|
      ensures ProofOk(s.index, s.file, all[i]) <==> i < |chain| + v
    {
      PersistReadable(s, s0, chain, window, bootstrap, v, i);
    }
    assert v <= |window|;
    var e := |chain| + v;
    assert t < |all| ==> (ProofOk(s.index, s.file, all[t]) <==> t < e);
    assert e < |all| ==> !ProofOk(s.index, s.file, all[e]);
  }

  /** Startup after an interrupted persist may itself be interrupted at any index write. */
  lemma {:induction false} PersistRepairRecoverable(s: Stores, s0: Stores, records: seq<Retained>,
                                                    chain: seq<Payload>, window: seq<Payload>,
                                                    base: nat, bootstrap: nat, genesis: Hash, v: nat,
                                                    file: seq<byte>, repaired: seq<(Hash, ProofIndex)>, tail: bool,
                                                    t: nat, j: nat,
                                                    headerAt: map<nat, Header>, heightOf: map<Hash, nat>)
    requires Settled(s0, chain, bootstrap) && JournalFits(records, chain, base, bootstrap, genesis)
    requires Interruption.Extends(records, chain, window, bootstrap, genesis) && PersistStopped(s, s0, window, v)
    requires ProofsRepaired(s, file, repaired, tail, chain + window, t, |chain + window|) && j <= |repaired|
    requires HeadersRepaired(headerAt, heightOf, s.headerAt, chain + window, base, bootstrap)
    ensures Recoverable(StoppedAt(s, file, repaired, j, headerAt, heightOf), records + Interruption.Published(window),
            chain + window, base, bootstrap, genesis)
  {
    hide Settled, JournalFits, ValidChain, PersistStopped, ProofsRepaired, HeadersRepaired, Recoverable, StoppedAt,
         NothingReadableAfter, IndexWithin, FirstUnreadable;
    RepairedFirst(s, file, repaired, tail, chain + window, t);
    PersistIndexWithin(s, s0, chain, window, bootstrap, v);
    PersistNothingAfter(s, s0, chain, window, bootstrap, v, t);
    PersistRecoverable(s, s0, records, chain, window, base, bootstrap, genesis, v);
    assert base <= |chain| by { BaseInChain(records, chain, base, bootstrap, genesis); }
    RepairRecoverable(s, records + Interruption.Published(window), chain + window, base, bootstrap, genesis, file,
        repaired, tail, t, j, headerAt, heightOf);
  }

  // ----- Startup stopped elsewhere -----

  /** While proofs are appended and headers put back: anything may lie behind the old end of the file. */
  lemma {:induction false} AppendsInterrupted(s: Stores, s': Stores, records: seq<Retained>, chain: seq<Payload>,
                                              base: nat, bootstrap: nat, genesis: Hash)
    requires Recoverable(s, records, chain, base, bootstrap, genesis) && IndexWithin(s)
    requires s.file <= s'.file && s'.index == s.index && s'.height == s.height
    requires HeadersRepaired(s'.headerAt, s'.heightOf, s.headerAt, chain, base, bootstrap)
    ensures Recoverable(s', records, chain, base, bootstrap, genesis) && IndexWithin(s')
  {
    hide ProofOk, ValidChain, JournalFits, HeaderOk, InChain, OrphanHash, Orphaned;
    assert base <= |chain| by { BaseInChain(records, chain, base, bootstrap, genesis); }
    forall i | 0 <= i < |chain|
      ensures ProofOk(s'.index, s'.file, chain[i]) <==> ProofOk(s.index, s.file, chain[i])
    {
      SameReadable(s, s'.file, chain[i]);
    }
    forall i, j | 0 <= i < j < |chain| && ProofOk(s'.index, s'.file, chain[i]) && ProofOk(s'.index, s'.file, chain[j])
      ensures HashOf(chain[i]) in s.index && HashOf(chain[j]) in s.index
              && s.index[HashOf(chain[i])].End() <= s.index[HashOf(chain[j])].offset
    {
      ProofIndexed(s.index, s.file, chain[i]);
      ProofIndexed(s.index, s.file, chain[j]);
    }
  }

  /** While orphans are taken out of the indexes one record after the other. */
  lemma {:induction false} OrphansInterrupted(s: Stores, s': Stores, records: seq<Retained>, chain: seq<Payload>,
                                              base: nat, bootstrap: nat, genesis: Hash, n: nat)
    requires Recoverable(s, records, chain, base, bootstrap, genesis) && n <= |records|
    requires forall k :: k in s'.headerAt <==> k in s.headerAt && !RemovedHeader(records, n, k, s.headerAt[k].hash)
    requires forall k :: k in s'.headerAt ==> s'.headerAt[k] == s.headerAt[k]
    requires forall g :: g in s.heightOf && !RemovedHash(records, n, g) ==>
               g in s'.heightOf && s'.heightOf[g] == s.heightOf[g]
    requires forall g :: g in s'.index <==> g in s.index && !RemovedHash(records, n, g)
    requires forall g :: g in s'.index ==> s'.index[g] == s.index[g]
    requires s'.file == s.file && s'.height == s.height
    ensures Recoverable(s', records, chain, base, bootstrap, genesis)
  {
    hide Get, ValidChain, JournalFits, InChain, OrphanHash, Orphaned, RemovedHeader, RemovedHash;
    assert base <= |chain| by { BaseInChain(records, chain, base, bootstrap, genesis); }
    forall i | 0 <= i < |chain|
      ensures ProofOk(s'.index, s'.file, chain[i]) <==> ProofOk(s.index, s.file, chain[i])
      ensures HeaderOk(s.headerAt, s.heightOf, chain[i]) ==> HeaderOk(s'.headerAt, s'.heightOf, chain[i])
    {
      NeverRemovedYet(s, records, chain, base, bootstrap, genesis, i, n);
      PayloadInChain(chain, bootstrap, i);
    }
  }

  lemma {:induction false} PayloadInChain(chain: seq<Payload>, bootstrap: nat, i: nat)
    requires ValidChain(chain, bootstrap) && i < |chain|
    ensures PayloadOk(chain[i])
  {
  }

  lemma {:induction false} NeverRemovedYet(s: Stores, records: seq<Retained>, chain: seq<Payload>, base: nat,
                                           bootstrap: nat, genesis: Hash, k: nat, n: nat)
    requires Startable(s, records, chain, base, bootstrap, genesis) && k < |chain| && n <= |records|
    ensures !RemovedHash(records, n, HashOf(chain[k])) && forall h :: !RemovedHeader(records, n, h, HashOf(chain[k]))
  {
    hide Removes, Startable;
    NeverRemoved(s, records, chain, base, bootstrap, genesis, k);
  }

  /** After the file is cut behind the tip's proof and before, or after, the height is committed. */
  lemma {:induction false} CutInterrupted(s: Stores, s': Stores, records: seq<Retained>, chain: seq<Payload>,
                                          base: nat, bootstrap: nat, genesis: Hash)
    requires Recoverable(s, records, chain, base, bootstrap, genesis)
    requires (forall i :: 0 <= i < |chain| ==> ProofOk(s.index, s.file, chain[i]))
             && (chain != [] ==> HashOf(chain[|chain| - 1]) in s.index)
    requires s' == s.(file := s'.file, height := s'.height)
             && (s'.height == s.height || s'.height == bootstrap + |chain|)
    requires TipEnd(s.index, chain) <= |s.file| && s'.file == s.file[..TipEnd(s.index, chain)]
    ensures Recoverable(s', records, chain, base, bootstrap, genesis)
  {
    hide ValidChain, JournalFits, HeaderOk, InChain, OrphanHash, Orphaned;
    assert base <= |chain| by { BaseInChain(records, chain, base, bootstrap, genesis); }
    forall i | 0 <= i < |chain|
      ensures ProofOk(s'.index, s'.file, chain[i])
    {
      EndsBeforeTip(s.index, s.file, chain, i);
      GetTruncated(s.file, TipEnd(s.index, chain), s.index[HashOf(chain[i])]);
    }
  }

  // ----- The failing case, concretely -----

  function ExamplePayload(height: nat, name: byte, previous: byte, proof: seq<byte>): Payload {
    Payload(JournalEntry(height, Hash([name]), 0, Hash([previous]), [], [], [], Some(0)),
        Header(Hash([name]), Hash([previous])), CompactProof(proof), 0)
  }

  const FIRST: Payload := ExamplePayload(1, 1, 0, [1])
  const SECOND: Payload := ExamplePayload(2, 2, 1, [2])
  const DAMAGED: seq<byte> := [9, 2]
  const APPENDED: seq<byte> := [9, 2, 1, 2]

  function OldIndex(): map<Hash, ProofIndex> {
    map[HashOf(FIRST) := ProofIndex(0, 1, Some(0)), HashOf(SECOND) := ProofIndex(1, 1, Some(0))]
  }

  function NewEntries(): seq<(Hash, ProofIndex)> {
    [(HashOf(FIRST), ProofIndex(2, 1, Some(0))), (HashOf(SECOND), ProofIndex(3, 1, Some(0)))]
  }

  function DamagedStores(): Stores {
    Stores(map[], map[], OldIndex(), DAMAGED, 2)
  }

  lemma {:induction false} ExampleBytes()
    ensures HashOf(FIRST) != HashOf(SECOND)
    ensures DAMAGED[0..1] != FIRST.proof.bytes && DAMAGED[1..2] == SECOND.proof.bytes
    ensures APPENDED[1..2] == SECOND.proof.bytes && APPENDED[2..3] == FIRST.proof.bytes
            && APPENDED[3..4] == SECOND.proof.bytes
  {
    assert HashOf(FIRST).bytes[0] != HashOf(SECOND).bytes[0];
    assert DAMAGED[0..1][0] != FIRST.proof.bytes[0];
  }

  lemma {:induction false} ExampleForwards()
    ensures Forwards([Retained(FIRST, true), Retained(SECOND, true)]) == [FIRST, SECOND]
  {
    var records := [Retained(FIRST, true), Retained(SECOND, true)];
    assert records[..1] == [Retained(FIRST, true)] && records[..1][..0] == [];
    assert Forwards([]) == [];
    assert Forwards(records[..1]) == [FIRST];
  }

  lemma {:induction false} ExampleJournal()
    ensures ValidChain([FIRST, SECOND], 0)
    ensures JournalFits([Retained(FIRST, true), Retained(SECOND, true)], [FIRST, SECOND], 0, 0, Hash([0]))
  {
    hide Forwards;
    ExampleBytes();
    ExampleForwards();
    assert [FIRST, SECOND][0..] == [FIRST, SECOND];
  }

  lemma {:induction false} ExampleRecoverable()
    ensures Recoverable(DamagedStores(), [Retained(FIRST, true), Retained(SECOND, true)], [FIRST, SECOND], 0, 0,
            Hash([0]))
    ensures ProofsRepaired(DamagedStores(), APPENDED, NewEntries(), true, [FIRST, SECOND], 0, 2)
  {
    hide JournalFits, ValidChain;
    ExampleJournal();
    ExampleBytes();
    var chain := [FIRST, SECOND];
    assert !ProofOk(OldIndex(), DAMAGED, FIRST);
    assert HashOf(chain[0]) == HashOf(FIRST) && HashOf(chain[1]) == HashOf(SECOND);
  }

  /**
   Two blocks, the first proof damaged. After one index write both proofs are readable, nothing
   is repaired on the next start, and cutting the file after the tip's proof loses the first.
   */
  lemma {:induction false} InteriorDamageExample()
    ensures Recoverable(DamagedStores(), [Retained(FIRST, true), Retained(SECOND, true)], [FIRST, SECOND], 0, 0,
            Hash([0]))
    ensures ProofsRepaired(DamagedStores(), APPENDED, NewEntries(), true, [FIRST, SECOND], 0, 2)
    ensures var stopped := Partly(OldIndex(), NewEntries(), 1);
            && ProofOk(stopped, APPENDED, FIRST) && ProofOk(stopped, APPENDED, SECOND)
            && TipEnd(stopped, [FIRST, SECOND]) == 2 && !ProofOk(stopped, APPENDED[..2], FIRST)
  {
    hide Recoverable, ProofsRepaired;
    ExampleRecoverable();
    ExampleBytes();
    assert Partly(OldIndex(), NewEntries(), 0) == OldIndex();
    assert Partly(OldIndex(), NewEntries(), 1) == OldIndex()[HashOf(FIRST) := ProofIndex(2, 1, Some(0))];
  }
}
