/**
 Persisting a published window and rolling back the tip, as they run to the end. Every point on
 the way is one of the states from which startup recovers.
 */
module Persist {
  import opened Wrappers
  import opened Forest
  import opened Entry
  import opened Wal
  import opened ProofStore
  import opened Recovery
  import opened Interruption

  lemma {:induction false} FileGrows(file: seq<byte>, window: seq<Payload>, i: nat)
    requires i <= |window|
    ensures FileAfter(file, window[..i]) <= FileAfter(file, window)
    decreases |window|
  {
    if i < |window| {
      var n := |window| - 1;
      FileGrows(file, window[..n], i);
      assert window[..n][..i] == window[..i];
    } else {
      assert window[..i] == window;
    }
  }

  /** Each proof of the window can be read where its index entry says. */
  lemma {:induction false} AppendedReadable(file: seq<byte>, window: seq<Payload>, i: nat)
    requires i < |window| && |window[i].proof.bytes| <= MAX_PROOF_BYTES
    ensures Get(FileAfter(file, window), IndexFor(file, window, i)) == Some(window[i].proof)
    ensures IndexFor(file, window, i).End() == |FileAfter(file, window[..i + 1])|
  {
    var upTo := FileAfter(file, window[..i + 1]);
    assert window[..i + 1][..i] == window[..i];
    assert upTo == FileAfter(file, window[..i]) + window[i].proof.bytes;
    FileGrows(file, window, i + 1);
    var ix := IndexFor(file, window, i);
    assert upTo[ix.offset..ix.End()] == window[i].proof.bytes;
    GetExtended(upTo, FileAfter(file, window), ix);
  }

  /** Appends the window's proofs and collects their index entries. */
  method AppendProofs(proofs: ProofFile, window: seq<Payload>) returns (indexes: seq<(Hash, ProofIndex)>)
    requires proofs.Valid() && forall i :: 0 <= i < |window| ==> |window[i].proof.bytes| <= MAX_PROOF_BYTES
    modifies proofs
    ensures proofs.Valid() && proofs.bytes == FileAfter(old(proofs.bytes), window)
    ensures |indexes| == |window|
    ensures forall i :: 0 <= i < |window| ==> indexes[i] == (HashOf(window[i]), IndexFor(old(proofs.bytes), window, i))
  {
    indexes := [];
    for i := 0 to |window|
      invariant proofs.Valid() && proofs.bytes == FileAfter(old(proofs.bytes), window[..i])
      invariant |indexes| == i
      invariant forall k :: 0 <= k < i ==> indexes[k] == (HashOf(window[k]), IndexFor(old(proofs.bytes), window, k))
    {
      assert window[..i + 1][..i] == window[..i];
      var appended := proofs.Append(window[i].proof);
      indexes := indexes + [(HashOf(window[i]), appended.value.(rows := Some(window[i].proofRows)))];
    }
    assert window[..|window|] == window;
  }

  /** The stores while headers are being written. */
  lemma {:induction false} StoppedStart(s: Stores, window: seq<Payload>, file: seq<byte>)
    requires s.file <= file
    ensures PersistStopped(s.(file := file), s, window, 0)
  {
    assert window[..0] == [];
  }

  lemma {:induction false} StoppedHeader(s: Stores, s0: Stores, s': Stores, window: seq<Payload>, i: nat)
    requires PersistStopped(s, s0, window, 0) && i < |window| && window[i].header.hash == HashOf(window[i])
    requires s' == s.(headerAt := s.headerAt[HeightOf(window[i]) := window[i].header],
             heightOf := s.heightOf[window[i].header.hash := HeightOf(window[i])])
    ensures PersistStopped(s', s0, window, 0)
  {
    hide FileAfter;
    assert AtWindowHeight(window, HeightOf(window[i]));
    assert InChain(window, HashOf(window[i]));
  }

  lemma {:induction false} StoppedIndex(s: Stores, s0: Stores, s': Stores, window: seq<Payload>, i: nat)
    requires PersistStopped(s, s0, window, i) && i < |window| && FileAfter(s0.file, window) <= s.file
    requires forall j, k :: 0 <= j < k < |window| ==> HashOf(window[j]) != HashOf(window[k])
    requires s' == s.(index := s.index[HashOf(window[i]) := IndexFor(s0.file, window, i)])
    ensures PersistStopped(s', s0, window, i + 1)
  {
    hide FileAfter, AtWindowHeight, IndexFor;
    hide InChain;
    forall g | !InChain(window[..i + 1], g)
      ensures (g in s'.index <==> g in s0.index) && (g in s'.index ==> s'.index[g] == s0.index[g])
    {
      NotInShorter(window, i, g);
    }
    forall k | 0 <= k < i + 1
      ensures HashOf(window[k]) in s'.index && s'.index[HashOf(window[k])] == IndexFor(s0.file, window, k)
    {
      if k < i { assert HashOf(window[k]) != HashOf(window[i]); }
    }
  }

  lemma {:induction false} NotInShorter(window: seq<Payload>, i: nat, g: Hash)
    requires i < |window| && !InChain(window[..i + 1], g)
    ensures !InChain(window[..i], g) && g != HashOf(window[i])
  {
    assert window[..i + 1][i] == window[i];
    assert forall k :: 0 <= k < i ==> window[..i + 1][k] == window[..i][k];
  }

  lemma {:induction false} WindowDistinct(chain: seq<Payload>, window: seq<Payload>, bootstrap: nat)
    requires ValidChain(chain + window, bootstrap)
    ensures forall j, k :: 0 <= j < k < |window| ==> HashOf(window[j]) != HashOf(window[k])
    ensures forall i :: 0 <= i < |window| ==> PayloadOk(window[i]) && HeightOf(window[i]) == bootstrap + 1 + |chain| + i
  {
    var all := chain + window;
    forall i | 0 <= i < |window|
      ensures all[|chain| + i] == window[i]
    {
    }
    forall j, k | 0 <= j < k < |window|
      ensures HashOf(window[j]) != HashOf(window[k])
    {
      assert HashOf(all[|chain| + j]) != HashOf(all[|chain| + k]);
    }
  }

  ghost predicate WindowHeaders(s: Stores, window: seq<Payload>, n: nat) {
    n <= |window| && forall i :: 0 <= i < n ==> HeaderOk(s.headerAt, s.heightOf, window[i])
  }

  /** Everything a persist writes is there: proofs, headers, index entries and height. */
  ghost predicate Persisted(s: Stores, s0: Stores, window: seq<Payload>) {
    && window != [] && PersistStopped(s, s0, window, |window|) && WindowHeaders(s, window, |window|)
    && s.file == FileAfter(s0.file, window) && s.height == HeightOf(window[|window| - 1])
  }

  /**
   Proofs, headers, index entries, height, in this order. Any prefix of it is recoverable, the
   whole of it shows the extended chain.
   */
  method PersistWindow(s: Stores, window: seq<Payload>, proofs: ProofFile, ghost chain: seq<Payload>,
                       ghost bootstrap: nat)
    returns (r: Stores)
    requires Settled(s, chain, bootstrap) && window != [] && ValidChain(chain + window, bootstrap)
    requires proofs.Valid() && proofs.bytes == s.file
    modifies proofs
    ensures proofs.Valid() && proofs.bytes == r.file
    ensures Persisted(r, s, window) && Settled(r, chain + window, bootstrap)
  {
    hide PersistStopped, Settled, ValidChain, FileAfter, IndexFor, HeaderOk;
    WindowDistinct(chain, window, bootstrap);
    var indexes := AppendProofs(proofs, window);
    r := s.(file := proofs.bytes);
    StoppedStart(s, window, proofs.bytes);
    for i := 0 to |window|
      invariant PersistStopped(r, s, window, 0) && WindowHeaders(r, window, i)
      invariant proofs.Valid() && r.file == proofs.bytes == FileAfter(s.file, window) && r.index == s.index
    {
      ghost var was := r;
      var at, of := PutHeader(r.headerAt, r.heightOf, HeightOf(window[i]), window[i].header);
      r := r.(headerAt := at, heightOf := of);
      StoppedHeader(was, s, r, window, i);
      HeaderMore(was, r, window, i);
    }
    for i := 0 to |window|
      invariant PersistStopped(r, s, window, i) && WindowHeaders(r, window, |window|)
      invariant proofs.Valid() && r.file == proofs.bytes == FileAfter(s.file, window)
    {
      ghost var was := r;
      r := r.(index := r.index[indexes[i].0 := indexes[i].1]);
      StoppedIndex(was, s, r, window, i);
    }
    r := r.(height := HeightOf(window[|window| - 1]));
    HeightIrrelevant(r, s, window);
    PersistDone(r, s, chain, window, bootstrap);
  }

  lemma {:induction false} HeaderMore(s: Stores, s': Stores, window: seq<Payload>, i: nat)
    requires WindowHeaders(s, window, i) && i < |window| && window[i].header.hash == HashOf(window[i])
    requires forall j, k :: 0 <= j < k < |window| ==> HashOf(window[j]) != HashOf(window[k])
    requires forall j, k :: 0 <= j < k < |window| ==> HeightOf(window[j]) != HeightOf(window[k])
    requires s' == s.(headerAt := s.headerAt[HeightOf(window[i]) := window[i].header],
             heightOf := s.heightOf[window[i].header.hash := HeightOf(window[i])])
    ensures WindowHeaders(s', window, i + 1)
  {
    forall k | 0 <= k < i + 1
      ensures HeaderOk(s'.headerAt, s'.heightOf, window[k])
    {
      if k < i { assert HashOf(window[k]) != HashOf(window[i]) && HeightOf(window[k]) != HeightOf(window[i]); }
    }
  }

  lemma {:induction false} HeightIrrelevant(s: Stores, s0: Stores, window: seq<Payload>)
    requires exists h :: PersistStopped(s.(height := h), s0, window, |window|)
    ensures PersistStopped(s, s0, window, |window|)
  {
    hide FileAfter, IndexFor, InChain, AtWindowHeight;
  }

  /** With everything written, the stores show the extended chain. */
  lemma {:induction false} PersistDone(s: Stores, s0: Stores, chain: seq<Payload>, window: seq<Payload>, bootstrap: nat)
    requires Settled(s0, chain, bootstrap) && ValidChain(chain + window, bootstrap)
    requires Persisted(s, s0, window)
    ensures Settled(s, chain + window, bootstrap)
  {
    hide PersistStopped, ValidChain, FileAfter, IndexFor, HeaderOk, Get, ProofOk, InOrder, InChain;
    var all, n := chain + window, |window|;
    WindowDistinct(chain, window, bootstrap);
    StoppedInOrder(s, s0, chain, window, bootstrap, n);
    HeadersWhenStopped(s, s0, chain, window, bootstrap, n);
    HashesWhenStopped(s, s0, chain, window, bootstrap, n);
    forall i | 0 <= i < |all|
      ensures HeaderOk(s.headerAt, s.heightOf, all[i]) && ProofOk(s.index, s.file, all[i])
    {
      IndexWhenStopped(s, s0, chain, window, bootstrap, n, i);
      if i < |chain| {
        HeaderWhenStopped(s, s0, chain, window, bootstrap, n, i);
      } else {
        AppendedReadable(s0.file, window, i - |chain|);
        ReadableAt(s, window[i - |chain|], IndexFor(s0.file, window, i - |chain|), s0.file, window, i - |chain|);
      }
    }
    IndexWhenStopped(s, s0, chain, window, bootstrap, n, |all| - 1);
    AppendedReadable(s0.file, window, n - 1);
    assert window[..n] == window;
  }

  lemma {:induction false} ReadableAt(s: Stores, p: Payload, ix: ProofIndex, file: seq<byte>, window: seq<Payload>,
                                      i: nat)
    requires i < |window| && p == window[i] && ix == IndexFor(file, window, i)
    requires HashOf(p) in s.index && s.index[HashOf(p)] == ix && Get(s.file, ix) == Some(p.proof)
    ensures ProofOk(s.index, s.file, p)
  {
  }

  // ----- Rollback -----

  /** Everything a rollback takes away is gone: header, index entry and proof; the height is committed. */
  ghost predicate RolledBack(s: Stores, s0: Stores, chain: seq<Payload>) {
    && chain != [] && RollbackStopped(s, s0, chain)
    && HeightOf(chain[|chain| - 1]) !in s.headerAt && HashOf(chain[|chain| - 1]) !in s.index
    && FrontIndexed(s0.index, chain) && |s.file| == TipEnd(s0.index, Front(chain))
         && s.height + 1 == HeightOf(chain[|chain| - 1])
  }

  /**
   Takes the tip out of the header index and the proof index, then cuts the proof file behind
   the block below.
   */
  method RollbackTip(s: Stores, proofs: ProofFile, tip: Payload, bootstrap: nat, ghost chain: seq<Payload>)
    returns (r: Stores)
    requires Settled(s, chain, bootstrap) && chain != [] && tip == chain[|chain| - 1]
    requires proofs.Valid() && proofs.bytes == s.file
    modifies proofs
    ensures proofs.Valid() && proofs.bytes == r.file
    ensures RolledBack(r, s, chain) && Settled(r, Front(chain), bootstrap)
  {
    hide ValidChain, InOrder, ProofOk, Get;
    ghost var front := Front(chain);
    TipFacts(s, chain, bootstrap);
    var at, of := RemoveHeader(s.headerAt, s.heightOf, HeightOf(tip), HashOf(tip));
    var index := s.index - {HashOf(tip)};
    var previous: Option<ProofIndex> := None;
    if HeightOf(tip) - 1 > bootstrap {
      previous := Some(index[tip.entry.previousBlockHash]);
    }
    var cut := proofs.TruncateAfter(previous);
    r := Stores(at, of, index, proofs.bytes, HeightOf(tip) - 1);
    RollbackDone(r, s, chain, bootstrap);
  }

  lemma {:induction false} TipFacts(s: Stores, chain: seq<Payload>, bootstrap: nat)
    requires Settled(s, chain, bootstrap) && chain != []
    ensures var tip := chain[|chain| - 1];
            && HeightOf(tip) == bootstrap + |chain| && HeightOf(tip) in s.headerAt
                 && s.headerAt[HeightOf(tip)] == tip.header
            && tip.header.hash == HashOf(tip)
            && FrontIndexed(s.index, chain) && TipEnd(s.index, Front(chain)) <= |s.file|
            && (|chain| > 1 ==>
                  && tip.entry.previousBlockHash == HashOf(chain[|chain| - 2])
                       && HashOf(chain[|chain| - 2]) != HashOf(tip)
                  && HashOf(chain[|chain| - 2]) in s.index)
  {
    hide InOrder, Get;
    var n := |chain| - 1;
    assert HeaderOk(s.headerAt, s.heightOf, chain[n]) && PayloadOk(chain[n]);
    if n > 0 {
      EndsBefore(s, chain, bootstrap, n - 1);
      assert HashOf(chain[n - 1]) != HashOf(chain[n]);
    }
  }

  lemma {:induction false} RollbackDone(s: Stores, s0: Stores, chain: seq<Payload>, bootstrap: nat)
    requires Settled(s0, chain, bootstrap) && RolledBack(s, s0, chain)
    ensures Settled(s, Front(chain), bootstrap)
  {
    hide HeaderOk, ProofOk, InOrder, ValidChain, InChain, RollbackStopped;
    var front := Front(chain);
    FrontValid(chain, bootstrap);
    FrontInOrder(s, s0, chain, bootstrap);
    TipFacts(s0, chain, bootstrap);
    forall k | 0 <= k < |front|
      ensures HeaderOk(s.headerAt, s.heightOf, front[k]) && ProofOk(s.index, s.file, front[k])
      ensures HashOf(front[k]) in s.index && HashOf(front[k]) in s0.index
              && s.index[HashOf(front[k])] == s0.index[HashOf(front[k])]
    {
      BelowTip(s, s0, chain, bootstrap, k);
      ProofIndexed(s.index, s.file, front[k]);
    }
    FrontOnly(s, s0, chain, bootstrap);
  }

  lemma {:induction false} FrontInOrder(s: Stores, s0: Stores, chain: seq<Payload>, bootstrap: nat)
    requires Settled(s0, chain, bootstrap) && chain != [] && RollbackStopped(s, s0, chain)
    ensures InOrder(s.index, s.file, Front(chain))
  {
    hide HeaderOk, ProofOk, ValidChain, InChain, RollbackStopped;
    var front := Front(chain);
    forall i, j | 0 <= i < j < |front|
      ensures HashOf(front[i]) in s.index && HashOf(front[j]) in s.index
              && s.index[HashOf(front[i])].End() <= s.index[HashOf(front[j])].offset
    {
      BelowTip(s, s0, chain, bootstrap, i);
      BelowTip(s, s0, chain, bootstrap, j);
      ProofIndexed(s.index, s.file, front[i]);
      ProofIndexed(s.index, s.file, front[j]);
      assert ProofOk(s0.index, s0.file, chain[i]) && ProofOk(s0.index, s0.file, chain[j]);
    }
  }

  lemma {:induction false} FrontOnly(s: Stores, s0: Stores, chain: seq<Payload>, bootstrap: nat)
    requires Settled(s0, chain, bootstrap) && chain != [] && RollbackStopped(s, s0, chain)
    requires HeightOf(chain[|chain| - 1]) !in s.headerAt && HashOf(chain[|chain| - 1]) !in s.index
    ensures forall h :: h in s.headerAt ==> h < bootstrap + |chain|
    ensures forall g :: g in s.index ==> InChain(Front(chain), g)
  {
    hide HeaderOk, ProofOk, InOrder;
    var front := Front(chain);
    assert HeightOf(chain[|chain| - 1]) == bootstrap + |chain|;
    forall g | g in s.index
      ensures InChain(front, g)
    {
      var j :| 0 <= j < |chain| && HashOf(chain[j]) == g;
      assert HashOf(front[j]) == g;
    }
  }
}
