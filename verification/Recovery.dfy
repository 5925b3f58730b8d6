/**
 Startup reconciliation of the journal with the header index, the proof index, the proof file
 and the committed height.

 The published records decide. Their headers and proofs are put back where they are missing or
 wrong; from the first unreadable proof on, every later retained proof is appended again, so the
 proofs stay in file order and cutting the file after the tip's proof loses none. Records that
 were rolled back are taken out of the indexes.
 */
module Recovery {
  import opened Wrappers
  import opened Forest
  import opened Entry
  import opened Wal
  import opened ProofStore

  datatype Stores = Stores(
    headerAt: map<nat, Header>, heightOf: map<Hash, nat>,
    index: map<Hash, ProofIndex>, file: seq<byte>, height: nat)

  datatype Retained = Retained(payload: Payload, forward: bool)

  function HashOf(p: Payload): Hash { p.entry.blockHash }

  function HeightOf(p: Payload): nat { p.entry.height }

  // ----- The chain the stores should show -----

  /** The journal accepts only a header that matches its entry, and a proof that fits the file. */
  predicate PayloadOk(p: Payload) {
    p.header.hash == p.entry.blockHash && p.header.previous == p.entry.previousBlockHash
        && |p.proof.bytes| <= MAX_PROOF_BYTES
  }

  predicate ValidChain(chain: seq<Payload>, bootstrap: nat) {
    && (forall i :: 0 <= i < |chain| ==> PayloadOk(chain[i]) && HeightOf(chain[i]) == bootstrap + 1 + i)
    && (forall i, j :: 0 <= i < j < |chain| ==> HashOf(chain[i]) != HashOf(chain[j]))
    && forall i :: 0 < i < |chain| ==> chain[i].entry.previousBlockHash == HashOf(chain[i - 1])
  }

  predicate HeaderOk(headerAt: map<nat, Header>, heightOf: map<Hash, nat>, p: Payload) {
    && HeightOf(p) in headerAt && headerAt[HeightOf(p)] == p.header
    && HashOf(p) in heightOf && heightOf[HashOf(p)] == HeightOf(p)
  }

  predicate ProofOk(index: map<Hash, ProofIndex>, file: seq<byte>, p: Payload) {
    && HashOf(p) in index && index[HashOf(p)].rows == Some(p.proofRows)
    && Get(file, index[HashOf(p)]) == Some(p.proof)
  }

  /** Readable proofs lie in the file in chain order. */
  predicate InOrder(index: map<Hash, ProofIndex>, file: seq<byte>, chain: seq<Payload>) {
    forall i, j :: 0 <= i < j < |chain| && ProofOk(index, file, chain[i]) && ProofOk(index, file, chain[j]) ==>
      index[HashOf(chain[i])].End() <= index[HashOf(chain[j])].offset
  }

  function TipEnd(index: map<Hash, ProofIndex>, chain: seq<Payload>): nat
    requires chain != [] ==> HashOf(chain[|chain| - 1]) in index
  {
    if chain == [] then 0 else index[HashOf(chain[|chain| - 1])].End()
  }

  ghost predicate InChain(chain: seq<Payload>, h: Hash) {
    exists i :: 0 <= i < |chain| && HashOf(chain[i]) == h
  }

  /** Headers, proof index, proof bytes and height all show exactly this chain. */
  ghost predicate Settled(s: Stores, chain: seq<Payload>, bootstrap: nat) {
    && ValidChain(chain, bootstrap)
    && (forall i :: 0 <= i < |chain| ==> HeaderOk(s.headerAt, s.heightOf, chain[i]))
    && (forall i :: 0 <= i < |chain| ==> ProofOk(s.index, s.file, chain[i]))
    && InOrder(s.index, s.file, chain)
    && (chain != [] ==> HashOf(chain[|chain| - 1]) in s.index)
    && |s.file| == TipEnd(s.index, chain)
    && s.height == bootstrap + |chain|
    && (forall h :: h in s.headerAt ==> h <= bootstrap + |chain|)
    && (forall h :: h in s.index ==> InChain(chain, h))
  }

  // ----- The journal beside the chain -----

  function Forwards(records: seq<Retained>): seq<Payload> {
    if records == [] then []
    else
      var rest := Forwards(records[..|records| - 1]);
      if records[|records| - 1].forward then rest + [records[|records| - 1].payload] else rest
  }

  function TipHash(chain: seq<Payload>, genesis: Hash): Hash {
    if chain == [] then genesis else HashOf(chain[|chain| - 1])
  }

  /** The forward records are the end of the chain; the oldest record followed the part before. */
  ghost predicate JournalFits(records: seq<Retained>, chain: seq<Payload>, base: nat, bootstrap: nat, genesis: Hash) {
    && base <= |chain| && Forwards(records) == chain[base..]
    && (records != [] ==>
          && HeightOf(records[0].payload) == bootstrap + base + 1
          && records[0].payload.entry.previousBlockHash == TipHash(chain[..base], genesis))
    && (forall i :: 0 <= i < |records| ==> PayloadOk(records[i].payload))
    && (forall i, j :: 0 <= i < |records| && 0 <= j < |chain| && HashOf(records[i].payload) == HashOf(chain[j]) ==>
          HeightOf(records[i].payload) == HeightOf(chain[j]))
    && (forall i, j :: 0 <= i < |records| && !records[i].forward && 0 <= j < base ==>
           HashOf(records[i].payload) != HashOf(chain[j]))
    && NoneReappended(records)
    && (chain != [] ==> chain[0].entry.previousBlockHash == genesis)
  }

  /** A block that is still active was not appended again and rolled back since. */
  predicate NoneReappended(records: seq<Retained>) {
    forall i, j :: 0 <= i < j < |records| && records[i].forward && !records[j].forward ==>
          HashOf(records[i].payload) != HashOf(records[j].payload)
  }

  ghost predicate Orphaned(records: seq<Retained>, height: nat, h: Hash) {
    exists i :: 0 <= i < |records| && !records[i].forward && HeightOf(records[i].payload) == height
        && HashOf(records[i].payload) == h
  }

  ghost predicate OrphanHash(records: seq<Retained>, h: Hash) {
    exists i :: 0 <= i < |records| && !records[i].forward && HashOf(records[i].payload) == h
  }

  /** Blocks older than the journal are intact, and nothing but orphans is left over. */
  ghost predicate Startable(s: Stores, records: seq<Retained>, chain: seq<Payload>, base: nat, bootstrap: nat,
                            genesis: Hash) {
    && ValidChain(chain, bootstrap) && JournalFits(records, chain, base, bootstrap, genesis)
    && (forall i :: 0 <= i < base ==> HeaderOk(s.headerAt, s.heightOf, chain[i]) && ProofOk(s.index, s.file, chain[i]))
    && (forall h :: h in s.headerAt && h > bootstrap + |chain| ==> Orphaned(records, h, s.headerAt[h].hash))
    && (forall h :: h in s.index ==> InChain(chain, h) || OrphanHash(records, h))
    && (records == [] ==> s.height == bootstrap + |chain|)
  }

  /**
   What an interrupted persist or rollback, or damage to the retained blocks, may leave behind:
   a startable state in which whatever proofs are readable lie in order.
   */
  ghost predicate Recoverable(s: Stores, records: seq<Retained>, chain: seq<Payload>, base: nat, bootstrap: nat,
                              genesis: Hash) {
    Startable(s, records, chain, base, bootstrap, genesis) && InOrder(s.index, s.file, chain)
  }

  /** Everything before is readable, the block itself (if there is one) is not. */
  predicate FirstUnreadable(s: Stores, chain: seq<Payload>, t: nat) {
    && t <= |chain|
    && (forall i :: 0 <= i < t ==> ProofOk(s.index, s.file, chain[i]))
    && (t < |chain| ==> !ProofOk(s.index, s.file, chain[t]))
  }

  /** The proofs in front of the first unreadable one lie in file order. */
  ghost predicate StartsInOrder(s: Stores, chain: seq<Payload>) {
    forall t: nat :: FirstUnreadable(s, chain, t) ==> InOrder(s.index, s.file, chain[..t])
  }

  // ----- The header index -----

  function GetHeight(headerAt: map<nat, Header>, heightOf: map<Hash, nat>, h: Hash): Option<nat> {
    if h in heightOf && heightOf[h] in headerAt && headerAt[heightOf[h]].hash == h then Some(heightOf[h]) else None
  }

  method PutHeader(headerAt: map<nat, Header>, heightOf: map<Hash, nat>, height: nat, header: Header)
    returns (at: map<nat, Header>, of: map<Hash, nat>)
    ensures at == headerAt[height := header] && of == heightOf[header.hash := height]
  {
    of := heightOf[header.hash := height];
    at := headerAt[height := header];
  }

  /** Never erases another block that has taken the height since. */
  method RemoveHeader(headerAt: map<nat, Header>, heightOf: map<Hash, nat>, height: nat, h: Hash)
    returns (at: map<nat, Header>, of: map<Hash, nat>)
    ensures height in at ==> at[height].hash != h
    ensures forall k :: k in headerAt && !(k == height && headerAt[k].hash == h) ==> k in at && at[k] == headerAt[k]
    ensures forall k :: k in at ==> k in headerAt && at[k] == headerAt[k]
    ensures forall g :: g != h && g in heightOf ==> g in of && of[g] == heightOf[g]
    ensures forall g :: g in of ==> g in heightOf && of[g] == heightOf[g]
    ensures h in of <==> h in heightOf && !(heightOf[h] == height && height in headerAt && headerAt[height].hash == h)
  {
    of, at := heightOf, headerAt;
    if GetHeight(headerAt, heightOf, h) == Some(height) {
      of := heightOf - {h};
    }
    if height in headerAt && headerAt[height].hash == h {
      at := headerAt - {height};
    }
  }

  // ----- Counting along the journal -----

  lemma {:induction false} ForwardsPrefix(records: seq<Retained>, i: nat)
    requires i <= |records|
    ensures |Forwards(records[..i])| <= |Forwards(records)|
    ensures Forwards(records[..i]) == Forwards(records)[..|Forwards(records[..i])|]
    ensures i < |records| && records[i].forward ==>
              |Forwards(records[..i])| < |Forwards(records)|
                  && Forwards(records)[|Forwards(records[..i])|] == records[i].payload
  {
    if i == |records| {
      assert records[..i] == records;
    } else {
      var n := |records| - 1;
      ForwardsPrefix(records[..n], i);
      assert records[..n][..i] == records[..i];
      if i == n { assert records[..n][..n] == records[..n]; }
    }
  }

  /** The next forward record is the next block of the chain. */
  lemma {:induction false} NextForward(records: seq<Retained>, chain: seq<Payload>, base: nat, bootstrap: nat,
                                       genesis: Hash, i: nat)
    requires JournalFits(records, chain, base, bootstrap, genesis) && i < |records|
    ensures var n := base + |Forwards(records[..i])|;
            && n <= |chain|
            && (records[i].forward ==>
                   n < |chain| && chain[n] == records[i].payload && base + |Forwards(records[..i + 1])| == n + 1)
            && (!records[i].forward ==> base + |Forwards(records[..i + 1])| == n)
  {
    ForwardsPrefix(records, i);
    assert records[..i + 1][..i] == records[..i];
    assert records[..i + 1][i] == records[i];
    if records[i].forward {
      assert chain[base..][|Forwards(records[..i])|] == records[i].payload;
    }
  }

  // ----- Putting headers and proofs back -----

  /** The first blocks' headers are indexed, and nothing above the chain has changed. */
  ghost predicate HeadersRepaired(at: map<nat, Header>, of: map<Hash, nat>, was: map<nat, Header>,
                                  chain: seq<Payload>, n: nat, bootstrap: nat) {
    && n <= |chain|
    && (forall i :: 0 <= i < n ==> HeaderOk(at, of, chain[i]))
    && forall h :: h in at && h > bootstrap + |chain| ==> h in was && at[h] == was[h]
  }

  predicate GoodIndex(file: seq<byte>, ix: ProofIndex, p: Payload) {
    ix.rows == Some(p.proofRows) && Get(file, ix) == Some(p.proof)
  }

  /** Up to `t` the stored proofs are readable, from `t` up to `n` they have been appended again. */
  ghost predicate ProofsRepaired(s: Stores, file: seq<byte>, repaired: seq<(Hash, ProofIndex)>, tail: bool,
                                 chain: seq<Payload>, t: nat, n: nat) {
    && t <= n <= |chain| && |repaired| == n - t && s.file <= file
    && (if tail then t < n else repaired == [] && file == s.file)
    && (forall i :: 0 <= i < t ==> ProofOk(s.index, s.file, chain[i]))
    && (forall k :: 0 <= k < |repaired| ==>
          && repaired[k].0 == HashOf(chain[t + k])
          && GoodIndex(file, repaired[k].1, chain[t + k]) && |s.file| <= repaired[k].1.offset)
    && (forall k, l :: 0 <= k < l < |repaired| ==> repaired[k].1.End() <= repaired[l].1.offset)
    && (t < n ==> !ProofOk(s.index, s.file, chain[t]))
  }

  method RepairHeader(headerAt: map<nat, Header>, heightOf: map<Hash, nat>, p: Payload,
                      ghost was: map<nat, Header>, ghost chain: seq<Payload>, ghost n: nat, ghost bootstrap: nat)
    returns (at: map<nat, Header>, of: map<Hash, nat>)
    requires ValidChain(chain, bootstrap) && n < |chain| && chain[n] == p
    requires HeadersRepaired(headerAt, heightOf, was, chain, n, bootstrap)
    ensures HeadersRepaired(at, of, was, chain, n + 1, bootstrap)
  {
    at, of := headerAt, heightOf;
    if (HeightOf(p) !in headerAt || headerAt[HeightOf(p)] != p.header)
        || GetHeight(headerAt, heightOf, HashOf(p)) != Some(HeightOf(p)) {
      at, of := PutHeader(headerAt, heightOf, HeightOf(p), p.header);
    }
    forall i | 0 <= i < n + 1
      ensures HeaderOk(at, of, chain[i])
    {
      if i < n { assert HashOf(chain[i]) != HashOf(chain[n]); }
    }
  }

  lemma {:induction false} RepairNothing(s: Stores, repaired: seq<(Hash, ProofIndex)>, chain: seq<Payload>, t: nat,
                                         n: nat)
    requires ProofsRepaired(s, s.file, repaired, false, chain, t, n) && n < |chain|
             && ProofOk(s.index, s.file, chain[n])
    ensures ProofsRepaired(s, s.file, repaired, false, chain, n + 1, n + 1)
  {
    assert t == n;
  }

  lemma {:induction false} RepairOne(s: Stores, file: seq<byte>, repaired: seq<(Hash, ProofIndex)>, tail: bool,
                                     chain: seq<Payload>, t: nat, n: nat,
                  file': seq<byte>, ix: ProofIndex)
    requires ProofsRepaired(s, file, repaired, tail, chain, t, n) && n < |chain|
    requires file <= file' && ix.offset == |file| && GoodIndex(file', ix, chain[n])
    requires tail || !ProofOk(s.index, s.file, chain[n])
    ensures ProofsRepaired(s, file', repaired + [(HashOf(chain[n]), ix)], true, chain, t, n + 1)
  {
    hide ProofOk, Get;
    var repaired' := repaired + [(HashOf(chain[n]), ix)];
    forall k | 0 <= k < |repaired|
      ensures GoodIndex(file', repaired[k].1, chain[t + k]) && repaired[k].1.End() <= |file|
    {
      GoodExtended(file, file', repaired[k].1, chain[t + k]);
    }
    forall k, l | 0 <= k < l < |repaired'|
      ensures repaired'[k].1.End() <= repaired'[l].1.offset
    {
      if l == |repaired| { assert repaired'[k] == repaired[k]; }
    }
  }

  lemma {:induction false} GoodExtended(file: seq<byte>, file': seq<byte>, ix: ProofIndex, p: Payload)
    requires file <= file' && GoodIndex(file, ix, p)
    ensures GoodIndex(file', ix, p) && ix.End() <= |file|
  {
    GetExtended(file, file', ix);
  }

  /** The index entry has the right layout and the file the right bytes. */
  method ReadsBack(index: map<Hash, ProofIndex>, proofs: ProofFile, p: Payload) returns (valid: bool)
    requires proofs.Valid()
    ensures valid <==> ProofOk(index, proofs.bytes, p)
  {
    if HashOf(p) !in index || index[HashOf(p)].rows != Some(p.proofRows) {
      return false;
    }
    var stored := proofs.Lookup(index[HashOf(p)]);
    return stored == Some(p.proof);
  }

  lemma {:induction false} StartableParts(s: Stores, records: seq<Retained>, chain: seq<Payload>, base: nat,
                                          bootstrap: nat, genesis: Hash)
    requires Startable(s, records, chain, base, bootstrap, genesis)
    ensures ValidChain(chain, bootstrap) && JournalFits(records, chain, base, bootstrap, genesis) && base <= |chain|
    ensures base + |Forwards(records)| == |chain| && forall i :: 0 <= i < |records| ==> PayloadOk(records[i].payload)
  {
  }

  /** One pass over the journal: headers in place, unreadable proofs and all later ones appended. */
  method RepairRecords(s: Stores, records: seq<Retained>, proofs: ProofFile,
                       ghost chain: seq<Payload>, ghost base: nat, ghost bootstrap: nat, ghost genesis: Hash)
    returns (at: map<nat, Header>, of: map<Hash, nat>, repaired: seq<(Hash, ProofIndex)>, ghost t: nat)
    requires Startable(s, records, chain, base, bootstrap, genesis)
    requires proofs.Valid() && proofs.bytes == s.file
    modifies proofs
    ensures proofs.Valid() && base <= t && FirstUnreadable(s, chain, t)
    ensures HeadersRepaired(at, of, s.headerAt, chain, |chain|, bootstrap)
    ensures exists tail :: ProofsRepaired(s, proofs.bytes, repaired, tail, chain, t, |chain|)
  {
    hide ProofsRepaired, HeadersRepaired, ValidChain, Forwards, Startable, JournalFits, FirstUnreadable, ProofOk;
    StartableParts(s, records, chain, base, bootstrap, genesis);
    at, of, repaired, t := s.headerAt, s.heightOf, [], base;
    var tail := false;
    StartRepair(s, records, chain, base, bootstrap, genesis);
    ghost var n: nat := base;
    for i := 0 to |records|
      invariant proofs.Valid() && n == base + |Forwards(records[..i])| <= |chain|
      invariant HeadersRepaired(at, of, s.headerAt, chain, n, bootstrap)
      invariant ProofsRepaired(s, proofs.bytes, repaired, tail, chain, t, n)
      invariant (!tail ==> proofs.bytes == s.file) && base <= t
    {
      NextForward(records, chain, base, bootstrap, genesis, i);
      if !records[i].forward {
        continue;
      }
      var p := records[i].payload;
      at, of := RepairHeader(at, of, p, s.headerAt, chain, n, bootstrap);
      var valid := ReadsBack(s.index, proofs, p);
      if tail || !valid {
        ghost var was := proofs.bytes;
        var appended := proofs.Append(p.proof);
        assert PayloadOk(p);
        var ix := appended.value.(rows := Some(p.proofRows));
        RepairOne(s, was, repaired, tail, chain, t, n, proofs.bytes, ix);
        repaired := repaired + [(HashOf(p), ix)];
        tail := true;
      } else {
        RepairNothing(s, repaired, chain, t, n);
        t := n + 1;
      }
      n := n + 1;
    }
    assert records[..|records|] == records;
    assert n == |chain|;
    RepairedFirst(s, proofs.bytes, repaired, tail, chain, t);
  }

  lemma {:induction false} RepairedFirst(s: Stores, file: seq<byte>, repaired: seq<(Hash, ProofIndex)>, tail: bool,
                                         chain: seq<Payload>, t: nat)
    requires ProofsRepaired(s, file, repaired, tail, chain, t, |chain|)
    ensures FirstUnreadable(s, chain, t)
  {
  }

  lemma {:induction false} StartRepair(s: Stores, records: seq<Retained>, chain: seq<Payload>, base: nat,
                                       bootstrap: nat, genesis: Hash)
    requires Startable(s, records, chain, base, bootstrap, genesis)
    ensures HeadersRepaired(s.headerAt, s.heightOf, s.headerAt, chain, base, bootstrap)
    ensures ProofsRepaired(s, s.file, [], false, chain, base, base)
    ensures records[..0] == [] && Forwards(records[..0]) == []
  {
  }

  method WriteIndexes(index: map<Hash, ProofIndex>, repaired: seq<(Hash, ProofIndex)>)
    returns (r: map<Hash, ProofIndex>)
    requires forall k, l :: 0 <= k < l < |repaired| ==> repaired[k].0 != repaired[l].0
    ensures forall k :: 0 <= k < |repaired| ==> repaired[k].0 in r && r[repaired[k].0] == repaired[k].1
    ensures forall h :: (forall k :: 0 <= k < |repaired| ==> repaired[k].0 != h) ==>
              (h in r <==> h in index) && (h in r ==> r[h] == index[h])
  {
    r := index;
    for i := 0 to |repaired|
      invariant forall k :: 0 <= k < i ==> repaired[k].0 in r && r[repaired[k].0] == repaired[k].1
      invariant forall h :: (forall k :: 0 <= k < i ==> repaired[k].0 != h) ==>
                  (h in r <==> h in index) && (h in r ==> r[h] == index[h])
    {
      r := r[repaired[i].0 := repaired[i].1];
    }
  }

  lemma {:induction false} RepairedDistinct(s: Stores, file: seq<byte>, repaired: seq<(Hash, ProofIndex)>, tail: bool,
                                            chain: seq<Payload>, t: nat, bootstrap: nat)
    requires ProofsRepaired(s, file, repaired, tail, chain, t, |chain|) && ValidChain(chain, bootstrap)
    ensures forall k, l :: 0 <= k < l < |repaired| ==> repaired[k].0 != repaired[l].0
  {
    hide ProofOk, GoodIndex;
    forall k, l | 0 <= k < l < |repaired|
      ensures repaired[k].0 != repaired[l].0
    {
      assert HashOf(chain[t + k]) != HashOf(chain[t + l]);
    }
  }

  /** The proof index of one block after the repaired entries are written. */
  lemma {:induction false} RepairedAt(s: Stores, file: seq<byte>, repaired: seq<(Hash, ProofIndex)>, tail: bool,
                                      chain: seq<Payload>, t: nat, bootstrap: nat,
                   index: map<Hash, ProofIndex>, i: nat)
    requires ProofsRepaired(s, file, repaired, tail, chain, t, |chain|) && ValidChain(chain, bootstrap) && i < |chain|
    requires forall k :: 0 <= k < |repaired| ==> repaired[k].0 in index && index[repaired[k].0] == repaired[k].1
    requires forall h :: (forall k :: 0 <= k < |repaired| ==> repaired[k].0 != h) ==>
               (h in index <==> h in s.index) && (h in index ==> index[h] == s.index[h])
    ensures ProofOk(index, file, chain[i])
    ensures i < t ==> index[HashOf(chain[i])] == s.index[HashOf(chain[i])] && ProofOk(s.index, s.file, chain[i])
    ensures i >= t ==> index[HashOf(chain[i])] == repaired[i - t].1
  {
    if i < t {
      forall k | 0 <= k < |repaired|
        ensures repaired[k].0 != HashOf(chain[i])
      {
        assert HashOf(chain[i]) != HashOf(chain[t + k]);
      }
      GetExtended(s.file, file, s.index[HashOf(chain[i])]);
    } else {
      assert repaired[i - t].0 == HashOf(chain[t + (i - t)]);
    }
  }

  /** All proofs are readable, and in order. */
  lemma {:induction false} ProofsSettled(s: Stores, file: seq<byte>, repaired: seq<(Hash, ProofIndex)>, tail: bool,
                                         chain: seq<Payload>, t: nat, bootstrap: nat,
                      index: map<Hash, ProofIndex>)
    requires ProofsRepaired(s, file, repaired, tail, chain, t, |chain|) && ValidChain(chain, bootstrap)
    requires forall k :: 0 <= k < |repaired| ==> repaired[k].0 in index && index[repaired[k].0] == repaired[k].1
    requires forall h :: (forall k :: 0 <= k < |repaired| ==> repaired[k].0 != h) ==>
               (h in index <==> h in s.index) && (h in index ==> index[h] == s.index[h])
    ensures forall i :: 0 <= i < |chain| ==> ProofOk(index, file, chain[i])
    ensures InOrder(index, file, chain) <==> InOrder(s.index, s.file, chain[..t])
    ensures forall h :: h in index ==> h in s.index || InChain(chain, h)
  {
    hide ProofOk, ValidChain, GoodIndex;
    forall i | 0 <= i < |chain|
      ensures ProofOk(index, file, chain[i])
    {
      RepairedAt(s, file, repaired, tail, chain, t, bootstrap, index, i);
    }
    if InOrder(s.index, s.file, chain[..t]) {
      forall i, j | 0 <= i < j < |chain|
        ensures HashOf(chain[i]) in index && HashOf(chain[j]) in index
                && index[HashOf(chain[i])].End() <= index[HashOf(chain[j])].offset
      {
        RepairedPair(s, file, repaired, tail, chain, t, bootstrap, index, i, j);
      }
    }
    if InOrder(index, file, chain) {
      forall i, j | 0 <= i < j < t
        ensures HashOf(chain[i]) in s.index && HashOf(chain[j]) in s.index
                && s.index[HashOf(chain[i])].End() <= s.index[HashOf(chain[j])].offset
      {
        RepairedAt(s, file, repaired, tail, chain, t, bootstrap, index, i);
        RepairedAt(s, file, repaired, tail, chain, t, bootstrap, index, j);
        ProofIndexed(s.index, s.file, chain[i]);
        ProofIndexed(s.index, s.file, chain[j]);
      }
    }
    forall h | h in index && h !in s.index
      ensures InChain(chain, h)
    {
      var k :| 0 <= k < |repaired| && repaired[k].0 == h;
      assert HashOf(chain[t + k]) == h;
    }
  }

  lemma {:induction false} RepairedPair(s: Stores, file: seq<byte>, repaired: seq<(Hash, ProofIndex)>, tail: bool,
                                        chain: seq<Payload>, t: nat, bootstrap: nat,
                                        index: map<Hash, ProofIndex>, i: nat, j: nat)
    requires ProofsRepaired(s, file, repaired, tail, chain, t, |chain|) && ValidChain(chain, bootstrap)
             && InOrder(s.index, s.file, chain[..t])
    requires forall k :: 0 <= k < |repaired| ==> repaired[k].0 in index && index[repaired[k].0] == repaired[k].1
    requires forall h :: (forall k :: 0 <= k < |repaired| ==> repaired[k].0 != h) ==>
               (h in index <==> h in s.index) && (h in index ==> index[h] == s.index[h])
    requires i < j < |chain|
    ensures HashOf(chain[i]) in index && HashOf(chain[j]) in index
            && index[HashOf(chain[i])].End() <= index[HashOf(chain[j])].offset
  {
    hide ProofOk, ValidChain, GoodIndex;
    RepairedAt(s, file, repaired, tail, chain, t, bootstrap, index, i);
    RepairedAt(s, file, repaired, tail, chain, t, bootstrap, index, j);
    ProofIndexed(index, file, chain[i]);
    ProofIndexed(index, file, chain[j]);
    if i < t { ProofIndexed(s.index, s.file, chain[i]); }
    if j < t { assert chain[..t][i] == chain[i] && chain[..t][j] == chain[j]; }
  }

  lemma {:induction false} ProofIndexed(index: map<Hash, ProofIndex>, file: seq<byte>, p: Payload)
    requires ProofOk(index, file, p)
    ensures HashOf(p) in index && index[HashOf(p)].End() <= |file|
  {
  }

  // ----- Checking every height, removing orphans, cutting the file -----

  predicate HeightValid(at: map<nat, Header>, index: map<Hash, ProofIndex>, file: seq<byte>, retained: map<nat, Hash>,
                        height: nat) {
    && height in at && at[height].hash in index
    && (height in retained ==> retained[height] == at[height].hash)
    && Contains(file, index[at[height].hash])
  }

  /**
   A header, an index entry for its hash that lies within the file, and no other hash in the
   journal for this height.
   */
  lemma {:induction false} HeightValidMeans(at: map<nat, Header>, index: map<Hash, ProofIndex>, file: seq<byte>,
                                            retained: map<nat, Hash>, h: nat)
    ensures !HeightValid(at, index, file, retained, h) <==>
              || h !in at || at[h].hash !in index || (h in retained && retained[h] != at[h].hash)
              || index[at[h].hash].size > 536_870_912 || index[at[h].hash].offset + index[at[h].hash].size > |file|
  {
  }

  /** The lowest height without a valid header and proof, which would have to be given up. */
  method FirstGap(at: map<nat, Header>, index: map<Hash, ProofIndex>, file: seq<byte>, retained: map<nat, Hash>,
                  bootstrap: nat, candidate: nat)
    returns (gap: Option<nat>)
    ensures gap.None? <==> forall h :: bootstrap < h <= candidate ==> HeightValid(at, index, file, retained, h)
    ensures gap.Some? ==> bootstrap < gap.value <= candidate && !HeightValid(at, index, file, retained, gap.value)
    ensures gap.Some? ==> forall h :: bootstrap < h < gap.value ==> HeightValid(at, index, file, retained, h)
  {
    var h := bootstrap + 1;
    while h <= candidate
      invariant bootstrap < h
      invariant forall x :: bootstrap < x < h && x <= candidate ==> HeightValid(at, index, file, retained, x)
    {
      if !HeightValid(at, index, file, retained, h) {
        return Some(h);
      }
      h := h + 1;
    }
    return None;
  }

  /** Up to `n` no later record is the forward one of the same height. */
  predicate NoLaterForwardAt(records: seq<Retained>, i: nat, n: nat)
    requires i < n <= |records|
  {
    forall j :: i < j < n && records[j].forward ==> HeightOf(records[j].payload) != HeightOf(records[i].payload)
  }

  method RetainedHashes(records: seq<Retained>) returns (m: map<nat, Hash>)
    ensures forall h :: h in m ==>
              exists i :: 0 <= i < |records| && records[i].forward
                && HeightOf(records[i].payload) == h && HashOf(records[i].payload) == m[h]
    ensures forall i :: 0 <= i < |records| && records[i].forward && NoLaterForwardAt(records, i, |records|) ==>
              HeightOf(records[i].payload) in m && m[HeightOf(records[i].payload)] == HashOf(records[i].payload)
  {
    m := map[];
    for i := 0 to |records|
      invariant forall j :: 0 <= j < i && records[j].forward && NoLaterForwardAt(records, j, i) ==>
                  HeightOf(records[j].payload) in m && m[HeightOf(records[j].payload)] == HashOf(records[j].payload)
      invariant forall h :: h in m ==>
                  exists j :: 0 <= j < i && records[j].forward
                    && HeightOf(records[j].payload) == h && HashOf(records[j].payload) == m[h]
    {
      if records[i].forward {
        m := m[HeightOf(records[i].payload) := HashOf(records[i].payload)];
      }
    }
  }

  /** Takes rolled-back blocks out of the indexes, unless they have become active again. */
  method RemoveOrphans(headerAt: map<nat, Header>, heightOf: map<Hash, nat>, index: map<Hash, ProofIndex>,
                       records: seq<Retained>)
    returns (at: map<nat, Header>, of: map<Hash, nat>, ix: map<Hash, ProofIndex>)
    ensures forall k :: k in at <==> k in headerAt && !RemovedHeader(records, |records|, k, headerAt[k].hash)
    ensures forall k :: k in at ==> at[k] == headerAt[k]
    ensures forall g :: g in heightOf && !RemovedHash(records, |records|, g) ==> g in of && of[g] == heightOf[g]
    ensures forall g :: g in ix <==> g in index && !RemovedHash(records, |records|, g)
    ensures forall g :: g in ix ==> ix[g] == index[g]
    ensures forall g :: g in of ==>
              g in heightOf && of[g] == heightOf[g] && !Unindexed(records, |records|, headerAt, heightOf, g)
  {
    at, of, ix := headerAt, heightOf, index;
    for i := 0 to |records|
      invariant forall k :: k in at <==> k in headerAt && !RemovedHeader(records, i, k, headerAt[k].hash)
      invariant forall k :: k in at ==> at[k] == headerAt[k]
      invariant forall g :: g in heightOf && !RemovedHash(records, i, g) ==> g in of && of[g] == heightOf[g]
      invariant forall g :: g in ix <==> g in index && !RemovedHash(records, i, g)
      invariant forall g :: g in ix ==> ix[g] == index[g]
      invariant forall g :: g in of ==>
                  g in heightOf && of[g] == heightOf[g] && !Unindexed(records, i, headerAt, heightOf, g)
    {
      var p := records[i].payload;
      RemovedMore(records, i);
      if !records[i].forward && !Active(records, HashOf(p)) {
        at, of := RemoveHeader(at, of, HeightOf(p), HashOf(p));
        ix := ix - {HashOf(p)};
      }
    }
  }

  predicate Active(records: seq<Retained>, h: Hash) {
    exists i :: 0 <= i < |records| && records[i].forward && HashOf(records[i].payload) == h
  }

  predicate Removes(records: seq<Retained>, i: nat)
    requires i < |records|
  {
    !records[i].forward && !Active(records, HashOf(records[i].payload))
  }

  predicate RemovedHash(records: seq<Retained>, n: nat, h: Hash)
    requires n <= |records|
  {
    exists i :: 0 <= i < n && Removes(records, i) && HashOf(records[i].payload) == h
  }

  predicate RemovedHeader(records: seq<Retained>, n: nat, height: nat, h: Hash)
    requires n <= |records|
  {
    exists i :: 0 <= i < n && Removes(records, i) && HashOf(records[i].payload) == h
        && HeightOf(records[i].payload) == height
  }

  /** A removed block that its hash led to: the hash leads nowhere afterwards. */
  predicate Unindexed(records: seq<Retained>, n: nat, headerAt: map<nat, Header>, heightOf: map<Hash, nat>, h: Hash)
    requires n <= |records|
  {
    h in heightOf && heightOf[h] in headerAt && headerAt[heightOf[h]].hash == h
        && RemovedHeader(records, n, heightOf[h], h)
  }

  lemma {:induction false} RemovedMore(records: seq<Retained>, n: nat)
    requires n < |records|
    ensures forall h :: RemovedHash(records, n + 1, h) <==>
              RemovedHash(records, n, h) || (Removes(records, n) && HashOf(records[n].payload) == h)
    ensures forall k, h :: RemovedHeader(records, n + 1, k, h) <==>
              RemovedHeader(records, n, k, h)
                  || (Removes(records, n) && HashOf(records[n].payload) == h && HeightOf(records[n].payload) == k)
  {
    hide Removes;
    forall h
      ensures RemovedHash(records, n + 1, h) <==>
                RemovedHash(records, n, h) || (Removes(records, n) && HashOf(records[n].payload) == h)
    {
      if i :| 0 <= i < n + 1 && Removes(records, i) && HashOf(records[i].payload) == h {
        if i < n { assert RemovedHash(records, n, h); }
      }
    }
    forall k, h
      ensures RemovedHeader(records, n + 1, k, h) <==>
                RemovedHeader(records, n, k, h)
                    || (Removes(records, n) && HashOf(records[n].payload) == h && HeightOf(records[n].payload) == k)
    {
      if i :|
        0 <= i < n + 1 && Removes(records, i) && HashOf(records[i].payload) == h && HeightOf(records[i].payload) == k {
        if i < n { assert RemovedHeader(records, n, k, h); }
      }
    }
  }

  /** The tip the journal stands for: its latest forward record, or what its oldest record followed. */
  function JournalTip(records: seq<Retained>): Option<(nat, Hash)> {
    if records == [] then None
    else
      match LatestForward(records)
      case Some(i) => Some((HeightOf(records[i].payload), HashOf(records[i].payload)))
      case None =>
        var first := records[0].payload;
        Some((if HeightOf(first) == 0 then 0 else HeightOf(first) - 1, first.entry.previousBlockHash))
  }

  function LatestForward(records: seq<Retained>): (r: Option<nat>)
    ensures r.Some? ==> r.value < |records| && records[r.value].forward
  {
    if records == [] then None
    else if records[|records| - 1].forward then Some(|records| - 1)
    else LatestForward(records[..|records| - 1])
  }

  lemma {:induction false} LatestIsLast(records: seq<Retained>)
    ensures match LatestForward(records)
            case Some(i) => Forwards(records) != [] && Forwards(records)[|Forwards(records)| - 1] == records[i].payload
            case None => Forwards(records) == []
  {
    if records != [] && !records[|records| - 1].forward { LatestIsLast(records[..|records| - 1]); }
  }

  lemma {:induction false} TipIsChainTip(records: seq<Retained>, chain: seq<Payload>, base: nat, bootstrap: nat,
                                         genesis: Hash)
    requires ValidChain(chain, bootstrap) && JournalFits(records, chain, base, bootstrap, genesis) && records != []
    ensures JournalTip(records) == Some((bootstrap + |chain|, TipHash(chain, genesis)))
  {
    hide Forwards;
    LatestIsLast(records);
    match LatestForward(records)
    case Some(i) =>
      var n := |chain| - 1;
      assert chain[base..][n - base] == chain[n];
    case None =>
      assert base == |chain| && chain[..base] == chain;
  }

  /** After the repair no height is missing. */
  lemma {:induction false} NoGap(at: map<nat, Header>, of: map<Hash, nat>, index: map<Hash, ProofIndex>,
                                 file: seq<byte>, chain: seq<Payload>, bootstrap: nat,
              records: seq<Retained>, base: nat, genesis: Hash, retained: map<nat, Hash>, h: nat)
    requires ValidChain(chain, bootstrap) && JournalFits(records, chain, base, bootstrap, genesis)
    requires forall i :: 0 <= i < |chain| ==> HeaderOk(at, of, chain[i]) && ProofOk(index, file, chain[i])
    requires forall h :: h in retained ==>
               exists i :: 0 <= i < |records| && records[i].forward && HeightOf(records[i].payload) == h
                   && HashOf(records[i].payload) == retained[h]
    requires bootstrap < h <= bootstrap + |chain|
    ensures HeightValid(at, index, file, retained, h)
  {
    var k := h - bootstrap - 1;
    assert HeaderOk(at, of, chain[k]) && ProofOk(index, file, chain[k]);
    if h in retained {
      var i :| 0 <= i < |records| && records[i].forward && HeightOf(records[i].payload) == h
          && HashOf(records[i].payload) == retained[h];
      NextForward(records, chain, base, bootstrap, genesis, i);
      var n := base + |Forwards(records[..i])|;
      assert chain[n] == records[i].payload && HeightOf(chain[n]) == bootstrap + 1 + n;
    }
  }

  /** Removing orphans leaves the chain alone and nothing else. */
  lemma {:induction false} OnlyChainLeft(s: Stores, at: map<nat, Header>, of: map<Hash, nat>, index: map<Hash,
                                         ProofIndex>,
                      at': map<nat, Header>, of': map<Hash, nat>, index': map<Hash, ProofIndex>,
                      records: seq<Retained>, chain: seq<Payload>, base: nat, bootstrap: nat, genesis: Hash)
    requires Startable(s, records, chain, base, bootstrap, genesis)
    requires HeadersRepaired(at, of, s.headerAt, chain, |chain|, bootstrap)
    requires forall h :: h in index ==> h in s.index || InChain(chain, h)
    requires forall i :: 0 <= i < |chain| ==> HashOf(chain[i]) in index
    requires forall k :: k in at' <==> k in at && !RemovedHeader(records, |records|, k, at[k].hash)
    requires forall k :: k in at' ==> at'[k] == at[k]
    requires forall g :: g in of && !RemovedHash(records, |records|, g) ==> g in of' && of'[g] == of[g]
    requires forall g :: g in index' <==> g in index && !RemovedHash(records, |records|, g)
    ensures forall i :: 0 <= i < |chain| ==> HeaderOk(at', of', chain[i]) && HashOf(chain[i]) in index'
    ensures forall h :: h in at' ==> h <= bootstrap + |chain|
    ensures forall h :: h in index' ==> InChain(chain, h)
  {
    hide ProofOk, InOrder, Active, Forwards;
    forall i | 0 <= i < |chain|
      ensures HeaderOk(at', of', chain[i]) && HashOf(chain[i]) in index'
    {
      NeverRemoved(s, records, chain, base, bootstrap, genesis, i);
    }
    forall h | h in at'
      ensures h <= bootstrap + |chain|
    {
      if h > bootstrap + |chain| { OrphanRemoved(s, records, chain, base, bootstrap, genesis, h, at[h].hash); }
    }
    forall h | h in index'
      ensures InChain(chain, h)
    {
      if !InChain(chain, h) { HashRemoved(records, chain, base, bootstrap, genesis, h); }
    }
  }

  lemma {:induction false} ActiveInChain(records: seq<Retained>, chain: seq<Payload>, base: nat, bootstrap: nat,
                                         genesis: Hash, h: Hash)
    requires JournalFits(records, chain, base, bootstrap, genesis) && Active(records, h)
    ensures InChain(chain, h)
  {
    var i :| 0 <= i < |records| && records[i].forward && HashOf(records[i].payload) == h;
    NextForward(records, chain, base, bootstrap, genesis, i);
  }

  /** A block of the chain is never taken for an orphan: from the journal on, it is active. */
  lemma {:induction false} NeverRemoved(s: Stores, records: seq<Retained>, chain: seq<Payload>, base: nat,
                                        bootstrap: nat, genesis: Hash, k: nat)
    requires Startable(s, records, chain, base, bootstrap, genesis) && k < |chain|
    ensures !RemovedHash(records, |records|, HashOf(chain[k]))
    ensures forall h :: !RemovedHeader(records, |records|, h, HashOf(chain[k]))
  {
    if k >= base {
      ForwardIsActive(records, k - base);
      assert chain[base..][k - base] == chain[k];
    }
  }

  lemma {:induction false} ForwardIsActive(records: seq<Retained>, k: nat)
    requires k < |Forwards(records)|
    ensures Active(records, HashOf(Forwards(records)[k]))
  {
    var n := |records| - 1;
    if k < |Forwards(records[..n])| {
      ForwardIsActive(records[..n], k);
      var h := HashOf(Forwards(records)[k]);
      assert Forwards(records[..n])[k] == Forwards(records)[k];
      var i :| 0 <= i < n && records[..n][i].forward && HashOf(records[..n][i].payload) == h;
      assert records[i].forward && HashOf(records[i].payload) == h;
    } else {
      assert records[n].forward;
    }
  }

  lemma {:induction false} OrphanRemoved(s: Stores, records: seq<Retained>, chain: seq<Payload>, base: nat,
                                         bootstrap: nat, genesis: Hash, height: nat, h: Hash)
    requires Startable(s, records, chain, base, bootstrap, genesis)
    requires height in s.headerAt && s.headerAt[height].hash == h && height > bootstrap + |chain|
    ensures RemovedHeader(records, |records|, height, h)
  {
    assert Orphaned(records, height, h);
    var i :| 0 <= i < |records| && !records[i].forward && HeightOf(records[i].payload) == height
        && HashOf(records[i].payload) == h;
    if Active(records, h) {
      ActiveInChain(records, chain, base, bootstrap, genesis, h);
    }
    assert Removes(records, i);
  }

  lemma {:induction false} HashRemoved(records: seq<Retained>, chain: seq<Payload>, base: nat, bootstrap: nat,
                                       genesis: Hash, h: Hash)
    requires JournalFits(records, chain, base, bootstrap, genesis) && OrphanHash(records, h) && !InChain(chain, h)
    ensures RemovedHash(records, |records|, h)
  {
    var i :| 0 <= i < |records| && !records[i].forward && HashOf(records[i].payload) == h;
    if Active(records, h) { ActiveInChain(records, chain, base, bootstrap, genesis, h); }
    assert Removes(records, i);
  }

  // ----- What startup writes -----

  /** The repaired proof file and index entries, and header and proof index with them in place. */
  datatype Repairs = Repairs(file: seq<byte>, entries: seq<(Hash, ProofIndex)>, tail: bool, first: nat,
                             headerAt: map<nat, Header>, heightOf: map<Hash, nat>, index: map<Hash, ProofIndex>)

  ghost predicate IndexesWritten(index: map<Hash, ProofIndex>, entries: seq<(Hash, ProofIndex)>, index': map<Hash,
                                 ProofIndex>) {
    && (forall k :: 0 <= k < |entries| ==> entries[k].0 in index' && index'[entries[k].0] == entries[k].1)
    && forall h :: (forall k :: 0 <= k < |entries| ==> entries[k].0 != h) ==>
         (h in index' <==> h in index) && (h in index' ==> index'[h] == index[h])
  }

  /**
   Every record that was rolled back, and whose block is not active again, is out of the indexes;
   all else is as before.
   */
  ghost predicate OrphansRemoved(w: Repairs, r: Stores, records: seq<Retained>) {
    && (forall k :: k in r.headerAt <==> k in w.headerAt && !RemovedHeader(records, |records|, k, w.headerAt[k].hash))
    && (forall k :: k in r.headerAt ==> r.headerAt[k] == w.headerAt[k])
    && (forall g :: g in r.heightOf ==>
          g in w.heightOf && r.heightOf[g] == w.heightOf[g]
              && !Unindexed(records, |records|, w.headerAt, w.heightOf, g))
    && (forall g :: g in w.heightOf && !RemovedHash(records, |records|, g) ==>
           g in r.heightOf && r.heightOf[g] == w.heightOf[g])
    && (forall g :: g in r.index <==> g in w.index && !RemovedHash(records, |records|, g))
    && forall g :: g in r.index ==> r.index[g] == w.index[g]
  }

  /** From `s` startup has put everything back, removed the orphans, cut the file and committed the height. */
  ghost predicate Reconciled(s: Stores, r: Stores, w: Repairs, records: seq<Retained>, chain: seq<Payload>,
                             bootstrap: nat) {
    && ProofsRepaired(s, w.file, w.entries, w.tail, chain, w.first, |chain|)
    && HeadersRepaired(w.headerAt, w.heightOf, s.headerAt, chain, |chain|, bootstrap)
    && IndexesWritten(s.index, w.entries, w.index) && OrphansRemoved(w, r, records)
    && (chain != [] ==> HashOf(chain[|chain| - 1]) in r.index)
    && TipEnd(r.index, chain) <= |w.file| && r.file == w.file[..TipEnd(r.index, chain)]
    && r.height == bootstrap + |chain|
  }

  lemma {:induction false} RepairedReadable(s: Stores, w: Repairs, chain: seq<Payload>, bootstrap: nat)
    requires ProofsRepaired(s, w.file, w.entries, w.tail, chain, w.first, |chain|) && ValidChain(chain, bootstrap)
    requires IndexesWritten(s.index, w.entries, w.index)
    ensures forall i :: 0 <= i < |chain| ==> ProofOk(w.index, w.file, chain[i]) && HashOf(chain[i]) in w.index
    ensures InOrder(w.index, w.file, chain) <==> InOrder(s.index, s.file, chain[..w.first])
    ensures forall h :: h in w.index ==> h in s.index || InChain(chain, h)
  {
    hide ProofsRepaired, ValidChain, InOrder, ProofOk, InChain;
    ProofsSettled(s, w.file, w.entries, w.tail, chain, w.first, bootstrap, w.index);
    forall i | 0 <= i < |chain|
      ensures HashOf(chain[i]) in w.index
    {
      ProofIndexed(w.index, w.file, chain[i]);
    }
  }

  /** What startup leaves shows the chain exactly when the proofs in front of the first unreadable one lay in order. */
  lemma {:induction false} ReconciledSettles(s: Stores, r: Stores, w: Repairs, records: seq<Retained>,
                                             chain: seq<Payload>,
                                             base: nat, bootstrap: nat, genesis: Hash)
    requires Startable(s, records, chain, base, bootstrap, genesis) && base <= |chain|
    requires Reconciled(s, r, w, records, chain, bootstrap)
    ensures Settled(r, chain, bootstrap) <==> StartsInOrder(s, chain)
  {
    hide ProofsRepaired, HeadersRepaired, IndexesWritten, JournalFits, ValidChain, ProofOk, HeaderOk, InChain,
         InOrder, Orphaned, OrphanHash,
         RemovedHash, RemovedHeader, StartsInOrder;
    RepairedReadable(s, w, chain, bootstrap);
    OnlyChainLeft(s, w.headerAt, w.heightOf, w.index, r.headerAt, r.heightOf, r.index, records, chain, base,
        bootstrap, genesis);
    CutSettles(r, w, chain, bootstrap);
    FirstRepaired(s, w, chain);
    OrderDecides(s, chain, w.first);
  }

  lemma {:induction false} FirstRepaired(s: Stores, w: Repairs, chain: seq<Payload>)
    requires ProofsRepaired(s, w.file, w.entries, w.tail, chain, w.first, |chain|)
    ensures FirstUnreadable(s, chain, w.first)
  {
    hide ProofOk, GoodIndex;
  }

  /**
   With only the chain indexed and every proof readable, cutting after the tip's proof settles iff
   they lie in order.
   */
  lemma {:induction false} CutSettles(r: Stores, w: Repairs, chain: seq<Payload>, bootstrap: nat)
    requires ValidChain(chain, bootstrap)
    requires forall i :: 0 <= i < |chain| ==> HeaderOk(r.headerAt, r.heightOf, chain[i]) && HashOf(chain[i]) in r.index
    requires forall i :: 0 <= i < |chain| ==> ProofOk(w.index, w.file, chain[i])
    requires forall h :: h in r.index ==> h in w.index && r.index[h] == w.index[h]
    requires forall h :: h in r.headerAt ==> h <= bootstrap + |chain|
    requires forall h :: h in r.index ==> InChain(chain, h)
    requires TipEnd(r.index, chain) <= |w.file| && r.file == w.file[..TipEnd(r.index, chain)]
             && r.height == bootstrap + |chain|
    ensures Settled(r, chain, bootstrap) <==> InOrder(w.index, w.file, chain)
  {
    hide ValidChain, HeaderOk, InChain;
    forall i | 0 <= i < |chain|
      ensures HashOf(chain[i]) in r.index && HashOf(chain[i]) in w.index
              && r.index[HashOf(chain[i])] == w.index[HashOf(chain[i])]
      ensures InOrder(w.index, w.file, chain) ==> ProofOk(r.index, r.file, chain[i])
    {
      ProofIndexed(w.index, w.file, chain[i]);
      if InOrder(w.index, w.file, chain) {
        EndsBeforeTip(w.index, w.file, chain, i);
        GetTruncated(w.file, TipEnd(r.index, chain), w.index[HashOf(chain[i])]);
      }
    }
  }

  /**
   Startup: whatever an interruption left, headers, proof index, proof bytes and height end up
   showing exactly the chain of the journal, and no height has to be given up.
   */
  method Recover(s: Stores, records: seq<Retained>, proofs: ProofFile, bootstrap: nat, tipFromNode: Hash,
                 ghost chain: seq<Payload>, ghost base: nat, ghost genesis: Hash)
    returns (r: Stores, tip: Hash)
    requires Startable(s, records, chain, base, bootstrap, genesis)
    requires proofs.Valid() && proofs.bytes == s.file
    requires records == [] ==> tipFromNode == TipHash(chain, genesis)
    modifies proofs
    ensures proofs.Valid() && proofs.bytes == r.file && tip == TipHash(chain, genesis)
    ensures exists w :: Reconciled(s, r, w, records, chain, bootstrap)
    ensures Settled(r, chain, bootstrap) <==> StartsInOrder(s, chain)
    ensures Recoverable(s, records, chain, base, bootstrap, genesis) ==> Settled(r, chain, bootstrap)
  {
    hide Startable, Recoverable, ProofsRepaired, HeadersRepaired, IndexesWritten, OrphansRemoved, Reconciled,
         ValidChain, JournalFits, InOrder,
         ProofOk, HeaderOk, InChain, StartsInOrder, Settled, FirstUnreadable, HeightValid;
    StartableParts(s, records, chain, base, bootstrap, genesis);
    var at, of, index;
    ghost var w;
    at, of, index, w := RepairStores(s, records, proofs, chain, base, bootstrap, genesis);
    var height;
    height, tip := ExpectedTip(s, records, bootstrap, tipFromNode, chain, base, genesis);
    var gap := CheckHeights(at, of, index, proofs.bytes, records, bootstrap, height, chain, base, genesis);
    var at', of', index' := RemoveOrphansFrom(w, at, of, index, records, s, chain, base, bootstrap, genesis);
    r := CutAndCommit(Stores(at', of', index', proofs.bytes, s.height), w, proofs, bootstrap, height, tip, chain,
        genesis);
    FromRepairs(s, r, w, Stores(at', of', index', w.file, s.height), records, chain, bootstrap);
    ReconciledSettles(s, r, w, records, chain, base, bootstrap, genesis);
    if Recoverable(s, records, chain, base, bootstrap, genesis) {
      RecoverableInOrder(s, records, chain, base, bootstrap, genesis);
      PrefixInOrder(s, chain);
    }
  }

  /** Headers, proofs and proof index put back from the journal. */
  method RepairStores(s: Stores, records: seq<Retained>, proofs: ProofFile, ghost chain: seq<Payload>,
                      ghost base: nat, ghost bootstrap: nat, ghost genesis: Hash)
    returns (at: map<nat, Header>, of: map<Hash, nat>, index: map<Hash, ProofIndex>, ghost w: Repairs)
    requires Startable(s, records, chain, base, bootstrap, genesis) && ValidChain(chain, bootstrap)
    requires proofs.Valid() && proofs.bytes == s.file
    modifies proofs
    ensures proofs.Valid() && w.file == proofs.bytes && w.headerAt == at && w.heightOf == of && w.index == index
    ensures ProofsRepaired(s, w.file, w.entries, w.tail, chain, w.first, |chain|)
            && IndexesWritten(s.index, w.entries, w.index)
    ensures HeadersRepaired(at, of, s.headerAt, chain, |chain|, bootstrap)
    ensures forall i :: 0 <= i < |chain| ==>
              HeaderOk(at, of, chain[i]) && ProofOk(index, w.file, chain[i]) && HashOf(chain[i]) in index
    ensures forall h :: h in index ==> h in s.index || InChain(chain, h)
  {
    hide Startable, ProofsRepaired, HeadersRepaired, ValidChain, InOrder, ProofOk, HeaderOk, InChain, FirstUnreadable;
    var repaired;
    ghost var t;
    at, of, repaired, t := RepairRecords(s, records, proofs, chain, base, bootstrap, genesis);
    ghost var tail :| ProofsRepaired(s, proofs.bytes, repaired, tail, chain, t, |chain|);
    RepairedDistinct(s, proofs.bytes, repaired, tail, chain, t, bootstrap);
    index := WriteIndexes(s.index, repaired);
    w := Repairs(proofs.bytes, repaired, tail, t, at, of, index);
    RepairedReadable(s, w, chain, bootstrap);
    AllHeadersOk(at, of, s.headerAt, chain, bootstrap);
  }

  /** The height and tip the journal names, or those committed and asked of the node when it is empty. */
  method ExpectedTip(s: Stores, records: seq<Retained>, bootstrap: nat, tipFromNode: Hash, ghost chain: seq<Payload>,
                     ghost base: nat, ghost genesis: Hash)
    returns (height: nat, tip: Hash)
    requires Startable(s, records, chain, base, bootstrap, genesis)
    requires records == [] ==> tipFromNode == TipHash(chain, genesis)
    ensures height == bootstrap + |chain| && tip == TipHash(chain, genesis)
  {
    hide ValidChain, JournalFits, HeaderOk, ProofOk, InChain;
    match JournalTip(records) {
      case Some((h, last)) => height, tip := h, last;
      case None => height, tip := (if s.height > bootstrap then s.height else bootstrap), tipFromNode;
    }
    if records != [] { TipIsChainTip(records, chain, base, bootstrap, genesis); }
  }

  /** Every height up to the tip has a valid header and proof, so none is given up. */
  method CheckHeights(at: map<nat, Header>, ghost of: map<Hash, nat>, index: map<Hash, ProofIndex>, file: seq<byte>,
                      records: seq<Retained>,
                      bootstrap: nat, height: nat, ghost chain: seq<Payload>, ghost base: nat, ghost genesis: Hash)
    returns (gap: Option<nat>)
    requires ValidChain(chain, bootstrap) && JournalFits(records, chain, base, bootstrap, genesis)
             && height == bootstrap + |chain|
    requires forall i :: 0 <= i < |chain| ==> HeaderOk(at, of, chain[i]) && ProofOk(index, file, chain[i])
    ensures gap == None
  {
    hide ValidChain, JournalFits, HeaderOk, ProofOk, HeightValid;
    var retained := RetainedHashes(records);
    gap := FirstGap(at, index, file, retained, bootstrap, height);
    forall h | bootstrap < h <= height
      ensures HeightValid(at, index, file, retained, h)
    {
      NoGap(at, of, index, file, chain, bootstrap, records, base, genesis, retained, h);
    }
  }

  method RemoveOrphansFrom(ghost w: Repairs, at: map<nat, Header>, of: map<Hash, nat>, index: map<Hash, ProofIndex>,
                           records: seq<Retained>,
                           ghost s: Stores, ghost chain: seq<Payload>, ghost base: nat, ghost bootstrap: nat,
                               ghost genesis: Hash)
    returns (at': map<nat, Header>, of': map<Hash, nat>, index': map<Hash, ProofIndex>)
    requires w.headerAt == at && w.heightOf == of && w.index == index
    requires Startable(s, records, chain, base, bootstrap, genesis)
             && HeadersRepaired(at, of, s.headerAt, chain, |chain|, bootstrap)
    requires forall h :: h in index ==> h in s.index || InChain(chain, h)
    requires forall i :: 0 <= i < |chain| ==> HashOf(chain[i]) in index
    ensures OrphansRemoved(w, Stores(at', of', index', w.file, s.height), records)
    ensures forall i :: 0 <= i < |chain| ==> HashOf(chain[i]) in index'
    ensures forall h :: h in index' ==> h in index && index'[h] == index[h]
  {
    hide Startable, HeadersRepaired, InChain, RemovedHash, RemovedHeader, HeaderOk;
    at', of', index' := RemoveOrphans(at, of, index, records);
    OnlyChainLeft(s, at, of, index, at', of', index', records, chain, base, bootstrap, genesis);
  }

  lemma {:induction false} FromRepairs(s: Stores, r: Stores, w: Repairs, m: Stores, records: seq<Retained>,
                                       chain: seq<Payload>, bootstrap: nat)
    requires ProofsRepaired(s, w.file, w.entries, w.tail, chain, w.first, |chain|)
             && IndexesWritten(s.index, w.entries, w.index)
    requires HeadersRepaired(w.headerAt, w.heightOf, s.headerAt, chain, |chain|, bootstrap)
    requires OrphansRemoved(w, m, records) && m.file == w.file
             && (chain != [] ==> HashOf(chain[|chain| - 1]) in m.index)
    requires TipEnd(m.index, chain) <= |m.file|
             && r == m.(file := m.file[..TipEnd(m.index, chain)], height := bootstrap + |chain|)
    ensures Reconciled(s, r, w, records, chain, bootstrap)
  {
    hide ProofsRepaired, HeadersRepaired, IndexesWritten;
  }

  lemma {:induction false} RecoverableInOrder(s: Stores, records: seq<Retained>, chain: seq<Payload>, base: nat,
                                              bootstrap: nat, genesis: Hash)
    requires Recoverable(s, records, chain, base, bootstrap, genesis)
    ensures InOrder(s.index, s.file, chain)
  {
  }

  /** If all readable proofs lie in order, so do those in front of the first unreadable one. */
  lemma {:induction false} PrefixInOrder(s: Stores, chain: seq<Payload>)
    requires InOrder(s.index, s.file, chain)
    ensures StartsInOrder(s, chain)
  {
    hide ProofOk;
    forall t: nat | FirstUnreadable(s, chain, t)
      ensures InOrder(s.index, s.file, chain[..t])
    {
      OrderDecides(s, chain, t);
    }
  }

  /** There is one first unreadable proof; if all readable proofs are in order, so are those before it. */
  lemma {:induction false} OrderDecides(s: Stores, chain: seq<Payload>, t: nat)
    requires FirstUnreadable(s, chain, t)
    ensures StartsInOrder(s, chain) <==> InOrder(s.index, s.file, chain[..t])
    ensures InOrder(s.index, s.file, chain) ==> InOrder(s.index, s.file, chain[..t])
  {
    hide ProofOk;
    forall u: nat | FirstUnreadable(s, chain, u)
      ensures u == t
    {
    }
  }

  lemma {:induction false} AllHeadersOk(at: map<nat, Header>, of: map<Hash, nat>, was: map<nat, Header>,
                                        chain: seq<Payload>, bootstrap: nat)
    requires HeadersRepaired(at, of, was, chain, |chain|, bootstrap)
    ensures forall i :: 0 <= i < |chain| ==> HeaderOk(at, of, chain[i])
  {
  }

  /** Cuts the file after the tip's proof and commits the height. */
  method CutAndCommit(s: Stores, ghost w: Repairs, proofs: ProofFile, bootstrap: nat, height: nat, tip: Hash,
                      ghost chain: seq<Payload>, ghost genesis: Hash)
    returns (r: Stores)
    requires height == bootstrap + |chain| && tip == TipHash(chain, genesis)
    requires proofs.Valid() && proofs.bytes == s.file == w.file
    requires forall i :: 0 <= i < |chain| ==> HashOf(chain[i]) in s.index && ProofOk(w.index, w.file, chain[i])
    requires forall h :: h in s.index ==> h in w.index && s.index[h] == w.index[h]
    modifies proofs
    ensures proofs.Valid() && proofs.bytes == r.file
    ensures chain != [] ==> HashOf(chain[|chain| - 1]) in s.index
    ensures TipEnd(s.index, chain) <= |s.file| && r == s.(file := s.file[..TipEnd(s.index, chain)], height := height)
  {
    var last: Option<ProofIndex> := None;
    if height > bootstrap {
      ProofIndexed(w.index, w.file, chain[|chain| - 1]);
      last := Some(s.index[tip]);
    }
    var cut := proofs.TruncateAfter(last);
    r := s.(file := proofs.bytes, height := height);
  }

  /** In file order, no proof ends behind the tip's. */
  lemma {:induction false} EndsBeforeTip(index: map<Hash, ProofIndex>, file: seq<byte>, chain: seq<Payload>, i: nat)
    requires i < |chain| && InOrder(index, file, chain)
             && forall k :: 0 <= k < |chain| ==> ProofOk(index, file, chain[k])
    ensures HashOf(chain[i]) in index && HashOf(chain[|chain| - 1]) in index
    ensures index[HashOf(chain[i])].End() <= index[HashOf(chain[|chain| - 1])].End()
  {
    assert ProofOk(index, file, chain[i]) && ProofOk(index, file, chain[|chain| - 1]);
  }
}
