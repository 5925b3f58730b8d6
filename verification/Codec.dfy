/**
 The bytes of a journal entry: fixed-width little-endian integers, 32-byte hashes, three
 length-prefixed vectors and an optional trailing row byte. Encoding and decoding are inverse to
 each other on everything either of them accepts.
 */
module Codec {
  import opened Wrappers
  import opened Forest
  import opened Entry

  const FOREST_DELTA_SIZE: nat := 74
  const INDEX_DELTA_SIZE: nat := 44
  const MAX_ROW_BYTE: nat := 63

  // ----- Integers -----

  function Pow256(n: nat): (r: nat)
    ensures r > 0
  {
    if n == 0 then 1 else 256 * Pow256(n - 1)
  }

  function Little(v: nat, n: nat): (r: seq<byte>)
    ensures |r| == n
  {
    if n == 0 then [] else [(v % 256) as byte] + Little(v / 256, n - 1)
  }

  function FromLittle(s: seq<byte>): nat {
    if s == [] then 0 else s[0] as nat + 256 * FromLittle(s[1..])
  }

  lemma {:induction false} LittleReads(v: nat, n: nat)
    requires v < Pow256(n)
    ensures FromLittle(Little(v, n)) == v
  {
    if n > 0 {
      LittleReads(v / 256, n - 1);
      assert Little(v, n)[1..] == Little(v / 256, n - 1);
    }
  }

  lemma {:induction false} LittleWrites(s: seq<byte>)
    ensures FromLittle(s) < Pow256(|s|) && Little(FromLittle(s), |s|) == s
  {
    if s != [] {
      LittleWrites(s[1..]);
      assert FromLittle(s) % 256 == s[0] as nat && FromLittle(s) / 256 == FromLittle(s[1..]);
      assert s == [s[0]] + s[1..];
    }
  }

  // ----- Reading pieces off the front -----

  function TakeBytes(b: seq<byte>, n: nat): Option<(seq<byte>, seq<byte>)> {
    if |b| < n then None else Some((b[..n], b[n..]))
  }

  function TakeInt(b: seq<byte>, n: nat): Option<(nat, seq<byte>)> {
    var taken :- TakeBytes(b, n);
    Some((FromLittle(taken.0), taken.1))
  }

  function TakeHash(b: seq<byte>): Option<(Hash, seq<byte>)> {
    var taken :- TakeBytes(b, 32);
    Some((Hash(taken.0), taken.1))
  }

  function TakeState(b: seq<byte>): Option<(NodeState, seq<byte>)> {
    var flags :- TakeBytes(b, 1);
    if flags.0[0] >= 4 then None
    else
      var hash :- TakeHash(flags.1);
      Some((NodeState(flags.0[0] % 2 == 1, flags.0[0] / 2 == 1, hash.0), hash.1))
  }

  function TakeForestDelta(b: seq<byte>): Option<(ForestDelta, seq<byte>)> {
    var position :- TakeInt(b, 8);
    var before :- TakeState(position.1);
    var after :- TakeState(before.1);
    Some((ForestDelta(position.0, before.0, after.0), after.1))
  }

  function TakeIndexDelta(b: seq<byte>): Option<(IndexDelta, seq<byte>)> {
    var txid :- TakeHash(b);
    var vout :- TakeInt(txid.1, 4);
    var position :- TakeInt(vout.1, 8);
    Some((IndexDelta(OutPoint(txid.0, vout.0), position.0), position.1))
  }

  /** A length is believed only if that many elements could still follow. */
  function TakeLength(b: seq<byte>, size: nat): Option<(nat, seq<byte>)>
    requires size > 0
  {
    var length :- TakeInt(b, 4);
    if length.0 > |length.1| / size then None else Some(length)
  }

  function TakeForestDeltas(b: seq<byte>, n: nat): Option<(seq<ForestDelta>, seq<byte>)> {
    if n == 0 then Some(([], b))
    else
      var first :- TakeForestDelta(b);
      var rest :- TakeForestDeltas(first.1, n - 1);
      Some(([first.0] + rest.0, rest.1))
  }

  function TakeIndexDeltas(b: seq<byte>, n: nat): Option<(seq<IndexDelta>, seq<byte>)> {
    if n == 0 then Some(([], b))
    else
      var first :- TakeIndexDelta(b);
      var rest :- TakeIndexDeltas(first.1, n - 1);
      Some(([first.0] + rest.0, rest.1))
  }

  function TakeForest(b: seq<byte>): Option<(seq<ForestDelta>, seq<byte>)> {
    var length :- TakeLength(b, FOREST_DELTA_SIZE);
    TakeForestDeltas(length.1, length.0)
  }

  function TakeIndex(b: seq<byte>): Option<(seq<IndexDelta>, seq<byte>)> {
    var length :- TakeLength(b, INDEX_DELTA_SIZE);
    TakeIndexDeltas(length.1, length.0)
  }

  /** Nothing, or one byte that is a row count. */
  function TakeRows(b: seq<byte>): Option<Option<nat>> {
    if b == [] then Some(None)
    else if |b| == 1 && b[0] as nat <= MAX_ROW_BYTE then Some(Some(b[0] as nat))
    else None
  }

  function Decode(b: seq<byte>): Option<JournalEntry> {
    var blockHash :- TakeHash(b);
    var numLeaves :- TakeInt(blockHash.1, 8);
    var height :- TakeInt(numLeaves.1, 4);
    var previous :- TakeHash(height.1);
    var forest :- TakeForest(previous.1);
    var removed :- TakeIndex(forest.1);
    var added :- TakeIndex(removed.1);
    var rows :- TakeRows(added.1);
    Some(JournalEntry(height.0, blockHash.0, numLeaves.0, previous.0, forest.0, removed.0, added.0, rows))
  }

  // ----- Writing pieces -----

  function StateBytes(s: NodeState): seq<byte> {
    [(if s.ready then 1 else 0) + (if s.spent then 2 else 0)] + s.hash.bytes
  }

  function ForestDeltaBytes(d: ForestDelta): seq<byte> {
    Little(d.position, 8) + StateBytes(d.before) + StateBytes(d.after)
  }

  function IndexDeltaBytes(d: IndexDelta): seq<byte> {
    d.outpoint.txid.bytes + Little(d.outpoint.vout, 4) + Little(d.position, 8)
  }

  function ForestDeltasBytes(ds: seq<ForestDelta>): seq<byte> {
    if ds == [] then [] else ForestDeltaBytes(ds[0]) + ForestDeltasBytes(ds[1..])
  }

  function IndexDeltasBytes(ds: seq<IndexDelta>): seq<byte> {
    if ds == [] then [] else IndexDeltaBytes(ds[0]) + IndexDeltasBytes(ds[1..])
  }

  function RowsBytes(rows: Option<nat>): seq<byte>
    requires rows.Some? ==> rows.value <= MAX_ROW_BYTE
  {
    match rows case None => [] case Some(r) => [r as byte]
  }

  // ----- What fits the program's types -----

  predicate HashFits(h: Hash) { |h.bytes| == 32 }

  predicate ForestDeltaFits(d: ForestDelta) {
    d.position < Pow256(8) && HashFits(d.before.hash) && HashFits(d.after.hash)
  }

  predicate IndexDeltaFits(d: IndexDelta) {
    HashFits(d.outpoint.txid) && d.outpoint.vout < Pow256(4) && d.position < Pow256(8)
  }

  /** Widths that hold of every entry in memory. */
  predicate Typed(e: JournalEntry) {
    && HashFits(e.blockHash) && e.numLeaves < Pow256(8) && e.height < Pow256(4) && HashFits(e.previousBlockHash)
    && (forall i :: 0 <= i < |e.forest| ==> ForestDeltaFits(e.forest[i]))
    && (forall i :: 0 <= i < |e.removed| ==> IndexDeltaFits(e.removed[i]))
    && (forall i :: 0 <= i < |e.added| ==> IndexDeltaFits(e.added[i]))
  }

  /** What encoding accepts beyond that. */
  predicate Encodable(e: JournalEntry) {
    && |e.forest| < Pow256(4) && |e.removed| < Pow256(4) && |e.added| < Pow256(4)
    && (e.forestRows.Some? ==> e.forestRows.value <= MAX_ROW_BYTE)
  }

  function Encode(e: JournalEntry): seq<byte>
    requires Encodable(e)
  {
    e.blockHash.bytes + (Little(e.numLeaves, 8) + (Little(e.height, 4) + (e.previousBlockHash.bytes
      + (Little(|e.forest|, 4) + (ForestDeltasBytes(e.forest)
      + (Little(|e.removed|, 4) + (IndexDeltasBytes(e.removed)
      + (Little(|e.added|, 4) + (IndexDeltasBytes(e.added)
      + RowsBytes(e.forestRows))))))))))
  }

  // ----- Each piece reads back what was written, and rewrites what was read -----

  lemma {:induction false} TakeBytesInverse(b: seq<byte>, rest: seq<byte>, n: nat)
    ensures |b| == n ==> TakeBytes(b + rest, n) == Some((b, rest))
  {
    if |b| == n { assert (b + rest)[..n] == b && (b + rest)[n..] == rest; }
  }

  lemma {:induction false} TakenBytes(b: seq<byte>, n: nat)
    requires TakeBytes(b, n).Some?
    ensures b == TakeBytes(b, n).value.0 + TakeBytes(b, n).value.1 && |TakeBytes(b, n).value.0| == n
  {
  }

  lemma {:induction false} IntReads(v: nat, n: nat, rest: seq<byte>)
    requires v < Pow256(n)
    ensures TakeInt(Little(v, n) + rest, n) == Some((v, rest))
  {
    TakeBytesInverse(Little(v, n), rest, n);
    LittleReads(v, n);
  }

  lemma {:induction false} IntWrites(b: seq<byte>, n: nat)
    requires TakeInt(b, n).Some?
    ensures var t := TakeInt(b, n).value; t.0 < Pow256(n) && b == Little(t.0, n) + t.1
  {
    hide FromLittle, Little;
    TakenBytes(b, n);
    LittleWrites(TakeBytes(b, n).value.0);
  }

  lemma {:induction false} HashReads(h: Hash, rest: seq<byte>)
    requires HashFits(h)
    ensures TakeHash(h.bytes + rest) == Some((h, rest))
  {
    TakeBytesInverse(h.bytes, rest, 32);
  }

  lemma {:induction false} HashWrites(b: seq<byte>)
    requires TakeHash(b).Some?
    ensures var t := TakeHash(b).value; HashFits(t.0) && b == t.0.bytes + t.1
  {
    TakenBytes(b, 32);
  }

  lemma {:induction false} StateReads(s: NodeState, rest: seq<byte>)
    requires HashFits(s.hash)
    ensures TakeState(StateBytes(s) + rest) == Some((s, rest))
  {
    hide TakeHash;
    var flags := [(if s.ready then 1 else 0) + (if s.spent then 2 else 0) as byte];
    assert StateBytes(s) + rest == flags + (s.hash.bytes + rest);
    TakeBytesInverse(flags, s.hash.bytes + rest, 1);
    HashReads(s.hash, rest);
  }

  lemma {:induction false} StateWrites(b: seq<byte>)
    requires TakeState(b).Some?
    ensures var t := TakeState(b).value; HashFits(t.0.hash) && b == StateBytes(t.0) + t.1
  {
    hide TakeHash;
    TakenBytes(b, 1);
    var flags := TakeBytes(b, 1).value;
    HashWrites(flags.1);
    var t := TakeState(b).value;
    assert StateBytes(t.0) == flags.0 + t.0.hash.bytes;
    assert b == flags.0 + (t.0.hash.bytes + t.1);
  }

  lemma {:induction false} ForestDeltaReads(d: ForestDelta, rest: seq<byte>)
    requires ForestDeltaFits(d)
    ensures TakeForestDelta(ForestDeltaBytes(d) + rest) == Some((d, rest)) && |ForestDeltaBytes(d)| == FOREST_DELTA_SIZE
  {
    hide TakeInt, TakeState, Little, Pow256;
    var before, after := StateBytes(d.before), StateBytes(d.after);
    assert ForestDeltaBytes(d) + rest == Little(d.position, 8) + (before + (after + rest));
    IntReads(d.position, 8, before + (after + rest));
    StateReads(d.before, after + rest);
    StateReads(d.after, rest);
  }

  lemma {:induction false} ForestDeltaWrites(b: seq<byte>)
    requires TakeForestDelta(b).Some?
    ensures var t := TakeForestDelta(b).value; ForestDeltaFits(t.0) && b == ForestDeltaBytes(t.0) + t.1
  {
    hide TakeInt, TakeState, Little, Pow256, StateBytes;
    var position := TakeInt(b, 8).value;
    var before := TakeState(position.1).value;
    IntWrites(b, 8);
    StateWrites(position.1);
    StateWrites(before.1);
    var t := TakeForestDelta(b).value;
    assert b == Little(position.0, 8) + (StateBytes(t.0.before) + (StateBytes(t.0.after) + t.1));
  }

  lemma {:induction false} IndexDeltaReads(d: IndexDelta, rest: seq<byte>)
    requires IndexDeltaFits(d)
    ensures TakeIndexDelta(IndexDeltaBytes(d) + rest) == Some((d, rest)) && |IndexDeltaBytes(d)| == INDEX_DELTA_SIZE
  {
    hide TakeInt, TakeHash, Little, Pow256;
    var vout, position := Little(d.outpoint.vout, 4), Little(d.position, 8);
    assert IndexDeltaBytes(d) + rest == d.outpoint.txid.bytes + (vout + (position + rest));
    HashReads(d.outpoint.txid, vout + (position + rest));
    IntReads(d.outpoint.vout, 4, position + rest);
    IntReads(d.position, 8, rest);
  }

  lemma {:induction false} IndexDeltaWrites(b: seq<byte>)
    requires TakeIndexDelta(b).Some?
    ensures var t := TakeIndexDelta(b).value; IndexDeltaFits(t.0) && b == IndexDeltaBytes(t.0) + t.1
  {
    hide TakeInt, TakeHash, Little, Pow256;
    var txid := TakeHash(b).value;
    var vout := TakeInt(txid.1, 4).value;
    HashWrites(b);
    IntWrites(txid.1, 4);
    IntWrites(vout.1, 8);
    var t := TakeIndexDelta(b).value;
    assert b == txid.0.bytes + (Little(vout.0, 4) + (Little(t.0.position, 8) + t.1));
  }

  // ----- Vectors -----

  lemma {:induction false} ForestDeltasRead(ds: seq<ForestDelta>, rest: seq<byte>)
    requires forall i :: 0 <= i < |ds| ==> ForestDeltaFits(ds[i])
    ensures TakeForestDeltas(ForestDeltasBytes(ds) + rest, |ds|) == Some((ds, rest))
    ensures |ForestDeltasBytes(ds)| == FOREST_DELTA_SIZE * |ds|
    decreases |ds|
  {
    hide TakeForestDelta, ForestDeltaBytes, ForestDeltaFits;
    if ds == [] {
      assert ForestDeltasBytes(ds) + rest == rest;
    } else {
      var more := ForestDeltasBytes(ds[1..]);
      assert ForestDeltasBytes(ds) + rest == ForestDeltaBytes(ds[0]) + (more + rest);
      ForestDeltaReads(ds[0], more + rest);
      ForestDeltasRead(ds[1..], rest);
      assert ds == [ds[0]] + ds[1..];
    }
  }

  lemma {:induction false} ForestDeltasWrite(b: seq<byte>, n: nat)
    requires TakeForestDeltas(b, n).Some?
    ensures var t := TakeForestDeltas(b, n).value;
            |t.0| == n && (forall i :: 0 <= i < n ==> ForestDeltaFits(t.0[i])) && b == ForestDeltasBytes(t.0) + t.1
    decreases n
  {
    hide TakeForestDelta, ForestDeltaBytes, ForestDeltaFits;
    if n > 0 {
      var first := TakeForestDelta(b).value;
      ForestDeltaWrites(b);
      ForestDeltasWrite(first.1, n - 1);
      var rest := TakeForestDeltas(first.1, n - 1).value;
      var t := TakeForestDeltas(b, n).value;
      assert t.0[1..] == rest.0;
      assert b == ForestDeltaBytes(first.0) + (ForestDeltasBytes(rest.0) + rest.1);
    }
  }

  lemma {:induction false} IndexDeltasRead(ds: seq<IndexDelta>, rest: seq<byte>)
    requires forall i :: 0 <= i < |ds| ==> IndexDeltaFits(ds[i])
    ensures TakeIndexDeltas(IndexDeltasBytes(ds) + rest, |ds|) == Some((ds, rest))
    ensures |IndexDeltasBytes(ds)| == INDEX_DELTA_SIZE * |ds|
    decreases |ds|
  {
    hide TakeIndexDelta, IndexDeltaBytes, IndexDeltaFits;
    if ds == [] {
      assert IndexDeltasBytes(ds) + rest == rest;
    } else {
      var more := IndexDeltasBytes(ds[1..]);
      assert IndexDeltasBytes(ds) + rest == IndexDeltaBytes(ds[0]) + (more + rest);
      IndexDeltaReads(ds[0], more + rest);
      IndexDeltasRead(ds[1..], rest);
      assert ds == [ds[0]] + ds[1..];
    }
  }

  lemma {:induction false} IndexDeltasWrite(b: seq<byte>, n: nat)
    requires TakeIndexDeltas(b, n).Some?
    ensures var t := TakeIndexDeltas(b, n).value;
            |t.0| == n && (forall i :: 0 <= i < n ==> IndexDeltaFits(t.0[i])) && b == IndexDeltasBytes(t.0) + t.1
    decreases n
  {
    hide TakeIndexDelta, IndexDeltaBytes, IndexDeltaFits;
    if n > 0 {
      var first := TakeIndexDelta(b).value;
      IndexDeltaWrites(b);
      IndexDeltasWrite(first.1, n - 1);
      var rest := TakeIndexDeltas(first.1, n - 1).value;
      var t := TakeIndexDeltas(b, n).value;
      assert t.0[1..] == rest.0;
      assert b == IndexDeltaBytes(first.0) + (IndexDeltasBytes(rest.0) + rest.1);
    }
  }

  lemma {:induction false} ForestReads(ds: seq<ForestDelta>, rest: seq<byte>)
    requires |ds| < Pow256(4) && forall i :: 0 <= i < |ds| ==> ForestDeltaFits(ds[i])
    ensures TakeForest(Little(|ds|, 4) + (ForestDeltasBytes(ds) + rest)) == Some((ds, rest))
  {
    hide TakeInt, TakeForestDeltas, ForestDeltasBytes, Little, Pow256;
    IntReads(|ds|, 4, ForestDeltasBytes(ds) + rest);
    ForestDeltasRead(ds, rest);
  }

  lemma {:induction false} ForestWrites(b: seq<byte>)
    requires TakeForest(b).Some?
    ensures var t := TakeForest(b).value;
            && |t.0| < Pow256(4) && (forall i :: 0 <= i < |t.0| ==> ForestDeltaFits(t.0[i]))
            && b == Little(|t.0|, 4) + (ForestDeltasBytes(t.0) + t.1)
  {
    hide TakeInt, TakeForestDeltas, ForestDeltasBytes, Little, Pow256, ForestDeltaFits;
    IntWrites(b, 4);
    var length := TakeInt(b, 4).value;
    ForestDeltasWrite(length.1, length.0);
  }

  lemma {:induction false} IndexReads(ds: seq<IndexDelta>, rest: seq<byte>)
    requires |ds| < Pow256(4) && forall i :: 0 <= i < |ds| ==> IndexDeltaFits(ds[i])
    ensures TakeIndex(Little(|ds|, 4) + (IndexDeltasBytes(ds) + rest)) == Some((ds, rest))
  {
    hide TakeInt, TakeIndexDeltas, IndexDeltasBytes, Little, Pow256;
    IntReads(|ds|, 4, IndexDeltasBytes(ds) + rest);
    IndexDeltasRead(ds, rest);
  }

  lemma {:induction false} IndexWrites(b: seq<byte>)
    requires TakeIndex(b).Some?
    ensures var t := TakeIndex(b).value;
            && |t.0| < Pow256(4) && (forall i :: 0 <= i < |t.0| ==> IndexDeltaFits(t.0[i]))
            && b == Little(|t.0|, 4) + (IndexDeltasBytes(t.0) + t.1)
  {
    hide TakeInt, TakeIndexDeltas, IndexDeltasBytes, Little, Pow256, IndexDeltaFits;
    IntWrites(b, 4);
    var length := TakeInt(b, 4).value;
    IndexDeltasWrite(length.1, length.0);
  }

  // ----- Whole entries -----

  /** Every entry that can be encoded decodes to itself. */
  lemma {:induction false} DecodeOfEncode(e: JournalEntry)
    requires Typed(e) && Encodable(e)
    ensures Decode(Encode(e)) == Some(e)
  {
    hide TakeInt, TakeHash, TakeForest, TakeIndex, Little, Pow256, ForestDeltasBytes, IndexDeltasBytes;
    var rows := RowsBytes(e.forestRows);
    var added := Little(|e.added|, 4) + (IndexDeltasBytes(e.added) + rows);
    var removed := Little(|e.removed|, 4) + (IndexDeltasBytes(e.removed) + added);
    var forest := Little(|e.forest|, 4) + (ForestDeltasBytes(e.forest) + removed);
    var previous := e.previousBlockHash.bytes + forest;
    var height := Little(e.height, 4) + previous;
    var leaves := Little(e.numLeaves, 8) + height;
    HashReads(e.blockHash, leaves);
    IntReads(e.numLeaves, 8, height);
    IntReads(e.height, 4, previous);
    HashReads(e.previousBlockHash, forest);
    ForestReads(e.forest, removed);
    IndexReads(e.removed, added);
    IndexReads(e.added, rows);
    RowsRead(e.forestRows);
  }

  lemma {:induction false} RowsRead(rows: Option<nat>)
    requires rows.Some? ==> rows.value <= MAX_ROW_BYTE
    ensures TakeRows(RowsBytes(rows)) == Some(rows)
  {
  }

  lemma {:induction false} RowsWrite(b: seq<byte>)
    requires TakeRows(b).Some?
    ensures var rows := TakeRows(b).value; (rows.Some? ==> rows.value <= MAX_ROW_BYTE) && RowsBytes(rows) == b
  {
  }

  /** Every byte string that is accepted is the encoding of what it decodes to. */
  lemma {:induction false} EncodeOfDecode(b: seq<byte>)
    requires Decode(b).Some?
    ensures var e := Decode(b).value; Typed(e) && Encodable(e) && Encode(e) == b
  {
    hide TakeInt, TakeHash, TakeForest, TakeIndex, TakeRows, Little, Pow256, ForestDeltasBytes, IndexDeltasBytes,
         ForestDeltaFits, IndexDeltaFits, RowsBytes;
    var blockHash := TakeHash(b).value;
    var numLeaves := TakeInt(blockHash.1, 8).value;
    var height := TakeInt(numLeaves.1, 4).value;
    var previous := TakeHash(height.1).value;
    var forest := TakeForest(previous.1).value;
    var removed := TakeIndex(forest.1).value;
    var added := TakeIndex(removed.1).value;
    HashWrites(b);
    IntWrites(blockHash.1, 8);
    IntWrites(numLeaves.1, 4);
    HashWrites(height.1);
    ForestWrites(previous.1);
    IndexWrites(forest.1);
    IndexWrites(removed.1);
    RowsWrite(added.1);
  }

  // ----- Where each field lies -----

  /** The little-endian number in `n` bytes at a place. */
  function LeSum(b: seq<byte>, at: nat, n: nat): nat
    requires at + n <= |b|
    decreases n
  {
    if n == 0 then 0 else b[at] as nat + 256 * LeSum(b, at + 1, n - 1)
  }

  /** A flag byte, odd iff ready and at least 2 iff spent, and the hash. */
  predicate NodeAt(b: seq<byte>, at: nat, s: NodeState) {
    && at + 33 <= |b| && b[at] < 4
    && (s.ready <==> b[at] % 2 == 1) && (s.spent <==> b[at] >= 2) && b[at + 1..at + 33] == s.hash.bytes
  }

  predicate DeltaAt(b: seq<byte>, at: nat, d: ForestDelta) {
    at + 74 <= |b| && LeSum(b, at, 8) == d.position && NodeAt(b, at + 8, d.before) && NodeAt(b, at + 41, d.after)
  }

  predicate LocationAt(b: seq<byte>, at: nat, d: IndexDelta) {
    && at + 44 <= |b| && b[at..at + 32] == d.outpoint.txid.bytes
    && LeSum(b, at + 32, 4) == d.outpoint.vout && LeSum(b, at + 36, 8) == d.position
  }

  /** Four bytes of length, then the elements, 74 bytes each. */
  predicate ForestAt(b: seq<byte>, at: nat, ds: seq<ForestDelta>) {
    && at + 4 + 74 * |ds| <= |b| && LeSum(b, at, 4) == |ds|
    && forall i :: 0 <= i < |ds| ==> DeltaAt(b, at + 4 + 74 * i, ds[i])
  }

  /** Four bytes of length, then the elements, 44 bytes each. */
  predicate IndexAt(b: seq<byte>, at: nat, ds: seq<IndexDelta>) {
    && at + 4 + 44 * |ds| <= |b| && LeSum(b, at, 4) == |ds|
    && forall i :: 0 <= i < |ds| ==> LocationAt(b, at + 4 + 44 * i, ds[i])
  }

  /** Every byte of an entry has its place. */
  predicate LaidOut(b: seq<byte>, e: JournalEntry) {
    var f, r, a := 74 * |e.forest|, 44 * |e.removed|, 44 * |e.added|;
    && |b| == 88 + f + r + a + (if e.forestRows.Some? then 1 else 0)
    && b[0..32] == e.blockHash.bytes && LeSum(b, 32, 8) == e.numLeaves && LeSum(b, 40, 4) == e.height
    && b[44..76] == e.previousBlockHash.bytes
    && ForestAt(b, 76, e.forest) && IndexAt(b, 80 + f, e.removed) && IndexAt(b, 84 + f + r, e.added)
    && (e.forestRows.Some? ==> b[88 + f + r + a] as nat == e.forestRows.value)
  }

  lemma {:induction false} SumOfSlice(b: seq<byte>, at: nat, n: nat)
    requires at + n <= |b|
    ensures LeSum(b, at, n) == FromLittle(b[at..at + n])
    decreases n
  {
    if n > 0 {
      SumOfSlice(b, at + 1, n - 1);
      assert b[at..at + n][1..] == b[at + 1..at + n];
    }
  }

  lemma {:induction false} IntAt(b: seq<byte>, at: nat, v: nat, n: nat)
    requires at + n <= |b| && b[at..at + n] == Little(v, n) && v < Pow256(n)
    ensures LeSum(b, at, n) == v
  {
    SumOfSlice(b, at, n);
    LittleReads(v, n);
  }

  /** A part of a part. */
  lemma {:induction false} SliceOf(b: seq<byte>, at: nat, piece: seq<byte>, from: nat, to: nat)
    requires from <= to <= |piece| && at + |piece| <= |b| && b[at..at + |piece|] == piece
    ensures b[at + from..at + to] == piece[from..to]
  {
    forall k | 0 <= k < to - from
      ensures b[at + from..at + to][k] == piece[from..to][k]
    {
      assert b[at + from + k] == b[at..at + |piece|][from + k];
    }
  }

  lemma {:induction false} NodeLies(b: seq<byte>, at: nat, s: NodeState)
    requires HashFits(s.hash) && at + 33 <= |b| && b[at..at + 33] == StateBytes(s)
    ensures NodeAt(b, at, s)
  {
    assert b[at] == b[at..at + 33][0];
    assert StateBytes(s)[1..33] == s.hash.bytes;
    SliceOf(b, at, StateBytes(s), 1, 33);
  }

  lemma {:induction false} DeltaLies(b: seq<byte>, at: nat, d: ForestDelta)
    requires ForestDeltaFits(d) && at + 74 <= |b| && b[at..at + 74] == ForestDeltaBytes(d)
    ensures DeltaAt(b, at, d)
  {
    hide Little, Pow256, NodeAt, StateBytes;
    var position, before, after := Little(d.position, 8), StateBytes(d.before), StateBytes(d.after);
    assert |before| == 33 && |after| == 33 by { StateSize(d.before); StateSize(d.after); }
    var bytes := ForestDeltaBytes(d);
    assert bytes[0..8] == position && bytes[8..41] == before && bytes[41..74] == after;
    SliceOf(b, at, bytes, 0, 8);
    SliceOf(b, at, bytes, 8, 41);
    SliceOf(b, at, bytes, 41, 74);
    IntAt(b, at, d.position, 8);
    NodeLies(b, at + 8, d.before);
    NodeLies(b, at + 41, d.after);
  }

  lemma {:induction false} StateSize(s: NodeState)
    requires HashFits(s.hash)
    ensures |StateBytes(s)| == 33
  {
  }

  lemma {:induction false} LocationLies(b: seq<byte>, at: nat, d: IndexDelta)
    requires IndexDeltaFits(d) && at + 44 <= |b| && b[at..at + 44] == IndexDeltaBytes(d)
    ensures LocationAt(b, at, d)
  {
    hide Little, Pow256;
    var bytes := IndexDeltaBytes(d);
    assert bytes[0..32] == d.outpoint.txid.bytes;
    assert bytes[32..36] == Little(d.outpoint.vout, 4) && bytes[36..44] == Little(d.position, 8);
    SliceOf(b, at, bytes, 0, 32);
    SliceOf(b, at, bytes, 32, 36);
    SliceOf(b, at, bytes, 36, 44);
    IntAt(b, at + 32, d.outpoint.vout, 4);
    IntAt(b, at + 36, d.position, 8);
  }

  lemma {:induction false} DeltasLie(b: seq<byte>, at: nat, ds: seq<ForestDelta>)
    requires forall i :: 0 <= i < |ds| ==> ForestDeltaFits(ds[i])
    requires at + 74 * |ds| <= |b| && b[at..at + 74 * |ds|] == ForestDeltasBytes(ds)
    ensures forall i :: 0 <= i < |ds| ==> DeltaAt(b, at + 74 * i, ds[i])
    decreases |ds|
  {
    hide ForestDeltaBytes, ForestDeltaFits, DeltaAt;
    if ds != [] {
      var bytes, rest := ForestDeltasBytes(ds), ds[1..];
      ForestDeltaReads(ds[0], []);
      assert bytes[0..74] == ForestDeltaBytes(ds[0]) && bytes[74..] == ForestDeltasBytes(rest);
      SliceOf(b, at, bytes, 0, 74);
      SliceOf(b, at, bytes, 74, |bytes|);
      DeltaLies(b, at, ds[0]);
      DeltasLie(b, at + 74, rest);
      forall i | 0 <= i < |ds|
        ensures DeltaAt(b, at + 74 * i, ds[i])
      {
        if i > 0 { assert ds[i] == rest[i - 1] && at + 74 + 74 * (i - 1) == at + 74 * i; }
      }
    }
  }

  lemma {:induction false} LocationsLie(b: seq<byte>, at: nat, ds: seq<IndexDelta>)
    requires forall i :: 0 <= i < |ds| ==> IndexDeltaFits(ds[i])
    requires at + 44 * |ds| <= |b| && b[at..at + 44 * |ds|] == IndexDeltasBytes(ds)
    ensures forall i :: 0 <= i < |ds| ==> LocationAt(b, at + 44 * i, ds[i])
    decreases |ds|
  {
    hide IndexDeltaBytes, IndexDeltaFits, LocationAt;
    if ds != [] {
      var bytes, rest := IndexDeltasBytes(ds), ds[1..];
      IndexDeltaReads(ds[0], []);
      assert bytes[0..44] == IndexDeltaBytes(ds[0]) && bytes[44..] == IndexDeltasBytes(rest);
      SliceOf(b, at, bytes, 0, 44);
      SliceOf(b, at, bytes, 44, |bytes|);
      LocationLies(b, at, ds[0]);
      LocationsLie(b, at + 44, rest);
      forall i | 0 <= i < |ds|
        ensures LocationAt(b, at + 44 * i, ds[i])
      {
        if i > 0 { assert ds[i] == rest[i - 1] && at + 44 + 44 * (i - 1) == at + 44 * i; }
      }
    }
  }

  /** A piece of a concatenation lies behind the pieces in front of it. */
  lemma {:induction false} PieceAt(b: seq<byte>, front: seq<byte>, piece: seq<byte>, rest: seq<byte>)
    requires b == front + (piece + rest)
    ensures |front| + |piece| <= |b| && b[|front|..|front| + |piece|] == piece && b == front + piece + rest
  {
  }

  lemma {:induction false} ForestLies(b: seq<byte>, at: nat, ds: seq<ForestDelta>)
    requires forall i :: 0 <= i < |ds| ==> ForestDeltaFits(ds[i])
    requires |ds| < Pow256(4) && at + 4 + 74 * |ds| <= |b|
    requires b[at..at + 4] == Little(|ds|, 4) && b[at + 4..at + 4 + 74 * |ds|] == ForestDeltasBytes(ds)
    ensures ForestAt(b, at, ds)
  {
    hide Little, Pow256, ForestDeltasBytes, ForestDeltaFits, DeltaAt;
    IntAt(b, at, |ds|, 4);
    DeltasLie(b, at + 4, ds);
  }

  lemma {:induction false} IndexLies(b: seq<byte>, at: nat, ds: seq<IndexDelta>)
    requires forall i :: 0 <= i < |ds| ==> IndexDeltaFits(ds[i])
    requires |ds| < Pow256(4) && at + 4 + 44 * |ds| <= |b|
    requires b[at..at + 4] == Little(|ds|, 4) && b[at + 4..at + 4 + 44 * |ds|] == IndexDeltasBytes(ds)
    ensures IndexAt(b, at, ds)
  {
    hide Little, Pow256, IndexDeltasBytes, IndexDeltaFits, LocationAt;
    IntAt(b, at, |ds|, 4);
    LocationsLie(b, at + 4, ds);
  }

  /** The bytes written, cut where the format says. */
  ghost predicate CutAs(b: seq<byte>, e: JournalEntry) {
    var f, rm, ad := 74 * |e.forest|, 44 * |e.removed|, 44 * |e.added|;
    && |b| == 88 + f + rm + ad + (if e.forestRows.Some? then 1 else 0)
    && b[0..32] == e.blockHash.bytes && b[32..40] == Little(e.numLeaves, 8) && b[40..44] == Little(e.height, 4)
    && b[44..76] == e.previousBlockHash.bytes
    && b[76..80] == Little(|e.forest|, 4) && b[80..80 + f] == ForestDeltasBytes(e.forest)
    && b[80 + f..84 + f] == Little(|e.removed|, 4) && b[84 + f..84 + f + rm] == IndexDeltasBytes(e.removed)
    && b[84 + f + rm..88 + f + rm] == Little(|e.added|, 4)
         && b[88 + f + rm..88 + f + rm + ad] == IndexDeltasBytes(e.added)
    && (e.forestRows.Some? ==> b[88 + f + rm + ad] as nat == e.forestRows.value)
  }

  lemma {:induction false} VectorSizes(e: JournalEntry)
    requires Typed(e)
    ensures |ForestDeltasBytes(e.forest)| == 74 * |e.forest|
    ensures |IndexDeltasBytes(e.removed)| == 44 * |e.removed| && |IndexDeltasBytes(e.added)| == 44 * |e.added|
  {
    hide ForestDeltasBytes, IndexDeltasBytes, ForestDeltaFits, IndexDeltaFits, TakeForestDeltas, TakeIndexDeltas;
    ForestDeltasRead(e.forest, []);
    IndexDeltasRead(e.removed, []);
    IndexDeltasRead(e.added, []);
  }

  lemma {:induction false} EncodeCuts(e: JournalEntry)
    requires Typed(e) && Encodable(e)
    ensures CutAs(Encode(e), e)
  {
    hide Little, Pow256, ForestDeltasBytes, IndexDeltasBytes, ForestDeltaFits, IndexDeltaFits, RowsBytes;
    VectorSizes(e);
    var rows := RowsBytes(e.forestRows);
    var fs, rs, sa := ForestDeltasBytes(e.forest), IndexDeltasBytes(e.removed), IndexDeltasBytes(e.added);
    var leaves, height := Little(e.numLeaves, 8), Little(e.height, 4);
    var fn, rn, an := Little(|e.forest|, 4), Little(|e.removed|, 4), Little(|e.added|, 4);
    var b := Encode(e);
    RowsByte(e.forestRows);
    TenPieces(b, e.blockHash.bytes, leaves, height, e.previousBlockHash.bytes, fn, fs, rn, rs, an, sa, rows);
    assert b[88 + |fs| + |rs| + |sa|..] == rows;
    if e.forestRows.Some? { assert b[88 + |fs| + |rs| + |sa|] == rows[0]; }
  }

  lemma {:induction false} RowsByte(rows: Option<nat>)
    requires rows.Some? ==> rows.value <= MAX_ROW_BYTE
    ensures |RowsBytes(rows)| == (if rows.Some? then 1 else 0)
            && (rows.Some? ==> RowsBytes(rows)[0] as nat == rows.value)
  {
  }

  /** The bytes written lie where the format puts them. */
  lemma {:induction false} EncodeLiesOut(e: JournalEntry)
    requires Typed(e) && Encodable(e)
    ensures LaidOut(Encode(e), e)
  {
    hide Encode, Little, Pow256, ForestDeltasBytes, IndexDeltasBytes, ForestDeltaFits, IndexDeltaFits, ForestAt,
         IndexAt, LeSum;
    EncodeCuts(e);
    var b, f, rm := Encode(e), 74 * |e.forest|, 44 * |e.removed|;
    IntAt(b, 32, e.numLeaves, 8);
    IntAt(b, 40, e.height, 4);
    ForestLies(b, 76, e.forest);
    IndexLies(b, 80 + f, e.removed);
    IndexLies(b, 84 + f + rm, e.added);
  }

  lemma {:induction false} TenPieces(b: seq<byte>, hash: seq<byte>, leaves: seq<byte>, height: seq<byte>,
                                     previous: seq<byte>,
                                     fn: seq<byte>, fs: seq<byte>, rn: seq<byte>, rs: seq<byte>, an: seq<byte>,
                                     sa: seq<byte>,
                                     rows: seq<byte>)
    requires b == hash + (leaves + (height + (previous + (fn + (fs + (rn + (rs + (an + (sa + rows)))))))))
    requires |hash| == |previous| == 32 && |leaves| == 8 && |height| == |fn| == |rn| == |an| == 4
    ensures |b| == 88 + |fs| + |rs| + |sa| + |rows|
    ensures b[0..32] == hash && b[32..40] == leaves && b[40..44] == height && b[44..76] == previous
    ensures b[76..80] == fn && b[80..80 + |fs|] == fs
    ensures b[80 + |fs|..84 + |fs|] == rn && b[84 + |fs|..84 + |fs| + |rs|] == rs
    ensures b[84 + |fs| + |rs|..88 + |fs| + |rs|] == an && b[88 + |fs| + |rs|..88 + |fs| + |rs| + |sa|] == sa
    ensures b[88 + |fs| + |rs| + |sa|..] == rows
  {
    var front := hash + leaves + height + previous;
    var tail := fn + (fs + (rn + (rs + (an + (sa + rows)))));
    assert b == front + tail;
    FourPieces(front, tail, hash, leaves, height, previous, b);
    SixPieces(b, front, fn, fs, rn, rs, an, sa, rows);
  }

  lemma {:induction false} FourPieces(front: seq<byte>, tail: seq<byte>, hash: seq<byte>, leaves: seq<byte>,
                                      height: seq<byte>,
                                      previous: seq<byte>, b: seq<byte>)
    requires front == hash + leaves + height + previous && b == front + tail
    requires |hash| == |previous| == 32 && |leaves| == 8 && |height| == 4
    ensures b[0..32] == hash && b[32..40] == leaves && b[40..44] == height && b[44..76] == previous
  {
    assert front[0..32] == hash && front[32..40] == leaves && front[40..44] == height && front[44..76] == previous;
    assert b[0..76] == front;
  }

  lemma {:induction false} SixPieces(b: seq<byte>, front: seq<byte>, fn: seq<byte>, fs: seq<byte>, rn: seq<byte>,
                                     rs: seq<byte>,
                                     an: seq<byte>, sa: seq<byte>, rows: seq<byte>)
    requires b == front + (fn + (fs + (rn + (rs + (an + (sa + rows)))))) && |front| == 76 && |fn| == |rn| == |an| == 4
    ensures |b| == 88 + |fs| + |rs| + |sa| + |rows|
    ensures b[76..80] == fn && b[80..80 + |fs|] == fs
    ensures b[80 + |fs|..84 + |fs|] == rn && b[84 + |fs|..84 + |fs| + |rs|] == rs
    ensures b[84 + |fs| + |rs|..88 + |fs| + |rs|] == an && b[88 + |fs| + |rs|..88 + |fs| + |rs| + |sa|] == sa
    ensures b[88 + |fs| + |rs| + |sa|..] == rows
  {
    var p1 := front + fn;
    var p2 := p1 + fs;
    var p3 := p2 + rn;
    var p4 := p3 + rs;
    var p5 := p4 + an;
    PieceAt(b, front, fn, fs + (rn + (rs + (an + (sa + rows)))));
    assert b == p1 + (fs + (rn + (rs + (an + (sa + rows)))));
    PieceAt(b, p1, fs, rn + (rs + (an + (sa + rows))));
    assert b == p2 + (rn + (rs + (an + (sa + rows))));
    PieceAt(b, p2, rn, rs + (an + (sa + rows)));
    assert b == p3 + (rs + (an + (sa + rows)));
    PieceAt(b, p3, rs, an + (sa + rows));
    assert b == p4 + (an + (sa + rows));
    PieceAt(b, p4, an, sa + rows);
    assert b == p5 + (sa + rows);
    PieceAt(b, p5, sa, rows);
    assert b == p5 + sa + rows;
  }

  lemma {:induction false} EncodableMeans(e: JournalEntry)
    ensures Encodable(e) <==>
              && |e.forest| < 0x1_0000_0000 && |e.removed| < 0x1_0000_0000 && |e.added| < 0x1_0000_0000
              && (e.forestRows.Some? ==> e.forestRows.value <= 63)
  {
    assert Pow256(4) == 0x1_0000_0000 by { assert Pow256(1) == 256 && Pow256(2) == 65536; }
  }

  // ----- The program's loops -----

  datatype EncodeError = TooLong | BadRows

  /** Appends the bytes piece by piece; fails exactly on what cannot be encoded. */
  method EncodeEntry(e: JournalEntry) returns (r: Result<seq<byte>, EncodeError>)
    ensures r.Err? <==>
              || |e.forest| >= 0x1_0000_0000 || |e.removed| >= 0x1_0000_0000 || |e.added| >= 0x1_0000_0000
              || (e.forestRows.Some? && e.forestRows.value > 63)
    ensures r.Ok? ==> Encodable(e) && r.value == Encode(e)
    ensures r.Ok? && Typed(e) ==> LaidOut(r.value, e)
  {
    EncodableMeans(e);
    if Typed(e) && Encodable(e) { EncodeLiesOut(e); }
    hide LaidOut, Little, Pow256, ForestDeltaBytes, IndexDeltaBytes;
    var head := e.blockHash.bytes + Little(e.numLeaves, 8) + Little(e.height, 4) + e.previousBlockHash.bytes;
    if |e.forest| >= Pow256(4) {
      return Err(TooLong);
    }
    var forest := EncodeForestDeltas(e.forest);
    if |e.removed| >= Pow256(4) {
      return Err(TooLong);
    }
    var removed := EncodeIndexDeltas(e.removed);
    if |e.added| >= Pow256(4) {
      return Err(TooLong);
    }
    var added := EncodeIndexDeltas(e.added);
    if e.forestRows.Some? && e.forestRows.value > MAX_ROW_BYTE {
      return Err(BadRows);
    }
    var bytes := head + Little(|e.forest|, 4) + forest + Little(|e.removed|, 4) + removed + Little(|e.added|, 4)
        + added + RowsBytes(e.forestRows);
    Regroup(e, head, bytes);
    return Ok(bytes);
  }

  lemma {:induction false} Regroup(e: JournalEntry, head: seq<byte>, bytes: seq<byte>)
    requires Encodable(e)
             && head == e.blockHash.bytes + Little(e.numLeaves, 8) + Little(e.height, 4) + e.previousBlockHash.bytes
    requires bytes == head + Little(|e.forest|, 4) + ForestDeltasBytes(e.forest) + Little(|e.removed|, 4)
             + IndexDeltasBytes(e.removed)
                      + Little(|e.added|, 4) + IndexDeltasBytes(e.added) + RowsBytes(e.forestRows)
    ensures bytes == Encode(e)
  {
    hide Little, ForestDeltasBytes, IndexDeltasBytes, RowsBytes;
  }

  method EncodeForestDeltas(ds: seq<ForestDelta>) returns (bytes: seq<byte>)
    ensures bytes == ForestDeltasBytes(ds)
  {
    hide ForestDeltaBytes;
    bytes := [];
    var i := 0;
    assert ds[0..] == ds;
    while i < |ds|
      invariant 0 <= i <= |ds|
      invariant bytes + ForestDeltasBytes(ds[i..]) == ForestDeltasBytes(ds)
    {
      assert ds[i..][1..] == ds[i + 1..];
      bytes := bytes + ForestDeltaBytes(ds[i]);
      i := i + 1;
    }
    assert ds[i..] == [];
  }

  method EncodeIndexDeltas(ds: seq<IndexDelta>) returns (bytes: seq<byte>)
    ensures bytes == IndexDeltasBytes(ds)
  {
    hide IndexDeltaBytes;
    bytes := [];
    var i := 0;
    assert ds[0..] == ds;
    while i < |ds|
      invariant 0 <= i <= |ds|
      invariant bytes + IndexDeltasBytes(ds[i..]) == IndexDeltasBytes(ds)
    {
      assert ds[i..][1..] == ds[i + 1..];
      bytes := bytes + IndexDeltaBytes(ds[i]);
      i := i + 1;
    }
    assert ds[i..] == [];
  }

  function PutBefore<T>(front: seq<T>, rest: Option<(seq<T>, seq<byte>)>): Option<(seq<T>, seq<byte>)> {
    match rest case None => None case Some(t) => Some((front + t.0, t.1))
  }

  /** Reads the forest deltas one by one off the front of the reader. */
  method DecodeForestDeltas(b: seq<byte>, n: nat) returns (r: Option<(seq<ForestDelta>, seq<byte>)>)
    ensures r == TakeForestDeltas(b, n)
  {
    hide TakeForestDelta;
    var reader, forest, i := b, [], 0;
    PutNothing(TakeForestDeltas(b, n));
    while i < n
      invariant 0 <= i <= n
      invariant TakeForestDeltas(b, n) == PutBefore(forest, TakeForestDeltas(reader, n - i))
    {
      var first := TakeForestDelta(reader);
      if first == None {
        return None;
      }
      PutOne(forest, first.value.0, TakeForestDeltas(first.value.1, n - i - 1));
      forest := forest + [first.value.0];
      reader := first.value.1;
      i := i + 1;
    }
    assert forest + [] == forest;
    return Some((forest, reader));
  }

  lemma {:induction false} PutNothing<T>(rest: Option<(seq<T>, seq<byte>)>)
    ensures PutBefore([], rest) == rest
  {
    if rest.Some? { assert [] + rest.value.0 == rest.value.0; }
  }

  lemma {:induction false} PutOne<T>(front: seq<T>, one: T, rest: Option<(seq<T>, seq<byte>)>)
    ensures PutBefore(front, PutBefore([one], rest)) == PutBefore(front + [one], rest)
  {
    if rest.Some? { assert front + ([one] + rest.value.0) == (front + [one]) + rest.value.0; }
  }

  method DecodeIndexDeltas(b: seq<byte>, n: nat) returns (r: Option<(seq<IndexDelta>, seq<byte>)>)
    ensures r == TakeIndexDeltas(b, n)
  {
    hide TakeIndexDelta;
    var reader, deltas, i := b, [], 0;
    PutNothing(TakeIndexDeltas(b, n));
    while i < n
      invariant 0 <= i <= n
      invariant TakeIndexDeltas(b, n) == PutBefore(deltas, TakeIndexDeltas(reader, n - i))
    {
      var first := TakeIndexDelta(reader);
      if first == None {
        return None;
      }
      PutOne(deltas, first.value.0, TakeIndexDeltas(first.value.1, n - i - 1));
      deltas := deltas + [first.value.0];
      reader := first.value.1;
      i := i + 1;
    }
    assert deltas + [] == deltas;
    return Some((deltas, reader));
  }

  /** Accepts exactly the encodings: the result is the one entry whose bytes these are. */
  method DecodeEntry(b: seq<byte>) returns (r: Option<JournalEntry>)
    ensures r.Some? ==> Typed(r.value) && Encodable(r.value) && Encode(r.value) == b
    ensures r.Some? ==> LaidOut(b, r.value)
    ensures r.None? ==> forall e :: Typed(e) && Encodable(e) ==> Encode(e) != b
  {
    hide TakeInt, TakeHash, TakeForestDeltas, TakeIndexDeltas, TakeRows, Typed, Encodable, Encode, LaidOut;
    r := DecodeFields(b);
    if r.Some? {
      EncodeOfDecode(b);
      EncodeLiesOut(r.value);
    } else {
      forall e | Typed(e) && Encodable(e)
        ensures Encode(e) != b
      {
        DecodeOfEncode(e);
      }
    }
  }

  method DecodeFields(b: seq<byte>) returns (r: Option<JournalEntry>)
    ensures r == Decode(b)
  {
    hide TakeInt, TakeHash, TakeForestDeltas, TakeIndexDeltas, TakeRows;
    var blockHash :- TakeHash(b);
    var numLeaves :- TakeInt(blockHash.1, 8);
    var height :- TakeInt(numLeaves.1, 4);
    var previous :- TakeHash(height.1);
    var forestLength :- TakeLength(previous.1, FOREST_DELTA_SIZE);
    var forest :- DecodeForestDeltas(forestLength.1, forestLength.0);
    var removedLength :- TakeLength(forest.1, INDEX_DELTA_SIZE);
    var removed :- DecodeIndexDeltas(removedLength.1, removedLength.0);
    var addedLength :- TakeLength(removed.1, INDEX_DELTA_SIZE);
    var added :- DecodeIndexDeltas(addedLength.1, addedLength.0);
    var rows :- TakeRows(added.1);
    return Some(JournalEntry(height.0, blockHash.0, numLeaves.0, previous.0, forest.0, removed.0, added.0, rows));
  }
}
