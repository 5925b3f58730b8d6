/**
 The hint scanner on one block.

 It removes the outpoints that the block's inputs take from earlier blocks, then numbers and
 inserts the outputs that become leaves: those that may be spent some day and are not spent in
 the block itself. What it leaves, in which order it numbers, and exactly when it fails are said
 of the transactions alone.
 */
module Scanner {
  import opened Wrappers
  import opened Forest
  import opened Entry

  datatype TxOut = TxOut(script: seq<byte>, leafHash: Hash)

  datatype Tx = Tx(txid: Hash, coinbase: bool, inputs: seq<OutPoint>, outputs: seq<TxOut>)

  const NULL_OUTPOINT: OutPoint := OutPoint(ZERO_HASH, 0xffff_ffff)

  const MAX_SCRIPT: nat := 10_000

  predicate Unspendable(script: seq<byte>) {
    |script| > MAX_SCRIPT || (script != [] && script[0] == 0x6a)
  }

  /** Exactly the coinbase has the null input. */
  predicate ProperInputs(txs: seq<Tx>) {
    forall i :: 0 <= i < |txs| ==>
      if txs[i].coinbase then txs[i].inputs == [NULL_OUTPOINT] else NULL_OUTPOINT !in txs[i].inputs
  }

  // ----- Outputs spent in their own block -----

  predicate Creates(tx: Tx, o: OutPoint) {
    o.txid == tx.txid && o.vout < |tx.outputs|
  }

  /** A later transaction of the block spends an output of an earlier one. */
  predicate SpentInside(txs: seq<Tx>, o: OutPoint) {
    exists i, j :: 0 <= i < j < |txs| && Creates(txs[i], o) && o in txs[j].inputs
  }

  predicate CreatedIn(txs: seq<Tx>, o: OutPoint) {
    exists i :: 0 <= i < |txs| && Creates(txs[i], o)
  }

  method SameBlockSpends(txs: seq<Tx>) returns (spent: set<OutPoint>)
    ensures forall o :: o in spent <==> SpentInside(txs, o)
  {
    var created: set<OutPoint> := {};
    spent := {};
    for i := 0 to |txs|
      invariant forall o :: o in created <==> CreatedIn(txs[..i], o)
      invariant forall o :: o in spent <==> SpentInside(txs[..i], o)
    {
      ghost var before := spent;
      for k := 0 to |txs[i].inputs|
        invariant forall o :: o in spent <==> o in before || (o in txs[i].inputs[..k] && o in created)
      {
        if txs[i].inputs[k] in created {
          spent := spent + {txs[i].inputs[k]};
        }
      }
      assert txs[i].inputs[..|txs[i].inputs|] == txs[i].inputs;
      ghost var known := created;
      for vout := 0 to |txs[i].outputs|
        invariant forall o :: o in created <==> o in known || (o.txid == txs[i].txid && o.vout < vout)
      {
        created := created + {OutPoint(txs[i].txid, vout)};
      }
      SpentMore(txs, i);
    }
    assert txs[..|txs|] == txs;
  }

  lemma {:induction false} SpentMore(txs: seq<Tx>, i: nat)
    requires i < |txs|
    ensures forall o :: SpentInside(txs[..i + 1], o) <==>
              SpentInside(txs[..i], o) || (CreatedIn(txs[..i], o) && o in txs[i].inputs)
    ensures forall o :: CreatedIn(txs[..i + 1], o) <==> CreatedIn(txs[..i], o) || Creates(txs[i], o)
  {
    hide SpentInside, CreatedIn, Creates;
    var s, t := txs[..i], txs[..i + 1];
    forall o
      ensures SpentInside(t, o) <==> SpentInside(s, o) || (CreatedIn(s, o) && o in txs[i].inputs)
      ensures CreatedIn(t, o) <==> CreatedIn(s, o) || Creates(txs[i], o)
    {
      assert t == s + [txs[i]];
      SpentByLast(s, txs[i], o);
      CreatedByLast(s, txs[i], o);
    }
  }

  lemma {:induction false} SpentByLast(s: seq<Tx>, tx: Tx, o: OutPoint)
    ensures SpentInside(s + [tx], o) <==> SpentInside(s, o) || (CreatedIn(s, o) && o in tx.inputs)
  {
    hide Creates;
    var t := s + [tx];
    if a, b :| 0 <= a < b < |t| && Creates(t[a], o) && o in t[b].inputs {
      assert Creates(s[a], o);
      if b < |s| { assert o in s[b].inputs; }
    }
    if a, b :| 0 <= a < b < |s| && Creates(s[a], o) && o in s[b].inputs {
      assert Creates(t[a], o) && o in t[b].inputs;
    }
    if CreatedIn(s, o) && o in tx.inputs {
      var a :| 0 <= a < |s| && Creates(s[a], o);
      assert Creates(t[a], o) && o in t[|s|].inputs;
    }
  }

  lemma {:induction false} CreatedByLast(s: seq<Tx>, tx: Tx, o: OutPoint)
    ensures CreatedIn(s + [tx], o) <==> CreatedIn(s, o) || Creates(tx, o)
  {
    hide Creates;
    var t := s + [tx];
    if a :| 0 <= a < |t| && Creates(t[a], o) {
      if a < |s| { assert Creates(s[a], o); }
    }
    if a :| 0 <= a < |s| && Creates(s[a], o) { assert Creates(t[a], o); }
    if Creates(tx, o) { assert Creates(t[|s|], o); }
  }

  // ----- What a block spends and creates -----

  function Kept(inputs: seq<OutPoint>, inside: set<OutPoint>): seq<OutPoint> {
    if inputs == [] then []
    else
      var last := inputs[|inputs| - 1];
      Kept(inputs[..|inputs| - 1], inside) + (if last == NULL_OUTPOINT || last in inside then [] else [last])
  }

  /** The scanner skips null inputs one by one. */
  function Spends(txs: seq<Tx>, inside: set<OutPoint>): seq<OutPoint> {
    if txs == [] then [] else Spends(txs[..|txs| - 1], inside) + Kept(txs[|txs| - 1].inputs, inside)
  }

  function Outside(inputs: seq<OutPoint>, inside: set<OutPoint>): seq<OutPoint> {
    if inputs == [] then []
    else
      var last := inputs[|inputs| - 1];
      Outside(inputs[..|inputs| - 1], inside) + (if last in inside then [] else [last])
  }

  /** The prover skips coinbase transactions. */
  function ExternalOutpoints(txs: seq<Tx>, inside: set<OutPoint>): seq<OutPoint> {
    if txs == [] then []
    else
      var last := txs[|txs| - 1];
      ExternalOutpoints(txs[..|txs| - 1], inside) + (if last.coinbase then [] else Outside(last.inputs, inside))
  }

  lemma {:induction false} SameInputs(inputs: seq<OutPoint>, inside: set<OutPoint>)
    requires NULL_OUTPOINT !in inputs
    ensures Kept(inputs, inside) == Outside(inputs, inside)
  {
    if inputs != [] { SameInputs(inputs[..|inputs| - 1], inside); }
  }

  /** Scanner and prover agree on what a block spends. */
  lemma {:induction false} SameSpends(txs: seq<Tx>, inside: set<OutPoint>)
    requires ProperInputs(txs)
    ensures Spends(txs, inside) == ExternalOutpoints(txs, inside)
  {
    if txs != [] {
      var tx := txs[|txs| - 1];
      SameSpends(txs[..|txs| - 1], inside);
      if tx.coinbase {
        assert tx.inputs[..0] == [] && Kept([], inside) == [];
      } else {
        SameInputs(tx.inputs, inside);
      }
    }
  }

  function TxLeaves(tx: Tx, vout: nat, inside: set<OutPoint>): seq<(OutPoint, Hash)>
    requires vout <= |tx.outputs|
  {
    if vout == 0 then []
    else
      var o := OutPoint(tx.txid, vout - 1);
      TxLeaves(tx, vout - 1, inside)
        + (if Unspendable(tx.outputs[vout - 1].script) || o in inside then [] else [(o, tx.outputs[vout - 1].leafHash)])
  }

  /** The eligible outputs of a block, in order: its leaves. */
  function Eligible(txs: seq<Tx>, inside: set<OutPoint>): seq<(OutPoint, Hash)> {
    if txs == [] then []
        else Eligible(txs[..|txs| - 1], inside) + TxLeaves(txs[|txs| - 1], |txs[|txs| - 1].outputs|, inside)
  }

  // ----- The scanner -----

  datatype LeafPosition = LeafPosition(height: nat, index: nat)

  datatype ScanError = UnknownInput | DuplicateOutpoint

  function RemoveAll(m: map<OutPoint, LeafPosition>, spends: seq<OutPoint>): Option<map<OutPoint, LeafPosition>> {
    if spends == [] then Some(m)
    else
      var last := spends[|spends| - 1];
      match RemoveAll(m, spends[..|spends| - 1])
      case None => None
      case Some(r) => if last in r then Some(r - {last}) else None
  }

  function InsertAll(m: map<OutPoint, LeafPosition>, leaves: seq<(OutPoint, Hash)>, height: nat): Option<map<OutPoint,
                     LeafPosition>> {
    if leaves == [] then Some(m)
    else
      var index := |leaves| - 1;
      match InsertAll(m, leaves[..index], height)
      case None => None
      case Some(r) => if leaves[index].0 in r then None else Some(r[leaves[index].0 := LeafPosition(height, index)])
  }

  function ScanBlock(m: map<OutPoint, LeafPosition>, txs: seq<Tx>, inside: set<OutPoint>,
                     height: nat): Option<map<OutPoint, LeafPosition>> {
    match RemoveAll(m, Spends(txs, inside))
    case None => None
    case Some(r) => InsertAll(r, Eligible(txs, inside), height)
  }

  lemma {:induction false} RemoveFails(m: map<OutPoint, LeafPosition>, spends: seq<OutPoint>, more: seq<OutPoint>)
    requires RemoveAll(m, spends) == None
    ensures RemoveAll(m, spends + more) == None
    decreases |more|
  {
    if more == [] {
      assert spends + more == spends;
    } else {
      RemoveFails(m, spends, more[..|more| - 1]);
      assert (spends + more)[..|spends| + |more| - 1] == spends + more[..|more| - 1];
    }
  }

  lemma {:induction false} InsertFails(m: map<OutPoint, LeafPosition>, leaves: seq<(OutPoint, Hash)>,
                                       more: seq<(OutPoint, Hash)>, height: nat)
    requires InsertAll(m, leaves, height) == None
    ensures InsertAll(m, leaves + more, height) == None
    decreases |more|
  {
    if more == [] {
      assert leaves + more == leaves;
    } else {
      InsertFails(m, leaves, more[..|more| - 1], height);
      assert (leaves + more)[..|leaves| + |more| - 1] == leaves + more[..|more| - 1];
    }
  }

  method RemoveSpends(utxos: map<OutPoint, LeafPosition>, txs: seq<Tx>, inside: set<OutPoint>)
    returns (r: Result<map<OutPoint, LeafPosition>, ScanError>)
    ensures r == match RemoveAll(utxos, Spends(txs, inside)) case None => Err(UnknownInput) case Some(m) => Ok(m)
  {
    hide RemoveAll;
    var m := utxos;
    assert RemoveAll(utxos, []) == Some(utxos) by { RemoveNone(utxos); }
    for i := 0 to |txs|
      invariant RemoveAll(utxos, Spends(txs[..i], inside)) == Some(m)
    {
      ghost var before := Spends(txs[..i], inside);
      var inputs := txs[i].inputs;
      assert before + Kept(inputs[..0], inside) == before;
      for k := 0 to |inputs|
        invariant RemoveAll(utxos, before + Kept(inputs[..k], inside)) == Some(m)
      {
        assert inputs[..k + 1][..k] == inputs[..k];
        ghost var done := before + Kept(inputs[..k], inside);
        var o := inputs[k];
        if o == NULL_OUTPOINT || o in inside {
          assert Kept(inputs[..k + 1], inside) == Kept(inputs[..k], inside);
          continue;
        }
        assert before + Kept(inputs[..k + 1], inside) == done + [o];
        RemoveNext(utxos, done, m, o);
        if o !in m {
          SpendsExtend(txs, inside, i, k + 1);
          ghost var rest :| Spends(txs, inside) == done + [o] + rest;
          RemoveFails(utxos, done + [o], rest);
          return Err(UnknownInput);
        }
        m := m - {o};
      }
      assert inputs[..|inputs|] == inputs;
      assert txs[..i + 1][..i] == txs[..i];
    }
    assert txs[..|txs|] == txs;
    return Ok(m);
  }

  lemma {:induction false} RemoveNone(m: map<OutPoint, LeafPosition>)
    ensures RemoveAll(m, []) == Some(m)
  {
  }

  lemma {:induction false} RemoveNext(m: map<OutPoint, LeafPosition>, done: seq<OutPoint>, r: map<OutPoint,
                                      LeafPosition>, o: OutPoint)
    requires RemoveAll(m, done) == Some(r)
    ensures RemoveAll(m, done + [o]) == if o in r then Some(r - {o}) else None
  {
    assert (done + [o])[..|done|] == done;
  }

  /** The inputs seen so far are a prefix of all the block spends. */
  lemma {:induction false} SpendsExtend(txs: seq<Tx>, inside: set<OutPoint>, i: nat, k: nat)
    requires i < |txs| && k <= |txs[i].inputs|
    ensures exists rest :: Spends(txs, inside) == Spends(txs[..i], inside) + Kept(txs[i].inputs[..k], inside) + rest
    decreases |txs|
  {
    var n := |txs| - 1;
    if i < n {
      SpendsExtend(txs[..n], inside, i, k);
      assert txs[..n][..i] == txs[..i];
      var rest :| Spends(txs[..n], inside) == Spends(txs[..i], inside) + Kept(txs[i].inputs[..k], inside) + rest;
      assert Spends(txs, inside)
          == Spends(txs[..i], inside) + Kept(txs[i].inputs[..k], inside) + (rest + Kept(txs[n].inputs, inside));
    } else {
      KeptExtend(txs[n].inputs, inside, k);
      var rest :| Kept(txs[n].inputs, inside) == Kept(txs[n].inputs[..k], inside) + rest;
      assert Spends(txs, inside) == Spends(txs[..i], inside) + Kept(txs[i].inputs[..k], inside) + rest;
    }
  }

  lemma {:induction false} KeptExtend(inputs: seq<OutPoint>, inside: set<OutPoint>, k: nat)
    requires k <= |inputs|
    ensures exists rest :: Kept(inputs, inside) == Kept(inputs[..k], inside) + rest
    decreases |inputs|
  {
    if k == |inputs| {
      assert inputs[..k] == inputs;
      assert Kept(inputs, inside) == Kept(inputs[..k], inside) + [];
    } else {
      var n := |inputs| - 1;
      KeptExtend(inputs[..n], inside, k);
      assert inputs[..n][..k] == inputs[..k];
      var rest :| Kept(inputs[..n], inside) == Kept(inputs[..k], inside) + rest;
      var last := if inputs[n] == NULL_OUTPOINT || inputs[n] in inside then [] else [inputs[n]];
      assert Kept(inputs, inside) == Kept(inputs[..k], inside) + (rest + last);
    }
  }

  method InsertLeaves(utxos: map<OutPoint, LeafPosition>, txs: seq<Tx>, inside: set<OutPoint>, height: nat)
    returns (r: Result<(map<OutPoint, LeafPosition>, nat), ScanError>)
    ensures r == match InsertAll(utxos, Eligible(txs, inside), height)
                 case None => Err(DuplicateOutpoint)
                 case Some(m) => Ok((m, |Eligible(txs, inside)|))
  {
    hide InsertAll;
    var m, count := utxos, 0;
    assert InsertAll(utxos, [], height) == Some(utxos) by { InsertNone(utxos, height); }
    for i := 0 to |txs|
      invariant InsertAll(utxos, Eligible(txs[..i], inside), height) == Some(m) && count == |Eligible(txs[..i], inside)|
    {
      ghost var before := Eligible(txs[..i], inside);
      var tx := txs[i];
      assert before + TxLeaves(tx, 0, inside) == before;
      for vout := 0 to |tx.outputs|
        invariant InsertAll(utxos, before + TxLeaves(tx, vout, inside), height) == Some(m)
                  && count == |before + TxLeaves(tx, vout, inside)|
      {
        ghost var done := before + TxLeaves(tx, vout, inside);
        var o := OutPoint(tx.txid, vout);
        if Unspendable(tx.outputs[vout].script) || o in inside {
          assert TxLeaves(tx, vout + 1, inside) == TxLeaves(tx, vout, inside);
          continue;
        }
        ghost var leaf := (o, tx.outputs[vout].leafHash);
        assert before + TxLeaves(tx, vout + 1, inside) == done + [leaf];
        InsertNext(utxos, done, m, leaf, height);
        if o in m {
          EligibleExtend(txs, inside, i, vout + 1);
          ghost var rest :| Eligible(txs, inside) == done + [leaf] + rest;
          InsertFails(utxos, done + [leaf], rest, height);
          return Err(DuplicateOutpoint);
        }
        m := m[o := LeafPosition(height, count)];
        count := count + 1;
      }
      assert txs[..i + 1][..i] == txs[..i];
    }
    assert txs[..|txs|] == txs;
    return Ok((m, count));
  }

  lemma {:induction false} InsertNone(m: map<OutPoint, LeafPosition>, height: nat)
    ensures InsertAll(m, [], height) == Some(m)
  {
  }

  lemma {:induction false} InsertNext(m: map<OutPoint, LeafPosition>, done: seq<(OutPoint, Hash)>, r: map<OutPoint,
                                      LeafPosition>, leaf: (OutPoint, Hash), height: nat)
    requires InsertAll(m, done, height) == Some(r)
    ensures InsertAll(m, done + [leaf], height) == if leaf.0 in r then None
            else Some(r[leaf.0 := LeafPosition(height, |done|)])
  {
    assert (done + [leaf])[..|done|] == done;
  }

  lemma {:induction false} EligibleExtend(txs: seq<Tx>, inside: set<OutPoint>, i: nat, vout: nat)
    requires i < |txs| && vout <= |txs[i].outputs|
    ensures exists rest :: Eligible(txs, inside) == Eligible(txs[..i], inside) + TxLeaves(txs[i], vout, inside) + rest
    decreases |txs|
  {
    var n := |txs| - 1;
    if i < n {
      EligibleExtend(txs[..n], inside, i, vout);
      assert txs[..n][..i] == txs[..i];
      var rest :| Eligible(txs[..n], inside) == Eligible(txs[..i], inside) + TxLeaves(txs[i], vout, inside) + rest;
      assert Eligible(txs, inside)
          == Eligible(txs[..i], inside) + TxLeaves(txs[i], vout, inside)
          + (rest + TxLeaves(txs[n], |txs[n].outputs|, inside));
    } else {
      TxLeavesExtend(txs[n], vout, |txs[n].outputs|, inside);
      var rest :| TxLeaves(txs[n], |txs[n].outputs|, inside) == TxLeaves(txs[n], vout, inside) + rest;
      assert Eligible(txs, inside) == Eligible(txs[..i], inside) + TxLeaves(txs[i], vout, inside) + rest;
    }
  }

  lemma {:induction false} TxLeavesExtend(tx: Tx, a: nat, b: nat, inside: set<OutPoint>)
    requires a <= b <= |tx.outputs|
    ensures exists rest :: TxLeaves(tx, b, inside) == TxLeaves(tx, a, inside) + rest
    decreases b
  {
    if a == b {
      assert TxLeaves(tx, b, inside) == TxLeaves(tx, a, inside) + [];
    } else {
      TxLeavesExtend(tx, a, b - 1, inside);
      var rest :| TxLeaves(tx, b - 1, inside) == TxLeaves(tx, a, inside) + rest;
      var o := OutPoint(tx.txid, b - 1);
      var last := if Unspendable(tx.outputs[b - 1].script)
          || o in inside then [] else [(o, tx.outputs[b - 1].leafHash)];
      assert TxLeaves(tx, b, inside) == TxLeaves(tx, a, inside) + (rest + last);
    }
  }

  // ----- What a block of the scan does, said of its transactions -----

  /** An outpoint created by a transaction of the block and spent by a later one. */
  predicate PassesThrough(txs: seq<Tx>, o: OutPoint) {
    exists a, b :: 0 <= a < b < |txs| && txs[a].txid == o.txid && o.vout < |txs[a].outputs| && o in txs[b].inputs
  }

  /** Output `v` of transaction `i` becomes a leaf: it may be spent some day, and is not spent in this block. */
  predicate IsLeaf(txs: seq<Tx>, i: int, v: int) {
    && 0 <= i < |txs| && 0 <= v < |txs[i].outputs|
    && var script := txs[i].outputs[v].script;
    && |script| <= 10_000 && (|script| > 0 ==> script[0] != 0x6a) && !PassesThrough(txs, OutPoint(txs[i].txid, v))
  }

  /** Input `k` of transaction `j` takes an output of an earlier block. */
  predicate Takes(txs: seq<Tx>, j: int, k: int) {
    && 0 <= j < |txs| && 0 <= k < |txs[j].inputs|
    && txs[j].inputs[k] != OutPoint(ZERO_HASH, 0xffff_ffff) && !PassesThrough(txs, txs[j].inputs[k])
  }

  ghost predicate Taken(txs: seq<Tx>, o: OutPoint) {
    exists j, k :: Takes(txs, j, k) && txs[j].inputs[k] == o
  }

  ghost predicate MakesLeaf(txs: seq<Tx>, o: OutPoint) {
    exists i :: IsLeaf(txs, i, o.vout) && txs[i].txid == o.txid
  }

  predicate Sooner(p: (int, int), q: (int, int)) {
    p.0 < q.0 || (p.0 == q.0 && p.1 < q.1)
  }

  /** The leaves of the block in front of an output, in the order of transactions and outputs. */
  function LeavesBefore(txs: seq<Tx>, i: int, v: int): set<(int, int)> {
    set a, b | 0 <= a < |txs| && 0 <= b < |txs[a].outputs| && IsLeaf(txs, a, b) && Sooner((a, b), (i, v)) :: (a, b)
  }

  /** An input that is not known, or taken by another input too. */
  ghost predicate BadInput(txs: seq<Tx>, utxos: map<OutPoint, LeafPosition>) {
    exists j, k :: Takes(txs, j, k) && (txs[j].inputs[k] !in utxos || TakenElsewhere(txs, j, k))
  }

  ghost predicate TakenElsewhere(txs: seq<Tx>, j: int, k: int)
    requires Takes(txs, j, k)
  {
    exists a, b :: Takes(txs, a, b) && (a, b) != (j, k) && txs[a].inputs[b] == txs[j].inputs[k]
  }

  /** A leaf whose outpoint is still unspent, or made by another transaction of the block too. */
  ghost predicate BadLeaf(txs: seq<Tx>, utxos: map<OutPoint, LeafPosition>) {
    exists i, v :: IsLeaf(txs, i, v) && (StillThere(txs, utxos, OutPoint(txs[i].txid, v)) || MadeElsewhere(txs, i, v))
  }

  ghost predicate StillThere(txs: seq<Tx>, utxos: map<OutPoint, LeafPosition>, o: OutPoint) {
    o in utxos && !Taken(txs, o)
  }

  ghost predicate MadeElsewhere(txs: seq<Tx>, i: int, v: int)
    requires IsLeaf(txs, i, v)
  {
    exists a :: IsLeaf(txs, a, v) && a != i && txs[a].txid == txs[i].txid
  }

  // ----- The places of spends and leaves -----

  function KeptAt(inputs: seq<OutPoint>, inside: set<OutPoint>, j: nat): seq<(int, int)> {
    if inputs == [] then []
    else
      var last := |inputs| - 1;
      KeptAt(inputs[..last], inside, j)
          + (if inputs[last] == NULL_OUTPOINT || inputs[last] in inside then [] else [(j, last)])
  }

  function SpendPlaces(txs: seq<Tx>, inside: set<OutPoint>): seq<(int, int)> {
    if txs == [] then [] else SpendPlaces(txs[..|txs| - 1], inside) + KeptAt(txs[|txs| - 1].inputs, inside, |txs| - 1)
  }

  predicate InOrderOf(places: seq<(int, int)>) {
    forall a, b :: 0 <= a < b < |places| ==> Sooner(places[a], places[b])
  }

  lemma {:induction false} KeptPlaces(inputs: seq<OutPoint>, inside: set<OutPoint>, j: nat)
    ensures var places, kept := KeptAt(inputs, inside, j), Kept(inputs, inside);
            && |places| == |kept| && InOrderOf(places)
            && (forall i :: 0 <= i < |places| ==>
                   places[i].0 == j && 0 <= places[i].1 < |inputs| && inputs[places[i].1] == kept[i])
            && forall k :: (j, k) in places <==> 0 <= k < |inputs| && inputs[k] != NULL_OUTPOINT && inputs[k] !in inside
  {
    if inputs != [] { KeptPlaces(inputs[..|inputs| - 1], inside, j); }
  }

  /** Which inputs the scanner removes, in which order. */
  lemma {:induction false} SpendPlacesAre(txs: seq<Tx>, inside: set<OutPoint>)
    ensures var places, spends := SpendPlaces(txs, inside), Spends(txs, inside);
            && |places| == |spends| && InOrderOf(places)
            && (forall i :: 0 <= i < |places| ==>
                  0 <= places[i].0 < |txs| && 0 <= places[i].1 < |txs[places[i].0].inputs|
                      && txs[places[i].0].inputs[places[i].1] == spends[i])
            && forall j, k :: (j, k) in places <==>
                 0 <= j < |txs| && 0 <= k < |txs[j].inputs| && txs[j].inputs[k] != NULL_OUTPOINT
                     && txs[j].inputs[k] !in inside
  {
    hide Kept, KeptAt;
    if txs != [] {
      var n := |txs| - 1;
      SpendPlacesAre(txs[..n], inside);
      KeptPlaces(txs[n].inputs, inside, n);
      var front, last := SpendPlaces(txs[..n], inside), KeptAt(txs[n].inputs, inside, n);
      forall j, k
        ensures (j, k) in front + last <==>
                  0 <= j < |txs| && 0 <= k < |txs[j].inputs| && txs[j].inputs[k] != NULL_OUTPOINT
                      && txs[j].inputs[k] !in inside
      {
        if (j, k) in last {
          var i :| 0 <= i < |last| && last[i] == (j, k);
        }
      }
    }
  }

  function LeafPlacesOf(tx: Tx, vout: nat, inside: set<OutPoint>, i: nat): seq<(int, int)>
    requires vout <= |tx.outputs|
  {
    if vout == 0 then []
    else
      LeafPlacesOf(tx, vout - 1, inside, i)
      + (if Unspendable(tx.outputs[vout - 1].script)
          || OutPoint(tx.txid, vout - 1) in inside then [] else [(i, vout - 1)])
  }

  function LeafPlaces(txs: seq<Tx>, inside: set<OutPoint>): seq<(int, int)> {
    if txs == [] then []
    else
      var n := |txs| - 1;
      LeafPlaces(txs[..n], inside) + LeafPlacesOf(txs[n], |txs[n].outputs|, inside, n)
  }

  lemma {:induction false} TxLeafPlaces(tx: Tx, vout: nat, inside: set<OutPoint>, i: nat)
    requires vout <= |tx.outputs|
    ensures var places, leaves := LeafPlacesOf(tx, vout, inside, i), TxLeaves(tx, vout, inside);
            && |places| == |leaves| && InOrderOf(places)
            && (forall x :: 0 <= x < |places| ==>
                  && places[x].0 == i && 0 <= places[x].1 < vout
                  && leaves[x] == (OutPoint(tx.txid, places[x].1), tx.outputs[places[x].1].leafHash))
            && forall v :: (i, v) in places <==>
                 0 <= v < vout && !Unspendable(tx.outputs[v].script) && OutPoint(tx.txid, v) !in inside
  {
    if vout > 0 { TxLeafPlaces(tx, vout - 1, inside, i); }
  }

  /** Which outputs the scanner numbers, in which order. */
  lemma {:induction false} LeafPlacesAre(txs: seq<Tx>, inside: set<OutPoint>)
    ensures var places, leaves := LeafPlaces(txs, inside), Eligible(txs, inside);
            && |places| == |leaves| && InOrderOf(places)
            && (forall x :: 0 <= x < |places| ==>
                  && 0 <= places[x].0 < |txs| && 0 <= places[x].1 < |txs[places[x].0].outputs|
                  && leaves[x] == (OutPoint(txs[places[x].0].txid, places[x].1),
                       txs[places[x].0].outputs[places[x].1].leafHash))
            && forall i, v :: (i, v) in places <==>
                 && 0 <= i < |txs| && 0 <= v < |txs[i].outputs|
                 && !Unspendable(txs[i].outputs[v].script) && OutPoint(txs[i].txid, v) !in inside
  {
    hide TxLeaves, LeafPlacesOf, Unspendable;
    if txs != [] {
      var n := |txs| - 1;
      LeafPlacesAre(txs[..n], inside);
      TxLeafPlaces(txs[n], |txs[n].outputs|, inside, n);
      var front, last := LeafPlaces(txs[..n], inside), LeafPlacesOf(txs[n], |txs[n].outputs|, inside, n);
      forall i, v
        ensures (i, v) in front + last <==>
                  && 0 <= i < |txs| && 0 <= v < |txs[i].outputs|
                  && !Unspendable(txs[i].outputs[v].script) && OutPoint(txs[i].txid, v) !in inside
      {
        if (i, v) in last {
          var x :| 0 <= x < |last| && last[x] == (i, v);
        }
      }
    }
  }

  function Front(places: seq<(int, int)>, n: nat): set<(int, int)>
    requires n <= |places|
  {
    set x | x in places[..n]
  }

  lemma {:induction false} FrontSize(places: seq<(int, int)>, n: nat)
    requires n <= |places| && InOrderOf(places)
    ensures |Front(places, n)| == n
  {
    if n > 0 {
      FrontSize(places, n - 1);
      assert Front(places, n) == Front(places, n - 1) + {places[n - 1]};
      assert places[n - 1] !in Front(places, n - 1);
    } else {
      assert Front(places, 0) == {};
    }
  }

  /** A block's leaves are exactly these outputs, each numbered by those before it. */
  lemma {:induction false} LeavesNumbered(txs: seq<Tx>, inside: set<OutPoint>)
    requires forall o :: o in inside <==> PassesThrough(txs, o)
    ensures var leaves := Eligible(txs, inside);
            && |leaves| == |LeavesBefore(txs, |txs|, 0)|
            && (forall i, v :: IsLeaf(txs, i, v) ==>
                  var n := |LeavesBefore(txs, i, v)|;
                  && 0 <= i < |txs| && 0 <= v < |txs[i].outputs|
                  && n < |leaves| && leaves[n] == (OutPoint(txs[i].txid, v), txs[i].outputs[v].leafHash))
            && (forall n :: 0 <= n < |leaves| ==> MakesLeaf(txs, leaves[n].0))
            && (InsertDistinct(leaves) <==> forall i, v :: IsLeaf(txs, i, v) ==> !MadeElsewhere(txs, i, v))
  {
    hide PassesThrough, Eligible, LeafPlaces;
    LeafPlacesAre(txs, inside);
    var places, leaves := LeafPlaces(txs, inside), Eligible(txs, inside);
    assert forall i, v :: (i, v) in places <==> IsLeaf(txs, i, v);
    FrontSize(places, |places|);
    assert places[..|places|] == places;
    assert LeavesBefore(txs, |txs|, 0) == Front(places, |places|);
    forall i, v | IsLeaf(txs, i, v)
      ensures var n := |LeavesBefore(txs, i, v)|;
              n < |leaves| && places[n] == (i, v) && leaves[n] == (OutPoint(txs[i].txid, v), txs[i].outputs[v].leafHash)
    {
      assert (i, v) in places;
      var n :| 0 <= n < |places| && places[n] == (i, v);
      BeforeIsFront(txs, places, n);
      FrontSize(places, n);
    }
    forall n | 0 <= n < |leaves|
      ensures MakesLeaf(txs, leaves[n].0)
    {
      assert places[n] in places;
      assert IsLeaf(txs, places[n].0, leaves[n].0.vout);
    }
    DistinctLeaves(txs, places, leaves);
  }

  lemma {:induction false} BeforeIsFront(txs: seq<Tx>, places: seq<(int, int)>, n: nat)
    requires n < |places| && InOrderOf(places) && forall i, v :: (i, v) in places <==> IsLeaf(txs, i, v)
    ensures LeavesBefore(txs, places[n].0, places[n].1) == Front(places, n)
  {
    hide IsLeaf;
    forall i, v
      ensures (i, v) in LeavesBefore(txs, places[n].0, places[n].1) <==> (i, v) in Front(places, n)
    {
      if (i, v) in places {
        var x :| 0 <= x < |places| && places[x] == (i, v);
        LeafInBlock(txs, i, v);
        if x < n { assert places[..n][x] == (i, v); }
      }
      if (i, v) in Front(places, n) {
        var x :| 0 <= x < n && places[..n][x] == (i, v);
        assert places[x] == (i, v);
      }
    }
  }

  lemma {:induction false} LeafInBlock(txs: seq<Tx>, i: int, v: int)
    ensures IsLeaf(txs, i, v) ==> 0 <= i < |txs| && 0 <= v < |txs[i].outputs|
  {
  }

  predicate InsertDistinct(leaves: seq<(OutPoint, Hash)>) {
    forall a, b :: 0 <= a < b < |leaves| ==> leaves[a].0 != leaves[b].0
  }

  lemma {:induction false} DistinctLeaves(txs: seq<Tx>, places: seq<(int, int)>, leaves: seq<(OutPoint, Hash)>)
    requires |leaves| == |places| && InOrderOf(places) && forall i, v :: (i, v) in places <==> IsLeaf(txs, i, v)
    requires forall x :: 0 <= x < |places| ==>
               0 <= places[x].0 < |txs| && 0 <= places[x].1
               && leaves[x].0 == OutPoint(txs[places[x].0].txid, places[x].1)
    ensures InsertDistinct(leaves) <==> forall i, v :: IsLeaf(txs, i, v) ==> !MadeElsewhere(txs, i, v)
  {
    hide IsLeaf;
    if InsertDistinct(leaves) {
      forall i, v, a | IsLeaf(txs, i, v) && IsLeaf(txs, a, v) && a != i
        ensures 0 <= i < |txs| && 0 <= a < |txs| && txs[a].txid != txs[i].txid
      {
        LeafInBlock(txs, i, v);
        LeafInBlock(txs, a, v);
        assert (i, v) in places && (a, v) in places;
        var x :| 0 <= x < |places| && places[x] == (i, v);
        var y :| 0 <= y < |places| && places[y] == (a, v);
        assert leaves[x].0 != leaves[y].0;
      }
    } else {
      var a, b :| 0 <= a < b < |leaves| && leaves[a].0 == leaves[b].0;
      assert places[a] in places && places[b] in places && Sooner(places[a], places[b]);
      var i, v := places[a].0, places[a].1;
      assert IsLeaf(txs, i, v) && IsLeaf(txs, places[b].0, v);
      assert MadeElsewhere(txs, i, v);
    }
  }

  lemma {:induction false} RemoveSucceeds(m: map<OutPoint, LeafPosition>, spends: seq<OutPoint>)
    ensures RemoveAll(m, spends).Some? <==>
              && (forall i :: 0 <= i < |spends| ==> spends[i] in m)
              && forall a, b :: 0 <= a < b < |spends| ==> spends[a] != spends[b]
  {
    if spends != [] {
      var n := |spends| - 1;
      RemoveSucceeds(m, spends[..n]);
      if RemoveAll(m, spends[..n]).Some? { RemovedAll(m, spends[..n]); }
      assert forall i :: 0 <= i < n ==> spends[..n][i] == spends[i];
    }
  }

  lemma {:induction false} InsertSucceeds(m: map<OutPoint, LeafPosition>, leaves: seq<(OutPoint, Hash)>, height: nat)
    ensures InsertAll(m, leaves, height).Some? <==> InsertDistinct(leaves) && forall i :: 0 <= i < |leaves| ==>
              leaves[i].0 !in m
  {
    if leaves != [] {
      var n := |leaves| - 1;
      InsertSucceeds(m, leaves[..n], height);
      if InsertAll(m, leaves[..n], height).Some? {
        InsertedAll(m, leaves[..n], height);
        LastIsNew(leaves, n);
      }
      assert forall i :: 0 <= i < n ==> leaves[..n][i] == leaves[i];
    }
  }

  lemma {:induction false} LastIsNew(leaves: seq<(OutPoint, Hash)>, n: nat)
    requires |leaves| == n + 1
    ensures CreatesLeaf(leaves[..n], leaves[n].0) <==> exists a :: 0 <= a < n && leaves[a].0 == leaves[n].0
  {
    if a :| 0 <= a < n && leaves[a].0 == leaves[n].0 { assert leaves[..n][a].0 == leaves[n].0; }
  }

  /** The places of the spends are the inputs that take something. */
  ghost predicate TakesAt(txs: seq<Tx>, places: seq<(int, int)>, spends: seq<OutPoint>) {
    && |places| == |spends| && InOrderOf(places)
    && (forall j, k :: (j, k) in places <==> Takes(txs, j, k))
    && forall i :: 0 <= i < |places| ==>
           Takes(txs, places[i].0, places[i].1) && txs[places[i].0].inputs[places[i].1] == spends[i]
  }

  lemma {:induction false} SpendsAt(txs: seq<Tx>, inside: set<OutPoint>) returns (places: seq<(int, int)>)
    requires forall o :: o in inside <==> PassesThrough(txs, o)
    ensures TakesAt(txs, places, Spends(txs, inside))
  {
    hide PassesThrough, Spends, SpendPlaces;
    SpendPlacesAre(txs, inside);
    places := SpendPlaces(txs, inside);
    forall i | 0 <= i < |places|
      ensures Takes(txs, places[i].0, places[i].1)
    {
      assert places[i] in places;
    }
  }

  lemma {:induction false} PlaceOf(txs: seq<Tx>, places: seq<(int, int)>, spends: seq<OutPoint>, j: int, k: int)
    returns (i: nat)
    requires TakesAt(txs, places, spends) && Takes(txs, j, k)
    ensures i < |spends| && places[i] == (j, k) && spends[i] == txs[j].inputs[k]
  {
    hide Takes, InOrderOf;
    assert (j, k) in places;
    i :| 0 <= i < |places| && places[i] == (j, k);
  }

  lemma {:induction false} SpendsTaken(txs: seq<Tx>, places: seq<(int, int)>, spends: seq<OutPoint>, o: OutPoint)
    requires TakesAt(txs, places, spends)
    ensures o in spends <==> Taken(txs, o)
  {
    hide InOrderOf, PassesThrough;
    if o in spends {
      var i :| 0 <= i < |spends| && spends[i] == o;
      assert Takes(txs, places[i].0, places[i].1);
    }
    if j, k :| Takes(txs, j, k) && txs[j].inputs[k] == o {
      var i := PlaceOf(txs, places, spends, j, k);
    }
  }

  lemma {:induction false} SpendsBad(txs: seq<Tx>, places: seq<(int, int)>, spends: seq<OutPoint>,
                                     utxos: map<OutPoint, LeafPosition>)
    requires TakesAt(txs, places, spends)
    ensures BadInput(txs, utxos) <==>
              (exists i :: 0 <= i < |spends| && spends[i] !in utxos)
              || exists a, b :: 0 <= a < b < |spends| && spends[a] == spends[b]
  {
    hide PassesThrough;
    if BadInput(txs, utxos) {
      var j, k :| Takes(txs, j, k) && (txs[j].inputs[k] !in utxos || TakenElsewhere(txs, j, k));
      var i := PlaceOf(txs, places, spends, j, k);
      if TakenElsewhere(txs, j, k) {
        var a, b :| Takes(txs, a, b) && (a, b) != (j, k) && txs[a].inputs[b] == txs[j].inputs[k];
        var x := PlaceOf(txs, places, spends, a, b);
        if x < i { assert spends[x] == spends[i]; } else { assert i < x && spends[i] == spends[x]; }
      }
    }
    if i :| 0 <= i < |spends| && spends[i] !in utxos {
      assert Takes(txs, places[i].0, places[i].1);
    }
    if a, b :| 0 <= a < b < |spends| && spends[a] == spends[b] {
      assert Takes(txs, places[a].0, places[a].1) && Takes(txs, places[b].0, places[b].1)
          && Sooner(places[a], places[b]);
      assert TakenElsewhere(txs, places[a].0, places[a].1);
    }
  }

  /** What is removed are the outpoints taken; it fails iff some input is bad. */
  lemma {:induction false} SpendsTake(txs: seq<Tx>, inside: set<OutPoint>, utxos: map<OutPoint, LeafPosition>)
    requires forall o :: o in inside <==> PassesThrough(txs, o)
    ensures forall o :: o in Spends(txs, inside) <==> Taken(txs, o)
    ensures RemoveAll(utxos, Spends(txs, inside)).None? <==> BadInput(txs, utxos)
  {
    hide PassesThrough, Spends, RemoveAll, TakesAt, Taken, BadInput;
    var places := SpendsAt(txs, inside);
    var spends := Spends(txs, inside);
    RemoveSucceeds(utxos, spends);
    SpendsBad(txs, places, spends, utxos);
    forall o
      ensures o in spends <==> Taken(txs, o)
    {
      SpendsTaken(txs, places, spends, o);
    }
  }

  lemma {:induction false} PassesIsInside(txs: seq<Tx>, o: OutPoint)
    ensures SpentInside(txs, o) <==> PassesThrough(txs, o)
  {
    if i, j :| 0 <= i < j < |txs| && Creates(txs[i], o) && o in txs[j].inputs {
      assert txs[i].txid == o.txid;
    }
    if a, b :| 0 <= a < b < |txs| && txs[a].txid == o.txid && o.vout < |txs[a].outputs| && o in txs[b].inputs {
      assert Creates(txs[a], o);
    }
  }

  /** What the unspent outputs are after the block. */
  ghost predicate ScannedTo(txs: seq<Tx>, height: nat, utxos: map<OutPoint, LeafPosition>, after: map<OutPoint,
                            LeafPosition>) {
    && (forall o :: o in after <==> StillThere(txs, utxos, o) || MakesLeaf(txs, o))
    && (forall o :: StillThere(txs, utxos, o) ==> after[o] == utxos[o])
    && forall i, v :: IsLeaf(txs, i, v) ==>
         OutPoint(txs[i].txid, v) in after
             && after[OutPoint(txs[i].txid, v)] == LeafPosition(height, |LeavesBefore(txs, i, v)|)
  }

  lemma {:induction false} ScanMeans(txs: seq<Tx>, inside: set<OutPoint>, height: nat, utxos: map<OutPoint,
                                     LeafPosition>)
    requires forall o :: o in inside <==> PassesThrough(txs, o)
    ensures ScanBlock(utxos, txs, inside, height).Some? <==> !BadInput(txs, utxos) && !BadLeaf(txs, utxos)
    ensures ScanBlock(utxos, txs, inside, height).Some? ==>
              ScannedTo(txs, height, utxos, ScanBlock(utxos, txs, inside, height).value)
  {
    hide PassesThrough, Spends, Eligible, RemoveAll, InsertAll, BadInput, Taken, IsLeaf, LeavesBefore;
    SpendsTake(txs, inside, utxos);
    if RemoveAll(utxos, Spends(txs, inside)).Some? {
      var kept, leaves := RemoveAll(utxos, Spends(txs, inside)).value, Eligible(txs, inside);
      RemovedAll(utxos, Spends(txs, inside));
      LeavesNumbered(txs, inside);
      InsertSucceeds(kept, leaves, height);
      assert forall o :: o in kept <==> StillThere(txs, utxos, o);
      LeafClash(txs, utxos, kept, leaves);
      if InsertAll(kept, leaves, height).Some? {
        InsertedAll(kept, leaves, height);
        forall o
          ensures CreatesLeaf(leaves, o) <==> MakesLeaf(txs, o)
        {
          MadeIsCreated(txs, leaves, o);
        }
      }
    }
  }

  lemma {:induction false} MadeIsCreated(txs: seq<Tx>, leaves: seq<(OutPoint, Hash)>, o: OutPoint)
    requires forall i, v :: IsLeaf(txs, i, v) ==>
               0 <= i < |txs| && 0 <= v && |LeavesBefore(txs, i, v)| < |leaves|
               && leaves[|LeavesBefore(txs, i, v)|].0 == OutPoint(txs[i].txid, v)
    requires forall n :: 0 <= n < |leaves| ==> MakesLeaf(txs, leaves[n].0)
    ensures CreatesLeaf(leaves, o) <==> MakesLeaf(txs, o)
  {
    hide IsLeaf, LeavesBefore;
    if i :| IsLeaf(txs, i, o.vout) && txs[i].txid == o.txid {
      assert leaves[|LeavesBefore(txs, i, o.vout)|].0 == o;
    }
  }

  lemma {:induction false} LeafClash(txs: seq<Tx>, utxos: map<OutPoint, LeafPosition>, kept: map<OutPoint,
                                     LeafPosition>, leaves: seq<(OutPoint, Hash)>)
    requires forall o :: o in kept <==> StillThere(txs, utxos, o)
    requires forall i, v :: IsLeaf(txs, i, v) ==>
               0 <= i < |txs| && 0 <= v && |LeavesBefore(txs, i, v)| < |leaves|
               && leaves[|LeavesBefore(txs, i, v)|].0 == OutPoint(txs[i].txid, v)
    requires forall n :: 0 <= n < |leaves| ==> MakesLeaf(txs, leaves[n].0)
    requires InsertDistinct(leaves) <==> forall i, v :: IsLeaf(txs, i, v) ==> !MadeElsewhere(txs, i, v)
    ensures InsertDistinct(leaves) && (forall n :: 0 <= n < |leaves| ==> leaves[n].0 !in kept) <==> !BadLeaf(txs, utxos)
  {
    hide IsLeaf, LeavesBefore, StillThere, InsertDistinct, MadeElsewhere;
    if !BadLeaf(txs, utxos) {
      forall n | 0 <= n < |leaves|
        ensures leaves[n].0 !in kept
      {
        var i :| IsLeaf(txs, i, leaves[n].0.vout) && txs[i].txid == leaves[n].0.txid;
        assert OutPoint(txs[i].txid, leaves[n].0.vout) == leaves[n].0;
      }
    } else {
      var i, v :| IsLeaf(txs, i, v) && (StillThere(txs, utxos, OutPoint(txs[i].txid, v)) || MadeElsewhere(txs, i, v));
      var n := |LeavesBefore(txs, i, v)|;
      assert leaves[n].0 == OutPoint(txs[i].txid, v);
    }
  }

  lemma {:induction false} ScanSteps(m: map<OutPoint, LeafPosition>, txs: seq<Tx>, inside: set<OutPoint>, height: nat)
    ensures ScanBlock(m, txs, inside, height)
            == match RemoveAll(m, Spends(txs, inside)) case None => None case Some(r) =>
                InsertAll(r, Eligible(txs, inside), height)
  {
  }

  /** One block of the scan: remove what it spends, then number and insert what it creates. */
  method ApplyBlock(height: nat, txs: seq<Tx>, utxos: map<OutPoint, LeafPosition>, ghost inside: set<OutPoint>)
    returns (r: Result<(map<OutPoint, LeafPosition>, nat), ScanError>)
    requires forall o :: o in inside <==> SpentInside(txs, o)
    ensures r.Ok? <==> ScanBlock(utxos, txs, inside, height).Some?
    ensures r.Ok? ==> r.value == (ScanBlock(utxos, txs, inside, height).value, |Eligible(txs, inside)|)
    ensures r == Err(UnknownInput) <==> BadInput(txs, utxos)
    ensures r == Err(DuplicateOutpoint) <==> !BadInput(txs, utxos) && BadLeaf(txs, utxos)
    ensures r.Ok? ==> ScannedTo(txs, height, utxos, r.value.0) && r.value.1 == |LeavesBefore(txs, |txs|, 0)|
  {
    hide SpentInside, PassesThrough, ScanBlock, BadInput, BadLeaf, ScannedTo, LeavesBefore, Spends, Eligible;
    forall o
      ensures o in inside <==> PassesThrough(txs, o)
    {
      PassesIsInside(txs, o);
    }
    ScanMeans(txs, inside, height, utxos);
    SpendsTake(txs, inside, utxos);
    LeavesNumbered(txs, inside);
    ScanSteps(utxos, txs, inside, height);
    var spent := SameBlockSpends(txs);
    assert spent == inside;
    var removed := RemoveSpends(utxos, txs, spent);
    if removed.Err? {
      return Err(removed.error);
    }
    r := InsertLeaves(removed.value, txs, spent, height);
  }

  lemma {:induction false} RemovedAll(m: map<OutPoint, LeafPosition>, spends: seq<OutPoint>)
    requires RemoveAll(m, spends).Some?
    ensures var r := RemoveAll(m, spends).value;
            && (forall o :: o in r <==> o in m && o !in spends)
            && (forall o :: o in r ==> r[o] == m[o])
            && (forall o :: o in spends ==> o in m)
  {
    if spends != [] {
      var n := |spends| - 1;
      RemovedAll(m, spends[..n]);
      assert spends == spends[..n] + [spends[n]];
    }
  }

  predicate CreatesLeaf(leaves: seq<(OutPoint, Hash)>, o: OutPoint) {
    exists i :: 0 <= i < |leaves| && leaves[i].0 == o
  }

  lemma {:induction false} InsertedAll(m: map<OutPoint, LeafPosition>, leaves: seq<(OutPoint, Hash)>, height: nat)
    requires InsertAll(m, leaves, height).Some?
    ensures var r := InsertAll(m, leaves, height).value;
            && (forall i :: 0 <= i < |leaves| ==>
                   leaves[i].0 in r && r[leaves[i].0] == LeafPosition(height, i) && leaves[i].0 !in m)
            && (forall o :: o in r <==> o in m || CreatesLeaf(leaves, o))
            && (forall o :: o in m ==> r[o] == m[o])
  {
    if leaves != [] {
      var n := |leaves| - 1;
      InsertedAll(m, leaves[..n], height);
      var before := InsertAll(m, leaves[..n], height).value;
      forall o
        ensures CreatesLeaf(leaves, o) <==> CreatesLeaf(leaves[..n], o) || o == leaves[n].0
      {
        CreatesMore(leaves, n, o);
      }
      forall i | 0 <= i < n
        ensures leaves[i].0 in before && before[leaves[i].0] == LeafPosition(height, i) && leaves[i].0 !in m
      {
        assert leaves[..n][i] == leaves[i];
      }
    }
  }

  lemma {:induction false} CreatesMore(leaves: seq<(OutPoint, Hash)>, n: nat, o: OutPoint)
    requires n < |leaves| && |leaves| == n + 1
    ensures CreatesLeaf(leaves, o) <==> CreatesLeaf(leaves[..n], o) || o == leaves[n].0
  {
    if i :| 0 <= i < |leaves| && leaves[i].0 == o {
      if i < n { assert leaves[..n][i].0 == o; }
    }
    if i :| 0 <= i < n && leaves[..n][i].0 == o { assert leaves[i].0 == o; }
  }
}
