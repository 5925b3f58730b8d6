/** The append-only file of compact proofs, addressed by offset and size. */
module ProofStore {
  import opened Wrappers
  import opened Forest
  import opened Wal

  const MAX_PROOF_BYTES: nat := 512 * 1024 * 1024

  datatype ProofIndex = ProofIndex(offset: nat, size: nat, rows: Option<nat>) {
    function End(): nat { offset + size }
  }

  predicate Contains(file: seq<byte>, ix: ProofIndex) {
    ix.size <= MAX_PROOF_BYTES && ix.End() <= |file|
  }

  function Get(file: seq<byte>, ix: ProofIndex): Option<CompactProof> {
    if Contains(file, ix) then Some(CompactProof(file[ix.offset..ix.End()])) else None
  }

  /** Bytes behind a stored proof do not matter to it. */
  lemma {:induction false} GetExtended(file: seq<byte>, more: seq<byte>, ix: ProofIndex)
    requires file <= more && Contains(file, ix)
    ensures Get(more, ix) == Get(file, ix)
  {
    assert more[ix.offset..ix.End()] == file[ix.offset..ix.End()];
  }

  lemma {:induction false} GetTruncated(file: seq<byte>, end: nat, ix: ProofIndex)
    requires end <= |file| && ix.End() <= end
    ensures Get(file[..end], ix) == Get(file, ix)
  {
    if Contains(file, ix) { GetExtended(file[..end], file, ix); }
  }

  datatype FileError = TooLarge | FileTooShort

  class ProofFile {
    var bytes: seq<byte>
    var writerPos: nat

    predicate Valid()
      reads this
    {
      writerPos == |bytes|
    }

    constructor (bytes: seq<byte>)
      ensures Valid() && this.bytes == bytes
    {
      this.bytes, this.writerPos := bytes, |bytes|;
    }

    /** What is appended can be read back, and nothing stored before changes. */
    method Append(proof: CompactProof) returns (r: Result<ProofIndex, FileError>)
      requires Valid()
      modifies this
      ensures Valid()
      ensures r.Err? <==> |proof.bytes| > 536_870_912
      ensures r.Err? ==> bytes == old(bytes)
      ensures r.Ok? ==> bytes == old(bytes) + proof.bytes && r.value == ProofIndex(|old(bytes)|, |proof.bytes|, None)
      ensures r.Ok? ==> Get(bytes, r.value) == Some(proof)
      ensures forall ix :: Contains(old(bytes), ix) ==> Get(bytes, ix) == Get(old(bytes), ix)
    {
      if |proof.bytes| > MAX_PROOF_BYTES {
        return Err(TooLarge);
      }
      var offset := writerPos;
      writerPos := writerPos + |proof.bytes|;
      ghost var was := bytes;
      bytes := bytes[..offset] + proof.bytes;
      assert was[..offset] == was && was <= bytes;
      r := Ok(ProofIndex(offset, |proof.bytes|, None));
      assert bytes[offset..offset + |proof.bytes|] == proof.bytes;
      forall ix | Contains(was, ix)
        ensures Get(bytes, ix) == Get(was, ix)
      {
        GetExtended(was, bytes, ix);
      }
    }

    method Lookup(ix: ProofIndex) returns (r: Option<CompactProof>)
      requires Valid()
      ensures r == Get(bytes, ix)
      ensures r.None? <==> ix.size > 536_870_912 || ix.offset + ix.size > |bytes|
      ensures r.Some? ==> |r.value.bytes| == ix.size
      ensures r.Some? ==> forall i :: 0 <= i < ix.size ==> r.value.bytes[i] == bytes[ix.offset + i]
    {
      if ix.size > MAX_PROOF_BYTES || ix.offset + ix.size > |bytes| {
        return None;
      }
      return Some(CompactProof(bytes[ix.offset..ix.offset + ix.size]));
    }

    /** Cuts the file after a proof; every proof that ends no later stays readable. */
    method TruncateAfter(ix: Option<ProofIndex>) returns (r: Result<(), FileError>)
      requires Valid()
      modifies this
      ensures Valid()
      ensures var end := if ix.Some? then ix.value.End() else 0;
              && (r.Err? <==> |old(bytes)| < end)
              && (r.Err? ==> bytes == old(bytes))
              && (r.Ok? ==> bytes == old(bytes)[..end])
              && (r.Ok? ==> forall x: ProofIndex :: x.End() <= end ==> Get(bytes, x) == Get(old(bytes), x))
    {
      var end := if ix.Some? then ix.value.End() else 0;
      if |bytes| < end {
        return Err(FileTooShort);
      }
      ghost var was := bytes;
      bytes, writerPos := bytes[..end], end;
      forall x: ProofIndex | x.End() <= end
        ensures Get(bytes, x) == Get(was, x)
      {
        GetTruncated(was, end, x);
      }
      return Ok(());
    }
  }
}
