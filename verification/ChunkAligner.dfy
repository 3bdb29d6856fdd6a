/** Pcm16ChunkAligner: hands out whole samples and carries an odd byte over to the next chunk. */
module ChunkAligner {
  import opened Seqs
  import opened Pcm

  class Pcm16ChunkAligner {
    var carry: Bytes
    var rawBytes: nat
    var alignedBytes: nat
    var oddChunks: nat
    var chunksSeen: nat
    /** Every byte that came in or was added as padding, and every byte that went out. */
    ghost var taken: Bytes
    ghost var given: Bytes

    ghost predicate Valid()
      reads this
    {
      |carry| <= 1 && given + carry == taken
    }

    constructor ()
      ensures Valid() && taken == given == carry == []
      ensures rawBytes == alignedBytes == oddChunks == chunksSeen == 0
    {
      carry, rawBytes, alignedBytes, oddChunks, chunksSeen, taken, given := [], 0, 0, 0, 0, [], [];
    }

    method Push(chunk: Bytes) returns (aligned: Bytes)
      requires Valid()
      modifies this
      ensures Valid()
      ensures taken == old(taken) + chunk && given == old(given) + aligned
      ensures aligned + carry == old(carry) + chunk && |aligned| % 2 == 0
      ensures rawBytes == old(rawBytes) + |chunk| && alignedBytes == old(alignedBytes) + |aligned|
      ensures oddChunks == old(oddChunks) + |chunk| % 2
      ensures chunksSeen == old(chunksSeen) + if chunk == [] then 0 else 1
    {
      if chunk == [] {
        return [];
      }
      chunksSeen := chunksSeen + 1;
      rawBytes := rawBytes + |chunk|;
      if |chunk| % 2 != 0 {
        oddChunks := oddChunks + 1;
      }
      var merged := carry + chunk;
      var evenLength := |merged| - |merged| % 2;
      aligned := merged[..evenLength];
      carry := merged[evenLength..];
      alignedBytes := alignedBytes + |aligned|;
      Assoc(given, old(carry), chunk);
      Assoc(given, aligned, carry);
      taken, given := taken + chunk, given + aligned;
    }

    method Flush(padFinalByte: bool := true) returns (rest: Bytes)
      requires Valid()
      modifies this
      ensures Valid() && carry == []
      ensures rest == if padFinalByte then EvenPad(old(carry)) else old(carry)
      ensures given == old(given) + rest
      ensures taken == old(taken) + if padFinalByte then rest[|old(carry)|..] else []
      ensures alignedBytes == old(alignedBytes) + if padFinalByte then |rest| else 0
      ensures rawBytes == old(rawBytes) && oddChunks == old(oddChunks) && chunksSeen == old(chunksSeen)
    {
      if carry == [] {
        return [];
      }
      if !padFinalByte {
        rest := carry;
        carry := [];
        given := given + rest;
        return;
      }
      rest := carry + [0];
      carry := [];
      alignedBytes := alignedBytes + |rest|;
      Assoc(given, old(carry), [0]);
      taken, given := taken + [0], given + rest;
    }
  }

  /** Alignment depends on the bytes alone: the even prefix goes out, then the padded last byte. */
  method AlignStream(chunks: seq<Bytes>) returns (out: seq<Bytes>, rest: Bytes)
    ensures |out| == |chunks| && WholeSamples(out)
    ensures Flatten(out) == Usable(Flatten(chunks))
    ensures Flatten(out) + rest == EvenPad(Flatten(chunks))
  {
    var aligner := new Pcm16ChunkAligner();
    out := [];
    for i := 0 to |chunks|
      invariant fresh(aligner) && aligner.Valid() && |out| == i && WholeSamples(out)
      invariant aligner.taken == Flatten(chunks[..i]) && aligner.given == Flatten(out)
    {
      var aligned := aligner.Push(chunks[i]);
      assert chunks[..i + 1] == chunks[..i] + [chunks[i]];
      FlattenSnoc(chunks[..i], chunks[i]);
      FlattenSnoc(out, aligned);
      out := out + [aligned];
    }
    assert chunks[..|chunks|] == chunks;
    ghost var carry := aligner.carry;
    rest := aligner.Flush();
    AlignedSplit(Flatten(chunks), out, carry);
  }

  lemma AlignedSplit(input: Bytes, out: seq<Bytes>, carry: Bytes)
    requires WholeSamples(out) && |carry| <= 1 && Flatten(out) + carry == input
    ensures Flatten(out) == Usable(input) && Flatten(out) + EvenPad(carry) == EvenPad(input)
  {
    WholeSamplesFlatten(out);
    EvenPadAppend(Flatten(out), carry);
  }
}
