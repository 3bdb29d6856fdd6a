/** How a session speaks one utterance: provider chunks go through the optimizer, the gate and the aligner. */
module SpeechPipeline {
  import opened Seqs
  import opened Pcm
  import opened ChunkAligner
  import Optimizer = RealtimeOptimizer
  import opened OptimizerTheorems
  import opened VoicedFirstGate
  import opened GateTheorems

  lemma {:induction false} GateRunAppend(cfg: Config, g: Gate, a: seq<Bytes>, b: seq<Bytes>)
    ensures GateOutput(cfg, g, a + b) == GateOutput(cfg, g, a) + GateOutput(cfg, GateEnd(cfg, g, a), b)
    ensures GateEnd(cfg, g, a + b) == GateEnd(cfg, GateEnd(cfg, g, a), b)
    decreases |a|
  {
    if a == [] {
      assert a + b == b;
    } else {
      var next := Next(cfg, g, a[0]);
      assert (a + b)[1..] == a[1..] + b;
      GateRunAppend(cfg, next, a[1..], b);
      Assoc(Passed(cfg, g, a[0]), GateOutput(cfg, next, a[1..]), GateOutput(cfg, GateEnd(cfg, next, a[1..]), b));
    }
  }

  lemma GateRunSnoc(cfg: Config, g: Gate, a: seq<Bytes>, chunk: Bytes)
    ensures GateOutput(cfg, g, a + [chunk]) == GateOutput(cfg, g, a) + Passed(cfg, GateEnd(cfg, g, a), chunk)
    ensures GateEnd(cfg, g, a + [chunk]) == Next(cfg, GateEnd(cfg, g, a), chunk)
  {
    GateRunAppend(cfg, g, a, [chunk]);
    var e := GateEnd(cfg, g, a);
    assert [chunk][1..] == [];
    assert GateOutput(cfg, e, [chunk]) == Passed(cfg, e, chunk) + [];
    assert GateEnd(cfg, Next(cfg, e, chunk), []) == Next(cfg, e, chunk);
  }

  /** The gate, and the aligner since it had taken `base`, have handled the given optimized chunks. */
  ghost predicate Delivered(gate: Pcm16VoicedFirstGate, aligner: Pcm16ChunkAligner, base: Bytes, chunks: seq<Bytes>)
    reads gate, aligner
  {
    && aligner.Valid()
    && gate.State() == GateEnd(gate.cfg, CLOSED, chunks)
    && aligner.taken == base + GateOutput(gate.cfg, CLOSED, chunks)
  }

  /** Sends one optimized chunk on; nothing is queued when the gate or the aligner holds it back. */
  method Send(gate: Pcm16VoicedFirstGate, aligner: Pcm16ChunkAligner, chunk: Bytes) returns (queued: seq<Bytes>)
    requires aligner.Valid()
    modifies gate, aligner
    ensures aligner.Valid() && gate.State() == Next(gate.cfg, old(gate.State()), chunk)
    ensures aligner.taken == old(aligner.taken) + Passed(gate.cfg, old(gate.State()), chunk)
    ensures aligner.given == old(aligner.given) + Flatten(queued) && WholeSamples(queued)
  {
    var emitted, _ := gate.Push(chunk);
    queued := [];
    if emitted != [] {
      var aligned := aligner.Push(emitted[0]);
      if aligned != [] {
        queued := [aligned];
        OneChunk(aligned);
      }
    }
  }

  method Deliver(gate: Pcm16VoicedFirstGate, aligner: Pcm16ChunkAligner, chunk: Bytes, ghost base: Bytes,
                 ghost done: seq<Bytes>) returns (queued: seq<Bytes>)
    requires Delivered(gate, aligner, base, done)
    modifies gate, aligner
    ensures Delivered(gate, aligner, base, done + [chunk])
    ensures aligner.given == old(aligner.given) + Flatten(queued) && WholeSamples(queued)
  {
    GateRunSnoc(gate.cfg, CLOSED, done, chunk);
    Assoc(base, GateOutput(gate.cfg, CLOSED, done), Passed(gate.cfg, gate.State(), chunk));
    queued := Send(gate, aligner, chunk);
  }

  method DeliverAll(gate: Pcm16VoicedFirstGate, aligner: Pcm16ChunkAligner, chunks: seq<Bytes>, ghost base: Bytes,
                    ghost before: seq<Bytes>) returns (queued: seq<Bytes>)
    requires Delivered(gate, aligner, base, before)
    modifies gate, aligner
    ensures Delivered(gate, aligner, base, before + chunks)
    ensures aligner.given == old(aligner.given) + Flatten(queued) && WholeSamples(queued)
  {
    queued := [];
    ghost var done := before;
    for i := 0 to |chunks|
      invariant done == before + chunks[..i] && Delivered(gate, aligner, base, done)
      invariant aligner.given == old(aligner.given) + Flatten(queued) && WholeSamples(queued)
    {
      var more := Deliver(gate, aligner, chunks[i], base, done);
      PrefixSnoc(before, chunks, i);
      done := done + [chunks[i]];
      FlattenAppend(queued, more);
      Assoc(old(aligner.given), Flatten(queued), Flatten(more));
      queued := queued + more;
    }
    assert chunks[..|chunks|] == chunks;
  }

  lemma PrefixSnoc(before: seq<Bytes>, chunks: seq<Bytes>, i: nat)
    requires i < |chunks|
    ensures before + chunks[..i] + [chunks[i]] == before + chunks[..i + 1]
  {
  }

  /**
   What an aligner gave since some moment, followed by its carry, is its carry then followed by what it took since.
   */
  lemma SinceThen(given: Bytes, carry: Bytes, out: Bytes, rest: Bytes, more: Bytes)
    requires given + out + rest == given + carry + more
    ensures out + rest == carry + more
  {
    Assoc(given, out, rest);
    Assoc(given, carry, more);
    assert (given + (out + rest))[|given|..] == out + rest;
    assert (given + (carry + more))[|given|..] == carry + more;
  }

  lemma NothingCarried(out: Bytes, carry: Bytes, more: Bytes)
    requires |carry| <= 1 && |out| % 2 == 0 && |more| % 2 == 0 && out + carry == more
    ensures carry == [] && out == more
  {
    assert |out| + |carry| == |more|;
  }

  // ---- What a listener gets of what the provider said ----

  /**
   `out` is a stretch of the utterance's samples, unchanged past the fade window at its start, that has every voiced
   sample of every frame with speech, unchanged and at its place.
   */
  ghost predicate SpeechReaches(ocfg: Optimizer.Config, gcfg: Config, input: Bytes, out: seq<int>)
    requires ocfg.Valid()
  {
    exists shift: nat :: SpeechAt(ocfg, gcfg, input, out, shift)
  }

  /** Sample i is in frame j. */
  predicate InFrame(frames: seq<Bytes>, j: nat, i: nat)
    requires j < |frames|
  {
    |Flatten(frames[..j])| <= 2 * i < |Flatten(frames[..j + 1])|
  }

  ghost predicate SpeechAt(ocfg: Optimizer.Config, gcfg: Config, input: Bytes, out: seq<int>, shift: nat)
    requires ocfg.Valid()
  {
    var frames, all := FramesOf(ocfg, input), Samples(PaddedInput(ocfg, input));
    && shift + |out| <= |all|
    && (forall k :: gcfg.fade <= k < |out| ==> out[k] == all[shift + k])
    && forall i, j :: 0 <= i < |all| && 0 <= j < |frames| && InFrame(frames, j, i) ==>
         !ocfg.silent(frames[j]) && Voiced(gcfg, all[i]) ==> shift <= i < shift + |out| && out[i - shift] == all[i]
  }

  lemma {:induction false} SamplesTake(b: Bytes, n: nat)
    requires 2 * n <= |b|
    ensures Samples(b[..2 * n]) == Samples(b)[..n]
  {
    if n > 0 {
      SamplesTake(b[2..], n - 1);
      assert b[..2 * n][2..] == b[2..][..2 * (n - 1)];
    }
  }

  lemma SamplesSlice(b: Bytes, lo: nat, hi: nat)
    requires lo <= hi && 2 * hi <= |b|
    ensures Samples(b[2 * lo..2 * hi]) == Samples(b)[lo..hi]
  {
    var front := b[..2 * hi];
    SamplesTake(b, hi);
    SamplesDrop(front, lo);
    assert front[2 * lo..] == b[2 * lo..2 * hi];
  }

  lemma InFrameInSlice(frames: seq<Bytes>, first: nat, end: nat, j: nat, i: nat)
    requires first <= j < end <= |frames| && InFrame(frames, j, i)
    ensures |Flatten(frames[..first])| <= 2 * i < |Flatten(frames[..end])|
  {
    FlattenSlice(frames, first, j);
    FlattenSlice(frames, j + 1, end);
  }

  /** How many samples precede frame k. */
  function SamplesBefore(frames: seq<Bytes>, k: nat): nat
    requires k <= |frames|
  {
    |Flatten(frames[..k])| / 2
  }

  lemma WholeBefore(frames: seq<Bytes>, k: nat)
    requires WholeSamples(frames) && k <= |frames|
    ensures 2 * SamplesBefore(frames, k) == |Flatten(frames[..k])|
  {
    WholeSamplesFlatten(frames[..k]);
  }

  /** Samples of frames with speech are in the optimizer's slice. */
  lemma SpeechInSlice(ocfg: Optimizer.Config, frames: seq<Bytes>, j: nat, i: nat)
    requires WholeSamples(frames) && j < |frames| && InFrame(frames, j, i) && !ocfg.silent(frames[j])
    ensures FirstKept(ocfg, frames) <= j < EndKept(ocfg, frames) <= |frames|
    ensures SamplesBefore(frames, FirstKept(ocfg, frames)) <= i < SamplesBefore(frames, EndKept(ocfg, frames))
  {
    KeptIsARange(ocfg, frames);
    InteriorKept(ocfg, frames, j, j, j);
    InFrameInSlice(frames, FirstKept(ocfg, frames), EndKept(ocfg, frames), j, i);
    WholeBefore(frames, EndKept(ocfg, frames));
  }

  /** The optimizer's slice, in samples. */
  lemma SliceOfSamples(ocfg: Optimizer.Config, chunks: seq<Bytes>) returns (lo: nat, hi: nat)
    requires ocfg.Valid() && ocfg.Even()
    ensures var input := Flatten(chunks); var frames := FramesOf(ocfg, input);
            var all := Samples(PaddedInput(ocfg, input));
            && WholeSamples(frames) && FirstKept(ocfg, frames) <= EndKept(ocfg, frames) <= |frames|
            && lo == SamplesBefore(frames, FirstKept(ocfg, frames))
            && hi == SamplesBefore(frames, EndKept(ocfg, frames))
            && lo <= hi <= |all|
            && Samples(Flatten(Shaped(ocfg, chunks))) == all[lo..hi]
  {
    var frames := FramesOf(ocfg, Flatten(chunks));
    OutputIsOneSlice(ocfg, chunks);
    FramesAreEven(ocfg, Flatten(chunks));
    lo, hi := SamplesBefore(frames, FirstKept(ocfg, frames)), SamplesBefore(frames, EndKept(ocfg, frames));
    WholeBefore(frames, FirstKept(ocfg, frames));
    WholeBefore(frames, EndKept(ocfg, frames));
    SamplesSlice(PaddedInput(ocfg, Flatten(chunks)), lo, hi);
  }

  /** What is kept of a slice is kept of the whole, at the place the slice has there. */
  lemma KeptOfSlice(gcfg: Config, all: seq<int>, lo: nat, hi: nat, out: seq<int>) returns (shift: nat)
    requires lo <= hi <= |all| && KeepsVoice(gcfg, all[lo..hi], out)
    ensures shift + |out| == hi
    ensures forall i :: lo <= i < hi && Voiced(gcfg, all[i]) ==> shift <= i && out[i - shift] == all[i]
    ensures forall k :: gcfg.fade <= k < |out| ==> out[k] == all[shift + k]
  {
    var s := all[lo..hi];
    var cut := |s| - |out|;
    shift := lo + cut;
    forall i | lo <= i < hi && Voiced(gcfg, all[i]) ensures shift <= i && out[i - shift] == all[i] {
      assert s[i - lo] == all[i];
    }
    forall k | gcfg.fade <= k < |out| ensures out[k] == all[shift + k] {
      assert s[cut + k] == all[shift + k];
      assert out[cut + k - cut] == s[cut + k];
    }
  }

  /** What the gate keeps of the optimizer's slice has all voiced samples of all frames with speech. */
  lemma SpeechKept(ocfg: Optimizer.Config, gcfg: Config, chunks: seq<Bytes>, out: seq<int>)
    requires ocfg.Valid() && ocfg.Even()
    requires KeepsVoice(gcfg, Samples(Flatten(Shaped(ocfg, chunks))), out)
    ensures SpeechReaches(ocfg, gcfg, Flatten(chunks), out)
  {
    var frames, all := FramesOf(ocfg, Flatten(chunks)), Samples(PaddedInput(ocfg, Flatten(chunks)));
    var lo, hi := SliceOfSamples(ocfg, chunks);
    var shift := KeptOfSlice(gcfg, all, lo, hi, out);
    forall i, j | 0 <= i < |all| && 0 <= j < |frames| && InFrame(frames, j, i) && !ocfg.silent(frames[j])
      ensures lo <= i < hi
    {
      SpeechInSlice(ocfg, frames, j, i);
    }
    assert SpeechAt(ocfg, gcfg, Flatten(chunks), out, shift);
  }

  /** What is queued for one utterance. */
  ghost predicate Spoken(ocfg: Optimizer.Config, gcfg: Config, chunks: seq<Bytes>, queued: seq<Bytes>)
    requires ocfg.Valid()
  {
    && WholeSamples(queued)
    && Flatten(queued) == GateOutput(gcfg, CLOSED, Shaped(ocfg, chunks))
    && SpeechReaches(ocfg, gcfg, Flatten(chunks), Samples(Flatten(queued)))
  }

  lemma GatedSpeech(ocfg: Optimizer.Config, gcfg: Config, chunks: seq<Bytes>)
    requires ocfg.Valid() && ocfg.Even() && FadeFits(gcfg)
    ensures var out := GateOutput(gcfg, CLOSED, Shaped(ocfg, chunks));
            |out| % 2 == 0 && SpeechReaches(ocfg, gcfg, Flatten(chunks), Samples(out))
  {
    EmittedSamplesWhole(ocfg, chunks);
    WholeStreamKeepsVoice(gcfg, CLOSED, Shaped(ocfg, chunks));
    SpeechKept(ocfg, gcfg, chunks, Samples(GateOutput(gcfg, CLOSED, Shaped(ocfg, chunks))));
  }

  /** One utterance, end to end, through the aligner that the session keeps for its source. */
  method Speak(ocfg: Optimizer.Config, gcfg: Config, aligner: Pcm16ChunkAligner, chunks: seq<Bytes>)
    returns (queued: seq<Bytes>)
    requires ocfg.Valid() && ocfg.Even() && FadeFits(gcfg)
    requires aligner.Valid() && aligner.carry == []
    modifies aligner
    ensures aligner.Valid() && aligner.carry == []
    ensures Spoken(ocfg, gcfg, chunks, queued)
  {
    queued := Stream(ocfg, gcfg, aligner, chunks);
    AllQueued(ocfg, gcfg, chunks, queued, aligner.carry);
  }

  lemma AllQueued(ocfg: Optimizer.Config, gcfg: Config, chunks: seq<Bytes>, queued: seq<Bytes>, carry: Bytes)
    requires ocfg.Valid() && ocfg.Even() && FadeFits(gcfg) && WholeSamples(queued) && |carry| <= 1
    requires Flatten(queued) + carry == [] + GateOutput(gcfg, CLOSED, Shaped(ocfg, chunks))
    ensures carry == [] && Spoken(ocfg, gcfg, chunks, queued)
  {
    var out := GateOutput(gcfg, CLOSED, Shaped(ocfg, chunks));
    assert [] + out == out;
    WholeSamplesFlatten(queued);
    GatedSpeech(ocfg, gcfg, chunks);
    NothingCarried(Flatten(queued), carry, out);
  }

  /** One chunk of the provider. */
  method Relay(optimizer: Optimizer.Pcm16RealtimeOptimizer, gate: Pcm16VoicedFirstGate, aligner: Pcm16ChunkAligner,
               chunk: Bytes, ghost base: Bytes) returns (queued: seq<Bytes>)
    requires optimizer.Valid() && Delivered(gate, aligner, base, optimizer.emitted)
    modifies optimizer, gate, aligner
    ensures optimizer.Valid() && Delivered(gate, aligner, base, optimizer.emitted)
    ensures optimizer.Contents() == Optimizer.Pushed(optimizer.cfg, old(optimizer.Contents()), chunk)
    ensures aligner.given == old(aligner.given) + Flatten(queued) && WholeSamples(queued)
  {
    ghost var before := optimizer.emitted;
    var pieces := optimizer.Push(chunk);
    queued := DeliverAll(gate, aligner, pieces, base, before);
  }

  method RelayRest(optimizer: Optimizer.Pcm16RealtimeOptimizer, gate: Pcm16VoicedFirstGate, aligner: Pcm16ChunkAligner,
                   ghost base: Bytes) returns (queued: seq<Bytes>)
    requires optimizer.Valid() && Delivered(gate, aligner, base, optimizer.emitted)
    modifies optimizer, gate, aligner
    ensures Delivered(gate, aligner, base, Optimizer.Flushed(optimizer.cfg, old(optimizer.Contents())).emitter.chunks)
    ensures aligner.given == old(aligner.given) + Flatten(queued) && WholeSamples(queued)
  {
    ghost var before := optimizer.emitted;
    var tail, _ := optimizer.Flush();
    queued := DeliverAll(gate, aligner, tail, base, before);
  }

  method Stream(ocfg: Optimizer.Config, gcfg: Config, aligner: Pcm16ChunkAligner, chunks: seq<Bytes>)
    returns (queued: seq<Bytes>)
    requires ocfg.Valid() && aligner.Valid()
    modifies aligner
    ensures aligner.Valid() && WholeSamples(queued)
    ensures Flatten(queued) + aligner.carry == old(aligner.carry) + GateOutput(gcfg, CLOSED, Shaped(ocfg, chunks))
  {
    var optimizer := new Optimizer.Pcm16RealtimeOptimizer(ocfg);
    var gate := new Pcm16VoicedFirstGate(gcfg);
    queued := [];
    assert aligner.taken + GateOutput(gcfg, CLOSED, []) == aligner.taken;
    for i := 0 to |chunks|
      invariant fresh(optimizer) && fresh(gate)
      invariant optimizer.cfg == ocfg && optimizer.Valid() && gate.cfg == gcfg
      invariant Delivered(gate, aligner, old(aligner.taken), optimizer.emitted)
      invariant aligner.given == old(aligner.given) + Flatten(queued) && WholeSamples(queued)
      invariant Optimizer.PushAll(ocfg, Optimizer.EMPTY_STREAM, chunks)
                == Optimizer.PushAll(ocfg, optimizer.Contents(), chunks[i..])
    {
      assert chunks[i..][0] == chunks[i] && chunks[i..][1..] == chunks[i + 1..];
      var more := Relay(optimizer, gate, aligner, chunks[i], old(aligner.taken));
      queued := Queue(queued, more, old(aligner.given));
    }
    assert chunks[|chunks|..] == [];
    var more := RelayRest(optimizer, gate, aligner, old(aligner.taken));
    queued := Queue(queued, more, old(aligner.given));
    SinceThen(old(aligner.given), old(aligner.carry), Flatten(queued), aligner.carry,
              GateOutput(gcfg, CLOSED, Shaped(ocfg, chunks)));
  }

  /** Puts more into the queue. */
  method Queue(queued: seq<Bytes>, more: seq<Bytes>, ghost before: Bytes) returns (longer: seq<Bytes>)
    requires WholeSamples(queued) && WholeSamples(more)
    ensures longer == queued + more && WholeSamples(longer)
    ensures before + Flatten(longer) == before + Flatten(queued) + Flatten(more)
  {
    FlattenAppend(queued, more);
    Assoc(before, Flatten(queued), Flatten(more));
    longer := queued + more;
  }

  /** The utterances of one session and source, one after the other. */
  method SpeakAll(ocfg: Optimizer.Config, gcfg: Config, utterances: seq<seq<Bytes>>) returns (queued: seq<seq<Bytes>>)
    requires ocfg.Valid() && ocfg.Even() && FadeFits(gcfg)
    ensures |queued| == |utterances|
    ensures forall k :: 0 <= k < |queued| ==> Spoken(ocfg, gcfg, utterances[k], queued[k])
  {
    var aligner := new Pcm16ChunkAligner();
    queued := [];
    for k := 0 to |utterances|
      invariant fresh(aligner) && aligner.Valid() && aligner.carry == [] && |queued| == k
      invariant forall j :: 0 <= j < k ==> Spoken(ocfg, gcfg, utterances[j], queued[j])
    {
      var out := Speak(ocfg, gcfg, aligner, utterances[k]);
      queued := queued + [out];
    }
  }
}
