/**
 Pcm16VoicedFirstGate: until something is emitted, drops chunks without a voiced sample while a duration
 budget lasts, and trims and fades the start of the first voiced chunk.
 */
module VoicedFirstGate {
  import opened Seqs
  import opened Pcm
  import opened Ramp

  /** The tests that tell the silence classes apart: of chunks without, and with, a voiced sample. */
  datatype Loudness = Loudness(quiet: Bytes -> bool, faint: Bytes -> bool)

  /** Windows are in samples, the budget in hundredths of a millisecond. */
  datatype Config = Config(threshold: int, preserve: nat, fade: nat, budget: int, loudness: Loudness)

  /** Windows given in milliseconds, at 16 samples each; a fade that is switched on takes at least one sample. */
  function FromMillis(threshold: int, preserveMs: real, fadeMs: real, budget: int, loudness: Loudness): Config {
    Config(threshold, Max(0, RoundHalfEven(16.0 * preserveMs)),
           if fadeMs <= 0.0 then 0 else Max(1, RoundHalfEven(16.0 * fadeMs)), budget, loudness)
  }

  /** Windows of whole milliseconds take 16 samples each; a negative time gives none, a short fade one. */
  lemma WindowsMeaning(threshold: int, preserve: int, fade: int, budget: int, loudness: Loudness)
    ensures var cfg := FromMillis(threshold, preserve as real, fade as real, budget, loudness);
            && cfg.preserve == Max(0, 16 * preserve) && cfg.fade == Max(0, 16 * fade)
            && cfg.threshold == threshold && cfg.budget == budget && cfg.loudness == loudness
  {
    RoundInteger(16.0 * preserve as real, 16 * preserve);
    RoundInteger(16.0 * fade as real, 16 * fade);
  }

  lemma ShortFadeFits(threshold: int, preserveMs: real, fadeMs: real, budget: int, loudness: Loudness)
    requires fadeMs <= preserveMs
    ensures var cfg := FromMillis(threshold, preserveMs, fadeMs, budget, loudness); cfg.fade <= cfg.preserve + 1
  {
    RoundMonotone(16.0 * fadeMs, 16.0 * preserveMs);
  }

  predicate Voiced(cfg: Config, sample: int) {
    Abs(sample) >= cfg.threshold
  }

  /** At or above the threshold, in either direction. */
  lemma VoicedMeaning(cfg: Config, sample: int)
    ensures Voiced(cfg, sample) <==> sample >= cfg.threshold || -sample >= cfg.threshold
  {
  }

  /** The index of the first voiced sample, or the length if there is none. */
  function FirstVoiced(cfg: Config, s: seq<int>): (n: nat)
    ensures n <= |s|
  {
    if s == [] || Voiced(cfg, s[0]) then 0 else 1 + FirstVoiced(cfg, s[1..])
  }

  lemma {:induction false} FirstVoicedMeaning(cfg: Config, s: seq<int>)
    ensures var n := FirstVoiced(cfg, s);
            && (forall i :: 0 <= i < n ==> !Voiced(cfg, s[i]))
            && (n < |s| ==> Voiced(cfg, s[n]))
  {
    if s != [] && !Voiced(cfg, s[0]) {
      FirstVoicedMeaning(cfg, s[1..]);
    }
  }

  /** How many samples are cut in front of the first voiced one. */
  function TrimCount(cfg: Config, s: seq<int>): (n: nat)
    ensures n <= FirstVoiced(cfg, s)
  {
    Max(0, FirstVoiced(cfg, s) - cfg.preserve)
  }

  /** The samples that leave when a chunk containing a voiced sample is let through. */
  function TrimmedSamples(cfg: Config, s: seq<int>): seq<int> {
    var cut := TrimCount(cfg, s);
    if cut == 0 then s else FadeIn(s[cut..], cfg.fade)
  }

  datatype SilenceClass = Silent | NearSilent | Loud

  datatype Event = Event(
    chunkIndex: nat,
    silenceClass: SilenceClass,
    firstVoicedOffset: Option<nat>,
    leadingTrimmed: int,
    totalTrimmed: int,
    emittedBytes: nat,
    droppedChunks: nat,
    silentChunksDropped: nat,
    nearSilentChunksDropped: nat)

  datatype Gate = Gate(
    started: bool,
    chunkIndex: nat,
    trimmed: int,
    dropped: nat,
    silentDropped: nat,
    nearSilentDropped: nat,
    firstVoicedOffset: Option<nat>,
    firstVoicedChunk: Option<nat>)

  const CLOSED := Gate(false, 0, 0, 0, 0, 0, None, None)

  predicate HasVoice(cfg: Config, chunk: Bytes) {
    FirstVoiced(cfg, Samples(chunk)) < |Samples(chunk)|
  }

  function Class(cfg: Config, chunk: Bytes): SilenceClass {
    if !HasVoice(cfg, chunk) then if cfg.loudness.quiet(Usable(chunk)) then Silent else NearSilent
    else if cfg.loudness.faint(Usable(chunk)) then NearSilent
    else Loud
  }

  /** When the first voiced sample comes, in hundredths of a millisecond. */
  function VoiceOffset(cfg: Config, chunk: Bytes): Option<nat> {
    if HasVoice(cfg, chunk) then Some(Hundredths(2 * FirstVoiced(cfg, Samples(chunk)))) else None
  }

  predicate Drops(cfg: Config, g: Gate, chunk: Bytes) {
    !HasVoice(cfg, chunk) && g.trimmed + Hundredths(|chunk|) <= cfg.budget
  }

  /** The bytes of a chunk that leave when it opens the gate. */
  function Opening(cfg: Config, chunk: Bytes): Bytes {
    var s := Samples(chunk);
    if !HasVoice(cfg, chunk) then chunk
    else if TrimCount(cfg, s) == 0 then Usable(chunk)
    else SamplesInRange(chunk); TrimmedInRange(cfg, s); Encode(TrimmedSamples(cfg, s))
  }

  lemma TrimmedInRange(cfg: Config, s: seq<int>)
    requires IsPcm16(s)
    ensures IsPcm16(TrimmedSamples(cfg, s))
  {
    FadeInRange(s[TrimCount(cfg, s)..], cfg.fade);
  }

  function Passed(cfg: Config, g: Gate, chunk: Bytes): Bytes {
    if chunk == [] then []
    else if g.started then chunk
    else if Drops(cfg, g, chunk) then []
    else Opening(cfg, chunk)
  }

  function Next(cfg: Config, g: Gate, chunk: Bytes): Gate {
    if chunk == [] then g
    else
      var g := g.(chunkIndex := g.chunkIndex + 1);
      if g.started then g
      else if Drops(cfg, g, chunk) then
        g.(trimmed := g.trimmed + Hundredths(|chunk|),
           dropped := g.dropped + 1,
           silentDropped := g.silentDropped + if Class(cfg, chunk).Silent? then 1 else 0,
           nearSilentDropped := g.nearSilentDropped + if Class(cfg, chunk).Silent? then 0 else 1)
      else if HasVoice(cfg, chunk) then
        g.(started := true,
           trimmed := g.trimmed + Hundredths(2 * TrimCount(cfg, Samples(chunk))),
           firstVoicedOffset := VoiceOffset(cfg, chunk),
           firstVoicedChunk := Some(g.chunkIndex))
      else
        g.(started := true)
  }

  method FirstVoicedIndex(cfg: Config, pcm: Bytes) returns (index: Option<nat>)
    ensures index == if HasVoice(cfg, pcm) then Some(FirstVoiced(cfg, Samples(pcm))) else None
  {
    ghost var s := Samples(pcm);
    FirstVoicedMeaning(cfg, s);
    var k := 0;
    while 2 * k + 1 < |pcm|
      invariant k <= |s| && forall j :: 0 <= j < k ==> !Voiced(cfg, s[j])
    {
      SamplesAt(pcm, k);
      if Voiced(cfg, Sample(pcm[2 * k], pcm[2 * k + 1])) {
        return Some(k);
      }
      k := k + 1;
    }
    return None;
  }

  method ApplyFadeIn(pcm: Bytes, fade: nat) returns (faded: Bytes)
    ensures IsPcm16(FadeIn(Samples(pcm), fade)) && faded == Encode(FadeIn(Samples(pcm), fade))
  {
    SamplesInRange(pcm);
    FadeInRange(Samples(pcm), fade);
    var usable := Usable(pcm);
    SamplesUsable(pcm);
    if usable == [] || fade == 0 {
      EncodeDecode(usable);
      return usable;
    }
    var decoded := Samples(usable);
    var samples := new int[|decoded|](i requires 0 <= i < |decoded| => decoded[i]);
    assert samples[..] == decoded;
    FadeInPlace(samples, fade);
    faded := Encode(samples[..]);
  }

  class Pcm16VoicedFirstGate {
    const cfg: Config
    var started: bool
    var chunkIndex: nat
    var leadingTrimmed: int
    var droppedChunks: nat
    var silentChunksDropped: nat
    var nearSilentChunksDropped: nat
    var firstVoicedOffset: Option<nat>
    var firstVoicedChunk: Option<nat>

    function State(): Gate
      reads this
    {
      Gate(started, chunkIndex, leadingTrimmed, droppedChunks, silentChunksDropped, nearSilentChunksDropped,
           firstVoicedOffset, firstVoicedChunk)
    }

    constructor (cfg: Config)
      ensures this.cfg == cfg && State() == CLOSED
    {
      this.cfg := cfg;
      started, chunkIndex, leadingTrimmed, droppedChunks := false, 0, 0, 0;
      silentChunksDropped, nearSilentChunksDropped, firstVoicedOffset, firstVoicedChunk := 0, 0, None, None;
    }

    method Push(chunk: Bytes) returns (out: seq<Bytes>, event: Option<Event>)
      modifies this
      ensures State() == Next(cfg, old(State()), chunk)
      ensures out == if Passed(cfg, old(State()), chunk) == [] then [] else [Passed(cfg, old(State()), chunk)]
      ensures event.Some? <==> !old(started) && started
      ensures event.Some? ==>
                event.value == Event(chunkIndex, Class(cfg, chunk), VoiceOffset(cfg, chunk),
                                     leadingTrimmed - old(leadingTrimmed), leadingTrimmed, |Flatten(out)|,
                                     droppedChunks, silentChunksDropped, nearSilentChunksDropped)
    {
      if chunk == [] {
        return [], None;
      }
      chunkIndex := chunkIndex + 1;
      if started {
        return [chunk], None;
      }
      var voiced := FirstVoicedIndex(cfg, chunk);
      if voiced.None? && leadingTrimmed + Hundredths(|chunk|) <= cfg.budget {
        Drop(chunk, voiced);
        return [], None;
      }
      var emitted, trimmedNow := Open(chunk, voiced);
      OneChunk(emitted);
      var offset := if voiced.Some? then Some(Hundredths(2 * voiced.value)) else None;
      var silence := SilenceClassOf(chunk, voiced);
      event := Some(Event(chunkIndex, silence, offset, trimmedNow, leadingTrimmed, |emitted|,
                          droppedChunks, silentChunksDropped, nearSilentChunksDropped));
      return [emitted], event;
    }

    method SilenceClassOf(chunk: Bytes, voiced: Option<nat>) returns (silence: SilenceClass)
      requires voiced.Some? <==> HasVoice(cfg, chunk)
      ensures silence == Class(cfg, chunk)
    {
      var usable := Usable(chunk);
      if voiced.None? {
        silence := if cfg.loudness.quiet(usable) then Silent else NearSilent;
      } else {
        silence := if cfg.loudness.faint(usable) then NearSilent else Loud;
      }
    }

    method Drop(chunk: Bytes, voiced: Option<nat>)
      requires voiced.Some? <==> HasVoice(cfg, chunk)
      modifies this`leadingTrimmed, this`droppedChunks, this`silentChunksDropped, this`nearSilentChunksDropped
      ensures leadingTrimmed == old(leadingTrimmed) + Hundredths(|chunk|) && droppedChunks == old(droppedChunks) + 1
      ensures silentChunksDropped == old(silentChunksDropped) + if Class(cfg, chunk).Silent? then 1 else 0
      ensures nearSilentChunksDropped == old(nearSilentChunksDropped) + if Class(cfg, chunk).Silent? then 0 else 1
    {
      leadingTrimmed := leadingTrimmed + Hundredths(|chunk|);
      droppedChunks := droppedChunks + 1;
      var silence := SilenceClassOf(chunk, voiced);
      if silence.Silent? {
        silentChunksDropped := silentChunksDropped + 1;
      } else {
        nearSilentChunksDropped := nearSilentChunksDropped + 1;
      }
    }

    method Open(chunk: Bytes, voiced: Option<nat>) returns (emitted: Bytes, trimmedNow: int)
      requires chunk != []
      requires voiced == if HasVoice(cfg, chunk) then Some(FirstVoiced(cfg, Samples(chunk))) else None
      modifies this`started, this`leadingTrimmed, this`firstVoicedOffset, this`firstVoicedChunk
      ensures emitted == Opening(cfg, chunk) && emitted != []
      ensures started && leadingTrimmed == old(leadingTrimmed) + trimmedNow
      ensures trimmedNow == if voiced.Some? then Hundredths(2 * TrimCount(cfg, Samples(chunk))) else 0
      ensures firstVoicedOffset == if voiced.Some? then VoiceOffset(cfg, chunk) else old(firstVoicedOffset)
      ensures firstVoicedChunk == if voiced.Some? then Some(chunkIndex) else old(firstVoicedChunk)
    {
      emitted, trimmedNow := chunk, 0;
      if voiced.Some? {
        var cut;
        emitted, cut := TrimToFirstVoiced(cfg, chunk, voiced.value);
        trimmedNow := Hundredths(2 * cut);
        firstVoicedOffset := Some(Hundredths(2 * voiced.value));
        firstVoicedChunk := Some(chunkIndex);
      }
      started := true;
      leadingTrimmed := leadingTrimmed + trimmedNow;
    }
  }

  lemma OneChunk(chunk: Bytes)
    ensures Flatten([chunk]) == chunk
  {
    assert Flatten([chunk]) == chunk + Flatten<Byte>([]);
  }

  method TrimToFirstVoiced(cfg: Config, pcm: Bytes, first: nat) returns (trimmed: Bytes, cut: nat)
    requires HasVoice(cfg, pcm) && first == FirstVoiced(cfg, Samples(pcm))
    ensures trimmed == Opening(cfg, pcm) && trimmed != [] && cut == TrimCount(cfg, Samples(pcm))
  {
    var usable := Usable(pcm);
    SamplesUsable(pcm);
    cut := Max(0, first - cfg.preserve);
    if cut == 0 {
      return usable, 0;
    }
    SamplesDrop(usable, cut);
    trimmed := ApplyFadeIn(usable[2 * cut..], cfg.fade);
  }
}
