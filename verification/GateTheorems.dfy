/** What the voiced-first gate does to whole runs of chunks. */
module GateTheorems {
  import opened Seqs
  import opened Pcm
  import opened Ramp
  import opened VoicedFirstGate

  /** All bytes a run lets through. */
  function GateOutput(cfg: Config, g: Gate, chunks: seq<Bytes>): Bytes
    decreases |chunks|
  {
    if chunks == [] then [] else Passed(cfg, g, chunks[0]) + GateOutput(cfg, Next(cfg, g, chunks[0]), chunks[1..])
  }

  function GateEnd(cfg: Config, g: Gate, chunks: seq<Bytes>): Gate
    decreases |chunks|
  {
    if chunks == [] then g else GateEnd(cfg, Next(cfg, g, chunks[0]), chunks[1..])
  }

  /** Once open, the gate passes everything untouched. */
  lemma {:induction false} OpenGatePassesAll(cfg: Config, g: Gate, chunks: seq<Bytes>)
    requires g.started
    ensures GateOutput(cfg, g, chunks) == Flatten(chunks)
    decreases |chunks|
  {
    if chunks != [] {
      OpenGatePassesAll(cfg, Next(cfg, g, chunks[0]), chunks[1..]);
    }
  }

  /**
   `o` is what remains of `s` when an unvoiced prefix is cut: every voiced sample is there unchanged, at
   its place, and past the fade window every sample is.
   */
  ghost predicate KeepsVoice(cfg: Config, s: seq<int>, o: seq<int>) {
    var cut := |s| - |o|;
    && cut >= 0
    && (forall i :: 0 <= i < cut ==> !Voiced(cfg, s[i]))
    && (forall i :: cut <= i < |s| && (Voiced(cfg, s[i]) || cut + cfg.fade <= i) ==> o[i - cut] == s[i])
  }

  lemma KeepsAfterDrop(cfg: Config, dropped: seq<int>, s: seq<int>, o: seq<int>)
    requires KeepsVoice(cfg, s, o) && forall i :: 0 <= i < |dropped| ==> !Voiced(cfg, dropped[i])
    ensures KeepsVoice(cfg, dropped + s, o)
  {
    var all, cut := dropped + s, |dropped| + |s| - |o|;
    forall i | cut <= i < |all| && (Voiced(cfg, all[i]) || cut + cfg.fade <= i) ensures o[i - cut] == all[i] {
      assert all[i] == s[i - |dropped|];
    }
  }

  lemma KeepsBeforeRest(cfg: Config, s: seq<int>, o: seq<int>, rest: seq<int>)
    requires KeepsVoice(cfg, s, o)
    ensures KeepsVoice(cfg, s + rest, o + rest)
  {
  }

  lemma FadeLeavesTail(s: seq<int>, fade: nat, i: nat)
    requires i < |s| && fade <= i + 1
    ensures FadeIn(s, fade)[i] == s[i]
  {
    if fade == i + 1 && fade > 1 {
      ScaledBound(s[i], i, i);
    }
  }

  lemma DecodedOpening(cfg: Config, chunk: Bytes)
    ensures Samples(Opening(cfg, chunk)) == if HasVoice(cfg, chunk) then TrimmedSamples(cfg, Samples(chunk))
                                            else Samples(chunk)
    ensures |chunk| % 2 == 0 ==> |Opening(cfg, chunk)| % 2 == 0
  {
    SamplesUsable(chunk);
    if HasVoice(cfg, chunk) && TrimCount(cfg, Samples(chunk)) > 0 {
      SamplesInRange(chunk);
      TrimmedInRange(cfg, Samples(chunk));
      DecodeEncode(TrimmedSamples(cfg, Samples(chunk)));
    }
  }

  lemma TrimmingKeepsVoice(cfg: Config, s: seq<int>)
    requires cfg.fade <= cfg.preserve + 1
    ensures KeepsVoice(cfg, s, TrimmedSamples(cfg, s))
  {
    FirstVoicedMeaning(cfg, s);
    if TrimCount(cfg, s) > 0 {
      FadedTailKeepsVoice(cfg, s, TrimCount(cfg, s));
    }
  }

  lemma FadedTailKeepsVoice(cfg: Config, s: seq<int>, cut: nat)
    requires cfg.fade <= cfg.preserve + 1 && cut <= |s|
    requires forall i :: 0 <= i < |s| && i < cut + cfg.preserve ==> !Voiced(cfg, s[i])
    ensures KeepsVoice(cfg, s, FadeIn(s[cut..], cfg.fade))
  {
    forall i | cut <= i < |s| && (Voiced(cfg, s[i]) || cut + cfg.fade <= i)
      ensures FadeIn(s[cut..], cfg.fade)[i - cut] == s[i]
    {
      FadeLeavesTail(s[cut..], cfg.fade, i - cut);
    }
  }

  /**
   The samples of a run of chunks, each read for itself as the gate reads it: the odd byte of a chunk is no sample.
   */
  function Heard(chunks: seq<Bytes>): seq<int> {
    if chunks == [] then [] else Samples(chunks[0]) + Heard(chunks[1..])
  }

  /** What the gate passes for each chunk. */
  function PassedChunks(cfg: Config, g: Gate, chunks: seq<Bytes>): seq<Bytes>
    decreases |chunks|
  {
    if chunks == [] then [] else [Passed(cfg, g, chunks[0])] + PassedChunks(cfg, Next(cfg, g, chunks[0]), chunks[1..])
  }

  lemma {:induction false} OpenGateHeard(cfg: Config, g: Gate, chunks: seq<Bytes>)
    requires g.started
    ensures PassedChunks(cfg, g, chunks) == chunks
    decreases |chunks|
  {
    if chunks != [] {
      OpenGateHeard(cfg, Next(cfg, g, chunks[0]), chunks[1..]);
    }
  }

  /** The fade ends by the first voiced sample, or no chunk is ever cut, all samples or none being voiced. */
  predicate FadeFits(cfg: Config) {
    cfg.fade <= cfg.preserve + 1 || cfg.threshold <= 0 || cfg.threshold > 32768
  }

  /** In every run, whatever the chunks, voiced samples come through unchanged and in order. */
  lemma {:induction false} GateKeepsVoice(cfg: Config, g: Gate, chunks: seq<Bytes>)
    requires FadeFits(cfg)
    ensures KeepsVoice(cfg, Heard(chunks), Heard(PassedChunks(cfg, g, chunks)))
    decreases |chunks|
  {
    if g.started {
      OpenGateHeard(cfg, g, chunks);
    } else if chunks != [] {
      var head, rest, next := chunks[0], chunks[1..], Next(cfg, g, chunks[0]);
      HeardPassed(cfg, g, chunks);
      if next.started {
        OpenGateHeard(cfg, next, rest);
        OpeningKeepsVoice(cfg, head);
        KeepsBeforeRest(cfg, Samples(head), Samples(Opening(cfg, head)), Heard(rest));
      } else {
        GateKeepsVoice(cfg, next, rest);
        FirstVoicedMeaning(cfg, Samples(head));
        KeepsAfterDrop(cfg, Samples(head), Heard(rest), Heard(PassedChunks(cfg, next, rest)));
      }
    }
  }

  lemma HeardPassed(cfg: Config, g: Gate, chunks: seq<Bytes>)
    requires chunks != [] && !g.started
    ensures var head, next := chunks[0], Next(cfg, g, chunks[0]);
            var after := Heard(PassedChunks(cfg, next, chunks[1..]));
            Heard(PassedChunks(cfg, g, chunks)) == if next.started then Samples(Opening(cfg, head)) + after else after
  {
    var head, next := chunks[0], Next(cfg, g, chunks[0]);
    var after := PassedChunks(cfg, next, chunks[1..]);
    assert ([Passed(cfg, g, head)] + after)[1..] == after;
    assert [] + Heard(after) == Heard(after);
  }

  lemma OpeningKeepsVoice(cfg: Config, chunk: Bytes)
    requires FadeFits(cfg)
    ensures KeepsVoice(cfg, Samples(chunk), Samples(Opening(cfg, chunk)))
  {
    DecodedOpening(cfg, chunk);
    if cfg.threshold > 32768 {
      NothingVoiced(cfg, chunk);
    } else if cfg.threshold > 0 {
      TrimmingKeepsVoice(cfg, Samples(chunk));
    }
    WholeKeepsVoice(cfg, Samples(chunk));
  }

  lemma NothingVoiced(cfg: Config, chunk: Bytes)
    requires cfg.threshold > 32768
    ensures !HasVoice(cfg, chunk)
  {
    SamplesInRange(chunk);
    FirstVoicedMeaning(cfg, Samples(chunk));
  }

  lemma WholeKeepsVoice(cfg: Config, s: seq<int>)
    ensures KeepsVoice(cfg, s, s)
  {
  }

  lemma {:induction false} HeardWhole(chunks: seq<Bytes>)
    requires WholeSamples(chunks)
    ensures Heard(chunks) == Samples(Flatten(chunks))
  {
    if chunks != [] {
      HeardWhole(chunks[1..]);
      SamplesAppend(chunks[0], Flatten(chunks[1..]));
    }
  }

  lemma {:induction false} PassedWhole(cfg: Config, g: Gate, chunks: seq<Bytes>)
    requires WholeSamples(chunks)
    ensures WholeSamples(PassedChunks(cfg, g, chunks))
    decreases |chunks|
  {
    if chunks != [] {
      DecodedOpening(cfg, chunks[0]);
      PassedWhole(cfg, Next(cfg, g, chunks[0]), chunks[1..]);
    }
  }

  lemma {:induction false} OutputIsPassed(cfg: Config, g: Gate, chunks: seq<Bytes>)
    ensures GateOutput(cfg, g, chunks) == Flatten(PassedChunks(cfg, g, chunks))
    decreases |chunks|
  {
    if chunks != [] {
      OutputIsPassed(cfg, Next(cfg, g, chunks[0]), chunks[1..]);
    }
  }

  /** When no chunk splits a sample, that is a statement about the bytes of the stream. */
  lemma WholeStreamKeepsVoice(cfg: Config, g: Gate, chunks: seq<Bytes>)
    requires FadeFits(cfg) && WholeSamples(chunks)
    ensures |GateOutput(cfg, g, chunks)| % 2 == 0
    ensures KeepsVoice(cfg, Samples(Flatten(chunks)), Samples(GateOutput(cfg, g, chunks)))
  {
    var passed := PassedChunks(cfg, g, chunks);
    GateKeepsVoice(cfg, g, chunks);
    PassedWhole(cfg, g, chunks);
    OutputIsPassed(cfg, g, chunks);
    HeardWhole(chunks);
    HeardWhole(passed);
    WholeSamplesFlatten(passed);
  }

  lemma FadeSpoils(s: seq<int>, fade: nat, i: nat)
    requires i + 1 < fade && i + 1 < |s| && s[i] != 0
    ensures FadeIn(s, fade)[i] != s[i]
  {
    ScaledBound(s[i], i, Min(fade, |s|) - 1);
  }

  lemma LastSampleUnfaded(s: seq<int>, fade: nat)
    requires 0 < |s| <= fade
    ensures FadeIn(s, fade)[|s| - 1] == s[|s| - 1]
  {
    if |s| > 1 {
      ScaledBound(s[|s| - 1], |s| - 1, |s| - 1);
    }
  }

  lemma SpoiledSample(cfg: Config, s: seq<int>, o: seq<int>, cut: nat, i: nat)
    requires cut + i < |s| && |o| == |s| - cut && Voiced(cfg, s[cut + i]) && o[i] != s[cut + i]
    ensures !KeepsVoice(cfg, s, o)
  {
    assert o[cut + i - cut] != s[cut + i];
  }

  lemma OnlyLastVoiced(cfg: Config, s: seq<int>, o: seq<int>, cut: nat)
    requires cut < |s| && |o| == |s| - cut < cfg.fade && o[|o| - 1] == s[|s| - 1]
    requires forall i :: 0 <= i < |s| - 1 ==> !Voiced(cfg, s[i])
    ensures KeepsVoice(cfg, s, o)
  {
  }

  lemma LongFadeSpoilsFirst(cfg: Config, s: seq<int>)
    requires FirstVoiced(cfg, s) < |s|
    requires var cut := TrimCount(cfg, s); cut > 0 && cfg.fade > cfg.preserve + 1 && |s| - cut > cfg.preserve + 1
    ensures !KeepsVoice(cfg, s, TrimmedSamples(cfg, s))
  {
    var cut, i := TrimCount(cfg, s), cfg.preserve;
    var rest := s[cut..];
    FirstVoicedMeaning(cfg, s);
    assert rest[i] == s[cut + i] && Voiced(cfg, s[cut + i]);
    FadeSpoils(rest, cfg.fade, i);
    SpoiledSample(cfg, s, TrimmedSamples(cfg, s), cut, i);
  }

  lemma FadeEndsAtFirst(cfg: Config, s: seq<int>)
    requires FirstVoiced(cfg, s) < |s|
    requires var cut := TrimCount(cfg, s); cut > 0 && cfg.fade > cfg.preserve + 1 && |s| - cut <= cfg.preserve + 1
    ensures KeepsVoice(cfg, s, TrimmedSamples(cfg, s))
  {
    var cut := TrimCount(cfg, s);
    FirstVoicedMeaning(cfg, s);
    assert |s[cut..]| == |s| - cut;
    LastSampleUnfaded(s[cut..], cfg.fade);
    OnlyLastVoiced(cfg, s, FadeIn(s[cut..], cfg.fade), cut);
  }

  /**
   For one chunk: voice survives exactly when nothing is cut or the fade ends at or before the first voiced sample.
   */
  lemma TrimmingKeepsVoiceExactly(cfg: Config, s: seq<int>)
    requires FirstVoiced(cfg, s) < |s|
    ensures var cut := TrimCount(cfg, s);
            KeepsVoice(cfg, s, TrimmedSamples(cfg, s))
            <==> cut == 0 || cfg.fade <= cfg.preserve + 1 || |s| - cut <= cfg.preserve + 1
  {
    var cut := TrimCount(cfg, s);
    if cut > 0 && cfg.fade > cfg.preserve + 1 {
      if |s| - cut > cfg.preserve + 1 {
        LongFadeSpoilsFirst(cfg, s);
      } else {
        FadeEndsAtFirst(cfg, s);
      }
    } else if cut > 0 {
      TrimmingKeepsVoice(cfg, s);
    }
  }

  /** Silence, then full-scale samples. */
  function QuietThenLoud(quiet: nat, loud: nat): (s: seq<int>)
    ensures |s| == quiet + loud && IsPcm16(s)
  {
    seq(quiet + loud, i => if i < quiet then 0 else -32768)
  }

  lemma LoudStart(cfg: Config, quiet: nat, loud: nat)
    requires 0 < cfg.threshold <= 32768 && loud > 0
    ensures FirstVoiced(cfg, QuietThenLoud(quiet, loud)) == quiet
  {
    var s := QuietThenLoud(quiet, loud);
    FirstVoicedMeaning(cfg, s);
    assert !Voiced(cfg, 0) && Voiced(cfg, s[quiet]);
  }

  lemma OneChunkRun(cfg: Config, chunk: Bytes)
    requires HasVoice(cfg, chunk)
    ensures Heard([chunk]) == Samples(chunk)
    ensures Heard(PassedChunks(cfg, CLOSED, [chunk])) == TrimmedSamples(cfg, Samples(chunk))
  {
    var next := Next(cfg, CLOSED, chunk);
    assert [chunk][1..] == [] && Heard([]) == [];
    assert PassedChunks(cfg, next, []) == [];
    HeardPassed(cfg, CLOSED, [chunk]);
    DecodedOpening(cfg, chunk);
  }

  /** A chunk that loses its first voiced sample to a fade longer than the preserved window. */
  lemma LongFadeLosesVoice(cfg: Config) returns (chunk: Bytes)
    requires !FadeFits(cfg)
    ensures |chunk| % 2 == 0 && !KeepsVoice(cfg, Heard([chunk]), Heard(PassedChunks(cfg, CLOSED, [chunk])))
  {
    var s := QuietThenLoud(cfg.preserve + 1, cfg.fade);
    LoudStart(cfg, cfg.preserve + 1, cfg.fade);
    LongFadeSpoilsFirst(cfg, s);
    chunk := Encode(s);
    DecodeEncode(s);
    OneChunkRun(cfg, chunk);
  }

  /** The configuration decides it: every run keeps its voiced samples if and only if the fade fits. */
  lemma VoiceKeptExactlyWhenFadeFits(cfg: Config)
    ensures (forall chunks :: KeepsVoice(cfg, Heard(chunks), Heard(PassedChunks(cfg, CLOSED, chunks))))
            <==> FadeFits(cfg)
  {
    if FadeFits(cfg) {
      forall chunks ensures KeepsVoice(cfg, Heard(chunks), Heard(PassedChunks(cfg, CLOSED, chunks))) {
        GateKeepsVoice(cfg, CLOSED, chunks);
      }
    } else {
      var chunk := LongFadeLosesVoice(cfg);
    }
  }

  // ---- What exactly is dropped ----

  /** No sample of the chunk is as loud as the threshold. */
  ghost predicate Unvoiced(cfg: Config, chunk: Bytes) {
    forall k :: 0 <= k < |Samples(chunk)| ==> -cfg.threshold < Samples(chunk)[k] < cfg.threshold
  }

  /** How long chunks last by the recorded durations, how many are not empty, and how many of those are silent. */
  function Duration(chunks: seq<Bytes>): nat {
    if chunks == [] then 0 else Duration(chunks[..|chunks| - 1]) + Hundredths(|chunks[|chunks| - 1]|)
  }

  function NonEmpty(chunks: seq<Bytes>): nat {
    if chunks == [] then 0 else NonEmpty(chunks[..|chunks| - 1]) + if chunks[|chunks| - 1] == [] then 0 else 1
  }

  function SilentOnes(cfg: Config, chunks: seq<Bytes>): (n: nat)
    ensures n <= NonEmpty(chunks)
  {
    if chunks == [] then 0
    else SilentOnes(cfg, chunks[..|chunks| - 1]) + if IsSilent(cfg, chunks[|chunks| - 1]) then 1 else 0
  }

  predicate IsSilent(cfg: Config, chunk: Bytes) {
    chunk != [] && cfg.loudness.quiet(chunk[..|chunk| - |chunk| % 2])
  }

  /** Nothing voiced has come, and the budget is not used up. */
  ghost predicate HeldBack(cfg: Config, chunks: seq<Bytes>) {
    && (forall i :: 0 <= i < |chunks| ==> Unvoiced(cfg, chunks[i]))
    && (Duration(chunks) > 0 ==> Duration(chunks) <= cfg.budget)
  }

  /** A gate that has dropped all of them. */
  function Holding(cfg: Config, chunks: seq<Bytes>): Gate {
    var n, silent := NonEmpty(chunks), SilentOnes(cfg, chunks);
    Gate(false, n, Duration(chunks), n, silent, n - silent, None, None)
  }

  lemma VoiceMeaning(cfg: Config, chunk: Bytes)
    ensures HasVoice(cfg, chunk) <==> !Unvoiced(cfg, chunk)
    ensures Class(cfg, chunk).Silent? <==> Unvoiced(cfg, chunk) && cfg.loudness.quiet(chunk[..|chunk| - |chunk| % 2])
    ensures Class(cfg, chunk).Loud? <==> !Unvoiced(cfg, chunk) && !cfg.loudness.faint(chunk[..|chunk| - |chunk| % 2])
  {
    FirstVoicedMeaning(cfg, Samples(chunk));
  }

  lemma HeldSnoc(cfg: Config, before: seq<Bytes>, chunk: Bytes)
    ensures Duration(before + [chunk]) == Duration(before) + Hundredths(|chunk|)
    ensures NonEmpty(before + [chunk]) == NonEmpty(before) + if chunk == [] then 0 else 1
    ensures SilentOnes(cfg, before + [chunk]) == SilentOnes(cfg, before) + if IsSilent(cfg, chunk) then 1 else 0
    ensures HeldBack(cfg, before) ==>
              (HeldBack(cfg, before + [chunk])
               <==> chunk == [] || (Unvoiced(cfg, chunk) && Duration(before) + Hundredths(|chunk|) <= cfg.budget))
  {
    var all := before + [chunk];
    assert all[..|before|] == before;
    HundredthsError(|chunk|);
    assert all[|before|] == chunk && forall i :: 0 <= i < |before| ==> all[i] == before[i];
  }

  /** One more chunk that is held back, respectively the chunk that opens the gate. */
  lemma HeldNext(cfg: Config, before: seq<Bytes>, chunk: Bytes)
    requires HeldBack(cfg, before)
    ensures var g := Holding(cfg, before);
            if HeldBack(cfg, before + [chunk])
            then Passed(cfg, g, chunk) == [] && Next(cfg, g, chunk) == Holding(cfg, before + [chunk])
            else Passed(cfg, g, chunk) == Opening(cfg, chunk) && Next(cfg, g, chunk).started
  {
    HeldSnoc(cfg, before, chunk);
    VoiceMeaning(cfg, chunk);
  }

  /** As many empty chunks. */
  function Nothings(n: nat): seq<Bytes> {
    seq(n, _ => [])
  }

  lemma {:induction false} HeldRun(cfg: Config, before: seq<Bytes>, chunks: seq<Bytes>)
    requires HeldBack(cfg, before) && HeldBack(cfg, before + chunks)
    ensures GateEnd(cfg, Holding(cfg, before), chunks) == Holding(cfg, before + chunks)
    ensures PassedChunks(cfg, Holding(cfg, before), chunks) == Nothings(|chunks|)
    decreases |chunks|
  {
    if chunks == [] {
      assert before + chunks == before;
    } else {
      assert before + chunks == before + [chunks[0]] + chunks[1..];
      HeldPrefix(cfg, before + [chunks[0]], chunks[1..]);
      HeldNext(cfg, before, chunks[0]);
      HeldRun(cfg, before + [chunks[0]], chunks[1..]);
      assert Nothings(|chunks|) == [[]] + Nothings(|chunks| - 1);
    }
  }

  lemma {:induction false} HeldPrefix(cfg: Config, before: seq<Bytes>, more: seq<Bytes>)
    requires HeldBack(cfg, before + more)
    ensures HeldBack(cfg, before) && Duration(before) <= Duration(before + more)
  {
    if more == [] {
      assert before + more == before;
    } else {
      var front, last := more[..|more| - 1], more[|more| - 1];
      var all := before + more;
      assert all == (before + front) + [last];
      HeldSnoc(cfg, before + front, last);
      assert forall i :: 0 <= i < |before + front| ==> (before + front)[i] == all[i];
      HeldPrefix(cfg, before, front);
    }
  }

  /** The gate is closed exactly as long as everything is held back, and meanwhile nothing leaves and all is counted. */
  lemma ClosedExactly(cfg: Config, chunks: seq<Bytes>)
    ensures !GateEnd(cfg, CLOSED, chunks).started <==> HeldBack(cfg, chunks)
    ensures HeldBack(cfg, chunks) ==>
              && GateEnd(cfg, CLOSED, chunks) == Holding(cfg, chunks)
              && PassedChunks(cfg, CLOSED, chunks) == Nothings(|chunks|)
  {
    assert [] + chunks == chunks;
    if HeldBack(cfg, chunks) {
      HeldRun(cfg, [], chunks);
    } else {
      var n := FirstNotHeld(cfg, chunks);
      assert chunks == chunks[..n] + [chunks[n]] + chunks[n + 1..] && chunks[..n + 1] == chunks[..n] + [chunks[n]];
      OpenedEnd(cfg, chunks[..n], chunks[n], chunks[n + 1..]);
    }
  }

  lemma {:induction false} FirstNotHeld(cfg: Config, chunks: seq<Bytes>) returns (n: nat)
    requires !HeldBack(cfg, chunks)
    ensures n < |chunks| && HeldBack(cfg, chunks[..n]) && !HeldBack(cfg, chunks[..n + 1])
  {
    var front := chunks[..|chunks| - 1];
    if HeldBack(cfg, front) {
      n := |chunks| - 1;
      assert chunks[..n + 1] == chunks;
    } else {
      n := FirstNotHeld(cfg, front);
      assert front[..n] == chunks[..n] && front[..n + 1] == chunks[..n + 1];
    }
  }

  lemma {:induction false} EndAppend(cfg: Config, g: Gate, a: seq<Bytes>, b: seq<Bytes>)
    ensures GateEnd(cfg, g, a + b) == GateEnd(cfg, GateEnd(cfg, g, a), b)
    ensures PassedChunks(cfg, g, a + b) == PassedChunks(cfg, g, a) + PassedChunks(cfg, GateEnd(cfg, g, a), b)
    decreases |a|
  {
    if a == [] {
      assert a + b == b;
    } else {
      assert (a + b)[1..] == a[1..] + b;
      EndAppend(cfg, Next(cfg, g, a[0]), a[1..], b);
    }
  }

  lemma {:induction false} OpenEnd(cfg: Config, g: Gate, chunks: seq<Bytes>)
    requires g.started
    ensures GateEnd(cfg, g, chunks).started && GateEnd(cfg, g, chunks).(chunkIndex := 0) == g.(chunkIndex := 0)
    decreases |chunks|
  {
    if chunks != [] {
      OpenEnd(cfg, Next(cfg, g, chunks[0]), chunks[1..]);
    }
  }

  /** The state and the output when the first chunk that is not held back has come. */
  lemma OpenedState(cfg: Config, before: seq<Bytes>, chunk: Bytes)
    requires HeldBack(cfg, before) && !HeldBack(cfg, before + [chunk])
    ensures GateEnd(cfg, CLOSED, before + [chunk]) == Next(cfg, Holding(cfg, before), chunk)
    ensures Next(cfg, Holding(cfg, before), chunk).started
    ensures PassedChunks(cfg, CLOSED, before + [chunk]) == Nothings(|before|) + [Opening(cfg, chunk)]
  {
    var g := Holding(cfg, before);
    assert [] + before == before && [chunk][1..] == [];
    HeldRun(cfg, [], before);
    HeldNext(cfg, before, chunk);
    EndAppend(cfg, CLOSED, before, [chunk]);
    assert GateEnd(cfg, g, [chunk]) == GateEnd(cfg, Next(cfg, g, chunk), []);
    assert PassedChunks(cfg, g, [chunk]) == [Passed(cfg, g, chunk)] + PassedChunks(cfg, Next(cfg, g, chunk), []);
  }

  /** What follows passes as it is, and changes only the number of chunks seen. */
  lemma OpenedEnd(cfg: Config, before: seq<Bytes>, chunk: Bytes, rest: seq<Bytes>)
    requires HeldBack(cfg, before) && !HeldBack(cfg, before + [chunk])
    ensures PassedChunks(cfg, CLOSED, before + [chunk] + rest) == Nothings(|before|) + [Opening(cfg, chunk)] + rest
    ensures var end := GateEnd(cfg, CLOSED, before + [chunk] + rest);
            end.started && end.(chunkIndex := 0) == Next(cfg, Holding(cfg, before), chunk).(chunkIndex := 0)
  {
    OpenedState(cfg, before, chunk);
    EndAppend(cfg, CLOSED, before + [chunk], rest);
    OpenGateHeard(cfg, Next(cfg, Holding(cfg, before), chunk), rest);
    OpenEnd(cfg, Next(cfg, Holding(cfg, before), chunk), rest);
  }

  /** The position of the first sample as loud as the threshold. */
  ghost predicate FirstLoud(cfg: Config, s: seq<int>, f: nat) {
    && f < |s| && (s[f] >= cfg.threshold || s[f] <= -cfg.threshold)
    && forall i :: 0 <= i < f ==> -cfg.threshold < s[i] < cfg.threshold
  }

  /**
   What leaves of the chunk that opens the gate: without a voiced sample all of it; otherwise it is cut `preserve`
   samples before the first voiced one and the rest ramped up, or, if there is nothing to cut, kept to whole samples.
   */
  ghost predicate Opened(cfg: Config, chunk: Bytes, out: Bytes) {
    var s := Samples(chunk);
    && (Unvoiced(cfg, chunk) ==> out == chunk)
    && (forall f: nat :: FirstLoud(cfg, s, f) ==>
          if f <= cfg.preserve then out == chunk[..|chunk| - |chunk| % 2]
          else |out| == 2 * (|s| - f + cfg.preserve) && Ramped(s[f - cfg.preserve..], cfg.fade, Samples(out)))
  }

  lemma FirstLoudIs(cfg: Config, s: seq<int>, f: nat)
    requires FirstLoud(cfg, s, f)
    ensures FirstVoiced(cfg, s) == f
  {
    FirstVoicedMeaning(cfg, s);
  }

  lemma UncutOpening(cfg: Config, chunk: Bytes, f: nat)
    requires FirstVoiced(cfg, Samples(chunk)) == f < |Samples(chunk)| && f <= cfg.preserve
    ensures Opening(cfg, chunk) == chunk[..|chunk| - |chunk| % 2]
  {
  }

  lemma CutOpening(cfg: Config, chunk: Bytes, f: nat)
    requires FirstVoiced(cfg, Samples(chunk)) == f < |Samples(chunk)| && f > cfg.preserve
    ensures var s, out := Samples(chunk), Opening(cfg, chunk);
            |out| == 2 * (|s| - f + cfg.preserve) && Ramped(s[f - cfg.preserve..], cfg.fade, Samples(out))
  {
    var s := Samples(chunk);
    DecodedOpening(cfg, chunk);
    FadeRamps(s[f - cfg.preserve..], cfg.fade);
  }

  lemma OpeningMeaning(cfg: Config, chunk: Bytes)
    ensures Opened(cfg, chunk, Opening(cfg, chunk))
  {
    VoiceMeaning(cfg, chunk);
    forall f: nat | FirstLoud(cfg, Samples(chunk), f)
      ensures if f <= cfg.preserve then Opening(cfg, chunk) == chunk[..|chunk| - |chunk| % 2]
              else |Opening(cfg, chunk)| == 2 * (|Samples(chunk)| - f + cfg.preserve)
                   && Ramped(Samples(chunk)[f - cfg.preserve..], cfg.fade, Samples(Opening(cfg, chunk)))
    {
      FirstLoudIs(cfg, Samples(chunk), f);
      if f <= cfg.preserve {
        UncutOpening(cfg, chunk, f);
      } else {
        CutOpening(cfg, chunk, f);
      }
    }
  }

  /** The recorded time and the place of the first voice once the gate is open. */
  ghost predicate Recorded(cfg: Config, before: seq<Bytes>, chunk: Bytes, end: Gate) {
    var n, s := NonEmpty(before), Samples(chunk);
    && end.dropped == n && end.silentDropped == SilentOnes(cfg, before)
    && end.nearSilentDropped == n - SilentOnes(cfg, before)
    && (Unvoiced(cfg, chunk) ==>
          end.trimmed == Duration(before) && end.firstVoicedOffset == None && end.firstVoicedChunk == None)
    && (forall f: nat :: FirstLoud(cfg, s, f) ==>
          && end.trimmed == Duration(before) + Hundredths(2 * Max(0, f - cfg.preserve))
          && end.firstVoicedOffset == Some(Hundredths(2 * f)) && end.firstVoicedChunk == Some(n + 1))
  }

  lemma LoudRecorded(cfg: Config, g: Gate, chunk: Bytes, f: nat)
    requires !g.started && FirstVoiced(cfg, Samples(chunk)) == f < |Samples(chunk)|
    ensures Next(cfg, g, chunk)
            == g.(started := true, chunkIndex := g.chunkIndex + 1,
                  trimmed := g.trimmed + Hundredths(2 * Max(0, f - cfg.preserve)),
                  firstVoicedOffset := Some(Hundredths(2 * f)), firstVoicedChunk := Some(g.chunkIndex + 1))
  {
  }

  lemma QuietRecorded(cfg: Config, g: Gate, chunk: Bytes)
    requires !g.started && chunk != [] && !HasVoice(cfg, chunk) && !Drops(cfg, g, chunk)
    ensures Next(cfg, g, chunk) == g.(started := true, chunkIndex := g.chunkIndex + 1)
  {
  }

  lemma OpeningRecorded(cfg: Config, before: seq<Bytes>, chunk: Bytes)
    requires HeldBack(cfg, before) && !HeldBack(cfg, before + [chunk])
    ensures Recorded(cfg, before, chunk, Next(cfg, Holding(cfg, before), chunk))
  {
    var g := Holding(cfg, before);
    HeldSnoc(cfg, before, chunk);
    VoiceMeaning(cfg, chunk);
    if HasVoice(cfg, chunk) {
      LoudRecorded(cfg, g, chunk, FirstVoiced(cfg, Samples(chunk)));
    } else {
      QuietRecorded(cfg, g, chunk);
    }
    forall f: nat | FirstLoud(cfg, Samples(chunk), f) ensures FirstVoiced(cfg, Samples(chunk)) == f {
      FirstLoudIs(cfg, Samples(chunk), f);
    }
  }

  /**
   The whole run of a gate: chunks are dropped as long as none has a voiced sample and their recorded durations sum
   to no more than the budget; the first that breaks this opens the gate, cut and ramped; the others pass as they are.
   */
  lemma GateExactly(cfg: Config, before: seq<Bytes>, chunk: Bytes, rest: seq<Bytes>)
    requires HeldBack(cfg, before) && !HeldBack(cfg, before + [chunk])
    ensures exists out :: Opened(cfg, chunk, out)
                          && PassedChunks(cfg, CLOSED, before + [chunk] + rest) == Nothings(|before|) + [out] + rest
    ensures GateEnd(cfg, CLOSED, before + [chunk] + rest).started
    ensures Recorded(cfg, before, chunk, GateEnd(cfg, CLOSED, before + [chunk] + rest))
  {
    OpenedEnd(cfg, before, chunk, rest);
    OpeningMeaning(cfg, chunk);
    OpeningRecorded(cfg, before, chunk);
    SameRecord(cfg, before, chunk, Next(cfg, Holding(cfg, before), chunk),
               GateEnd(cfg, CLOSED, before + [chunk] + rest));
  }

  lemma SameRecord(cfg: Config, before: seq<Bytes>, chunk: Bytes, g: Gate, h: Gate)
    requires Recorded(cfg, before, chunk, g) && h.(chunkIndex := 0) == g.(chunkIndex := 0)
    ensures Recorded(cfg, before, chunk, h)
  {
  }

  /** Bytes of the chunks that were dropped whole. */
  function DroppedBytes(cfg: Config, g: Gate, chunks: seq<Bytes>): nat
    decreases |chunks|
  {
    if chunks == [] then 0
    else
      (if !g.started && chunks[0] != [] && Drops(cfg, g, chunks[0]) then |chunks[0]| else 0)
      + DroppedBytes(cfg, Next(cfg, g, chunks[0]), chunks[1..])
  }

  /** The recorded duration and the bytes behind it, for a gate that has dropped `bytes` bytes. */
  ghost predicate Accounted(cfg: Config, g: Gate, bytes: nat) {
    && 25 * bytes - 4 * g.dropped <= 8 * g.trimmed
    && (g.dropped == 0 ==> g.trimmed == bytes == 0)
    && (g.dropped > 0 ==> g.trimmed <= cfg.budget)
    && g.silentDropped + g.nearSilentDropped == g.dropped
  }

  /** Whole-chunk drops last no longer than the budget, up to the rounding of each recorded duration. */
  lemma {:induction false} DropsWithinBudget(cfg: Config, g: Gate, bytes: nat, chunks: seq<Bytes>)
    requires !g.started && Accounted(cfg, g, bytes)
    ensures var total, end := bytes + DroppedBytes(cfg, g, chunks), GateEnd(cfg, g, chunks);
            && (end.dropped > 0 ==> 25 * total <= 8 * cfg.budget + 4 * end.dropped)
            && (end.dropped == 0 ==> total == 0)
            && end.silentDropped + end.nearSilentDropped == end.dropped
    decreases |chunks|
  {
    if chunks != [] {
      var head, rest := chunks[0], chunks[1..];
      var next := Next(cfg, g, head);
      if next.started {
        OpenGateDropsNothing(cfg, next, rest);
      } else if head != [] {
        HundredthsError(|head|);
        DropsWithinBudget(cfg, next, bytes + |head|, rest);
      } else {
        DropsWithinBudget(cfg, next, bytes, rest);
      }
    }
  }

  lemma {:induction false} OpenGateDropsNothing(cfg: Config, g: Gate, chunks: seq<Bytes>)
    requires g.started
    ensures DroppedBytes(cfg, g, chunks) == 0
    ensures var end := GateEnd(cfg, g, chunks);
            end.dropped == g.dropped && end.silentDropped == g.silentDropped
            && end.nearSilentDropped == g.nearSilentDropped
    decreases |chunks|
  {
    if chunks != [] {
      OpenGateDropsNothing(cfg, Next(cfg, g, chunks[0]), chunks[1..]);
    }
  }

  /** An odd chunk that opens the gate with its first sample voiced loses its last byte. */
  lemma OddOpeningLosesAByte(cfg: Config, chunk: Bytes)
    requires HasVoice(cfg, chunk) && TrimCount(cfg, Samples(chunk)) == 0
    ensures Opening(cfg, chunk) == chunk <==> |chunk| % 2 == 0
    ensures |chunk| - 1 <= |Opening(cfg, chunk)|
  {
  }
}
