/**
 What the optimizer does to a whole stream: one contiguous slice of the padded input goes out, in chunks
 of predictable sizes, whatever chunks the stream came in.
 */
module OptimizerTheorems {
  import opened Seqs
  import opened Pcm
  import opened RealtimeOptimizer

  /** The frames a complete stream is analysed in: whole frames, then the padded remainder if there is one. */
  function FramesOf(cfg: Config, input: Bytes): seq<Bytes>
    requires cfg.Valid()
  {
    var rest := Tail(input, cfg.frameBytes);
    Blocks(input, cfg.frameBytes) + if rest == [] then [] else [EvenPad(rest)]
  }

  /** The length of the silent run the frames begin with. */
  function LeadRun(cfg: Config, frames: seq<Bytes>): (r: nat)
    ensures r <= |frames|
  {
    if frames == [] then 0
    else
      var n := |frames| - 1;
      var r := LeadRun(cfg, frames[..n]);
      if r == n && cfg.silent(frames[n]) then n + 1 else r
  }

  lemma {:induction false} LeadRunMeaning(cfg: Config, frames: seq<Bytes>)
    ensures var r := LeadRun(cfg, frames);
            && (forall i :: 0 <= i < r ==> cfg.silent(frames[i]))
            && (r < |frames| ==> !cfg.silent(frames[r]))
  {
    if frames != [] {
      LeadRunMeaning(cfg, frames[..|frames| - 1]);
    }
  }

  /** The length of the silent run the frames end with. */
  function TrailRun(cfg: Config, frames: seq<Bytes>): (r: nat)
    ensures r <= |frames|
  {
    if frames == [] || !cfg.silent(frames[|frames| - 1]) then 0
    else 1 + TrailRun(cfg, frames[..|frames| - 1])
  }

  lemma {:induction false} TrailRunMeaning(cfg: Config, frames: seq<Bytes>)
    ensures var r := TrailRun(cfg, frames);
            && (forall i :: |frames| - r <= i < |frames| ==> cfg.silent(frames[i]))
            && (r < |frames| ==> !cfg.silent(frames[|frames| - r - 1]))
  {
    if frames != [] && cfg.silent(frames[|frames| - 1]) {
      TrailRunMeaning(cfg, frames[..|frames| - 1]);
    }
  }

  /** Silence at the end counts as trailing only if something was said. */
  function HeldBack(cfg: Config, frames: seq<Bytes>): (n: nat)
    ensures n <= |frames|
  {
    if LeadRun(cfg, frames) < |frames| then TrailRun(cfg, frames) else 0
  }

  function FirstKept(cfg: Config, frames: seq<Bytes>): nat {
    Min(cfg.maxLeading, LeadRun(cfg, frames))
  }

  /** One past the last frame that survives. */
  function EndKept(cfg: Config, frames: seq<Bytes>): nat {
    var held := HeldBack(cfg, frames);
    |frames| - held + Min(cfg.keepTrailing, held)
  }

  function KeptFrames(cfg: Config, frames: seq<Bytes>): seq<Bytes> {
    KeptIsARange(cfg, frames);
    frames[FirstKept(cfg, frames)..EndKept(cfg, frames)]
  }

  lemma KeptIsARange(cfg: Config, frames: seq<Bytes>)
    ensures FirstKept(cfg, frames) <= |frames| - HeldBack(cfg, frames) <= EndKept(cfg, frames) <= |frames|
  {
    LeadRunMeaning(cfg, frames);
    TrailRunMeaning(cfg, frames);
  }

  /** Speech is never lost, nor is silence between two stretches of speech. */
  lemma InteriorKept(cfg: Config, frames: seq<Bytes>, i: nat, j: nat, k: nat)
    requires i <= j <= k < |frames|
    requires !cfg.silent(frames[i]) && !cfg.silent(frames[k])
    ensures FirstKept(cfg, frames) <= j < EndKept(cfg, frames)
  {
    LeadRunMeaning(cfg, frames);
    TrailRunMeaning(cfg, frames);
  }

  /** Frames before `lo` were dropped, those from `end` on are pending, and the others went to the emitter. */
  ghost predicate SplitAt(cfg: Config, frames: seq<Bytes>, s: State, lo: nat, end: nat)
    requires cfg.Valid()
  {
    && lo <= end <= |frames|
    && s.leadingDropped == lo
    && s.pending == frames[end..]
    && s.emitter == AppendAll(cfg, SILENT_START, frames[lo..end])
  }

  /** What the optimizer holds after the given whole frames. */
  ghost predicate ClosedForm(cfg: Config, frames: seq<Bytes>, s: State)
    requires cfg.Valid()
  {
    && s.started == (LeadRun(cfg, frames) < |frames|)
    && SplitAt(cfg, frames, s, FirstKept(cfg, frames), |frames| - HeldBack(cfg, frames))
  }

  lemma SilentFrameHeld(cfg: Config, front: seq<Bytes>, last: Bytes, s: State)
    requires cfg.Valid() && ClosedForm(cfg, front, s) && s.started && cfg.silent(last)
    ensures ClosedForm(cfg, front + [last], Process(cfg, s, last))
  {
    var frames := front + [last];
    assert frames[..|front|] == front;
    var lo, end := FirstKept(cfg, front), |front| - HeldBack(cfg, front);
    assert frames[end..] == front[end..] + [last];
    assert frames[lo..end] == front[lo..end];
  }

  lemma LeadingFrameDropped(cfg: Config, front: seq<Bytes>, last: Bytes, s: State)
    requires cfg.Valid() && ClosedForm(cfg, front, s)
    requires !s.started && cfg.silent(last) && s.leadingDropped < cfg.maxLeading
    ensures ClosedForm(cfg, front + [last], Process(cfg, s, last))
  {
    var frames := front + [last];
    assert frames[..|front|] == front;
    assert front[|front|..|front|] == [] == frames[|frames|..|frames|];
  }

  lemma EmittedBounds(cfg: Config, front: seq<Bytes>, last: Bytes)
    requires !cfg.silent(last) || (LeadRun(cfg, front) == |front| && FirstKept(cfg, front) >= cfg.maxLeading)
    ensures var frames := front + [last];
            && FirstKept(cfg, frames) == FirstKept(cfg, front)
            && HeldBack(cfg, frames) == 0
            && (LeadRun(cfg, frames) < |frames| <==> LeadRun(cfg, front) < |front| || !cfg.silent(last))
  {
    assert (front + [last])[..|front|] == front;
  }

  lemma AppendAllSnoc(cfg: Config, e: Emitter, front: seq<Bytes>, last: Bytes)
    requires cfg.Valid()
    ensures AppendAll(cfg, e, front + [last]) == Append(cfg, AppendAll(cfg, e, front), last)
  {
    assert (front + [last])[..|front|] == front;
  }

  lemma AppendedInOrder(cfg: Config, front: seq<Bytes>, last: Bytes, lo: nat, end: nat)
    requires cfg.Valid() && lo <= end <= |front|
    ensures var frames := front + [last];
            Append(cfg, AppendAll(cfg, AppendAll(cfg, SILENT_START, front[lo..end]), front[end..]), last)
            == AppendAll(cfg, SILENT_START, frames[lo..|frames|])
  {
    AppendAllAppend(cfg, SILENT_START, front[lo..end], front[end..]);
    assert front[lo..end] + front[end..] == front[lo..];
    SliceSnoc(front, last, lo);
    AppendAllSnoc(cfg, SILENT_START, front[lo..], last);
  }

  lemma FrameEmitted(cfg: Config, front: seq<Bytes>, last: Bytes, s: State)
    requires cfg.Valid() && ClosedForm(cfg, front, s)
    requires !cfg.silent(last) || (!s.started && s.leadingDropped >= cfg.maxLeading)
    ensures ClosedForm(cfg, front + [last], Process(cfg, s, last))
  {
    var frames := front + [last];
    EmittedBounds(cfg, front, last);
    AppendedInOrder(cfg, front, last, FirstKept(cfg, front), |front| - HeldBack(cfg, front));
    assert frames[|frames|..] == [];
  }

  lemma {:induction false} FoldClosedForm(cfg: Config, frames: seq<Bytes>)
    requires cfg.Valid()
    ensures ClosedForm(cfg, frames, Fold(cfg, FRESH, frames))
  {
    if frames == [] {
      assert frames[0..0] == [];
    } else {
      var n := |frames| - 1;
      var s := Fold(cfg, FRESH, frames[..n]);
      FoldClosedForm(cfg, frames[..n]);
      assert frames == frames[..n] + [frames[n]];
      if s.started && cfg.silent(frames[n]) {
        SilentFrameHeld(cfg, frames[..n], frames[n], s);
      } else if cfg.silent(frames[n]) && s.leadingDropped < cfg.maxLeading {
        LeadingFrameDropped(cfg, frames[..n], frames[n], s);
      } else {
        FrameEmitted(cfg, frames[..n], frames[n], s);
      }
    }
  }

  /** The counter of silent frames counts them all, wherever they went. */
  lemma {:induction false} SilentFramesCounted(cfg: Config, frames: seq<Bytes>)
    requires cfg.Valid()
    ensures Fold(cfg, FRESH, frames).silentSeen == |SilentFrames(cfg, frames)|
  {
    if frames != [] {
      var n := |frames| - 1;
      SilentFramesCounted(cfg, frames[..n]);
      assert n !in SilentFrames(cfg, frames[..n]);
      assert SilentFrames(cfg, frames) == SilentFrames(cfg, frames[..n]) + if cfg.silent(frames[n]) then {n} else {};
    }
  }

  /** The positions of silent frames. */
  function SilentFrames(cfg: Config, frames: seq<Bytes>): set<nat> {
    set i: nat | 0 <= i < |frames| && cfg.silent(frames[i])
  }

  /** Two pushes do what one push of both chunks does. */
  lemma PushedTwice(cfg: Config, s: Stream, a: Bytes, b: Bytes)
    requires cfg.Valid()
    ensures Pushed(cfg, Pushed(cfg, s, a), b) == Pushed(cfg, s, a + b)
  {
    var n := cfg.frameBytes;
    assert s.carry + (a + b) == s.carry + a + b;
    BlocksAppend(s.carry + a, b, n);
    FoldAppend(cfg, s.state, Blocks(s.carry + a, n), Blocks(Tail(s.carry + a, n) + b, n));
  }

  /** How the bytes were split over calls to push leaves no trace in the stream's state. */
  lemma {:induction false} PushBoundariesVanish(cfg: Config, s: Stream, chunks: seq<Bytes>)
    requires cfg.Valid() && |s.carry| < cfg.frameBytes
    ensures PushAll(cfg, s, chunks) == Pushed(cfg, s, Flatten(chunks))
    decreases |chunks|
  {
    if chunks == [] {
      assert s.carry + Flatten(chunks) == s.carry;
    } else {
      var t := Pushed(cfg, s, chunks[0]);
      BlocksPartition(s.carry + chunks[0], cfg.frameBytes);
      PushBoundariesVanish(cfg, t, chunks[1..]);
      PushedTwice(cfg, s, chunks[0], Flatten(chunks[1..]));
    }
  }

  /** Everything the optimizer emits for a stream that is pushed and then flushed once. */
  function Shaped(cfg: Config, chunks: seq<Bytes>): seq<Bytes>
    requires cfg.Valid()
  {
    Flushed(cfg, PushAll(cfg, EMPTY_STREAM, chunks)).emitter.chunks
  }

  /** Settling the carry completes the fold over all frames. */
  lemma SettledIsFold(cfg: Config, input: Bytes)
    requires cfg.Valid()
    ensures Settled(cfg, Pushed(cfg, EMPTY_STREAM, input)) == Fold(cfg, FRESH, FramesOf(cfg, input))
  {
    assert [] + input == input;
    var whole, frames := Blocks(input, cfg.frameBytes), FramesOf(cfg, input);
    if Tail(input, cfg.frameBytes) == [] {
      assert frames == whole;
    } else {
      assert frames[..|frames| - 1] == whole;
    }
  }

  lemma KeptFromPending(cfg: Config, frames: seq<Bytes>, s: State, lo: nat, end: nat, hi: nat)
    requires cfg.Valid() && SplitAt(cfg, frames, s, lo, end) && end <= hi <= |frames|
    ensures AppendAll(cfg, s.emitter, s.pending[..hi - end]) == AppendAll(cfg, SILENT_START, frames[lo..hi])
  {
    SliceJoin(frames, lo, end, hi);
    AppendAllAppend(cfg, SILENT_START, frames[lo..end], frames[end..hi]);
  }

  /** Of the frames held back, flushing emits the first few. */
  lemma FlushedByKeptFrames(cfg: Config, frames: seq<Bytes>, s: State)
    requires cfg.Valid() && ClosedForm(cfg, frames, s)
    ensures AppendAll(cfg, s.emitter, s.pending[..Min(cfg.keepTrailing, |s.pending|)])
            == AppendAll(cfg, SILENT_START, KeptFrames(cfg, frames))
  {
    KeptIsARange(cfg, frames);
    KeptFromPending(cfg, frames, s, FirstKept(cfg, frames), |frames| - HeldBack(cfg, frames), EndKept(cfg, frames));
  }

  /** The emitted chunks are those of the kept frames, and depend on the bytes pushed alone. */
  lemma ShapedByKeptFrames(cfg: Config, chunks: seq<Bytes>)
    requires cfg.Valid()
    ensures var kept := KeptFrames(cfg, FramesOf(cfg, Flatten(chunks)));
            Shaped(cfg, chunks) == Release(AppendAll(cfg, SILENT_START, kept)).chunks
  {
    var frames := FramesOf(cfg, Flatten(chunks));
    PushBoundariesVanish(cfg, EMPTY_STREAM, chunks);
    SettledIsFold(cfg, Flatten(chunks));
    FoldClosedForm(cfg, frames);
    FlushedByKeptFrames(cfg, frames, Fold(cfg, FRESH, frames));
  }

  /** Chunk-boundary independence: the same bytes give the same chunks, however they arrive. */
  lemma SameBytesSameChunks(cfg: Config, chunks: seq<Bytes>, others: seq<Bytes>)
    requires cfg.Valid() && Flatten(chunks) == Flatten(others)
    ensures Shaped(cfg, chunks) == Shaped(cfg, others)
  {
    ShapedByKeptFrames(cfg, chunks);
    ShapedByKeptFrames(cfg, others);
  }

  lemma AppendedBytes(cfg: Config, e: Emitter, frame: Bytes)
    requires cfg.Valid()
    ensures var r := Append(cfg, e, frame); Flatten(r.chunks) + r.buffer == Flatten(e.chunks) + e.buffer + frame
  {
    var n, all := Target(cfg, |e.chunks|), e.buffer + frame;
    assert Flatten(Blocks(all, n)) + Tail(all, n) == all by { BlocksPartition(all, n); }
    FlattenAppend(e.chunks, Blocks(all, n));
    Assoc(Flatten(e.chunks), Flatten(Blocks(all, n)), Tail(all, n));
    Assoc(Flatten(e.chunks), e.buffer, frame);
  }

  /** Appending neither loses nor reorders bytes. */
  lemma {:induction false} AppendAllBytes(cfg: Config, e: Emitter, frames: seq<Bytes>)
    requires cfg.Valid()
    ensures var r := AppendAll(cfg, e, frames);
            Flatten(r.chunks) + r.buffer == Flatten(e.chunks) + e.buffer + Flatten(frames)
  {
    if frames == [] {
      assert e.buffer + Flatten(frames) == e.buffer;
    } else {
      var front, last := frames[..|frames| - 1], frames[|frames| - 1];
      var r := AppendAll(cfg, e, front);
      AppendAllBytes(cfg, e, front);
      assert frames == front + [last];
      FlattenSnoc(front, last);
      AppendedBytes(cfg, r, last);
    }
  }

  lemma EmittedBytes(cfg: Config, frames: seq<Bytes>)
    requires cfg.Valid()
    ensures var r := AppendAll(cfg, SILENT_START, frames); Flatten(r.chunks) + r.buffer == Flatten(frames)
  {
    AppendAllBytes(cfg, SILENT_START, frames);
    assert Flatten<Byte>([]) + [] + Flatten(frames) == Flatten(frames);
  }

  function PaddedInput(cfg: Config, input: Bytes): Bytes
    requires cfg.Valid()
  {
    Flatten(FramesOf(cfg, input))
  }

  /** With a whole number of samples per frame, the padding is one zero byte after an odd stream. */
  lemma PaddedInputIsEvenPad(cfg: Config, input: Bytes)
    requires cfg.Valid() && cfg.frameBytes % 2 == 0
    ensures PaddedInput(cfg, input) == EvenPad(input)
  {
    var blocks, rest := Blocks(input, cfg.frameBytes), Tail(input, cfg.frameBytes);
    PaddedTail(input, cfg.frameBytes);
    if rest == [] {
      assert blocks + [] == blocks;
      assert Flatten(blocks) + EvenPad(rest) == Flatten(blocks);
    } else {
      FlattenSnoc(blocks, EvenPad(rest));
    }
  }

  lemma PaddedTail(input: Bytes, n: nat)
    requires n > 0 && n % 2 == 0
    ensures EvenPad(input) == Flatten(Blocks(input, n)) + EvenPad(Tail(input, n))
  {
    BlocksPartition(input, n);
    TailParity(input, n);
    EvenPadAppend(Flatten(Blocks(input, n)), Tail(input, n));
  }

  /** The whole output is one slice of the padded input; only silent frames lie outside it. */
  lemma OutputIsOneSlice(cfg: Config, chunks: seq<Bytes>)
    requires cfg.Valid()
    ensures var input := Flatten(chunks); var frames := FramesOf(cfg, input);
            var lo, hi := FirstKept(cfg, frames), EndKept(cfg, frames);
            && lo <= hi <= |frames|
            && |Flatten(frames[..lo])| <= |Flatten(frames[..hi])| <= |PaddedInput(cfg, input)|
            && Flatten(Shaped(cfg, chunks))
               == PaddedInput(cfg, input)[|Flatten(frames[..lo])|..|Flatten(frames[..hi])|]
            && forall j :: 0 <= j < |frames| && !(lo <= j < hi) ==> cfg.silent(frames[j])
  {
    var frames := FramesOf(cfg, Flatten(chunks));
    ShapedByKeptFrames(cfg, chunks);
    KeptIsARange(cfg, frames);
    var kept := KeptFrames(cfg, frames);
    var r := AppendAll(cfg, SILENT_START, kept);
    EmittedBytes(cfg, kept);
    if r.buffer != [] {
      FlattenSnoc(r.chunks, r.buffer);
    }
    FlattenSlice(frames, FirstKept(cfg, frames), EndKept(cfg, frames));
    forall j | 0 <= j < |frames| && !(FirstKept(cfg, frames) <= j < EndKept(cfg, frames))
      ensures cfg.silent(frames[j])
    {
      if !cfg.silent(frames[j]) { InteriorKept(cfg, frames, j, j, j); }
    }
  }

  /** Before a flush every byte pushed is accounted for: emitted, buffered, carried, pending or dropped. */
  lemma BytesConserved(cfg: Config, chunks: seq<Bytes>)
    requires cfg.Valid()
    ensures var s := PushAll(cfg, EMPTY_STREAM, chunks);
            |Flatten(chunks)| == |Flatten(s.state.emitter.chunks)| + |s.state.emitter.buffer| + |s.carry|
                                 + cfg.frameBytes * (|s.state.pending| + s.state.leadingDropped)
  {
    var s, n := PushAll(cfg, EMPTY_STREAM, chunks), cfg.frameBytes;
    var lo, end := UnflushedState(cfg, chunks);
    StreamConserved(cfg, Flatten(chunks), s, lo, end);
    TimesIsProduct(n, |s.state.pending| + s.state.leadingDropped);
  }

  lemma StreamConserved(cfg: Config, input: Bytes, s: Stream, lo: nat, end: nat)
    requires cfg.Valid() && s.carry == Tail(input, cfg.frameBytes)
    requires SplitAt(cfg, Blocks(input, cfg.frameBytes), s.state, lo, end)
    ensures |input| == |Flatten(s.state.emitter.chunks)| + |s.state.emitter.buffer| + |s.carry|
                       + Times(cfg.frameBytes, |s.state.pending| + s.state.leadingDropped)
  {
    FramesConserved(cfg, Blocks(input, cfg.frameBytes), s.state, lo, end) by {
      BlocksPartition(input, cfg.frameBytes);
    }
    BlocksLength(input, cfg.frameBytes);
  }

  lemma UnflushedState(cfg: Config, chunks: seq<Bytes>) returns (lo: nat, end: nat)
    requires cfg.Valid()
    ensures var s := PushAll(cfg, EMPTY_STREAM, chunks); var input := Flatten(chunks);
            s.carry == Tail(input, cfg.frameBytes) && SplitAt(cfg, Blocks(input, cfg.frameBytes), s.state, lo, end)
  {
    PushBoundariesVanish(cfg, EMPTY_STREAM, chunks);
    assert [] + Flatten(chunks) == Flatten(chunks);
    var frames := Blocks(Flatten(chunks), cfg.frameBytes);
    FoldClosedForm(cfg, frames);
    lo, end := FirstKept(cfg, frames), |frames| - HeldBack(cfg, frames);
  }

  lemma BlocksLength(input: Bytes, n: nat)
    requires n > 0
    ensures |input| == |Flatten(Blocks(input, n))| + |Tail(input, n)|
  {
    BlocksPartition(input, n);
    assert |Flatten(Blocks(input, n)) + Tail(input, n)| == |input|;
  }

  lemma FramesConserved(cfg: Config, frames: seq<Bytes>, s: State, lo: nat, end: nat)
    requires cfg.Valid() && SplitAt(cfg, frames, s, lo, end) && AllLong(frames, cfg.frameBytes)
    ensures |Flatten(frames)| == |Flatten(s.emitter.chunks)| + |s.emitter.buffer|
                                 + Times(cfg.frameBytes, |s.pending| + s.leadingDropped)
  {
    EmittedLength(cfg, frames[lo..end], s.emitter);
    assert |s.pending| + s.leadingDropped == |frames| - (end - lo);
    UniformSplit(frames, cfg.frameBytes, end - lo, |s.pending| + s.leadingDropped);
  }

  predicate AllLong(frames: seq<Bytes>, n: nat) {
    forall f <- frames :: |f| == n
  }

  lemma EmittedLength(cfg: Config, frames: seq<Bytes>, e: Emitter)
    requires cfg.Valid() && AllLong(frames, cfg.frameBytes) && e == AppendAll(cfg, SILENT_START, frames)
    ensures |Flatten(e.chunks)| + |e.buffer| == Times(cfg.frameBytes, |frames|)
  {
    EmittedBytes(cfg, frames);
    FlattenUniform(frames, cfg.frameBytes);
  }

  lemma UniformSplit(frames: seq<Bytes>, n: nat, a: nat, b: nat)
    requires AllLong(frames, n) && |frames| == a + b
    ensures |Flatten(frames)| == Times(n, a) + Times(n, b)
  {
    FlattenUniform(frames, n);
    TimesAdd(n, a, b);
  }

  /** How many chunks the append that emits first cuts; only these have the startup size. */
  function StartupCut(cfg: Config, frames: seq<Bytes>): nat
    requires cfg.Valid()
  {
    if frames == [] then 0
    else
      var earlier := StartupCut(cfg, frames[..|frames| - 1]);
      if earlier > 0 then earlier else |Blocks(Flatten(frames), cfg.startupTarget)|
  }

  function ChunkSize(cfg: Config, cut: nat, i: nat): nat {
    if i < cut then cfg.startupTarget else cfg.steadyTarget
  }

  /** Chunks come in two sizes, in order, and the buffer never reaches the current target. */
  ghost predicate WellCut(cfg: Config, frames: seq<Bytes>, e: Emitter)
    requires cfg.Valid()
  {
    var cut := StartupCut(cfg, frames);
    && cut <= |e.chunks|
    && (cut == 0 <==> e.chunks == [])
    && (forall i :: 0 <= i < |e.chunks| ==> |e.chunks[i]| == ChunkSize(cfg, cut, i))
    && (e.chunks == [] ==> e.buffer == Flatten(frames) && |e.buffer| < cfg.startupTarget)
    && (e.chunks != [] ==> |e.buffer| < cfg.startupTarget || |e.buffer| < cfg.steadyTarget)
  }

  lemma WellCutStep(cfg: Config, front: seq<Bytes>, last: Bytes, e: Emitter)
    requires cfg.Valid() && WellCut(cfg, front, e)
    ensures WellCut(cfg, front + [last], Append(cfg, e, last))
  {
    var frames, all, n := front + [last], e.buffer + last, Target(cfg, |e.chunks|);
    assert frames[..|front|] == front;
    BlocksPartition(all, n);
    if e.chunks == [] {
      FlattenSnoc(front, last);
    }
  }

  lemma {:induction false} ChunksWellCut(cfg: Config, frames: seq<Bytes>)
    requires cfg.Valid()
    ensures WellCut(cfg, frames, AppendAll(cfg, SILENT_START, frames))
  {
    if frames != [] {
      var n := |frames| - 1;
      ChunksWellCut(cfg, frames[..n]);
      WellCutStep(cfg, frames[..n], frames[n], AppendAll(cfg, SILENT_START, frames[..n]));
      assert frames == frames[..n] + [frames[n]];
    }
  }

  /** A frame no longer than the startup target cuts at most one startup chunk. */
  lemma {:induction false} SingleStartupChunk(cfg: Config, frames: seq<Bytes>)
    requires cfg.Valid() && forall f <- frames :: |f| <= cfg.startupTarget
    ensures StartupCut(cfg, frames) <= 1
    ensures StartupCut(cfg, frames) == 0 ==> |Flatten(frames)| < cfg.startupTarget
  {
    if frames != [] {
      var n := |frames| - 1;
      SingleStartupChunk(cfg, frames[..n]);
      if StartupCut(cfg, frames[..n]) == 0 {
        OneMoreFrame(cfg, frames[..n], frames[n]);
        assert frames == frames[..n] + [frames[n]];
      }
    }
  }

  lemma OneMoreFrame(cfg: Config, front: seq<Bytes>, last: Bytes)
    requires cfg.Valid() && |Flatten(front)| < cfg.startupTarget && |last| <= cfg.startupTarget
    ensures var blocks := Blocks(Flatten(front + [last]), cfg.startupTarget);
            |blocks| <= 1 && (blocks == [] ==> |Flatten(front + [last])| < cfg.startupTarget)
  {
    LengthSnoc(front, last);
    AtMostOneBlock(Flatten(front + [last]), cfg.startupTarget);
  }

  lemma LengthSnoc(front: seq<Bytes>, last: Bytes)
    ensures |Flatten(front + [last])| == |Flatten(front)| + |last|
  {
    FlattenSnoc(front, last);
  }

  lemma AtMostOneBlock<T>(s: seq<T>, n: nat)
    requires n > 0 && |s| < 2 * n
    ensures |Blocks(s, n)| <= 1 && (Blocks(s, n) == [] ==> |s| < n)
  {
  }

  /** Startup-sized chunks first, then steady ones; only the last may be shorter, and it is not empty. */
  ghost predicate WellSized(cfg: Config, cut: nat, out: seq<Bytes>) {
    && (forall i :: 0 <= i < |out| - 1 ==> |out[i]| == ChunkSize(cfg, cut, i))
    && (out != [] ==> 0 < |out[|out| - 1]| <= ChunkSize(cfg, cut, |out| - 1))
  }

  /** How many startup-sized chunks a stream is given. */
  function StartupChunks(cfg: Config, chunks: seq<Bytes>): nat
    requires cfg.Valid()
  {
    StartupCut(cfg, KeptFrames(cfg, FramesOf(cfg, Flatten(chunks))))
  }

  lemma EmittedSizes(cfg: Config, chunks: seq<Bytes>)
    requires cfg.Valid() && cfg.startupTarget <= cfg.steadyTarget
    ensures WellSized(cfg, StartupChunks(cfg, chunks), Shaped(cfg, chunks))
  {
    ShapedByKeptFrames(cfg, chunks);
    ReleasedSizes(cfg, KeptFrames(cfg, FramesOf(cfg, Flatten(chunks))));
  }

  lemma ReleasedSizes(cfg: Config, frames: seq<Bytes>)
    requires cfg.Valid() && cfg.startupTarget <= cfg.steadyTarget
    ensures WellSized(cfg, StartupCut(cfg, frames), Release(AppendAll(cfg, SILENT_START, frames)).chunks)
  {
    ChunksWellCut(cfg, frames);
  }

  /** One startup chunk at most, unless an analysis frame alone exceeds the startup target. */
  lemma AtMostOneStartupChunk(cfg: Config, chunks: seq<Bytes>)
    requires cfg.Valid() && cfg.frameBytes <= cfg.startupTarget
    ensures StartupChunks(cfg, chunks) <= 1
  {
    var frames := FramesOf(cfg, Flatten(chunks));
    BlocksPartition(Flatten(chunks), cfg.frameBytes);
    KeptIsARange(cfg, frames);
    SingleStartupChunk(cfg, KeptFrames(cfg, frames));
  }

  lemma FramesAreEven(cfg: Config, input: Bytes)
    requires cfg.Valid() && cfg.Even()
    ensures WholeSamples(FramesOf(cfg, input))
  {
    BlocksPartition(input, cfg.frameBytes);
  }

  /** With even sizes no chunk, not even the last, splits a sample. */
  lemma EmittedSamplesWhole(cfg: Config, chunks: seq<Bytes>)
    requires cfg.Valid() && cfg.Even()
    ensures WholeSamples(Shaped(cfg, chunks))
  {
    var frames := FramesOf(cfg, Flatten(chunks));
    ShapedByKeptFrames(cfg, chunks);
    FramesAreEven(cfg, Flatten(chunks));
    KeptIsARange(cfg, frames);
    AppendAllEven(cfg, KeptFrames(cfg, frames));
  }

  lemma AppendEven(cfg: Config, e: Emitter, frame: Bytes)
    requires cfg.Valid() && cfg.Even() && |frame| % 2 == 0 && |e.buffer| % 2 == 0 && WholeSamples(e.chunks)
    ensures var r := Append(cfg, e, frame); |r.buffer| % 2 == 0 && WholeSamples(r.chunks)
  {
    var all, target := e.buffer + frame, Target(cfg, |e.chunks|);
    BlocksPartition(all, target);
    TailParity(all, target);
  }

  lemma {:induction false} AppendAllEven(cfg: Config, frames: seq<Bytes>)
    requires cfg.Valid() && cfg.Even() && WholeSamples(frames)
    ensures var e := AppendAll(cfg, SILENT_START, frames); |e.buffer| % 2 == 0 && WholeSamples(e.chunks)
  {
    if frames != [] {
      var n := |frames| - 1;
      AppendAllEven(cfg, frames[..n]);
      AppendEven(cfg, AppendAll(cfg, SILENT_START, frames[..n]), frames[n]);
    }
  }

  /** A caller's use of the optimizer: one object per utterance, pushed to and then flushed once. */
  method ShapeUtterance(cfg: Config, chunks: seq<Bytes>) returns (out: seq<Bytes>, telemetry: Telemetry)
    requires cfg.Valid()
    ensures out == Shaped(cfg, chunks)
    ensures telemetry.bytesIn == |Flatten(chunks)| && telemetry.bytesOut == |Flatten(out)|
    ensures telemetry.chunksOut == |out|
    ensures var frames := FramesOf(cfg, Flatten(chunks));
            && telemetry.leadingFramesDropped == FirstKept(cfg, frames)
            && telemetry.trailingFramesKept + telemetry.trailingFramesDropped == HeldBack(cfg, frames)
            && telemetry.trailingFramesKept == Min(cfg.keepTrailing, HeldBack(cfg, frames))
            && telemetry.leadingTrimmedMs == 20 * telemetry.leadingFramesDropped
            && telemetry.trailingTrimmedMs == 20 * telemetry.trailingFramesDropped
            && telemetry.trailingKeptMs == 20 * telemetry.trailingFramesKept
            && telemetry.emittedHundredths == Hundredths(|Flatten(out)|)
            && telemetry.silenceRatio.part == |SilentFrames(cfg, frames)|
            && telemetry.silenceRatio.whole == Max(1, |SilentFrames(cfg, frames)| + |Flatten(out)| / cfg.frameBytes)
  {
    var optimizer := new Pcm16RealtimeOptimizer(cfg);
    out := [];
    assert chunks[..0] == [];
    for i := 0 to |chunks|
      invariant fresh(optimizer) && optimizer.cfg == cfg && optimizer.Valid()
      invariant optimizer.emitted == out && optimizer.bytesIn == |Flatten(chunks[..i])|
      invariant optimizer.trailingDropped == optimizer.trailingKept == 0
      invariant PushAll(cfg, EMPTY_STREAM, chunks) == PushAll(cfg, optimizer.Contents(), chunks[i..])
    {
      assert chunks[i..][0] == chunks[i] && chunks[i..][1..] == chunks[i + 1..];
      assert chunks[..i + 1] == chunks[..i] + [chunks[i]];
      FlattenSnoc(chunks[..i], chunks[i]);
      var pieces := optimizer.Push(chunks[i]);
      out := out + pieces;
    }
    assert chunks[..|chunks|] == chunks && chunks[|chunks|..] == [];
    var tail;
    tail, telemetry := optimizer.Flush();
    out := out + tail;
    PushBoundariesVanish(cfg, EMPTY_STREAM, chunks);
    SettledIsFold(cfg, Flatten(chunks));
    FoldClosedForm(cfg, FramesOf(cfg, Flatten(chunks)));
    SilentFramesCounted(cfg, FramesOf(cfg, Flatten(chunks)));
  }
}
