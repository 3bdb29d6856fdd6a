/**
 Pcm16RealtimeOptimizer: trims leading and trailing silence from a PCM16 stream and re-chunks it.
 `Fold`, `Pushed` and `Flushed` say on values what the class does to its buffers.
 */
module RealtimeOptimizer {
  import opened Seqs
  import opened Pcm

  /** What the constructor derives from its arguments, and the per-frame silence test. */
  datatype Config = Config(
    frameBytes: nat,
    startupTarget: nat,
    steadyTarget: nat,
    maxLeading: nat,
    keepTrailing: nat,
    silent: Bytes -> bool)
  {
    predicate Valid() {
      frameBytes > 0 && startupTarget > 0 && steadyTarget > 0
    }

    /** Every size is a whole number of 16-bit samples. */
    predicate Even() {
      frameBytes % 2 == 0 && startupTarget % 2 == 0 && steadyTarget % 2 == 0
    }
  }

  /** The constructor's arguments, in milliseconds except for the frame size; a silence frame counts as 20 ms. */
  function FromMillis(frameBytes: nat, startup: int, steady: int, maxLeading: int, keepTrailing: int,
                      silent: Bytes -> bool): Config {
    Config(frameBytes, BytesForDuration(startup as real), BytesForDuration(steady as real),
           Max(0, maxLeading / 20), Max(0, keepTrailing / 20), silent)
  }

  /** The number of whole silence frames of 20 ms in a duration. */
  predicate FramesWithin(ms: int, frames: nat) {
    if ms >= 0 then 20 * frames <= ms < 20 * (frames + 1) else frames == 0
  }

  lemma TargetMillis(ms: int)
    ensures ms > 0 ==> BytesForDuration(ms as real) == 32 * ms
    ensures ms <= 0 ==> BytesForDuration(ms as real) == 2
  {
    if ms > 0 {
      BytesForWholeMillis(ms);
    } else {
      BytesForDurationNearest(ms as real);
    }
  }

  /** Only the frame size is left to the caller to choose well: the loops would not end on empty frames. */
  lemma FromMillisValid(frameBytes: nat, startup: int, steady: int, maxLeading: int, keepTrailing: int,
                        silent: Bytes -> bool)
    ensures var cfg := FromMillis(frameBytes, startup, steady, maxLeading, keepTrailing, silent);
            && (cfg.Valid() <==> frameBytes > 0)
            && (cfg.Even() <==> frameBytes % 2 == 0)
            && (startup <= steady ==> cfg.startupTarget <= cfg.steadyTarget)
            && (startup > 0 ==> cfg.startupTarget == 32 * startup) && (startup <= 0 ==> cfg.startupTarget == 2)
            && (steady > 0 ==> cfg.steadyTarget == 32 * steady) && (steady <= 0 ==> cfg.steadyTarget == 2)
            && FramesWithin(maxLeading, cfg.maxLeading) && FramesWithin(keepTrailing, cfg.keepTrailing)
  {
    TargetMillis(startup);
    TargetMillis(steady);
    if startup <= steady {
      BytesForDurationMonotone(startup as real, steady as real);
    }
  }

  /** The output side: bytes waiting for a full chunk, and every chunk emitted so far. */
  datatype Emitter = Emitter(buffer: Bytes, chunks: seq<Bytes>)

  const SILENT_START := Emitter([], [])

  function Target(cfg: Config, emitted: nat): nat {
    if emitted == 0 then cfg.startupTarget else cfg.steadyTarget
  }

  function Append(cfg: Config, e: Emitter, frame: Bytes): Emitter
    requires cfg.Valid()
  {
    var all := e.buffer + frame;
    var n := Target(cfg, |e.chunks|);
    Emitter(Tail(all, n), e.chunks + Blocks(all, n))
  }

  function AppendAll(cfg: Config, e: Emitter, frames: seq<Bytes>): Emitter
    requires cfg.Valid()
  {
    if frames == [] then e
    else Append(cfg, AppendAll(cfg, e, frames[..|frames| - 1]), frames[|frames| - 1])
  }

  datatype State = State(
    started: bool,
    leadingDropped: nat,
    pending: seq<Bytes>,
    silentSeen: nat,
    emitter: Emitter)

  const FRESH := State(false, 0, [], 0, SILENT_START)

  function Process(cfg: Config, s: State, frame: Bytes): State
    requires cfg.Valid()
  {
    var silent := cfg.silent(frame);
    var s := s.(silentSeen := s.silentSeen + if silent then 1 else 0);
    if !s.started && silent && s.leadingDropped < cfg.maxLeading then
      s.(leadingDropped := s.leadingDropped + 1)
    else if s.started && silent then
      s.(pending := s.pending + [frame])
    else
      s.(started := s.started || !silent,
         pending := [],
         emitter := Append(cfg, AppendAll(cfg, s.emitter, s.pending), frame))
  }

  function Fold(cfg: Config, s: State, frames: seq<Bytes>): State
    requires cfg.Valid()
  {
    if frames == [] then s
    else Process(cfg, Fold(cfg, s, frames[..|frames| - 1]), frames[|frames| - 1])
  }

  /** A State and the bytes of an incomplete frame. */
  datatype Stream = Stream(state: State, carry: Bytes)

  const EMPTY_STREAM := Stream(FRESH, [])

  function Pushed(cfg: Config, s: Stream, chunk: Bytes): Stream
    requires cfg.Valid()
  {
    Stream(Fold(cfg, s.state, Blocks(s.carry + chunk, cfg.frameBytes)), Tail(s.carry + chunk, cfg.frameBytes))
  }

  lemma PushedNothing(cfg: Config, s: Stream)
    requires cfg.Valid() && |s.carry| < cfg.frameBytes
    ensures Pushed(cfg, s, []) == s
  {
    assert s.carry + [] == s.carry;
  }

  function PushAll(cfg: Config, s: Stream, chunks: seq<Bytes>): Stream
    requires cfg.Valid()
    decreases |chunks|
  {
    if chunks == [] then s else PushAll(cfg, Pushed(cfg, s, chunks[0]), chunks[1..])
  }

  function Release(e: Emitter): Emitter {
    if e.buffer == [] then e else Emitter([], e.chunks + [e.buffer])
  }

  /** The state once the padded incomplete frame, if there is one, has been processed. */
  function Settled(cfg: Config, s: Stream): State
    requires cfg.Valid()
  {
    if s.carry == [] then s.state else Process(cfg, s.state, EvenPad(s.carry))
  }

  /** How many silent frames a flush finds waiting. */
  function Held(cfg: Config, s: Stream): nat
    requires cfg.Valid()
  {
    |Settled(cfg, s).pending|
  }

  function Flushed(cfg: Config, s: Stream): State
    requires cfg.Valid()
  {
    var last := Settled(cfg, s);
    var kept := last.pending[..Min(cfg.keepTrailing, |last.pending|)];
    last.(pending := [], emitter := Release(AppendAll(cfg, last.emitter, kept)))
  }

  lemma {:induction false} FoldAppend(cfg: Config, s: State, a: seq<Bytes>, b: seq<Bytes>)
    requires cfg.Valid()
    ensures Fold(cfg, s, a + b) == Fold(cfg, Fold(cfg, s, a), b)
  {
    if b == [] {
      assert a + b == a;
    } else {
      assert (a + b)[..|a + b| - 1] == a + b[..|b| - 1];
      FoldAppend(cfg, s, a, b[..|b| - 1]);
    }
  }

  lemma {:induction false} AppendAllAppend(cfg: Config, e: Emitter, a: seq<Bytes>, b: seq<Bytes>)
    requires cfg.Valid()
    ensures AppendAll(cfg, e, a + b) == AppendAll(cfg, AppendAll(cfg, e, a), b)
  {
    if b == [] {
      assert a + b == a;
    } else {
      assert (a + b)[..|a + b| - 1] == a + b[..|b| - 1];
      AppendAllAppend(cfg, e, a, b[..|b| - 1]);
    }
  }

  /** A part of a whole, of which the original stores the quotient. */
  datatype Share = Share(part: nat, whole: nat)

  /** Leading and trailing durations are in milliseconds, the emitted one in hundredths of a millisecond. */
  datatype Telemetry = Telemetry(
    chunksIn: nat,
    chunksOut: nat,
    bytesIn: nat,
    bytesOut: nat,
    tinyChunksIn: nat,
    leadingTrimmedMs: nat,
    trailingTrimmedMs: nat,
    trailingKeptMs: nat,
    emittedHundredths: nat,
    leadingFramesDropped: nat,
    trailingFramesDropped: nat,
    trailingFramesKept: nat,
    silenceRatio: Share)

  /** Silent frames against those and the frames' worth of bytes that went out, never against none. */
  function SilenceRatio(silent: nat, bytesOut: nat, frameBytes: nat): (ratio: Share)
    ensures ratio.part == silent && ratio.part <= ratio.whole && ratio.whole > 0
    ensures silent > 0 && frameBytes > 0 ==> ratio.whole - silent == bytesOut / frameBytes
  {
    Share(silent, Max(1, silent + bytesOut / Max(1, frameBytes)))
  }

  class Pcm16RealtimeOptimizer {
    const cfg: Config
    var frameCarry: Bytes
    var emitBuffer: Bytes
    var pendingTrailing: seq<Bytes>
    var speechStarted: bool
    var chunksIn: nat
    var chunksOut: nat
    var bytesIn: nat
    var bytesOut: nat
    var tinyChunksIn: nat
    var silentSeen: nat
    var leadingDropped: nat
    var trailingDropped: nat
    var trailingKept: nat
    /** Every chunk handed to a caller, oldest first. */
    ghost var emitted: seq<Bytes>

    /** The counters agree with what was emitted. */
    ghost predicate Counted()
      reads this`chunksOut, this`bytesOut, this`emitted
    {
      && cfg.Valid()
      && chunksOut == |emitted|
      && bytesOut == |Flatten(emitted)|
    }

    /** Between calls, less than one frame is carried. */
    ghost predicate Valid()
      reads this`chunksOut, this`bytesOut, this`emitted, this`frameCarry
    {
      Counted() && |frameCarry| < cfg.frameBytes
    }

    ghost function Output(): Emitter
      reads this`emitBuffer, this`emitted
    {
      Emitter(emitBuffer, emitted)
    }

    ghost function CurrentState(): State
      reads this`emitBuffer, this`emitted
      reads this`speechStarted, this`leadingDropped, this`pendingTrailing, this`silentSeen
    {
      State(speechStarted, leadingDropped, pendingTrailing, silentSeen, Output())
    }

    ghost function Contents(): Stream
      reads this`emitBuffer, this`emitted, this`frameCarry
      reads this`speechStarted, this`leadingDropped, this`pendingTrailing, this`silentSeen
    {
      Stream(CurrentState(), frameCarry)
    }

    constructor (cfg: Config)
      requires cfg.Valid()
      ensures this.cfg == cfg && Valid() && Contents() == EMPTY_STREAM
      ensures chunksIn == bytesIn == tinyChunksIn == trailingDropped == trailingKept == 0
    {
      this.cfg := cfg;
      frameCarry, emitBuffer, pendingTrailing, speechStarted := [], [], [], false;
      chunksIn, chunksOut, bytesIn, bytesOut, tinyChunksIn := 0, 0, 0, 0, 0;
      silentSeen, leadingDropped, trailingDropped, trailingKept := 0, 0, 0, 0;
      emitted := [];
    }

    method RecordEmission(ghost chunk: Bytes, byteLength: nat)
      requires Counted() && byteLength == |chunk|
      modifies this`chunksOut, this`bytesOut, this`emitted
      ensures Counted() && emitted == old(emitted) + [chunk]
    {
      FlattenSnoc(emitted, chunk);
      chunksOut, bytesOut, emitted := chunksOut + 1, bytesOut + byteLength, emitted + [chunk];
    }

    method AppendEmitBytes(frame: Bytes) returns (pieces: seq<Bytes>)
      requires Counted()
      modifies this`emitBuffer, this`chunksOut, this`bytesOut, this`emitted
      ensures Counted() && Output() == Append(cfg, old(Output()), frame)
      ensures emitted == old(emitted) + pieces
    {
      emitBuffer := emitBuffer + frame;
      pieces := [];
      var target := if chunksOut == 0 then cfg.startupTarget else cfg.steadyTarget;
      ghost var all := emitBuffer;
      while |emitBuffer| >= target
        invariant Counted() && emitted == old(emitted) + pieces
        invariant Blocks(all, target) == pieces + Blocks(emitBuffer, target)
        invariant Tail(all, target) == Tail(emitBuffer, target)
        decreases |emitBuffer|
      {
        var chunk := emitBuffer[..target];
        Assoc(pieces, [chunk], Blocks(emitBuffer[target..], target));
        emitBuffer := emitBuffer[target..];
        pieces := pieces + [chunk];
        RecordEmission(chunk, |chunk|);
      }
      assert pieces == Blocks(all, target);
    }

    method AppendFrames(frames: seq<Bytes>) returns (pieces: seq<Bytes>)
      requires Counted()
      modifies this`emitBuffer, this`chunksOut, this`bytesOut, this`emitted
      ensures Counted() && Output() == AppendAll(cfg, old(Output()), frames)
      ensures emitted == old(emitted) + pieces
    {
      pieces := [];
      assert frames[..0] == [];
      for i := 0 to |frames|
        invariant Counted() && Output() == AppendAll(cfg, old(Output()), frames[..i])
        invariant emitted == old(emitted) + pieces
      {
        var more := AppendEmitBytes(frames[i]);
        pieces := pieces + more;
        assert frames[..i + 1][..i] == frames[..i];
      }
      assert frames[..|frames|] == frames;
    }

    method ReleaseBuffer() returns (pieces: seq<Bytes>)
      requires Counted()
      modifies this`emitBuffer, this`chunksOut, this`bytesOut, this`emitted
      ensures Counted() && Output() == Release(old(Output()))
      ensures emitted == old(emitted) + pieces
    {
      pieces := [];
      if emitBuffer != [] {
        pieces := [emitBuffer];
        RecordEmission(emitBuffer, |emitBuffer|);
        emitBuffer := [];
      }
    }

    method ProcessFrame(frame: Bytes) returns (pieces: seq<Bytes>)
      requires Counted()
      modifies this`emitBuffer, this`chunksOut, this`bytesOut, this`emitted
      modifies this`speechStarted, this`leadingDropped, this`pendingTrailing, this`silentSeen
      ensures Counted() && CurrentState() == Process(cfg, old(CurrentState()), frame)
      ensures emitted == old(emitted) + pieces
    {
      pieces := [];
      var isSilent := cfg.silent(frame);
      if isSilent {
        silentSeen := silentSeen + 1;
      }
      if !speechStarted {
        if isSilent && leadingDropped < cfg.maxLeading {
          leadingDropped := leadingDropped + 1;
          return;
        }
        if !isSilent {
          speechStarted := true;
        }
      }
      if speechStarted && isSilent {
        pendingTrailing := pendingTrailing + [frame];
        return;
      }
      if pendingTrailing != [] {
        pieces := AppendFrames(pendingTrailing);
        pendingTrailing := [];
      }
      var last := AppendEmitBytes(frame);
      Assoc(old(emitted), pieces, last);
      pieces := pieces + last;
    }

    /** Processes every complete frame that is waiting. */
    method DrainFrames() returns (out: seq<Bytes>)
      requires Counted()
      modifies this`frameCarry, this`emitBuffer, this`chunksOut, this`bytesOut, this`emitted
      modifies this`speechStarted, this`leadingDropped, this`pendingTrailing, this`silentSeen
      ensures Valid() && emitted == old(emitted) + out
      ensures CurrentState() == Fold(cfg, old(CurrentState()), Blocks(old(frameCarry), cfg.frameBytes))
      ensures frameCarry == Tail(old(frameCarry), cfg.frameBytes)
    {
      out := [];
      ghost var done: seq<Bytes> := [];
      while |frameCarry| >= cfg.frameBytes
        invariant Counted()
        invariant CurrentState() == Fold(cfg, old(CurrentState()), done)
        invariant Blocks(old(frameCarry), cfg.frameBytes) == done + Blocks(frameCarry, cfg.frameBytes)
        invariant Tail(old(frameCarry), cfg.frameBytes) == Tail(frameCarry, cfg.frameBytes)
        invariant emitted == old(emitted) + out
        decreases |frameCarry|
      {
        var frame := frameCarry[..cfg.frameBytes];
        frameCarry := frameCarry[cfg.frameBytes..];
        var pieces := ProcessFrame(frame);
        Assoc(old(emitted), out, pieces);
        Assoc(done, [frame], Blocks(frameCarry, cfg.frameBytes));
        out := out + pieces;
        assert (done + [frame])[..|done|] == done;
        done := done + [frame];
      }
      assert done == Blocks(old(frameCarry), cfg.frameBytes);
    }

    method Push(chunk: Bytes) returns (out: seq<Bytes>)
      requires Valid()
      modifies this
      ensures Valid() && Contents() == Pushed(cfg, old(Contents()), chunk)
      ensures emitted == old(emitted) + out
      ensures bytesIn == old(bytesIn) + |chunk|
      ensures chunksIn == old(chunksIn) + if chunk == [] then 0 else 1
      ensures tinyChunksIn == old(tinyChunksIn) + if 0 < |chunk| < cfg.frameBytes then 1 else 0
      ensures trailingDropped == old(trailingDropped) && trailingKept == old(trailingKept)
    {
      if chunk == [] {
        PushedNothing(cfg, Contents());
        return [];
      }
      chunksIn := chunksIn + 1;
      bytesIn := bytesIn + |chunk|;
      if |chunk| < cfg.frameBytes {
        tinyChunksIn := tinyChunksIn + 1;
      }
      out := Absorb(chunk);
    }

    method Absorb(chunk: Bytes) returns (out: seq<Bytes>)
      requires Valid()
      modifies this`frameCarry, this`emitBuffer, this`chunksOut, this`bytesOut, this`emitted
      modifies this`speechStarted, this`leadingDropped, this`pendingTrailing, this`silentSeen
      ensures Valid() && Contents() == Pushed(cfg, old(Contents()), chunk)
      ensures emitted == old(emitted) + out
    {
      frameCarry := frameCarry + chunk;
      out := DrainFrames();
    }

    /** Pads and processes the incomplete frame. */
    method SettleCarry() returns (out: seq<Bytes>)
      requires Valid()
      modifies this`frameCarry, this`emitBuffer, this`chunksOut, this`bytesOut, this`emitted
      modifies this`speechStarted, this`leadingDropped, this`pendingTrailing, this`silentSeen
      ensures Valid() && frameCarry == []
      ensures CurrentState() == Settled(cfg, old(Contents()))
      ensures emitted == old(emitted) + out
    {
      out := [];
      if frameCarry != [] {
        var padded := EvenPad(frameCarry);
        frameCarry := [];
        out := ProcessFrame(padded);
      }
    }

    function Snapshot(): Telemetry
      reads this
    {
      Telemetry(chunksIn, chunksOut, bytesIn, bytesOut, tinyChunksIn, 20 * leadingDropped, 20 * trailingDropped,
                20 * trailingKept, Hundredths(bytesOut), leadingDropped, trailingDropped, trailingKept,
                SilenceRatio(silentSeen, bytesOut, cfg.frameBytes))
    }

    /** Emits the first pending frames and discards the others. */
    method KeepTrailing() returns (out: seq<Bytes>)
      requires Counted()
      modifies this`emitBuffer, this`chunksOut, this`bytesOut, this`emitted
      modifies this`pendingTrailing, this`trailingKept, this`trailingDropped
      ensures Counted() && pendingTrailing == [] && emitted == old(emitted) + out
      ensures var held := |old(pendingTrailing)|; var kept := Min(cfg.keepTrailing, held);
              && Output() == AppendAll(cfg, old(Output()), old(pendingTrailing)[..kept])
              && trailingKept == old(trailingKept) + kept
              && trailingDropped == old(trailingDropped) + held - kept
    {
      var n := Min(cfg.keepTrailing, |pendingTrailing|);
      trailingKept := trailingKept + n;
      trailingDropped := trailingDropped + |pendingTrailing| - n;
      out := AppendFrames(pendingTrailing[..n]);
      pendingTrailing := [];
    }

    /** Empties the pending frames and the buffer. */
    method DrainPending() returns (out: seq<Bytes>)
      requires Counted()
      modifies this`emitBuffer, this`chunksOut, this`bytesOut, this`emitted
      modifies this`pendingTrailing, this`trailingKept, this`trailingDropped
      ensures Counted() && pendingTrailing == [] && emitted == old(emitted) + out
      ensures var held := |old(pendingTrailing)|; var kept := Min(cfg.keepTrailing, held);
              && Output() == Release(AppendAll(cfg, old(Output()), old(pendingTrailing)[..kept]))
              && trailingKept == old(trailingKept) + kept
              && trailingDropped == old(trailingDropped) + held - kept
    {
      var kept := KeepTrailing();
      var rest := ReleaseBuffer();
      Assoc(old(emitted), kept, rest);
      out := kept + rest;
    }

    method Finish() returns (out: seq<Bytes>)
      requires Valid()
      modifies this`frameCarry, this`emitBuffer, this`chunksOut, this`bytesOut, this`emitted
      modifies this`speechStarted, this`leadingDropped, this`pendingTrailing, this`silentSeen
      modifies this`trailingKept, this`trailingDropped
      ensures Valid() && frameCarry == []
      ensures CurrentState() == Flushed(cfg, old(Contents()))
      ensures emitted == old(emitted) + out
      ensures var held := Held(cfg, old(Contents()));
              && trailingKept == old(trailingKept) + Min(cfg.keepTrailing, held)
              && trailingDropped == old(trailingDropped) + held - Min(cfg.keepTrailing, held)
    {
      var tail := SettleCarry();
      var rest := DrainPending();
      Assoc(old(emitted), tail, rest);
      out := tail + rest;
    }

    method Flush() returns (out: seq<Bytes>, telemetry: Telemetry)
      requires Valid()
      modifies this
      ensures Valid() && frameCarry == []
      ensures CurrentState() == Flushed(cfg, old(Contents()))
      ensures emitted == old(emitted) + out
      ensures bytesIn == old(bytesIn) && chunksIn == old(chunksIn) && tinyChunksIn == old(tinyChunksIn)
      ensures var held := Held(cfg, old(Contents()));
              && trailingKept == old(trailingKept) + Min(cfg.keepTrailing, held)
              && trailingDropped == old(trailingDropped) + held - Min(cfg.keepTrailing, held)
      ensures telemetry == Snapshot()
    {
      out := Finish();
      telemetry := Snapshot();
    }
  }
}
