/** The incremental JSON-Lines framer (core/wire/src/codec.rs). */
module Codec {
  import opened Base
  import M = Multiplexing

  newtype byte = x: int | 0 <= x < 256

  type Bytes = seq<byte>

  const LF: byte := 10

  /** UTF-8 and JSON validity, as the libraries judge them. */
  datatype Judges = Judges(utf8: Bytes -> bool, json: Bytes -> bool)

  /** `decode_frame`; the frame's text is its bytes. */
  function Fault(j: Judges, frame: Bytes): Option<M.Kind> {
    if !j.utf8(frame) then Some(M.NonUtf8) else if !j.json(frame) then Some(M.NotJson) else None
  }

  // ----- the byte-at-a-time machine ------------------------------------------------------

  datatype Decoder = Decoder(frames: seq<Bytes>, buf: Bytes, violation: Option<M.Kind>)

  const NEW: Decoder := Decoder([], [], None)

  function FeedByte(j: Judges, d: Decoder, b: byte): Decoder {
    if d.violation.Some? then d
    else if b == LF then
      var fault := Fault(j, d.buf);
      if fault.None? then Decoder(d.frames + [d.buf], [], None) else d.(violation := fault)
    else
      var buf := d.buf + [b];
      Decoder(d.frames, buf, if |buf| > MAX_FRAME_BYTES then Some(M.OversizeFrame) else None)
  }

  function Feed(j: Judges, d: Decoder, bytes: Bytes): Decoder {
    if bytes == [] then d else FeedByte(j, Feed(j, d, bytes[..|bytes| - 1]), bytes[|bytes| - 1])
  }

  // ----- the specification ---------------------------------------------------------------

  /** Where the first line ends: its LF, or the end of the input. */
  function LineEnd(input: Bytes): (n: nat)
    ensures n <= |input| && (n < |input| ==> input[n] == LF)
    ensures forall i :: 0 <= i < n ==> input[i] != LF
  {
    if input == [] || input[0] == LF then 0 else 1 + LineEnd(input[1..])
  }

  /** Split on LF, and stop at the first bad or oversize line. */
  function Lines(j: Judges, input: Bytes): Decoder
    decreases |input|
  {
    var n := LineEnd(input);
    if n > MAX_FRAME_BYTES then Decoder([], input[..MAX_FRAME_BYTES + 1], Some(M.OversizeFrame))
    else if n == |input| then Decoder([], input, None)
    else
      var fault := Fault(j, input[..n]);
      if fault.Some? then Decoder([], input[..n], fault)
      else
        var rest := Lines(j, input[n + 1..]);
        Decoder([input[..n]] + rest.frames, rest.buf, rest.violation)
  }

  // ----- split-invariance ----------------------------------------------------------------

  lemma {:induction false} FeedConcat(j: Judges, d: Decoder, a: Bytes, b: Bytes)
    ensures Feed(j, d, a + b) == Feed(j, Feed(j, d, a), b)
  {
    if b == [] {
      assert a + b == a;
    } else {
      FeedConcat(j, d, a, b[..|b| - 1]);
      assert (a + b)[..|a + b| - 1] == a + b[..|b| - 1];
    }
  }

  function FeedChunks(j: Judges, d: Decoder, chunks: seq<Bytes>): Decoder {
    if chunks == [] then d else Feed(j, FeedChunks(j, d, chunks[..|chunks| - 1]), chunks[|chunks| - 1])
  }

  function Flatten(chunks: seq<Bytes>): Bytes {
    if chunks == [] then [] else Flatten(chunks[..|chunks| - 1]) + chunks[|chunks| - 1]
  }

  lemma {:induction false} ChunkingIsIrrelevant(j: Judges, d: Decoder, chunks: seq<Bytes>)
    ensures FeedChunks(j, d, chunks) == Feed(j, d, Flatten(chunks))
  {
    if chunks != [] {
      var front, last := chunks[..|chunks| - 1], chunks[|chunks| - 1];
      ChunkingIsIrrelevant(j, d, front);
      FeedConcat(j, d, Flatten(front), last);
    }
  }

  // ----- the machine computes the specification ------------------------------------------

  lemma {:induction false} FinishedStays(j: Judges, d: Decoder, bytes: Bytes)
    requires d.violation.Some?
    ensures Feed(j, d, bytes) == d
  {
    if bytes != [] { FinishedStays(j, d, bytes[..|bytes| - 1]); }
  }

  lemma {:induction false} FeedLine(j: Judges, frames: seq<Bytes>, line: Bytes)
    requires forall i :: 0 <= i < |line| ==> line[i] != LF
    ensures Feed(j, Decoder(frames, [], None), line) ==
              if |line| > MAX_FRAME_BYTES then Decoder(frames, line[..MAX_FRAME_BYTES + 1], Some(M.OversizeFrame))
              else Decoder(frames, line, None)
  {
    if line != [] {
      var front, last := line[..|line| - 1], line[|line| - 1];
      FeedLine(j, frames, front);
      assert line == front + [last];
      if |line| == MAX_FRAME_BYTES + 1 { assert line[..MAX_FRAME_BYTES + 1] == line; }
    }
  }

  function After(frames: seq<Bytes>, d: Decoder): Decoder { d.(frames := frames + d.frames) }

  /** The first line alone. */
  lemma {:induction false} FirstLine(j: Judges, frames: seq<Bytes>, input: Bytes)
    ensures var n := LineEnd(input);
      Feed(j, Decoder(frames, [], None), input) ==
        Feed(j, if n > MAX_FRAME_BYTES then Decoder(frames, input[..n][..MAX_FRAME_BYTES + 1], Some(M.OversizeFrame))
                else Decoder(frames, input[..n], None), input[n..])
  {
    var n := LineEnd(input);
    assert input == input[..n] + input[n..];
    FeedConcat(j, Decoder(frames, [], None), input[..n], input[n..]);
    FeedLine(j, frames, input[..n]);
  }

  lemma {:induction false} OversizeLine(j: Judges, frames: seq<Bytes>, input: Bytes)
    requires LineEnd(input) > MAX_FRAME_BYTES
    ensures Feed(j, Decoder(frames, [], None), input) == After(frames, Lines(j, input))
  {
    var n := LineEnd(input);
    FirstLine(j, frames, input);
    Shorter(input, MAX_FRAME_BYTES + 1, n);
    FinishedStays(j, Decoder(frames, input[..n][..MAX_FRAME_BYTES + 1], Some(M.OversizeFrame)), input[n..]);
    assert frames + [] == frames;
  }

  lemma {:induction false} Shorter(s: Bytes, m: nat, n: nat)
    requires m <= n <= |s|
    ensures s[..n][..m] == s[..m]
  {
  }

  lemma {:induction false} EndedLine(j: Judges, frames: seq<Bytes>, input: Bytes)
    requires LineEnd(input) <= MAX_FRAME_BYTES && LineEnd(input) < |input|
    ensures var n := LineEnd(input);
      Feed(j, Decoder(frames, [], None), input) ==
        Feed(j, FeedByte(j, Decoder(frames, input[..n], None), LF), input[n + 1..])
  {
    var n := LineEnd(input);
    FirstLine(j, frames, input);
    assert input[n..] == [LF] + input[n + 1..];
    FeedOneThenRest(j, Decoder(frames, input[..n], None), [], input[n + 1..]);
  }

  lemma {:induction false} AppendAssoc(frames: seq<Bytes>, line: Bytes, more: seq<Bytes>)
    ensures frames + [line] + more == frames + ([line] + more)
  {
  }

  lemma {:induction false} FeedIsLines(j: Judges, frames: seq<Bytes>, input: Bytes)
    ensures Feed(j, Decoder(frames, [], None), input) == After(frames, Lines(j, input))
    decreases |input|
  {
    var n := LineEnd(input);
    if n > MAX_FRAME_BYTES {
      OversizeLine(j, frames, input);
    } else if n == |input| {
      FirstLine(j, frames, input);
      assert input[..n] == input && input[n..] == [] && frames + [] == frames;
    } else {
      var line, rest := input[..n], input[n + 1..];
      EndedLine(j, frames, input);
      if Fault(j, line).None? {
        FeedIsLines(j, frames + [line], rest);
        AppendAssoc(frames, line, Lines(j, rest).frames);
      } else {
        FinishedStays(j, Decoder(frames, line, Fault(j, line)), rest);
        assert frames + [] == frames;
      }
    }
  }

  lemma {:induction false} FeedOneThenRest(j: Judges, d: Decoder, line: Bytes, rest: Bytes)
    ensures Feed(j, Feed(j, d, line), [LF] + rest) == Feed(j, FeedByte(j, Feed(j, d, line), LF), rest)
  {
    FeedConcat(j, Feed(j, d, line), [LF], rest);
    assert [LF][..0] == [];
  }

  /** However the bytes are cut into chunks, the frames, the buffer and the violation are those of
      splitting the whole input on LF and stopping at the first bad or oversize line. */
  lemma {:induction false} DecoderIsSplitting(j: Judges, chunks: seq<Bytes>)
    ensures FeedChunks(j, NEW, chunks) == Lines(j, Flatten(chunks))
  {
    ChunkingIsIrrelevant(j, NEW, chunks);
    FeedIsLines(j, [], Flatten(chunks));
    assert [] + Lines(j, Flatten(chunks)).frames == Lines(j, Flatten(chunks)).frames;
  }

  // ----- nothing is invented or lost -----------------------------------------------------

  /** Each frame with its LF. */
  function Joined(frames: seq<Bytes>): Bytes {
    if frames == [] then [] else Joined(frames[..|frames| - 1]) + frames[|frames| - 1] + [LF]
  }

  ghost predicate SoundFrames(j: Judges, frames: seq<Bytes>) {
    forall f :: f in frames ==> j.utf8(f) && j.json(f) && |f| <= MAX_FRAME_BYTES && LF !in f
  }

  ghost predicate Faithful(j: Judges, d: Decoder, input: Bytes) {
    && Joined(d.frames) + d.buf <= input
    && (d.violation.None? ==> Joined(d.frames) + d.buf == input && |d.buf| <= MAX_FRAME_BYTES)
    && |d.buf| <= MAX_FRAME_BYTES + 1
    && LF !in d.buf
    && SoundFrames(j, d.frames)
    && (d.violation.Some? ==> Blamed(j, d.buf, d.violation.value))
  }

  /** The violation says what is wrong with the line in the buffer: too long, else not UTF-8, else not JSON. */
  predicate Blamed(j: Judges, line: Bytes, kind: M.Kind) {
    match kind
    case OversizeFrame => |line| > MAX_FRAME_BYTES
    case NonUtf8 => |line| <= MAX_FRAME_BYTES && !j.utf8(line)
    case NotJson => |line| <= MAX_FRAME_BYTES && j.utf8(line) && !j.json(line)
    case _ => false
  }

  lemma {:induction false} JoinedAppend(frames: seq<Bytes>, f: Bytes)
    ensures Joined(frames + [f]) == Joined(frames) + f + [LF]
  {
    assert (frames + [f])[..|frames|] == frames;
  }

  lemma {:induction false} PrefixGrows(p: Bytes, input: Bytes, b: byte)
    ensures p <= input ==> p <= input + [b]
    ensures p == input ==> p + [b] == input + [b]
  {
  }

  lemma {:induction false} FaithfulLine(j: Judges, d: Decoder, input: Bytes)
    requires Faithful(j, d, input) && d.violation.None?
    ensures Faithful(j, FeedByte(j, d, LF), input + [LF])
  {
    PrefixGrows(Joined(d.frames) + d.buf, input, LF);
    if Fault(j, d.buf).None? {
      var frames := d.frames + [d.buf];
      JoinedAppend(d.frames, d.buf);
      assert Joined(frames) + [] == Joined(frames);
      assert SoundFrames(j, frames);
    }
  }

  lemma {:induction false} FaithfulByte(j: Judges, d: Decoder, input: Bytes, b: byte)
    requires Faithful(j, d, input) && d.violation.None? && b != LF
    ensures Faithful(j, FeedByte(j, d, b), input + [b])
  {
    PrefixGrows(Joined(d.frames) + d.buf, input, b);
    assert Joined(d.frames) + (d.buf + [b]) == Joined(d.frames) + d.buf + [b];
    assert |d.buf + [b]| == |d.buf| + 1;
  }

  lemma {:induction false} FaithfulStep(j: Judges, d: Decoder, input: Bytes, b: byte)
    requires Faithful(j, d, input)
    ensures Faithful(j, FeedByte(j, d, b), input + [b])
  {
    if d.violation.Some? {
      PrefixGrows(Joined(d.frames) + d.buf, input, b);
    } else if b == LF {
      FaithfulLine(j, d, input);
    } else {
      FaithfulByte(j, d, input, b);
    }
  }

  /** The frames with their LFs, followed by the buffer, are a prefix of the input: all of it when there
      is no violation. Every frame is sound, holds no LF and fits, and the buffer never exceeds the cap
      by more than the byte that broke it. */
  lemma {:induction false} OutputIsInput(j: Judges, input: Bytes)
    ensures Faithful(j, Feed(j, NEW, input), input)
  {
    if input != [] {
      var front, b := input[..|input| - 1], input[|input| - 1];
      OutputIsInput(j, front);
      FaithfulStep(j, Feed(j, NEW, front), front, b);
      assert input == front + [b];
    }
  }

  // ----- the mutable form ----------------------------------------------------------------

  class FrameDecoder {
    const judges: Judges
    var buf: Bytes
    var violation: Option<M.Kind>

    constructor (j: Judges)
      ensures judges == j && buf == [] && violation.None?
    {
      judges, buf, violation := j, [], None;
    }

    /** `push`: completed frames are appended to `out`; a violation is final. */
    method Push(chunk: Bytes, out: seq<Bytes>) returns (out': seq<Bytes>, error: Option<M.Kind>)
      modifies this
      ensures Decoder(out', buf, violation) == Feed(judges, Decoder(out, old(buf), old(violation)), chunk)
      ensures error == violation
      ensures out <= out'
    {
      out' := out;
      ghost var start := Decoder(out, buf, violation);
      if violation.Some? {
        FinishedStays(judges, start, chunk);
        return out', violation;
      }
      for i := 0 to |chunk|
        invariant Decoder(out', buf, violation) == Feed(judges, start, chunk[..i]) && violation.None? && out <= out'
      {
        assert chunk[..i + 1][..i] == chunk[..i];
        assert chunk == chunk[..i + 1] + chunk[i + 1..];
        FeedConcat(judges, start, chunk[..i + 1], chunk[i + 1..]);
        if chunk[i] == LF {
          var fault := Fault(judges, buf);
          if fault.Some? {
            violation := fault;
            FinishedStays(judges, Decoder(out', buf, violation), chunk[i + 1..]);
            return out', fault;
          }
          out' := out' + [buf];
          buf := [];
        } else {
          buf := buf + [chunk[i]];
          if |buf| > MAX_FRAME_BYTES {
            violation := Some(M.OversizeFrame);
            FinishedStays(judges, Decoder(out', buf, violation), chunk[i + 1..]);
            return out', violation;
          }
        }
      }
      assert chunk[..|chunk|] == chunk;
      error := None;
    }
  }

  // ----- the end of a stream (core/host/src/mux.rs) --------------------------------------

  /** What `read_loop` charges the adapter with, once its stream has ended cleanly: the framing fault,
      or an unterminated last frame; before the hello reply every cause is the same. */
  function Charge(d: Decoder, helloDone: bool): Option<M.Kind> {
    if d.violation.Some? then Some(if helloDone then d.violation.value else M.PreHelloOutput)
    else if |d.buf| > 0 then Some(if helloDone then M.UnterminatedFrame else M.PreHelloOutput)
    else None
  }

  /** A stream is charged with nothing exactly when it is a run of sound frames, each with its LF. */
  lemma {:induction false} CleanStreamIff(j: Judges, input: Bytes, helloDone: bool)
    ensures Charge(Feed(j, NEW, input), helloDone).None? <==>
            exists frames :: input == Joined(frames) && SoundFrames(j, frames)
  {
    var d := Feed(j, NEW, input);
    OutputIsInput(j, input);
    if Charge(d, helloDone).None? {
      assert d.buf == [];
      assert input == Joined(d.frames);
      assert SoundFrames(j, d.frames);
    }
    if frames :| input == Joined(frames) && SoundFrames(j, frames) {
      SoundFramesPass(j, frames);
    }
  }

  /** Otherwise, after the hello, it is charged with what is wrong with its first bad line, or with a last line that
      does not end; before the hello, with having spoken too soon. */
  lemma {:induction false} WhatIsCharged(j: Judges, input: Bytes, helloDone: bool)
    requires Charge(Feed(j, NEW, input), helloDone).Some?
    ensures var d, kind := Feed(j, NEW, input), Charge(Feed(j, NEW, input), helloDone).value;
      if !helloDone then kind == M.PreHelloOutput
      else if d.violation.Some? then Blamed(j, d.buf, kind)
      else kind == M.UnterminatedFrame && d.buf != [] && input == Joined(d.frames) + d.buf
  {
    OutputIsInput(j, input);
  }

  lemma {:induction false} SoundFramesPass(j: Judges, frames: seq<Bytes>)
    requires SoundFrames(j, frames)
    ensures Feed(j, NEW, Joined(frames)) == Decoder(frames, [], None)
  {
    if frames != [] {
      var front, last := frames[..|frames| - 1], frames[|frames| - 1];
      assert frames == front + [last];
      SoundFramesPass(j, front);
      FeedConcat(j, NEW, Joined(front), last + [LF]);
      assert Joined(frames) == Joined(front) + (last + [LF]);
      FeedConcat(j, Decoder(front, [], None), last, [LF]);
      FeedLine(j, front, last);
      assert [LF][..0] == [];
    }
  }
}
