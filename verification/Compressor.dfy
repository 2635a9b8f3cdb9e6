/** The streaming compressed body (src/proxy/compress_body.rs): two buffer-growing loops around the zstd encoder and
    the four-phase machine that polls the inner body, compresses inline or on the blocking pool, and flushes.

    The encoder is known by contract only. Per call it takes any amount of the offered input and gives any amount
    of the output it has ready; `pending` is the output it has decided on but not given yet. Any call may fail or stall,
    unless the encoder is `reliable`. */
module Compressor {
  import opened Bytes

  const OUTPUT_BUF_SIZE: nat := 16384
  const OFFLOAD_THRESHOLD: nat := 32768

  datatype ZstdError = EncoderFailed | NoProgress | NoProgressInFinish | JoinFailed | StateLost

  /** An arbitrary streaming encoder. After a failed call nothing is promised about it. A reliable one does not fail,
      and moves some byte whenever it has input or held-back output and room to write. */
  class Encoder {
    const reliable: bool
    ghost var consumed: Data
    ghost var emitted: Data
    var finished: bool
    var pending: Data

    constructor (reliable: bool)
      ensures consumed == [] && emitted == [] && !finished && this.reliable == reliable
    {
      this.reliable := reliable;
      consumed, emitted, finished := [], [], false;
      pending := *;
    }

    /** Takes input[pos..next] and writes `written` bytes at output[filled..]. New output is decided on only when input
        is taken. */
    method Run(input: Data, pos: nat, output: array<Byte>, filled: nat) returns (ok: bool, next: nat, written: nat)
      requires pos <= |input| && filled <= output.Length
      modifies this, output
      ensures pos <= next <= |input| && filled + written <= output.Length
      ensures output[..filled] == old(output[..filled])
      ensures ok ==>
                && consumed == old(consumed) + input[pos..next]
                && emitted == old(emitted) + output[filled..filled + written]
                && finished == old(finished)
                && (next == pos ==> old(pending) == output[filled..filled + written] + pending)
      ensures reliable ==> ok && (pos < |input| && filled < output.Length ==> next > pos || written > 0)
    {
      ok, next, written := *, pos, 0;
      var take: int := *;
      var decided: Data := *;
      if reliable {
        ok, take := true, if take < 1 then 1 else take;
      }
      if 0 < take && pos < |input| {
        next := if take <= |input| - pos then pos + take else |input|;
        consumed := consumed + input[pos..next];
        pending := pending + decided;
      }
      written := Give(output, filled, 0);
    }

    /** Ends the frame: the first call decides on the rest of the output, every call writes some of what is ready and
        reports how much is left. */
    method Finish(output: array<Byte>, filled: nat) returns (ok: bool, remaining: nat, written: nat)
      requires filled <= output.Length
      modifies this, output
      ensures filled + written <= output.Length
      ensures output[..filled] == old(output[..filled])
      ensures ok ==>
                && consumed == old(consumed)
                && emitted == old(emitted) + output[filled..filled + written]
                && finished
                && remaining == |pending|
                && (old(finished) ==> old(pending) == output[filled..filled + written] + pending)
      ensures reliable ==> ok && (remaining > 0 && filled < output.Length ==> written > 0)
    {
      ok := *;
      var rest: Data := *;
      if !finished {
        pending := pending + rest;
        finished := true;
      }
      ok := ok || reliable;
      written := Give(output, filled, if reliable && pending != [] && filled < output.Length then 1 else 0);
      remaining := |pending|;
    }

    /** Moves some prefix of the pending output into the free part of the buffer. */
    method Give(output: array<Byte>, filled: nat, least: nat) returns (written: nat)
      requires filled + least <= output.Length && least <= |pending|
      modifies this`pending, this`emitted, output
      ensures least <= written && filled + written <= output.Length
      ensures output[..filled] == old(output[..filled])
      ensures emitted == old(emitted) + output[filled..filled + written]
      ensures old(pending) == output[filled..filled + written] + pending
    {
      assert least <= least <= |pending| && filled + least <= output.Length;
      written :| least <= written <= |pending| && filled + written <= output.Length;
      forall i | 0 <= i < written {
        output[filled + i] := pending[i];
      }
      emitted := emitted + pending[..written];
      assert output[filled..filled + written] == pending[..written];
      pending := pending[written..];
    }
  }

  // ---- The two loops ----

  /** Enlarges a full buffer, keeping what it holds. */
  method Grow(output: array<Byte>) returns (larger: array<Byte>)
    ensures fresh(larger) && larger.Length == output.Length + OUTPUT_BUF_SIZE
    ensures larger[..output.Length] == output[..]
  {
    larger := new Byte[output.Length + OUTPUT_BUF_SIZE](_ => 0);
    forall i | 0 <= i < output.Length {
      larger[i] := output[i];
    }
  }

  /** Feeds a whole chunk to the encoder: on success every input byte was taken, and the result is exactly what the
      encoder gave out meanwhile, nothing skipped, overwritten or repeated. */
  method CompressChunk(e: Encoder, input: Data) returns (r: Result<Data, ZstdError>)
    modifies e
    ensures r.Ok? ==>
              && e.consumed == old(e.consumed) + input
              && e.emitted == old(e.emitted) + r.value
              && e.finished == old(e.finished)
    ensures r.Err? ==> !e.reliable && (r.error == EncoderFailed || r.error == NoProgress)
  {
    var output := new Byte[if |input| > OUTPUT_BUF_SIZE then |input| else OUTPUT_BUF_SIZE](_ => 0);
    var filled, pos := 0, 0;
    while pos < |input|
      invariant 0 <= pos <= |input|
      invariant 0 <= filled < output.Length && fresh(output)
      invariant e.consumed == old(e.consumed) + input[..pos]
      invariant e.emitted == old(e.emitted) + output[..filled]
      invariant e.finished == old(e.finished)
      decreases |input| - pos, |e.pending|
    {
      ghost var before := output[..filled];
      var ok, next, written := e.Run(input, pos, output, filled);
      if !ok {
        return Err(EncoderFailed);
      }
      if written == 0 && next == pos {
        return Err(NoProgress);
      }
      Assoc(old(e.consumed), input[..pos], input[pos..next]);
      Assoc(old(e.emitted), before, output[filled..filled + written]);
      assert input[..next] == input[..pos] + input[pos..next];
      assert output[..filled + written] == before + output[filled..filled + written];
      pos, filled := next, filled + written;
      if filled == output.Length {
        ghost var full := output[..filled];
        output := Grow(output);
        assert output[..filled] == full;
      }
    }
    assert input[..pos] == input;
    return Ok(output[..filled]);
  }

  /** Ends the frame: on success the encoder holds nothing back. */
  method FinishEncoder(e: Encoder) returns (r: Result<Data, ZstdError>)
    modifies e
    ensures r.Ok? ==>
              && e.consumed == old(e.consumed)
              && e.emitted == old(e.emitted) + r.value
              && e.finished && e.pending == []
    ensures r.Err? ==> !e.reliable && (r.error == EncoderFailed || r.error == NoProgressInFinish)
  {
    var output := new Byte[OUTPUT_BUF_SIZE](_ => 0);
    var filled := 0;
    while true
      invariant 0 <= filled < output.Length && fresh(output)
      invariant e.consumed == old(e.consumed)
      invariant e.emitted == old(e.emitted) + output[..filled]
      decreases !e.finished, |e.pending|
    {
      ghost var before := output[..filled];
      var ok, remaining, written := e.Finish(output, filled);
      if !ok {
        return Err(EncoderFailed);
      }
      Assoc(old(e.emitted), before, output[filled..filled + written]);
      assert output[..filled + written] == before + output[filled..filled + written];
      filled := filled + written;
      if remaining == 0 {
        return Ok(output[..filled]);
      }
      if written == 0 && filled < output.Length {
        return Err(NoProgressInFinish);
      }
      if filled == output.Length {
        ghost var full := output[..filled];
        output := Grow(output);
        assert output[..filled] == full;
      }
    }
  }

  // ---- The phase machine ----

  datatype Phase = Streaming | Offloading | Flushing | Done

  /** What the inner body answers, in order; a body that has nothing more to answer is at its end. */
  datatype InnerPoll = NotReady | Chunk(bytes: Data) | Trailers(fields: Data) | Broken

  datatype Task = Task(encoder: Encoder, input: Data)

  datatype Poll = Pending | Frame(bytes: Data) | PassThrough(fields: Data) | InnerError | Failed(error: ZstdError) | End

  datatype Step = Ready(poll: Poll) | Continue

  /** All the data an inner body has still to give. */
  function DataIn(inner: seq<InnerPoll>): Data {
    if inner == [] then []
    else (if inner[0].Chunk? then inner[0].bytes else []) + DataIn(inner[1..])
  }

  /** What else it has still to answer, not counting that it is not ready. */
  function OthersIn(inner: seq<InnerPoll>): seq<InnerPoll> {
    if inner == [] then []
    else (if inner[0].Trailers? || inner[0].Broken? then [inner[0]] else []) + OthersIn(inner[1..])
  }

  /** The answer of the inner body a poll hands on as it is. */
  function HandedOn(poll: Poll): seq<InnerPoll> {
    match poll
    case PassThrough(fields) => [Trailers(fields)]
    case InnerError => [Broken]
    case _ => []
  }

  class CompressedBody {
    var inner: seq<InnerPoll>
    var encoder: Encoder?
    var task: Option<Task>
    var phase: Phase

    ghost const zstd: Encoder   // the one encoder of this body, wherever it is held
    ghost var fed: Data         // data taken from the inner body
    ghost var sent: Data        // data frames handed to the caller, joined
    ghost var failed: bool      // a compression error was handed to the caller

    ghost predicate InStep(waiting: Data)
      reads this, zstd
    {
      zstd.consumed + waiting == fed && zstd.emitted == sent && !failed
    }

    ghost predicate Valid()
      reads this, zstd
    {
      match phase
      case Streaming => encoder == zstd && task == None && InStep([])
      case Offloading => encoder == null && task.Some? && task.value.encoder == zstd && InStep(task.value.input)
      case Flushing => encoder == zstd && task == None && inner == [] && InStep([])
      case Done => failed || (inner == [] && InStep([]) && zstd.finished && zstd.pending == [])
    }

    /** `reliable` stands for an encoder that does not fail and a blocking pool that does not lose its task. */
    constructor (inner: seq<InnerPoll>, reliable: bool)
      ensures Valid() && fresh(zstd) && this.inner == inner && fed == sent == [] && phase == Streaming && !failed
      ensures zstd.reliable == reliable
    {
      var e := new Encoder(reliable);
      this.inner, encoder, task, phase := inner, e, None, Streaming;
      zstd, fed, sent, failed := e, [], [], false;
    }

    /** What there is left to do; every step but waiting for the blocking pool takes from it. */
    ghost function Work(): nat
      reads this
    {
      3 * |inner| + match phase case Offloading => 3 case Streaming => 2 case Flushing => 1 case Done => 0
    }

    /** What every step of a poll keeps: nothing is taken from the inner body without being fed or handed on as it is,
        frames are never empty and go out once, a compression error is handed out only by an unreliable encoder and is
        never "compressor state lost", and the step gets on with the work unless it waits for the blocking pool. */
    twostate predicate Kept(r: Step)
      reads this, zstd
    {
      && fed + DataIn(inner) == old(fed) + old(DataIn(inner))
      && old(OthersIn(inner)) == (if r.Ready? then HandedOn(r.poll) else []) + OthersIn(inner)
      && sent == old(sent) + (if r.Ready? && r.poll.Frame? then r.poll.bytes else [])
      && (r.Ready? && r.poll.Frame? ==> r.poll.bytes != [])
      && r != Ready(Failed(StateLost))
      && (r == Ready(End) ==> phase == Done)
      && (failed <==> old(failed) || (r.Ready? && r.poll.Failed?))
      && (r.Ready? && r.poll.Failed? ==> !zstd.reliable)
      && (|| Work() < old(Work())
          || (r == Ready(Pending) && phase == Offloading && Work() == old(Work()))
          || old(phase) == Done)
    }

    method PollOffloading() returns (r: Step)
      requires Valid() && phase == Offloading
      modifies this, zstd
      ensures Valid() && Kept(r)
    {
      if task.None? {
        assert false;
        return Ready(Failed(StateLost));
      }
      var running: bool := *;
      if running {
        return Ready(Pending);
      }
      var e, input := task.value.encoder, task.value.input;
      task := None;
      var joined: bool := *;
      var result := Err(JoinFailed);
      if joined || e.reliable {
        result := CompressChunk(e, input);
      }
      if result.Err? {
        phase, failed := Done, true;
        return Ready(Failed(result.error));
      }
      encoder := e;
      phase := Streaming;
      if result.value == [] {
        return Continue;
      }
      sent := sent + result.value;
      return Ready(Frame(result.value));
    }

    /** Data is fed, what else the inner body answers is handed on, and its end starts the flush. */
    method PollStreaming() returns (r: Step)
      requires Valid() && phase == Streaming
      modifies this, zstd
      ensures Valid() && Kept(r)
      ensures phase == Offloading <==>
                old(inner) != [] && old(inner)[0].Chunk? && |old(inner)[0].bytes| > OFFLOAD_THRESHOLD
      ensures old(inner) != [] && old(inner)[0].NotReady? ==> r == Ready(Pending)
    {
      if inner == [] {
        phase := Flushing;
        return Continue;
      }
      var polled := inner[0];
      inner := inner[1..];
      match polled
      case NotReady => return Ready(Pending);
      case Broken => return Ready(InnerError);
      case Trailers(fields) => return Ready(PassThrough(fields));
      case Chunk(bytes) =>
        Assoc(fed, bytes, DataIn(inner));
        fed := fed + bytes;
        r := CompressFrame(bytes);
    }

    /** A chunk goes to the blocking pool exactly when it is over the threshold. */
    method CompressFrame(bytes: Data) returns (r: Step)
      requires phase == Streaming && encoder == zstd && task == None && InStep(bytes)
      modifies this, zstd
      ensures Valid() && inner == old(inner) && fed == old(fed) && Work() <= old(Work()) + 1
      ensures phase == Offloading <==> |bytes| > OFFLOAD_THRESHOLD
      ensures sent == old(sent) + if r.Ready? && r.poll.Frame? then r.poll.bytes else []
      ensures r.Ready? ==>
                (r.poll.Frame? && r.poll.bytes != []) || (r.poll.Failed? && r.poll.error != StateLost && !zstd.reliable)
      ensures failed <==> r.Ready? && r.poll.Failed?
    {
      if |bytes| > OFFLOAD_THRESHOLD {
        r := OffloadChunk(bytes);
      } else {
        r := CompressInline(bytes);
      }
    }

    method OffloadChunk(bytes: Data) returns (r: Step)
      requires phase == Streaming && encoder == zstd && InStep(bytes)
      modifies this
      ensures Valid() && r == Continue && phase == Offloading
      ensures inner == old(inner) && fed == old(fed) && sent == old(sent) && !failed
    {
      if encoder == null {
        assert false;
        return Ready(Failed(StateLost));
      }
      task := Some(Task(encoder, bytes));
      encoder := null;
      phase := Offloading;
      return Continue;
    }

    method CompressInline(bytes: Data) returns (r: Step)
      requires phase == Streaming && encoder == zstd && task == None && InStep(bytes)
      modifies this, zstd
      ensures Valid() && inner == old(inner) && fed == old(fed) && Work() <= old(Work()) && phase != Offloading
      ensures sent == old(sent) + if r.Ready? && r.poll.Frame? then r.poll.bytes else []
      ensures r.Ready? ==>
                (r.poll.Frame? && r.poll.bytes != []) || (r.poll.Failed? && r.poll.error != StateLost && !zstd.reliable)
      ensures failed <==> r.Ready? && r.poll.Failed?
    {
      if encoder == null {
        assert false;
        return Ready(Failed(StateLost));
      }
      var result := CompressChunk(encoder, bytes);
      if result.Err? {
        phase, failed := Done, true;
        return Ready(Failed(result.error));
      }
      if result.value == [] {
        return Continue;
      }
      sent := sent + result.value;
      return Ready(Frame(result.value));
    }

    method PollFlushing() returns (r: Step)
      requires Valid() && phase == Flushing
      modifies this, zstd
      ensures Valid() && Kept(r) && inner == old(inner) && phase == Done
      ensures r.Ready? && (r.poll.Frame? || r.poll.End? || r.poll.Failed?)
    {
      if encoder == null {
        assert false;
        return Ready(Failed(StateLost));
      }
      var result := FinishEncoder(encoder);
      phase := Done;
      if result.Err? {
        failed := true;
        return Ready(Failed(result.error));
      }
      if result.value == [] {
        return Ready(End);
      }
      sent := sent + result.value;
      return Ready(Frame(result.value));
    }

    /** One poll: terminates, keeps the tally, and reports the end once the machine is done. */
    method PollFrame() returns (poll: Poll)
      requires Valid()
      modifies this, zstd
      ensures Valid() && Kept(Ready(poll))
      ensures old(phase) == Done ==> poll.End?
    {
      ghost var total := fed + DataIn(inner);
      while true
        invariant Valid()
        invariant fed + DataIn(inner) == total && sent == old(sent) && failed == old(failed)
        invariant OthersIn(inner) == old(OthersIn(inner))
        invariant old(phase) == Done ==> phase == Done
        invariant Work() <= old(Work())
        decreases Work()
      {
        var step;
        match phase {
          case Done => return End;
          case Offloading => step := PollOffloading();
          case Streaming => step := PollStreaming();
          case Flushing => step := PollFlushing();
        }
        if step.Ready? {
          return step.poll;
        }
      }
    }
  }

  /** A caller polling `polls` times. The body ends for every caller that polls often enough, not counting the polls
      that found the blocking pool at work, and a reliable encoder never fails it. If it ends and no compression error
      was handed out, the data frames joined in order are the encoder's whole output, the encoder took exactly the
      inner body's data, it ended its frame with nothing held back, and trailers and inner errors came through in
      order. */
  method Drain(inner: seq<InnerPoll>, reliable: bool, polls: nat)
    returns (frames: seq<Data>, others: seq<InnerPoll>, ended: bool, failed: bool, waits: nat, ghost zstd: Encoder)
    ensures polls > waits + 3 * |inner| + 2 ==> ended
    ensures reliable ==> !failed
    ensures ended && !failed ==>
              && Concat(frames) == zstd.emitted
              && zstd.pending == [] && zstd.finished
              && zstd.consumed == DataIn(inner)
              && others == OthersIn(inner)
    ensures forall f :: f in frames ==> f != []
  {
    var body := new CompressedBody(inner, reliable);
    zstd := body.zstd;
    frames, others, ended, failed, waits := [], [], false, false, 0;
    for i := 0 to polls
      invariant body.Valid() && fresh(body) && fresh(body.zstd) && zstd == body.zstd
      invariant body.fed + DataIn(body.inner) == DataIn(inner)
      invariant Concat(frames) == body.sent
      invariant others + OthersIn(body.inner) == OthersIn(inner)
      invariant failed == body.failed && body.zstd.reliable == reliable && (reliable ==> !failed)
      invariant ended || i + body.Work() <= waits + 3 * |inner| + 2
      invariant ended ==> body.phase == Done
      invariant forall f :: f in frames ==> f != []
    {
      var poll := body.PollFrame();
      if poll.Pending? && body.phase == Offloading {
        waits := waits + 1;
      }
      Assoc(others, HandedOn(poll), OthersIn(body.inner));
      others := others + HandedOn(poll);
      match poll
      case Frame(bytes) =>
        ConcatOne(frames, bytes);
        frames := frames + [bytes];
      case Failed(_) => failed := true;
      case End => ended := true;
      case _ =>
    }
  }
}
