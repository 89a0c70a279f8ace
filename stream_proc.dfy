/**
 * `StreamProc` of `streamproc.py`: one per websocket connection. It feeds the
 * client's bytes into a decoding pipeline and, for every decoded frame,
 * either submits a still-image job to a one-worker executor (JPEG mode,
 * dropping the frame while a job is outstanding) or pushes the frame into an
 * encoding pipeline built lazily from the first frame's size (WEBM mode).
 *
 * GStreamer pipelines are objects carrying a state and the buffers pushed
 * into their source element; the executor's future is a value whose
 * progress is an environment step.
 */
module Stream {
  import opened Wrappers
  import Lists
  import GLib

  type byte = bv8

  /** `Gst.State` */
  datatype GstState = Null | Ready | Paused | Playing

  /** What a pipeline was launched for: decoding, or encoding frames of one size. */
  datatype Caps = Decoder | Encoder(width: nat, height: nat)

  /** A buffer pushed into a pipeline's `appsrc`: raw client bytes, or a frame with its timing. */
  datatype Buffer = Data(bytes: seq<byte>) | Timed(bytes: seq<byte>, pts: nat, duration: nat)

  /** The bus message types `on_message` and `on_out_message` tell apart. */
  datatype MessageType = Eos | Error | StateChanged | OtherMessage

  /** A GStreamer pipeline handle; its `appsrc` element is represented by the pipeline itself. */
  class Pipeline {
    var state: GstState
    const caps: Caps
    /** Buffers emitted with `push-buffer` into the pipeline's source element, in order. */
    var pushed: seq<Buffer>

    /** `Gst.parse_launch`: a new pipeline starts in `NULL`. */
    constructor (caps: Caps)
      ensures this.caps == caps && state == Null && pushed == []
    {
      this.caps := caps;
      state := Null;
      pushed := [];
    }

    /** `set_state` */
    method SetState(s: GstState)
      modifies this
      ensures state == s && pushed == old(pushed)
    {
      state := s;
    }

    /** `appsrc.emit("push-buffer", buf)` */
    method Push(b: Buffer)
      modifies this
      ensures pushed == old(pushed) + [b] && state == old(state)
    {
      pushed := pushed + [b];
    }
  }

  /** A decoded sample pulled from the decoder's `appsink`: its caps' size and its bytes. */
  datatype Sample = Sample(width: nat, height: nat, data: seq<byte>)

  /**
   * `self._ft_image`: `NoFuture` is Python `None`; a submitted future is
   * `Pending` until the single worker starts it, then `Running`, then done.
   */
  datatype Future = NoFuture | Pending | Running | DoneOk | DoneErr | Cancelled

  /**
   * `Future.done()`: the future was submitted and is no longer waiting or
   * running, so `cancel()` leaves it as it is.
   */
  function Done(f: Future): (d: bool)
    ensures d ==> f != NoFuture && Cancel(f) == f
    ensures d <==> f != NoFuture && f != Pending && f != Running
  {
    f == DoneOk || f == DoneErr || f == Cancelled
  }

  /** `Future.cancel()`: only a future that has not started yet becomes cancelled. */
  function Cancel(f: Future): (c: Future)
    ensures c == Cancelled <==> f == Pending || f == Cancelled
    ensures f != Pending ==> c == f
  {
    if f == Pending then Cancelled else f
  }

  /** Progress of the executor, outside the connection's control. */
  datatype JobEvent = Start | Finish(ok: bool)

  /** The effect of an executor event on the future. */
  function Progress(f: Future, ev: JobEvent): (g: Future)
    ensures Done(f) ==> g == f
    ensures g == Running <==> (f == Pending || f == Running) && ev.Start?
    ensures f == Running && ev.Finish? ==> g == (if ev.ok then DoneOk else DoneErr)
  {
    match ev
    case Start => if f == Pending then Running else f
    case Finish(ok) => if f == Running then (if ok then DoneOk else DoneErr) else f
  }

  /** What JPEG mode does with a decoded frame, given the previous future. */
  datatype Admission =
    | Submit(logError: bool)  // harvest the previous outcome (logging its error), then submit
    | Drop                    // a job is still outstanding: the frame is dropped
    | RaiseCancelled          // `exception()` of a cancelled future raises `CancelledError`

  /**
   * The test `self._ft_image is None or self._ft_image.done()` followed by
   * `self._ft_image.exception()`.
   */
  function Admit(f: Future): (a: Admission)
    ensures a.Submit? <==> f == NoFuture || f == DoneOk || f == DoneErr
    ensures a == Drop <==> f == Pending || f == Running
    ensures a == RaiseCancelled <==> f == Cancelled
    ensures a.Submit? ==> (a.logError <==> f == DoneErr)
  {
    if f == NoFuture || Done(f) then
      if f == Cancelled then RaiseCancelled else Submit(f == DoneErr)
    else Drop
  }

  /** `out_data_handler_mode` */
  datatype Mode = JpegImage | WebmStream | OtherMode

  /**
   * The encoder's buffers are the frames numbered `idx`, in increasing
   * order, each lasting `d` and stamped with its number times `d`; all of
   * them are among the `n` frames counted so far.
   */
  ghost predicate Stamped(bufs: seq<Buffer>, idx: seq<nat>, n: nat, d: nat)
  {
    && |bufs| == |idx|
    && (forall k :: 0 <= k < |bufs| ==>
          bufs[k].Timed? && bufs[k].pts == idx[k] * d && bufs[k].duration == d && idx[k] < n)
    && (forall j, k :: 0 <= j < k < |idx| ==> idx[j] < idx[k])
  }

  /** Pushing frame `n` stamped `n * d` and then counting it keeps the stamps in step with the count. */
  lemma StampNext(bufs: seq<Buffer>, idx: seq<nat>, n: nat, d: nat, bytes: seq<byte>)
    requires Stamped(bufs, idx, n, d)
    ensures Stamped(bufs + [Timed(bytes, n * d, d)], idx + [n], n + 1, d)
  {
  }

  /**
   * The time stamps follow the frame count, not the wall clock: they
   * strictly increase, each at least one frame duration after the previous.
   */
  lemma StampsIncrease(bufs: seq<Buffer>, idx: seq<nat>, n: nat, d: nat)
    requires Stamped(bufs, idx, n, d)
    ensures forall j, k :: 0 <= j < k < |bufs| ==> bufs[j].pts + d <= bufs[k].pts
  {
    forall j, k | 0 <= j < k < |bufs| ensures bufs[j].pts + d <= bufs[k].pts {
      assert bufs[k].pts - bufs[j].pts == (idx[k] - idx[j]) * d;
      assert (idx[k] - idx[j]) * d >= d by {
        assert idx[k] - idx[j] >= 1;
      }
    }
  }

  class StreamProc {
    /** The process-wide `glib_thread` this processor registers with. */
    const glib: GLib.GLibThread
    /** Identity of the bound method `self.stop` in `glib`'s callback list. */
    const callback: GLib.Callback
    /** `(1.0 / self.fps) * Gst.SECOND`, the duration of one frame. */
    const duration: nat

    var inPipeline: Pipeline?
    var outPipeline: Pipeline?
    /** The encoder's source element; it outlives `outPipeline` being cleared by `stop`. */
    var appsrc: Pipeline?
    /** The decoder's source element; it outlives `inPipeline` being cleared by `stop`. */
    var inSrc: Pipeline?
    var numFrames: nat
    /** `out_data_handler` with its mode, once `run` has been called. */
    var handler: Option<Mode>
    var ftImage: Future
    /** The frames handed to the executor, in order. */
    var submitted: seq<Sample>
    /** How many job errors have been harvested and logged. */
    var errorsLogged: nat
    /** The number of the frame each buffer pushed into `appsrc` came from. */
    ghost var stampedFrames: seq<nat>

    ghost predicate Valid()
      reads this, appsrc
    {
      && duration > 0
      && (inPipeline != null ==> inPipeline.caps == Decoder && inSrc == inPipeline)
      && (inSrc != null ==> inSrc.caps == Decoder)
      && (outPipeline != null ==> appsrc == outPipeline)
      && (appsrc != null ==> appsrc.caps.Encoder? && Stamped(appsrc.pushed, stampedFrames, numFrames, duration))
      && (appsrc == null ==> stampedFrames == [])
      // the future exists exactly when some frame has been submitted
      && (ftImage == NoFuture <==> submitted == [])
    }

    /** `__init__`: nothing is built yet, and `self.stop` is appended to the stop callbacks. */
    constructor (glib: GLib.GLibThread, callback: GLib.Callback, duration: nat)
      requires duration > 0
      modifies glib
      ensures Valid()
      ensures this.glib == glib && this.callback == callback && this.duration == duration
      ensures inPipeline == null && outPipeline == null && appsrc == null && inSrc == null
      ensures numFrames == 0 && handler == None && ftImage == NoFuture
      ensures submitted == [] && errorsLogged == 0
      ensures glib.stopCallbacks == old(glib.stopCallbacks) + [callback]
      ensures glib.loopRunning == old(glib.loopRunning)
    {
      this.glib := glib;
      this.callback := callback;
      this.duration := duration;
      inPipeline, outPipeline, appsrc, inSrc := null, null, null, null;
      numFrames := 0;
      handler := None;
      ftImage := NoFuture;
      submitted := [];
      errorsLogged := 0;
      stampedFrames := [];
      new;
      glib.Register(callback);
    }

    /**
     * `stop`: sets each present pipeline to `NULL` and forgets it, cancels
     * the image future, then unregisters `self.stop`, which raises
     * `ValueError` when it is no longer registered (a second `stop`).
     */
    method Stop() returns (r: Outcome)
      requires Valid()
      modifies this, inPipeline, outPipeline, glib
      ensures Valid()
      ensures inPipeline == null && outPipeline == null
      ensures old(inPipeline) != null ==> old(inPipeline).state == Null && old(inPipeline).pushed == old(inPipeline.pushed)
      ensures old(outPipeline) != null ==> old(outPipeline).state == Null && old(outPipeline).pushed == old(outPipeline.pushed)
      ensures ftImage == Cancel(old(ftImage))
      ensures appsrc == old(appsrc) && inSrc == old(inSrc) && numFrames == old(numFrames)
      ensures handler == old(handler) && submitted == old(submitted) && errorsLogged == old(errorsLogged)
      ensures stampedFrames == old(stampedFrames)
      ensures r.Pass? <==> callback in old(glib.stopCallbacks)
      ensures r.Pass? ==> Some(glib.stopCallbacks) == Lists.RemoveFirst(old(glib.stopCallbacks), callback)
      ensures r.Fail? ==> r.error == ValueError && glib.stopCallbacks == old(glib.stopCallbacks)
      ensures glib.loopRunning == old(glib.loopRunning)
    {
      if inPipeline != null {
        inPipeline.SetState(Null);
        inPipeline := null;
      }
      if outPipeline != null {
        outPipeline.SetState(Null);
        outPipeline := null;
      }
      if ftImage != NoFuture {
        ftImage := Cancel(ftImage);
      }
      r := glib.Unregister(callback);
    }

    /** `run`: records the handler and its mode, builds the decoding pipeline and starts it. */
    method Run(mode: Mode)
      requires Valid()
      modifies this
      ensures Valid()
      ensures handler == Some(mode)
      ensures fresh(inPipeline) && inPipeline.caps == Decoder && inPipeline.state == Playing && inPipeline.pushed == []
      ensures inSrc == inPipeline
      ensures outPipeline == old(outPipeline) && appsrc == old(appsrc) && numFrames == old(numFrames)
      ensures ftImage == old(ftImage) && submitted == old(submitted) && errorsLogged == old(errorsLogged)
      ensures stampedFrames == old(stampedFrames)
    {
      handler := Some(mode);
      var p := new Pipeline(Decoder);
      inPipeline := p;
      inSrc := p;
      p.SetState(Playing);
    }

    /** `process_data`: pushes the client's bytes into the decoder's source, which fails before `run`. */
    method ProcessData(data: seq<byte>) returns (r: Outcome)
      requires Valid()
      modifies inSrc
      ensures Valid()
      ensures r.Fail? <==> inSrc == null
      ensures r.Fail? ==> r.error == AttributeError
      ensures inSrc != null ==> inSrc.pushed == old(inSrc.pushed) + [Data(data)] && inSrc.state == old(inSrc.state)
    {
      if inSrc == null {
        r := Fail(AttributeError);
      } else {
        inSrc.Push(Data(data));
        r := Pass;
      }
    }

    /** `create_out_pipeline`: an encoder for frames of the given size, started at once. */
    method CreateOutPipeline(width: nat, height: nat)
      modifies this
      ensures fresh(outPipeline) && outPipeline.caps == Encoder(width, height)
      ensures outPipeline.state == Playing && outPipeline.pushed == []
      ensures appsrc == outPipeline
      ensures inPipeline == old(inPipeline) && inSrc == old(inSrc) && numFrames == old(numFrames)
      ensures handler == old(handler) && ftImage == old(ftImage)
      ensures submitted == old(submitted) && errorsLogged == old(errorsLogged)
      ensures stampedFrames == old(stampedFrames)
    {
      var p := new Pipeline(Encoder(width, height));
      outPipeline := p;
      appsrc := p;
      p.SetState(Playing);
    }

    /**
     * `on_new_buffer`: dispatches one decoded sample by mode, then counts
     * it. The count grows by one per sample whatever the mode, unless the
     * mode's branch raised.
     */
    method OnNewBuffer(s: Sample) returns (r: Outcome)
      requires Valid()
      modifies this, appsrc
      ensures Valid()
      ensures inPipeline == old(inPipeline) && inSrc == old(inSrc) && handler == old(handler)
      ensures numFrames == if r.Pass? then old(numFrames) + 1 else old(numFrames)
      ensures r.Fail? ==>
        || (handler == Some(JpegImage) && old(ftImage) == Cancelled && r.error == CancelledError)
        || (handler == Some(WebmStream) && |s.data| < s.width * s.height * 3 && r.error == TypeError)
      ensures handler != Some(JpegImage) ==> ftImage == old(ftImage) && submitted == old(submitted)
      ensures handler != Some(JpegImage) ==> errorsLogged == old(errorsLogged)
      ensures handler == Some(JpegImage) ==>
        match Admit(old(ftImage))
        case Submit(logError) =>
          && r.Pass? && ftImage == Pending && submitted == old(submitted) + [s]
          && errorsLogged == old(errorsLogged) + (if logError then 1 else 0)
        case Drop =>
          r.Pass? && ftImage == old(ftImage) && submitted == old(submitted) && errorsLogged == old(errorsLogged)
        case RaiseCancelled => r.Fail? && ftImage == old(ftImage) && submitted == old(submitted) && errorsLogged == old(errorsLogged)
      ensures handler == Some(WebmStream) ==> (r.Fail? <==> |s.data| < s.width * s.height * 3)
      ensures handler != Some(WebmStream) || r.Fail? ==> appsrc == old(appsrc) && outPipeline == old(outPipeline)
      ensures (handler != Some(WebmStream) || r.Fail?) && appsrc != null ==> appsrc.pushed == old(appsrc.pushed)
      ensures handler == Some(WebmStream) && r.Pass? && old(appsrc) != null ==>
        && appsrc == old(appsrc) && outPipeline == old(outPipeline)
        && appsrc.pushed == old(appsrc.pushed) + [Timed(s.data[..s.width * s.height * 3], old(numFrames) * duration, duration)]
      ensures handler == Some(WebmStream) && r.Pass? && old(appsrc) == null ==>
        && fresh(appsrc) && appsrc.caps == Encoder(s.width, s.height) && appsrc.state == Playing
        && outPipeline == appsrc
        && appsrc.pushed == [Timed(s.data[..s.width * s.height * 3], old(numFrames) * duration, duration)]
    {
      match handler {
        case Some(JpegImage) =>
          r := JpegFrame(s);
        case Some(WebmStream) =>
          r := WebmFrame(s);
        case _ =>
          r := Pass;
          numFrames := numFrames + 1;
      }
    }

    /**
     * The JPEG branch of `on_new_buffer`, with the count that follows it:
     * the frame is submitted only when no job is outstanding, after the
     * previous job's error, if any, has been logged; otherwise it is
     * dropped. A cancelled previous job makes `exception()` raise.
     */
    method JpegFrame(s: Sample) returns (r: Outcome)
      requires Valid()
      modifies this
      ensures Valid()
      ensures inPipeline == old(inPipeline) && outPipeline == old(outPipeline) && appsrc == old(appsrc)
      ensures inSrc == old(inSrc) && handler == old(handler) && stampedFrames == old(stampedFrames)
      ensures numFrames == if r.Pass? then old(numFrames) + 1 else old(numFrames)
      ensures match Admit(old(ftImage))
        case Submit(logError) =>
          && r.Pass? && ftImage == Pending && submitted == old(submitted) + [s]
          && errorsLogged == old(errorsLogged) + (if logError then 1 else 0)
        case Drop =>
          r.Pass? && ftImage == old(ftImage) && submitted == old(submitted) && errorsLogged == old(errorsLogged)
        case RaiseCancelled =>
          && r == Fail(CancelledError)
          && ftImage == old(ftImage) && submitted == old(submitted) && errorsLogged == old(errorsLogged)
    {
      match Admit(ftImage) {
        case RaiseCancelled =>
          return Fail(CancelledError);
        case Drop =>
        case Submit(logError) =>
          if logError {
            errorsLogged := errorsLogged + 1;
          }
          submitted := submitted + [s];
          ftImage := Pending;
      }
      numFrames := numFrames + 1;
      r := Pass;
    }

    /**
     * The WEBM branch of `on_new_buffer`, with the count that follows it:
     * the frame, cut to width x height RGB pixels, is stamped with the
     * frame count and pushed into the encoder, which is built from this
     * frame's size only when there is none yet. A frame shorter than its
     * size says cannot be shaped, and raises.
     */
    method WebmFrame(s: Sample) returns (r: Outcome)
      requires Valid()
      modifies this, appsrc
      ensures Valid()
      ensures inPipeline == old(inPipeline) && inSrc == old(inSrc) && handler == old(handler)
      ensures ftImage == old(ftImage) && submitted == old(submitted) && errorsLogged == old(errorsLogged)
      ensures r.Fail? <==> |s.data| < s.width * s.height * 3
      ensures r.Fail? ==> r.error == TypeError && numFrames == old(numFrames)
      ensures r.Fail? ==> appsrc == old(appsrc) && outPipeline == old(outPipeline)
      ensures r.Fail? && appsrc != null ==> appsrc.pushed == old(appsrc.pushed)
      ensures r.Pass? ==> numFrames == old(numFrames) + 1
      ensures r.Pass? && old(appsrc) != null ==>
        && appsrc == old(appsrc) && outPipeline == old(outPipeline)
        && appsrc.pushed == old(appsrc.pushed) + [Timed(s.data[..s.width * s.height * 3], old(numFrames) * duration, duration)]
      ensures r.Pass? && old(appsrc) == null ==>
        && fresh(appsrc) && appsrc.caps == Encoder(s.width, s.height) && appsrc.state == Playing
        && outPipeline == appsrc
        && appsrc.pushed == [Timed(s.data[..s.width * s.height * 3], old(numFrames) * duration, duration)]
    {
      var size := s.width * s.height * 3;
      if |s.data| < size {
        return Fail(TypeError);
      }
      var out := Timed(s.data[..size], numFrames * duration, duration);
      if appsrc == null {
        CreateOutPipeline(s.width, s.height);
      }
      StampNext(appsrc.pushed, stampedFrames, numFrames, duration, out.bytes);
      appsrc.Push(out);
      stampedFrames := stampedFrames + [numFrames];
      numFrames := numFrames + 1;
      r := Pass;
    }

    /** `on_message`: on the decoder's bus, end-of-stream or an error sets the decoder to `NULL`. */
    method OnMessage(t: MessageType)
      requires Valid()
      modifies inPipeline
      ensures Valid()
      ensures inPipeline != null && (t == Eos || t == Error) ==> inPipeline.state == Null
      ensures inPipeline != null && !(t == Eos || t == Error) ==> inPipeline.state == old(inPipeline.state)
      ensures inPipeline != null ==> inPipeline.pushed == old(inPipeline.pushed)
    {
      if inPipeline == null {
        return;
      }
      if t == Eos || t == Error {
        inPipeline.SetState(Null);
      }
    }

    /** `on_out_message`: on the encoder's bus, end-of-stream or an error sets the encoder to `NULL`. */
    method OnOutMessage(t: MessageType)
      requires Valid()
      modifies outPipeline
      ensures Valid()
      ensures outPipeline != null && (t == Eos || t == Error) ==> outPipeline.state == Null
      ensures outPipeline != null && !(t == Eos || t == Error) ==> outPipeline.state == old(outPipeline.state)
      ensures outPipeline != null ==> outPipeline.pushed == old(outPipeline.pushed)
    {
      if outPipeline == null {
        return;
      }
      if t == Eos || t == Error {
        outPipeline.SetState(Null);
      }
    }

    /** The executor starts or finishes the submitted job. */
    method JobProgress(ev: JobEvent)
      requires Valid()
      modifies this
      ensures Valid()
      ensures ftImage == Progress(old(ftImage), ev)
      ensures inPipeline == old(inPipeline) && outPipeline == old(outPipeline) && appsrc == old(appsrc)
      ensures inSrc == old(inSrc) && numFrames == old(numFrames) && handler == old(handler)
      ensures submitted == old(submitted) && errorsLogged == old(errorsLogged)
      ensures stampedFrames == old(stampedFrames)
    {
      ftImage := Progress(ftImage, ev);
    }
  }

  /**
   * `stop` called twice on one processor, as `close_video` followed by
   * `__del__` does: the first unregisters `self.stop`, and the second,
   * finding it gone, raises `ValueError` from `list.remove`.
   */
  method SecondStopRaises(d: nat) returns (first: Outcome, second: Outcome, callbacks: seq<GLib.Callback>)
    requires d > 0
    ensures first == Pass && second == Fail(ValueError) && callbacks == []
  {
    var glib := new GLib.GLibThread();
    var p := new StreamProc(glib, 3, d);
    p.Run(JpegImage);
    first := p.Stop();
    Lists.RemoveFirstHead([3], 3);
    second := p.Stop();
    callbacks := glib.stopCallbacks;
  }

  /**
   * Frames arriving faster than the detector works: five samples reach a
   * fresh JPEG-mode processor before the executor starts the first job.
   * Only the first is submitted; the other four are dropped, and all five
   * are counted.
   */
  method BurstWhileBusy(f0: Sample, f1: Sample, f2: Sample, f3: Sample, f4: Sample)
    returns (submitted: seq<Sample>, counted: nat)
    ensures submitted == [f0] && counted == 5
  {
    var glib := new GLib.GLibThread();
    var p := new StreamProc(glib, 0, 1);
    p.Run(JpegImage);
    var r := p.OnNewBuffer(f0);
    r := p.OnNewBuffer(f1);
    r := p.OnNewBuffer(f2);
    r := p.OnNewBuffer(f3);
    r := p.OnNewBuffer(f4);
    submitted, counted := p.submitted, p.numFrames;
  }

  /**
   * In WEBM mode a 640x480 frame is followed by a 320x240 one: a single
   * encoder is built, for 640x480, and both frames go into it, stamped 0
   * and one frame duration.
   */
  method GeometryFixedByFirstFrame(d: nat, a: seq<byte>, b: seq<byte>)
    returns (caps: Caps, stamps: seq<nat>)
    requires d > 0 && |a| == 640 * 480 * 3 && |b| == 320 * 240 * 3
    ensures caps == Encoder(640, 480) && stamps == [0, d]
  {
    var glib := new GLib.GLibThread();
    var p := new StreamProc(glib, 0, d);
    p.Run(WebmStream);
    var r := p.OnNewBuffer(Sample(640, 480, a));
    var encoder := p.appsrc;
    r := p.OnNewBuffer(Sample(320, 240, b));
    assert p.appsrc == encoder;
    caps := encoder.caps;
    stamps := [encoder.pushed[0].pts, encoder.pushed[1].pts];
  }
}
