/**
 * The websocket endpoint of `app.py`: the module-level list `cl` of open
 * handlers and `VideoWebSocketHandler`, which owns at most one `StreamProc`
 * for its connection. A handler is known by an identity number; the
 * process-wide `glib_thread` is shared by every handler.
 */
module App {
  import opened Wrappers
  import Lists
  import GLib
  import Stream

  /** `Gst.SECOND / fps` with `fps == 30`, in whole nanoseconds. */
  const FrameDuration: nat := 1_000_000_000 / 30

  /** `cl`: the identities of the handlers whose connection is open. */
  class Registry {
    var members: seq<nat>

    /** `open` and `on_close` test membership first, so no handler is listed twice. */
    ghost predicate Valid()
      reads this
    {
      Lists.NoDup(members)
    }

    /** `cl = []` */
    constructor ()
      ensures Valid() && members == []
    {
      members := [];
    }

    /** `if self not in cl: cl.append(self)` */
    method Join(h: nat)
      requires Valid()
      modifies this
      ensures Valid() && members == Lists.AppendIfAbsent(old(members), h)
      ensures h in members && forall g :: g in members <==> g in old(members) || g == h
    {
      members := Lists.AppendIfAbsent(members, h);
    }

    /** `if self in cl: cl.remove(self)` */
    method Leave(h: nat)
      requires Valid()
      modifies this
      ensures Valid() && members == Lists.RemoveIfPresent(old(members), h)
      ensures h !in members && forall g :: g in members <==> g in old(members) && g != h
    {
      members := Lists.RemoveIfPresent(members, h);
    }
  }

  class Handler {
    const id: nat
    const cl: Registry
    const glib: GLib.GLibThread
    /** `self.stream_proc` */
    var streamProc: Stream.StreamProc?
    /** The binary messages `write_message` delivered to the client, in order. */
    var written: seq<seq<Stream.byte>>

    /**
     * A processor the handler holds was made by `open`, which always ran
     * it, so its decoder source exists; it registers with the shared loop.
     */
    ghost predicate Valid()
      reads this, streamProc, if streamProc != null then {streamProc.appsrc} else {}
    {
      streamProc != null ==>
        && streamProc.Valid()
        && streamProc.glib == glib
        && streamProc.inSrc != null
    }

    /** `__init__`: no processor yet. */
    constructor (id: nat, cl: Registry, glib: GLib.GLibThread)
      ensures Valid()
      ensures this.id == id && this.cl == cl && this.glib == glib
      ensures streamProc == null && written == []
    {
      this.id := id;
      this.cl := cl;
      this.glib := glib;
      streamProc := null;
      written := [];
    }

    /**
     * `close_video`: stops the processor if there is one and forgets it.
     * When `stop` raises `ValueError` (its callback was already
     * unregistered) the exception propagates and the processor is kept,
     * although its pipelines have been stopped by then.
     */
    method CloseVideo() returns (r: Outcome)
      requires Valid()
      modifies this, glib
      modifies if streamProc != null then {streamProc, streamProc.inPipeline, streamProc.outPipeline} else {}
      ensures Valid()
      ensures written == old(written)
      ensures glib.loopRunning == old(glib.loopRunning)
      ensures old(streamProc) == null ==>
        r == Pass && streamProc == null && glib.stopCallbacks == old(glib.stopCallbacks)
      ensures old(streamProc) != null ==>
        && old(streamProc).inPipeline == null && old(streamProc).outPipeline == null
        && (old(streamProc.inPipeline) != null ==> old(streamProc.inPipeline).state == Stream.Null)
        && (old(streamProc.outPipeline) != null ==> old(streamProc.outPipeline).state == Stream.Null)
        && old(streamProc).ftImage == Stream.Cancel(old(streamProc.ftImage))
        && old(streamProc).appsrc == old(streamProc.appsrc) && old(streamProc).numFrames == old(streamProc.numFrames)
        && (r.Pass? <==> old(streamProc).callback in old(glib.stopCallbacks))
        && (r.Pass? ==> Some(glib.stopCallbacks) == Lists.RemoveFirst(old(glib.stopCallbacks), old(streamProc).callback))
      ensures r.Pass? ==> streamProc == null
      ensures r.Fail? ==>
        r.error == ValueError && streamProc == old(streamProc) && glib.stopCallbacks == old(glib.stopCallbacks)
    {
      r := Pass;
      if streamProc != null {
        r := streamProc.Stop();
        if r.Pass? {
          streamProc := null;
        }
      }
    }

    /**
     * `open`: lists the handler in `cl` if it is not there yet, closes any
     * previous processor, then creates a new one, whose `stop` is known as
     * `cb`, and runs it in JPEG mode. If closing the previous processor
     * raises, no new one is created.
     */
    method Open(cb: GLib.Callback) returns (r: Outcome)
      requires Valid() && cl.Valid()
      modifies this, glib, cl
      modifies if streamProc != null then {streamProc, streamProc.inPipeline, streamProc.outPipeline} else {}
      ensures Valid() && cl.Valid()
      ensures cl.members == Lists.AppendIfAbsent(old(cl.members), id)
      ensures written == old(written)
      ensures glib.loopRunning == old(glib.loopRunning)
      ensures r.Pass? <==> old(streamProc) == null || old(streamProc).callback in old(glib.stopCallbacks)
      ensures old(streamProc) != null ==>
        && old(streamProc).inPipeline == null && old(streamProc).outPipeline == null
        && (old(streamProc.inPipeline) != null ==> old(streamProc.inPipeline).state == Stream.Null)
        && (old(streamProc.outPipeline) != null ==> old(streamProc.outPipeline).state == Stream.Null)
        && old(streamProc).ftImage == Stream.Cancel(old(streamProc.ftImage))
        && old(streamProc).appsrc == old(streamProc.appsrc) && old(streamProc).numFrames == old(streamProc.numFrames)
      ensures r.Fail? ==>
        r.error == ValueError && streamProc == old(streamProc) && glib.stopCallbacks == old(glib.stopCallbacks)
      ensures r.Pass? ==>
        && streamProc != null && fresh(streamProc) && streamProc.callback == cb
        && streamProc.handler == Some(Stream.JpegImage)
        && streamProc.inPipeline != null && fresh(streamProc.inPipeline) && streamProc.inSrc == streamProc.inPipeline
        && streamProc.inPipeline.state == Stream.Playing && streamProc.inPipeline.pushed == []
        && streamProc.outPipeline == null && streamProc.numFrames == 0
      ensures r.Pass? && old(streamProc) == null ==>
        glib.stopCallbacks == old(glib.stopCallbacks) + [cb]
      ensures r.Pass? && old(streamProc) != null ==>
        && |glib.stopCallbacks| == |old(glib.stopCallbacks)|
        && Some(glib.stopCallbacks[..|glib.stopCallbacks| - 1]) == Lists.RemoveFirst(old(glib.stopCallbacks), old(streamProc).callback)
        && glib.stopCallbacks[|glib.stopCallbacks| - 1] == cb
    {
      cl.Join(id);
      r := CloseVideo();
      if r.Fail? {
        return;
      }
      ghost var remaining := glib.stopCallbacks;
      var p := new Stream.StreamProc(glib, cb, FrameDuration);
      p.Run(Stream.JpegImage);
      streamProc := p;
      assert glib.stopCallbacks[..|glib.stopCallbacks| - 1] == remaining;
    }

    /**
     * `on_out_data`: a non-empty result is written back to the client; when
     * the write fails with a websocket error, the error is logged and the
     * processor is closed, which may itself raise.
     */
    method OnOutData(data: seq<Stream.byte>, writeFails: bool) returns (r: Outcome)
      requires Valid()
      modifies this, glib
      modifies if streamProc != null then {streamProc, streamProc.inPipeline, streamProc.outPipeline} else {}
      ensures Valid()
      ensures glib.loopRunning == old(glib.loopRunning)
      ensures |data| == 0 || !writeFails ==>
        && r == Pass && streamProc == old(streamProc) && glib.stopCallbacks == old(glib.stopCallbacks)
      ensures written == if |data| > 0 && !writeFails then old(written) + [data] else old(written)
      ensures |data| > 0 && writeFails ==>
        && (old(streamProc) == null ==> r == Pass && streamProc == null)
        && (old(streamProc) != null ==> (r.Pass? <==> old(streamProc).callback in old(glib.stopCallbacks)))
        && (old(streamProc) != null ==>
          && old(streamProc).inPipeline == null && old(streamProc).outPipeline == null
          && (old(streamProc.inPipeline) != null ==> old(streamProc.inPipeline).state == Stream.Null)
          && (old(streamProc.outPipeline) != null ==> old(streamProc.outPipeline).state == Stream.Null)
          && old(streamProc).ftImage == Stream.Cancel(old(streamProc.ftImage))
          && old(streamProc).appsrc == old(streamProc.appsrc) && old(streamProc).numFrames == old(streamProc.numFrames)
          && (r.Pass? ==> Some(glib.stopCallbacks) == Lists.RemoveFirst(old(glib.stopCallbacks), old(streamProc).callback)))
        && (r.Fail? ==> glib.stopCallbacks == old(glib.stopCallbacks))
        && (r.Pass? ==> streamProc == null)
        && (r.Fail? ==> r.error == ValueError && streamProc == old(streamProc))
    {
      r := Pass;
      if |data| > 0 {
        if !writeFails {
          written := written + [data];
        } else {
          r := CloseVideo();
        }
      }
    }

    /**
     * `on_message`: the client's bytes go to the processor; with no
     * processor, `None.process_data` raises `AttributeError`.
     */
    method OnMessage(message: seq<Stream.byte>) returns (r: Outcome)
      requires Valid()
      modifies if streamProc != null then {streamProc.inSrc} else {}
      ensures Valid()
      ensures r.Fail? <==> streamProc == null
      ensures r.Fail? ==> r.error == AttributeError
      ensures streamProc != null ==>
        streamProc.inSrc.pushed == old(streamProc.inSrc.pushed) + [Stream.Data(message)]
    {
      if streamProc == null {
        r := Fail(AttributeError);
      } else {
        r := streamProc.ProcessData(message);
      }
    }

    /** `on_close`: leaves `cl` if listed there, then closes the processor. */
    method OnClose() returns (r: Outcome)
      requires Valid() && cl.Valid()
      modifies this, glib, cl
      modifies if streamProc != null then {streamProc, streamProc.inPipeline, streamProc.outPipeline} else {}
      ensures Valid() && cl.Valid()
      ensures cl.members == Lists.RemoveIfPresent(old(cl.members), id)
      ensures id !in cl.members
      ensures forall h :: h in cl.members <==> h in old(cl.members) && h != id
      ensures written == old(written)
      ensures glib.loopRunning == old(glib.loopRunning)
      ensures old(streamProc) == null ==>
        r == Pass && streamProc == null && glib.stopCallbacks == old(glib.stopCallbacks)
      ensures old(streamProc) != null ==>
        && old(streamProc).inPipeline == null && old(streamProc).outPipeline == null
        && (old(streamProc.inPipeline) != null ==> old(streamProc.inPipeline).state == Stream.Null)
        && (old(streamProc.outPipeline) != null ==> old(streamProc.outPipeline).state == Stream.Null)
        && old(streamProc).ftImage == Stream.Cancel(old(streamProc.ftImage))
        && old(streamProc).appsrc == old(streamProc.appsrc) && old(streamProc).numFrames == old(streamProc.numFrames)
        && (r.Pass? <==> old(streamProc).callback in old(glib.stopCallbacks))
        && (r.Pass? ==> Some(glib.stopCallbacks) == Lists.RemoveFirst(old(glib.stopCallbacks), old(streamProc).callback))
      ensures r.Pass? ==> streamProc == null
      ensures r.Fail? ==>
        r.error == ValueError && streamProc == old(streamProc) && glib.stopCallbacks == old(glib.stopCallbacks)
    {
      cl.Leave(id);
      assert streamProc != null ==>
        && streamProc.inPipeline == old(streamProc.inPipeline) && streamProc.outPipeline == old(streamProc.outPipeline)
        && streamProc.ftImage == old(streamProc.ftImage);
      r := CloseVideo();
    }
  }

  /**
   * One connection from open to close: the handler is listed while open,
   * its processor receives the client's message, and on close the handler
   * leaves `cl` and the processor's `stop` leaves the loop's callbacks.
   */
  method SessionLifecycle(message: seq<Stream.byte>)
    returns (listedWhileOpen: bool, pushed: seq<Stream.Buffer>, listed: seq<nat>, callbacks: seq<GLib.Callback>, r: Outcome)
    ensures listedWhileOpen && pushed == [Stream.Data(message)]
    ensures listed == [] && callbacks == [] && r == Pass
  {
    var glib, cl, h := OpenOne(7, 70);
    listedWhileOpen := 7 in cl.members;
    var decoder := h.streamProc.inSrc;
    r := h.OnMessage(message);
    pushed := decoder.pushed;
    r := h.OnClose();
    listed, callbacks := cl.members, glib.stopCallbacks;
  }

  /** A fresh handler on a fresh loop and `cl`, opened with a processor whose `stop` is `cb`. */
  method OpenOne(id: nat, cb: GLib.Callback) returns (glib: GLib.GLibThread, cl: Registry, h: Handler)
    ensures fresh(glib) && fresh(cl) && fresh(h) && h.Valid() && cl.Valid()
    ensures h.id == id && h.cl == cl && h.glib == glib
    ensures cl.members == [id] && glib.stopCallbacks == [cb]
    ensures h.streamProc != null && fresh(h.streamProc) && h.streamProc.callback == cb
    ensures h.streamProc.inPipeline != null && fresh(h.streamProc.inPipeline) && h.streamProc.outPipeline == null
    ensures h.streamProc.inSrc == h.streamProc.inPipeline && h.streamProc.inPipeline.pushed == []
  {
    glib := new GLib.GLibThread();
    cl := new Registry();
    h := new Handler(id, cl, glib);
    var r := h.Open(cb);
  }

  /** Handlers 1 and 2 on one loop and one `cl`, each opened with its own processor; the first is returned. */
  method OpenTwo() returns (glib: GLib.GLibThread, cl: Registry, h1: Handler)
    ensures fresh(glib) && fresh(cl) && fresh(h1)
    ensures h1.Valid() && cl.Valid()
    ensures h1.id == 1 && h1.cl == cl && h1.glib == glib
    ensures h1.streamProc != null && fresh(h1.streamProc) && h1.streamProc.callback == 10
    ensures h1.streamProc.inPipeline != null && fresh(h1.streamProc.inPipeline) && h1.streamProc.outPipeline == null
    ensures cl.members == [1, 2] && glib.stopCallbacks == [10, 20]
  {
    glib := new GLib.GLibThread();
    cl := new Registry();
    h1 := new Handler(1, cl, glib);
    var h2 := new Handler(2, cl, glib);
    var r := h1.Open(10);
    r := h2.Open(20);
  }

  /**
   * Two clients are connected; when the first disconnects, only its entry
   * in `cl` and its processor's callback go, and the second's stay.
   */
  method TwoClientsOneLeaves() returns (listed: seq<nat>, callbacks: seq<GLib.Callback>)
    ensures listed == [2] && callbacks == [20]
  {
    var glib, cl, h1 := OpenTwo();
    var r := h1.OnClose();
    Lists.RemoveFirstHead([1, 2], 1);
    Lists.RemoveFirstHead([10, 20], 10);
    listed, callbacks := cl.members, glib.stopCallbacks;
  }

  /**
   * Once the loop's shutdown has run each processor's `stop` (which
   * unregisters it), closing the connection stops the processor a second
   * time: `unregister_stop_callback` raises `ValueError` out of `on_close`,
   * and the handler keeps its processor.
   */
  method CloseAfterShutdownRaises() returns (r: Outcome, kept: bool)
    ensures r == Fail(ValueError) && kept
  {
    var glib, cl, h := OpenOne(1, 10);
    var invoked;
    invoked, r := glib.Stop(cb => GLib.RemoveSelf);
    Lists.RemoveFirstHead([10], 10);
    r := h.OnClose();
    kept := h.streamProc != null;
  }

  /**
   * `close_video` twice: the first stops and forgets the processor, the
   * second finds none and does nothing.
   */
  method CloseVideoTwice() returns (first: Outcome, second: Outcome, callbacks: seq<GLib.Callback>, cleared: bool)
    ensures first == Pass && second == Pass && callbacks == [] && cleared
  {
    var glib, cl, h := OpenOne(1, 10);
    first := h.CloseVideo();
    Lists.RemoveFirstHead([10], 10);
    second := h.CloseVideo();
    callbacks, cleared := glib.stopCallbacks, h.streamProc == null;
  }

  /** A message arriving after `close_video` has cleared the processor raises `AttributeError`. */
  method MessageAfterCloseFails(message: seq<Stream.byte>) returns (r: Outcome)
    ensures r == Fail(AttributeError)
  {
    var glib, cl, h := OpenOne(1, 10);
    r := h.CloseVideo();
    r := h.OnMessage(message);
  }
}
