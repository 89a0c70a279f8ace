# Webcam object detection over a websocket: a Dafny model

The system streams a browser's webcam to a Python server over a websocket.

- The browser records WebM chunks and sends them.
- The server decodes them with GStreamer.
- In JPEG mode, the server hands each decoded frame to a one-worker executor that runs the darknet detector and sends an annotated JPEG back.
- In WEBM mode, the server re-encodes the frames into a WebM stream that it sends back.

This project models the server's bookkeeping and the client's decisions.

- `wrappers.dfy` (`Wrappers`) holds `Option` and the `Outcome` of a Python call: it either returns or raises one of the exceptions the code can raise.
- `lists.dfy` (`Lists`) holds the Python list operations the server uses. `list.remove` is `RemoveFirst`, which fails when the element is absent. It also holds the guarded append and remove of `cl`.
- `glib_thread.dfy` (`GLib`) models `GLibThread`. It keeps the ordered list of stop callbacks, and its `stop` walks that list by index while the callbacks may remove themselves from it.
- `darknet_proc.dfy` (`Detector`) models `DarknetProc.destroy`.
- `stream_proc.dfy` (`Stream`) models `StreamProc`, the per-connection processor. It covers:
  - its two pipelines, which are objects carrying a state and the buffers pushed into them;
  - the image future, which is a value that the executor advances;
  - the frame counter and the WebM time stamps.
- `base64.dfy` (`Base64`) models the client's `encode`. The loop is proved equal to the encoding of section 4 of RFC 4648, and that encoding is proved to be inverted by the RFC's decoding.
- `client.dfy` (`Client`) models the rest of `static/app.js`:
  - the websocket scheme;
  - the `startRecording` decision table;
  - the send guard;
  - the incoming-image handler, which keeps a single object URL live.
- `app.dfy` (`App`) models `VideoWebSocketHandler` and the registry `cl`.

The model keeps these behaviours of the code:

- A callback that raises inside `GLibThread.stop` ends the iteration: later callbacks are not invoked. The loop is still quit, in the `finally`.
- Calling `StreamProc.stop` a second time is not a no-op. `list.remove` raises `ValueError` because the callback is already gone. This is what the destructor `__del__` does after `close_video` has stopped the processor: see `Stream.SecondStopRaises`.
- `close_video` is idempotent only when the first call succeeded. If `stop` raised, the processor is kept.
- `GLibThread.stop` does not join the loop thread.
- End-of-stream and error messages only set the pipeline's state to `NULL`. They clear no field and report nothing upward.
- `stop` clears `in_pipeline` and `out_pipeline` but not `appsrc`. A WEBM frame after `stop` is therefore pushed into the stale encoder, and no new encoder is built.
- In the client, a socket replaced by `initConnection` keeps its `close` listener, which tests the shared recorder. When the old socket finally closes, it stops a recording started on the new one: see `Client.StaleCloseStopsNewRecording`.

## Model

| member | source | states |
|---|---|---|
| Lists.RemoveFirst | python/streamproc.py:75-76 | `list.remove` succeeds exactly when the element is present. It then removes one occurrence and leaves every other element's multiplicity alone. |
| Lists.RemoveFirstNoDup | python/app.py:81-82 | In a list without duplicates, removing a member leaves a duplicate-free list that holds exactly the other members. |
| Lists.RemoveTwiceFails | python/streamproc.py:75-76 | An element registered once can be removed once. A second removal fails. |
| Lists.AppendIfAbsent | python/app.py:56-57 | Appends only an absent element, so a duplicate-free list stays duplicate-free and the element is present afterwards. |
| Lists.RemoveIfPresent | python/app.py:81-82 | Removes one occurrence of the element when present, so the multiset loses exactly that element. Otherwise the list is unchanged. A duplicate-free list stays duplicate-free, no longer holds the element, and keeps every other member. |
| GLib.GLibThread.constructor | python/streamproc.py:59-70 | The loop runs and no callback is registered. |
| GLib.GLibThread.Register | python/streamproc.py:72-73 | The callback is appended at the end. |
| GLib.GLibThread.Unregister | python/streamproc.py:75-76 | Succeeds exactly when the callback is registered, removing its first occurrence. Otherwise raises `ValueError` and leaves the list unchanged. |
| GLib.RunFrom | python/streamproc.py:91-92 | The by-index `for` loop over the live list: the list that remains is never longer than the one it started with. |
| GLib.RunFromShrinks | python/streamproc.py:91-92 | As a multiset, the list that remains is contained in the registered one, and every callback that left it was invoked: callbacks only leave the list, by removing themselves. |
| GLib.RunFromBounded | python/streamproc.py:91-92 | The loop invokes at most one callback per list position from where it starts, and none when it starts past the end. |
| GLib.RaiseEndsRun | python/streamproc.py:90-94 | Whatever the callbacks do, `stop` raises exactly when the last callback it invoked raised, and no earlier invoked callback raised. |
| GLib.GLibThread.Stop | python/streamproc.py:88-94 | The index loop over the live list does what `RunFrom` describes: which callbacks run, which list remains, whether it raised. The loop is quit in every case. |
| GLib.StopInvokesAllInOrder | python/streamproc.py:88-94 | When every callback returns, all of them run in registration order and the list is kept. |
| GLib.StopSkipsAfterRaise | python/streamproc.py:90-94 | When the callback at position k raises, only callbacks 0..k run, and `stop` raises. |
| GLib.SelfRemovalSkipsNext | python/streamproc.py:91-92 | Callbacks that unregister themselves, like `StreamProc.stop`, run only at every other position. The skipped ones stay registered. |
| GLib.TwoStreamsSecondSkipped | python/streamproc.py:88-94 | With two processors registered, shutdown stops the first only, and the second stays registered. |
| GLib.FourStreamsTwoStops | python/streamproc.py:88-94 | With four processors registered, a first `stop` leaves the second and fourth registered, and a second `stop`, such as the `atexit` hook's, still leaves the fourth. |
| GLib.GLibThread.StopSnapshot | python/streamproc.py:88-94 | Corrected `stop` over a copy of the list: does what `RunSnapshot` describes, and the loop is quit. |
| GLib.RunSnapshot | python/streamproc.py:88-94 | The corrected loop over a copy invokes at most one callback per entry of the copy, the live list never grows, and it raises only when the last invoked callback raised. |
| GLib.RunSnapshotShrinks | python/streamproc.py:88-94 | Over a copy too, the live list that remains is contained in the registered one as a multiset, and every callback that left it was invoked. |
| GLib.SnapshotRunsPrefix | python/streamproc.py:88-94 | Over a copy, the callbacks invoked are the copy's first ones, in registration order. |
| GLib.SnapshotInvokesAll | python/streamproc.py:88-94 | Over a copy, every callback that does not raise runs, in registration order. |
| GLib.SnapshotStopsAllStreams | python/streamproc.py:88-94 | Over a copy, every self-unregistering processor is stopped, and the list ends empty. |
| Detector.DarknetProc.constructor | python/streamproc.py:21-25 | The handle is live and nothing has been freed. |
| Detector.DarknetProc.Destroy | python/streamproc.py:27-31 | Frees the handle only when it is still held, then forgets it. The handle is freed at most once. |
| Detector.ShutdownFreesOnce | python/streamproc.py:48-49 | `destroy` run from both `atexit` and `__del__` frees the handle exactly once. |
| Stream.Done | python/streamproc.py:212 | `done()` holds exactly for a submitted future that is no longer waiting or running, and `cancel()` leaves a done future as it is. |
| Stream.Cancel | python/streamproc.py:128-129 | `cancel` turns only a not-yet-started future into a cancelled one. Any other future is left alone. |
| Stream.Progress | python/streamproc.py:222 | The executor starts a pending job and finishes a running one. A finished future never changes. |
| Stream.Admit | python/streamproc.py:212-216 | A frame is submitted exactly when there is no future or it finished, and the previous error is logged exactly when it failed. It is dropped exactly when the job is pending or running. `exception()` raises exactly when the job was cancelled. |
| Stream.StampNext | python/streamproc.py:234-239 | Pushing frame n stamped n times the duration keeps every stamp equal to its frame number times the duration. |
| Stream.StampsIncrease | python/streamproc.py:234-246 | Encoder time stamps strictly increase, each at least one frame duration after the previous. |
| Stream.StreamProc.constructor | python/streamproc.py:104-118 | Nothing is built, the counter is 0, there is no future, and `self.stop` is appended to the loop's callbacks. |
| Stream.StreamProc.Stop | python/streamproc.py:120-130 | Each present pipeline is set to `NULL` and cleared, and the future is cancelled. `appsrc`, the counter and the mode are kept. Raises `ValueError` exactly when the callback was no longer registered. |
| Stream.StreamProc.Run | python/streamproc.py:295-318 | Records the mode and builds a new decoder, which is `PLAYING`. Nothing else changes. |
| Stream.StreamProc.ProcessData | python/streamproc.py:320-323 | Pushes the bytes unchanged into the decoder's source. Raises `AttributeError` exactly when `run` was never called. |
| Stream.StreamProc.CreateOutPipeline | python/streamproc.py:135-164 | Builds a new encoder for the given size, `PLAYING`, as the new `appsrc`. |
| Stream.StreamProc.OnNewBuffer | python/streamproc.py:200-248 | Dispatches on the mode and counts every frame unless a branch raised. JPEG mode follows `Admit`. WEBM mode pushes the stamped frame into the existing encoder, or into a new one sized from this frame when there is none. Any other mode only counts. |
| Stream.StreamProc.JpegFrame | python/streamproc.py:210-222 | Submits, drops or raises exactly as `Admit` says, so the submitted frames grow only when no job is outstanding. |
| Stream.StreamProc.WebmFrame | python/streamproc.py:224-246 | Raises exactly when the frame is shorter than width x height x 3. Otherwise pushes its prefix stamped with the counter times the duration, building the encoder only when there is none. |
| Stream.StreamProc.OnMessage | python/streamproc.py:250-279 | On the decoder's bus, end-of-stream or an error sets a present decoder to `NULL`. Other messages change nothing. |
| Stream.StreamProc.OnOutMessage | python/streamproc.py:281-293 | The same, for the encoder's bus. |
| Stream.StreamProc.JobProgress | python/streamproc.py:222 | The future advances as `Progress` says. Nothing else changes. |
| Stream.SecondStopRaises | python/streamproc.py:130-133 | Stopping one processor twice: the first stop unregisters it, and the second raises `ValueError`. |
| Stream.BurstWhileBusy | python/streamproc.py:212-222 | Five frames before the job starts: only the first is submitted, and all five are counted. |
| Stream.GeometryFixedByFirstFrame | python/streamproc.py:241-244 | A 640x480 frame followed by a 320x240 one: one encoder, sized 640x480, receives both frames, stamped 0 and d. |
| Base64.Digits | python/static/app.js:178-181 | The four 6-bit digits of a 24-bit group, each below 64. |
| Base64.DigitsOfBytes | python/static/app.js:178-181 | The client's shifts and masks compute exactly those four digits. |
| Base64.Encode | python/static/app.js:167-192 | The loop, reading NaN past the end, returns the RFC encoding of its input. |
| Base64.LoopGroup | python/static/app.js:174-189 | One pass of the loop emits the four characters of the group it read, padding included. |
| Base64.EncodedLength | python/static/app.js:173-189 | The output has 4 * ceil(n / 3) characters, so empty input gives an empty string. |
| Base64.GroupLength | python/static/app.js:188-189 | Each group yields four characters. |
| Base64.EncodedAlphabet | python/static/app.js:168-189 | Every output character is one of the 65 characters of `keyStr`. |
| Base64.IndexOfKeyStr | python/static/app.js:168 | The 65 characters of `keyStr` are distinct. |
| Base64.SymbolIsNotPad | python/static/app.js:168 | A data index never yields `=`. |
| Base64.GroupPadding | python/static/app.js:183-187 | In a group, the third character is `=` exactly for one byte, and the fourth exactly for one or two bytes. |
| Base64.EncodedPadding | python/static/app.js:175-187 | `=` occurs exactly at the last two positions when n % 3 == 1, exactly at the last one when n % 3 == 2, and nowhere otherwise. |
| Base64.GroupRoundTrip | python/static/app.js:178-187 | Decoding an encoded group gives the group back. |
| Base64.RoundTrip | python/static/app.js:167-192 | Decoding the encoding of any byte sequence gives it back. |
| Client.WsScheme | python/static/app.js:19-22 | `http` becomes `ws` and `https` becomes `wss`, and other schemes are kept. The result is never `http` or `https`, and it is `wss` exactly for `https` or `wss`. |
| Client.WsSchemeIdempotent | python/static/app.js:19-22 | Rewriting twice gives the same scheme as rewriting once. |
| Client.CodeIsOpen | python/static/app.js:131-133 | `readyState` is 1 exactly for an open socket and 0 exactly for a connecting one. |
| Client.StartDecision | python/static/app.js:127-143 | The recorder is started only when it is inactive and the socket is open, always in 100 ms chunks. It waits only on a connecting socket. A new socket replaces only a missing one or one whose `readyState` is past `OPEN`. |
| Client.StartDecisionTable | python/static/app.js:127-143 | `startRecording`'s decision, row by row and in both directions. A recording recorder is left alone. Otherwise an open socket starts 100 ms chunks, a connecting one is waited for, and a missing, closing or closed one is replaced and then waited for. |
| Client.ShouldSend | python/static/app.js:54 | The guard lets a chunk through only on an open socket and only when it is not empty. |
| Client.ShouldSendExactly | python/static/app.js:53-56 | A chunk is sent exactly when the socket is open and the chunk is not empty. |
| Client.Page.constructor | python/static/app.js:162-163 | Page load opens one socket. There is no recorder yet and no object URL. |
| Client.Page.OpenWebcam | python/static/app.js:44 | The recorder exists and is inactive. |
| Client.Page.InitConnection | python/static/app.js:84-86 | Replaces the socket with a new one. The old socket's `close` event is still to come unless it has already closed. |
| Client.Page.StartRecording | python/static/app.js:127-143 | Without a recorder it raises `TypeError`. Otherwise it does what the decision table says: afterwards the recorder records, or a connecting socket has the `open` listener. It opens a new socket only when the old one was closing or closed, and then a closing one still owes its `close` event. |
| Client.Page.StopRecording | python/static/app.js:145-150 | Stops the recorder and starts closing a connecting or open socket. Without a recorder it raises `TypeError`. |
| Client.Page.OnSocketOpen | python/static/app.js:122-125 | The socket opens. A waiting listener removes itself and starts the recorder. |
| Client.Page.OnSocketClose | python/static/app.js:116-119 | The socket is closed and an active recorder is stopped. Without a recorder it raises `TypeError`. |
| Client.Page.OnStaleSocketClose | python/static/app.js:116-119 | The late `close` of a replaced socket stops an active recorder, whichever socket it records to. Without a recorder it raises `TypeError`. The current socket is unchanged. |
| Client.Page.OnChunkRead | python/static/app.js:53-56 | Appends the chunk to what the socket sent exactly when the guard allows it. Only non-empty chunks are ever sent. |
| Client.Page.OnMessage | python/static/app.js:88-106 | While the image is loading, the message is dropped. Otherwise the old URL is revoked and a new one is created and shown, so exactly one URL is live. |
| Client.RecordAfterStop | python/static/app.js:127-150 | Record, stop, record again: a second socket is opened and the recorder records once it opens. |
| Client.StaleCloseStopsNewRecording | python/static/app.js:116-150 | Stop, then record again while the old socket is still closing: the new socket opens and the recorder records, then the old socket's late `close` stops it although the current socket is open. |
| Client.ImagesLeaveOneUrl | python/static/app.js:88-106 | After ten messages, one of them dropped, exactly one object URL is live, and it is the one shown. |
| App.Registry.constructor | python/app.py:35 | `cl` starts empty. |
| App.Registry.Join | python/app.py:56-57 | The handler is listed afterwards, no other entry is added, and `cl` stays duplicate-free. |
| App.Registry.Leave | python/app.py:81-82 | The handler is no longer listed, every other entry is kept, and `cl` stays duplicate-free. |
| App.Handler.constructor | python/app.py:39-44 | A new handler has no processor. |
| App.Handler.CloseVideo | python/app.py:46-49 | Without a processor, nothing happens. Otherwise each pipeline the processor held is set to `NULL` and cleared, its future is cancelled, and its encoder source and counter are kept. Its callback is unregistered and it is forgotten, or `ValueError` propagates and it is kept. |
| App.Handler.Open | python/app.py:54-61 | Lists the handler in `cl` if absent, which keeps `cl` duplicate-free. Closes the old processor first: its pipelines are set to `NULL` and cleared and its future is cancelled. Only if that succeeds does it create and run a JPEG-mode processor, whose callback replaces the old one's at the end of the loop's list. |
| App.Handler.OnOutData | python/app.py:63-70 | Writes exactly the non-empty results whose write succeeds. A failed write closes the processor as `close_video` does: its pipelines are set to `NULL` and cleared, its future is cancelled, and its callback is unregistered, or `ValueError` propagates with the callback list unchanged. |
| App.Handler.OnMessage | python/app.py:72-74 | Forwards the message unchanged to the processor's decoder. Raises `AttributeError` exactly when there is no processor. |
| App.Handler.OnClose | python/app.py:79-83 | Removes the handler from `cl`, keeping every other entry, then closes the processor as `close_video` does: pipelines set to `NULL` and cleared, future cancelled, callback unregistered or `ValueError`. |
| App.SessionLifecycle | python/app.py:54-83 | Open, message, close: the handler is listed while open, and the message reaches the decoder. Afterwards `cl` and the loop's callbacks are empty again. |
| App.TwoClientsOneLeaves | python/app.py:79-83 | When one of two clients leaves, only its entry and its processor's callback go. |
| App.CloseAfterShutdownRaises | python/app.py:46-49 | After the loop's shutdown has stopped the processor, `on_close` raises `ValueError` and the handler keeps the processor. |
| App.CloseVideoTwice | python/app.py:46-49 | A second `close_video` does nothing. |
| App.MessageAfterCloseFails | python/app.py:72-74 | A message after `close_video` raises `AttributeError`. |

## Left out

- GStreamer itself is abstracted. Pipelines are objects with a state and a log of pushed buffers. The model has no pipeline descriptions, caps negotiation, appsink signals or buffer allocation. A decoded sample is a parameter with its width, height and bytes.
- The `STATE_CHANGED` caps probe in `on_message` only logs, so it is modelled as "no state change".
- Threads, the executor, locks, `atexit` and signal handlers are left out. Each event is a sequential method call. The executor's progress is the environment step `JobProgress`, and a failed websocket write is a boolean parameter.
- The frame duration is an abstract positive number in `Stream`; `App` uses whole nanoseconds for 30 fps. The source computes `1.0 / fps * Gst.SECOND` in floating point.
- `_process_bufdata_to_jpeg`, `DarknetProc.process_image` and all of `darknet.py` are native or numpy calls and are left out. The handle is an opaque token.
- `on_out_buffer` and its `dump.webm` file writes are file I/O and are left out. The encoder's output reaches the handler as the `data` parameter of `OnOutData`.
- Tornado routing, static files, `check_origin` and logging are left out.
- The DOM, `MediaRecorder`, `FileReader`, modals and `getUserMedia` are left out. The client's closure variables are the fields of `Client.Page`. The image element's loading state is the `imageComplete` parameter.
- Client.Page: the socket variable is always set, because the page opens one at load. The "no connection" row of `startRecording` appears only in `Client.StartDecision`.
- Client.Page: the recorder is never paused, because the client never pauses it.
- Client.Page: a replaced socket is kept only as a count of `close` events still to come. Its own state is not tracked. A message it still delivers goes to `OnMessage`, which does not look at the socket.
- Base64.Encode: bytes are integers below 256, so the shifts, masks and `|` are written as division, remainder, multiplication and addition on non-overlapping bit ranges.
- Base64.Decode: the client contains no decoder. `Decode` is the RFC's inverse, used only to state the round trip.
- GLib.GLibThread.Stop: a callback's behaviour (return, raise, or unregister itself) is an input function, not the callback's code.
- Stream.StreamProc.OnNewBuffer: a numpy buffer longer than width x height x 3 is cut to that length, and one shorter raises `TypeError`. The exact numpy exception type is not modelled beyond that.
- App.Handler.Open: the identity of the new processor's `stop` callback is a parameter, because Python gives every new bound method its own identity.

## Findings

| source | as written | input that shows it | evidently intended | confidence | as-written member | corrected member |
|---|---|---|---|---|---|---|
| python/streamproc.py:88-94 | `for cb in self.stop_callbacks` walks the live list by index, and each `StreamProc.stop` callback removes itself from that list (line 130), so the next callback slides into the slot already visited and is skipped | two open connections, callbacks [a, b], both `StreamProc.stop`: one call of `stop` runs `a` only and leaves `b` registered, with its pipelines still playing. A later call (the `atexit` hook after the signal handler's call) reaches `b`; with four processors the fourth is not reached even by two calls (`GLib.FourStreamsTwoStops`) | every registered callback runs once, which needs iteration over a copy of the list | not executed | GLib.TwoStreamsSecondSkipped | GLib.SnapshotStopsAllStreams |
