/**
 * The decisions of the browser client in `static/app.js`: the websocket URL
 * scheme, when to start recording, when to send a recorded chunk, and what
 * to do with an incoming image.
 *
 * The closure variables of the page (`recorder`, `connection`, `urlObject`)
 * are the fields of `Page`, and each event handler is a method. The browser
 * objects are reduced to what the handlers read: the recorder's state, the
 * socket's `readyState` with whether `onConnectedHandler` listens for its
 * `open` event, and the object URLs created and not yet revoked.
 */
module Client {
  import opened Wrappers

  /** A URL scheme, such as `"http"`. */
  type Scheme = string

  /**
   * The scheme of the websocket URL, derived from the page's own: plain
   * HTTP becomes `ws`, HTTPS becomes `wss`, any other scheme is kept.
   */
  function WsScheme(page: Scheme): (ws: Scheme)
    ensures ws != "http" && ws != "https"
    ensures ws == "wss" <==> page == "https" || page == "wss"
    ensures page != "http" && page != "https" ==> ws == page
  {
    if page == "http" then "ws"
    else if page == "https" then "wss"
    else page
  }

  /** Rewriting a websocket URL's scheme a second time changes nothing. */
  lemma WsSchemeIdempotent(page: Scheme)
    ensures WsScheme(WsScheme(page)) == WsScheme(page)
  {
  }

  /** `WebSocket.readyState` */
  datatype ReadyState = Connecting | Open | Closing | Closed
  {
    /** The number the client compares `readyState` with. */
    function Code(): (c: nat)
      ensures c <= 3
    {
      match this
      case Connecting => 0
      case Open => 1
      case Closing => 2
      case Closed => 3
    }
  }

  /** Distinct states have distinct codes, so `readyState === 1` holds exactly for an open socket. */
  lemma CodeIsOpen(s: ReadyState)
    ensures s.Code() == 1 <==> s == Open
    ensures s.Code() == 0 <==> s == Connecting
  {
  }

  /** `MediaRecorder.state`; the client never pauses its recorder. */
  datatype RecorderState = Inactive | Recording

  /** What `startRecording` does. */
  datatype StartAction =
    | AlreadyRecording       // returns at once
    | StartChunks(ms: nat)   // `recorder.start(ms)`
    | WaitForOpen            // listens for the socket's `open` event
    | Reconnect              // opens a new socket, then listens for its `open` event

  /** The chunk length `startRecording` asks of the recorder, in milliseconds. */
  const ChunkMs: nat := 100

  /** The decision table of `startRecording`, over the recorder's state and the socket (if any). */
  function StartDecision(recorder: RecorderState, connection: Option<ReadyState>): (a: StartAction)
    // the recorder is started only on an open socket, and always in 100 ms chunks
    ensures a.StartChunks? ==> a.ms == ChunkMs && recorder == Inactive && connection == Some(Open)
    ensures a == WaitForOpen ==> recorder == Inactive && connection == Some(Connecting)
    // a new socket replaces only a missing one or one past `OPEN`
    ensures a == Reconnect ==> recorder == Inactive && (connection.None? || connection.value.Code() > 1)
  {
    if recorder.Recording? then AlreadyRecording
    else if connection.Some? && (CodeIsOpen(connection.value); connection.value.Code() == 1) then StartChunks(ChunkMs)
    else if connection.Some? && connection.value.Code() == 0 then WaitForOpen
    else Reconnect
  }

  /**
   * The table, row by row: an active recorder is left alone; otherwise an
   * open socket starts 100 ms chunks, a connecting one is waited for, and a
   * missing, closing or closed one is replaced.
   */
  lemma StartDecisionTable(recorder: RecorderState, connection: Option<ReadyState>)
    ensures StartDecision(recorder, connection) == AlreadyRecording <==> recorder == Recording
    ensures StartDecision(recorder, connection) == StartChunks(100)
      <==> recorder == Inactive && connection == Some(Open)
    ensures StartDecision(recorder, connection) == WaitForOpen
      <==> recorder == Inactive && connection == Some(Connecting)
    ensures StartDecision(recorder, connection) == Reconnect
      <==> recorder == Inactive && (connection.None? || connection.value in {Closing, Closed})
  {
    if connection.Some? {
      CodeIsOpen(connection.value);
    }
  }

  /** The guard of `onloadend`: a chunk is sent only on an open socket, and only when it is not empty. */
  function ShouldSend(state: ReadyState, byteLength: nat): (send: bool)
    ensures send ==> state == Open
    ensures send ==> byteLength > 0
  {
    state.Code() == 1 && byteLength > 0
  }

  /** The guard admits exactly the non-empty chunks read while the socket is open. */
  lemma ShouldSendExactly(state: ReadyState, byteLength: nat)
    ensures ShouldSend(state, byteLength) <==> state == Open && byteLength > 0
  {
    CodeIsOpen(state);
  }

  /** One websocket as the handlers see it. */
  datatype Socket = Socket(
    state: ReadyState,
    /** Whether `onConnectedHandler` is registered for `open`; a listener is registered at most once. */
    waitsForOpen: bool,
    /** The chunks sent on this socket, in order, as bytes (`bv8`, as in the server model). */
    sent: seq<seq<bv8>>)

  /** `new WebSocket(...)`: a socket starts in `CONNECTING` with nothing sent. */
  function NewSocket(): (s: Socket)
    ensures s.state == Connecting && !s.waitsForOpen && s.sent == []
  {
    Socket(Connecting, false, [])
  }

  /** An object URL, as created by `URL.createObjectURL`. */
  type ObjectUrl = nat

  class Page {
    /** `recorder`: `None` until the webcam has been opened. */
    var recorder: Option<RecorderState>
    /** `connection`: set when the page loads, replaced by `initConnection`. */
    var connection: Socket
    /** How many sockets `initConnection` has opened. */
    var connections: nat
    /**
     * How many replaced sockets have not fired their `close` event yet.
     * Each socket keeps the `close` listener `initConnection` gave it, so
     * such a socket still stops the recorder when it finally closes.
     */
    var staleCloses: nat
    /** `urlObject` */
    var urlObject: Option<ObjectUrl>
    /** The object URLs created and not yet revoked. */
    var liveUrls: set<ObjectUrl>
    /** The URL the next `URL.createObjectURL` returns. */
    var nextUrl: ObjectUrl
    /** The source of the `image` element. */
    var imageSrc: Option<ObjectUrl>

    /**
     * At most one object URL is live, and it is the one the page holds and
     * shows; every chunk sent was non-empty.
     */
    ghost predicate Valid()
      reads this
    {
      && liveUrls == (if urlObject.Some? then {urlObject.value} else {})
      && imageSrc == urlObject
      && (urlObject.Some? ==> urlObject.value < nextUrl)
      && (forall k :: 0 <= k < |connection.sent| ==> |connection.sent[k]| > 0)
    }

    /** Page load: `initConnection()` runs, the webcam is not open yet, no image has arrived. */
    constructor ()
      ensures Valid()
      ensures recorder.None? && connection == NewSocket() && connections == 1 && staleCloses == 0
      ensures urlObject.None? && liveUrls == {}
    {
      recorder := None;
      connection := NewSocket();
      connections := 1;
      staleCloses := 0;
      urlObject := None;
      liveUrls := {};
      nextUrl := 0;
      imageSrc := None;
    }

    /** `getUserMedia` succeeded and `new MediaRecorder(...)` returned an inactive recorder. */
    method OpenWebcam()
      modifies this
      ensures recorder == Some(Inactive)
      ensures connection == old(connection) && urlObject == old(urlObject) && liveUrls == old(liveUrls)
      ensures connections == old(connections) && nextUrl == old(nextUrl) && imageSrc == old(imageSrc)
      ensures staleCloses == old(staleCloses)
    {
      recorder := Some(Inactive);
    }

    /**
     * `initConnection`: a new socket replaces the old one, whose `close`
     * event is still to come unless it has already closed.
     */
    method InitConnection()
      modifies this
      ensures connection == NewSocket() && connections == old(connections) + 1
      ensures staleCloses == old(staleCloses) + if old(connection).state == Closed then 0 else 1
      ensures recorder == old(recorder) && urlObject == old(urlObject) && liveUrls == old(liveUrls)
      ensures nextUrl == old(nextUrl) && imageSrc == old(imageSrc)
    {
      if connection.state != Closed {
        staleCloses := staleCloses + 1;
      }
      connection := NewSocket();
      connections := connections + 1;
    }

    /**
     * `startRecording`. Reading `recorder.state` before the webcam is open
     * throws a `TypeError`. Otherwise it does what `StartDecision` says:
     * afterwards the recorder records, or the current socket is connecting
     * with `onConnectedHandler` listening; and a new socket is opened only
     * when the old one was closing or closed.
     */
    method StartRecording() returns (r: Outcome)
      requires Valid()
      modifies this
      ensures Valid()
      ensures r == if old(recorder).None? then Fail(TypeError) else Pass
      ensures r.Pass? ==> recorder == Some(Recording) || (connection.state == Connecting && connection.waitsForOpen)
      ensures r.Pass? ==> match StartDecision(old(recorder).value, Some(old(connection).state))
        case AlreadyRecording => recorder == old(recorder) && connection == old(connection) && connections == old(connections)
        case StartChunks(ms) => ms == 100 && recorder == Some(Recording) && connection == old(connection) && connections == old(connections)
        case WaitForOpen => recorder == old(recorder) && connection == old(connection).(waitsForOpen := true) && connections == old(connections)
        case Reconnect =>
          && recorder == old(recorder) && connection == NewSocket().(waitsForOpen := true) && connections == old(connections) + 1
          && staleCloses == old(staleCloses) + if old(connection).state == Closing then 1 else 0
      ensures r.Fail? || StartDecision(old(recorder).value, Some(old(connection).state)) != Reconnect ==>
        staleCloses == old(staleCloses)
      ensures r.Fail? ==> recorder == old(recorder) && connection == old(connection) && connections == old(connections)
      ensures urlObject == old(urlObject) && liveUrls == old(liveUrls) && nextUrl == old(nextUrl) && imageSrc == old(imageSrc)
    {
      if recorder.None? {
        return Fail(TypeError);
      }
      r := Pass;
      if recorder.value == Recording {
        return;
      }
      if connection.state.Code() == 1 {
        recorder := Some(Recording);
      } else if connection.state.Code() == 0 {
        connection := connection.(waitsForOpen := true);
      } else {
        InitConnection();
        connection := connection.(waitsForOpen := true);
      }
    }

    /**
     * `stopRecording`: stops an active recorder, then closes the socket;
     * closing a socket that is connecting or open starts its closing
     * handshake, and closing one that is closing or closed does nothing.
     */
    method StopRecording() returns (r: Outcome)
      requires Valid()
      modifies this
      ensures Valid()
      ensures r == if old(recorder).None? then Fail(TypeError) else Pass
      ensures r.Pass? ==> recorder == Some(Inactive)
      ensures r.Pass? ==> connection == old(connection).(state :=
        if old(connection).state in {Connecting, Open} then Closing else old(connection).state)
      ensures r.Fail? ==> recorder == old(recorder) && connection == old(connection)
      ensures connections == old(connections) && staleCloses == old(staleCloses)
      ensures urlObject == old(urlObject) && liveUrls == old(liveUrls) && nextUrl == old(nextUrl) && imageSrc == old(imageSrc)
    {
      if recorder.None? {
        return Fail(TypeError);
      }
      if recorder.value == Recording {
        recorder := Some(Inactive);
      }
      if connection.state == Connecting || connection.state == Open {
        connection := connection.(state := Closing);
      }
      r := Pass;
    }

    /**
     * The current socket's `open` event. The socket is open; when
     * `onConnectedHandler` listens, it removes itself and calls
     * `startRecording`, which then starts the recorder.
     */
    method OnSocketOpen() returns (r: Outcome)
      requires Valid()
      requires connection.state == Connecting
      modifies this
      ensures Valid()
      ensures connection.state == Open && !connection.waitsForOpen && connections == old(connections)
      ensures staleCloses == old(staleCloses)
      ensures !old(connection).waitsForOpen ==> r.Pass? && recorder == old(recorder)
      ensures old(connection).waitsForOpen && old(recorder).Some? ==> r.Pass? && recorder == Some(Recording)
      ensures old(connection).waitsForOpen && old(recorder).None? ==> r == Fail(TypeError)
      ensures urlObject == old(urlObject) && liveUrls == old(liveUrls) && nextUrl == old(nextUrl) && imageSrc == old(imageSrc)
    {
      connection := connection.(state := Open);
      r := Pass;
      if connection.waitsForOpen {
        connection := connection.(waitsForOpen := false);
        if recorder.Some? {
          assert StartDecision(recorder.value, Some(Open)) in {AlreadyRecording, StartChunks(ChunkMs)};
        }
        r := StartRecording();
      }
    }

    /**
     * The current socket's `close` event: the socket is closed and an
     * active recorder is stopped.
     */
    method OnSocketClose() returns (r: Outcome)
      requires Valid()
      modifies this
      ensures Valid()
      ensures connection == old(connection).(state := Closed)
      ensures r == if old(recorder).None? then Fail(TypeError) else Pass
      ensures r.Pass? ==> recorder == Some(Inactive)
      ensures r.Fail? ==> recorder == old(recorder)
      ensures connections == old(connections) && staleCloses == old(staleCloses)
      ensures urlObject == old(urlObject) && liveUrls == old(liveUrls) && nextUrl == old(nextUrl) && imageSrc == old(imageSrc)
    {
      connection := connection.(state := Closed);
      if recorder.None? {
        return Fail(TypeError);
      }
      if recorder.value == Recording {
        recorder := Some(Inactive);
      }
      r := Pass;
    }

    /**
     * The `close` event of a socket that `initConnection` has since
     * replaced. Its listener tests the shared `recorder`, not its own
     * socket, so it stops whatever recording is active, including one
     * started on the new socket. The current socket is not touched.
     */
    method OnStaleSocketClose() returns (r: Outcome)
      requires Valid()
      requires staleCloses > 0
      modifies this
      ensures Valid()
      ensures staleCloses == old(staleCloses) - 1
      ensures r == if old(recorder).None? then Fail(TypeError) else Pass
      ensures r.Pass? ==> recorder == Some(Inactive)
      ensures r.Fail? ==> recorder == old(recorder)
      ensures connection == old(connection) && connections == old(connections)
      ensures urlObject == old(urlObject) && liveUrls == old(liveUrls) && nextUrl == old(nextUrl) && imageSrc == old(imageSrc)
    {
      staleCloses := staleCloses - 1;
      if recorder.None? {
        return Fail(TypeError);
      }
      if recorder.value == Recording {
        recorder := Some(Inactive);
      }
      r := Pass;
    }

    /** `reader.onloadend` for a recorded chunk: the chunk is sent when `ShouldSend` allows it. */
    method OnChunkRead(chunk: seq<bv8>)
      requires Valid()
      modifies this
      ensures Valid()
      ensures connection == old(connection).(sent :=
        old(connection).sent + if ShouldSend(old(connection).state, |chunk|) then [chunk] else [])
      ensures recorder == old(recorder) && connections == old(connections) && staleCloses == old(staleCloses)
      ensures urlObject == old(urlObject) && liveUrls == old(liveUrls) && nextUrl == old(nextUrl) && imageSrc == old(imageSrc)
    {
      if connection.state.Code() == 1 && |chunk| > 0 {
        connection := connection.(sent := connection.sent + [chunk]);
      }
    }

    /**
     * The socket's `message` event. While the image element has not
     * finished loading the message is dropped. Otherwise the previous object
     * URL is revoked before a new one is created and shown, so exactly one
     * stays live.
     */
    method OnMessage(imageComplete: bool)
      requires Valid()
      modifies this
      ensures Valid()
      ensures !imageComplete ==> urlObject == old(urlObject) && liveUrls == old(liveUrls) && nextUrl == old(nextUrl)
      ensures imageComplete ==> urlObject == Some(old(nextUrl)) && liveUrls == {old(nextUrl)} && nextUrl == old(nextUrl) + 1
      ensures imageComplete && old(urlObject).Some? ==> old(urlObject).value !in liveUrls
      ensures recorder == old(recorder) && connection == old(connection) && connections == old(connections)
      ensures staleCloses == old(staleCloses)
    {
      if !imageComplete {
        return;
      }
      if urlObject.Some? {
        liveUrls := liveUrls - {urlObject.value};
      }
      urlObject := Some(nextUrl);
      liveUrls := liveUrls + {nextUrl};
      nextUrl := nextUrl + 1;
      imageSrc := urlObject;
    }
  }

  /**
   * A recording stopped by the user resumes on the next click on "record":
   * the closed socket is replaced, and the recorder starts once the new one
   * opens.
   */
  method RecordAfterStop() returns (connections: nat, state: ReadyState, recording: bool)
    ensures connections == 2 && state == Open && recording
  {
    var p := new Page();
    p.OpenWebcam();
    var r := p.OnSocketOpen();
    r := p.StartRecording();
    r := p.StopRecording();
    r := p.OnSocketClose();
    assert StartDecision(Inactive, Some(Closed)) == Reconnect;
    r := p.StartRecording();
    r := p.OnSocketOpen();
    connections, state, recording := p.connections, p.connection.state, p.recorder == Some(Recording);
  }

  /**
   * Stop, then record again before the old socket has finished closing:
   * the new socket opens and the recorder starts, and then the old
   * socket's late `close` stops the new recording although the current
   * socket is open.
   */
  method StaleCloseStopsNewRecording() returns (state: ReadyState, recordingBefore: bool, recordingAfter: bool)
    ensures state == Open && recordingBefore && !recordingAfter
  {
    var p := new Page();
    p.OpenWebcam();
    var r := p.OnSocketOpen();
    r := p.StartRecording();
    r := p.StopRecording();
    assert StartDecision(Inactive, Some(Closing)) == Reconnect;
    r := p.StartRecording();
    r := p.OnSocketOpen();
    recordingBefore := p.recorder == Some(Recording);
    r := p.OnStaleSocketClose();
    state, recordingAfter := p.connection.state, p.recorder == Some(Recording);
  }

  /** Ten images in a row, one of them arriving while the previous one is still loading, leave one URL live. */
  method ImagesLeaveOneUrl() returns (live: set<ObjectUrl>, shown: Option<ObjectUrl>)
    ensures |live| == 1 && shown.Some? && live == {shown.value}
  {
    var p := new Page();
    var k := 0;
    while k < 10
      invariant p.Valid() && (k > 0 ==> p.urlObject.Some?)
    {
      p.OnMessage(k != 4);
      k := k + 1;
    }
    live, shown := p.liveUrls, p.imageSrc;
  }
}
