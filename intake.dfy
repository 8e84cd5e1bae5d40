/** How print requests enter the gateway and how status streams run:
    the TCP reader, the HTTP request router, and the event-stream loop with
    its heartbeat counter. */
module Intake {
  import opened Rewrite
  import opened Text
  import opened Hub

  datatype Option<T> = None | Some(value: T)

  /** What goes between the sender's address and the request text. */
  const Separator: string := "<LOADBALANCER>"

  /** A queued request: the text handed to the printing loop, and the
      sender's host and port. */
  datatype Queued = Queued(msg: string, ip: string, port: string)

  lemma {:induction false} SplitAtOccurrence(s: string, a: string)
    requires |a| > 0 && Occurs(s, a)
    ensures |Split(s, a)| >= 2
    decreases |s|
  {
    if !StartsWith(s, a) {
      SplitAtOccurrence(s[1..], a);
    }
  }

  /** The request text under the sender's address `host:port`: the host is
      the text before the first `:`, and the port the text after it up to the
      next `:` or the end. */
  function Enqueue(addr: string, body: string): (q: Queued)
    requires Occurs(addr, ":")
    ensures q.msg == addr + Separator + body
    ensures StartsWith(addr, q.ip + ":") && !Occurs(q.ip, ":")
    ensures var rest := addr[|q.ip| + 1..];
      StartsWith(rest, q.port) && !Occurs(q.port, ":") && (|rest| == |q.port| || rest[|q.port|] == ':')
  {
    SplitAtOccurrence(addr, ":");
    SplitJoinRoundTrip(addr, ":");
    SplitPiecesFree(addr, ":");
    var parts := Split(addr, ":");
    AddressParts(addr, parts);
    Queued(addr + Separator + body, parts[0], parts[1])
  }

  /** The first two pieces of a text joined with `:`. */
  lemma AddressParts(addr: string, parts: seq<string>)
    requires |parts| >= 2 && Join(parts, ":") == addr
    ensures StartsWith(addr, parts[0] + ":")
    ensures var rest := addr[|parts[0]| + 1..];
      StartsWith(rest, parts[1]) && (|rest| == |parts[1]| || rest[|parts[1]|] == ':')
  {
    var t := parts[1..];
    var j1 := Join(t, ":");
    assert addr == parts[0] + ":" + j1;
    assert addr[..|parts[0]| + 1] == parts[0] + ":";
    assert addr[|parts[0]| + 1..] == j1;
    if |t| == 1 {
      assert j1 == parts[1];
    } else {
      assert j1 == t[0] + ":" + Join(t[1..], ":");
      assert j1[..|t[0]|] == t[0] && j1[|t[0]|] == ':';
    }
  }

  // ---------------------------------------------------------------------
  // The TCP reader

  /** One read from the connection: the bytes read, and whether it failed. */
  datatype ReadResult = ReadResult(data: seq<byte>, failed: bool)

  /** The reader stops at a failed read and at a read of nothing. */
  predicate Stops(r: ReadResult) {
    r.failed || |r.data| == 0
  }

  /** A read is queued when it holds more than 20 bytes. */
  const MinRequest: nat := 20

  /** The reads before the first one that stops the reader. */
  function Served(chunks: seq<ReadResult>): (rs: seq<ReadResult>)
    ensures |rs| <= |chunks|
    decreases |chunks|
  {
    if chunks == [] || Stops(chunks[0]) then [] else [chunks[0]] + Served(chunks[1..])
  }

  /** The reads served are a prefix of the reads, none of them stops the
      reader, and the read after them does. */
  lemma {:induction false} ServedShape(chunks: seq<ReadResult>)
    ensures var rs := Served(chunks);
      rs == chunks[..|rs|] && (forall j :: 0 <= j < |rs| ==> !Stops(rs[j])) &&
      (|rs| < |chunks| ==> Stops(chunks[|rs|]))
    decreases |chunks|
  {
    if chunks != [] && !Stops(chunks[0]) {
      ServedShape(chunks[1..]);
      var rs := Served(chunks[1..]);
      assert Served(chunks) == [chunks[0]] + rs;
      assert chunks[..|rs| + 1] == [chunks[0]] + chunks[1..][..|rs|];
    }
  }

  /** The reads long enough to be queued, in order. */
  function LongReads(rs: seq<ReadResult>): (long: seq<ReadResult>)
    ensures forall r :: r in long <==> r in rs && |r.data| > MinRequest
    decreases |rs|
  {
    if rs == [] then []
    else (if |rs[0].data| > MinRequest then [rs[0]] else []) + LongReads(rs[1..])
  }

  /** What a TCP connection queues, read by read.  `utf8` stands for the
      conversion of the read bytes to text. */
  function TcpQueue(addr: string, chunks: seq<ReadResult>, utf8: seq<byte> -> string): seq<Queued>
    requires Occurs(addr, ":")
    decreases |chunks|
  {
    if chunks == [] || Stops(chunks[0]) then []
    else
      TcpHead(addr, chunks[0], utf8) + TcpQueue(addr, chunks[1..], utf8)
  }

  /** What one read that does not stop the reader queues. */
  function TcpHead(addr: string, r: ReadResult, utf8: seq<byte> -> string): seq<Queued>
    requires Occurs(addr, ":")
  {
    if |r.data| > MinRequest then [Enqueue(addr, utf8(r.data))] else []
  }

  function EnqueueAll(addr: string, rs: seq<ReadResult>, utf8: seq<byte> -> string): (qs: seq<Queued>)
    requires Occurs(addr, ":")
    ensures |qs| == |rs|
    ensures forall j :: 0 <= j < |rs| ==> qs[j] == Enqueue(addr, utf8(rs[j].data))
    decreases |rs|
  {
    if rs == [] then [] else [Enqueue(addr, utf8(rs[0].data))] + EnqueueAll(addr, rs[1..], utf8)
  }

  /** The connection queues exactly its long reads before the first stop, in order. */
  lemma {:induction false} TcpQueueIsLongServed(addr: string, chunks: seq<ReadResult>, utf8: seq<byte> -> string)
    requires Occurs(addr, ":")
    ensures TcpQueue(addr, chunks, utf8) == EnqueueAll(addr, LongReads(Served(chunks)), utf8)
    decreases |chunks|
  {
    if chunks != [] && !Stops(chunks[0]) {
      TcpQueueIsLongServed(addr, chunks[1..], utf8);
      var rest := Served(chunks[1..]);
      assert Served(chunks) == [chunks[0]] + rest;
      assert ([chunks[0]] + rest)[1..] == rest;
      var l := LongReads(rest);
      if |chunks[0].data| > MinRequest {
        assert LongReads(Served(chunks)) == [chunks[0]] + l;
        assert ([chunks[0]] + l)[1..] == l;
      } else {
        assert LongReads(Served(chunks)) == l;
      }
    }
  }

  /** Reads after the one that stops the reader are never looked at. */
  lemma {:induction false} TcpIgnoresAfterStop(addr: string, chunks: seq<ReadResult>, more: seq<ReadResult>,
                                               utf8: seq<byte> -> string)
    requires Occurs(addr, ":")
    requires exists j :: 0 <= j < |chunks| && Stops(chunks[j])
    ensures TcpQueue(addr, chunks + more, utf8) == TcpQueue(addr, chunks, utf8)
    decreases |chunks|
  {
    assert (chunks + more)[0] == chunks[0];
    if !Stops(chunks[0]) {
      var j :| 0 <= j < |chunks| && Stops(chunks[j]);
      assert Stops(chunks[1..][j - 1]);
      TcpIgnoresAfterStop(addr, chunks[1..], more, utf8);
      assert (chunks + more)[1..] == chunks[1..] + more;
    }
  }

  lemma TcpUnfold(addr: string, cs: seq<ReadResult>, utf8: seq<byte> -> string)
    requires Occurs(addr, ":") && cs != []
    ensures Stops(cs[0]) ==> TcpQueue(addr, cs, utf8) == [] && Served(cs) == []
    ensures !Stops(cs[0]) ==> Served(cs) == [cs[0]] + Served(cs[1..])
    ensures !Stops(cs[0]) ==>
      TcpQueue(addr, cs, utf8) == TcpHead(addr, cs[0], utf8) + TcpQueue(addr, cs[1..], utf8)
  {
  }

  lemma TcpAdvance(addr: string, chunks: seq<ReadResult>, made: nat, queued: seq<Queued>,
                   utf8: seq<byte> -> string)
    requires Occurs(addr, ":") && made < |chunks| && !Stops(chunks[made])
    requires queued + TcpQueue(addr, chunks[made..], utf8) == TcpQueue(addr, chunks, utf8)
    ensures (queued + TcpHead(addr, chunks[made], utf8)) + TcpQueue(addr, chunks[made + 1..], utf8) ==
      TcpQueue(addr, chunks, utf8)
  {
    var cs := chunks[made..];
    assert cs[0] == chunks[made] && cs[1..] == chunks[made + 1..];
    var h, t := TcpHead(addr, cs[0], utf8), TcpQueue(addr, cs[1..], utf8);
    assert TcpQueue(addr, cs, utf8) == h + t;
    Associative(queued, h, t);
  }

  lemma Associative<T>(a: seq<T>, b: seq<T>, c: seq<T>)
    ensures a + (b + c) == (a + b) + c
  {
  }

  lemma ServedAdvance(chunks: seq<ReadResult>, made: nat)
    requires made < |chunks| && !Stops(chunks[made])
    requires Served(chunks) == chunks[..made] + Served(chunks[made..])
    ensures Served(chunks) == chunks[..made + 1] + Served(chunks[made + 1..])
  {
    var cs := chunks[made..];
    assert cs[0] == chunks[made] && cs[1..] == chunks[made + 1..];
    ServedCons(cs);
    ShiftOne(chunks, made, Served(chunks), Served(cs), Served(chunks[made + 1..]));
  }

  lemma ServedCons(cs: seq<ReadResult>)
    requires cs != [] && !Stops(cs[0])
    ensures Served(cs) == [cs[0]] + Served(cs[1..])
  {
  }

  /** Moving one element from the front of a remainder onto the prefix. */
  lemma ShiftOne<T>(xs: seq<T>, m: nat, all: seq<T>, b: seq<T>, c: seq<T>)
    requires m < |xs| && all == xs[..m] + b && b == [xs[m]] + c
    ensures all == xs[..m + 1] + c
  {
    assert xs[..m + 1] == xs[..m] + [xs[m]];
    Associative(xs[..m], [xs[m]], c);
  }

  /** The read loop of one TCP connection.  It returns what it queued and
      how many reads it made: every read up to and including the one that
      stops it. */
  method TcpSession(addr: string, chunks: seq<ReadResult>, utf8: seq<byte> -> string)
    returns (queued: seq<Queued>, made: nat)
    requires Occurs(addr, ":")
    ensures queued == TcpQueue(addr, chunks, utf8)
    ensures made == |Served(chunks)| + (if |Served(chunks)| < |chunks| then 1 else 0)
  {
    queued := [];
    made := 0;
    while made < |chunks| && !(chunks[made].failed || |chunks[made].data| == 0)
      invariant made <= |chunks|
      invariant queued + TcpQueue(addr, chunks[made..], utf8) == TcpQueue(addr, chunks, utf8)
      invariant Served(chunks) == chunks[..made] + Served(chunks[made..])
    {
      var r := chunks[made];
      TcpAdvance(addr, chunks, made, queued, utf8);
      ServedAdvance(chunks, made);
      ghost var q0 := queued;
      if |r.data| > 20 {
        queued := queued + [Enqueue(addr, utf8(r.data))];
      }
      assert queued == q0 + TcpHead(addr, r, utf8);
      made := made + 1;
    }
    if made < |chunks| {
      TcpUnfold(addr, chunks[made..], utf8);
      made := made + 1;
    } else {
      assert chunks[made..] == [];
    }
  }

  // ---------------------------------------------------------------------
  // The HTTP router

  const CalibrateCommand: string := "~jc^xa^jus^xz"
  const FeedCommand: string := "^xa^aa^fd ^fs^xz"

  /** What the HTTP handler does with a request. */
  datatype Route =
    | Enqueued(q: Queued)
    | IndexPage
    | ReloadPrinters
    | ReloadLabels
    | SendCommand(cmd: string, printer: string)
    | CommandPage
    | Aborted
    | EventStream

  /** The text of a posted body that is queued as a print request: a body
      that is not blank once trimmed and contains `<Printer>`. */
  function PostedRequest(readOk: bool, body: string): (r: Option<string>)
    ensures r.Some? ==> r.value == TrimSpace(body) && r.value != [] && Occurs(r.value, "<Printer>")
    ensures r.None? <==> !readOk || TrimSpace(body) == [] || !Occurs(TrimSpace(body), "<Printer>")
  {
    if readOk then
      var str := TrimSpace(body);
      if str != "" && Occurs(str, "<Printer>") then Some(str) else None
    else None
  }

  /** The command a `/send/<what>/<printer>` path asks for, and the printer
      it names. */
  function SendRoute(rest: string): (r: Route)
    ensures !r.Enqueued?
  {
    var parts := Split(rest, "/");
    if parts[0] == "calibrate" then
      if |parts| > 1 then SendCommand(CalibrateCommand, parts[1]) else Aborted
    else if parts[0] == "feed" then
      if |parts| > 1 then SendCommand(FeedCommand, parts[1]) else Aborted
    else CommandPage
  }

  /** The HTTP handler's decision.  A request that carries a print order is
      queued whatever its path; every other request is routed by path, and
      any unknown path is a status stream. */
  function RouteRequest(remote: string, readOk: bool, body: string, path: string): Route
    requires Occurs(remote, ":")
  {
    var posted := PostedRequest(readOk, body);
    if posted.Some? then Enqueued(Enqueue(remote, posted.value))
    else if path == "/" then IndexPage
    else if path == "/reloadPrinter" then ReloadPrinters
    else if path == "/reloadLabels" then ReloadLabels
    else if |path| > 6 && path[..6] == "/send/" then SendRoute(path[6..])
    else EventStream
  }

  /** A request is queued exactly when its body is a print order, and then
      the queued text is the trimmed body under the sender's address. */
  lemma RouteEnqueues(remote: string, readOk: bool, body: string, path: string)
    requires Occurs(remote, ":")
    ensures RouteRequest(remote, readOk, body, path).Enqueued? <==>
      readOk && TrimSpace(body) != [] && Occurs(TrimSpace(body), "<Printer>")
    ensures RouteRequest(remote, readOk, body, path).Enqueued? ==>
      RouteRequest(remote, readOk, body, path).q.msg == remote + Separator + TrimSpace(body)
  {
    var posted := PostedRequest(readOk, body);
    if posted.Some? {
      assert RouteRequest(remote, readOk, body, path) == Enqueued(Enqueue(remote, posted.value));
    } else {
      assert !RouteRequest(remote, readOk, body, path).Enqueued?;
    }
  }

  /** The queued body is already trimmed: trimming it again changes nothing. */
  lemma PostedRequestTrimmed(readOk: bool, body: string)
    requires PostedRequest(readOk, body).Some?
    ensures TrimSpace(PostedRequest(readOk, body).value) == PostedRequest(readOk, body).value
  {
    TrimIdempotent(body, Spaces);
  }

  /** A calibration request names the calibration command for that printer. */
  lemma CalibrateRoute(printer: string)
    requires '/' !in printer
    ensures SendRoute("calibrate/" + printer) == SendCommand(CalibrateCommand, printer)
  {
    var s := "calibrate/" + printer;
    assert s == "calibrate" + ("/" + printer);
    SplitPlainHead("calibrate", "/" + printer, '/');
    var tail := ("/" + printer);
    assert StartsWith(tail, "/");
    assert tail[1..] == printer;
    SplitPlain(printer, '/');
  }

  /** A text without the separator character splits into itself. */
  lemma {:induction false} SplitPlain(s: string, c: char)
    requires c !in s
    ensures Split(s, [c]) == [s]
    decreases |s|
  {
    if s != [] {
      assert !StartsWith(s, [c]) by {
        assert s[0] != c;
      }
      SplitPlain(s[1..], c);
      assert [s[0]] + s[1..] == s;
    }
  }

  /** A head without the separator becomes the first piece. */
  lemma {:induction false} SplitPlainHead(u: string, v: string, c: char)
    requires c !in u && StartsWith(v, [c])
    ensures Split(u + v, [c]) == [u] + Split(v[1..], [c])
    decreases |u|
  {
    if u == [] {
      assert u + v == v;
    } else {
      assert !StartsWith(u + v, [c]) by {
        assert (u + v)[0] == u[0];
      }
      assert (u + v)[1..] == u[1..] + v;
      SplitPlainHead(u[1..], v, c);
      assert [u[0]] + u[1..] == u;
    }
  }

  // ---------------------------------------------------------------------
  // The event-stream loop

  /** The number of quiet minutes after which a stream ends. */
  const HeartbeatLimit: nat := 1440

  /** What the stream's wait returns: a status event from the hub, a quiet
      minute, or the client going away. */
  datatype StreamEvent = Delivered(m: LogMsg) | Quiet | Disconnect

  /** A frame written to the stream. */
  datatype Frame = DataFrame(m: LogMsg) | NoDataFrame(text: string)

  /** The state of a stream: the frames written, the quiet-minute counter,
      whether the hub was told to drop the subscriber, and how many events
      were consumed. */
  datatype StreamState = StreamState(frames: seq<Frame>, counter: nat, unsubscribed: bool, consumed: nat)

  const StreamStart: StreamState := StreamState([], 0, false, 0)

  predicate IsStreamPath(path: string) {
    path == "/events/sse" || path == "/events/lp"
  }

  /** The frame written for a quiet minute on each kind of stream. */
  function NoDataText(path: string): string {
    if path == "/events/sse" then "data: {\"str\": \"No Data\"}\n\n" else "{\"str\": \"No Data\"}"
  }

  /** One turn of the loop. */
  function StreamStep(path: string, st: StreamState, e: StreamEvent): StreamState {
    var st' := st.(consumed := st.consumed + 1);
    match e
    case Delivered(m) =>
      if IsStreamPath(path) then st'.(frames := st.frames + [DataFrame(m)]) else st'
    case Quiet =>
      var fr := if IsStreamPath(path) then st.frames + [NoDataFrame(NoDataText(path))] else st.frames;
      st'.(frames := fr, counter := st.counter + 1)
    case Disconnect =>
      st'.(counter := HeartbeatLimit, unsubscribed := true)
  }

  /** The loop, as written: it runs until the counter reaches the limit
      (or, here, until the events run out). */
  function StreamRun(path: string, events: seq<StreamEvent>, st: StreamState): StreamState
    decreases |events|
  {
    if st.counter >= HeartbeatLimit || events == [] then st
    else StreamRun(path, events[1..], StreamStep(path, st, events[0]))
  }

  /** The loop of the stream handler over the events it waits for. */
  method StreamSession(path: string, events: seq<StreamEvent>) returns (st: StreamState)
    ensures st == StreamRun(path, events, StreamStart)
  {
    var frames: seq<Frame> := [];
    var i: nat := 0;
    var unsubscribed := false;
    var k := 0;
    while i < 1440 && k < |events|
      invariant k <= |events|
      invariant StreamRun(path, events[k..], StreamState(frames, i, unsubscribed, k)) ==
                StreamRun(path, events, StreamStart)
      decreases |events| - k
    {
      var e := events[k];
      assert events[k..][0] == e && events[k..][1..] == events[k + 1..];
      k := k + 1;
      match e
      case Delivered(m) => {
        if path == "/events/sse" {
          frames := frames + [DataFrame(m)];
        } else if path == "/events/lp" {
          frames := frames + [DataFrame(m)];
        }
      }
      case Quiet => {
        if path == "/events/sse" {
          frames := frames + [NoDataFrame("data: {\"str\": \"No Data\"}\n\n")];
        } else if path == "/events/lp" {
          frames := frames + [NoDataFrame("{\"str\": \"No Data\"}")];
        }
        i := i + 1;
      }
      case Disconnect => {
        i := 1440;
        unsubscribed := true;
      }
    }
    st := StreamState(frames, i, unsubscribed, k);
  }

  /** The counter never passes the limit. */
  lemma {:induction false} StreamCounterBounded(path: string, events: seq<StreamEvent>, st: StreamState)
    requires st.counter <= HeartbeatLimit
    ensures StreamRun(path, events, st).counter <= HeartbeatLimit
    ensures StreamRun(path, events, st).consumed <= st.consumed + |events|
    decreases |events|
  {
    if st.counter < HeartbeatLimit && events != [] {
      StreamCounterBounded(path, events[1..], StreamStep(path, st, events[0]));
    }
  }

  /** The subscriber is dropped exactly when a consumed event was a disconnect. */
  lemma {:induction false} StreamUnsubscribes(path: string, events: seq<StreamEvent>, st: StreamState)
    requires !st.unsubscribed
    ensures var r := StreamRun(path, events, st);
      st.consumed <= r.consumed <= st.consumed + |events| &&
      (r.unsubscribed <==> exists j :: 0 <= j < r.consumed - st.consumed && events[j] == Disconnect)
    decreases |events|
  {
    if st.counter < HeartbeatLimit && events != [] {
      var st1 := StreamStep(path, st, events[0]);
      if events[0] == Disconnect {
        assert StreamRun(path, events[1..], st1) == st1;
      } else {
        StreamUnsubscribes(path, events[1..], st1);
        var r := StreamRun(path, events, st);
        if r.unsubscribed {
          var j :| 0 <= j < r.consumed - st1.consumed && events[1..][j] == Disconnect;
          assert events[j + 1] == Disconnect;
        }
        if exists j :: 0 <= j < r.consumed - st.consumed && events[j] == Disconnect {
          var j :| 0 <= j < r.consumed - st.consumed && events[j] == Disconnect;
          assert j > 0 && events[1..][j - 1] == Disconnect;
        }
      }
    }
  }

  /** A run of quiet minutes only counts up, up to the limit, and drops nobody. */
  lemma {:induction false} QuietMinutes(path: string, n: nat, st: StreamState)
    requires st.counter + n <= HeartbeatLimit
    ensures var r := StreamRun(path, seq(n, _ => Quiet), st);
      r.counter == st.counter + n && r.unsubscribed == st.unsubscribed
    decreases n
  {
    var events := seq(n, _ => Quiet);
    if n > 0 {
      assert events[0] == Quiet;
      assert events[1..] == seq(n - 1, _ => Quiet);
      QuietMinutes(path, n - 1, StreamStep(path, st, Quiet));
    }
  }

  /** A stream that stays quiet for the whole limit ends without the hub
      being told to drop it. */
  lemma QuietStreamStaysSubscribed(path: string)
    ensures var r := StreamRun(path, seq(HeartbeatLimit, _ => Quiet), StreamStart);
      r.counter == HeartbeatLimit && !r.unsubscribed
  {
    QuietMinutes(path, HeartbeatLimit, StreamStart);
  }

  /** The stream as it is evidently meant to end: whichever way the loop
      is left, the subscriber is dropped. */
  function ClosedStream(path: string, events: seq<StreamEvent>): (r: StreamState)
    ensures r.counter <= HeartbeatLimit
    ensures r.counter == HeartbeatLimit ==> r.unsubscribed
    ensures r.frames == StreamRun(path, events, StreamStart).frames
  {
    StreamCounterBounded(path, events, StreamStart);
    var st := StreamRun(path, events, StreamStart);
    if st.counter >= HeartbeatLimit then st.(unsubscribed := true) else st
  }

  /** With the correction, a stream whose loop ended is no longer subscribed,
      and an open stream is dropped only after a disconnect. */
  lemma ClosedStreamUnsubscribes(path: string, events: seq<StreamEvent>)
    ensures var r := ClosedStream(path, events);
      r.unsubscribed <==> r.counter == HeartbeatLimit
  {
    StreamCounterBounded(path, events, StreamStart);
    StreamUnsubscribes(path, events, StreamStart);
    var st := StreamRun(path, events, StreamStart);
    if st.unsubscribed {
      var j :| 0 <= j < st.consumed && events[j] == Disconnect;
      DisconnectEnds(path, events, StreamStart, j);
    }
  }

  /** Once a disconnect has been consumed the counter is at the limit. */
  lemma {:induction false} DisconnectEnds(path: string, events: seq<StreamEvent>, st: StreamState, j: nat)
    requires j < |events| && events[j] == Disconnect && j < StreamRun(path, events, st).consumed - st.consumed
    ensures StreamRun(path, events, st).counter >= HeartbeatLimit
    decreases |events|
  {
    if st.counter < HeartbeatLimit {
      var st1 := StreamStep(path, st, events[0]);
      if events[0] == Disconnect {
        assert StreamRun(path, events[1..], st1) == st1;
      } else {
        assert events[1..][j - 1] == Disconnect;
        DisconnectEnds(path, events[1..], st1, j - 1);
      }
    }
  }
}
