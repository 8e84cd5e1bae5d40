/** The event hub: the set of subscribed status streams, and the loop that
    adds a subscriber, removes one, or hands a message to every subscriber. */
module Hub {

  /** A status event as shown on the status page. */
  datatype LogMsg = LogMsg(date: string, str: string, msgtype: string, dst: string,
                           ip: string, labelName: string, weight: string)

  /** One subscribed stream: the messages handed to it so far. */
  class Subscriber {
    var received: seq<LogMsg>

    constructor ()
      ensures received == []
    {
      received := [];
    }
  }

  /** One request to the hub's loop. */
  datatype HubOp = AddClient(s: Subscriber) | RemoveClient(s: Subscriber) | Message(m: LogMsg)

  /** The subscriber set after a sequence of requests. */
  function Members(start: set<Subscriber>, ops: seq<HubOp>): set<Subscriber>
    decreases |ops|
  {
    if ops == [] then start
    else
      var before := Members(start, ops[..|ops| - 1]);
      match ops[|ops| - 1]
      case AddClient(s) => before + {s}
      case RemoveClient(s) => before - {s}
      case Message(_) => before
  }

  /** The messages `c` is handed during a sequence of requests: those
      published while it is subscribed. */
  function DeliveredTo(c: Subscriber, start: set<Subscriber>, ops: seq<HubOp>): seq<LogMsg>
    decreases |ops|
  {
    if ops == [] then []
    else
      var init := ops[..|ops| - 1];
      var before := DeliveredTo(c, start, init);
      match ops[|ops| - 1]
      case Message(m) => if c in Members(start, init) then before + [m] else before
      case AddClient(_) => before
      case RemoveClient(_) => before
  }

  /** The subscribers a sequence of requests names. */
  function Named(ops: seq<HubOp>): set<Subscriber>
    decreases |ops|
  {
    if ops == [] then {}
    else
      var last := ops[|ops| - 1];
      Named(ops[..|ops| - 1]) + (if last.Message? then {} else {last.s})
  }

  class Connections {
    var clients: set<Subscriber>

    constructor ()
      ensures clients == {}
    {
      clients := {};
    }

    /** A new stream subscribes; every other subscriber stays. */
    method Add(s: Subscriber)
      modifies this
      ensures clients == old(clients) + {s}
    {
      clients := clients + {s};
    }

    /** A stream unsubscribes; every other subscriber stays. */
    method Remove(s: Subscriber)
      modifies this
      ensures clients == old(clients) - {s}
    {
      clients := clients - {s};
    }

    /** Hand the message to every current subscriber, in the order the set is
      walked; the set itself does not change, and nobody else is touched. */
    method Publish(m: LogMsg)
      modifies clients
      ensures clients == old(clients)
      ensures forall c :: c in clients ==> c.received == old(c.received) + [m]
    {
      var pending := clients;
      while pending != {}
        invariant pending <= clients
        invariant forall c :: c in clients && c !in pending ==> c.received == old(c.received) + [m]
        invariant forall c :: c in pending ==> c.received == old(c.received)
        decreases |pending|
      {
        var s :| s in pending;
        s.received := s.received + [m];
        pending := pending - {s};
      }
    }

    /** The hub's loop over a finite sequence of requests. */
    method Serve(ops: seq<HubOp>)
      modifies this, clients, Named(ops)
      ensures clients == Members(old(clients), ops)
      ensures forall c :: c in old(clients) + Named(ops) && old(allocated(c)) ==>
        c.received == old(c.received) + DeliveredTo(c, old(clients), ops)
    {
      ghost var start := clients;
      ghost var everyone := start + Named(ops);
      for i := 0 to |ops|
        invariant clients == Members(start, ops[..i])
        invariant clients <= everyone
        invariant forall c :: c in everyone && old(allocated(c)) ==>
          c.received == old(c.received) + DeliveredTo(c, start, ops[..i])
      {
        assert ops[..i + 1][..i] == ops[..i];
        NamedPrefix(ops, i + 1);
        match ops[i]
        case AddClient(s) => {
          assert s in Named(ops[..i + 1]);
          Add(s);
        }
        case RemoveClient(s) => Remove(s);
        case Message(m) => Publish(m);
      }
      assert ops[..|ops|] == ops;
    }
  }

  lemma {:induction false} NamedPrefix(ops: seq<HubOp>, n: nat)
    requires n <= |ops|
    ensures Named(ops[..n]) <= Named(ops)
    decreases |ops| - n
  {
    if n < |ops| {
      NamedPrefix(ops, n + 1);
      assert ops[..n + 1][..n] == ops[..n];
    } else {
      assert ops[..n] == ops;
    }
  }

  /** A message published after any history reaches exactly the streams
      subscribed at that point, and leaves the set alone. */
  lemma PublishReaches(start: set<Subscriber>, pre: seq<HubOp>, s: Subscriber, m: LogMsg)
    ensures DeliveredTo(s, start, pre + [Message(m)]) ==
      DeliveredTo(s, start, pre) + (if s in Members(start, pre) then [m] else [])
    ensures Members(start, pre + [Message(m)]) == Members(start, pre)
  {
    assert (pre + [Message(m)])[..|pre|] == pre;
  }

  /** A stream added and not removed since stays subscribed, whatever else
      happens in between. */
  lemma {:induction false} AddedStays(start: set<Subscriber>, pre: seq<HubOp>, s: Subscriber, rest: seq<HubOp>)
    requires forall i :: 0 <= i < |rest| ==> rest[i] != RemoveClient(s)
    ensures s in Members(start, pre + [AddClient(s)] + rest)
    decreases |rest|
  {
    var head := pre + [AddClient(s)];
    if rest == [] {
      assert head + rest == head;
      assert head[..|pre|] == pre;
    } else {
      var n := |rest| - 1;
      AddedStays(start, pre, s, rest[..n]);
      var ops := head + rest;
      assert ops[..|ops| - 1] == head + rest[..n];
      assert ops[|ops| - 1] == rest[n];
    }
  }

  /** A removed stream receives nothing more until it is added again. */
  lemma {:induction false} RemovedGetsNothing(start: set<Subscriber>, pre: seq<HubOp>, s: Subscriber,
                                              rest: seq<HubOp>)
    requires forall i :: 0 <= i < |rest| ==> rest[i] != AddClient(s)
    ensures DeliveredTo(s, start, pre + [RemoveClient(s)] + rest) == DeliveredTo(s, start, pre + [RemoveClient(s)])
    ensures s !in Members(start, pre + [RemoveClient(s)] + rest)
    decreases |rest|
  {
    var head := pre + [RemoveClient(s)];
    if rest == [] {
      assert head + rest == head;
      assert head[..|pre|] == pre;
    } else {
      var n := |rest| - 1;
      RemovedGetsNothing(start, pre, s, rest[..n]);
      var ops := head + rest;
      assert ops[..|ops| - 1] == head + rest[..n];
      assert ops[|ops| - 1] == rest[n];
    }
  }
}
