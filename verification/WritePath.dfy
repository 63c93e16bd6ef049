/** The buffered write path: a queue of packets that a non-blocking socket takes piece by piece, and the
    connection that watches the socket for writing as long as the queue has something left. */
module WritePath {
  import opened Bytes

  const CONNECTION_CAPACITY := 500

  /** A packet whose first `index` bytes the socket already has. */
  datatype Packet = Packet(data: seq<Byte>, index: nat)

  /** What the socket does with one send call: it takes some of the bytes offered, none for now, or fails. */
  datatype Answer = Takes(upTo: nat) | WouldBlock | Error

  /** What one call of the writer's send leaves behind: the queue, the bytes the socket took, the value
      returned, and how often the socket was called. */
  datatype Sent = Sent(queue: seq<Packet>, given: seq<Byte>, status: int, calls: nat)

  predicate Pending(queue: seq<Packet>) {
    forall p <- queue :: p.index < |p.data|
  }

  /** The bytes still queued, in order. */
  function Unsent(queue: seq<Packet>): seq<Byte>
    requires Pending(queue)
  {
    if queue == [] then [] else queue[0].data[queue[0].index..] + Unsent(queue[1..])
  }

  function Taken(p: Packet, answer: Answer): (n: nat)
    requires p.index < |p.data|
  {
    if answer.Takes? then Min(answer.upTo, |p.data| - p.index) else 0
  }

  /** The send loop: it goes on as long as the socket takes the rest of the packet in front. */
  function Drained(queue: seq<Packet>, answers: nat -> Answer, call: nat): Sent
    requires Pending(queue)
    decreases |queue|
  {
    if queue == [] then
      Sent([], [], 0, call)
    else
      var p := queue[0];
      var n := Taken(p, answers(call));
      var bytes := p.data[p.index..p.index + n];
      if p.index + n == |p.data| then
        var rest := Drained(queue[1..], answers, call + 1);
        rest.(given := bytes + rest.given)
      else
        Sent([p.(index := p.index + n)] + queue[1..], bytes, if answers(call).Error? then -1 else n, call + 1)
  }

  lemma UnsentAppend(queue: seq<Packet>, p: Packet)
    requires Pending(queue) && p.index < |p.data|
    ensures Unsent(queue + [p]) == Unsent(queue) + p.data[p.index..]
  {
    if queue != [] {
      UnsentAppend(queue[1..], p);
      assert (queue + [p])[1..] == queue[1..] + [p];
    } else {
      assert (queue + [p])[1..] == [];
    }
  }

  lemma UnsentLength(queue: seq<Packet>)
    requires Pending(queue)
    ensures |Unsent(queue)| >= |queue|
  {}

  /** Every byte goes to the socket or stays queued, in order; the queue never grows. */
  lemma {:induction false} DrainedConserves(queue: seq<Packet>, answers: nat -> Answer, call: nat)
    requires Pending(queue)
    ensures var r := Drained(queue, answers, call);
      && Pending(r.queue) && |r.queue| <= |queue|
      && r.given + Unsent(r.queue) == Unsent(queue)
    decreases |queue|
  {
    if queue != [] {
      var p := queue[0];
      var n := Taken(p, answers(call));
      if p.index + n == |p.data| {
        DrainedConserves(queue[1..], answers, call + 1);
      } else {
        assert p.data[p.index..] == p.data[p.index..p.index + n] + p.data[p.index + n..];
      }
    }
  }

  /** The loop leaves packets behind exactly if the socket would not take the rest of one, and the value
      returned says which way: an error, nothing for now, or a part. */
  lemma {:induction false} DrainedStops(queue: seq<Packet>, answers: nat -> Answer, call: nat)
    requires Pending(queue)
    ensures var r := Drained(queue, answers, call);
      && (r.queue == [] ==> r.status == 0 && r.calls == call + |queue|)
      && (r.queue != [] ==>
            && call < r.calls == call + |queue| - |r.queue| + 1
            && (forall k :: call <= k < r.calls - 1 ==> answers(k).Takes?)
            && match answers(r.calls - 1)
               case Error => r.status == -1
               case WouldBlock => r.status == 0
               case Takes(n) => r.status == n < |r.queue[0].data|)
    decreases |queue|
  {
    if queue != [] {
      var p := queue[0];
      if p.index + Taken(p, answers(call)) == |p.data| {
        DrainedStops(queue[1..], answers, call + 1);
      }
    }
  }

  /** One pass of the loop. */
  lemma DrainedPass(queue: seq<Packet>, answers: nat -> Answer, call: nat)
    requires Pending(queue)
    ensures queue == [] ==> Drained(queue, answers, call) == Sent([], [], 0, call)
    ensures queue != [] ==> var p := queue[0]; var n := Taken(p, answers(call)); var bytes := p.data[p.index..p.index + n];
      && p.index < |p.data| && Pending(queue[1..])
      && (p.index + n == |p.data| ==>
            var rest := Drained(queue[1..], answers, call + 1);
            Drained(queue, answers, call) == rest.(given := bytes + rest.given))
      && (p.index + n < |p.data| ==>
            && Pending(queue[0 := p.(index := p.index + n)])
            && Drained(queue, answers, call)
               == Sent(queue[0 := p.(index := p.index + n)], bytes, if answers(call).Error? then -1 else n, call + 1))
  {}

  /** A socket that takes at least one byte when asked makes the writer progress. */
  lemma DrainedProgresses(queue: seq<Packet>, answers: nat -> Answer, call: nat)
    requires Pending(queue)
    requires queue != [] && answers(call).Takes? && answers(call).upTo > 0
    ensures Drained(queue, answers, call).given != []
  {}

  /** A run of sends behind bytes that were given before. */
  function Behind(given: seq<Byte>, r: Sent): Sent {
    r.(given := given + r.given)
  }

  lemma BehindNothing(r: Sent)
    ensures Behind([], r) == r
  {}

  lemma BehindEnd(given: seq<Byte>, r: Sent)
    requires r.given == []
    ensures Behind(given, r) == r.(given := given)
  {
    assert given + [] == given;
  }

  /** One pass of the loop: the packet is gone and the loop goes on, or it is over. */
  lemma SendPass(queue: seq<Packet>, answers: nat -> Answer, call: nat, given: seq<Byte>)
    requires Pending(queue) && |queue| > 0
    ensures var p, answer := queue[0], answers(call);
      var n := if answer.Takes? then Min(answer.upTo, |p.data| - p.index) else -1;
      && p.index < |p.data| && Pending(queue[1..])
      && if n <= 0 then
           Behind(given, Drained(queue, answers, call)) == Sent(queue, given, if answer.Error? then -1 else 0, call + 1)
         else
           var given', queue' := given + p.data[p.index..p.index + n], queue[0 := p.(index := p.index + n)];
           if p.index + n == |p.data| then
             queue'[1..] == queue[1..] && Behind(given, Drained(queue, answers, call)) == Behind(given', Drained(queue[1..], answers, call + 1))
           else
             Pending(queue') && Behind(given, Drained(queue, answers, call)) == Sent(queue', given', n, call + 1)
  {
    hide Drained, Pending;
    DrainedPass(queue, answers, call);
    var p := queue[0];
    var n := Taken(p, answers(call));
    var bytes, later := p.data[p.index..p.index + n], Drained(queue[1..], answers, call + 1).given;
    assert given + (bytes + later) == (given + bytes) + later;
    if n == 0 {
      assert given + bytes == given && queue[0 := p] == queue && p.(index := p.index + n) == p;
    }
  }

  class BufferWriter {
    var queue: seq<Packet>
    const capacity: nat

    ghost predicate Valid()
      reads this
    {
      Pending(queue) && |queue| <= capacity
    }

    constructor (capacity: nat)
      ensures Valid() && this.capacity == capacity && queue == []
    {
      this.capacity, queue := capacity, [];
    }

    /** Takes a packet whose first `index` bytes are not to be sent, unless nothing is left of it or the
        queue is full. */
    method Append(data: seq<Byte>, index: nat) returns (ok: bool)
      requires Valid()
      modifies this`queue
      ensures Valid()
      ensures ok <==> index < |data| && |old(queue)| < capacity
      ensures ok ==> Unsent(queue) == Unsent(old(queue)) + data[index..]
      ensures queue == if ok then old(queue) + [Packet(data, index)] else old(queue)
    {
      if |data| <= index {
        return false;
      }
      if |queue| >= capacity {
        return false;
      }
      UnsentAppend(queue, Packet(data, index));
      queue := queue + [Packet(data, index)];
      return true;
    }

    method Send(answers: nat -> Answer) returns (status: int, given: seq<Byte>)
      requires Valid()
      modifies this`queue
      ensures Valid()
      ensures var r := Drained(old(queue), answers, 0); queue == r.queue && given == r.given && status == r.status
      ensures given + Unsent(queue) == old(Unsent(queue))
    {
      hide Drained, Unsent, Pending, Behind, Taken;
      ghost var all := Drained(queue, answers, 0);
      DrainedConserves(queue, answers, 0);
      var count, call := 1, 0;
      status, given := 0, [];
      BehindNothing(all);
      while count > 0
        invariant 0 <= count <= 1 && Valid()
        invariant all == if count == 1 then Behind(given, Drained(queue, answers, call)) else Sent(queue, given, status, call)
        decreases count + |queue|
      {
        DrainedPass(queue, answers, call);
        if |queue| == 0 {
          BehindEnd(given, Sent([], [], 0, call));
          status := 0;
          return;
        }
        SendPass(queue, answers, call, given);
        count := count - 1;
        var p := queue[0];
        var answer := answers(call);
        call := call + 1;
        var n := if answer.Takes? then Min(answer.upTo, |p.data| - p.index) else -1;
        if n > 0 {
          given := given + p.data[p.index..p.index + n];
          queue := queue[0 := p.(index := p.index + n)];
          if p.index + n == |p.data| {
            count := count + 1;
            queue := queue[1..];
          }
        } else {
          if n < 0 && answer.WouldBlock? {
            n := 0;
          }
        }
        status := n;
      }
    }
  }

  // ---------- the connection ----------

  datatype Interest = Interest(read: bool, write: bool)

  /** A connection: whether it is closed, its queue, the events its channel asks for and those the reactor
      was last told (none once the channel is removed). `given` is what the socket took so far,
      `accepted` the messages the writer took, and `farewells` how often the owner was told of the close. */
  datatype Connection = Connection(closed: bool, queue: seq<Packet>, channel: Interest, watched: seq<Interest>,
                                   given: seq<Byte>, accepted: seq<seq<Byte>>, farewells: nat)

  const OPENED := Connection(false, [], Interest(true, false), [Interest(true, false)], [], [], 0)

  function Concat(messages: seq<seq<Byte>>): seq<Byte> {
    if messages == [] then [] else Concat(messages[..|messages| - 1]) + messages[|messages| - 1]
  }

  function AfterClose(c: Connection): Connection {
    if c.closed then c else c.(closed := true, watched := [], farewells := c.farewells + 1)
  }

  function AfterWrite(c: Connection, answers: nat -> Answer): Connection
    requires Pending(c.queue)
  {
    if c.closed then c else
      var r := Drained(c.queue, answers, 0);
      var d := c.(queue := r.queue, given := c.given + r.given);
      if r.status < 0 then AfterClose(d)
      else if (r.queue == []) == c.channel.write then
        var interest := c.channel.(write := r.queue != []);
        d.(channel := interest, watched := [interest])
      else d
  }

  function AfterSend(c: Connection, data: seq<Byte>, answers: nat -> Answer): Connection
    requires Pending(c.queue)
  {
    if c.closed then c
    else if data == [] || |c.queue| >= CONNECTION_CAPACITY then AfterWrite(c, answers)
    else
      assert forall p <- c.queue + [Packet(data, 0)] :: p in c.queue || p == Packet(data, 0);
      AfterWrite(c.(queue := c.queue + [Packet(data, 0)], accepted := c.accepted + [data]), answers)
  }

  /** Nothing is lost, reordered or repeated; an open connection asks for write events, and the reactor
      knows, exactly while bytes are queued; and the owner is told of the close once. */
  ghost predicate Sound(c: Connection) {
    && Pending(c.queue) && |c.queue| <= CONNECTION_CAPACITY
    && c.given + Unsent(c.queue) == Concat(c.accepted)
    && c.channel.read
    && (c.closed <==> c.watched == [])
    && c.farewells == (if c.closed then 1 else 0)
    && (!c.closed ==> c.watched == [c.channel] && (c.channel.write <==> c.queue != []))
  }

  lemma {:induction false} WriteKeepsSound(c: Connection, answers: nat -> Answer)
    requires Pending(c.queue) && |c.queue| <= CONNECTION_CAPACITY
    requires c.given + Unsent(c.queue) == Concat(c.accepted)
    requires c.channel.read && !c.closed && c.watched == [c.channel] && c.farewells == 0
    ensures var d := AfterWrite(c, answers);
      && Sound(d) && c.given <= d.given && d.accepted == c.accepted
      && (d.closed <==> Drained(c.queue, answers, 0).status < 0)
  {
    hide Unsent, Pending, Concat;
    DrainedConserves(c.queue, answers, 0);
    DrainedStops(c.queue, answers, 0);
    var r := Drained(c.queue, answers, 0);
    assert c.given + r.given + Unsent(r.queue) == c.given + (r.given + Unsent(r.queue));
  }

  lemma SendKeepsSound(c: Connection, data: seq<Byte>, answers: nat -> Answer)
    requires Sound(c)
    ensures var d := AfterSend(c, data, answers);
      && Sound(d) && c.given <= d.given
      && d.accepted == if c.closed || data == [] || |c.queue| >= 500 then c.accepted else c.accepted + [data]
  {
    hide AfterWrite, Unsent, Concat, Pending;
    if c.closed {
      return;
    }
    if |data| == 0 || |c.queue| >= CONNECTION_CAPACITY {
      WriteKeepsSound(c, answers);
    } else {
      Queued(c, data);
      WriteKeepsSound(c.(queue := c.queue + [Packet(data, 0)], accepted := c.accepted + [data]), answers);
    }
  }

  /** A message that is queued is accepted. */
  lemma Queued(c: Connection, data: seq<Byte>)
    requires Pending(c.queue) && c.given + Unsent(c.queue) == Concat(c.accepted) && data != []
    ensures var queue := c.queue + [Packet(data, 0)];
      Pending(queue) && c.given + Unsent(queue) == Concat(c.accepted + [data])
  {
    hide Unsent;
    UnsentAppend(c.queue, Packet(data, 0));
    assert data[0..] == data;
    assert c.given + (Unsent(c.queue) + data) == c.given + Unsent(c.queue) + data;
    assert (c.accepted + [data])[..|c.accepted|] == c.accepted;
  }

  /** A writable event on an open connection offers the socket what is queued, at once. An error closes the connection;
      otherwise the channel waits for write events exactly if something is left. */
  lemma WriteEffect(c: Connection, answers: nat -> Answer)
    requires Sound(c)
    ensures var d := AfterWrite(c, answers);
      if c.closed then d == c else
        var r := Drained(c.queue, answers, 0);
        && d.queue == r.queue && d.given == c.given + r.given && d.accepted == c.accepted
        && if r.status < 0 then
             d.closed && d.watched == [] && d.channel == c.channel && d.farewells == c.farewells + 1
           else
             !d.closed && d.farewells == c.farewells
             && d.channel == Interest(true, r.queue != []) && d.watched == [Interest(true, r.queue != [])]
  {
    hide Drained, Unsent, Concat;
  }

  /** A send queues the message if there is something of it and fewer than 500 wait, and offers the socket all that is
      queued, at once. */
  lemma SendEffect(c: Connection, data: seq<Byte>, answers: nat -> Answer)
    requires Sound(c)
    ensures var d := AfterSend(c, data, answers);
      if c.closed then d == c else
        var taken := data != [] && |c.queue| < 500;
        var queue := if taken then c.queue + [Packet(data, 0)] else c.queue;
        && Pending(queue)
        && var r := Drained(queue, answers, 0);
        && d.queue == r.queue && d.given == c.given + r.given
        && d.accepted == (if taken then c.accepted + [data] else c.accepted)
        && (d.closed <==> r.status < 0)
        && (!d.closed ==> d.channel == Interest(true, r.queue != []) && d.watched == [Interest(true, r.queue != [])])
  {
    hide Drained, Unsent, Concat;
    if !c.closed {
      assert forall p <- c.queue + [Packet(data, 0)] :: p in c.queue || p == Packet(data, 0);
    }
  }

  lemma TakenAll(p: Packet, answer: Answer)
    requires p.index < |p.data| && answer.Takes? && answer.upTo >= |p.data|
    ensures p.index + Taken(p, answer) == |p.data|
  {}

  lemma UnsentFront(queue: seq<Packet>)
    requires Pending(queue) && |queue| > 0
    ensures Pending(queue[1..]) && queue[0].index < |queue[0].data|
    ensures Unsent(queue) == queue[0].data[queue[0].index..] + Unsent(queue[1..])
  {}

  /** A socket that takes all it is offered gets everything at once, in order. */
  lemma {:induction false} TakesAll(queue: seq<Packet>, answers: nat -> Answer, call: nat)
    requires Pending(queue)
    requires forall k :: answers(k).Takes? && forall p <- queue :: answers(k).upTo >= |p.data|
    ensures var r := Drained(queue, answers, call); r.queue == [] && r.status == 0 && r.given == Unsent(queue)
    decreases |queue|
  {
    hide Drained, Taken, Pending;
    DrainedPass(queue, answers, call);
    if |queue| > 0 {
      assert queue[0] in queue && forall p <- queue[1..] :: p in queue;
      TakenAll(queue[0], answers(call));
      UnsentFront(queue);
      TakesAll(queue[1..], answers, call + 1);
    }
  }

  datatype Event = Send(data: seq<Byte>, answers: nat -> Answer) | Writable(answers: nat -> Answer) | Hangup

  /** The connection after a run of events. */
  ghost function After(events: seq<Event>): (c: Connection)
    ensures Sound(c)
  {
    if events == [] then OPENED else
      var c := After(events[..|events| - 1]);
      match events[|events| - 1]
      case Send(data, answers) => SendKeepsSound(c, data, answers); AfterSend(c, data, answers)
      case Writable(answers) =>
        if c.closed then c else WriteKeepsSound(c, answers); AfterWrite(c, answers)
      case Hangup => AfterClose(c)
  }

  /** Whatever the socket does: over any run its bytes are a prefix of the accepted messages laid end to end,
      and what is missing is what is queued; and the owner is told of the close exactly once, when it closes. */
  lemma ByteStream(events: seq<Event>)
    ensures var c := After(events); c.given <= Concat(c.accepted) && Concat(c.accepted)[|c.given|..] == Unsent(c.queue)
    ensures After(events).farewells == if After(events).closed then 1 else 0
  {}

  /** Each answer list takes at least one byte to begin with and never fails. */
  ghost predicate Willing(answers: nat -> Answer) {
    answers(0).Takes? && answers(0).upTo > 0 && forall k :: !answers(k).Error?
  }

  /** On an open connection, as many writable events as bytes are queued deliver everything, whatever
      else the socket does. */
  lemma {:induction false} EverythingArrives(c: Connection, events: seq<nat -> Answer>)
    requires Sound(c) && !c.closed && |events| >= |Unsent(c.queue)|
    requires forall answers <- events :: Willing(answers)
    ensures var d := AfterWrites(c, events);
      !d.closed && d.given == Concat(c.accepted) && d.queue == [] && !d.channel.write
    decreases |events|
  {
    if events == [] {
      UnsentLength(c.queue);
    } else {
      var d := AfterWrite(c, events[0]);
      assert Willing(events[0]) by {
        assert events[0] in events;
      }
      WriteKeepsSound(c, events[0]);
      DrainedStops(c.queue, events[0], 0);
      if c.queue != [] {
        DrainedProgresses(c.queue, events[0], 0);
      }
      DrainedConserves(c.queue, events[0], 0);
      assert d.queue == Drained(c.queue, events[0], 0).queue;
      assert c.queue != [] ==> |Unsent(d.queue)| < |Unsent(c.queue)|;
      assert forall answers <- events[1..] :: answers in events;
      EverythingArrives(d, events[1..]);
    }
  }

  /** The connection after writable events alone. */
  ghost function AfterWrites(c: Connection, events: seq<nat -> Answer>): Connection
    requires Sound(c)
    decreases |events|
  {
    if events == [] || c.closed then c else
      WriteKeepsSound(c, events[0]);
      AfterWrites(AfterWrite(c, events[0]), events[1..])
  }

  class TcpConnection {
    var closed: bool
    const writer: BufferWriter
    var channel: Interest
    var watched: seq<Interest>
    ghost var given: seq<Byte>
    ghost var accepted: seq<seq<Byte>>
    var farewells: nat

    ghost function State(): Connection
      reads this, writer
    {
      Connection(closed, writer.queue, channel, watched, given, accepted, farewells)
    }

    ghost predicate Valid()
      reads this, writer
    {
      writer.Valid() && writer.capacity == CONNECTION_CAPACITY && Sound(State())
    }

    constructor ()
      ensures Valid() && fresh(writer) && State() == OPENED
    {
      closed := false;
      writer := new BufferWriter(CONNECTION_CAPACITY);
      channel := Interest(true, false);
      watched := [Interest(true, false)];
      given, accepted, farewells := [], [], 0;
    }

    method Send(data: seq<Byte>, answers: nat -> Answer)
      requires Valid()
      modifies this, writer
      ensures Valid() && State() == AfterSend(old(State()), data, answers)
    {
      SendKeepsSound(State(), data, answers);
      if !closed {
        var ok := writer.Append(data, 0);
        if ok {
          accepted := accepted + [data];
        }
        HandleWrite(answers);
      }
    }

    method HandleWrite(answers: nat -> Answer)
      requires writer.Valid()
      modifies this, writer
      ensures writer.Valid() && State() == AfterWrite(old(State()), answers)
    {
      if closed {
        return;
      }
      var status, bytes := writer.Send(answers);
      given := given + bytes;
      if status < 0 {
        Close();
        return;
      }
      if writer.queue == [] {
        if channel.write {
          channel := channel.(write := false);
          watched := [channel];
        }
      } else if !channel.write {
        channel := channel.(write := true);
        watched := [channel];
      }
    }

    method Close()
      modifies this`closed, this`watched, this`farewells
      ensures State() == AfterClose(old(State()))
    {
      if !closed {
        closed := true;
        watched := [];
        farewells := farewells + 1;
      }
    }
  }
}
