/** The RTMP handshake (section 5.2 of Adobe's Real Time Messaging Protocol specification 1.0): both
    ends' state machines, and the run of one against the other. */
module Handshake {
  import opened Bytes
  import opened BufferReaders

  const VERSION: Byte := 3
  const BLOCK := 1536
  const RANDOM := 1528

  datatype Stage = AwaitC0C1 | AwaitS0S1S2 | AwaitC2 | Complete

  /** A time of zero, four zeros and the random bytes: C1 and S1 alike. */
  function Block(random: nat -> Byte): (b: seq<Byte>)
    ensures |b| == BLOCK
  {
    seq(BLOCK, i requires i >= 0 => if i < 8 then 0 else random(i - 8))
  }

  /** What a stage wants before it does anything. */
  function Wanted(stage: Stage): nat {
    match stage
    case AwaitC0C1 => 1 + BLOCK
    case AwaitS0S1S2 => 1 + 2 * BLOCK
    case AwaitC2 => BLOCK
    case Complete => 0
  }

  function Next(stage: Stage): Stage {
    if stage.AwaitC0C1? then AwaitC2 else Complete
  }

  predicate BadVersion(stage: Stage, unread: seq<Byte>)
    requires |unread| >= Wanted(stage)
  {
    (stage.AwaitC0C1? || stage.AwaitS0S1S2?) && unread[0] != VERSION
  }

  /** The bytes a stage answers with: the server sends its version, its own block and the client's; the
      client sends the server's block. */
  function Response(stage: Stage, unread: seq<Byte>, random: nat -> Byte): seq<Byte>
    requires |unread| >= Wanted(stage)
  {
    match stage
    case AwaitC0C1 => [VERSION] + Block(random) + unread[1..1 + BLOCK]
    case AwaitS0S1S2 => unread[1..1 + BLOCK]
    case _ => []
  }

  /** The same in numbers. */
  lemma InNumbers(stage: Stage, unread: seq<Byte>, random: nat -> Byte)
    ensures Wanted(AwaitC0C1) == 1537 && Wanted(AwaitS0S1S2) == 3073 && Wanted(AwaitC2) == 1536 && Wanted(Complete) == 0
    ensures Next(AwaitC0C1) == AwaitC2 && Next(AwaitC2) == Complete && Next(AwaitS0S1S2) == Complete && Next(Complete) == Complete
    ensures |unread| >= Wanted(stage) ==>
      var r := Response(stage, unread, random);
      match stage
      case AwaitC0C1 =>
        && |r| == 3073 && r[0] == 3 && r[1537..] == unread[1..1537]
        && (forall i :: 1 <= i < 9 ==> r[i] == 0) && forall i :: 9 <= i < 1537 ==> r[i] == random(i - 9)
      case AwaitS0S1S2 => r == unread[1..1537]
      case _ => r == []
    ensures |unread| >= Wanted(stage) ==> (BadVersion(stage, unread) <==> stage in {AwaitC0C1, AwaitS0S1S2} && unread[0] != 3)
  {}

  class RtmpHandshake {
    var stage: Stage

    constructor (stage: Stage)
      ensures this.stage == stage
    {
      this.stage := stage;
    }

    /** One attempt at the unread bytes. Nothing changes until the stage's bytes are all there, or when
        the version is wrong. */
    method Parse(input: BufferReader, response: array<Byte>, random: nat -> Byte) returns (n: int)
      requires input.Valid() && response.Length >= 1 + 2 * BLOCK && response != input.buffer
      modifies this, response, input`readIndex, input`writeIndex
      ensures input.Valid()
      ensures var unread := old(input.Contents()); var was := old(stage);
        if |unread| < Wanted(was) then
          n == 0 && stage == was && input.Contents() == unread && response[..] == old(response[..])
        else if BadVersion(was, unread) then
          n == -1 && stage == was && input.Contents() == unread && response[..] == old(response[..])
        else
          && stage == Next(was) && input.Contents() == unread[Wanted(was)..]
          && n == |Response(was, unread, random)| && response[..n] == Response(was, unread, random)
    {
      var unread := input.Peek();
      var used := 0;
      n := 0;
      if stage == AwaitS0S1S2 {
        if |unread| < 1 + BLOCK + BLOCK {
          return;
        }
        if unread[0] != VERSION {
          return -1;
        }
        used := 1 + BLOCK + BLOCK;
        n := BLOCK;
        Copy(response, 0, unread[1..1 + BLOCK]);
        stage := Complete;
      } else if stage == AwaitC0C1 {
        if |unread| < 1 + BLOCK {
          return;
        }
        if unread[0] != VERSION {
          return -1;
        }
        used := 1 + BLOCK;
        n := 1 + BLOCK + BLOCK;
        Fill(response, n, random);
        Copy(response, 1 + BLOCK, unread[1..1 + BLOCK]);
        assert response[..n] == response[..1 + BLOCK] + response[1 + BLOCK..n];
        stage := AwaitC2;
      } else if stage == AwaitC2 {
        if |unread| < BLOCK {
          return;
        }
        used := BLOCK;
        stage := Complete;
      }
      input.Retrieve(used);
    }

    /** The client's opening. */
    method BuildC0C1(request: array<Byte>, random: nat -> Byte) returns (n: nat)
      requires request.Length >= 1 + BLOCK
      modifies request
      ensures n == 1 + BLOCK && request[..n] == [VERSION] + Block(random)
      ensures n == 1537 && request[0] == 3 && (forall i :: 1 <= i < 9 ==> request[i] == 0)
      ensures forall i :: 9 <= i < 1537 ==> request[i] == random(i - 9)
    {
      n := 1 + BLOCK;
      Fill(request, n, random);
      assert forall i :: 1 <= i < 1537 ==> request[..n][i] == Block(random)[i - 1];
    }

    /** Clears the first `size` bytes, then writes the version and, one by one, the random bytes. */
    static method Fill(a: array<Byte>, size: nat, random: nat -> Byte)
      requires 1 + BLOCK <= size <= a.Length
      modifies a
      ensures a[..1 + BLOCK] == [VERSION] + Block(random)
    {
      forall i | 0 <= i < size {
        a[i] := 0;
      }
      a[0] := VERSION;
      var p := 9;
      for i := 0 to RANDOM
        invariant p == 9 + i
        invariant a[0] == VERSION && forall k :: 1 <= k < 9 ==> a[k] == 0
        invariant forall k :: 9 <= k < p ==> a[k] == random(k - 9)
      {
        a[p] := random(i);
        p := p + 1;
      }
      assert forall k :: 1 <= k < 1 + BLOCK ==> a[k] == Block(random)[k - 1];
    }

    static method Copy(a: array<Byte>, start: nat, bytes: seq<Byte>)
      requires start + |bytes| <= a.Length
      modifies a
      ensures a[start..start + |bytes|] == bytes && a[..start] == old(a[..start])
    {
      forall i | 0 <= i < |bytes| {
        a[start + i] := bytes[i];
      }
    }
  }

  // ---------- client against server ----------

  /** One end: its stage, everything it sent, everything it received, and how much of that the handshake
      took. What is behind that is for the chunk parser. */
  datatype End = End(stage: Stage, sent: seq<Byte>, received: seq<Byte>, used: nat)

  /** Both ends, joined by two byte streams. Each end received a prefix of what the other sent. */
  datatype Pair = Pair(client: End, server: End)

  function Started(random: nat -> Byte): Pair {
    Pair(End(AwaitS0S1S2, [VERSION] + Block(random), [], 0), End(AwaitC0C1, [], [], 0))
  }

  datatype Outcome<T> = Alive(value: T) | Dropped

  /** An end gets some more bytes; while the handshake is on it makes one attempt at what is unread, and a
      failed attempt drops the connection. */
  function Receive(e: End, bytes: seq<Byte>, random: nat -> Byte): Outcome<End>
    requires e.used <= |e.received|
  {
    var all := e.received + bytes;
    var unread := all[e.used..];
    if e.stage.Complete? || |unread| < Wanted(e.stage) then Alive(e.(received := all))
    else if BadVersion(e.stage, unread) then Dropped
    else Alive(End(Next(e.stage), e.sent + Response(e.stage, unread, random), all, e.used + Wanted(e.stage)))
  }

  /** What an end does with bytes that arrive, in numbers. */
  lemma ReceiveExactly(e: End, bytes: seq<Byte>, random: nat -> Byte)
    requires e.used <= |e.received|
    ensures var all := e.received + bytes; var unread := all[e.used..]; var r := Receive(e, bytes, random);
      match e.stage
      case Complete => r == Alive(e.(received := all))
      case AwaitC2 => r == Alive(if |unread| < 1536 then e.(received := all) else End(Complete, e.sent, all, e.used + 1536))
      case AwaitC0C1 =>
        if |unread| < 1537 then r == Alive(e.(received := all))
        else if unread[0] != 3 then r == Dropped
        else r == Alive(End(AwaitC2, e.sent + Response(AwaitC0C1, unread, random), all, e.used + 1537))
      case AwaitS0S1S2 =>
        if |unread| < 3073 then r == Alive(e.(received := all))
        else if unread[0] != 3 then r == Dropped
        else r == Alive(End(Complete, e.sent + unread[1..1537], all, e.used + 3073))
  {
    hide Block;
    assert e.sent + [] == e.sent;
  }

  /** The steps of a run: some of the bytes on their way arrive, or an end that is through sends something. */
  datatype Step = ToServer(count: nat, random: nat -> Byte) | ToClient(count: nat, random: nat -> Byte)
                | ClientSends(data: seq<Byte>) | ServerSends(data: seq<Byte>)

  ghost predicate Possible(p: Pair, s: Step) {
    && p.server.used <= |p.server.received| <= |p.client.sent|
    && p.client.used <= |p.client.received| <= |p.server.sent|
    && match s
       case ToServer(count, _) => |p.server.received| + count <= |p.client.sent|
       case ToClient(count, _) => |p.client.received| + count <= |p.server.sent|
       case ClientSends(_) => p.client.stage.Complete?
       case ServerSends(_) => p.server.stage.Complete?
  }

  function Do(p: Pair, s: Step): Outcome<Pair>
    requires Possible(p, s)
  {
    match s
    case ToServer(count, random) =>
      var n := |p.server.received|;
      var r := Receive(p.server, p.client.sent[n..n + count], random);
      if r.Alive? then Alive(p.(server := r.value)) else Dropped
    case ToClient(count, random) =>
      var n := |p.client.received|;
      var r := Receive(p.client, p.server.sent[n..n + count], random);
      if r.Alive? then Alive(p.(client := r.value)) else Dropped
    case ClientSends(data) => Alive(p.(client := p.client.(sent := p.client.sent + data)))
    case ServerSends(data) => Alive(p.(server := p.server.(sent := p.server.sent + data)))
  }

  const C1 := 1 + BLOCK
  const ALL := 1 + 2 * BLOCK

  /** What each end sent and how far it is, as a function of how much it received. */
  ghost predicate Inv(p: Pair) {
    var c, s := p.client, p.server;
    && c.received <= s.sent && s.received <= c.sent
    && |c.sent| >= C1 && c.sent[0] == VERSION
    && (if |c.received| < ALL then c.stage == AwaitS0S1S2 && c.used == 0 && |c.sent| == C1
        else c.stage == Complete && c.used == ALL <= |c.sent| && c.sent[C1..ALL] == s.sent[1..C1])
    && (if |s.received| < C1 then s.stage == AwaitC0C1 && s.used == 0 && s.sent == []
        else
          && |s.sent| >= ALL && s.sent[0] == VERSION && s.sent[C1..ALL] == c.sent[1..C1]
          && if |s.received| < ALL then s.stage == AwaitC2 && s.used == C1 && |s.sent| == ALL
             else s.stage == Complete && s.used == ALL)
  }

  lemma ToServerKeepsInv(p: Pair, count: nat, random: nat -> Byte)
    requires Inv(p) && Possible(p, ToServer(count, random))
    ensures var r := Do(p, ToServer(count, random)); r.Alive? && Inv(r.value)
  {
    hide Block;
    var c, s := p.client, p.server;
    var n := |s.received|;
    var all := s.received + c.sent[n..n + count];
    assert all == c.sent[..n + count];
    if n < C1 <= |all| {
      assert |c.received| == 0 && |c.sent| == C1;
      assert all[1..C1] == c.sent[1..C1];
      var sent := s.sent + Response(AwaitC0C1, all[0..], random);
      assert sent == ([VERSION] + Block(random)) + c.sent[1..C1];
      assert sent[C1..ALL] == c.sent[1..C1];
    }
  }

  lemma ToClientKeepsInv(p: Pair, count: nat, random: nat -> Byte)
    requires Inv(p) && Possible(p, ToClient(count, random))
    ensures var r := Do(p, ToClient(count, random)); r.Alive? && Inv(r.value)
  {
    hide Block;
    var c, s := p.client, p.server;
    var n := |c.received|;
    var all := c.received + s.sent[n..n + count];
    assert all == s.sent[..n + count];
    if n < ALL <= |all| {
      var sent := c.sent + all[1..C1];
      assert all[1..C1] == s.sent[1..C1] && |c.sent| == C1;
      assert sent[C1..ALL] == s.sent[1..C1];
      assert sent[1..C1] == c.sent[1..C1];
    }
  }

  lemma StepKeepsInv(p: Pair, s: Step)
    requires Inv(p) && Possible(p, s)
    ensures Do(p, s).Alive? && Inv(Do(p, s).value)
  {
    match s
    case ToServer(count, random) => ToServerKeepsInv(p, count, random);
    case ToClient(count, random) => ToClientKeepsInv(p, count, random);
    case ClientSends(data) =>
      assert (p.client.sent + data)[C1..ALL] == p.client.sent[C1..ALL];
      assert (p.client.sent + data)[1..C1] == p.client.sent[1..C1];
    case ServerSends(data) =>
      assert (p.server.sent + data)[C1..ALL] == p.server.sent[C1..ALL];
      assert (p.server.sent + data)[1..C1] == p.server.sent[1..C1];
  }

  /** A run in which every step was possible. */
  ghost predicate Run(p: Pair, steps: seq<Step>, q: Pair)
    decreases |steps|
  {
    if steps == [] then p == q
    else Possible(p, steps[0]) && Do(p, steps[0]).Alive? && Run(Do(p, steps[0]).value, steps[1..], q)
  }

  lemma {:induction false} RunKeepsInv(p: Pair, steps: seq<Step>, q: Pair)
    requires Inv(p) && Run(p, steps, q)
    ensures Inv(q)
    decreases |steps|
  {
    hide Do, Possible, Inv;
    if steps != [] {
      StepKeepsInv(p, steps[0]);
      RunKeepsInv(Do(p, steps[0]).value, steps[1..], q);
    }
  }

  /** However the streams are cut and interleaved: no step drops the connection; an end that is through
      has seen its own block come back and has taken exactly the handshake's bytes, leaving those behind
      it unread and in order; and when nothing is on its way any more, both ends are through. */
  lemma TwoPartyHandshake(random: nat -> Byte, steps: seq<Step>, p: Pair)
    requires Run(Started(random), steps, p)
    ensures forall s :: Possible(p, s) ==> Do(p, s).Alive?
    ensures var c, s := p.client, p.server;
      && c.received <= s.sent && s.received <= c.sent
      && (c.stage.Complete? <==> |c.received| >= ALL) && (s.stage.Complete? <==> |s.received| >= ALL)
      && (c.stage.Complete? ==>
            && c.used == ALL && c.received[ALL..] <= s.sent[ALL..]
            && |c.sent| >= ALL && c.received[C1..ALL] == c.sent[1..C1] && c.sent[C1..ALL] == s.sent[1..C1])
      && (s.stage.Complete? ==>
            && c.stage.Complete?
            && s.used == ALL && s.received[ALL..] <= c.sent[ALL..]
            && s.received[C1..ALL] == s.sent[1..C1] && s.sent[C1..ALL] == c.sent[1..C1])
      && (|c.received| == |s.sent| && |s.received| == |c.sent| ==> c.stage.Complete? && s.stage.Complete?)
  {
    hide Do, Possible;
    assert Inv(Started(random));
    RunKeepsInv(Started(random), steps, p);
    forall s | Possible(p, s)
      ensures Do(p, s).Alive?
    {
      StepKeepsInv(p, s);
    }
    var c, s := p.client, p.server;
    assert c.received == s.sent[..|c.received|] && s.received == c.sent[..|s.received|];
  }
}
