/** What the chunk layer is for: messages sent arrive, whatever the interleaving and whatever the
    cuts made by the network; and timestamps sent as differences are rebuilt. */
module ChunkDelivery {
  import opened Bytes
  import opened ChunkSpec
  import opened ChunkStream
  import opened ChunkWire
  import opened ChunkRoundTrip
  import opened ChunkInterleaving

  // ---------- the writer's messages ----------

  /** Messages the writer sends in a form the reader understands. */
  predicate Fits(m: Message, chunk: ChunkSize) {
    && |m.payload| < 0x100_0000
    && (m.payload != [] && m.typeId == SET_CHUNK_SIZE ==> |m.payload| >= 4 && ReadU32BE(m.payload, 0) == chunk)
  }

  predicate AllFit(ms: seq<Message>, chunk: ChunkSize) {
    forall i :: 0 <= i < |ms| ==> Fits(ms[i], chunk)
  }

  predicate NoneEmpty(ms: seq<Message>) {
    forall i :: 0 <= i < |ms| ==> ms[i].payload != []
  }

  /** The chunks the writer makes for a list of messages on one chunk stream. */
  function Written(ms: seq<Message>, csId: Byte, chunk: ChunkSize): seq<seq<Byte>>
    requires AllFit(ms, chunk)
  {
    if ms == [] then [] else Chunks(0, csId, ms[0], chunk) + Written(ms[1..], csId, chunk)
  }

  function Wires(ms: seq<Message>, chunk: ChunkSize): seq<Wire>
    requires AllFit(ms, chunk)
  {
    if ms == [] then [] else [Wire(0, ms[0])] + Wires(ms[1..], chunk)
  }

  /** Type, stream and payload of the message sent. */
  predicate Arrived(s: Slot, m: Message) {
    s.typeId == m.typeId && s.streamId == m.streamId && s.internalTs == Carried(m)
    && s.data == m.payload && s.length == |m.payload|
  }

  ghost predicate AllArrived(out: seq<Slot>, ms: seq<Message>) {
    |out| == |ms| && forall i :: 0 <= i < |ms| ==> Arrived(out[i], ms[i])
  }

  /** The messages sent, timestamps included. */
  ghost predicate SameAll(out: seq<Slot>, ms: seq<Message>) {
    AllArrived(out, ms) && forall i :: 0 <= i < |ms| ==> out[i].internalTs == ms[i].timestamp
  }

  ghost predicate AllTellTime(ms: seq<Message>) {
    forall i :: 0 <= i < |ms| ==> TellsTime(ms[i])
  }

  /** Times below 16777215 arrive as they are; from there on what arrives is the separate field. */
  ghost predicate TimesArrive(out: seq<Slot>, ms: seq<Message>) {
    |out| == |ms| && forall i :: 0 <= i < |ms| ==> out[i].internalTs == if ms[i].timestamp < 16777215 then ms[i].timestamp else ms[i].ext
  }

  lemma TimesAsSent(out: seq<Slot>, ms: seq<Message>)
    requires AllArrived(out, ms)
    ensures TimesArrive(out, ms)
  {}

  lemma SameExactly(out: seq<Slot>, ms: seq<Message>)
    requires AllArrived(out, ms)
    ensures SameAll(out, ms) <==> AllTellTime(ms)
  {}

  lemma {:induction false} WiresSendable(base: Slot, csId: Byte, ms: seq<Message>, chunk: ChunkSize)
    requires AllFit(ms, chunk)
    ensures AllSendable(base, csId, Wires(ms, chunk), chunk)
    ensures AllChunks(Wires(ms, chunk), csId, chunk) == Written(ms, csId, chunk)
    decreases |ms|
  {
    if ms != [] {
      assert Wires(ms, chunk)[1..] == Wires(ms[1..], chunk);
      WiresSendable(Cleared(Received(base, csId, Wire(0, ms[0]))), csId, ms[1..], chunk);
    }
  }

  lemma {:induction false} WiresReceived(base: Slot, csId: Byte, ms: seq<Message>, chunk: ChunkSize)
    requires AllFit(ms, chunk)
    ensures AllArrived(ReceivedAll(base, csId, Wires(ms, chunk)), ms)
    decreases |ms|
  {
    if ms != [] {
      assert Wires(ms, chunk)[1..] == Wires(ms[1..], chunk);
      var s := Received(base, csId, Wire(0, ms[0]));
      WiresReceived(Cleared(s), csId, ms[1..], chunk);
      var out, later := ReceivedAll(base, csId, Wires(ms, chunk)), ReceivedAll(Cleared(s), csId, Wires(ms[1..], chunk));
      assert out == [s] + later;
      assert Arrived(s, ms[0]);
      forall i | 0 <= i < |ms|
        ensures Arrived(out[i], ms[i])
      {
        if i > 0 {
          assert out[i] == later[i - 1] && ms[i] == ms[1..][i - 1];
        }
      }
    }
  }

  lemma {:induction false} WiresAt(ms: seq<Message>, chunk: ChunkSize)
    requires AllFit(ms, chunk)
    ensures |Wires(ms, chunk)| == |ms| && forall i :: 0 <= i < |ms| ==> Wires(ms, chunk)[i] == Wire(0, ms[i])
    decreases |ms|
  {
    if ms != [] {
      WiresAt(ms[1..], chunk);
    }
  }

  function Start(chunk: ChunkSize): Run {
    Run(Parser(InHeader, -1, map[], chunk), [], [], Running)
  }

  function NewLane(ms: seq<Message>, chunk: ChunkSize): Lane
    requires AllFit(ms, chunk)
  {
    Lane(FRESH_SLOT, Wires(ms, chunk), 0)
  }

  lemma NewLaneWritten(ms: seq<Message>, csId: Byte, chunk: ChunkSize)
    requires AllFit(ms, chunk) && ParsableId(csId)
    ensures LaneOk(NewLane(ms, chunk), csId, chunk) && LaneSlot(NewLane(ms, chunk), csId, chunk) == FRESH_SLOT
    ensures LaneChunks(NewLane(ms, chunk), csId, chunk) == Written(ms, csId, chunk)
  {
    WiresSendable(FRESH_SLOT, csId, ms, chunk);
  }

  /** Sending and receiving: take the chunks the writer makes for lists of messages on distinct
      chunk streams, merge them at chunk boundaries in any order, and cut the resulting bytes
      anywhere. The reader gets, for each chunk stream, exactly its messages in order, consumes
      every byte and ends at a chunk boundary. Timestamps arrive exactly if every message with an
      extended one repeats it in the separate field; the field is what arrives otherwise. */
  lemma RoundTrip(h: Policy, msgs: map<Byte, seq<Message>>, sched: seq<Tagged>, chunk: ChunkSize, pieces: seq<seq<Byte>>)
    requires KeepsAll(h)
    requires forall k <- msgs :: ParsableId(k) && AllFit(msgs[k], chunk) && NoneEmpty(msgs[k])
    requires forall k <- msgs :: Project(sched, k) == Written(msgs[k], k, chunk)
    requires forall e <- sched :: e.csId in msgs
    requires pieces != [] && Flatten(pieces) == Joined(sched)
    ensures var d := Feed(h, Start(chunk), pieces);
      && d.status.Running? && d.rest == [] && d.parser.phase == InHeader
      && (forall i :: 0 <= i < |d.out| ==> d.out[i].csId in msgs)
      && (forall k <- msgs :: AllArrived(Of(d.out, k), msgs[k]) && TimesArrive(Of(d.out, k), msgs[k]))
      && ((forall k <- msgs :: SameAll(Of(d.out, k), msgs[k])) <==> forall k <- msgs :: AllTellTime(msgs[k]))
  {
    hide KeepsAll, AllFit, NoneEmpty, Written, Project, Joined, Flatten, Feed, NewLane, Delivered, AllArrived, TimesArrive, SameAll, AllTellTime, Ready, Merges, AllFull, AllIdle, Safe;
    var lanes := NewLanes(msgs, chunk);
    NewLanesReady(msgs, sched, chunk);
    NewLanesFull(msgs, chunk);
    StartIsSafe(chunk);
    FeedInterleaved(h, Start(chunk), lanes, sched, chunk, pieces);
    var d := Feed(h, Start(chunk), pieces);
    DeliveredFromStart(d, msgs, chunk);
    forall k | k in msgs
      ensures AllArrived(Of(d.out, k), msgs[k]) && TimesArrive(Of(d.out, k), msgs[k])
      ensures SameAll(Of(d.out, k), msgs[k]) <==> AllTellTime(msgs[k])
    {
      WiresReceived(FRESH_SLOT, k, msgs[k], chunk);
      TimesAsSent(Of(d.out, k), msgs[k]);
      SameExactly(Of(d.out, k), msgs[k]);
    }
  }

  lemma StartIsSafe(chunk: ChunkSize)
    ensures Safe(Start(chunk))
  {}

  /** The lanes of lists of messages of which nothing has arrived. */
  function NewLanes(msgs: map<Byte, seq<Message>>, chunk: ChunkSize): map<Byte, Lane>
    requires forall k <- msgs :: AllFit(msgs[k], chunk)
  {
    map k | k in msgs :: NewLane(msgs[k], chunk)
  }

  lemma NewLanesReady(msgs: map<Byte, seq<Message>>, sched: seq<Tagged>, chunk: ChunkSize)
    requires forall k <- msgs :: ParsableId(k) && AllFit(msgs[k], chunk)
    requires forall k <- msgs :: Project(sched, k) == Written(msgs[k], k, chunk)
    requires forall e <- sched :: e.csId in msgs
    ensures Ready(Start(chunk).parser, NewLanes(msgs, chunk), chunk) && Merges(sched, NewLanes(msgs, chunk), chunk)
  {
    hide NewLane, AllFit, Written, Project, LaneChunks, LaneOk;
    var lanes := NewLanes(msgs, chunk);
    forall k | k in msgs
      ensures LaneOk(lanes[k], k, chunk) && LaneChunks(lanes[k], k, chunk) == Written(msgs[k], k, chunk)
      ensures Lookup(Start(chunk).parser.slots, k) == LaneSlot(lanes[k], k, chunk)
    {
      NewLaneWritten(msgs[k], k, chunk);
    }
  }

  lemma NewLanesFull(msgs: map<Byte, seq<Message>>, chunk: ChunkSize)
    requires forall k <- msgs :: AllFit(msgs[k], chunk) && NoneEmpty(msgs[k])
    ensures AllFull(NewLanes(msgs, chunk)) && AllIdle(NewLanes(msgs, chunk))
  {
    hide AllFit;
    forall k | k in msgs
      ensures forall i :: 0 <= i < |NewLane(msgs[k], chunk).ws| ==> NewLane(msgs[k], chunk).ws[i].m.payload != []
    {
      WiresAt(msgs[k], chunk);
    }
  }

  lemma DeliveredFromStart(d: Run, msgs: map<Byte, seq<Message>>, chunk: ChunkSize)
    requires forall k <- msgs :: AllFit(msgs[k], chunk)
    requires Delivered(d, [], NewLanes(msgs, chunk), chunk) && d.rest == []
    ensures d.status.Running? && d.rest == [] && d.parser.phase == InHeader
    ensures forall i :: 0 <= i < |d.out| ==> d.out[i].csId in msgs
    ensures forall k <- msgs :: Of(d.out, k) == ReceivedAll(FRESH_SLOT, k, Wires(msgs[k], chunk))
  {
    hide AllFit, Of, ReceivedAll, Wires;
    assert d.out[0..] == d.out;
    var lanes := NewLanes(msgs, chunk);
    forall k | k in msgs
      ensures Of(d.out, k) == ReceivedAll(FRESH_SLOT, k, Wires(msgs[k], chunk))
    {
      assert k in lanes;
    }
  }

  // ---------- timestamps ----------

  /** The differences sent with the first `n` messages after the leading one. */
  function SumOfDeltas(ws: seq<Wire>, n: nat): int
    requires n < |ws|
  {
    if n == 0 then 0 else SumOfDeltas(ws, n - 1) + ws[n].m.timestamp
  }

  lemma SumFromNext(ws: seq<Wire>, n: nat)
    requires 0 < n < |ws|
    ensures SumOfDeltas(ws, n) == ws[1].m.timestamp + SumOfDeltas(ws[1..], n - 1)
  {
    if n > 1 {
      SumFromNext(ws, n - 1);
    }
  }

  /** The type of the `n`-th message: its own, or in format 2 that of the message before it. */
  function TypeOf(base: Byte, ws: seq<Wire>, n: nat): Byte
    requires n < |ws|
  {
    if ws[n].fmt <= 1 then ws[n].m.typeId else if n == 0 then base else TypeOf(base, ws, n - 1)
  }

  lemma TypeFromNext(base: Byte, ws: seq<Wire>, n: nat)
    requires 0 < n < |ws|
    ensures TypeOf(base, ws, n) == TypeOf(TypeOf(base, ws, 0), ws[1..], n - 1)
  {
    if n > 1 {
      TypeFromNext(base, ws, n - 1);
    }
  }

  lemma {:induction false} DeltasAddUp(base: Slot, csId: Byte, ws: seq<Wire>, n: nat)
    requires n < |ws| && forall i :: 0 <= i <= n ==> ws[i].fmt != 0
    ensures |ReceivedAll(base, csId, ws)| == |ws|
    ensures var s := ReceivedAll(base, csId, ws)[n];
      && s.internalTs == (base.internalTs + ws[0].m.timestamp + SumOfDeltas(ws, n)) % 0x1_0000_0000_0000_0000
      && s.streamId == base.streamId && s.typeId == TypeOf(base.typeId, ws, n)
      && s.data == ws[n].m.payload && s.length == |ws[n].m.payload|
    decreases |ws|
  {
    LengthsAgree(base, csId, ws);
    var s := Received(base, csId, ws[0]);
    if n > 0 {
      DeltasAddUp(Cleared(s), csId, ws[1..], n - 1);
      SumFromNext(ws, n);
      TypeFromNext(base.typeId, ws, n);
      assert ReceivedAll(base, csId, ws)[n] == ReceivedAll(Cleared(s), csId, ws[1..])[n - 1];
      WrapTwice(base.internalTs + ws[0].m.timestamp, ws[1].m.timestamp + SumOfDeltas(ws[1..], n - 1));
    }
  }

  lemma WrapTwice(a: int, b: int)
    ensures (a % 0x1_0000_0000_0000_0000 + b) % 0x1_0000_0000_0000_0000 == (a + b) % 0x1_0000_0000_0000_0000
  {}

  lemma {:induction false} LengthsAgree(base: Slot, csId: Byte, ws: seq<Wire>)
    ensures |ReceivedAll(base, csId, ws)| == |ws|
    decreases |ws|
  {
    if ws != [] {
      LengthsAgree(Cleared(Received(base, csId, ws[0])), csId, ws[1..]);
    }
  }

  /** On one chunk stream, a message with an absolute timestamp followed by messages that carry
      differences only: every message gets the absolute timestamp plus all differences up to its
      own, and the message stream of the first. The type is its own, or in format 2 the one before. */
  lemma TimestampsReconstructed(base: Slot, csId: Byte, ws: seq<Wire>, n: nat)
    requires n < |ws| && ws[0].fmt == 0 && forall i :: 0 < i <= n ==> ws[i].fmt != 0
    ensures |ReceivedAll(base, csId, ws)| == |ws|
    ensures var s := ReceivedAll(base, csId, ws)[n];
      && (TellsTime(ws[0].m) ==> s.internalTs == (ws[0].m.timestamp + SumOfDeltas(ws, n)) % 0x1_0000_0000_0000_0000)
      && s.streamId == ws[0].m.streamId && s.typeId == TypeOf(ws[0].m.typeId, ws, n)
      && s.data == ws[n].m.payload && s.length == |ws[n].m.payload|
  {
    LengthsAgree(base, csId, ws);
    if n > 0 {
      var s := Cleared(Received(base, csId, ws[0]));
      DeltasAddUp(s, csId, ws[1..], n - 1);
      SumFromNext(ws, n);
      TypeFromNext(ws[0].m.typeId, ws, n);
      assert ReceivedAll(base, csId, ws)[n] == ReceivedAll(s, csId, ws[1..])[n - 1];
    }
  }

  /** Lists of messages on distinct chunk streams, in any of the formats 0 to 2 that the reader takes. */
  ghost predicate AllReadable(wires: map<Byte, seq<Wire>>, chunk: ChunkSize) {
    forall k <- wires ::
      && ParsableId(k) && AllSendable(FRESH_SLOT, k, wires[k], chunk)
      && forall i :: 0 <= i < |wires[k]| ==> wires[k][i].m.payload != []
  }

  ghost predicate Merged(sched: seq<Tagged>, wires: map<Byte, seq<Wire>>, chunk: ChunkSize) {
    && (forall e <- sched :: e.csId in wires)
    && forall k <- wires :: Project(sched, k) == AllChunks(wires[k], k, chunk)
  }

  function FreshLanes(wires: map<Byte, seq<Wire>>): map<Byte, Lane> {
    map k | k in wires :: Lane(FRESH_SLOT, wires[k], 0)
  }

  lemma FreshLanesReady(wires: map<Byte, seq<Wire>>, sched: seq<Tagged>, chunk: ChunkSize)
    requires AllReadable(wires, chunk) && Merged(sched, wires, chunk)
    ensures Ready(Start(chunk).parser, FreshLanes(wires), chunk) && Merges(sched, FreshLanes(wires), chunk)
    ensures AllFull(FreshLanes(wires)) && AllIdle(FreshLanes(wires))
  {
    hide AllSendable, Project, AllChunks;
    var lanes := FreshLanes(wires);
    forall k | k in wires
      ensures LaneOk(lanes[k], k, chunk) && LaneChunks(lanes[k], k, chunk) == AllChunks(wires[k], k, chunk)
    {
      FreshLaneChunks(k, wires[k], chunk);
    }
  }

  lemma FreshLaneChunks(csId: Byte, ws: seq<Wire>, chunk: ChunkSize)
    ensures LaneChunks(Lane(FRESH_SLOT, ws, 0), csId, chunk) == AllChunks(ws, csId, chunk)
  {}

  /** Through the reader, merged with other chunk streams and cut anywhere: on a chunk stream that opens with an
      absolute timestamp and goes on in differences, every message arrives in its place with the absolute timestamp
      plus all differences up to its own. */
  lemma TimestampsArrive(h: Policy, wires: map<Byte, seq<Wire>>, sched: seq<Tagged>, chunk: ChunkSize,
                         pieces: seq<seq<Byte>>, k: Byte, n: nat)
    requires KeepsAll(h) && AllReadable(wires, chunk) && Merged(sched, wires, chunk)
    requires pieces != [] && Flatten(pieces) == Joined(sched)
    requires k in wires && n < |wires[k]| && wires[k][0].fmt == 0
    requires forall i :: 0 < i <= n ==> wires[k][i].fmt != 0
    ensures var ws, got := wires[k], Of(Feed(h, Start(chunk), pieces).out, k);
      && |got| == |ws|
      && (ws[0].m.timestamp < 16777215 || ws[0].m.ext == ws[0].m.timestamp ==>
            got[n].internalTs == (ws[0].m.timestamp + SumOfDeltas(ws, n)) % 18446744073709551616)
      && got[n].streamId == ws[0].m.streamId && got[n].typeId == TypeOf(ws[0].m.typeId, ws, n)
      && got[n].data == ws[n].m.payload && got[n].length == |ws[n].m.payload|
  {
    hide KeepsAll, AllReadable, Merged, Joined, Flatten, Feed, Ready, Merges, AllFull, AllIdle, Safe, SumOfDeltas, TypeOf, ReceivedAll;
    var lanes := FreshLanes(wires);
    FreshLanesReady(wires, sched, chunk);
    StartIsSafe(chunk);
    FeedInterleaved(h, Start(chunk), lanes, sched, chunk, pieces);
    var d := Feed(h, Start(chunk), pieces);
    assert d.out[0..] == d.out && k in lanes;
    assert Yield(lanes[k], k) == ReceivedAll(FRESH_SLOT, k, wires[k]);
    TimestampsReconstructed(FRESH_SLOT, k, wires[k], n);
  }

  // ---------- relaying ----------

  /** What a relay sends on: the timestamp field of the received header, which is not the timestamp that
      was rebuilt, and no extended one. */
  function Relayed(s: Slot, streamId: U32): Message {
    Message(s.timeStamp, 0, s.typeId, streamId, s.data)
  }

  /** A relayed message tells its viewers the publisher's time exactly if it came with an absolute
      timestamp that is not extended (or is zero after all), or with a difference to time zero. */
  lemma RelayedTimeExactly(base: Slot, csId: Byte, w: Wire, chunk: ChunkSize, streamId: U32)
    requires Sendable(base, w, chunk)
    ensures var s := Received(base, csId, w);
      Carried(Relayed(s, streamId)) == s.internalTs <==>
        if w.fmt == 0 then !IsExtended(w.m) || w.m.ext == 0 else base.internalTs == 0
  {}
}
