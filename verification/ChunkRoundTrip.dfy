/** Any interleaving of the chunks of messages on different chunk streams is taken apart into
    exactly those messages, stream by stream and in order. */
module ChunkRoundTrip {
  import opened Bytes
  import opened ChunkSpec
  import opened ChunkStream
  import opened ChunkWire

  /** A message and the header format of its first chunk. For formats 1 and 2 the timestamp is the
      difference to the message before it on the same chunk stream. */
  datatype AnyWire = Wire(fmt: int, m: Message)

  /** Messages may be empty: what the parser makes of those is looked at apart. */
  type Wire = w: AnyWire | 0 <= w.fmt <= 2 && |w.m.payload| < 0x100_0000
    witness Wire(0, Message(0, 0, 0, 0, []))

  type ChunkSize = c: int | 0 < c < 0x1_0000_0000 witness 128

  /** What the reader makes of the message when its entry is `base`. */
  function Received(base: Slot, csId: Byte, w: Wire): Slot {
    var m := w.m;
    if w.fmt == 0 then
      Slot(Min(m.timestamp, UNLIMITED), |m.payload|, m.typeId, m.streamId,
           if IsExtended(m) then m.ext else 0,
           Carried(m), csId, true, m.payload)
    else
      base.(timeStamp := Min(m.timestamp, UNLIMITED), internalTs := Add64(base.internalTs, m.timestamp),
            length := |m.payload|,
            typeId := if w.fmt == 1 then m.typeId else base.typeId,
            csId := csId, hasBuffer := true, data := m.payload)
  }

  /** The messages of one chunk stream, each received on top of the one before. */
  function ReceivedAll(base: Slot, csId: Byte, ws: seq<Wire>): seq<Slot>
    decreases |ws|
  {
    if ws == [] then []
    else
      var s := Received(base, csId, ws[0]);
      [s] + ReceivedAll(Cleared(s), csId, ws[1..])
  }

  /** Between messages an entry holds no payload and no timestamp. */
  predicate Idle(s: Slot) {
    s.data == [] && s.timeStamp == 0 && s.ext == 0
  }

  /** The messages the format can carry: a difference of timestamps is below the extended range; a message
      of format 2 has the length of the message before; and one that sets the chunk size sets the size in
      use. */
  predicate Sendable(base: Slot, w: Wire, chunk: ChunkSize) {
    && (w.fmt != 0 ==> !IsExtended(w.m))
    && (w.fmt == 2 ==> base.length == |w.m.payload| && base.hasBuffer)
    && (w.m.payload != [] && (if w.fmt <= 1 then w.m.typeId else base.typeId) == SET_CHUNK_SIZE ==>
          |w.m.payload| >= 4 && ReadU32BE(w.m.payload, 0) == chunk)
  }

  predicate AllSendable(base: Slot, csId: Byte, ws: seq<Wire>, chunk: ChunkSize)
    decreases |ws|
  {
    ws == [] ||
    (Sendable(base, ws[0], chunk) && AllSendable(Cleared(Received(base, csId, ws[0])), csId, ws[1..], chunk))
  }

  // ---------- one chunk stream in progress ----------

  /** What is still to come on one chunk stream: the messages `ws`, the first of them with `sent`
      payload bytes already received, on top of the entry `base`. */
  datatype Lane = Lane(base: Slot, ws: seq<Wire>, sent: nat)

  /** The entry does not stand in the way of the lane's next chunk. It is idle, or the message has the full header;
      but an entry left with an extended timestamp makes the parser look for another one. */
  predicate EntryClear(l: Lane) {
    || l.ws == [] || Idle(l.base)
    || (l.ws[0].fmt == 0 && (l.sent > 0 || l.base.timeStamp < UNLIMITED || IsExtended(l.ws[0].m)))
  }

  predicate LaneOk(l: Lane, csId: int, chunk: ChunkSize) {
    && ParsableId(csId)
    && l.base.data == [] && l.base.length < 0x100_0000
    && AllSendable(l.base, csId, l.ws, chunk)
    && l.sent % chunk == 0
    && (l.sent > 0 ==> l.ws != [] && l.sent < |l.ws[0].m.payload|)
  }

  /** The table entry while the first message of the lane is being received. */
  function LaneSlot(l: Lane, csId: Byte, chunk: ChunkSize): Slot
    requires LaneOk(l, csId, chunk)
  {
    if l.sent == 0 then l.base
    else
      var m := l.ws[0].m;
      Started(l.base, csId, l.ws[0]).(data := m.payload[..l.sent])
  }

  function Started(base: Slot, csId: Byte, w: Wire): Slot {
    Received(base, csId, w).(data := [], internalTs := if w.fmt == 0 then 0 else base.internalTs)
  }

  /** The lane once its first message is complete. */
  function NextMessage(l: Lane, csId: Byte): Lane
    requires l.ws != []
  {
    Lane(Cleared(Received(l.base, csId, l.ws[0])), l.ws[1..], 0)
  }

  lemma NextMessageOk(l: Lane, csId: Byte, chunk: ChunkSize)
    requires LaneOk(l, csId, chunk) && l.ws != []
    ensures LaneOk(NextMessage(l, csId), csId, chunk)
  {}

  /** The lane after its next chunk. */
  function LaneStep(l: Lane, csId: Byte, chunk: ChunkSize): Lane
    requires l.ws != []
  {
    if l.sent + chunk < |l.ws[0].m.payload| then l.(sent := l.sent + chunk) else NextMessage(l, csId)
  }

  lemma LaneStepOk(l: Lane, csId: Byte, chunk: ChunkSize)
    requires LaneOk(l, csId, chunk) && l.ws != []
    ensures LaneOk(LaneStep(l, csId, chunk), csId, chunk)
  {
    MultipleGrows(l.sent, chunk);
    NextMessageOk(l, csId, chunk);
  }

  lemma MultipleGrows(n: int, d: int)
    requires n >= 0 && d > 0 && n % d == 0
    ensures (n + d) % d == 0
  {
    var q, y := n / d, n + d;
    var k := y / d - q - 1;
    assert d * k == -(y % d);
    assert k > 0 ==> d * k > 0;
    assert k < 0 ==> d * k <= -d;
  }

  /** The chunks of one message that are still to come. */
  function MessageChunks(w: Wire, csId: Byte, chunk: ChunkSize, sent: nat): seq<seq<Byte>>
  {
    if sent == 0 then Chunks(w.fmt, csId, w.m, chunk) else LaterChunks(csId, w.m, chunk, sent)
  }

  function NextHeader(w: Wire, csId: Byte, sent: nat): (header: seq<Byte>)
    ensures header != []
  {
    if sent == 0 then Lead(w.fmt, csId, w.m) else Again(csId, w.m)
  }

  function NextChunk(w: Wire, csId: Byte, chunk: ChunkSize, sent: nat): seq<Byte>
    requires sent <= |w.m.payload|
  {
    NextHeader(w, csId, sent) + Piece(w.m.payload, sent, chunk)
  }

  lemma MessageChunksStep(w: Wire, csId: Byte, chunk: ChunkSize, sent: nat)
    requires sent < |w.m.payload| || sent == 0
    ensures MessageChunks(w, csId, chunk, sent) == [NextChunk(w, csId, chunk, sent)] + LaterChunks(csId, w.m, chunk, sent + chunk)
  {}

  /** The chunks of a list of messages. */
  function AllChunks(ws: seq<Wire>, csId: Byte, chunk: ChunkSize): seq<seq<Byte>> {
    if ws == [] then [] else Chunks(ws[0].fmt, csId, ws[0].m, chunk) + AllChunks(ws[1..], csId, chunk)
  }

  /** The chunks still to come on a lane. */
  function LaneChunks(l: Lane, csId: Byte, chunk: ChunkSize): seq<seq<Byte>> {
    if l.ws == [] then [] else MessageChunks(l.ws[0], csId, chunk, l.sent) + AllChunks(l.ws[1..], csId, chunk)
  }

  lemma LaneChunksStep(l: Lane, csId: Byte, chunk: ChunkSize)
    requires l.ws != [] && (l.sent < |l.ws[0].m.payload| || l.sent == 0)
    ensures LaneChunks(l, csId, chunk) == [NextChunk(l.ws[0], csId, chunk, l.sent)] + LaneChunks(LaneStep(l, csId, chunk), csId, chunk)
  {
    var w, step := l.ws[0], LaneStep(l, csId, chunk);
    var others := AllChunks(l.ws[1..], csId, chunk);
    var later := LaterChunks(csId, w.m, chunk, l.sent + chunk);
    MessageChunksStep(w, csId, chunk, l.sent);
    StepChunks(l, csId, chunk);
    hide LaneChunks, LaterChunks, AllChunks, MessageChunks, NextChunk, LaneStep;
    assert LaneChunks(l, csId, chunk) == ([NextChunk(w, csId, chunk, l.sent)] + later) + others by { LaneChunksOf(l, csId, chunk); }
  }

  lemma LaneChunksOf(l: Lane, csId: Byte, chunk: ChunkSize)
    requires l.ws != []
    ensures LaneChunks(l, csId, chunk) == MessageChunks(l.ws[0], csId, chunk, l.sent) + AllChunks(l.ws[1..], csId, chunk)
  {}

  lemma StepChunks(l: Lane, csId: Byte, chunk: ChunkSize)
    requires l.ws != []
    ensures LaneChunks(LaneStep(l, csId, chunk), csId, chunk)
      == LaterChunks(csId, l.ws[0].m, chunk, l.sent + chunk) + AllChunks(l.ws[1..], csId, chunk)
  {
    hide Received;
    if l.sent + chunk >= |l.ws[0].m.payload| {
      assert LaterChunks(csId, l.ws[0].m, chunk, l.sent + chunk) == [];
    }
  }

  // ---------- one chunk through the parser ----------

  /** The entry after the header of the lane's next chunk. */
  function OpenSlot(l: Lane, csId: Byte): Slot
    requires l.ws != [] && l.sent <= |l.ws[0].m.payload|
  {
    Started(l.base, csId, l.ws[0]).(data := l.ws[0].m.payload[..l.sent])
  }

  lemma LeadPass(p: Parser, l: Lane, csId: Byte, chunk: ChunkSize, more: seq<Byte>)
    requires LaneOk(l, csId, chunk) && EntryClear(l) && l.ws != [] && l.sent == 0 && Lookup(p.slots, csId) == l.base
    ensures var w := l.ws[0]; var lead := Lead(w.fmt, csId, w.m);
      ParseHeader(p, lead + more) ==
        Result(p.(phase := InBody, current := csId, slots := p.slots[csId as int := OpenSlot(l, csId)]), |lead|, None)
  {
    hide ReadHead, MessageHeader, BasicHeader;
    var w := l.ws[0];
    LeadRead(w.fmt, csId, w.m, more);
    var h := ReadHead(Lead(w.fmt, csId, w.m) + more).value;
    var s := Touch(l.base, h);
    assert NeedsExtended(s, h) <==> IsExtended(w.m);
    assert Stamp(s, h, if IsExtended(w.m) then w.m.ext else 0) == OpenSlot(l, csId);
  }

  lemma AgainPass(p: Parser, l: Lane, csId: Byte, chunk: ChunkSize, more: seq<Byte>)
    requires LaneOk(l, csId, chunk) && l.ws != [] && l.sent > 0 && Lookup(p.slots, csId) == OpenSlot(l, csId)
    ensures var again := Again(csId, l.ws[0].m);
      ParseHeader(p, again + more) ==
        Result(p.(phase := InBody, current := csId, slots := p.slots[csId as int := OpenSlot(l, csId)]), |again|, None)
  {
    var w := l.ws[0];
    AgainRead(csId, w.m, more);
    var h := ReadHead(Again(csId, w.m) + more).value;
    var s := OpenSlot(l, csId);
    assert Touch(s, h) == s;
    assert NeedsExtended(s, h) <==> IsExtended(w.m);
    assert s.data != [];
  }

  function Opened(p: Parser, l: Lane, csId: Byte): Parser
    requires l.ws != [] && l.sent <= |l.ws[0].m.payload|
  {
    p.(phase := InBody, current := csId, slots := p.slots[csId as int := OpenSlot(l, csId)])
  }

  lemma HeaderPass(p: Parser, l: Lane, csId: Byte, chunk: ChunkSize, more: seq<Byte>)
    requires LaneOk(l, csId, chunk) && EntryClear(l) && l.ws != [] && Lookup(p.slots, csId) == LaneSlot(l, csId, chunk)
    ensures var header := NextHeader(l.ws[0], csId, l.sent);
      ParseHeader(p, header + more) == Result(Opened(p, l, csId), |header|, None)
  {
    if l.sent == 0 {
      LeadPass(p, l, csId, chunk, more);
    } else {
      AgainPass(p, l, csId, chunk, more);
    }
  }

  /** The message a lane completes with its next chunk, if that is the last one. */
  function Completes(l: Lane, csId: Byte, chunk: ChunkSize): Option<Slot>
    requires l.ws != []
  {
    if l.sent + chunk < |l.ws[0].m.payload| then None else Some(Received(l.base, csId, l.ws[0]))
  }

  function Completed(l: Lane, csId: Byte, chunk: ChunkSize): seq<Slot>
    requires l.ws != []
  {
    match Completes(l, csId, chunk) { case Some(m) => [m] case None => [] }
  }

  lemma PieceRead(p: Parser, l: Lane, csId: Byte, chunk: ChunkSize, more: seq<Byte>)
    requires LaneOk(l, csId, chunk) && l.ws != [] && l.ws[0].m.payload != []
    requires p.phase == InBody && p.inChunk == chunk && p.current == csId && Lookup(p.slots, csId) == OpenSlot(l, csId)
    ensures var m := l.ws[0].m; var piece := Piece(m.payload, l.sent, chunk);
      piece != [] &&
      ParseBodyBytes(p, piece + more) ==
        Result(p.(phase := InHeader, slots := p.slots[csId as int := OpenSlot(l, csId).(data := m.payload[..l.sent + |piece|])]), |piece|, None)
  {
    var m := l.ws[0].m;
    var piece := Piece(m.payload, l.sent, chunk);
    var s := OpenSlot(l, csId);
    assert s.length == |m.payload| && s.data == m.payload[..l.sent];
    MultipleGrows(l.sent, chunk);
    assert s.csId == csId && l.sent % chunk == 0;
    hide LaneOk, OpenSlot;
    assert BodySize(s, chunk) == |piece|;
    assert (piece + more)[..|piece|] == piece;
    assert s.data + piece == m.payload[..l.sent + |piece|];
  }

  lemma OpenCompleted(l: Lane, csId: Byte, chunk: ChunkSize)
    requires LaneOk(l, csId, chunk) && EntryClear(l) && l.ws != []
    ensures Complete(OpenSlot(l, csId).(data := l.ws[0].m.payload)) == Received(l.base, csId, l.ws[0])
  {}

  lemma BodyPass(p: Parser, l: Lane, csId: Byte, chunk: ChunkSize, more: seq<Byte>)
    requires LaneOk(l, csId, chunk) && EntryClear(l) && l.ws != [] && l.ws[0].m.payload != []
    requires p.phase == InBody && p.inChunk == chunk && p.current == csId && Lookup(p.slots, csId) == OpenSlot(l, csId)
    ensures LaneOk(LaneStep(l, csId, chunk), csId, chunk)
    ensures var piece := Piece(l.ws[0].m.payload, l.sent, chunk);
      var r := Parse(p, piece + more);
      && r == Result(r.parser, |piece|, Completes(l, csId, chunk)) && piece != []
      && r.parser.phase == InHeader && r.parser.inChunk == chunk
      && r.parser.slots == p.slots[csId as int := LaneSlot(LaneStep(l, csId, chunk), csId, chunk)]
  {
    hide ParseBodyBytes, AllSendable;
    var m := l.ws[0].m;
    LaneStepOk(l, csId, chunk);
    PieceRead(p, l, csId, chunk, more);
    if l.sent + chunk >= |m.payload| {
      assert m.payload[..|m.payload|] == m.payload;
      OpenCompleted(l, csId, chunk);
    }
  }

  // ---------- whole runs ----------

  /** Handlers that leave the parser alone. */
  ghost predicate KeepsAll(h: Policy) {
    forall out: seq<Slot> :: h(out) == Keep
  }

  /** One chunk of a lane takes the read loop from one chunk boundary to the next. */
  lemma DrainChunk(h: Policy, r: Run, l: Lane, csId: Byte, chunk: ChunkSize, more: seq<Byte>) returns (r2: Run)
    requires KeepsAll(h) && r.status.Running? && r.parser.phase == InHeader && r.parser.inChunk == chunk
    requires LaneOk(l, csId, chunk) && EntryClear(l) && l.ws != [] && l.ws[0].m.payload != []
    requires Lookup(r.parser.slots, csId) == LaneSlot(l, csId, chunk)
    requires r.rest == NextChunk(l.ws[0], csId, chunk, l.sent) + more
    ensures LaneOk(LaneStep(l, csId, chunk), csId, chunk)
    ensures Drain(h, r) == Drain(h, r2) && GivesUp(h, r) == GivesUp(h, r2) && (Safe(r) ==> Safe(r2))
    ensures r2.status.Running? && r2.parser.phase == InHeader && r2.parser.inChunk == chunk && r2.rest == more
    ensures r2.parser.slots == r.parser.slots[csId as int := LaneSlot(LaneStep(l, csId, chunk), csId, chunk)]
    ensures r2.out == r.out + Completed(l, csId, chunk)
  {
    hide ParseHeader, Advance, Parse, AllSendable, Received, Safe;
    var header := NextHeader(l.ws[0], csId, l.sent);
    var behind := Piece(l.ws[0].m.payload, l.sent, chunk) + more;
    assert r.rest == header + behind;
    HeaderPass(r.parser, l, csId, chunk, behind);
    HeaderAdvance(h, r, header, behind);
    var r1 := r.(parser := Opened(r.parser, l, csId), rest := behind);
    r2 := BodyAdvance(h, r1, l, csId, chunk, more);
    if Safe(r) {
      AdvanceSafe(h, r);
      AdvanceSafe(h, r1);
    }
  }

  lemma HeaderAdvance(h: Policy, r: Run, header: seq<Byte>, more: seq<Byte>)
    requires r.status.Running? && r.parser.phase == InHeader && r.rest == header + more && header != []
    requires var d := ParseHeader(r.parser, r.rest); d == Result(d.parser, |header|, None)
    ensures var r1 := r.(parser := ParseHeader(r.parser, r.rest).parser, rest := more);
      Drain(h, r) == Drain(h, r1) && GivesUp(h, r) == GivesUp(h, r1) && Advance(h, r) == r1
  {}

  lemma BodyAdvance(h: Policy, r: Run, l: Lane, csId: Byte, chunk: ChunkSize, more: seq<Byte>) returns (r2: Run)
    requires KeepsAll(h) && LaneOk(l, csId, chunk) && EntryClear(l) && l.ws != [] && l.ws[0].m.payload != []
    requires r.status.Running? && r.rest == Piece(l.ws[0].m.payload, l.sent, chunk) + more
    requires r.parser.phase == InBody && r.parser.inChunk == chunk && r.parser.current == csId && Lookup(r.parser.slots, csId) == OpenSlot(l, csId)
    ensures r2 == Advance(h, r) && Drain(h, r) == Drain(h, r2) && GivesUp(h, r) == GivesUp(h, r2)
    ensures LaneOk(LaneStep(l, csId, chunk), csId, chunk)
    ensures r2.status.Running? && r2.parser.phase == InHeader && r2.parser.inChunk == chunk && r2.rest == more
    ensures r2.parser.slots == r.parser.slots[csId as int := LaneSlot(LaneStep(l, csId, chunk), csId, chunk)]
    ensures r2.out == r.out + Completed(l, csId, chunk)
  {
    var piece := Piece(l.ws[0].m.payload, l.sent, chunk);
    BodyPass(r.parser, l, csId, chunk, more);
    assert r.rest[|piece|..] == more;
    r2 := Advance(h, r);
    var done := Completes(l, csId, chunk);
    if done.Some? {
      var out := r.out + [done.value];
      assert out[|out| - 1] == done.value;
      assert h(out) == Keep;
    }
  }
}
