/** Whole byte streams: chunks of several chunk streams, interleaved at chunk boundaries in any
    order that keeps each stream's own order. */
module ChunkInterleaving {
  import opened Bytes
  import opened ChunkSpec
  import opened ChunkStream
  import opened ChunkRoundTrip

  /** A chunk and the chunk stream it belongs to. */
  datatype Tagged = Tagged(csId: Byte, chunk: seq<Byte>)

  function Joined(sched: seq<Tagged>): seq<Byte> {
    if sched == [] then [] else sched[0].chunk + Joined(sched[1..])
  }

  /** The chunks of one stream, in schedule order. */
  function Project(sched: seq<Tagged>, csId: Byte): seq<seq<Byte>> {
    if sched == [] then []
    else (if sched[0].csId == csId then [sched[0].chunk] else []) + Project(sched[1..], csId)
  }

  /** The messages of one stream, in order of completion. */
  function Of(out: seq<Slot>, csId: Byte): seq<Slot> {
    if out == [] then [] else (if out[0].csId == csId then [out[0]] else []) + Of(out[1..], csId)
  }

  /** The parser stands at a chunk boundary and holds, for every lane, the entry the lane says. */
  ghost predicate Ready(p: Parser, lanes: map<Byte, Lane>, chunk: ChunkSize) {
    && p.phase == InHeader && p.inChunk == chunk
    && forall k <- lanes :: LaneOk(lanes[k], k, chunk) && Lookup(p.slots, k) == LaneSlot(lanes[k], k, chunk)
  }

  /** The lanes start from idle entries. */
  ghost predicate AllIdle(lanes: map<Byte, Lane>) {
    forall k <- lanes :: Idle(lanes[k].base)
  }

  lemma IdleStep(lanes: map<Byte, Lane>, k: Byte, chunk: ChunkSize)
    requires AllIdle(lanes) && k in lanes && lanes[k].ws != []
    ensures EntryClear(lanes[k]) && AllIdle(lanes[k := LaneStep(lanes[k], k, chunk)])
  {}

  /** No message still to come is empty. */
  ghost predicate AllFull(lanes: map<Byte, Lane>) {
    forall k <- lanes :: forall i :: 0 <= i < |lanes[k].ws| ==> lanes[k].ws[i].m.payload != []
  }

  lemma FullStep(lanes: map<Byte, Lane>, k: Byte, chunk: ChunkSize)
    requires AllFull(lanes) && k in lanes && lanes[k].ws != []
    ensures lanes[k].ws[0].m.payload != [] && AllFull(lanes[k := LaneStep(lanes[k], k, chunk)])
  {}

  ghost predicate Merges(sched: seq<Tagged>, lanes: map<Byte, Lane>, chunk: ChunkSize) {
    && (forall e <- sched :: e.csId in lanes)
    && (forall k <- lanes :: Project(sched, k) == LaneChunks(lanes[k], k, chunk))
  }

  lemma MergesStep(sched: seq<Tagged>, lanes: map<Byte, Lane>, chunk: ChunkSize)
    requires sched != [] && Merges(sched, lanes, chunk) && LaneOk(lanes[sched[0].csId], sched[0].csId, chunk)
    ensures var k := sched[0].csId; var l := lanes[k];
      l.ws != [] && sched[0].chunk == NextChunk(l.ws[0], k, chunk, l.sent)
      && Merges(sched[1..], lanes[k := LaneStep(l, k, chunk)], chunk)
  {
    var k := sched[0].csId;
    var l := lanes[k];
    assert sched[0] in sched;
    assert Project(sched, k) == [sched[0].chunk] + Project(sched[1..], k);
    assert l.ws != [];
    LaneChunksStep(l, k, chunk);
    assert LaneChunks(l, k, chunk)[1..] == LaneChunks(LaneStep(l, k, chunk), k, chunk);
    assert Project(sched, k)[1..] == Project(sched[1..], k);
    var lanes' := lanes[k := LaneStep(l, k, chunk)];
    forall j | j in lanes'
      ensures Project(sched[1..], j) == LaneChunks(lanes'[j], j, chunk)
    {
      assert j != k ==> Project(sched, j) == [] + Project(sched[1..], j);
    }
  }

  /** What one lane still yields. */
  function Yield(l: Lane, csId: Byte): seq<Slot> {
    ReceivedAll(l.base, csId, l.ws)
  }

  lemma YieldStep(l: Lane, csId: Byte, chunk: ChunkSize)
    requires l.ws != []
    ensures Yield(l, csId) == Completed(l, csId, chunk) + Yield(LaneStep(l, csId, chunk), csId)
  {}

  lemma ReadyStep(p: Parser, p2: Parser, lanes: map<Byte, Lane>, k: Byte, l2: Lane, chunk: ChunkSize)
    requires Ready(p, lanes, chunk) && k in lanes && LaneOk(l2, k, chunk) && p2.phase == InHeader && p2.inChunk == chunk
    requires p2.slots == p.slots[k as int := LaneSlot(l2, k, chunk)]
    ensures Ready(p2, lanes[k := l2], chunk)
  {}

  /** What a lane yields over a whole run, from what it yields at the first chunk and after it. */
  lemma OfStep(l: Lane, k: Byte, chunk: ChunkSize, later: seq<Slot>, j: Byte)
    requires l.ws != []
    ensures Of(Completed(l, k, chunk) + later, j) == if j == k then Completed(l, k, chunk) + Of(later, j) else Of(later, j)
  {
    match Completes(l, k, chunk)
    case None => assert Completed(l, k, chunk) + later == later;
    case Some(m) =>
      var out := [m] + later;
      assert out[0] == m && out[1..] == later && m.csId == k;
  }

  /** The run `d` that started with history `before` stands at a chunk boundary, and has added, for each lane,
      exactly the messages of that lane in order. */
  ghost predicate Delivered(d: Run, before: seq<Slot>, lanes: map<Byte, Lane>, chunk: ChunkSize) {
    && d.status.Running? && d.parser.phase == InHeader && d.parser.inChunk == chunk
    && before <= d.out
    && (forall i :: |before| <= i < |d.out| ==> d.out[i].csId in lanes)
    && forall k <- lanes :: Of(d.out[|before|..], k) == Yield(lanes[k], k) && AtRest(Lookup(d.parser.slots, k))
  }

  predicate AtRest(s: Slot) {
    Idle(s) && s.length < 0x100_0000
  }

  lemma DeliveredAtEnd(r: Run, lanes: map<Byte, Lane>, chunk: ChunkSize)
    requires r.status.Running? && Ready(r.parser, lanes, chunk) && Merges([], lanes, chunk) && AllIdle(lanes)
    ensures Delivered(r, r.out, lanes, chunk)
  {
    assert r.out[|r.out|..] == [];
    assert forall k <- lanes :: lanes[k].ws == [];
  }

  lemma CompletedIsOwn(l: Lane, k: Byte, chunk: ChunkSize)
    requires l.ws != []
    ensures forall i :: 0 <= i < |Completed(l, k, chunk)| ==> Completed(l, k, chunk)[i].csId == k
  {}

  lemma DeliveredStep(d: Run, before: seq<Slot>, lanes: map<Byte, Lane>, k: Byte, chunk: ChunkSize)
    requires k in lanes && lanes[k].ws != []
    requires Delivered(d, before + Completed(lanes[k], k, chunk), lanes[k := LaneStep(lanes[k], k, chunk)], chunk)
    ensures Delivered(d, before, lanes, chunk)
  {
    hide Of, Yield, Completed, LaneStep, Lookup, AtRest;
    var done, lanes' := Completed(lanes[k], k, chunk), lanes[k := LaneStep(lanes[k], k, chunk)];
    var later := d.out[|before + done|..];
    assert d.out[|before|..] == done + later;
    CompletedIsOwn(lanes[k], k, chunk);
    forall i | |before| <= i < |d.out|
      ensures d.out[i].csId in lanes
    {
      assert i < |before + done| ==> d.out[i] == (before + done)[i];
    }
    forall j | j in lanes
      ensures Of(done + later, j) == Yield(lanes[j], j) && AtRest(Lookup(d.parser.slots, j))
    {
      OfStep(lanes[k], k, chunk, later, j);
      YieldStep(lanes[k], k, chunk);
      assert j in lanes' && Of(later, j) == Yield(lanes'[j], j);
    }
  }

  /** One chunk of an interleaving: the loop goes from one chunk boundary to the next. */
  lemma NextInLine(h: Policy, r: Run, lanes: map<Byte, Lane>, sched: seq<Tagged>, chunk: ChunkSize, more: seq<Byte>) returns (r2: Run)
    requires KeepsAll(h) && r.status.Running? && r.rest == Joined(sched) + more && sched != []
    requires Ready(r.parser, lanes, chunk) && Merges(sched, lanes, chunk)
    requires var k := sched[0].csId; k in lanes && lanes[k].ws != [] && EntryClear(lanes[k]) && lanes[k].ws[0].m.payload != []
    ensures var k := sched[0].csId; var lanes2 := lanes[k := LaneStep(lanes[k], k, chunk)];
      && Drain(h, r) == Drain(h, r2) && GivesUp(h, r) == GivesUp(h, r2)
      && r2.status.Running? && r2.rest == Joined(sched[1..]) + more && r2.out == r.out + Completed(lanes[k], k, chunk)
      && Ready(r2.parser, lanes2, chunk) && Merges(sched[1..], lanes2, chunk)
  {
    hide Drain, GivesUp, KeepsAll, LaneStep, NextChunk, LaneChunks, EntryClear, LaneOk, LaneSlot, Lookup, Project, Merges, Completed, Safe;
    var k := sched[0].csId;
    MergesStep(sched, lanes, chunk);
    assert r.rest == sched[0].chunk + (Joined(sched[1..]) + more);
    r2 := DrainChunk(h, r, lanes[k], k, chunk, Joined(sched[1..]) + more);
    ReadyStep(r.parser, r2.parser, lanes, k, LaneStep(lanes[k], k, chunk), chunk);
  }

  /** The next chunk belongs to a lane that still has a message. */
  lemma HeadOfLine(sched: seq<Tagged>, lanes: map<Byte, Lane>, chunk: ChunkSize)
    requires sched != [] && Merges(sched, lanes, chunk)
    ensures sched[0].csId in lanes && lanes[sched[0].csId].ws != []
  {
    assert sched[0] in sched;
    assert Project(sched, sched[0].csId) != [];
  }

  /** The read loop takes an interleaving apart, and goes on with what is behind. */
  lemma {:induction false} DrainThrough(h: Policy, r: Run, lanes: map<Byte, Lane>, sched: seq<Tagged>, chunk: ChunkSize, more: seq<Byte>)
    returns (d: Run)
    requires KeepsAll(h) && r.status.Running? && r.rest == Joined(sched) + more
    requires Ready(r.parser, lanes, chunk) && Merges(sched, lanes, chunk) && AllFull(lanes) && AllIdle(lanes)
    ensures Drain(h, r) == Drain(h, d) && d.rest == more && Delivered(d, r.out, lanes, chunk)
    decreases |sched|
  {
    hide Drain, GivesUp, AllFull, AllIdle, KeepsAll, LaneStep, Ready, Merges, Delivered, Completed;
    if sched == [] {
      d := r;
      DeliveredAtEnd(r, lanes, chunk);
    } else {
      var k := sched[0].csId;
      HeadOfLine(sched, lanes, chunk);
      FullStep(lanes, k, chunk);
      IdleStep(lanes, k, chunk);
      var r2 := NextInLine(h, r, lanes, sched, chunk, more);
      d := DrainThrough(h, r2, lanes[k := LaneStep(lanes[k], k, chunk)], sched[1..], chunk, more);
      DeliveredStep(d, r.out, lanes, k, chunk);
    }
  }

  /** The same with nothing behind: every byte is consumed. */
  lemma DrainInterleaved(h: Policy, r: Run, lanes: map<Byte, Lane>, sched: seq<Tagged>, chunk: ChunkSize)
    requires KeepsAll(h) && r.status.Running? && r.rest == Joined(sched)
    requires Ready(r.parser, lanes, chunk) && Merges(sched, lanes, chunk) && AllFull(lanes) && AllIdle(lanes)
    ensures Delivered(Drain(h, r), r.out, lanes, chunk) && Drain(h, r).rest == []
  {
    assert r.rest == Joined(sched) + [];
    var d := DrainThrough(h, r, lanes, sched, chunk, []);
  }

  /** The same for bytes that arrive in pieces. */
  lemma FeedInterleaved(h: Policy, r: Run, lanes: map<Byte, Lane>, sched: seq<Tagged>, chunk: ChunkSize, pieces: seq<seq<Byte>>)
    requires KeepsAll(h) && Safe(r) && r.status.Running? && r.rest == []
    requires Ready(r.parser, lanes, chunk) && Merges(sched, lanes, chunk) && AllFull(lanes) && AllIdle(lanes)
    requires pieces != [] && Flatten(pieces) == Joined(sched)
    ensures Delivered(Feed(h, r, pieces), r.out, lanes, chunk) && Feed(h, r, pieces).rest == []
  {
    DrainInterleaved(h, Append(r, Joined(sched)), lanes, sched, chunk);
    ConsumedRunMayBeCut(h, r, pieces);
  }
}
