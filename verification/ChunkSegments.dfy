/** Streams whose chunk size changes: each part is written with its own, and opens with the message that
    announces it, already written under the size it announces. */
module ChunkSegments {
  import opened Bytes
  import opened ChunkSpec
  import opened ChunkStream
  import opened ChunkWire
  import opened ChunkRoundTrip
  import opened ChunkInterleaving
  import opened ChunkDelivery

  /** Lists of messages on distinct chunk streams, merged at chunk boundaries and written with one chunk size. */
  datatype Segment = Segment(chunk: ChunkSize, msgs: map<Byte, seq<Message>>, sched: seq<Tagged>)

  ghost predicate SegmentOk(s: Segment) {
    && (forall k <- s.msgs :: ParsableId(k) && AllFit(s.msgs[k], s.chunk) && NoneEmpty(s.msgs[k]))
    && (forall k <- s.msgs :: Project(s.sched, k) == Written(s.msgs[k], k, s.chunk))
    && forall e <- s.sched :: e.csId in s.msgs
  }

  /** The first message on the wire sets the chunk size, and is short enough to be one chunk under the size in
      force before it as well. */
  predicate Announced(s: Segment, before: ChunkSize) {
    s.chunk == before ||
    (s.sched != [] &&
     var k := s.sched[0].csId;
     && k in s.msgs && s.msgs[k] != []
     && s.msgs[k][0].typeId == SET_CHUNK_SIZE && |s.msgs[k][0].payload| <= Min(before, s.chunk))
  }

  ghost predicate AllAnnounced(segments: seq<Segment>, before: ChunkSize)
    decreases |segments|
  {
    segments == [] || (SegmentOk(segments[0]) && Announced(segments[0], before) && AllAnnounced(segments[1..], segments[0].chunk))
  }

  function Stream(segments: seq<Segment>): seq<Byte> {
    if segments == [] then [] else Joined(segments[0].sched) + Stream(segments[1..])
  }

  /** All messages of one chunk stream. */
  function SentOn(segments: seq<Segment>, k: Byte): seq<Message> {
    if segments == [] then []
    else MessagesOn(segments[0], k) + SentOn(segments[1..], k)
  }

  function MessagesOn(s: Segment, k: Byte): seq<Message> {
    if k in s.msgs then s.msgs[k] else []
  }

  // ---------- the announcement ----------

  /** What this program sends when it changes its chunk size. */
  function Announcement(chunk: ChunkSize): Message {
    Message(0, 0, SET_CHUNK_SIZE, 0, WriteU32BE(chunk))
  }

  /** It fits the size it announces, and it serves from any size of four on to any other. */
  lemma AnnouncementServes(s: Segment, before: ChunkSize)
    requires s.sched != [] && s.sched[0].csId in s.msgs && s.msgs[s.sched[0].csId] != []
    requires s.msgs[s.sched[0].csId][0] == Announcement(s.chunk) && before >= 4 && s.chunk >= 4
    ensures Announced(s, before) && Fits(Announcement(s.chunk), s.chunk) && Announcement(s.chunk).payload != []
  {
    U32BERoundTrip(WriteU32BE(s.chunk), 0, s.chunk);
  }

  /** A short body is read the same under any chunk size that holds all of it. */
  lemma ShortBody(p: Parser, bytes: seq<Byte>, chunk: ChunkSize)
    requires p.phase == InBody && p.current >= 0 && p.current in p.slots && bytes != []
    requires var s := p.slots[p.current]; s.data == [] && 0 < s.length <= Min(p.inChunk, chunk) && s.length <= |bytes|
    ensures var d := Parse(p, bytes);
      d.Result? && Parse(p.(inChunk := chunk), bytes) == d.(parser := d.parser.(inChunk := chunk))
  {}

  /** The reader treats the message that sets the chunk size as if the new size had been in force before. */
  lemma EarlySize(h: Policy, r: Run, l: Lane, k: Byte, chunk: ChunkSize, more: seq<Byte>)
    requires KeepsAll(h) && r.status.Running? && r.parser.phase == InHeader
    requires LaneOk(l, k, chunk) && EntryClear(l) && l.ws != [] && l.sent == 0 && Lookup(r.parser.slots, k) == l.base
    requires var w := l.ws[0]; w.fmt == 0 && w.m.typeId == SET_CHUNK_SIZE && 0 < |w.m.payload| <= Min(r.parser.inChunk, chunk)
    requires r.rest == NextChunk(l.ws[0], k, chunk, 0) + more
    ensures Drain(h, r) == Drain(h, r.(parser := r.parser.(inChunk := chunk)))
  {
    hide Drain, GivesUp, ParseHeader, Parse, Received, AllSendable, KeepsAll;
    var q := r.(parser := r.parser.(inChunk := chunk));
    var m := l.ws[0].m;
    var header := NextHeader(l.ws[0], k, 0);
    var behind := Piece(m.payload, 0, chunk) + more;
    assert r.rest == header + behind;
    HeaderPass(r.parser, l, k, chunk, behind);
    HeaderPass(q.parser, l, k, chunk, behind);
    HeaderAdvance(h, r, header, behind);
    HeaderAdvance(h, q, header, behind);
    var r1 := r.(parser := Opened(r.parser, l, k), rest := behind);
    var q1 := q.(parser := Opened(q.parser, l, k), rest := behind);
    var q2 := BodyAdvance(h, q1, l, k, chunk, more);
    SizeIsSet(h, r1, l, k, chunk, more);
    OnePassOn(h, r1);
    OnePassOn(h, q1);
  }

  lemma SizeIsSet(h: Policy, r: Run, l: Lane, k: Byte, chunk: ChunkSize, more: seq<Byte>)
    requires r.status.Running? && r.parser.phase == InBody && r.parser.current == k
    requires LaneOk(l, k, chunk) && EntryClear(l) && l.ws != [] && l.sent == 0
    requires k as int in r.parser.slots && r.parser.slots[k] == OpenSlot(l, k)
    requires var w := l.ws[0]; w.fmt == 0 && w.m.typeId == SET_CHUNK_SIZE && 0 < |w.m.payload| <= Min(r.parser.inChunk, chunk)
    requires r.rest == Piece(l.ws[0].m.payload, 0, chunk) + more
    ensures Advance(h, r) == Advance(h, r.(parser := r.parser.(inChunk := chunk))) && |Advance(h, r).rest| < |r.rest|
    ensures Advance(h, r).status.Running?
  {
    var q := r.(parser := r.parser.(inChunk := chunk));
    var m := l.ws[0].m;
    assert Piece(m.payload, 0, chunk) == m.payload;
    ShortBody(r.parser, r.rest, chunk);
    BodyPass(q.parser, l, k, chunk, more);
    var s := Received(l.base, k, l.ws[0]);
    assert Sendable(l.base, l.ws[0], chunk) && s.typeId == SET_CHUNK_SIZE && s.data == m.payload;
    hide Parse, Received, LaneOk, LaneSlot, Lookup;
    assert (r.out + [s])[|r.out|] == s;
  }

  lemma OnePassOn(h: Policy, r: Run)
    requires r.status.Running? && r.rest != [] && Advance(h, r).status.Running? && |Advance(h, r).rest| < |r.rest|
    ensures Drain(h, r) == Drain(h, Advance(h, r))
  {}

  // ---------- one segment ----------

  /** Between segments all entries of usable ids are idle. */
  ghost predicate Resting(r: Run, chunk: ChunkSize) {
    && r.status.Running? && r.parser.phase == InHeader && r.parser.inChunk == chunk
    && forall k: Byte :: ParsableId(k) ==> AtRest(Lookup(r.parser.slots, k))
  }

  function LaneOn(p: Parser, s: Segment, k: Byte): Lane
    requires AllFit(MessagesOn(s, k), s.chunk)
  {
    Lane(Lookup(p.slots, k), Wires(MessagesOn(s, k), s.chunk), 0)
  }

  function LanesOf(p: Parser, s: Segment): map<Byte, Lane>
    requires forall k <- s.msgs :: AllFit(s.msgs[k], s.chunk)
  {
    map k: Byte | 0 <= k < 0x100 && ParsableId(k) :: LaneOn(p, s, k)
  }

  lemma LaneOnOk(p: Parser, s: Segment, k: Byte)
    requires SegmentOk(s) && ParsableId(k) && AtRest(Lookup(p.slots, k))
    ensures AllFit(MessagesOn(s, k), s.chunk)
    ensures var l := LaneOn(p, s, k);
      && LaneOk(l, k, s.chunk) && LaneSlot(l, k, s.chunk) == Lookup(p.slots, k) && Idle(l.base)
      && Project(s.sched, k) == LaneChunks(l, k, s.chunk)
      && forall i :: 0 <= i < |l.ws| ==> l.ws[i].m.payload != []
  {
    hide Lookup;
    var ms := MessagesOn(s, k);
    WiresSendable(Lookup(p.slots, k), k, ms, s.chunk);
    WiresAt(ms, s.chunk);
    FreshLaneChunksOn(Lookup(p.slots, k), k, Wires(ms, s.chunk), s.chunk);
    if k !in s.msgs {
      NothingOn(s.sched, k);
    }
  }

  lemma FreshLaneChunksOn(base: Slot, k: Byte, ws: seq<Wire>, chunk: ChunkSize)
    ensures LaneChunks(Lane(base, ws, 0), k, chunk) == AllChunks(ws, k, chunk)
  {}

  lemma {:induction false} NothingOn(sched: seq<Tagged>, k: Byte)
    requires forall e <- sched :: e.csId != k
    ensures Project(sched, k) == []
    decreases |sched|
  {
    if sched != [] {
      assert sched[0] in sched;
      NothingOn(sched[1..], k);
    }
  }

  lemma LanesOfReady(r: Run, s: Segment)
    requires SegmentOk(s) && Resting(r, s.chunk)
    ensures var lanes := LanesOf(r.parser, s);
      Ready(r.parser, lanes, s.chunk) && Merges(s.sched, lanes, s.chunk) && AllFull(lanes) && AllIdle(lanes)
  {
    hide LaneOk, LaneSlot, LaneChunks, LaneOn, Project, AllFit;
    assert AllFit([], s.chunk) by { NoMessagesFit(s.chunk); }
    var lanes := LanesOf(r.parser, s);
    forall k | k in lanes
      ensures var l := lanes[k];
        && LaneOk(l, k, s.chunk) && LaneSlot(l, k, s.chunk) == Lookup(r.parser.slots, k) && Idle(l.base)
        && Project(s.sched, k) == LaneChunks(l, k, s.chunk)
        && forall i :: 0 <= i < |l.ws| ==> l.ws[i].m.payload != []
    {
      LaneOnOk(r.parser, s, k);
    }
  }

  lemma NoMessagesFit(chunk: ChunkSize)
    ensures AllFit([], chunk)
  {}

  /** The announcement comes first on the wire. */
  lemma FirstChunk(r: Run, s: Segment, before: ChunkSize)
    requires SegmentOk(s) && Resting(r, before) && Announced(s, before) && s.chunk != before
    ensures var k := s.sched[0].csId;
      && ParsableId(k) && AllFit(MessagesOn(s, k), s.chunk)
      && var l := LaneOn(r.parser, s, k);
      && LaneOk(l, k, s.chunk) && EntryClear(l) && l.ws != [] && l.sent == 0 && Lookup(r.parser.slots, k) == l.base
      && l.ws[0].fmt == 0 && l.ws[0].m.typeId == SET_CHUNK_SIZE && 0 < |l.ws[0].m.payload| <= Min(before, s.chunk)
      && Joined(s.sched) == NextChunk(l.ws[0], k, s.chunk, 0) + Joined(s.sched[1..])
  {
    hide LaneOk, LaneChunks, AllFit, NextChunk, Lookup, Project;
    var k := s.sched[0].csId;
    assert s.sched[0] in s.sched;
    LaneOnOk(r.parser, s, k);
    var l := LaneOn(r.parser, s, k);
    WiresAt(s.msgs[k], s.chunk);
    LaneChunksStep(l, k, s.chunk);
    ProjectFirst(s.sched);
  }

  lemma ProjectFirst(sched: seq<Tagged>)
    requires sched != []
    ensures var p := Project(sched, sched[0].csId); p != [] && p[0] == sched[0].chunk
  {}

  /** One segment takes the reader from rest to rest, under the new chunk size. */
  lemma SegmentStep(h: Policy, r: Run, s: Segment, before: ChunkSize, more: seq<Byte>) returns (d: Run)
    requires KeepsAll(h) && Resting(r, before) && SegmentOk(s) && Announced(s, before)
    requires r.rest == Joined(s.sched) + more
    ensures Drain(h, r) == Drain(h, d) && Resting(d, s.chunk) && d.rest == more && r.out <= d.out
    ensures forall k: Byte :: AllArrived(Of(d.out[|r.out|..], k), MessagesOn(s, k))
  {
    hide Drain, SegmentOk, Ready, Merges, AllFull, AllIdle, Joined, Delivered, LaneOn, NextChunk, LaneOk, AllFit, KeepsAll, Lookup;
    var r' := r.(parser := r.parser.(inChunk := s.chunk));
    if s.chunk == before {
      assert r' == r;
    } else {
      FirstChunk(r, s, before);
      var k := s.sched[0].csId;
      var l := LaneOn(r.parser, s, k);
      assert r.rest == NextChunk(l.ws[0], k, s.chunk, 0) + (Joined(s.sched[1..]) + more);
      EarlySize(h, r, l, k, s.chunk, Joined(s.sched[1..]) + more);
    }
    assert Resting(r', s.chunk);
    MessagesFit(s);
    LanesOfReady(r', s);
    d := DrainThrough(h, r', LanesOf(r'.parser, s), s.sched, s.chunk, more);
    SegmentDelivered(r', d, s);
  }

  lemma MessagesFit(s: Segment)
    requires SegmentOk(s)
    ensures forall k <- s.msgs :: AllFit(s.msgs[k], s.chunk)
  {}

  lemma SegmentDelivered(r: Run, d: Run, s: Segment)
    requires SegmentOk(s)
    requires Delivered(d, r.out, LanesOf(r.parser, s), s.chunk)
    ensures Resting(d, s.chunk) && r.out <= d.out
    ensures forall k: Byte :: AllArrived(Of(d.out[|r.out|..], k), MessagesOn(s, k))
  {
    hide AllFit, AllArrived, Of, ReceivedAll, Wires, Lookup, AtRest, Project, Written, NoneEmpty;
    var lanes, added := LanesOf(r.parser, s), d.out[|r.out|..];
    assert forall k: Byte :: ParsableId(k) ==> k in lanes;
    forall i | 0 <= i < |added|
      ensures added[i].csId in lanes
    {
      assert added[i] == d.out[|r.out| + i];
    }
    forall k: Byte
      ensures AllArrived(Of(added, k), MessagesOn(s, k))
    {
      if ParsableId(k) {
        assert k in lanes;
        NoMessagesFit(s.chunk);
        WiresReceived(Lookup(r.parser.slots, k), k, MessagesOn(s, k), s.chunk);
      } else {
        NoneOf(added, k);
        NothingArrived();
      }
    }
  }

  lemma NothingArrived()
    ensures AllArrived([], [])
  {}

  lemma {:induction false} NoneOf(out: seq<Slot>, k: Byte)
    requires forall i :: 0 <= i < |out| ==> out[i].csId != k
    ensures Of(out, k) == []
    decreases |out|
  {
    if out != [] {
      assert forall i :: 0 <= i < |out[1..]| ==> out[1..][i] == out[i + 1];
      NoneOf(out[1..], k);
    }
  }

  // ---------- whole streams ----------

  lemma {:induction false} OfConcat(a: seq<Slot>, b: seq<Slot>, k: Byte)
    ensures Of(a + b, k) == Of(a, k) + Of(b, k)
    decreases |a|
  {
    if a == [] {
      assert a + b == b;
    } else {
      assert (a + b)[0] == a[0] && (a + b)[1..] == a[1..] + b;
      OfConcat(a[1..], b, k);
    }
  }

  lemma ArrivedConcat(a: seq<Slot>, b: seq<Slot>, ms: seq<Message>, ns: seq<Message>)
    requires AllArrived(a, ms) && AllArrived(b, ns)
    ensures AllArrived(a + b, ms + ns)
  {}

  lemma {:induction false} DrainSegments(h: Policy, r: Run, segments: seq<Segment>, before: ChunkSize) returns (d: Run)
    requires KeepsAll(h) && Resting(r, before) && AllAnnounced(segments, before) && r.rest == Stream(segments)
    ensures d == Drain(h, r) && d.status.Running? && d.parser.phase == InHeader && d.rest == [] && r.out <= d.out
    ensures forall k: Byte :: AllArrived(Of(d.out[|r.out|..], k), SentOn(segments, k))
    decreases |segments|
  {
    hide Drain, Resting, Joined, SegmentOk, Announced, AllArrived, Of, KeepsAll;
    if segments == [] {
      d := r;
      NothingLeft(h, r, before);
      assert r.out[|r.out|..] == [];
    } else {
      var d1 := SegmentStep(h, r, segments[0], before, Stream(segments[1..]));
      d := DrainSegments(h, d1, segments[1..], segments[0].chunk);
      forall k: Byte
        ensures AllArrived(Of(d.out[|r.out|..], k), SentOn(segments, k))
      {
        var first, later := d1.out[|r.out|..], d.out[|d1.out|..];
        assert d.out[|r.out|..] == first + later;
        OfConcat(first, later, k);
        ArrivedConcat(Of(first, k), Of(later, k), MessagesOn(segments[0], k), SentOn(segments[1..], k));
      }
    }
  }

  lemma NothingLeft(h: Policy, r: Run, chunk: ChunkSize)
    requires Resting(r, chunk) && r.rest == []
    ensures Drain(h, r) == r && r.status.Running? && r.parser.phase == InHeader
    ensures AllArrived([], []) && forall k: Byte :: Of([], k) == []
  {}

  lemma StartRests(chunk: ChunkSize)
    ensures Resting(Start(chunk), chunk)
  {}

  /** Sending and receiving over the life of a connection: the writer changes its chunk size as often as it likes, and
      announces each change by a message that it writes under the new size already. Whatever the interleaving within
      a segment and whatever the cuts, the reader gets each chunk stream's messages of all segments in order, the
      announcements among them, consumes every byte and ends at a chunk boundary; timestamps as for one size. */
  lemma SegmentsRoundTrip(h: Policy, segments: seq<Segment>, chunk: ChunkSize, pieces: seq<seq<Byte>>)
    requires KeepsAll(h) && AllAnnounced(segments, chunk)
    requires pieces != [] && Flatten(pieces) == Stream(segments)
    ensures var d := Feed(h, Start(chunk), pieces);
      && d.status.Running? && d.rest == [] && d.parser.phase == InHeader
      && (forall k: Byte :: AllArrived(Of(d.out, k), SentOn(segments, k)) && TimesArrive(Of(d.out, k), SentOn(segments, k)))
      && forall k: Byte :: SameAll(Of(d.out, k), SentOn(segments, k)) <==> AllTellTime(SentOn(segments, k))
  {
    hide KeepsAll, AllAnnounced, Flatten, Stream, Feed, Drain, Resting, Safe, AllArrived, TimesArrive, SameAll, AllTellTime, SentOn, Of;
    var r := Append(Start(chunk), Flatten(pieces));
    StartRests(chunk);
    StartIsSafe(chunk);
    RestingAppended(Start(chunk), Flatten(pieces), chunk);
    var d := DrainSegments(h, r, segments, chunk);
    ConsumedRunMayBeCut(h, Start(chunk), pieces);
    assert d.out[0..] == d.out;
    forall k: Byte
      ensures SameAll(Of(d.out, k), SentOn(segments, k)) <==> AllTellTime(SentOn(segments, k))
      ensures TimesArrive(Of(d.out, k), SentOn(segments, k))
    {
      TimesAsSent(Of(d.out, k), SentOn(segments, k));
      SameExactly(Of(d.out, k), SentOn(segments, k));
    }
  }

  lemma RestingAppended(r: Run, more: seq<Byte>, chunk: ChunkSize)
    requires Resting(r, chunk)
    ensures Resting(Append(r, more), chunk)
  {}
}
