/** Messages of length zero: the one thing in a written stream that makes it matter how the network cuts
    the bytes. */
module ChunkEmpties {
  import opened Bytes
  import opened ChunkSpec
  import opened ChunkStream
  import opened ChunkWire
  import opened ChunkRoundTrip
  import opened ChunkInterleaving
  import opened ChunkDelivery

  /** The chunk's header announces a message of length zero. */
  predicate AnnouncesEmpty(t: Tagged) {
    t.chunk != [] && ReadHead(t.chunk).Some? && ReadHead(t.chunk).value.fmt == 0 && ReadHead(t.chunk).value.length == 0
  }

  /** The first such chunk. */
  function FirstEmpty(sched: seq<Tagged>): (i: nat)
    ensures i <= |sched| && (i < |sched| ==> AnnouncesEmpty(sched[i]))
  {
    if sched == [] || AnnouncesEmpty(sched[0]) then 0 else 1 + FirstEmpty(sched[1..])
  }

  /** The chunk behind an empty message is another empty message that looks the same, except that only the
      first one has an extended timestamp; and too few bytes follow for the parser, which expects one again,
      to go on. */
  predicate Swallowed(sched: seq<Tagged>, i: nat)
    requires i + 1 < |sched| && AnnouncesEmpty(sched[i])
  {
    AnnouncesEmpty(sched[i + 1]) &&
    var a, b := ReadHead(sched[i].chunk).value, ReadHead(sched[i + 1].chunk).value;
    && a.csId == b.csId && a.typeId == b.typeId && a.streamId == b.streamId
    && a.timeStamp >= UNLIMITED && b.timeStamp < UNLIMITED
    && |Joined(sched[i + 2..])| < 4
  }

  /** All first chunks have the full header, as the writer makes them. */
  ghost predicate Absolute(lanes: map<Byte, Lane>) {
    forall k <- lanes :: forall i :: 0 <= i < |lanes[k].ws| ==> lanes[k].ws[i].fmt == 0
  }

  lemma AbsoluteStep(lanes: map<Byte, Lane>, k: Byte, chunk: ChunkSize)
    requires Absolute(lanes) && k in lanes && lanes[k].ws != []
    ensures lanes[k].ws[0].fmt == 0 && Absolute(lanes[k := LaneStep(lanes[k], k, chunk)])
  {}

  /** What the header of a lane's next chunk says. */
  lemma NextHead(l: Lane, k: Byte, chunk: ChunkSize, more: seq<Byte>)
    requires LaneOk(l, k, chunk) && l.ws != [] && l.ws[0].fmt == 0
    ensures var m := l.ws[0].m; var bytes := NextChunk(l.ws[0], k, chunk, l.sent) + more;
      && l.sent <= |m.payload| && |NextChunk(l.ws[0], k, chunk, l.sent)| >= 2
      && (l.sent == 0 ==> ReadHead(bytes) == Some(LeadHead(k, m)) && |Lead(0, k, m)| == LeadHead(k, m).size + |Extension(m)|)
      && (l.sent > 0 ==> m.payload != [] && ReadHead(bytes) == Some(Head(3, k, |BasicHeader(3, k)|, 0, 0, 0, 0)))
  {
    var m := l.ws[0].m;
    var piece := Piece(m.payload, l.sent, chunk);
    if l.sent == 0 {
      assert (Lead(0, k, m) + piece) + more == Lead(0, k, m) + (piece + more);
      LeadRead(0, k, m, piece + more);
    } else {
      assert (Again(k, m) + piece) + more == Again(k, m) + (piece + more);
      AgainRead(k, m, piece + more);
    }
  }

  function LeadHead(k: Byte, m: Message): Head
    requires |m.payload| < 0x100_0000
  {
    Head(0, k, |BasicHeader(0, k)| + 11, Min(m.timestamp, UNLIMITED), |m.payload|, m.typeId, m.streamId)
  }

  lemma EmptyExactly(l: Lane, k: Byte, chunk: ChunkSize)
    requires LaneOk(l, k, chunk) && l.ws != [] && l.ws[0].fmt == 0
    ensures l.sent <= |l.ws[0].m.payload|
    ensures AnnouncesEmpty(Tagged(k, NextChunk(l.ws[0], k, chunk, l.sent))) <==> l.ws[0].m.payload == []
  {
    NextHead(l, k, chunk, []);
    var c := NextChunk(l.ws[0], k, chunk, l.sent);
    assert c + [] == c;
  }

  /** A stand of the read loop: at a chunk boundary, with the chunks `sched` still to come. */
  ghost predicate Stands(r: Run, lanes: map<Byte, Lane>, sched: seq<Tagged>, chunk: ChunkSize) {
    && r.status.Running? && r.rest == Joined(sched)
    && Ready(r.parser, lanes, chunk) && Merges(sched, lanes, chunk) && Absolute(lanes) && AllIdle(lanes)
  }

  /** What the next chunk is. */
  lemma StandsBefore(r: Run, lanes: map<Byte, Lane>, sched: seq<Tagged>, chunk: ChunkSize)
    requires Stands(r, lanes, sched, chunk) && sched != []
    ensures var k := sched[0].csId;
      && k in lanes && LaneOk(lanes[k], k, chunk) && EntryClear(lanes[k]) && lanes[k].ws != [] && lanes[k].ws[0].fmt == 0
      && Lookup(r.parser.slots, k) == LaneSlot(lanes[k], k, chunk)
      && lanes[k].sent <= |lanes[k].ws[0].m.payload|
      && sched[0].chunk == NextChunk(lanes[k].ws[0], k, chunk, lanes[k].sent)
      && Merges(sched[1..], lanes[k := LaneStep(lanes[k], k, chunk)], chunk)
      && Absolute(lanes[k := LaneStep(lanes[k], k, chunk)]) && AllIdle(lanes[k := LaneStep(lanes[k], k, chunk)])
      && (AnnouncesEmpty(sched[0]) <==> lanes[k].ws[0].m.payload == [])
  {
    hide LaneChunks, AnnouncesEmpty, LaneStep, NextChunk;
    assert sched[0] in sched;
    var k := sched[0].csId;
    MergesStep(sched, lanes, chunk);
    AbsoluteStep(lanes, k, chunk);
    IdleStep(lanes, k, chunk);
    EmptyExactly(lanes[k], k, chunk);
    assert sched[0] == Tagged(k, sched[0].chunk);
  }

  lemma PastChunk(h: Policy, r: Run, lanes: map<Byte, Lane>, sched: seq<Tagged>, chunk: ChunkSize) returns (r2: Run, lanes2: map<Byte, Lane>)
    requires KeepsAll(h) && Stands(r, lanes, sched, chunk) && sched != [] && !AnnouncesEmpty(sched[0])
    ensures Stands(r2, lanes2, sched[1..], chunk) && GivesUp(h, r) == GivesUp(h, r2)
  {
    hide LaneChunks, AnnouncesEmpty, LaneStep, NextChunk, GivesUp, Drain, Ready, Merges, Absolute, AllIdle;
    StandsBefore(r, lanes, sched, chunk);
    var k := sched[0].csId;
    assert r.rest == Joined(sched) + [];
    r2 := NextInLine(h, r, lanes, sched, chunk, []);
    assert r2.rest == Joined(sched[1..]);
    lanes2 := lanes[k := LaneStep(lanes[k], k, chunk)];
  }

  /** The loop takes everything up to the first empty message. */
  lemma {:induction false} UpToEmpty(h: Policy, r: Run, lanes: map<Byte, Lane>, sched: seq<Tagged>, chunk: ChunkSize)
    returns (r2: Run, lanes2: map<Byte, Lane>)
    requires KeepsAll(h) && Stands(r, lanes, sched, chunk)
    ensures Stands(r2, lanes2, sched[FirstEmpty(sched)..], chunk) && GivesUp(h, r) == GivesUp(h, r2)
    decreases |sched|
  {
    hide Stands, AnnouncesEmpty, GivesUp;
    if sched == [] || AnnouncesEmpty(sched[0]) {
      r2, lanes2 := r, lanes;
      assert sched[0..] == sched;
    } else {
      var r1, lanes1 := PastChunk(h, r, lanes, sched, chunk);
      r2, lanes2 := UpToEmpty(h, r1, lanes1, sched[1..], chunk);
      assert sched[FirstEmpty(sched)..] == sched[1..][FirstEmpty(sched[1..])..];
    }
  }

  /** Behind the header of an empty message: the loop gives up if anything follows. */
  lemma AtEmpty(h: Policy, r: Run, lanes: map<Byte, Lane>, sched: seq<Tagged>, chunk: ChunkSize) returns (g: Run)
    requires KeepsAll(h) && Stands(r, lanes, sched, chunk) && sched != [] && AnnouncesEmpty(sched[0])
    ensures var k := sched[0].csId;
      && k in lanes && LaneOk(lanes[k], k, chunk) && lanes[k].ws != []
      && lanes[k].sent == 0 && lanes[k].ws[0].m.payload == []
      && g == r.(parser := Opened(r.parser, lanes[k], k).(phase := InHeader), rest := Joined(sched[1..]))
    ensures GivesUp(h, r) == if sched[1..] == [] || Joined(sched[1..]) == [] then None else Some(g)
  {
    hide LaneChunks, AnnouncesEmpty, LaneStep, GivesUp, Drain, Merges;
    StandsBefore(r, lanes, sched, chunk);
    var k := sched[0].csId;
    g := EmptyChunk(h, r, lanes[k], k, chunk, Joined(sched[1..]));
  }

  /** The chunk of an empty message: the entry is opened, and stays so. */
  lemma EmptyChunk(h: Policy, r: Run, l: Lane, k: Byte, chunk: ChunkSize, more: seq<Byte>) returns (g: Run)
    requires r.status.Running? && r.parser.phase == InHeader && r.parser.inChunk == chunk
    requires LaneOk(l, k, chunk) && EntryClear(l) && l.ws != [] && l.ws[0].m.payload == []
    requires Lookup(r.parser.slots, k) == LaneSlot(l, k, chunk)
    requires r.rest == NextChunk(l.ws[0], k, chunk, l.sent) + more
    ensures l.sent == 0 && g == r.(parser := Opened(r.parser, l, k).(phase := InHeader), rest := more)
    ensures GivesUp(h, r) == if more == [] then None else Some(g)
    ensures more == [] ==> Drain(h, r) == g.(parser := g.parser.(phase := InBody))
  {
    hide GivesUp, Drain, ParseHeader;
    var header := NextHeader(l.ws[0], k, l.sent);
    assert r.rest == header + more;
    HeaderPass(r.parser, l, k, chunk, more);
    HeaderAdvance(h, r, header, more);
    var e := r.(parser := Opened(r.parser, l, k), rest := more);
    g := e.(parser := e.parser.(phase := InHeader));
    EmptyBody(h, e, l, k, chunk);
    Pass(h, e);
  }

  /** An empty body is ended without a byte being taken. */
  lemma EmptyBody(h: Policy, e: Run, l: Lane, k: Byte, chunk: ChunkSize)
    requires LaneOk(l, k, chunk) && l.ws != [] && l.ws[0].m.payload == [] && l.sent == 0
    requires e.status.Running? && e.parser.phase == InBody && e.parser.current == k && e.parser.inChunk == chunk
    requires k as int in e.parser.slots && e.parser.slots[k] == OpenSlot(l, k)
    ensures e.rest != [] ==> EndsEmptyBody(h, e) && Advance(h, e) == e.(parser := e.parser.(phase := InHeader))
  {
    var s := OpenSlot(l, k);
    assert s.length == 0 && s.data == [];
    if e.rest != [] {
      assert e.rest[0..] == e.rest && s.data + e.rest[..0] == s.data;
      assert e.parser.slots[k as int := s] == e.parser.slots;
    }
  }

  lemma OtherLane(r: Run, lanes: map<Byte, Lane>, k: Byte, j: Byte, chunk: ChunkSize)
    requires Ready(r.parser, lanes, chunk) && k in lanes && j in lanes && lanes[k].ws != []
    ensures var l := lanes[k := LaneStep(lanes[k], k, chunk)][j];
      LaneOk(l, j, chunk) && (j != k ==> Lookup(r.parser.slots, j) == LaneSlot(l, j, chunk))
  {
    LaneStepOk(lanes[k], k, chunk);
  }

  /** A chunk of another stream is read on. */
  lemma OtherStream(h: Policy, g: Run, l: Lane, j: Byte, chunk: ChunkSize, tail: seq<Byte>)
    requires g.status.Running? && g.parser.phase == InHeader
    requires LaneOk(l, j, chunk) && EntryClear(l) && l.ws != [] && l.ws[0].fmt == 0 && l.sent <= |l.ws[0].m.payload|
    requires Lookup(g.parser.slots, j) == LaneSlot(l, j, chunk) && g.rest == NextChunk(l.ws[0], j, chunk, l.sent) + tail
    ensures |g.rest| >= 2 && !Inert(h, g)
  {
    hide ParseHeader, Inert, LaneOk, LaneSlot, Received;
    NextHead(l, j, chunk, tail);
    var header := NextHeader(l.ws[0], j, l.sent);
    var more := Piece(l.ws[0].m.payload, l.sent, chunk) + tail;
    assert g.rest == header + more;
    HeaderPass(g.parser, l, j, chunk, more);
    HeaderAdvance(h, g, header, more);
    assert |more| < |g.rest|;
    MovedIsNotInert(h, g);
  }

  /** What the entry says behind the header of an empty message. */
  lemma EmptyEntry(l: Lane, k: Byte)
    requires l.ws != [] && l.sent == 0 && l.ws[0].m.payload == [] && l.ws[0].fmt == 0
    ensures var m, s := l.ws[0].m, OpenSlot(l, k);
      && s.csId == k && s.length == 0 && s.hasBuffer && s.data == []
      && s.typeId == m.typeId && s.streamId == m.streamId && s.timeStamp == Min(m.timestamp, UNLIMITED)
  {}

  /** A second header on such an entry: whether it is news, and whether it wants an extended timestamp. */
  lemma HeaderOnEmpty(p: Parser, k: Byte, m: Message, m2: Message)
    requires p.current == k && k as int in p.slots && |m2.payload| < 0x100_0000
    requires var s := p.slots[k];
      && s.csId == k && s.length == 0 && s.hasBuffer && s.data == []
      && s.typeId == m.typeId && s.streamId == m.streamId && s.timeStamp == Min(m.timestamp, UNLIMITED)
    ensures var b := LeadHead(k, m2); var t := Touched(p, b);
      && (NeedsExtended(t.slots[k], b) <==> IsExtended(m) || IsExtended(m2))
      && (t == p <==> m2.payload == [] && m2.typeId == m.typeId && m2.streamId == m.streamId)
  {
    var b := LeadHead(k, m2);
    var s := p.slots[k];
    var t := Touched(p, b);
    assert t.slots[k] == Touch(s, b);
    if Touch(s, b) == s {
      assert t.slots == p.slots;
    }
  }

  /** A chunk of the same stream starts the next message, on an entry that was never reset. */
  lemma SameStream(h: Policy, g: Run, l: Lane, l2: Lane, k: Byte, chunk: ChunkSize, tail: seq<Byte>)
    requires g.status.Running? && g.parser.phase == InHeader && Safe(g)
    requires LaneOk(l, k, chunk) && l.ws != [] && l.sent == 0 && l.ws[0].m.payload == [] && l.ws[0].fmt == 0
    requires LaneOk(l2, k, chunk) && l2.ws != [] && l2.sent == 0 && l2.ws[0].fmt == 0
    requires g.parser.current == k && k as int in g.parser.slots && g.parser.slots[k] == OpenSlot(l, k)
    requires g.rest == NextChunk(l2.ws[0], k, chunk, 0) + tail
    ensures |g.rest| >= 2
    ensures var m, m2 := l.ws[0].m, l2.ws[0].m;
      Inert(h, g) <==>
        && m2.payload == [] && m2.typeId == m.typeId && m2.streamId == m.streamId
        && IsExtended(m) && !IsExtended(m2) && |tail| < 4
  {
    var m, m2 := l.ws[0].m, l2.ws[0].m;
    NextHead(l2, k, chunk, tail);
    EmptyEntry(l, k);
    HeaderOnEmpty(g.parser, k, m, m2);
    hide Inert, Touched, NeedsExtended, LaneOk, OpenSlot, Safe;
    HeaderInertExactly(h, g);
  }

  lemma HeadsSay(l: Lane, l2: Lane, k: Byte, j: Byte, chunk: ChunkSize, sched: seq<Tagged>)
    requires |sched| >= 2 && AnnouncesEmpty(sched[0])
    requires LaneOk(l, k, chunk) && l.ws != [] && l.ws[0].fmt == 0 && l.sent == 0
    requires LaneOk(l2, j, chunk) && l2.ws != [] && l2.ws[0].fmt == 0 && l2.sent <= |l2.ws[0].m.payload|
    requires sched[0].chunk == NextChunk(l.ws[0], k, chunk, 0) && sched[1].chunk == NextChunk(l2.ws[0], j, chunk, l2.sent)
    ensures var m, m2 := l.ws[0].m, l2.ws[0].m;
      Swallowed(sched, 0) <==>
        && k == j && l2.sent == 0 && m2.payload == [] && m2.typeId == m.typeId && m2.streamId == m.streamId
        && IsExtended(m) && !IsExtended(m2) && |Joined(sched[2..])| < 4
  {
    NextHead(l, k, chunk, []);
    NextHead(l2, j, chunk, []);
    hide LaneOk, NextChunk;
    assert sched[0].chunk + [] == sched[0].chunk && sched[1].chunk + [] == sched[1].chunk;
  }

  /** The lane of the chunk behind the first. */
  lemma LaneBehind(r: Run, lanes: map<Byte, Lane>, sched: seq<Tagged>, chunk: ChunkSize) returns (l2: Lane)
    requires Stands(r, lanes, sched, chunk) && |sched| >= 2
    ensures var k, j := sched[0].csId, sched[1].csId;
      && LaneOk(l2, j, chunk) && EntryClear(l2) && l2.ws != [] && l2.ws[0].fmt == 0 && l2.sent <= |l2.ws[0].m.payload|
      && k in lanes && lanes[k].ws != []
      && (if j == k then l2 == LaneStep(lanes[k], k, chunk) else Lookup(r.parser.slots, j) == LaneSlot(l2, j, chunk))
      && sched[1].chunk == NextChunk(l2.ws[0], j, chunk, l2.sent)
      && Joined(sched[1..]) == sched[1].chunk + Joined(sched[2..]) && |Joined(sched[1..])| >= 2
  {
    hide LaneChunks, AnnouncesEmpty, LaneOk, LaneSlot, Received, NextChunk;
    var k, j, rest := sched[0].csId, sched[1].csId, sched[1..];
    StandsBefore(r, lanes, sched, chunk);
    var lanes1 := lanes[k := LaneStep(lanes[k], k, chunk)];
    assert rest[0] == sched[1] && rest[0] in rest && rest[1..] == sched[2..];
    OtherLane(r, lanes, k, j, chunk);
    l2 := lanes1[j];
    MergesStep(rest, lanes1, chunk);
    AbsoluteStep(lanes1, j, chunk);
    EmptyExactly(l2, j, chunk);
    NextHead(l2, j, chunk, []);
  }

  /** The chunk behind an empty message lets the loop go on, unless it is swallowed. */
  lemma BehindEmpty(h: Policy, r: Run, g: Run, lanes: map<Byte, Lane>, sched: seq<Tagged>, chunk: ChunkSize)
    requires Stands(r, lanes, sched, chunk) && |sched| >= 2 && AnnouncesEmpty(sched[0]) && Safe(g)
    requires sched[0].csId in lanes
    requires var l := lanes[sched[0].csId];
      && l.ws != [] && l.sent == 0 && l.ws[0].m.payload == []
      && g == r.(parser := Opened(r.parser, l, sched[0].csId).(phase := InHeader), rest := Joined(sched[1..]))
    ensures |g.rest| >= 2 && (Inert(h, g) <==> Swallowed(sched, 0))
  {
    hide LaneChunks, AnnouncesEmpty, Inert, NextChunk, LaneOk, Swallowed, OpenSlot, LaneSlot, Received, Merges, Joined;
    var k, j := sched[0].csId, sched[1].csId;
    StandsBefore(r, lanes, sched, chunk);
    var l2 := LaneBehind(r, lanes, sched, chunk);
    HeadsSay(lanes[k], l2, k, j, chunk, sched);
    if j != k {
      OtherStream(h, g, l2, j, chunk, Joined(sched[2..]));
    } else {
      SameStream(h, g, lanes[k], l2, k, chunk, Joined(sched[2..]));
    }
  }

  lemma AtEnd(h: Policy, r: Run, lanes: map<Byte, Lane>, chunk: ChunkSize)
    requires Stands(r, lanes, [], chunk)
    ensures GivesUp(h, r).None?
  {}

  lemma SameTail(sched: seq<Tagged>, i: nat)
    requires i + 1 < |sched| && AnnouncesEmpty(sched[i])
    ensures |sched[i..]| >= 2 && AnnouncesEmpty(sched[i..][0])
    ensures Swallowed(sched, i) <==> Swallowed(sched[i..], 0)
  {
    var tail := sched[i..];
    assert tail[0] == sched[i] && tail[1] == sched[i + 1] && tail[2..] == sched[i + 2..];
  }

  // ---------- the writer's streams ----------

  lemma NewLanesStand(msgs: map<Byte, seq<Message>>, sched: seq<Tagged>, chunk: ChunkSize)
    requires forall k <- msgs :: ParsableId(k) && AllFit(msgs[k], chunk)
    requires forall k <- msgs :: Project(sched, k) == Written(msgs[k], k, chunk)
    requires forall e <- sched :: e.csId in msgs
    ensures Stands(Append(Start(chunk), Joined(sched)), NewLanes(msgs, chunk), sched, chunk)
  {
    hide AllFit, Written, Project, Ready, Merges;
    NewLanesReady(msgs, sched, chunk);
    forall k | k in msgs
      ensures forall i :: 0 <= i < |NewLane(msgs[k], chunk).ws| ==> NewLane(msgs[k], chunk).ws[i].fmt == 0
    {
      WiresAt(msgs[k], chunk);
    }
  }

  /** Where the loop stands at chunk `i`, the first to announce an empty message, or at the end. */
  lemma AtFirstEmpty(h: Policy, x: Run, r: Run, lanes: map<Byte, Lane>, sched: seq<Tagged>, i: nat, chunk: ChunkSize)
    requires KeepsAll(h) && Safe(x) && GivesUp(h, x) == GivesUp(h, r)
    requires i <= |sched| && (i < |sched| ==> AnnouncesEmpty(sched[i])) && Stands(r, lanes, sched[i..], chunk)
    ensures i + 1 >= |sched| ==> GivesUp(h, x).None?
    ensures i + 1 < |sched| ==>
      && GivesUp(h, x).Some? && |GivesUp(h, x).value.rest| >= 2 && |x.rest| >= 2
      && (Inert(h, GivesUp(h, x).value) <==> Swallowed(sched, i))
  {
    hide KeepsAll, Joined, GivesUp, Inert, Stands, Safe, AnnouncesEmpty, Swallowed, LaneOk, LaneSlot, LaneStep, NextChunk, Opened;
    var tail := sched[i..];
    if |tail| == 0 {
      AtEnd(h, r, lanes, chunk);
    } else {
      var g := AtEmpty(h, r, lanes, tail, chunk);
      if |tail| >= 2 {
        var l2 := LaneBehind(r, lanes, tail, chunk);
        GivesUpEnds(h, x);
        BehindEmpty(h, r, g, lanes, tail, chunk);
        SameTail(sched, i);
      }
    }
  }

  /** Written streams of messages that may be empty, read in pieces that are not: how they are cut matters
      exactly if the first empty message is followed by another chunk that is not swallowed. */
  lemma WrittenReadsMatterExactly(h: Policy, msgs: map<Byte, seq<Message>>, sched: seq<Tagged>, chunk: ChunkSize)
    requires KeepsAll(h)
    requires forall k <- msgs :: ParsableId(k) && AllFit(msgs[k], chunk)
    requires forall k <- msgs :: Project(sched, k) == Written(msgs[k], k, chunk)
    requires forall e <- sched :: e.csId in msgs
    ensures var i := FirstEmpty(sched);
      ReadsDoNotMatter(h, Start(chunk), Joined(sched)) <==> i + 1 >= |sched| || Swallowed(sched, i)
  {
    hide KeepsAll, AllFit, Written, Project, Joined, ReadsDoNotMatter, GivesUp, Inert, Stands, Safe, AnnouncesEmpty, Swallowed;
    var bytes := Joined(sched);
    var x := Append(Start(chunk), bytes);
    NewLanesStand(msgs, sched, chunk);
    StartIsSafe(chunk);
    AppendSafe(Start(chunk), bytes);
    ReadsMatterExactly(h, Start(chunk), bytes);
    var r, lanes := UpToEmpty(h, x, NewLanes(msgs, chunk), sched, chunk);
    AtFirstEmpty(h, x, r, lanes, sched, FirstEmpty(sched), chunk);
  }
}
