/** What arrives when messages may be empty. The read loop gives up behind an empty message, in front of bytes
    that have arrived; the next read wakes it. So cuts only delay. What is lost is lost to another effect: an empty
    message leaves its timestamp in the table. */
module ChunkWoken {
  import opened Bytes
  import opened ChunkSpec
  import opened ChunkStream
  import opened ChunkWire
  import opened ChunkRoundTrip
  import opened ChunkInterleaving
  import opened ChunkDelivery
  import opened ChunkEmpties

  // ---------- cuts only delay ----------

  lemma GivesUpMoves(h: Policy, r: Run)
    requires Safe(r) && GivesUp(h, r).Some?
    ensures var g := GivesUp(h, r).value;
      Safe(g) && g.parser.phase == InHeader && (|g.rest| < |r.rest| || (|g.rest| == |r.rest| && r.parser.phase == InBody))
  {
    GivesUpEnds(h, r);
    EmptyBodyIsZeroLength(h, r);
    if !EndsEmptyBody(h, r) {
      AdvanceSafe(h, r);
      GivesUpEnds(h, Advance(h, r));
    }
  }

  /** The loop, woken again each time it gives up. */
  function Woken(h: Policy, r: Run): Run
    requires Safe(r)
    decreases |r.rest|, if r.parser.phase == InBody then 1 else 0
  {
    match GivesUp(h, r)
    case None => Drain(h, r)
    case Some(g) =>
      GivesUpMoves(h, r);
      Woken(h, g)
  }

  /** It makes no difference whether the loop ran on a part already. */
  lemma WokenInParts(h: Policy, r: Run, more: seq<Byte>)
    requires Safe(r)
    ensures Safe(Drain(h, r)) && Woken(h, Append(Drain(h, r), more)) == Woken(h, Append(r, more))
  {
    hide Drain, GivesUp, Safe;
    DrainSafe(h, r);
    AppendSafe(r, more);
    AppendSafe(Drain(h, r), more);
    if GivesUp(h, r).Some? {
      GivesUpEnds(h, r);
      GivesUpWithMore(h, r, more);
    } else {
      DrainInParts(h, r, more);
    }
  }

  /** However a stream is cut, empty messages or not: once woken, the loop is where it would be had everything come
      at once. No byte is lost to a cut, only time. */
  lemma {:induction false} CutsOnlyDelay(h: Policy, r: Run, pieces: seq<seq<Byte>>)
    requires Safe(r)
    ensures Safe(Feed(h, r, pieces)) && Safe(Append(r, Flatten(pieces)))
    ensures Woken(h, Feed(h, r, pieces)) == Woken(h, Append(r, Flatten(pieces)))
    decreases |pieces|
  {
    hide Safe, Drain, GivesUp, Woken;
    FeedSafe(h, r, pieces);
    AppendSafe(r, Flatten(pieces));
    if pieces == [] {
      assert Append(r, []) == r;
    } else {
      var first := Append(r, pieces[0]);
      FeedFirst(h, r, pieces);
      AppendSafe(r, pieces[0]);
      DrainSafe(h, first);
      CutsOnlyDelay(h, Drain(h, first), pieces[1..]);
      WokenInParts(h, first, Flatten(pieces[1..]));
    }
  }

  lemma SameEnd(h: Policy, r: Run, r2: Run)
    requires Safe(r) && Safe(r2) && Drain(h, r) == Drain(h, r2) && GivesUp(h, r) == GivesUp(h, r2)
    ensures Woken(h, r) == Woken(h, r2)
  {}

  // ---------- chunk by chunk ----------

  /** No empty message with an extended timestamp is directly followed by a message without one. */
  predicate TimesClear(ms: seq<Message>) {
    forall i :: 0 <= i < |ms| - 1 && ms[i].payload == [] && IsExtended(ms[i]) ==> IsExtended(ms[i + 1])
  }

  predicate WiresClear(ws: seq<Wire>) {
    forall i :: 0 <= i < |ws| - 1 && ws[i].m.payload == [] && IsExtended(ws[i].m) ==> IsExtended(ws[i + 1].m)
  }

  ghost predicate AllClear(lanes: map<Byte, Lane>) {
    forall k <- lanes :: EntryClear(lanes[k]) && WiresClear(lanes[k].ws)
  }

  /** The lane behind its next chunk, also if that is the whole of an empty message. */
  function Past(l: Lane, k: Byte, chunk: ChunkSize): Lane
    requires LaneOk(l, k, chunk) && l.ws != []
  {
    if l.ws[0].m.payload == [] then Lane(OpenSlot(l, k), l.ws[1..], 0) else LaneStep(l, k, chunk)
  }

  lemma AnyBase(a: Slot, b: Slot, k: Byte, ws: seq<Wire>, chunk: ChunkSize)
    requires ws == [] || ws[0].fmt == 0
    ensures AllSendable(a, k, ws, chunk) == AllSendable(b, k, ws, chunk)
  {}

  lemma PastOk(l: Lane, k: Byte, chunk: ChunkSize)
    requires LaneOk(l, k, chunk) && l.ws != [] && forall i :: 0 <= i < |l.ws| ==> l.ws[i].fmt == 0
    ensures LaneOk(Past(l, k, chunk), k, chunk)
    ensures l.ws[0].m.payload == [] ==> LaneSlot(Past(l, k, chunk), k, chunk) == OpenSlot(l, k)
    ensures LaneChunks(Past(l, k, chunk), k, chunk) == LaneChunks(LaneStep(l, k, chunk), k, chunk)
    ensures EntryClear(l) && WiresClear(l.ws) ==> EntryClear(Past(l, k, chunk)) && WiresClear(Past(l, k, chunk).ws)
  {
    hide AllSendable, Received, Chunks, LaterChunks, AllChunks;
    LaneStepOk(l, k, chunk);
    if l.ws[0].m.payload == [] {
      AnyBase(Cleared(Received(l.base, k, l.ws[0])), OpenSlot(l, k), k, l.ws[1..], chunk);
      assert l.ws[0].m.payload[..0] == [];
    }
    ClearPast(l, k, chunk);
  }

  lemma ClearPast(l: Lane, k: Byte, chunk: ChunkSize)
    requires LaneOk(l, k, chunk) && l.ws != [] && forall i :: 0 <= i < |l.ws| ==> l.ws[i].fmt == 0
    ensures var l2 := Past(l, k, chunk);
      EntryClear(l) ==> (WiresClear(l.ws) <==> EntryClear(l2) && WiresClear(l2.ws))
  {
    hide AllSendable;
    var ws := l.ws[1..];
    assert forall i :: 0 <= i < |ws| ==> ws[i] == l.ws[i + 1];
    if WiresClear(ws) && (|ws| > 0 && l.ws[0].m.payload == [] && IsExtended(l.ws[0].m) ==> IsExtended(ws[0].m)) {
      forall i | 0 <= i < |l.ws| - 1 && l.ws[i].m.payload == [] && IsExtended(l.ws[i].m)
        ensures IsExtended(l.ws[i + 1].m)
      {
        assert i > 0 ==> l.ws[i] == ws[i - 1] && l.ws[i + 1] == ws[i];
      }
      assert WiresClear(l.ws);
    }
  }

  /** The chunks are the next ones of their lanes. */
  ghost predicate Begins(sched: seq<Tagged>, lanes: map<Byte, Lane>, chunk: ChunkSize) {
    && (forall e <- sched :: e.csId in lanes)
    && (forall k <- lanes :: Project(sched, k) <= LaneChunks(lanes[k], k, chunk))
  }

  lemma BeginsStep(sched: seq<Tagged>, lanes: map<Byte, Lane>, l2: Lane, chunk: ChunkSize)
    requires sched != [] && Begins(sched, lanes, chunk)
    requires var k := sched[0].csId; k in lanes && LaneOk(lanes[k], k, chunk) && lanes[k].ws != []
    requires var k := sched[0].csId; LaneChunks(l2, k, chunk) == LaneChunks(LaneStep(lanes[k], k, chunk), k, chunk)
    ensures var k := sched[0].csId; var l := lanes[k];
      && l.sent <= |l.ws[0].m.payload| && sched[0].chunk == NextChunk(l.ws[0], k, chunk, l.sent)
      && Begins(sched[1..], lanes[k := l2], chunk)
  {
    hide LaneChunks, LaneStep, NextChunk;
    var k := sched[0].csId;
    var l := lanes[k];
    assert Project(sched, k) == [sched[0].chunk] + Project(sched[1..], k);
    LaneChunksStep(l, k, chunk);
    var chunks, later := LaneChunks(l, k, chunk), LaneChunks(l2, k, chunk);
    assert chunks == [NextChunk(l.ws[0], k, chunk, l.sent)] + later;
    assert chunks[0] == sched[0].chunk && chunks[1..] == later && Project(sched, k)[1..] == Project(sched[1..], k);
    forall j | j in lanes[k := l2]
      ensures Project(sched[1..], j) <= LaneChunks(lanes[k := l2][j], j, chunk)
    {
      assert j != k ==> Project(sched, j) == [] + Project(sched[1..], j);
    }
  }

  lemma NextLane(sched: seq<Tagged>, lanes: map<Byte, Lane>, chunk: ChunkSize)
    requires sched != [] && Begins(sched, lanes, chunk)
    ensures sched[0].csId in lanes && lanes[sched[0].csId].ws != []
  {
    assert sched[0] in sched;
    assert Project(sched, sched[0].csId) != [];
  }

  /** At a chunk boundary, with the chunks `sched` to come and perhaps more later. */
  ghost predicate Standing(r: Run, lanes: map<Byte, Lane>, sched: seq<Tagged>, chunk: ChunkSize) {
    && Safe(r) && r.status.Running? && r.rest == Joined(sched)
    && Ready(r.parser, lanes, chunk) && Begins(sched, lanes, chunk) && Absolute(lanes)
  }

  /** Nothing is left unread, and a header is expected, at once or when the next byte comes. */
  predicate InStep(d: Run) {
    && d.status.Running? && d.rest == []
    && (d.parser.phase == InHeader || (d.parser.current in d.parser.slots && d.parser.slots[d.parser.current].length == 0))
  }

  /** What comes out with a lane's next chunk. */
  function Gives(l: Lane, k: Byte, chunk: ChunkSize): seq<Slot>
    requires l.ws != []
  {
    if l.ws[0].m.payload == [] then [] else Completed(l, k, chunk)
  }

  lemma AbsoluteLane(lanes: map<Byte, Lane>, k: Byte, chunk: ChunkSize)
    requires Absolute(lanes) && k in lanes && LaneOk(lanes[k], k, chunk) && lanes[k].ws != []
    ensures forall i :: 0 <= i < |lanes[k].ws| ==> lanes[k].ws[i].fmt == 0
    ensures Absolute(lanes[k := Past(lanes[k], k, chunk)])
  {}

  lemma SomethingBehind(p: Parser, sched: seq<Tagged>, lanes: map<Byte, Lane>, chunk: ChunkSize)
    requires sched != [] && Begins(sched, lanes, chunk) && Ready(p, lanes, chunk)
    ensures Joined(sched) != []
  {
    hide LaneChunks;
    NextLane(sched, lanes, chunk);
    var k := sched[0].csId;
    BeginsStep(sched, lanes, LaneStep(lanes[k], k, chunk), chunk);
  }

  lemma EmptyChunkEnds(h: Policy, r: Run, g: Run, l: Lane, k: Byte, more: seq<Byte>)
    requires Safe(r) && r.status.Running? && l.ws != [] && l.sent == 0 && l.ws[0].m.payload == []
    requires g == r.(parser := Opened(r.parser, l, k).(phase := InHeader), rest := more)
    requires GivesUp(h, r) == if more == [] then None else Some(g)
    requires more == [] ==> Drain(h, r) == g.(parser := g.parser.(phase := InBody))
    ensures Safe(g)
    ensures if more == [] then InStep(Woken(h, r)) && Woken(h, r).out == r.out else Woken(h, r) == Woken(h, g)
  {
    if more == [] {
      DrainSafe(h, r);
    } else {
      GivesUpMoves(h, r);
    }
  }

  /** One chunk. Behind an empty message the loop goes on as soon as it is woken; at the end of the bytes it waits
      for that. */
  lemma ChunkStep(h: Policy, r: Run, lanes: map<Byte, Lane>, sched: seq<Tagged>, chunk: ChunkSize) returns (r2: Run)
    requires KeepsAll(h) && Standing(r, lanes, sched, chunk) && sched != []
    requires sched[0].csId in lanes && EntryClear(lanes[sched[0].csId])
    ensures var k := sched[0].csId; var l := lanes[k];
      && l.ws != [] && LaneOk(l, k, chunk)
      && Standing(r2, lanes[k := Past(l, k, chunk)], sched[1..], chunk)
      && r2.out == r.out + Gives(l, k, chunk)
      && if l.ws[0].m.payload == [] && |sched| == 1
         then InStep(Woken(h, r)) && Woken(h, r).out == r.out
         else Woken(h, r) == Woken(h, r2)
  {
    hide Safe, Drain, GivesUp, NextChunk, LaneChunks, AllSendable, Begins, LaneSlot, Absolute, Received;
    var k := sched[0].csId;
    NextLane(sched, lanes, chunk);
    var l, more := lanes[k], Joined(sched[1..]);
    AbsoluteLane(lanes, k, chunk);
    PastOk(l, k, chunk);
    BeginsStep(sched, lanes, Past(l, k, chunk), chunk);
    if l.ws[0].m.payload == [] {
      r2 := EmptyChunk(h, r, l, k, chunk, more);
      ReadyStep(r.parser, r2.parser, lanes, k, Past(l, k, chunk), chunk);
      EmptyChunkEnds(h, r, r2, l, k, more);
      if |sched| > 1 {
        SomethingBehind(r2.parser, sched[1..], lanes[k := Past(l, k, chunk)], chunk);
      } else {
        assert sched[1..] == [];
      }
    } else {
      r2 := DrainChunk(h, r, l, k, chunk, more);
      ReadyStep(r.parser, r2.parser, lanes, k, Past(l, k, chunk), chunk);
      SameEnd(h, r, r2);
    }
  }

  lemma ClearStep(lanes: map<Byte, Lane>, k: Byte, chunk: ChunkSize)
    requires AllClear(lanes) && Absolute(lanes) && k in lanes && LaneOk(lanes[k], k, chunk) && lanes[k].ws != []
    ensures AllClear(lanes[k := Past(lanes[k], k, chunk)])
  {
    hide LaneOk, EntryClear, WiresClear, Past;
    AbsoluteLane(lanes, k, chunk);
    ClearPast(lanes[k], k, chunk);
  }

  // ---------- in step ----------

  lemma {:induction false} StaysInStep(h: Policy, r: Run, lanes: map<Byte, Lane>, sched: seq<Tagged>, chunk: ChunkSize)
    requires KeepsAll(h) && Standing(r, lanes, sched, chunk) && AllClear(lanes)
    ensures InStep(Woken(h, r))
    decreases |sched|
  {
    if sched == [] {
      return;
    }
    hide Woken, Safe, InStep, Begins, Absolute, Past, LaneOk, EntryClear, WiresClear;
    var k := sched[0].csId;
    NextLane(sched, lanes, chunk);
    var r2 := ChunkStep(h, r, lanes, sched, chunk);
    ClearStep(lanes, k, chunk);
    StaysInStep(h, r2, lanes[k := Past(lanes[k], k, chunk)], sched[1..], chunk);
  }

  /** A message without an extended timestamp, where the parser looks for one: it takes four bytes too many, or
      waits for them. */
  lemma Jammed(h: Policy, r: Run, l: Lane, k: Byte, chunk: ChunkSize)
    requires Safe(r) && r.status.Running? && r.parser.phase == InHeader && r.parser.inChunk == chunk
    requires LaneOk(l, k, chunk) && !EntryClear(l) && l.ws[0].fmt == 0 && l.sent == 0 && Lookup(r.parser.slots, k) == l.base
    requires r.rest == NextChunk(l.ws[0], k, chunk, 0)
    ensures !InStep(Woken(h, r))
  {
    var m := l.ws[0].m;
    var piece := Piece(m.payload, 0, chunk);
    NextHead(l, k, chunk, []);
    assert r.rest + [] == r.rest;
    var hd := LeadHead(k, m);
    var t := Touched(r.parser, hd);
    assert NeedsExtended(t.slots[k], hd);
    assert |r.rest| == hd.size + |piece|;
    JammedHead(h, r, hd, |piece|);
  }

  lemma JammedHead(h: Policy, r: Run, hd: Head, n: nat)
    requires Safe(r) && r.status.Running? && r.parser.phase == InHeader && r.rest != [] && ReadHead(r.rest) == Some(hd)
    requires hd.fmt == 0 && 0 <= hd.csId < 0x100 && hd.length < 0x100_0000 && |r.rest| == hd.size + n && n == Min(hd.length, r.parser.inChunk)
    requires NeedsExtended(Touched(r.parser, hd).slots[hd.csId], hd)
    ensures !InStep(Woken(h, r))
  {
    var t := Touched(r.parser, hd);
    if n < 4 {
      assert ParseHeader(r.parser, r.rest) == Result(t, 0, None);
    } else {
      var p := Stamped(t, hd, ReadU32BE(r.rest, hd.size));
      var r1 := r.(parser := p, rest := r.rest[hd.size + 4..]);
      assert ParseHeader(r.parser, r.rest) == Result(p, hd.size + 4, None);
      AdvanceSafe(h, r);
      Overread(h, r1, hd.length, hd.csId);
      hide ParseHeader, Touched, Stamped;
      Pass(h, r);
    }
  }

  /** A body piece that is not all there. */
  lemma Overread(h: Policy, r: Run, length: nat, k: Byte)
    requires Safe(r) && r.status.Running? && r.parser.phase == InBody && r.parser.current == k && k as int in r.parser.slots
    requires var s := r.parser.slots[k]; s.data == [] && s.length == length > 0 && |r.rest| < Min(length, r.parser.inChunk)
    ensures Drain(h, r) == r && GivesUp(h, r) == None && !InStep(Woken(h, r))
  {
    BodyWaits(h, r, k);
    hide Advance, Drain, GivesUp;
    EmptyBodyIsZeroLength(h, r);
    Pass(h, r);
  }

  lemma BodyWaits(h: Policy, r: Run, k: Byte)
    requires r.status.Running? && r.parser.phase == InBody && r.parser.current == k && k as int in r.parser.slots
    requires var s := r.parser.slots[k]; s.data == [] && s.length < 0x100_0000 && |r.rest| < Min(s.length, r.parser.inChunk)
    ensures Advance(h, r) == r
  {
    var s := r.parser.slots[k];
    assert r.parser.slots[k as int := s] == r.parser.slots;
    assert r.rest[0..] == r.rest;
  }

  // ---------- what comes out ----------

  /** The messages of a lane that are not empty. */
  function Coming(ws: seq<Wire>, k: Byte): seq<Slot> {
    if ws == [] then []
    else (if ws[0].m.payload == [] then [] else [Received(FRESH_SLOT, k, ws[0])]) + Coming(ws[1..], k)
  }

  /** The run `d` has added to the history `before`, for each lane, its messages that are not empty. */
  ghost predicate Came(d: Run, before: seq<Slot>, lanes: map<Byte, Lane>) {
    && before <= d.out
    && (forall i :: |before| <= i < |d.out| ==> d.out[i].csId in lanes)
    && forall k <- lanes :: Of(d.out[|before|..], k) == Coming(lanes[k].ws, k)
  }

  lemma ComingStep(l: Lane, k: Byte, chunk: ChunkSize)
    requires LaneOk(l, k, chunk) && l.ws != [] && l.ws[0].fmt == 0
    ensures Coming(l.ws, k) == Gives(l, k, chunk) + Coming(Past(l, k, chunk).ws, k)
    ensures forall i :: 0 <= i < |Gives(l, k, chunk)| ==> Gives(l, k, chunk)[i].csId == k
  {
    assert l.sent + chunk < |l.ws[0].m.payload| ==> Gives(l, k, chunk) == [];
  }

  lemma OfOwn(own: seq<Slot>, later: seq<Slot>, k: Byte, j: Byte)
    requires |own| <= 1 && forall i :: 0 <= i < |own| ==> own[i].csId == k
    ensures Of(own + later, j) == if j == k then own + Of(later, j) else Of(later, j)
  {
    if |own| == 0 {
      assert own + later == later;
    } else {
      assert (own + later)[1..] == later;
    }
  }

  lemma CameStep(d: Run, before: seq<Slot>, lanes: map<Byte, Lane>, k: Byte, chunk: ChunkSize)
    requires k in lanes && LaneOk(lanes[k], k, chunk) && lanes[k].ws != [] && lanes[k].ws[0].fmt == 0
    requires Came(d, before + Gives(lanes[k], k, chunk), lanes[k := Past(lanes[k], k, chunk)])
    ensures Came(d, before, lanes)
  {
    hide Of, Coming, Gives, Past, LaneOk;
    var own, lanes' := Gives(lanes[k], k, chunk), lanes[k := Past(lanes[k], k, chunk)];
    var later := d.out[|before + own|..];
    assert d.out[|before|..] == own + later;
    ComingStep(lanes[k], k, chunk);
    AtMostOne(lanes[k], k, chunk);
    forall i | |before| <= i < |d.out|
      ensures d.out[i].csId in lanes
    {
      assert i < |before + own| ==> d.out[i] == (before + own)[i];
    }
    forall j | j in lanes
      ensures Of(own + later, j) == Coming(lanes[j].ws, j)
    {
      OfOwn(own, later, k, j);
      assert j in lanes' && Of(later, j) == Coming(lanes'[j].ws, j);
    }
  }

  lemma AtMostOne(l: Lane, k: Byte, chunk: ChunkSize)
    requires l.ws != []
    ensures |Gives(l, k, chunk)| <= 1
  {}

  lemma {:induction false} AllCome(h: Policy, r: Run, lanes: map<Byte, Lane>, sched: seq<Tagged>, chunk: ChunkSize)
    requires KeepsAll(h) && Standing(r, lanes, sched, chunk) && AllClear(lanes) && Merges(sched, lanes, chunk)
    ensures Came(Woken(h, r), r.out, lanes)
    decreases |sched|
  {
    if sched == [] {
      NothingComes(h, r, lanes, chunk);
      return;
    }
    hide Woken, Safe, InStep, Begins, Absolute, Past, LaneOk, EntryClear, WiresClear, Merges, Came, Gives;
    var k := sched[0].csId;
    NextLane(sched, lanes, chunk);
    var r2 := ChunkStep(h, r, lanes, sched, chunk);
    var l2, lanes2 := Past(lanes[k], k, chunk), lanes[k := Past(lanes[k], k, chunk)];
    ClearStep(lanes, k, chunk);
    AbsoluteLane(lanes, k, chunk);
    MergesPast(sched, lanes, chunk);
    AllCome(h, r2, lanes2, sched[1..], chunk);
    if |sched| == 1 && lanes[k].ws[0].m.payload == [] {
      NothingBehind(h, r2, sched[1..]);
      SameCame(Woken(h, r2), Woken(h, r), r2.out, lanes2);
    }
    CameStep(Woken(h, r), r.out, lanes, k, chunk);
  }

  lemma NothingComes(h: Policy, r: Run, lanes: map<Byte, Lane>, chunk: ChunkSize)
    requires Safe(r) && r.rest == [] && Merges([], lanes, chunk) && Ready(r.parser, lanes, chunk)
    ensures Came(Woken(h, r), r.out, lanes)
  {
    assert r.out[|r.out|..] == [];
    assert forall k <- lanes :: lanes[k].ws == [];
  }

  lemma NothingBehind(h: Policy, r: Run, sched: seq<Tagged>)
    requires Safe(r) && r.rest == Joined(sched) && sched == []
    ensures Woken(h, r) == r
  {}

  lemma SameCame(d: Run, d2: Run, before: seq<Slot>, lanes: map<Byte, Lane>)
    requires Came(d, before, lanes) && d2.out == d.out
    ensures Came(d2, before, lanes)
  {}

  lemma MergesPast(sched: seq<Tagged>, lanes: map<Byte, Lane>, chunk: ChunkSize)
    requires sched != [] && Merges(sched, lanes, chunk)
    requires var k := sched[0].csId;
      && k in lanes && LaneOk(lanes[k], k, chunk) && lanes[k].ws != []
      && forall i :: 0 <= i < |lanes[k].ws| ==> lanes[k].ws[i].fmt == 0
    ensures var k := sched[0].csId; Merges(sched[1..], lanes[k := Past(lanes[k], k, chunk)], chunk)
  {
    hide LaneChunks, Past, LaneOk, LaneStep, Project;
    var k := sched[0].csId;
    MergesStep(sched, lanes, chunk);
    PastOk(lanes[k], k, chunk);
    var a, b := lanes[k := LaneStep(lanes[k], k, chunk)], lanes[k := Past(lanes[k], k, chunk)];
    forall j | j in b
      ensures Project(sched[1..], j) == LaneChunks(b[j], j, chunk)
    {
      assert j in a;
    }
  }

  // ---------- out of step ----------

  ghost predicate AllOk(lanes: map<Byte, Lane>, chunk: ChunkSize) {
    Absolute(lanes) && forall k <- lanes :: LaneOk(lanes[k], k, chunk)
  }

  /** The last of these chunks is the first that finds an entry in its way. */
  ghost predicate JamsAtEnd(lanes: map<Byte, Lane>, sched: seq<Tagged>, chunk: ChunkSize)
    decreases |sched|
  {
    sched != [] &&
    var k := sched[0].csId;
    && k in lanes && LaneOk(lanes[k], k, chunk) && lanes[k].ws != []
    && if |sched| == 1 then !EntryClear(lanes[k])
       else EntryClear(lanes[k]) && JamsAtEnd(lanes[k := Past(lanes[k], k, chunk)], sched[1..], chunk)
  }

  lemma {:induction false} JamsSomewhere(lanes: map<Byte, Lane>, sched: seq<Tagged>, chunk: ChunkSize, j: Byte) returns (i: nat)
    requires AllOk(lanes, chunk) && Merges(sched, lanes, chunk)
    requires j in lanes && !(EntryClear(lanes[j]) && WiresClear(lanes[j].ws))
    ensures i <= |sched| && JamsAtEnd(lanes, sched[..i], chunk)
    decreases |sched|
  {
    hide AllOk, Past, LaneOk, EntryClear, WiresClear, Merges, JamsAtEnd;
    if |sched| == 0 {
      AllSent(lanes, sched, j, chunk);
    } else {
      var k := sched[0].csId;
      HeadOfLine(sched, lanes, chunk);
      PastLane(lanes, k, chunk);
      if !EntryClear(lanes[k]) {
        JamsNow(lanes, sched, chunk);
        i := 1;
      } else {
        MergesPast(sched, lanes, chunk);
        i := JamsSomewhere(lanes[k := Past(lanes[k], k, chunk)], sched[1..], chunk, j);
        JamsLater(lanes, sched, chunk, i);
        i := i + 1;
      }
    }
  }

  lemma JamsNow(lanes: map<Byte, Lane>, sched: seq<Tagged>, chunk: ChunkSize)
    requires sched != []
    requires var k := sched[0].csId; k in lanes && LaneOk(lanes[k], k, chunk) && lanes[k].ws != [] && !EntryClear(lanes[k])
    ensures JamsAtEnd(lanes, sched[..1], chunk)
  {}

  lemma JamsLater(lanes: map<Byte, Lane>, sched: seq<Tagged>, chunk: ChunkSize, i: nat)
    requires sched != [] && i <= |sched[1..]|
    requires var k := sched[0].csId; k in lanes && LaneOk(lanes[k], k, chunk) && lanes[k].ws != [] && EntryClear(lanes[k])
    requires var k := sched[0].csId; JamsAtEnd(lanes[k := Past(lanes[k], k, chunk)], sched[1..][..i], chunk)
    ensures JamsAtEnd(lanes, sched[..i + 1], chunk)
  {
    hide LaneOk, EntryClear, Past;
    assert sched[..i + 1][1..] == sched[1..][..i] && sched[..i + 1][0] == sched[0];
  }

  lemma PastLane(lanes: map<Byte, Lane>, k: Byte, chunk: ChunkSize)
    requires AllOk(lanes, chunk) && k in lanes && lanes[k].ws != []
    ensures LaneOk(lanes[k], k, chunk) && forall i :: 0 <= i < |lanes[k].ws| ==> lanes[k].ws[i].fmt == 0
    ensures AllOk(lanes[k := Past(lanes[k], k, chunk)], chunk)
    ensures var l, l2 := lanes[k], Past(lanes[k], k, chunk); EntryClear(l) ==> (WiresClear(l.ws) <==> EntryClear(l2) && WiresClear(l2.ws))
  {
    hide Absolute, Past, LaneOk, EntryClear, WiresClear;
    AbsoluteLane(lanes, k, chunk);
    ClearPast(lanes[k], k, chunk);
    PastOk(lanes[k], k, chunk);
  }

  lemma AllSent(lanes: map<Byte, Lane>, sched: seq<Tagged>, j: Byte, chunk: ChunkSize)
    requires AllOk(lanes, chunk) && Merges(sched, lanes, chunk) && |sched| == 0 && j in lanes
    ensures EntryClear(lanes[j]) && WiresClear(lanes[j].ws)
  {
    assert LaneOk(lanes[j], j, chunk) && LaneChunks(lanes[j], j, chunk) == Project(sched, j);
  }

  lemma {:induction false} FallsOutOfStep(h: Policy, r: Run, lanes: map<Byte, Lane>, sched: seq<Tagged>, chunk: ChunkSize)
    requires KeepsAll(h) && Standing(r, lanes, sched, chunk) && JamsAtEnd(lanes, sched, chunk)
    ensures !InStep(Woken(h, r))
    decreases |sched|
  {
    hide Woken, Safe, InStep, Past, LaneOk, EntryClear, Begins, NextChunk, Absolute;
    var k := sched[0].csId;
    if |sched| == 1 {
      NextLane(sched, lanes, chunk);
      AbsoluteLane(lanes, k, chunk);
      PastOk(lanes[k], k, chunk);
      BeginsStep(sched, lanes, Past(lanes[k], k, chunk), chunk);
      NotStarted(lanes[k], k, chunk);
      assert sched[1..] == [] && Joined(sched[1..]) == [];
      assert r.rest == sched[0].chunk + [];
      Jammed(h, r, lanes[k], k, chunk);
    } else {
      var r2 := ChunkStep(h, r, lanes, sched, chunk);
      FallsOutOfStep(h, r2, lanes[k := Past(lanes[k], k, chunk)], sched[1..], chunk);
    }
  }

  lemma NotStarted(l: Lane, k: Byte, chunk: ChunkSize)
    requires LaneOk(l, k, chunk) && !EntryClear(l) && l.ws[0].fmt == 0
    ensures l.sent == 0 && LaneSlot(l, k, chunk) == l.base
  {}

  // ---------- written streams ----------

  lemma {:induction false} BeginsPrefix(sched: seq<Tagged>, i: nat, k: Byte)
    requires i <= |sched|
    ensures Project(sched[..i], k) <= Project(sched, k)
    decreases |sched|
  {
    if i > 0 {
      assert sched[..i][1..] == sched[1..][..i - 1];
      BeginsPrefix(sched[1..], i - 1, k);
    }
  }

  /** The reader with the first `i` chunks of a written stream. */
  function Given(sched: seq<Tagged>, i: nat, chunk: ChunkSize): (r: Run)
    requires i <= |sched|
    ensures Safe(r)
  {
    StartIsSafe(chunk);
    AppendSafe(Start(chunk), Joined(sched[..i]));
    Append(Start(chunk), Joined(sched[..i]))
  }

  lemma GivenStands(msgs: map<Byte, seq<Message>>, sched: seq<Tagged>, chunk: ChunkSize, i: nat)
    requires forall k <- msgs :: ParsableId(k) && AllFit(msgs[k], chunk)
    requires forall k <- msgs :: Project(sched, k) == Written(msgs[k], k, chunk)
    requires forall e <- sched :: e.csId in msgs
    requires i <= |sched|
    ensures var lanes := NewLanes(msgs, chunk);
      && Standing(Given(sched, i, chunk), lanes, sched[..i], chunk)
      && Merges(sched, lanes, chunk) && AllOk(lanes, chunk)
  {
    hide AllFit, Written, Project, Safe, LaneOk, LaneChunks, Absolute, NewLane;
    var lanes := NewLanes(msgs, chunk);
    NewLanesReady(msgs, sched, chunk);
    NewLanesAbsolute(msgs, chunk);
    forall k | k in lanes
      ensures Project(sched[..i], k) <= LaneChunks(lanes[k], k, chunk)
    {
      BeginsPrefix(sched, i, k);
    }
  }

  lemma NewLanesAbsolute(msgs: map<Byte, seq<Message>>, chunk: ChunkSize)
    requires forall k <- msgs :: AllFit(msgs[k], chunk)
    ensures Absolute(NewLanes(msgs, chunk))
  {
    hide AllFit;
    forall k | k in msgs
      ensures forall i :: 0 <= i < |NewLane(msgs[k], chunk).ws| ==> NewLane(msgs[k], chunk).ws[i].fmt == 0
    {
      WiresAt(msgs[k], chunk);
    }
  }

  lemma NewLaneClear(ms: seq<Message>, chunk: ChunkSize)
    requires AllFit(ms, chunk)
    ensures EntryClear(NewLane(ms, chunk)) && (WiresClear(NewLane(ms, chunk).ws) <==> TimesClear(ms))
  {
    WiresAt(ms, chunk);
    hide AllFit;
    var ws := NewLane(ms, chunk).ws;
    assert forall i :: 0 <= i < |ms| ==> ws[i].m == ms[i];
  }

  /** Written streams whose messages may be empty, merged at chunk boundaries in any order: the reader keeps in step
      with the writer, chunk by chunk, if and only if no empty message with an extended timestamp is directly followed
      on its chunk stream by a message without one. */
  lemma InStepExactly(h: Policy, msgs: map<Byte, seq<Message>>, sched: seq<Tagged>, chunk: ChunkSize)
    requires KeepsAll(h)
    requires forall k <- msgs :: ParsableId(k) && AllFit(msgs[k], chunk)
    requires forall k <- msgs :: Project(sched, k) == Written(msgs[k], k, chunk)
    requires forall e <- sched :: e.csId in msgs
    ensures (forall i :: 0 <= i <= |sched| ==> InStep(Woken(h, Given(sched, i, chunk)))) <==> forall k <- msgs :: TimesClear(msgs[k])
  {
    hide KeepsAll, AllFit, Written, Project, InStep, Woken, Given, Standing, Merges, AllOk, EntryClear, WiresClear, TimesClear, NewLane;
    var lanes := NewLanes(msgs, chunk);
    assert forall k <- msgs :: lanes[k] == NewLane(msgs[k], chunk);
    forall k | k in msgs
      ensures EntryClear(lanes[k]) && (WiresClear(lanes[k].ws) <==> TimesClear(msgs[k]))
    {
      NewLaneClear(msgs[k], chunk);
    }
    if j :| j in msgs && !TimesClear(msgs[j]) {
      GivenStands(msgs, sched, chunk, 0);
      var i := JamsSomewhere(lanes, sched, chunk, j);
      GivenStands(msgs, sched, chunk, i);
      FallsOutOfStep(h, Given(sched, i, chunk), lanes, sched[..i], chunk);
    } else {
      forall i | 0 <= i <= |sched|
        ensures InStep(Woken(h, Given(sched, i, chunk)))
      {
        GivenStands(msgs, sched, chunk, i);
        StaysInStep(h, Given(sched, i, chunk), lanes, sched[..i], chunk);
      }
    }
  }

  /** The messages that are not empty. */
  function Full(ms: seq<Message>): seq<Message> {
    if ms == [] then [] else (if ms[0].payload == [] then [] else [ms[0]]) + Full(ms[1..])
  }

  lemma {:induction false} ComingArrives(ms: seq<Message>, k: Byte, chunk: ChunkSize)
    requires AllFit(ms, chunk)
    ensures AllArrived(Coming(Wires(ms, chunk), k), Full(ms))
    decreases |ms|
  {
    if ms != [] {
      assert Wires(ms, chunk)[1..] == Wires(ms[1..], chunk);
      ComingArrives(ms[1..], k, chunk);
      var later, rest := Coming(Wires(ms[1..], chunk), k), Full(ms[1..]);
      var s := Received(FRESH_SLOT, k, Wire(0, ms[0]));
      assert Arrived(s, ms[0]);
      PrependArrived(s, ms[0], later, rest);
    }
  }

  lemma PrependArrived(s: Slot, m: Message, later: seq<Slot>, rest: seq<Message>)
    requires Arrived(s, m) && AllArrived(later, rest)
    ensures AllArrived([s] + later, [m] + rest)
  {}

  /** And then the messages that are not empty arrive, for each chunk stream in order, whatever the interleaving and
      whatever the cuts, once the loop has been woken. */
  lemma FullMessagesArrive(h: Policy, msgs: map<Byte, seq<Message>>, sched: seq<Tagged>, chunk: ChunkSize, pieces: seq<seq<Byte>>)
    requires KeepsAll(h)
    requires forall k <- msgs :: ParsableId(k) && AllFit(msgs[k], chunk) && TimesClear(msgs[k])
    requires forall k <- msgs :: Project(sched, k) == Written(msgs[k], k, chunk)
    requires forall e <- sched :: e.csId in msgs
    requires Flatten(pieces) == Joined(sched)
    ensures Safe(Feed(h, Start(chunk), pieces))
    ensures var d := Woken(h, Feed(h, Start(chunk), pieces));
      && InStep(d)
      && (forall i :: 0 <= i < |d.out| ==> d.out[i].csId in msgs)
      && forall k <- msgs :: AllArrived(Of(d.out, k), Full(msgs[k])) && TimesArrive(Of(d.out, k), Full(msgs[k]))
  {
    hide KeepsAll, AllFit, Written, Project, InStep, Woken, Safe, Merges, AllOk, EntryClear, WiresClear, TimesClear, AllArrived, TimesArrive, Of,
      Begins, Ready, Absolute, Joined, Coming, Feed, Flatten, Wires;
    var lanes := NewLanes(msgs, chunk);
    assert sched[..|sched|] == sched;
    StartIsSafe(chunk);
    CutsOnlyDelay(h, Start(chunk), pieces);
    GivenStands(msgs, sched, chunk, |sched|);
    var r := Given(sched, |sched|, chunk);
    assert AllClear(lanes) by {
      forall k | k in lanes
        ensures EntryClear(lanes[k]) && WiresClear(lanes[k].ws)
      {
        NewLaneClear(msgs[k], chunk);
      }
    }
    StaysInStep(h, r, lanes, sched, chunk);
    AllCome(h, r, lanes, sched, chunk);
    var d := Woken(h, r);
    assert d.out[0..] == d.out;
    forall k | k in msgs
      ensures AllArrived(Of(d.out, k), Full(msgs[k])) && TimesArrive(Of(d.out, k), Full(msgs[k]))
    {
      assert k in lanes;
      ComingArrives(msgs[k], k, chunk);
      TimesAsSent(Of(d.out, k), Full(msgs[k]));
    }
  }
}
