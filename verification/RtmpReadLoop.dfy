/** The read loop of a connection over the parser object and the receive buffer. */
module RtmpReadLoop {
  import opened Bytes
  import opened ChunkSpec
  import opened ChunkStream
  import opened ChunkOutcomes
  import opened BufferReaders
  import opened RtmpChunks

  /** The buffers handed out. */
  ghost function Payloads(emitted: seq<RtmpMessage>): set<array<Byte>> {
    set i | 0 <= i < |emitted| && emitted[i].payload != null :: emitted[i].payload
  }

  /** The messages handed out still carry, in the buffers that were handed out with them, what the
      specification says; none of those buffers is one the parser may write to. */
  ghost predicate Untouched(emitted: seq<RtmpMessage>, slots: seq<Slot>, parser: RtmpChunk)
    reads parser, Payloads(emitted)
  {
    && |emitted| == |slots|
    && forall i :: 0 <= i < |emitted| ==>
         && EntryOk(emitted[i]) && emitted[i].payload != null && emitted[i].payload !in parser.Buffers()
         && SlotOf(emitted[i]) == slots[i]
  }

  ghost function Now(parser: RtmpChunk, out: seq<Slot>, buffer: BufferReader, status: Status): Run
    requires parser.Valid() && buffer.Valid()
    reads parser, parser.Buffers(), buffer, buffer.buffer
  {
    Run(parser.State(), out, buffer.Contents(), status)
  }

  method Snapshot(m: RtmpMessage) returns (s: Slot)
    requires EntryOk(m)
    ensures s == SlotOf(m)
  {
    var data := [];
    if m.payload != null {
      data := m.payload[..m.index];
    }
    s := Slot(m.timeStamp, m.length, m.typeId, m.streamId, m.ext, m.internalTs, m.csId, m.payload != null, data);
  }

  /** Acts on a completed message, the last of `out`. */
  method HandleMessage(h: Policy, parser: RtmpChunk, out: seq<Slot>, ghost rest: seq<Byte>) returns (ok: bool)
    requires parser.Valid() && parser.phase == InHeader && out != []
    requires !Handle(h, parser.State(), out, rest).status.Crashed?
    modifies parser`messages, parser`inChunkSize
    ensures parser.Valid() && parser.Buffers() <= old(parser.Buffers())
    ensures Handle(h, old(parser.State()), out, rest) == Run(parser.State(), out, rest, if ok then Running else Refused)
  {
    var m := out[|out| - 1];
    if m.typeId == SET_CHUNK_SIZE {
      parser.SetInChunkSize(ReadU32BE(m.data, 0));
      return true;
    }
    match h(out) {
      case Keep => return true;
      case ForgetStreams =>
        parser.Clear();
        return true;
      case Refuse => return false;
    }
  }

  /** One pass of the loop. */
  method Pass(h: Policy, parser: RtmpChunk, buffer: BufferReader, history: seq<Slot>)
    returns (ok: bool, used: nat, msg: Option<RtmpMessage>, out: seq<Slot>)
    requires parser.Valid() && buffer.Valid() && buffer.buffer !in parser.Buffers()
    requires !Advance(h, Now(parser, history, buffer, Running)).status.Crashed?
    modifies parser, parser.Buffers(), buffer`readIndex, buffer`writeIndex
    ensures parser.Valid() && buffer.Valid() && buffer.buffer !in parser.Buffers()
    ensures fresh(parser.Buffers() - old(parser.Buffers()))
    ensures Advance(h, old(Now(parser, history, buffer, Running))) == Now(parser, out, buffer, if ok then Running else Refused)
    ensures |buffer.Contents()| + used == |old(buffer.Contents())|
    ensures match msg
            case None => out == history
            case Some(m) =>
              EntryOk(m) && m.payload != null && m.payload in old(parser.Buffers()) && m.payload !in parser.Buffers()
              && out == history + [SlotOf(m)]
  {
    hide Parse, Handle, SlotOf, EntryOk;
    parser.ValidIsReachable();
    ParseSafe(parser.State(), buffer.Contents());
    used, msg := parser.Parse(buffer);
    ok, out := true, history;
    if msg.Some? {
      var s := Snapshot(msg.value);
      out := history + [s];
      ok := HandleMessage(h, parser, out, buffer.Contents());
    }
  }

  lemma PayloadsMore(emitted: seq<RtmpMessage>, m: RtmpMessage)
    requires m.payload != null
    ensures Payloads(emitted + [m]) <= Payloads(emitted) + {m.payload}
  {}

  /** One pass, with the messages handed out since the history had `base` entries. */
  method PassKeeping(h: Policy, parser: RtmpChunk, buffer: BufferReader, history: seq<Slot>, emitted: seq<RtmpMessage>, ghost base: nat)
    returns (ok: bool, used: nat, emitted': seq<RtmpMessage>, out: seq<Slot>)
    requires parser.Valid() && buffer.Valid() && buffer.buffer !in parser.Buffers()
    requires base <= |history| && Untouched(emitted, history[base..], parser)
    requires !Advance(h, Now(parser, history, buffer, Running)).status.Crashed?
    modifies parser, parser.Buffers(), buffer`readIndex, buffer`writeIndex
    ensures parser.Valid() && buffer.Valid() && buffer.buffer !in parser.Buffers()
    ensures fresh(parser.Buffers() - old(parser.Buffers()))
    ensures Advance(h, old(Now(parser, history, buffer, Running))) == Now(parser, out, buffer, if ok then Running else Refused)
    ensures |buffer.Contents()| + used == |old(buffer.Contents())|
    ensures history <= out && Untouched(emitted', out[base..], parser)
    ensures Payloads(emitted') <= Payloads(emitted) + old(parser.Buffers())
  {
    hide Advance, TableOk, SlotsOf, Unfinished;
    var msg;
    ok, used, msg, out := Pass(h, parser, buffer, history);
    forall i | 0 <= i < |emitted|
      ensures emitted[i].payload !in parser.Buffers() && SlotOf(emitted[i]) == history[base..][i]
    {
      assert SlotOf(emitted[i]) == old(SlotOf(emitted[i]));
    }
    emitted' := emitted;
    if msg.Some? {
      assert out[base..] == history[base..] + [SlotOf(msg.value)];
      PayloadsMore(emitted, msg.value);
      emitted' := emitted + [msg.value];
    }
  }

  /** One pass, and whether the loop goes on. */
  method Turn(h: Policy, parser: RtmpChunk, buffer: BufferReader, history: seq<Slot>, emitted: seq<RtmpMessage>, ghost base: nat)
    returns (ok: bool, more: bool, emitted': seq<RtmpMessage>, out: seq<Slot>)
    requires parser.Valid() && buffer.Valid() && buffer.buffer !in parser.Buffers()
    requires base <= |history| && Untouched(emitted, history[base..], parser)
    requires !Drain(h, Now(parser, history, buffer, Running)).status.Crashed?
    modifies parser, parser.Buffers(), buffer`readIndex, buffer`writeIndex
    ensures parser.Valid() && buffer.Valid() && buffer.buffer !in parser.Buffers()
    ensures fresh(parser.Buffers() - old(parser.Buffers()))
    ensures var r := Now(parser, out, buffer, if ok then Running else Refused);
      Drain(h, old(Now(parser, history, buffer, Running))) == if more then Drain(h, r) else r
    ensures more ==> ok && |buffer.Contents()| < |old(buffer.Contents())|
    ensures history <= out && Untouched(emitted', out[base..], parser)
    ensures Payloads(emitted') <= Payloads(emitted) + old(parser.Buffers())
  {
    hide Advance, Drain, TableOk, SlotsOf, Unfinished, Untouched;
    ghost var start := Now(parser, history, buffer, Running);
    PassDoesNotCrash(h, start);
    OnePass(h, start);
    var used;
    ok, used, emitted', out := PassKeeping(h, parser, buffer, history, emitted, base);
    var readable := buffer.Readable();
    more := ok && used > 0 && readable > 0;
    if readable == 0 {
      NothingToDrain(h, Now(parser, out, buffer, Running));
    }
  }

  /** The whole loop. The messages it hands out share the parser's buffers, and yet none of them is
      written to again: at the end each still holds what it held when it was completed. */
  method HandleChunk(h: Policy, parser: RtmpChunk, buffer: BufferReader, history: seq<Slot>)
    returns (ok: bool, emitted: seq<RtmpMessage>, out: seq<Slot>)
    requires parser.Valid() && buffer.Valid() && buffer.buffer !in parser.Buffers()
    requires !Drain(h, Now(parser, history, buffer, Running)).status.Crashed?
    modifies parser, parser.Buffers(), buffer`readIndex, buffer`writeIndex
    ensures parser.Valid() && buffer.Valid() && buffer.buffer !in parser.Buffers()
    ensures fresh(parser.Buffers() - old(parser.Buffers()))
    ensures Drain(h, old(Now(parser, history, buffer, Running))) == Now(parser, out, buffer, if ok then Running else Refused)
    ensures history <= out && Untouched(emitted, out[|history|..], parser)
    ensures forall p <- Payloads(emitted) :: p in old(parser.Buffers()) || fresh(p)
    ensures !ok <==> exists i :: |history| <= i < |out| && Refuses(h, out, i)
    ensures forall i :: |history| <= i < |out| && Refuses(h, out, i) ==> i == |out| - 1
    ensures parser.inChunkSize == SizeAfterAll(old(parser.inChunkSize), out[|history|..])
  {
    ok, emitted, out := true, [], history;
    assert Payloads(emitted) == {};
    assert Untouched(emitted, out[|history|..], parser);
    hide Advance, Drain, Refuses, SizeAfterAll, TableOk, SlotsOf, Unfinished, Untouched, Payloads, Now, RtmpChunk.Valid, BufferReader.Valid, BufferReader.Contents;
    ghost var start := Now(parser, history, buffer, Running);
    Started(parser, history, buffer);
    var more := true;
    while more
      invariant parser.Valid() && buffer.Valid() && buffer.buffer !in parser.Buffers()
      invariant more ==> ok
      invariant fresh(parser.Buffers() - old(parser.Buffers()))
      invariant var r := Now(parser, out, buffer, if ok then Running else Refused); Drain(h, start) == if more then Drain(h, r) else r
      invariant history <= out && Untouched(emitted, out[|history|..], parser)
      invariant forall p <- Payloads(emitted) :: p in old(parser.Buffers()) || fresh(p)
      decreases more, |buffer.Contents()|
    {
      ok, more, emitted, out := Turn(h, parser, buffer, out, emitted, |history|);
    }
    Outcome(h, start, parser, out, buffer, ok);
  }

  /** What the end of the loop says about the messages. */
  lemma Outcome(h: Policy, start: Run, parser: RtmpChunk, out: seq<Slot>, buffer: BufferReader, ok: bool)
    requires parser.Valid() && buffer.Valid() && start.status.Running?
    requires Drain(h, start) == Now(parser, out, buffer, if ok then Running else Refused)
    ensures start.out <= out && (!ok <==> exists i :: |start.out| <= i < |out| && Refuses(h, out, i))
    ensures forall i :: |start.out| <= i < |out| && Refuses(h, out, i) ==> i == |out| - 1
    ensures parser.inChunkSize == SizeAfterAll(start.parser.inChunk, out[|start.out|..])
  {
    hide Drain, Refuses, SizeAfterAll;
    DrainRefusedExactly(h, start);
  }

  lemma Started(parser: RtmpChunk, out: seq<Slot>, buffer: BufferReader)
    requires parser.Valid() && buffer.Valid()
    ensures var r := Now(parser, out, buffer, Running); r.status.Running? && r.out == out && r.parser.inChunk == parser.inChunkSize
  {}

  lemma OnePass(h: Policy, r: Run)
    requires r.status.Running?
    ensures var a := Advance(h, r);
      Drain(h, r) == if a.status.Running? && |a.rest| < |r.rest| then Drain(h, a) else a
  {
    assert r.rest == [] ==> r.rest[0..] == r.rest;
  }

  lemma NothingToDrain(h: Policy, r: Run)
    requires r.rest == []
    ensures Drain(h, r) == r
  {}

  lemma PassDoesNotCrash(h: Policy, r: Run)
    requires r.status.Running? && !Drain(h, r).status.Crashed?
    ensures !Advance(h, r).status.Crashed?
  {}

  /** A readable socket: one receive call, then the loop over everything unread. Buffers handed out
      earlier are in neither frame, and the new buffers are fresh, so they keep their bytes over any number
      of further reads. */
  method OnRead(h: Policy, parser: RtmpChunk, buffer: BufferReader, history: seq<Slot>, answer: Received)
    returns (ok: bool, n: int, emitted: seq<RtmpMessage>, out: seq<Slot>)
    requires parser.Valid() && buffer.Valid() && buffer.buffer !in parser.Buffers()
    requires answer.Data? ==> |answer.bytes| <= MAX_BYTES_PER_READ
    requires forall got: seq<Byte> :: got == [] || answer == Data(got) ==>
               !Drain(h, Append(Now(parser, history, buffer, Running), got)).status.Crashed?
    modifies parser, parser.Buffers(), buffer, buffer.buffer
    ensures parser.Valid() && buffer.Valid() && buffer.buffer !in parser.Buffers()
    ensures fresh(parser.Buffers() - old(parser.Buffers())) && (buffer.buffer == old(buffer.buffer) || fresh(buffer.buffer))
    ensures n < 0 ==> !ok && Now(parser, out, buffer, Running) == old(Now(parser, history, buffer, Running)) && emitted == [] && out == history
    ensures n >= 0 ==>
      && n <= (if answer.Data? then |answer.bytes| else 0)
      && Now(parser, out, buffer, if ok then Running else Refused) ==
           Drain(h, Append(old(Now(parser, history, buffer, Running)), (if n > 0 then answer.bytes else [])))
    ensures history <= out && Untouched(emitted, out[|history|..], parser)
    ensures buffer.buffer !in Payloads(emitted) && forall p <- Payloads(emitted) :: p in old(parser.Buffers()) || fresh(p)
    ensures n >= 0 ==> (!ok <==> exists i :: |history| <= i < |out| && Refuses(h, out, i))
  {
    hide Drain, Refuses, SizeAfterAll, TableOk, Unfinished, Untouched, Payloads;
    emitted, out := [], history;
    NothingHandedOut(history, parser);
    n := buffer.ReadFromSocket(answer);
    assert parser.State() == old(parser.State());
    if n < 0 {
      return false, n, [], history;
    }
    ghost var got: seq<Byte> := if n > 0 then answer.bytes else [];
    assert Now(parser, history, buffer, Running) == Append(old(Now(parser, history, buffer, Running)), got);
    ghost var before := parser.Buffers();
    assert before == old(parser.Buffers());
    ok, emitted, out := HandleChunk(h, parser, buffer, history);
    assert buffer.buffer !in before;
  }

  lemma NothingHandedOut(history: seq<Slot>, parser: RtmpChunk)
    ensures Untouched([], history[|history|..], parser) && Payloads([]) == {}
  {}

  // ---------- a whole connection ----------

  /** What the reads may have delivered: the bytes of the answers in turn, or nothing when the buffer was
      at its limit. */
  ghost predicate Delivers(answers: seq<Received>, pieces: seq<seq<Byte>>) {
    |pieces| <= |answers| && forall i :: 0 <= i < |pieces| ==> pieces[i] == [] || answers[i] == Data(pieces[i])
  }

  lemma {:induction false} FeedSnoc(h: Policy, r: Run, pieces: seq<seq<Byte>>, piece: seq<Byte>)
    ensures Feed(h, r, pieces + [piece]) == Drain(h, Append(Feed(h, r, pieces), piece))
    decreases |pieces|
  {
    hide Drain;
    if pieces == [] {
      assert ([] + [piece])[1..] == [];
    } else {
      assert (pieces + [piece])[1..] == pieces[1..] + [piece];
      FeedSnoc(h, Drain(h, Append(r, pieces[0])), pieces[1..], piece);
    }
  }

  /** All messages handed out so far are intact, and none shares a buffer that may still be written to. */
  ghost predicate Kept(emitted: seq<RtmpMessage>, out: seq<Slot>, parser: RtmpChunk, buffer: BufferReader)
    reads parser, buffer`buffer, Payloads(emitted)
  {
    Untouched(emitted, out, parser) && buffer.buffer !in Payloads(emitted)
  }

  /** One more read: what was kept stays kept, and what is new is kept too. */
  method OnNext(h: Policy, parser: RtmpChunk, buffer: BufferReader, history: seq<Slot>, emitted: seq<RtmpMessage>, answer: Received)
    returns (ok: bool, n: int, emitted': seq<RtmpMessage>, out: seq<Slot>)
    requires parser.Valid() && buffer.Valid() && buffer.buffer !in parser.Buffers()
    requires answer.Data? ==> |answer.bytes| <= MAX_BYTES_PER_READ
    requires forall got: seq<Byte> :: got == [] || answer == Data(got) ==>
               !Drain(h, Append(Now(parser, history, buffer, Running), got)).status.Crashed?
    requires Kept(emitted, history, parser, buffer)
    modifies parser, parser.Buffers(), buffer, buffer.buffer
    ensures parser.Valid() && buffer.Valid() && buffer.buffer !in parser.Buffers()
    ensures fresh(parser.Buffers() - old(parser.Buffers())) && (buffer.buffer == old(buffer.buffer) || fresh(buffer.buffer))
    ensures n < 0 ==> !ok && Now(parser, out, buffer, Running) == old(Now(parser, history, buffer, Running))
    ensures n >= 0 ==>
      && n <= (if answer.Data? then |answer.bytes| else 0)
      && Now(parser, out, buffer, if ok then Running else Refused) ==
           Drain(h, Append(old(Now(parser, history, buffer, Running)), (if n > 0 then answer.bytes else [])))
    ensures Kept(emitted', out, parser, buffer)
  {
    hide Drain, Now, SlotOf, Refuses, TableOk, Unfinished;
    var more;
    ok, n, more, out := OnRead(h, parser, buffer, history, answer);
    forall i | 0 <= i < |emitted|
      ensures emitted[i].payload !in parser.Buffers() && emitted[i].payload != buffer.buffer && SlotOf(emitted[i]) == history[i]
    {
      assert SlotOf(emitted[i]) == old(SlotOf(emitted[i]));
    }
    emitted' := emitted + more;
    assert out == history + out[|history|..];
  }

  /** A whole connection: reads until one fails or a message is refused. Everything handed out since the
      start is still intact at the end, and the outcome is that of feeding the pieces to the loop. */
  method OnReads(h: Policy, parser: RtmpChunk, buffer: BufferReader, answers: seq<Received>)
    returns (ok: bool, emitted: seq<RtmpMessage>, out: seq<Slot>, ghost pieces: seq<seq<Byte>>)
    requires parser.Valid() && buffer.Valid() && buffer.buffer !in parser.Buffers()
    requires forall a <- answers :: a.Data? ==> |a.bytes| <= MAX_BYTES_PER_READ
    requires forall pieces :: Delivers(answers, pieces) ==> !Feed(h, Now(parser, [], buffer, Running), pieces).status.Crashed?
    modifies parser, parser.Buffers(), buffer, buffer.buffer
    ensures parser.Valid() && buffer.Valid() && Delivers(answers, pieces) && (ok ==> |pieces| == |answers|)
    ensures Kept(emitted, out, parser, buffer)
    ensures var r := Feed(h, old(Now(parser, [], buffer, Running)), pieces);
      r == Now(parser, out, buffer, r.status) && (ok ==> r.status == Running) && !r.status.Failed?
  {
    hide Drain, Kept;
    ok, emitted, out, pieces := true, [], [], [];
    NothingKept(parser, buffer);
    ghost var start := Now(parser, [], buffer, Running);
    for i := 0 to |answers|
      invariant ok && parser.Valid() && buffer.Valid() && buffer.buffer !in parser.Buffers()
      invariant fresh(parser.Buffers() - old(parser.Buffers()))
      invariant buffer.buffer == old(buffer.buffer) || fresh(buffer.buffer)
      invariant |pieces| == i && Delivers(answers, pieces)
      invariant Feed(h, start, pieces) == Now(parser, out, buffer, Running)
      invariant Kept(emitted, out, parser, buffer)
    {
      assert answers[i] in answers;
      NextPiece(h, start, answers, pieces);
      var n;
      ok, n, emitted, out := OnNext(h, parser, buffer, out, emitted, answers[i]);
      if n < 0 {
        return;
      }
      ghost var piece: seq<Byte> := if n > 0 then answers[i].bytes else [];
      FeedSnoc(h, start, pieces, piece);
      pieces := pieces + [piece];
      if !ok {
        return;
      }
    }
  }

  lemma NothingKept(parser: RtmpChunk, buffer: BufferReader)
    ensures Kept([], [], parser, buffer)
  {}

  lemma NextPiece(h: Policy, r: Run, answers: seq<Received>, pieces: seq<seq<Byte>>)
    requires |pieces| < |answers| && Delivers(answers, pieces)
    requires forall pieces :: Delivers(answers, pieces) ==> !Feed(h, r, pieces).status.Crashed?
    ensures forall got: seq<Byte> :: got == [] || answers[|pieces|] == Data(got) ==>
              Delivers(answers, pieces + [got]) && !Drain(h, Append(Feed(h, r, pieces), got)).status.Crashed?
  {
    hide Delivers, Drain, Feed;
    forall got: seq<Byte> | got == [] || answers[|pieces|] == Data(got)
      ensures Delivers(answers, pieces + [got]) && !Drain(h, Append(Feed(h, r, pieces), got)).status.Crashed?
    {
      DeliversMore(answers, pieces, got);
      FeedSnoc(h, r, pieces, got);
    }
  }

  lemma DeliversMore(answers: seq<Received>, pieces: seq<seq<Byte>>, got: seq<Byte>)
    requires |pieces| < |answers| && Delivers(answers, pieces) && (got == [] || answers[|pieces|] == Data(got))
    ensures Delivers(answers, pieces + [got])
  {}
}
