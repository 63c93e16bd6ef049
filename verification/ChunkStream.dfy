/** The read loop of a connection: it calls the chunk parser until nothing more is consumed, and
    acts on each completed message. Network reads cut the byte stream anywhere. */
module ChunkStream {
  import opened Bytes
  import opened ChunkSpec

  const SET_CHUNK_SIZE: Byte := 1

  /** What handling a message does to the parser: nothing, forget all message entries (a stream was
      deleted), or end the connection. Handlers are deterministic, so the effect is a function of
      the messages handled so far, the last one included. */
  datatype Effect = Keep | ForgetStreams | Refuse

  type Policy = seq<Slot> -> Effect

  /** `Crashed` stands for a step the language gives no meaning to. */
  datatype Status = Running | Failed | Refused | Crashed

  datatype Run = Run(parser: Parser, out: seq<Slot>, rest: seq<Byte>, status: Status)

  function Handle(h: Policy, p: Parser, out: seq<Slot>, rest: seq<Byte>): Run
    requires out != []
  {
    var m := out[|out| - 1];
    if m.typeId == SET_CHUNK_SIZE then
      if |m.data| < 4 then Run(p, out, rest, Crashed)
      else Run(p.(inChunk := ReadU32BE(m.data, 0)), out, rest, Running)
    else
      match h(out)
      case Keep => Run(p, out, rest, Running)
      case ForgetStreams => Run(p.(slots := map[]), out, rest, Running)
      case Refuse => Run(p, out, rest, Refused)
  }

  /** One pass through the body of the read loop. */
  function Advance(h: Policy, r: Run): Run {
    if !r.status.Running? then r
    else
      match Parse(r.parser, r.rest)
      case Undefined => r.(status := Crashed)
      case Result(p, used, message) =>
        if used < 0 || used > |r.rest| then r.(parser := p, status := Failed)
        else
          var rest := r.rest[used..];
          if message.Some? then Handle(h, p, r.out + [message.value], rest)
          else r.(parser := p, rest := rest)
  }

  lemma RestShrinks(h: Policy, r: Run)
    ensures |Advance(h, r).rest| <= |r.rest|
  {}

  /** The whole loop: it goes on while a pass consumes something and bytes are left. */
  function Drain(h: Policy, r: Run): Run
    decreases |r.rest|
  {
    if !r.status.Running? || r.rest == [] then r
    else
      var a := Advance(h, r);
      if a.status.Running? && |a.rest| < |r.rest| then Drain(h, a) else a
  }

  /** A network read appends a piece to the unread bytes and runs the loop. */
  function Append(r: Run, piece: seq<Byte>): Run {
    r.(rest := r.rest + piece)
  }

  function Feed(h: Policy, r: Run, pieces: seq<seq<Byte>>): Run
    decreases |pieces|
  {
    if pieces == [] then r
    else Feed(h, Drain(h, Append(r, pieces[0])), pieces[1..])
  }

  function Flatten(pieces: seq<seq<Byte>>): seq<Byte> {
    if pieces == [] then [] else pieces[0] + Flatten(pieces[1..])
  }

  // ---------- safety of whole runs ----------

  ghost predicate Safe(r: Run) {
    && Reachable(r.parser)
    && !r.status.Failed?
    && (forall m <- r.out :: 0 < |m.data| == m.length && m.hasBuffer)
  }

  lemma AppendSafe(r: Run, more: seq<Byte>)
    ensures Safe(Append(r, more)) <==> Safe(r)
  {}

  lemma AdvanceSafe(h: Policy, r: Run)
    requires Safe(r)
    ensures Safe(Advance(h, r))
  {
    if r.status.Running? && Parse(r.parser, r.rest) != Undefined {
      ParseSafe(r.parser, r.rest);
    }
  }

  lemma {:induction false} DrainSafe(h: Policy, r: Run)
    requires Safe(r)
    ensures Safe(Drain(h, r))
    decreases |r.rest|
  {
    if r.status.Running? && r.rest != [] {
      AdvanceSafe(h, r);
      var a := Advance(h, r);
      if a.status.Running? && |a.rest| < |r.rest| {
        DrainSafe(h, a);
      }
    }
  }

  lemma {:induction false} DrainKeepsHistory(h: Policy, r: Run)
    ensures r.out <= Drain(h, r).out
    decreases |r.rest|
  {
    if r.status.Running? && r.rest != [] {
      var a := Advance(h, r);
      assert r.out <= a.out;
      if a.status.Running? && |a.rest| < |r.rest| {
        DrainKeepsHistory(h, a);
      }
    }
  }

  /** Whatever bytes arrive, in whatever pieces: the parser never reports a failure, its state stays
      reachable, and messages already handed out stay a prefix of the history. */
  lemma {:induction false} FeedSafe(h: Policy, r: Run, pieces: seq<seq<Byte>>)
    requires Safe(r)
    ensures Safe(Feed(h, r, pieces))
    ensures r.out <= Feed(h, r, pieces).out
    decreases |pieces|
  {
    if pieces != [] {
      DrainSafe(h, Append(r, pieces[0]));
      DrainKeepsHistory(h, Append(r, pieces[0]));
      FeedSafe(h, Drain(h, Append(r, pieces[0])), pieces[1..]);
    }
  }

  // ---------- one pass with more bytes behind ----------

  /** The pass ends in front of the same bytes without having moved to another phase: it only
      waits for more. */
  predicate Waits(h: Policy, r: Run) {
    var a := Advance(h, r);
    a.status.Running? && |a.rest| == |r.rest| && a.parser.phase == r.parser.phase
  }

  /** The pass ends an empty message body: nothing consumed, but a header is expected next. */
  predicate EndsEmptyBody(h: Policy, r: Run) {
    var a := Advance(h, r);
    a.status.Running? && |a.rest| == |r.rest| && a.parser.phase != r.parser.phase
  }

  lemma HeadWithMore(bytes: seq<Byte>, more: seq<Byte>)
    requires bytes != [] && ReadHead(bytes).Some?
    ensures ReadHead(bytes + more) == ReadHead(bytes)
  {}

  lemma HeaderWithMore(p: Parser, bytes: seq<Byte>, more: seq<Byte>)
    requires bytes != []
    requires ParseHeader(p, bytes).Result? && ParseHeader(p, bytes).used > 0
    ensures ParseHeader(p, bytes + more) == ParseHeader(p, bytes)
    ensures ParseHeader(p, bytes).used <= |bytes|
  {
    HeadWithMore(bytes, more);
    var b := bytes + more;
    assert forall i :: 0 <= i < |bytes| ==> b[i] == bytes[i];
  }

  lemma BodyWithMore(p: Parser, bytes: seq<Byte>, more: seq<Byte>)
    requires p.current >= 0 ==> |bytes| >= BodySize(Lookup(p.slots, p.current), p.inChunk)
    ensures ParseBodyBytes(p, bytes + more) == ParseBodyBytes(p, bytes)
  {
    if p.current >= 0 {
      var n := BodySize(Lookup(p.slots, p.current), p.inChunk);
      assert (bytes + more)[..n] == bytes[..n];
    }
  }

  /** The call leaves everything to be read where it is, and expects the same kind of bytes next. */
  predicate CallWaits(p: Parser, bytes: seq<Byte>) {
    var d := Parse(p, bytes);
    d.Result? && d.used == 0 && d.parser.phase == p.phase
  }

  lemma ParseWithMore(p: Parser, bytes: seq<Byte>, more: seq<Byte>)
    requires Reachable(p) && bytes != [] && !CallWaits(p, bytes)
    ensures Parse(p, bytes + more) == Parse(p, bytes)
  {
    if p.phase == InHeader {
      HeaderSafe(p, bytes);
      HeaderWithMore(p, bytes, more);
    } else {
      BodyWithMore(p, bytes, more);
    }
  }

  /** A pass that does not wait does the same when more bytes are behind. */
  lemma AdvanceWithMore(h: Policy, r: Run, more: seq<Byte>)
    requires Safe(r) && r.rest != [] && !Waits(h, r)
    ensures Advance(h, Append(r, more)) == Append(Advance(h, r), more)
  {
    hide ParseHeader, ParseBodyBytes;
    if r.status.Running? {
      var d := Parse(r.parser, r.rest);
      if d != Undefined {
        ParseSafe(r.parser, r.rest);
      }
      ParseWithMore(r.parser, r.rest, more);
      if d != Undefined {
        assert (r.rest + more)[d.used..] == r.rest[d.used..] + more;
      }
    }
  }

  /** A pass that waits may already have changed the message entry, but a later pass, with more
      bytes, ends the same whether or not the first one was made. */
  lemma AdvanceRetried(h: Policy, r: Run, more: seq<Byte>)
    requires Safe(r) && Waits(h, r)
    ensures Advance(h, r).rest == r.rest && Advance(h, r).out == r.out
    ensures Advance(h, Append(Advance(h, r), more)) == Advance(h, Append(r, more))
  {
    var a := Advance(h, r);
    if r.rest != [] {
      ParseSafe(r.parser, r.rest);
      if r.parser.phase == InHeader && ReadHead(r.rest).Some? {
        HeadWithMore(r.rest, more);
        TouchAgain(r.parser, r.rest, more);
      } else if r.parser.phase == InBody {
        assert a.parser == r.parser;
      }
    }
  }

  lemma TouchAgain(p: Parser, bytes: seq<Byte>, more: seq<Byte>)
    requires bytes != [] && p.phase == InHeader && ReadHead(bytes).Some? && ParseHeader(p, bytes).Result?
    requires ParseHeader(p, bytes).used == 0
    ensures ParseHeader(ParseHeader(p, bytes).parser, bytes + more) == ParseHeader(p, bytes + more)
  {
    HeadWithMore(bytes, more);
    var q := ParseHeader(p, bytes).parser;
    var hd := ReadHead(bytes).value;
    var s := Touch(Lookup(p.slots, hd.csId), hd);
    assert q.slots == p.slots[hd.csId as int := s];
    assert Touch(s, hd) == s;
    if |bytes + more| >= hd.size + 4 {
      var t := Stamp(s, hd, ReadU32BE(bytes + more, hd.size));
      assert q.slots[hd.csId as int := t] == p.slots[hd.csId as int := t];
    }
  }

  // ---------- fragmentation ----------

  lemma {:induction false} DrainShrinks(h: Policy, r: Run)
    ensures |Drain(h, r).rest| <= |r.rest|
    decreases |r.rest|
  {
    if r.status.Running? && r.rest != [] {
      var a := Advance(h, r);
      if a.status.Running? && |a.rest| < |r.rest| {
        DrainShrinks(h, a);
      }
    }
  }

  /** One more pass would change nothing. */
  predicate Inert(h: Policy, r: Run) {
    Advance(h, r) == r
  }

  /** Running the loop on what is there and again when more arrives ends where one run over
      everything ends, provided that one run did not leave work undone. */
  lemma {:induction false} DrainInTwo(h: Policy, r: Run, more: seq<Byte>)
    requires Safe(r) && Inert(h, Drain(h, Append(r, more)))
    ensures Drain(h, Append(Drain(h, r), more)) == Drain(h, Append(r, more))
    decreases |r.rest|
  {
    if r.status.Running? && r.rest != [] {
      AdvanceSafe(h, r);
      var a := Advance(h, r);
      if Waits(h, r) {
        AdvanceRetried(h, r, more);
      } else {
        AdvanceWithMore(h, r, more);
        if a.status.Running? && |a.rest| < |r.rest| {
          DrainInTwo(h, a, more);
        }
      }
    }
  }

  lemma {:induction false} FeedAgrees(h: Policy, r: Run, pieces: seq<seq<Byte>>)
    requires Safe(r) && pieces != [] && Inert(h, Drain(h, Append(r, Flatten(pieces))))
    ensures Feed(h, r, pieces) == Drain(h, Append(r, Flatten(pieces)))
    decreases |pieces|
  {
    hide Drain, Safe, Inert, Feed, Flatten;
    var first, others := Append(r, pieces[0]), pieces[1..];
    FeedFirst(h, r, pieces);
    AppendSafe(r, pieces[0]);
    DrainInTwo(h, first, Flatten(others));
    DrainSafe(h, first);
    if others == [] {
      assert Append(first, []) == first;
    } else {
      FeedAgrees(h, Drain(h, first), others);
    }
  }

  /** However the bytes are cut, the outcome is that of a single read. */
  ghost predicate CutsDoNotMatter(h: Policy, r: Run, bytes: seq<Byte>) {
    forall pieces: seq<seq<Byte>> :: pieces != [] && Flatten(pieces) == bytes ==>
      Feed(h, r, pieces) == Drain(h, Append(r, bytes))
  }

  /** The loop is independent of fragmentation exactly for the byte streams on which a single run
      leaves nothing to do. Messages, parser state, unread bytes and status all agree. */
  lemma FragmentationExactly(h: Policy, r: Run, bytes: seq<Byte>)
    requires Safe(r)
    ensures CutsDoNotMatter(h, r, bytes) <==> Inert(h, Drain(h, Append(r, bytes)))
  {
    var d := Drain(h, Append(r, bytes));
    if Inert(h, d) {
      forall pieces: seq<seq<Byte>> | pieces != [] && Flatten(pieces) == bytes
        ensures Feed(h, r, pieces) == d
      {
        FeedAgrees(h, r, pieces);
      }
    }
    if CutsDoNotMatter(h, r, bytes) {
      var none: seq<seq<Byte>> := [[]];
      var pieces := [bytes] + none;
      assert pieces[1..] == none && none[1..] == [];
      assert Flatten(none) == [] && Flatten(pieces) == bytes;
      assert Append(d, []) == d;
      assert Feed(h, d, none) == Feed(h, Drain(h, d), []) == Drain(h, d);
      assert Feed(h, r, pieces) == Feed(h, d, none);
      if d.status.Running? && d.rest != [] {
        var a := Advance(h, d);
        if a.status.Running? && |a.rest| < |d.rest| {
          DrainShrinks(h, a);
        }
      }
    }
  }

  /** A pass ends an empty body exactly when a message of length zero has been announced and a byte
      follows its header. */
  lemma EmptyBodyIsZeroLength(h: Policy, r: Run)
    requires Safe(r)
    ensures EndsEmptyBody(h, r) <==>
            r.status.Running? && r.rest != [] && r.parser.phase == InBody && r.parser.slots[r.parser.current].length == 0
  {
    if r.status.Running? && r.rest != [] && r.parser.phase == InHeader {
      HeaderSafe(r.parser, r.rest);
    }
  }

  /** Where the loop gives up although bytes are left: behind the first pass that ends an empty body. */
  function GivesUp(h: Policy, r: Run): Option<Run>
    decreases |r.rest|
  {
    if !r.status.Running? || r.rest == [] then None
    else
      var a := Advance(h, r);
      if EndsEmptyBody(h, r) then Some(a)
      else if a.status.Running? && |a.rest| < |r.rest| then GivesUp(h, a) else None
  }

  /** The loop, one pass at a time. */
  lemma Pass(h: Policy, r: Run)
    ensures var a := Advance(h, r); var on := r.status.Running? && r.rest != [];
      && Drain(h, r) == (if !on then r else if a.status.Running? && |a.rest| < |r.rest| then Drain(h, a) else a)
      && GivesUp(h, r) == (if !on then None else if EndsEmptyBody(h, r) then Some(a)
                           else if a.status.Running? && |a.rest| < |r.rest| then GivesUp(h, a) else None)
  {
    hide Advance, EndsEmptyBody;
  }

  lemma {:induction false} GivesUpEnds(h: Policy, r: Run)
    requires Safe(r) && GivesUp(h, r).Some?
    ensures var g := GivesUp(h, r).value;
      Drain(h, r) == g && Safe(g) && g.status.Running? && g.parser.phase == InHeader && g.rest != [] && |g.rest| <= |r.rest|
    decreases |r.rest|
  {
    AdvanceSafe(h, r);
    if EndsEmptyBody(h, r) {
      EmptyBodyIsZeroLength(h, r);
    } else {
      GivesUpEnds(h, Advance(h, r));
    }
  }

  lemma {:induction false} UncutRunIsInert(h: Policy, r: Run)
    requires Safe(r) && GivesUp(h, r).None?
    ensures Inert(h, Drain(h, r))
    decreases |r.rest|
  {
    if r.status.Running? && r.rest != [] {
      AdvanceSafe(h, r);
      var a := Advance(h, r);
      if a.status.Running? && |a.rest| < |r.rest| {
        UncutRunIsInert(h, a);
      } else if a.status.Running? {
        AdvanceRetried(h, r, []);
        assert Append(a, []) == a && Append(r, []) == r;
      }
    }
  }

  /** Streams whose messages are never empty may be cut anywhere. */
  lemma PositiveLengthsMayBeCut(h: Policy, r: Run, bytes: seq<Byte>)
    requires Safe(r) && GivesUp(h, Append(r, bytes)).None?
    ensures CutsDoNotMatter(h, r, bytes)
  {
    UncutRunIsInert(h, Append(r, bytes));
    FragmentationExactly(h, r, bytes);
  }

  // ---------- cuts into non-empty pieces ----------

  /** A network read that delivers something delivers at least one byte. */
  ghost predicate NonEmpty(pieces: seq<seq<Byte>>) {
    pieces != [] && forall i :: 0 <= i < |pieces| ==> pieces[i] != []
  }

  ghost predicate ReadsDoNotMatter(h: Policy, r: Run, bytes: seq<Byte>) {
    forall pieces: seq<seq<Byte>> :: NonEmpty(pieces) && Flatten(pieces) == bytes ==>
      Feed(h, r, pieces) == Drain(h, Append(r, bytes))
  }

  /** Running the loop on a part that does not make it give up changes nothing: neither where everything
      ends, nor where the loop gives up. */
  lemma {:induction false} DrainInParts(h: Policy, r: Run, more: seq<Byte>)
    requires Safe(r) && GivesUp(h, r).None?
    ensures Drain(h, Append(Drain(h, r), more)) == Drain(h, Append(r, more))
    ensures GivesUp(h, Append(Drain(h, r), more)) == GivesUp(h, Append(r, more))
    decreases |r.rest|
  {
    hide Advance, Drain, GivesUp;
    var a := Advance(h, r);
    RestShrinks(h, r);
    Pass(h, r);
    Pass(h, Append(r, more));
    if r.status.Running? && r.rest != [] {
      AdvanceSafe(h, r);
      if Waits(h, r) {
        AdvanceRetried(h, r, more);
        Pass(h, Append(a, more));
      } else {
        AdvanceWithMore(h, r, more);
        if a.status.Running? && |a.rest| < |r.rest| {
          DrainInParts(h, a, more);
        } else {
          Pass(h, Append(a, more));
        }
      }
    }
  }

  lemma {:induction false} GivesUpWithMore(h: Policy, r: Run, more: seq<Byte>)
    requires Safe(r) && GivesUp(h, r).Some?
    ensures GivesUp(h, Append(r, more)) == Some(Append(GivesUp(h, r).value, more))
    decreases |r.rest|
  {
    AdvanceSafe(h, r);
    AdvanceWithMore(h, r, more);
    if !EndsEmptyBody(h, r) {
      GivesUpWithMore(h, Advance(h, r), more);
    }
  }

  /** A call that waits takes, once there is enough, all it waited with and more. */
  lemma WaitingTakesAll(p: Parser, bytes: seq<Byte>, more: seq<Byte>)
    requires Reachable(p) && bytes != [] && CallWaits(p, bytes)
    ensures var r := Parse(p, bytes + more); r.Result? && r.used > 0 ==> r.used > |bytes|
  {
    if p.phase == InHeader && ReadHead(bytes).Some? {
      HeadWithMore(bytes, more);
    }
    assert (bytes + more)[0] == bytes[0];
  }

  lemma AdvanceTakesAll(h: Policy, r: Run, more: seq<Byte>)
    requires Safe(r) && r.rest != [] && Waits(h, r)
    ensures var a := Advance(h, Append(r, more)); |a.rest| < |r.rest| + |more| ==> |a.rest| < |more|
  {
    hide Parse, ReadHead;
    WaitingTakesAll(r.parser, r.rest, more);
  }

  /** Where the loop gives up in front of more than the last bytes, it does so without them. */
  lemma {:induction false} GivesUpEarlier(h: Policy, r: Run, more: seq<Byte>)
    requires Safe(r) && GivesUp(h, Append(r, more)).Some? && |GivesUp(h, Append(r, more)).value.rest| > |more|
    ensures GivesUp(h, r).Some?
    decreases |r.rest|
  {
    var x := Append(r, more);
    GivesUpEnds(h, x);
    EmptyBodyIsZeroLength(h, x);
    EmptyBodyIsZeroLength(h, r);
    if !EndsEmptyBody(h, r) {
      AdvanceSafe(h, x);
      GivesUpEnds(h, Advance(h, x));
      if Waits(h, r) {
        AdvanceTakesAll(h, r, more);
      } else {
        AdvanceSafe(h, r);
        AdvanceWithMore(h, r, more);
        GivesUpEarlier(h, Advance(h, r), more);
      }
    }
  }

  /** With one byte behind, no read can follow the one that makes the loop give up. */
  lemma {:induction false} OneByteBehind(h: Policy, r: Run, pieces: seq<seq<Byte>>)
    requires Safe(r) && NonEmpty(pieces)
    requires var g := GivesUp(h, Append(r, Flatten(pieces))); g.Some? && |g.value.rest| == 1
    ensures Feed(h, r, pieces) == Drain(h, Append(r, Flatten(pieces)))
    decreases |pieces|
  {
    var first, others := Append(r, pieces[0]), pieces[1..];
    var more := Flatten(others);
    FeedFirst(h, r, pieces);
    FlattenLength(others);
    hide Drain, GivesUp, Safe, Feed, Flatten;
    if others == [] {
      assert Append(first, []) == first;
    } else {
      AppendSafe(r, pieces[0]);
      if GivesUp(h, first).Some? {
        GivesUpWithMore(h, first, more);
        GivesUpEnds(h, first);
      }
      DrainInParts(h, first, more);
      DrainSafe(h, first);
      OneByteBehind(h, Drain(h, first), others);
    }
  }

  lemma FeedFirst(h: Policy, r: Run, pieces: seq<seq<Byte>>)
    requires pieces != []
    ensures Feed(h, r, pieces) == Feed(h, Drain(h, Append(r, pieces[0])), pieces[1..])
    ensures Append(r, Flatten(pieces)) == Append(Append(r, pieces[0]), Flatten(pieces[1..]))
    ensures pieces[1..] == [] ==> Flatten(pieces[1..]) == [] && Feed(h, r, pieces) == Drain(h, Append(r, pieces[0]))
  {
    hide Drain;
    assert r.rest + pieces[0] + Flatten(pieces[1..]) == r.rest + (pieces[0] + Flatten(pieces[1..]));
  }

  lemma DrainMoves(h: Policy, d: Run)
    requires !Inert(h, d)
    ensures Drain(h, d) != d
  {
    var a := Advance(h, d);
    if a.status.Running? && |a.rest| < |d.rest| {
      DrainShrinks(h, a);
    }
  }

  lemma {:induction false} FlattenLength(pieces: seq<seq<Byte>>)
    requires forall i :: 0 <= i < |pieces| ==> pieces[i] != []
    ensures |Flatten(pieces)| >= |pieces|
    decreases |pieces|
  {
    if pieces != [] {
      FlattenLength(pieces[1..]);
    }
  }

  lemma OneRead(h: Policy, r: Run, pieces: seq<seq<Byte>>)
    requires NonEmpty(pieces) && |Flatten(pieces)| < 2
    ensures Feed(h, r, pieces) == Drain(h, Append(r, Flatten(pieces)))
  {
    FlattenLength(pieces);
    assert pieces[1..] == [];
    assert Flatten(pieces) == pieces[0];
  }

  /** Two reads, the second of one byte: the loop gives up in the first and goes on in the second. */
  lemma LastByteApart(h: Policy, r: Run, bytes: seq<Byte>)
    requires Safe(r) && |bytes| >= 2
    requires var g := GivesUp(h, Append(r, bytes)); g.Some? && |g.value.rest| >= 2 && !Inert(h, g.value)
    ensures !ReadsDoNotMatter(h, r, bytes)
  {
    hide Drain, GivesUp, Safe, Inert;
    var n := |bytes| - 1;
    var front, last := bytes[..n], bytes[n..];
    var first := Append(r, front);
    assert Append(first, last) == Append(r, bytes) by {
      assert front + last == bytes;
      assert r.rest + front + last == r.rest + (front + last);
    }
    var g := GivesUp(h, Append(r, bytes)).value;
    AppendSafe(r, bytes);
    AppendSafe(r, front);
    GivesUpEnds(h, Append(r, bytes));
    GivesUpEarlier(h, first, last);
    GivesUpWithMore(h, first, last);
    GivesUpEnds(h, first);
    var one: seq<seq<Byte>> := [last];
    var pieces := [front] + one;
    assert pieces[1..] == one && one[1..] == [];
    assert Flatten(one) == last && Flatten(pieces) == bytes;
    assert Feed(h, r, pieces) == Feed(h, Drain(h, first), one) == Drain(h, Append(Drain(h, first), last));
    DrainMoves(h, g);
  }

  /** Reads that deliver something matter exactly if the loop, on everything at once, gives up in front of
      at least two bytes that would have let it go on. */
  lemma ReadsMatterExactly(h: Policy, r: Run, bytes: seq<Byte>)
    requires Safe(r)
    ensures var g := GivesUp(h, Append(r, bytes));
      ReadsDoNotMatter(h, r, bytes) <==> !(g.Some? && |g.value.rest| >= 2 && |bytes| >= 2 && !Inert(h, g.value))
  {
    var g := GivesUp(h, Append(r, bytes));
    if g.Some? {
      GivesUpEnds(h, Append(r, bytes));
    }
    if g.Some? && |g.value.rest| >= 2 && |bytes| >= 2 && !Inert(h, g.value) {
      LastByteApart(h, r, bytes);
    } else {
      forall pieces: seq<seq<Byte>> | NonEmpty(pieces) && Flatten(pieces) == bytes
        ensures Feed(h, r, pieces) == Drain(h, Append(r, bytes))
      {
        if |bytes| < 2 {
          OneRead(h, r, pieces);
        } else if g.Some? && |g.value.rest| == 1 {
          OneByteBehind(h, r, pieces);
        } else {
          if g.None? {
            UncutRunIsInert(h, Append(r, bytes));
          }
          FeedAgrees(h, r, pieces);
        }
      }
    }
  }

  /** Bytes do not let a loop that expects a header go on exactly if the header's fixed part is not all there; or
      if it is, says nothing new, and an extended timestamp it needs is not all there. */
  lemma HeaderInertExactly(h: Policy, d: Run)
    requires d.status.Running? && d.parser.phase == InHeader && d.rest != [] && Safe(d)
    ensures Inert(h, d) <==>
      match ReadHead(d.rest)
      case None => true
      case Some(hd) =>
        var t := Touched(d.parser, hd);
        NeedsExtended(t.slots[hd.csId], hd) && |d.rest| < hd.size + 4 && t == d.parser
  {
    hide Touch, Stamp;
    HeaderSafe(d.parser, d.rest);
  }

  lemma NothingLeftIsInert(h: Policy, r: Run)
    requires r.rest == []
    ensures Inert(h, r)
  {}

  /** A run that consumes everything is not affected by cuts. */
  lemma ConsumedRunMayBeCut(h: Policy, r: Run, pieces: seq<seq<Byte>>)
    requires Safe(r) && pieces != [] && Drain(h, Append(r, Flatten(pieces))).rest == []
    ensures Feed(h, r, pieces) == Drain(h, Append(r, Flatten(pieces)))
  {
    NothingLeftIsInert(h, Drain(h, Append(r, Flatten(pieces))));
    FeedAgrees(h, r, pieces);
  }

  /** The header of an empty message on chunk stream 3. */
  const EMPTY_MESSAGE: seq<Byte> := [3, 0, 0, 0, 0, 0, 0, 9, 0, 0, 0, 0]

  lemma EmptyMessageHead()
    ensures ReadHead(EMPTY_MESSAGE) == Some(Head(0, 3, 12, 0, 0, 9, 0))
  {}

  lemma EmptyMessagePass(h: Policy, r: Run, more: seq<Byte>)
    requires Safe(r) && r.status.Running? && r.parser.phase == InHeader && r.rest == EMPTY_MESSAGE + more
    requires Lookup(r.parser.slots, 3).timeStamp == 0
    ensures var a := Advance(h, r);
            && a.rest == more && a.status.Running? && a.parser.phase == InBody && a.out == r.out
            && a.parser.current == 3 && 3 in a.parser.slots
            && a.parser.slots[3].length == 0 && a.parser.slots[3].timeStamp == 0
  {
    EmptyMessageHead();
    HeadWithMore(EMPTY_MESSAGE, more);
    HeaderSafe(r.parser, r.rest);
    assert r.rest[12..] == more;
  }

  lemma EmptyMessageDrain(h: Policy, r: Run, more: seq<Byte>) returns (d: Run)
    requires Safe(r) && r.status.Running? && r.parser.phase == InHeader && r.rest == EMPTY_MESSAGE + more && more != []
    requires Lookup(r.parser.slots, 3).timeStamp == 0
    ensures Safe(d) && GivesUp(h, r) == Some(d) && d.status.Running? && d.parser.phase == InHeader && d.rest == more
    ensures Lookup(d.parser.slots, 3).timeStamp == 0
  {
    hide Advance, GivesUp, EndsEmptyBody, Drain;
    EmptyMessagePass(h, r, more);
    AdvanceSafe(h, r);
    var a := Advance(h, r);
    Pass(h, r);
    Pass(h, a);
    EmptyBodyIsZeroLength(h, r);
    EmptyBodyIsZeroLength(h, a);
    EmptyBodyPass(h, a);
    d := Advance(h, a);
    AdvanceSafe(h, a);
  }

  /** An empty body on chunk stream 3 is ended, and nothing else happens. */
  lemma EmptyBodyPass(h: Policy, a: Run)
    requires a.status.Running? && a.rest != [] && a.parser.phase == InBody && a.parser.current == 3
    requires 3 in a.parser.slots && a.parser.slots[3].length == 0 && SlotOk(a.parser.slots[3])
    ensures var d := Advance(h, a);
      && d.status.Running? && d.rest == a.rest && d.parser.phase == InHeader
      && Lookup(d.parser.slots, 3).timeStamp == a.parser.slots[3].timeStamp
  {
    assert a.rest[0..] == a.rest;
  }

  /** At any chunk boundary, two empty messages in a row: a single read stops in front of the
      second header, so the outcome depends on how the bytes are read. */
  lemma EmptyBodyCutsShort(h: Policy, r: Run)
    requires Safe(r) && r.status.Running? && r.parser.phase == InHeader && r.rest == []
    requires Lookup(r.parser.slots, 3).timeStamp == 0
    ensures !ReadsDoNotMatter(h, r, EMPTY_MESSAGE + EMPTY_MESSAGE)
  {
    hide Advance, GivesUp, Drain, Lookup, ReadsDoNotMatter, Inert;
    var x := Append(r, EMPTY_MESSAGE + EMPTY_MESSAGE);
    assert x.rest == EMPTY_MESSAGE + EMPTY_MESSAGE;
    AppendSafe(r, x.rest);
    var d := EmptyMessageDrain(h, x, EMPTY_MESSAGE);
    assert d.rest == EMPTY_MESSAGE + [];
    EmptyMessagePass(h, d, []);
    MovedIsNotInert(h, d);
    ReadsMatterExactly(h, r, EMPTY_MESSAGE + EMPTY_MESSAGE);
  }

  lemma MovedIsNotInert(h: Policy, d: Run)
    requires Advance(h, d).rest != d.rest
    ensures !Inert(h, d)
  {}
}
