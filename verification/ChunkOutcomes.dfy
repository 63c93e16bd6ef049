/** How a run ends, read off the messages it hands out: which message ends the connection, what the chunk size is by
    then, and what has become of the entries. */
module ChunkOutcomes {
  import opened Bytes
  import opened ChunkSpec
  import opened ChunkStream

  /** The handler of message `i` refuses it. Messages of type 1 set the chunk size and have no handler. */
  predicate Refuses(h: Policy, out: seq<Slot>, i: nat)
    requires i < |out|
  {
    out[i].typeId != 1 && h(out[..i + 1]) == Refuse
  }

  /** A message with at least four bytes of payload that sets the chunk size: their number, first byte most
      significant, is the new size. */
  function SizeAfter(size: U32, m: Slot): U32 {
    if m.typeId == 1 && |m.data| >= 4
    then 16777216 * m.data[0] as int + 65536 * m.data[1] as int + 256 * m.data[2] as int + m.data[3]
    else size
  }

  function SizeAfterAll(size: U32, ms: seq<Slot>): U32 {
    if ms == [] then size else SizeAfter(SizeAfterAll(size, ms[..|ms| - 1]), ms[|ms| - 1])
  }

  // ---------- one pass ----------

  /** A pass hands out at most one message. The message decides: one that is refused ends the connection; one of type
      1 sets the chunk size, or is no step the language gives a meaning to if it is too short; the handler of any other
      leaves the parser alone or empties its table. */
  lemma AdvanceOutcome(h: Policy, r: Run)
    requires r.status.Running?
    ensures var a := Advance(h, r); var p := Parse(r.parser, r.rest);
      if p == Undefined then a == r.(status := Crashed)
      else if p.used < 0 || p.used > |r.rest| then a == r.(parser := p.parser, status := Failed)
      else if p.message == None then a == r.(parser := p.parser, rest := r.rest[p.used..])
      else
        var m, out := p.message.value, r.out + [p.message.value];
        && a.out == out && a.rest == r.rest[p.used..]
        && (m.typeId == 1 ==>
              if |m.data| < 4 then a.status == Crashed
              else a.status == Running && a.parser == p.parser.(inChunk := SizeAfter(p.parser.inChunk, m)))
        && (m.typeId != 1 && h(out) == Refuse ==> a.status == Refused && a.parser == p.parser)
        && (m.typeId != 1 && h(out) == ForgetStreams ==> a.status == Running && a.parser == p.parser.(slots := map[]))
        && (m.typeId != 1 && h(out) == Keep ==> a.status == Running && a.parser == p.parser)
  {
    var p := Parse(r.parser, r.rest);
    if p.Result? && p.message.Some? {
      assert (r.out + [p.message.value])[|r.out|] == p.message.value;
    }
  }

  // ---------- whole runs ----------

  /** The end of a run: it is refused exactly by the message that is its last, nobody refused before, and the chunk
      size is what the last message that sets it says. */
  ghost predicate EndsAs(h: Policy, r: Run, d: Run) {
    && r.out <= d.out
    && (d.status.Refused? <==> |d.out| > |r.out| && Refuses(h, d.out, |d.out| - 1))
    && (forall i :: |r.out| <= i < |d.out| - 1 ==> !Refuses(h, d.out, i))
    && (!d.status.Crashed? ==> d.parser.inChunk == SizeAfterAll(r.parser.inChunk, d.out[|r.out|..]))
  }

  lemma ParseKeepsSize(p: Parser, bytes: seq<Byte>)
    ensures var d := Parse(p, bytes); d.Result? ==> d.parser.inChunk == p.inChunk
  {}

  lemma NoNews(h: Policy, r: Run, d: Run)
    requires d.out == r.out && !d.status.Refused? && d.parser.inChunk == r.parser.inChunk
    ensures EndsAs(h, r, d)
  {
    assert d.out[|r.out|..] == [];
  }

  lemma OneMessage(h: Policy, r: Run, d: Run, m: Slot)
    requires d.out == r.out + [m] && (d.status.Refused? <==> m.typeId != 1 && h(d.out) == Refuse)
    requires !d.status.Crashed? ==> d.parser.inChunk == SizeAfter(r.parser.inChunk, m)
    ensures EndsAs(h, r, d)
  {
    assert d.out[..|d.out|] == d.out && d.out[|r.out|..] == [m];
    assert [m][..0] == [];
  }

  lemma AdvanceEnds(h: Policy, r: Run)
    requires r.status.Running?
    ensures EndsAs(h, r, Advance(h, r))
  {
    hide Advance, Parse, EndsAs;
    AdvanceOutcome(h, r);
    ParseKeepsSize(r.parser, r.rest);
    var a, p := Advance(h, r), Parse(r.parser, r.rest);
    if p.Result? && 0 <= p.used <= |r.rest| && p.message.Some? {
      OneMessage(h, r, a, p.message.value);
    } else {
      NoNews(h, r, a);
    }
  }

  lemma {:induction false} SizesAfter(size: U32, a: seq<Slot>, b: seq<Slot>)
    ensures SizeAfterAll(size, a + b) == SizeAfterAll(SizeAfterAll(size, a), b)
    decreases |b|
  {
    if b == [] {
      assert a + b == a;
    } else {
      var front := b[..|b| - 1];
      assert (a + b)[..|a + b| - 1] == a + front;
      SizesAfter(size, a, front);
    }
  }

  /** One run behind another that is still running. */
  lemma EndsBehind(h: Policy, r: Run, a: Run, d: Run)
    requires EndsAs(h, r, a) && a.status.Running? && EndsAs(h, a, d)
    ensures EndsAs(h, r, d)
  {
    forall i | |r.out| <= i < |a.out|
      ensures !Refuses(h, d.out, i)
    {
      assert d.out[..i + 1] == a.out[..i + 1] && d.out[i] == a.out[i];
      assert !Refuses(h, a.out, i);
    }
    assert d.out[|r.out|..] == a.out[|r.out|..] + d.out[|a.out|..];
    SizesAfter(r.parser.inChunk, a.out[|r.out|..], d.out[|a.out|..]);
  }

  lemma {:induction false} DrainEnds(h: Policy, r: Run)
    requires r.status.Running?
    ensures EndsAs(h, r, Drain(h, r))
    decreases |r.rest|
  {
    hide Advance, EndsAs, Drain;
    Pass(h, r);
    var a := Advance(h, r);
    if r.rest == [] {
      NoNews(h, r, r);
    } else {
      AdvanceEnds(h, r);
      if a.status.Running? && |a.rest| < |r.rest| {
        DrainEnds(h, a);
        EndsBehind(h, r, a, Drain(h, a));
      }
    }
  }

  /** What is unread at the end of a run is the end of what there was. */
  ghost predicate Suffix(s: seq<Byte>, t: seq<Byte>) {
    |s| <= |t| && s == t[|t| - |s|..]
  }

  lemma {:induction false} DrainTakesFront(h: Policy, r: Run)
    ensures Suffix(Drain(h, r).rest, r.rest)
    decreases |r.rest|
  {
    hide Advance, Drain;
    Pass(h, r);
    var a := Advance(h, r);
    if r.status.Running? && r.rest != [] {
      AdvanceTakesFront(h, r);
      if a.status.Running? && |a.rest| < |r.rest| {
        DrainTakesFront(h, a);
      }
    }
  }

  lemma AdvanceTakesFront(h: Policy, r: Run)
    ensures Suffix(Advance(h, r).rest, r.rest)
  {}

  /** Bytes that come later, whether while the loop runs or after, do not take a refusal back: they pile up behind
      what was left unread, and nothing more is handed out. */
  lemma {:induction false} RefusalIsFinal(h: Policy, r: Run, more: seq<Byte>)
    requires Safe(r) && Drain(h, r).status.Refused?
    ensures Drain(h, Append(r, more)) == Append(Drain(h, r), more)
    decreases |r.rest|
  {
    hide Advance, Drain, Safe;
    Pass(h, r);
    Pass(h, Append(r, more));
    var a := Advance(h, r);
    if r.status.Running? && r.rest != [] {
      AdvanceSafe(h, r);
      if Waits(h, r) {
        WaitingGoesOn(h, r);
        assert false;
      }
      AdvanceWithMore(h, r, more);
      if a.status.Running? && |a.rest| < |r.rest| {
        RefusalIsFinal(h, a, more);
      }
    }
  }

  lemma WaitingGoesOn(h: Policy, r: Run)
    requires r.status.Running? && Waits(h, r)
    ensures !Advance(h, r).status.Refused? && |Advance(h, r).rest| == |r.rest|
  {}

  /** Any number of reads. From a running start the run ends refused if and only if the handler of some message that
      is handed out in it refuses that message; then that message is the last, and all bytes behind it are unread. */
  lemma {:induction false} FeedEnds(h: Policy, r: Run, pieces: seq<seq<Byte>>)
    requires r.status.Running?
    ensures EndsAs(h, r, Feed(h, r, pieces))
    decreases |pieces|
  {
    hide Drain, EndsAs;
    if pieces == [] {
      NoNews(h, r, r);
    } else {
      var x := Append(r, pieces[0]);
      var d := Drain(h, x);
      DrainEnds(h, x);
      SameStart(h, r, x, d);
      if d.status.Running? {
        FeedEnds(h, d, pieces[1..]);
        EndsBehind(h, r, d, Feed(h, d, pieces[1..]));
      } else {
        Piles(h, d, pieces[1..]);
        SameEnd(h, r, d, Feed(h, d, pieces[1..]));
      }
    }
  }

  lemma SameStart(h: Policy, r: Run, x: Run, d: Run)
    requires EndsAs(h, x, d) && x.out == r.out && x.parser == r.parser
    ensures EndsAs(h, r, d)
  {}

  lemma SameEnd(h: Policy, r: Run, d: Run, d2: Run)
    requires EndsAs(h, r, d) && d2.out == d.out && d2.parser == d.parser && d2.status == d.status
    ensures EndsAs(h, r, d2)
  {}

  /** Once the run has ended, what is read is kept unread. */
  lemma {:induction false} Piles(h: Policy, d: Run, pieces: seq<seq<Byte>>)
    requires !d.status.Running?
    ensures Feed(h, d, pieces) == Append(d, Flatten(pieces))
    decreases |pieces|
  {
    if pieces == [] {
      assert Append(d, []) == d;
    } else {
      FeedFirst(h, d, pieces);
      Piles(h, Append(d, pieces[0]), pieces[1..]);
    }
  }

  lemma {:induction false} FeedTakesFront(h: Policy, r: Run, pieces: seq<seq<Byte>>)
    ensures Suffix(Feed(h, r, pieces).rest, r.rest + Flatten(pieces))
    decreases |pieces|
  {
    if pieces != [] {
      hide Drain;
      FeedFirst(h, r, pieces);
      var x := Append(r, pieces[0]);
      DrainTakesFront(h, x);
      FeedTakesFront(h, Drain(h, x), pieces[1..]);
      SuffixOf(Feed(h, r, pieces).rest, Drain(h, x).rest, x.rest, Flatten(pieces[1..]));
    }
  }

  lemma SuffixOf(s: seq<Byte>, d: seq<Byte>, t: seq<Byte>, more: seq<Byte>)
    requires Suffix(s, d + more) && Suffix(d, t)
    ensures Suffix(s, t + more)
  {
    assert d + more == (t + more)[|t| - |d|..];
  }

  lemma EndsExactly(h: Policy, r: Run, d: Run)
    requires EndsAs(h, r, d)
    ensures r.out <= d.out
    ensures d.status.Refused? <==> exists i :: |r.out| <= i < |d.out| && Refuses(h, d.out, i)
    ensures forall i :: |r.out| <= i < |d.out| && Refuses(h, d.out, i) ==> i == |d.out| - 1
    ensures !d.status.Crashed? ==> d.parser.inChunk == SizeAfterAll(r.parser.inChunk, d.out[|r.out|..])
  {
    hide Refuses, SizeAfterAll;
  }

  /** From a running start: refused if and only if somebody refuses, at the last message, everything behind it unread. */
  lemma RefusedExactly(h: Policy, r: Run, pieces: seq<seq<Byte>>)
    requires r.status.Running?
    ensures var d := Feed(h, r, pieces);
      && r.out <= d.out
      && (d.status.Refused? <==> exists i :: |r.out| <= i < |d.out| && Refuses(h, d.out, i))
      && (forall i :: |r.out| <= i < |d.out| && Refuses(h, d.out, i) ==> i == |d.out| - 1)
      && Suffix(d.rest, r.rest + Flatten(pieces))
      && (!d.status.Crashed? ==> d.parser.inChunk == SizeAfterAll(r.parser.inChunk, d.out[|r.out|..]))
  {
    hide Refuses, SizeAfterAll, EndsAs, Feed, Suffix;
    FeedEnds(h, r, pieces);
    EndsExactly(h, r, Feed(h, r, pieces));
    FeedTakesFront(h, r, pieces);
  }

  /** The same for one run of the loop. */
  lemma DrainRefusedExactly(h: Policy, r: Run)
    requires r.status.Running?
    ensures var d := Drain(h, r);
      && r.out <= d.out
      && (d.status.Refused? <==> exists i :: |r.out| <= i < |d.out| && Refuses(h, d.out, i))
      && (forall i :: |r.out| <= i < |d.out| && Refuses(h, d.out, i) ==> i == |d.out| - 1)
      && Suffix(d.rest, r.rest)
      && (!d.status.Crashed? ==> d.parser.inChunk == SizeAfterAll(r.parser.inChunk, d.out[|r.out|..]))
  {
    hide Refuses, SizeAfterAll, EndsAs, Drain, Suffix;
    DrainEnds(h, r);
    EndsExactly(h, r, Drain(h, r));
    DrainTakesFront(h, r);
  }
}
