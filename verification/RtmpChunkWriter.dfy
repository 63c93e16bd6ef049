/** The chunk writer: a message goes into a caller's buffer chunk by chunk, and the buffer the
    connection allocates for it is always large enough. */
module RtmpChunkWriter {
  import opened Bytes
  import opened ChunkStream
  import opened ChunkWire
  import opened RtmpChunks

  /** All bytes of a message. */
  function Encoded(csId: U32, m: Message, chunk: nat): seq<Byte>
    requires |m.payload| < 0x1_0000_0000 && chunk > 0
  {
    Flatten(Chunks(0, csId, m, chunk))
  }

  // ---------- size ----------

  function CeilDiv(n: nat, d: nat): nat
    requires d > 0
  {
    (n + d - 1) / d
  }

  lemma CeilDivStep(n: nat, d: nat)
    requires d > 0 && n > 0
    ensures CeilDiv(n, d) == 1 + (if n > d then CeilDiv(n - d, d) else 0)
    ensures CeilDiv(n, d) - 1 <= n / d
  {
    var q, q' := (n + d - 1) / d, (n - 1) / d;
    DivOfSum(n - 1, d);
    if n <= d {
      assert q' == 0 by { SmallDiv(n - 1, d); }
    }
    DivMonotonic(n - 1, n, d);
  }

  lemma DivOfSum(n: nat, d: nat)
    requires d > 0
    ensures (n + d) / d == n / d + 1
  {
    var k := (n + d) / d - n / d - 1;
    assert d * k == n % d - (n + d) % d;
    assert k > 0 ==> d * k >= d;
    assert k < 0 ==> d * k <= 0 - d;
  }

  lemma SmallDiv(n: nat, d: nat)
    requires n < d
    ensures n / d == 0
  {}

  lemma DivMonotonic(a: nat, b: nat, d: nat)
    requires d > 0 && a <= b
    ensures a / d <= b / d
  {
    var k := b / d - a / d;
    assert d * k == (b - a) + a % d - b % d;
    assert k < 0 ==> d * k <= 0 - d;
  }

  lemma MulSuccessor(n: nat, x: nat)
    ensures (1 + n) * x == x + n * x
  {}

  lemma {:induction false} LaterSize(csId: U32, m: Message, chunk: nat, from: nat)
    requires chunk > 0 && |m.payload| < 0x1_0000_0000 && from <= |m.payload|
    ensures |Flatten(LaterChunks(csId, m, chunk, from))|
      == |m.payload| - from + CeilDiv(|m.payload| - from, chunk) * |Again(csId, m)|
    decreases |m.payload| - from
  {
    var left := |m.payload| - from;
    var overhead := |Again(csId, m)|;
    if left > 0 {
      CeilDivStep(left, chunk);
      var later := LaterChunks(csId, m, chunk, from);
      assert later[1..] == LaterChunks(csId, m, chunk, from + chunk);
      assert later[0] == Again(csId, m) + Piece(m.payload, from, chunk);
      if left > chunk {
        LaterSize(csId, m, chunk, from + chunk);
        MulSuccessor(CeilDiv(left - chunk, chunk), overhead);
      }
    } else {
      SmallDiv(chunk - 1, chunk);
    }
  }

  /** The writer's exact output size: the first header, the payload, and one short header for every
      chunk after the first. */
  lemma EncodedSize(csId: U32, m: Message, chunk: nat)
    requires chunk > 0 && 0 < |m.payload| < 0x1_0000_0000
    ensures var h := |BasicHeader(0, csId)|; var e := |Extension(m)|;
      |Encoded(csId, m, chunk)| == h + 11 + e + |m.payload| + (CeilDiv(|m.payload|, chunk) - 1) * (h + e)
  {
    var n := |m.payload|;
    CeilDivStep(n, chunk);
    var first := Lead(0, csId, m) + Piece(m.payload, 0, chunk);
    assert Chunks(0, csId, m, chunk)[1..] == LaterChunks(csId, m, chunk, chunk);
    assert |Encoded(csId, m, chunk)| == |first| + |Flatten(LaterChunks(csId, m, chunk, chunk))|;
    if n > chunk {
      LaterSize(csId, m, chunk, chunk);
    }
  }

  /** The bytes the writer asks for before it starts, in 32-bit arithmetic. */
  function Capacity(length: U32, chunk: nat): U32
    requires chunk > 0
  {
    (length + length / chunk * 5) % 0x1_0000_0000
  }

  /** The bytes the connection allocates, in 32-bit arithmetic. */
  function Allocation(length: U32, chunk: nat): U32
    requires chunk > 0
  {
    (length + length / chunk * 5 + 1024) % 0x1_0000_0000
  }

  lemma EmptySize(csId: U32, m: Message, chunk: nat)
    requires chunk > 0 && m.payload == []
    ensures |Encoded(csId, m, chunk)| == |BasicHeader(0, csId)| + 11 + |Extension(m)|
  {
    var chunks := Chunks(0, csId, m, chunk);
    assert chunks[1..] == [] && chunks[0] == Lead(0, csId, m) + [];
    assert Encoded(csId, m, chunk) == chunks[0] + Flatten(chunks[1..]);
  }

  lemma MulAtMost(a: nat, b: nat, x: nat, y: nat)
    requires a <= b && x <= y
    ensures a * x <= b * y
  {}

  /** What the writer adds to the payload: the first header, and a short one for every later chunk. */
  function Overhead(csId: U32, m: Message, chunk: nat): int
    requires chunk > 0
  {
    var h, e := |BasicHeader(0, csId)|, |Extension(m)|;
    h + 11 + e + if m.payload == [] then 0 else (CeilDiv(|m.payload|, chunk) - 1) * (h + e)
  }

  lemma EncodedIsOverhead(csId: U32, m: Message, chunk: nat)
    requires chunk > 0 && |m.payload| < 0x1_0000_0000
    ensures |Encoded(csId, m, chunk)| == |m.payload| + Overhead(csId, m, chunk)
  {
    hide Encoded, Extension, BasicHeader, CeilDiv;
    if m.payload == [] {
      EmptySize(csId, m, chunk);
    } else {
      EncodedSize(csId, m, chunk);
    }
  }

  /** For 24-bit lengths the allocation does not wrap around, and it holds the whole message exactly if
      what the writer adds is within the reserve. */
  lemma FitsExactly(csId: U32, m: Message, chunk: nat, max: nat)
    requires chunk > 0 && max > 0 && |m.payload| < 0x100_0000
    ensures Allocation(|m.payload|, max) == |m.payload| + |m.payload| / max * 5 + 1024
    ensures |Encoded(csId, m, chunk)| <= Allocation(|m.payload|, max)
      <==> Overhead(csId, m, chunk) <= |m.payload| / max * 5 + 1024
  {
    hide Encoded, Overhead, Allocation, Capacity;
    NoWrap(|m.payload|, max);
    EncodedIsOverhead(csId, m, chunk);
  }

  /** It is, for the chunk stream ids in use, once chunks are at least as large as the configured size; and
      then the writer's own check passes as well. */
  lemma AllocationSuffices(csId: U32, m: Message, chunk: nat, max: nat)
    requires 0 < max <= chunk && |m.payload| < 0x100_0000 && csId < 64
    ensures Capacity(|m.payload|, chunk) <= Allocation(|m.payload|, max)
    ensures |Encoded(csId, m, chunk)| <= Allocation(|m.payload|, max)
  {
    hide Encoded, Allocation, Capacity, Extension;
    var n := |m.payload|;
    NoWrap(n, max);
    NoWrap(n, chunk);
    FewerChunks(n, max, chunk);
    FitsExactly(csId, m, chunk, max);
    if n > 0 {
      CeilDivStep(n, chunk);
      MulAtMost(CeilDiv(n, chunk) - 1, n / max, 1 + |Extension(m)|, 5);
    }
  }

  lemma FewerChunks(n: nat, max: nat, chunk: nat)
    requires 0 < max <= chunk
    ensures n / chunk <= n / max
  {
    var q := n / chunk;
    assert q * max <= q * chunk <= n;
    DivMonotonic(q * max, n, max);
    MulDiv(q, max);
  }

  lemma MulDiv(q: nat, d: nat)
    requires d > 0
    ensures q * d / d == q
  {
    var k := q * d / d - q;
    assert d * k == -(q * d % d);
    assert k > 0 ==> d * k >= d;
    assert k < 0 ==> d * k <= 0 - d;
  }

  lemma {:induction false} DivAtMost(n: nat, d: nat)
    requires d > 0
    ensures n / d <= n
  {
    if n < d {
      SmallDiv(n, d);
    } else {
      DivOfSum(n - d, d);
      DivAtMost(n - d, d);
    }
  }

  lemma NoWrap(n: nat, chunk: nat)
    requires chunk > 0 && n < 0x100_0000
    ensures Allocation(n, chunk) == n + n / chunk * 5 + 1024
    ensures Capacity(n, chunk) == n + n / chunk * 5
  {
    DivAtMost(n, chunk);
    SmallMod(n, n / chunk);
  }

  lemma SmallMod(n: nat, q: nat)
    requires q <= n < 0x100_0000
    ensures (n + q * 5) % 0x1_0000_0000 == n + q * 5 && (n + q * 5 + 1024) % 0x1_0000_0000 == n + q * 5 + 1024
  {}

  // ---------- writing in place ----------

  /** The message an entry of the send path stands for. */
  ghost function MessageOf(m: RtmpMessage): Message
    requires m.payload != null && m.length <= m.payload.Length
    reads m.payload
  {
    Message(m.internalTs, m.ext, m.typeId, m.streamId, m.payload[..m.length])
  }

  /** Stores bytes at a position of the buffer and moves the position behind them. */
  method Store(buf: array<Byte>, at: nat, bytes: seq<Byte>) returns (behind: nat)
    requires at + |bytes| <= buf.Length
    modifies buf
    ensures behind == at + |bytes|
    ensures buf[..behind] == old(buf[..at]) + bytes && buf[behind..] == old(buf[behind..])
  {
    behind := at + |bytes|;
    forall i | 0 <= i < |bytes| {
      buf[at + i] := bytes[i];
    }
    assert buf[..at] == old(buf[..at]);
    assert buf[..behind] == buf[..at] + bytes;
  }

  /** The same, seen from a limit that lies behind the bytes. */
  method StoreWithin(buf: array<Byte>, at: nat, bytes: seq<Byte>, ghost limit: nat) returns (behind: nat)
    requires at + |bytes| <= limit <= buf.Length
    modifies buf
    ensures behind == at + |bytes|
    ensures buf[..behind] == old(buf[..at]) + bytes && buf[limit..] == old(buf[limit..])
  {
    behind := Store(buf, at, bytes);
    assert buf[limit..] == buf[behind..][limit - behind..];
    assert old(buf[limit..]) == old(buf[behind..])[limit - behind..];
  }

  /** The bytes from a chunk boundary inside the payload on, the header of that chunk excluded. */
  ghost function Remaining(csId: U32, m: Message, chunk: nat, from: nat): seq<Byte>
    requires chunk > 0 && from <= |m.payload|
  {
    Piece(m.payload, from, chunk) + Flatten(LaterChunks(csId, m, chunk, from + chunk))
  }

  lemma RemainingStep(csId: U32, m: Message, chunk: nat, from: nat)
    requires chunk > 0 && from + chunk < |m.payload|
    ensures Remaining(csId, m, chunk, from) ==
      m.payload[from..from + chunk] + Again(csId, m) + Remaining(csId, m, chunk, from + chunk)
  {}

  lemma RemainingLast(csId: U32, m: Message, chunk: nat, from: nat)
    requires chunk > 0 && from <= |m.payload| <= from + chunk
    ensures Remaining(csId, m, chunk, from) == m.payload[from..]
  {}

  lemma EncodedFromFirst(csId: U32, m: Message, chunk: nat)
    requires chunk > 0 && |m.payload| < 0x1_0000_0000
    ensures Encoded(csId, m, chunk) == Lead(0, csId, m) + Remaining(csId, m, chunk, 0)
  {}

  /** Writes a message into the caller's buffer. Returns the number of bytes, or -1 when the writer's
      own estimate does not fit; a caller whose buffer passes that check must have room for all of
      it. The message is handed back with its length used up. */
  method CreateChunk(csId: U32, entry: RtmpMessage, chunk: U32, buf: array<Byte>, size: U32)
    returns (n: int, spent: RtmpMessage)
    requires entry.payload != null && entry.length <= entry.payload.Length && entry.payload != buf
    requires chunk > 0 && size <= buf.Length
    requires Capacity(entry.length, chunk) <= size ==> |Encoded(csId, MessageOf(entry), chunk)| <= size
    modifies buf
    ensures n == if size < Capacity(entry.length, chunk) then -1 else |Encoded(csId, MessageOf(entry), chunk)|
    ensures n < 0 <==> size < (entry.length + entry.length / chunk * 5) % 4294967296
    ensures n < 0 ==> buf[..] == old(buf[..]) && spent == entry
    ensures n >= 0 ==> buf[..n] == Encoded(csId, MessageOf(entry), chunk) && buf[n..] == old(buf[n..])
    ensures n >= 0 ==> spent == entry.(length := 0)
  {
    hide Encoded, Lead, Again, MessageHeader, LaterChunks, Remaining;
    spent := entry;
    if size < (entry.length + entry.length / chunk * 5) % 0x1_0000_0000 {
      return -1, spent;
    }
    ghost var m := MessageOf(entry);
    ghost var all := Encoded(csId, m, chunk);
    EncodedFromFirst(csId, m, chunk);
    var payload := entry.payload[..entry.length];
    var copy := Message(entry.internalTs, entry.ext, entry.typeId, entry.streamId, payload);
    var at: nat := Store(buf, 0, Lead(0, csId, copy));
    var from: nat := 0;
    while spent.length > 0
      invariant from <= |payload| && spent == entry.(length := |payload| - from)
      invariant at <= |all| && all == buf[..at] + Remaining(csId, m, chunk, from)
      invariant buf[|all|..] == old(buf[|all|..])
      decreases spent.length
    {
      ghost var written := buf[..at];
      if spent.length > chunk {
        var piece := payload[from..from + chunk];
        RemainingStep(csId, m, chunk, from);
        assert all == (written + piece + Again(csId, copy)) + Remaining(csId, m, chunk, from + chunk);
        at := StoreWithin(buf, at, piece, |all|);
        from := from + chunk;
        spent := spent.(length := spent.length - chunk);
        at := StoreWithin(buf, at, Again(csId, copy), |all|);
      } else {
        RemainingLast(csId, m, chunk, from);
        assert all == written + payload[from..];
        at := StoreWithin(buf, at, payload[from..], |all|);
        from := |payload|;
        spent := spent.(length := 0);
        RemainingLast(csId, m, chunk, from);
        break;
      }
    }
    RemainingLast(csId, m, chunk, from);
    n := at;
  }

  /** When a message is dropped, in numbers. */
  lemma DroppedExactly(csId: U32, m: Message, chunk: nat, max: nat)
    requires chunk > 0 && max > 0 && |m.payload| < 0x100_0000
    ensures Encoded(csId, m, chunk) != []
    ensures Capacity(|m.payload|, chunk) <= Allocation(|m.payload|, max)
      <==> (|m.payload| + |m.payload| / chunk * 5) % 4294967296 <= |m.payload| + |m.payload| / max * 5 + 1024
  {
    NoWrap(|m.payload|, max);
    EncodedIsOverhead(csId, m, chunk);
    OverheadIsSome(csId, m, chunk);
  }

  lemma OverheadIsSome(csId: U32, m: Message, chunk: nat)
    requires chunk > 0
    ensures Overhead(csId, m, chunk) > 0
  {
    if m.payload != [] {
      CeilDivStep(|m.payload|, chunk);
      var n, x := CeilDiv(|m.payload|, chunk) - 1, |BasicHeader(0, csId)| + |Extension(m)|;
      assert n >= 0 ==> n * x >= 0;
    }
  }

  /** Sends a message: a buffer is allocated by the configured chunk size, filled by the one in force, and
      its used part passed on. A message whose buffer fails the writer's check is dropped without a word;
      one that passes it must have room. */
  method SendRtmpChunks(parser: RtmpChunk, csId: U32, entry: RtmpMessage, max: U32) returns (sent: seq<Byte>)
    requires entry.payload != null && entry.length <= entry.payload.Length && entry.length < 0x100_0000
    requires parser.outChunkSize > 0 && max > 0
    requires Capacity(entry.length, parser.outChunkSize) <= Allocation(entry.length, max) ==>
      Overhead(csId, MessageOf(entry), parser.outChunkSize) <= entry.length / max * 5 + 1024
    ensures sent == if Capacity(entry.length, parser.outChunkSize) <= Allocation(entry.length, max)
                    then Encoded(csId, MessageOf(entry), parser.outChunkSize) else []
    ensures sent == [] <==>
      (entry.length + entry.length / parser.outChunkSize * 5) % 4294967296 > entry.length + entry.length / max * 5 + 1024
  {
    hide Encoded, Overhead, Capacity;
    DroppedExactly(csId, MessageOf(entry), parser.outChunkSize, max);
    ghost var m := MessageOf(entry);
    FitsExactly(csId, m, parser.outChunkSize, max);
    var size := (entry.length + entry.length / max * 5 + 1024) % 0x1_0000_0000;
    var buf := new Byte[size];
    var n, spent := CreateChunk(csId, entry, parser.outChunkSize, buf, size);
    sent := if n > 0 then buf[..n] else [];
    assert MessageOf(entry) == m;
  }
}
