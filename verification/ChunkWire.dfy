/** The byte form of messages: what the chunk writer puts on the wire, chunk by chunk. */
module ChunkWire {
  import opened Bytes
  import opened ChunkSpec

  /** A message to be sent. `ext` is the separate field the writer copies into extended timestamps. */
  datatype Message = Message(timestamp: U64, ext: U32, typeId: Byte, streamId: U32, payload: seq<Byte>)

  predicate IsExtended(m: Message) {
    m.timestamp >= UNLIMITED
  }

  /** The timestamp the reader can make out. */
  function Carried(m: Message): U64 {
    if IsExtended(m) then m.ext else m.timestamp
  }

  /** An extended timestamp is repeated in the separate field. */
  predicate TellsTime(m: Message) {
    IsExtended(m) ==> m.ext == m.timestamp
  }

  function BasicHeader(fmt: int, csId: U32): (s: seq<Byte>)
    requires 0 <= fmt <= 3
    ensures 1 <= |s| <= 3
  {
    if csId > 319 then [fmt * 64 + 1, (csId - 64) % 0x100, (csId - 64) / 0x100 % 0x100]
    else if csId >= 64 then [fmt * 64, (csId - 64) % 0x100]
    else [fmt * 64 + csId]
  }

  function MessageHeader(fmt: int, m: Message): (s: seq<Byte>)
    requires 0 <= fmt <= 3 && |m.payload| < 0x1_0000_0000
    ensures |s| == MessageHeaderLength(fmt)
  {
    (if fmt <= 2 then WriteU24BE(if IsExtended(m) then UNLIMITED else m.timestamp) else [])
    + (if fmt <= 1 then WriteU24BE(|m.payload|) + [m.typeId] else [])
    + (if fmt == 0 then WriteU32LE(m.streamId) else [])
  }

  function Extension(m: Message): (s: seq<Byte>)
    ensures |s| == if IsExtended(m) then 4 else 0
  {
    if IsExtended(m) then WriteU32BE(m.ext) else []
  }

  /** The bytes in front of the first payload piece of a message. */
  function Lead(fmt: int, csId: U32, m: Message): seq<Byte>
    requires 0 <= fmt <= 3 && |m.payload| < 0x1_0000_0000
  {
    BasicHeader(fmt, csId) + MessageHeader(fmt, m) + Extension(m)
  }

  /** The bytes in front of every later piece. */
  function Again(csId: U32, m: Message): seq<Byte> {
    BasicHeader(3, csId) + Extension(m)
  }

  function Piece(payload: seq<Byte>, from: nat, chunk: nat): seq<Byte>
    requires from <= |payload|
  {
    payload[from..Min(from + chunk, |payload|)]
  }

  /** The chunks that carry the payload from a chunk boundary on. */
  function LaterChunks(csId: U32, m: Message, chunk: nat, from: nat): (cs: seq<seq<Byte>>)
    requires chunk > 0
    decreases |m.payload| - from
  {
    if from >= |m.payload| then []
    else [Again(csId, m) + Piece(m.payload, from, chunk)] + LaterChunks(csId, m, chunk, from + chunk)
  }

  /** A whole message as a sequence of chunks; the first one has header format `fmt`. */
  function Chunks(fmt: int, csId: U32, m: Message, chunk: nat): seq<seq<Byte>>
    requires 0 <= fmt <= 3 && |m.payload| < 0x1_0000_0000 && chunk > 0
  {
    [Lead(fmt, csId, m) + Piece(m.payload, 0, chunk)] + LaterChunks(csId, m, chunk, chunk)
  }

  // ---------- reading the written headers back ----------

  /** The stream ids the parser's eight-bit field can hold. */
  predicate ParsableId(csId: int) {
    2 <= csId <= 255
  }

  /** The stream id the parser reads out of a basic header. */
  function StreamIdOf(b: seq<Byte>): int
    requires b != [] && |b| >= BasicHeaderLength(b[0])
  {
    if BasicHeaderLength(b[0]) == 1 then b[0] % 64 else (b[1] as int + 64) % 0x100
  }

  /** A basic header comes back as it was written exactly for the stream ids from 2 to 255: ids 0 and 1
      announce a longer header than was written, and larger ids lose their upper bits. */
  lemma BasicHeaderReadExactly(fmt: int, csId: U32)
    requires 0 <= fmt <= 3
    ensures var b := BasicHeader(fmt, csId);
      && b[0] / 64 == fmt
      && (|b| == BasicHeaderLength(b[0]) && StreamIdOf(b) == csId <==> ParsableId(csId))
  {}

  lemma MessageHeaderRead(fmt: int, m: Message, s: seq<Byte>, at: nat)
    requires 0 <= fmt <= 2 && |m.payload| < 0x100_0000 && Holds(s, at, MessageHeader(fmt, m))
    ensures at + MessageHeaderLength(fmt) <= |s|
    ensures ReadU24BE(s, at) == Min(m.timestamp, UNLIMITED)
    ensures fmt <= 1 ==> ReadU24BE(s, at + 3) == |m.payload| && s[at + 6] == m.typeId
    ensures fmt == 0 ==> ReadU32LE(s, at + 7) == m.streamId
  {
    hide Holds, WriteU24BE, WriteU32LE, ReadU24BE, ReadU32LE;
    var time := WriteU24BE(if IsExtended(m) then UNLIMITED else m.timestamp);
    var size := if fmt <= 1 then WriteU24BE(|m.payload|) + [m.typeId] else [];
    var stream := if fmt == 0 then WriteU32LE(m.streamId) else [];
    HoldsParts(s, at, time + size, stream);
    HoldsParts(s, at, time, size);
    U24BERoundTrip(s, at, if IsExtended(m) then UNLIMITED else m.timestamp);
    if fmt <= 1 {
      HoldsParts(s, at + 3, WriteU24BE(|m.payload|), [m.typeId]);
      U24BERoundTrip(s, at + 3, |m.payload|);
      HoldsOne(s, at + 6, m.typeId);
    }
    if fmt == 0 {
      U32LERoundTrip(s, at + 7, m.streamId);
    }
  }

  lemma HoldsOne(s: seq<Byte>, at: nat, b: Byte)
    requires Holds(s, at, [b])
    ensures at < |s| && s[at] == b
  {
    assert s[at + 0] == [b][0];
  }

  lemma LeadParts(fmt: int, csId: U32, m: Message, more: seq<Byte>)
    requires 0 <= fmt <= 2 && |m.payload| < 0x100_0000
    ensures var b := BasicHeader(fmt, csId);
            var s := Lead(fmt, csId, m) + more;
            Holds(s, 0, b) && Holds(s, |b|, MessageHeader(fmt, m)) && Holds(s, |b| + MessageHeaderLength(fmt), Extension(m))
  {}

  /** The header fields of a message's first chunk come back as they were written. */
  lemma LeadRead(fmt: int, csId: U32, m: Message, more: seq<Byte>)
    requires 0 <= fmt <= 2 && ParsableId(csId) && |m.payload| < 0x100_0000
    ensures var size := |BasicHeader(fmt, csId)| + MessageHeaderLength(fmt);
      ReadHead(Lead(fmt, csId, m) + more) ==
        Some(Head(fmt, csId, size, Min(m.timestamp, UNLIMITED),
                  if fmt <= 1 then |m.payload| else 0,
                  if fmt <= 1 then m.typeId else 0,
                  if fmt == 0 then m.streamId else 0))
      && (IsExtended(m) ==> size + 4 <= |Lead(fmt, csId, m) + more| && ReadU32BE(Lead(fmt, csId, m) + more, size) == m.ext)
  {
    var b := BasicHeader(fmt, csId);
    var s := Lead(fmt, csId, m) + more;
    LeadParts(fmt, csId, m, more);
    BasicHeaderReadExactly(fmt, csId);
    assert s[0 + 0] == b[0] && (|b| > 1 ==> s[0 + 1] == b[1]);
    MessageHeaderRead(fmt, m, s, |b|);
    if IsExtended(m) {
      U32BERoundTrip(s, |b| + MessageHeaderLength(fmt), m.ext);
    }
  }

  lemma AgainRead(csId: U32, m: Message, more: seq<Byte>)
    requires ParsableId(csId)
    ensures var size := |BasicHeader(3, csId)|;
      ReadHead(Again(csId, m) + more) == Some(Head(3, csId, size, 0, 0, 0, 0))
      && (IsExtended(m) ==> size + 4 <= |Again(csId, m) + more| && ReadU32BE(Again(csId, m) + more, size) == m.ext)
  {
    var b, e := BasicHeader(3, csId), Extension(m);
    var s := Again(csId, m) + more;
    BasicHeaderReadExactly(3, csId);
    assert Holds(s, 0, b + e);
    HoldsParts(s, 0, b, e);
    assert s[0 + 0] == b[0] && (|b| > 1 ==> s[0 + 1] == b[1]);
    if IsExtended(m) {
      U32BERoundTrip(s, |b|, m.ext);
    }
  }
}
