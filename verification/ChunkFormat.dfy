/** The chunk format byte by byte, in plain numbers: what the writer puts on the wire and what the parser makes of
    it, each on its own. */
module ChunkFormat {
  import opened Bytes
  import opened ChunkSpec
  import opened ChunkStream
  import opened ChunkWire
  import opened RtmpChunkWriter

  // ---------- the writer ----------

  /** The four bytes of an extended timestamp, if there is one. From 16777215 on the three-byte field cannot hold
      the time. */
  function Time4(m: Message): seq<Byte> {
    if m.timestamp < 16777215 then []
    else [m.ext / 16777216, m.ext / 65536 % 256, m.ext / 256 % 256, m.ext % 256]
  }

  function Time3(m: Message): seq<Byte> {
    if m.timestamp < 16777215 then [m.timestamp / 65536, m.timestamp / 256 % 256, m.timestamp % 256] else [255, 255, 255]
  }

  /** Length, type and message stream. */
  function Sizes(m: Message): seq<Byte>
    requires |m.payload| < 16777216
  {
    var n, sid := |m.payload|, m.streamId;
    [n / 65536, n / 256 % 256, n % 256, m.typeId, sid % 256, sid / 256 % 256, sid / 65536 % 256, sid / 16777216]
  }

  /** The first chunk: twelve bytes of header, or sixteen, and then the payload. */
  lemma FirstChunk(csId: U32, m: Message, chunk: nat)
    requires 2 <= csId <= 63 && |m.payload| < 16777216 && chunk > 0
    ensures var n := if chunk < |m.payload| then chunk else |m.payload|;
      Encoded(csId, m, chunk) == [csId] + Time3(m) + Sizes(m) + Time4(m) + m.payload[..n] + Later(csId, m, chunk, chunk)
  {
    var n := |m.payload|;
    assert n / 65536 % 256 == n / 65536;
    assert BasicHeader(0, csId) == [csId];
    assert Time3(m) == WriteU24BE(if IsExtended(m) then UNLIMITED else m.timestamp);
    assert MessageHeader(0, m) == Time3(m) + Sizes(m);
    assert Extension(m) == Time4(m);
    var first := Lead(0, csId, m) + Piece(m.payload, 0, chunk);
    assert first == [csId] + Time3(m) + Sizes(m) + Time4(m) + m.payload[..Min(chunk, n)];
    assert Chunks(0, csId, m, chunk) == [first] + LaterChunks(csId, m, chunk, chunk);
  }

  /** The bytes of the chunks from payload position `from` on. */
  function Later(csId: U32, m: Message, chunk: nat, from: nat): seq<Byte>
    requires chunk > 0
  {
    Flatten(LaterChunks(csId, m, chunk, from))
  }

  /** Each later chunk: one byte of header, the four bytes of time again, and the next piece. */
  lemma LaterChunk(csId: U32, m: Message, chunk: nat, from: nat)
    requires 2 <= csId <= 63 && chunk > 0
    ensures Later(csId, m, chunk, from) ==
      if from >= |m.payload| then []
      else
        var until := if from + chunk < |m.payload| then from + chunk else |m.payload|;
        [192 + csId] + Time4(m) + m.payload[from..until] + Later(csId, m, chunk, from + chunk)
  {
    assert Extension(m) == Time4(m);
    if from < |m.payload| {
      var cs := LaterChunks(csId, m, chunk, from);
      assert cs[0] == [192 + csId] + Time4(m) + m.payload[from..Min(from + chunk, |m.payload|)];
      assert cs[1..] == LaterChunks(csId, m, chunk, from + chunk);
    }
  }

  /** Chunk stream ids that do not fit six bits take one or two bytes more. */
  lemma LongIds(fmt: int, csId: U32)
    requires 0 <= fmt <= 3
    ensures csId < 64 ==> BasicHeader(fmt, csId) == [64 * fmt + csId]
    ensures 64 <= csId <= 319 ==> BasicHeader(fmt, csId) == [64 * fmt, csId - 64]
    ensures 320 <= csId <= 65599 ==> BasicHeader(fmt, csId) == [64 * fmt + 1, (csId - 64) % 256, (csId - 64) / 256]
  {}

  // ---------- the parser ----------

  /** A header has been read: the entry of its chunk stream is `s`, and a body comes next. */
  function Opens(p: Parser, k: Byte, s: Slot, used: nat): Result {
    Result(p.(phase := InBody, current := k, slots := p.slots[k as int := s]), used, None)
  }

  /** The parser waits for more bytes, and the phase is as before. */
  predicate Waits(p: Parser, r: Result) {
    r.Result? && r.used == 0 && r.message == None && r.parser.phase == p.phase
  }

  function Number3(bytes: seq<Byte>, at: nat): int
    requires at + 3 <= |bytes|
  {
    65536 * bytes[at] as int + 256 * bytes[at + 1] as int + bytes[at + 2]
  }

  /** Four bytes, the most significant first. */
  function Number4(bytes: seq<Byte>, at: nat): int
    requires at + 4 <= |bytes|
  {
    16777216 * bytes[at] as int + 65536 * bytes[at + 1] as int + 256 * bytes[at + 2] as int + bytes[at + 3]
  }

  /** A first byte from 2 to 63: twelve bytes with time, length, type and message stream. Four more if the time is
      16777215, or the entry's last one was. */
  lemma Format0Read(p: Parser, bytes: seq<Byte>)
    requires bytes != [] && 2 <= bytes[0] <= 63
    ensures |bytes| < 12 ==> ParseHeader(p, bytes) == Result(p, 0, None)
    ensures |bytes| >= 12 ==>
      var k, t, r := bytes[0], Number3(bytes, 1), ParseHeader(p, bytes);
      var sid := bytes[8] as int + 256 * bytes[9] as int + 65536 * bytes[10] as int + 16777216 * bytes[11] as int;
      if t < 16777215 && Lookup(p.slots, k).timeStamp < 16777215 then
        r == Opens(p, k, Slot(t, Number3(bytes, 4), bytes[7], sid, 0, 0, k, true, []), 12)
      else if |bytes| < 16 then Waits(p, r)
      else r == Opens(p, k, Slot(t, Number3(bytes, 4), bytes[7], sid, Number4(bytes, 12), 0, k, true, []), 16)
  {}

  /** From 66 to 127: eight bytes with time difference, length and type; the message stream is the entry's. */
  lemma Format1Read(p: Parser, bytes: seq<Byte>)
    requires bytes != [] && 66 <= bytes[0] <= 127
    ensures |bytes| < 8 ==> ParseHeader(p, bytes) == Result(p, 0, None)
    ensures |bytes| >= 8 ==>
      var k, t, r := bytes[0] - 64, Number3(bytes, 1), ParseHeader(p, bytes);
      var s := Lookup(p.slots, k);
      var s' := s.(csId := k, length := Number3(bytes, 4), typeId := bytes[7], hasBuffer := true, data := []);
      if t < 16777215 && s.timeStamp < 16777215 then r == Opens(p, k, s'.(timeStamp := t), 8)
      else if |bytes| < 12 then Waits(p, r)
      else if s.timeStamp < 16777215 then r == Opens(p, k, s'.(timeStamp := t), 12)
      else r == Opens(p, k, s'.(ext := (s.ext + Number4(bytes, 8)) % 4294967296), 12)
  {}

  /** From 130 to 191: four bytes with the time difference, which counts at the start of a message only. */
  lemma Format2Read(p: Parser, bytes: seq<Byte>)
    requires bytes != [] && 130 <= bytes[0] <= 191
    ensures |bytes| < 4 ==> ParseHeader(p, bytes) == Result(p, 0, None)
    ensures |bytes| >= 4 ==>
      var k, t, r := bytes[0] - 128, Number3(bytes, 1), ParseHeader(p, bytes);
      var s := Lookup(p.slots, k).(csId := k);
      if t < 16777215 && s.timeStamp < 16777215 then r == Opens(p, k, if s.data == [] then s.(timeStamp := t) else s, 4)
      else if |bytes| < 8 then Waits(p, r)
      else if s.data != [] then r == Opens(p, k, s, 8)
      else if s.timeStamp < 16777215 then r == Opens(p, k, s.(timeStamp := t), 8)
      else r == Opens(p, k, s.(ext := (s.ext + Number4(bytes, 4)) % 4294967296), 8)
  {}

  /** From 194 on: one byte, and the time again if the entry's needs it. */
  lemma Format3Read(p: Parser, bytes: seq<Byte>)
    requires bytes != [] && 194 <= bytes[0] <= 255
    ensures var k, r := bytes[0] - 192, ParseHeader(p, bytes);
      var s := Lookup(p.slots, k).(csId := k);
      if s.timeStamp < 16777215 then r == Opens(p, k, if s.data == [] then s.(timeStamp := 0) else s, 1)
      else if |bytes| < 5 then Waits(p, r)
      else if s.data != [] then r == Opens(p, k, s, 5)
      else r == Opens(p, k, s.(ext := (s.ext + Number4(bytes, 1)) % 4294967296), 5)
  {}

  /** The longer forms of the first byte: the chunk stream id is in the second byte, and what follows is as behind the
      short form. */
  lemma LongIdRead(p: Parser, bytes: seq<Byte>)
    requires bytes != [] && bytes[0] % 64 < 2
    ensures var basic := if bytes[0] % 64 == 0 then 2 else 3; var fmt := bytes[0] / 64;
      var fields := if fmt == 0 then 11 else if fmt == 1 then 7 else if fmt == 2 then 3 else 0;
      if |bytes| < basic + fields then ParseHeader(p, bytes) == Result(p, 0, None)
      else
        var k := (bytes[1] as int + 64) % 256;
        2 <= k <= 63 ==>
          var r, r' := ParseHeader(p, bytes), ParseHeader(p, [64 * fmt + k] + bytes[basic..]);
          r.Result? && r'.Result? && r.parser == r'.parser && (r.used == if r'.used == 0 then 0 else r'.used + basic - 1)
  {
    hide Touched, Stamped, NeedsExtended;
    var basic, fmt := if bytes[0] % 64 == 0 then 2 else 3, bytes[0] / 64;
    if |bytes| >= basic + MessageHeaderLength(fmt) && 2 <= (bytes[1] as int + 64) % 256 <= 63 {
      var short := [64 * fmt + (bytes[1] as int + 64) % 256] + bytes[basic..];
      assert forall i :: basic <= i < |bytes| ==> bytes[i] == short[i - basic + 1];
      SameFields(bytes, basic, short, fmt);
      SameHead(bytes, basic, short, fmt);
      SameParse(p, bytes, short, basic);
    }
  }

  lemma SameHead(bytes: seq<Byte>, basic: nat, short: seq<Byte>, fmt: int)
    requires bytes != [] && short != [] && bytes[0] % 64 < 2 && fmt == bytes[0] / 64 && basic == BasicHeaderLength(bytes[0])
    requires basic + MessageHeaderLength(fmt) <= |bytes| && |short| == |bytes| - basic + 1
    requires 2 <= (bytes[1] as int + 64) % 256 <= 63 && short[0] == 64 * fmt + (bytes[1] as int + 64) % 256
    requires fmt <= 2 ==> ReadU24BE(bytes, basic) == ReadU24BE(short, 1)
    requires fmt <= 1 ==> ReadU24BE(bytes, basic + 3) == ReadU24BE(short, 4) && bytes[basic + 6] == short[7]
    requires fmt == 0 ==> ReadU32LE(bytes, basic + 7) == ReadU32LE(short, 8)
    ensures ReadHead(bytes).Some? && ReadHead(bytes).value.size == basic + MessageHeaderLength(fmt)
    ensures ReadHead(short) == Some(ReadHead(bytes).value.(size := 1 + MessageHeaderLength(fmt)))
  {
    hide ReadU24BE, ReadU32LE;
  }

  lemma SameParse(p: Parser, bytes: seq<Byte>, short: seq<Byte>, basic: nat)
    requires bytes != [] && short != [] && basic >= 1 && |short| == |bytes| - basic + 1
    requires ReadHead(bytes).Some? && ReadHead(bytes).value.size >= basic
    requires ReadHead(short) == Some(ReadHead(bytes).value.(size := ReadHead(bytes).value.size - basic + 1))
    requires var size := ReadHead(bytes).value.size; size + 4 <= |bytes| ==> ReadU32BE(bytes, size) == ReadU32BE(short, size - basic + 1)
    ensures var r, r' := ParseHeader(p, bytes), ParseHeader(p, short);
      r.Result? && r'.Result? && r.parser == r'.parser && (r.used == if r'.used == 0 then 0 else r'.used + basic - 1)
  {
    hide ReadHead, ReadU32BE;
  }

  lemma SameFields(bytes: seq<Byte>, basic: nat, short: seq<Byte>, fmt: int)
    requires 2 <= basic && basic + MessageHeaderLength(fmt) <= |bytes| && |short| == |bytes| - basic + 1 && 0 <= fmt <= 3
    requires forall i :: basic <= i < |bytes| ==> bytes[i] == short[i - basic + 1]
    ensures fmt <= 2 ==> ReadU24BE(bytes, basic) == ReadU24BE(short, 1)
    ensures fmt <= 1 ==> ReadU24BE(bytes, basic + 3) == ReadU24BE(short, 4) && bytes[basic + 6] == short[7]
    ensures fmt == 0 ==> ReadU32LE(bytes, basic + 7) == ReadU32LE(short, 8)
    ensures var size := basic + MessageHeaderLength(fmt); size + 4 <= |bytes| ==> ReadU32BE(bytes, size) == ReadU32BE(short, size - basic + 1)
  {}

  /** A piece of a body: what the message lacks, at most a chunk. The message that becomes complete comes out with its
      time, and its entry is emptied. */
  lemma BodyRead(p: Parser, bytes: seq<Byte>)
    requires bytes != [] && p.phase == InBody && p.current >= 0 && p.current in p.slots && p.inChunk > 0
    requires var s := p.slots[p.current]; |s.data| < s.length < 16777216
    ensures var k, s := p.current, p.slots[p.current];
      var n := if s.length - |s.data| < p.inChunk then s.length - |s.data| else p.inChunk;
      if |bytes| < n then Parse(p, bytes) == Result(p, 0, None)
      else
        var data := s.data + bytes[..n];
        var time := (s.internalTs + if s.timeStamp >= 16777215 then s.ext else s.timeStamp) % 18446744073709551616;
        Parse(p, bytes) ==
          if |data| < s.length then
            Result(p.(slots := p.slots[k := s.(data := data)], phase := if |data| % p.inChunk == 0 then InHeader else InBody), n, None)
          else
            Result(p.(slots := p.slots[k := s.(data := [], timeStamp := 0, ext := 0, internalTs := time)], phase := InHeader, current := -1),
                   n, Some(s.(data := data, internalTs := time)))
  {
    var k, s := p.current, p.slots[p.current];
    var n := BodySize(s, p.inChunk);
    assert n == Min(s.length - |s.data|, p.inChunk);
    assert p.slots[k := s] == p.slots;
    if n <= |bytes| {
      var s' := s.(data := s.data + bytes[..n]);
      assert p.slots[k := s'][k := Cleared(Complete(s'))] == p.slots[k := Cleared(Complete(s'))];
    }
  }
}
