/** What one call of the chunk parser does, as a function of the parser's state and of the
    bytes it can read. */
module ChunkSpec {
  import opened Bytes

  const UNLIMITED: int := 0xff_ffff  // the 24-bit timestamp that announces an extended one

  datatype Option<+T> = None | Some(value: T)

  datatype Phase = InHeader | InBody

  /** One entry of the parser's message table. `data` is the part of the payload buffer that has
      been received, so the buffer position nIndex is |data|. */
  datatype Slot = Slot(
    timeStamp: U32, length: U32, typeId: Byte, streamId: U32, ext: U32,
    internalTs: U64, csId: Byte, hasBuffer: bool, data: seq<Byte>)

  const FRESH_SLOT := Slot(0, 0, 0, 0, 0, 0, 0, false, [])

  datatype Parser = Parser(phase: Phase, current: int, slots: map<int, Slot>, inChunk: U32)

  function Lookup(slots: map<int, Slot>, csId: int): Slot {
    if csId in slots then slots[csId] else FRESH_SLOT
  }

  // ---------- chunk header ----------

  /** The fields of a chunk header in front of any extended timestamp; `size` is their number of
      bytes. Fields the format leaves out are zero. */
  datatype Head = Head(fmt: int, csId: Byte, size: nat, timeStamp: U24, length: U24, typeId: Byte, streamId: U32)

  function MessageHeaderLength(fmt: int): nat {
    if fmt == 0 then 11 else if fmt == 1 then 7 else if fmt == 2 then 3 else 0
  }

  function BasicHeaderLength(first: Byte): nat {
    if first % 64 == 0 then 2 else if first % 64 == 1 then 3 else 1
  }

  function ReadHead(bytes: seq<Byte>): Option<Head>
    requires bytes != []
  {
    var fmt := bytes[0] / 64;
    var basic := BasicHeaderLength(bytes[0]);
    var size := basic + MessageHeaderLength(fmt);
    if |bytes| < size then None
    else
      // the chunk stream id is kept in eight bits, so the third byte of a long form drops out
      var csId := if basic == 1 then bytes[0] % 64 else (bytes[1] as int + 64) % 0x100;
      Some(Head(fmt, csId, size,
                if fmt <= 2 then ReadU24BE(bytes, basic) else 0,
                if fmt <= 1 then ReadU24BE(bytes, basic + 3) else 0,
                if fmt <= 1 then bytes[basic + 6] else 0,
                if fmt == 0 then ReadU32LE(bytes, basic + 7) else 0))
  }

  /** The changes made to the entry before the extended timestamp is looked at. */
  function Touch(s: Slot, h: Head): Slot {
    var s1 := s.(csId := h.csId);
    var s2 := if h.fmt <= 1
              then s1.(length := h.length, hasBuffer := true, data := [], typeId := h.typeId)
              else s1;
    if h.fmt == 0 then s2.(streamId := h.streamId) else s2
  }

  predicate NeedsExtended(s: Slot, h: Head) {
    h.timeStamp >= UNLIMITED || s.timeStamp >= UNLIMITED
  }

  /** The timestamp update made by the first chunk of a message. */
  function Stamp(s: Slot, h: Head, ext: U32): Slot {
    if s.data != [] then s
    else if h.fmt == 0 then s.(internalTs := 0, timeStamp := h.timeStamp, ext := ext)
    else if s.timeStamp >= UNLIMITED then s.(ext := Add32(s.ext, ext))
    else s.(timeStamp := h.timeStamp)
  }

  // ---------- one call ----------

  /** The result of a call: the new state, the number of bytes consumed (negative for a failure)
      and the completed message, if any. `Undefined` stands for a call the language gives no
      meaning to: a remainder by an input chunk size of zero. */
  datatype Result = Undefined | Result(parser: Parser, used: int, message: Option<Slot>)

  function Touched(p: Parser, h: Head): Parser {
    p.(current := h.csId, slots := p.slots[h.csId as int := Touch(Lookup(p.slots, h.csId), h)])
  }

  function Stamped(p: Parser, h: Head, ext: U32): Parser {
    p.(phase := InBody, slots := p.slots[h.csId as int := Stamp(Lookup(p.slots, h.csId), h, ext)])
  }

  function ParseHeader(p: Parser, bytes: seq<Byte>): Result
    requires bytes != []
  {
    match ReadHead(bytes)
    case None => Result(p, 0, None)
    case Some(h) =>
      var t := Touched(p, h);
      if !NeedsExtended(t.slots[h.csId], h) then Result(Stamped(t, h, 0), h.size, None)
      else if |bytes| < h.size + 4 then Result(t, 0, None)
      else Result(Stamped(t, h, ReadU32BE(bytes, h.size)), h.size + 4, None)
  }

  /** Bytes the next body read wants: what the message still lacks, at most one chunk. */
  function BodySize(s: Slot, inChunk: U32): U32 {
    Min((s.length - |s.data|) % 0x1_0000_0000, inChunk)
  }

  function ParseBodyBytes(p: Parser, bytes: seq<Byte>): Result
  {
    if p.current < 0 then Result(p, -1, None)
    else
      var s := Lookup(p.slots, p.current);
      var n := BodySize(s, p.inChunk);
      if |bytes| < n then Result(p.(slots := p.slots[p.current := s]), 0, None)
      else if |s.data| + n > s.length then Result(p.(slots := p.slots[p.current := s]), -3, None)
      else
        var s' := s.(data := s.data + bytes[..n]);
        var p' := p.(slots := p.slots[p.current := s']);
        if |s'.data| >= s'.length then Result(p'.(phase := InHeader), n, None)
        else if p.inChunk == 0 then Undefined
        else if |s'.data| % p.inChunk == 0 then Result(p'.(phase := InHeader), n, None)
        else Result(p', n, None)
  }

  /** The message as handed out, its timestamp brought up to date. */
  function Complete(s: Slot): Slot {
    s.(internalTs := Add64(s.internalTs, if s.timeStamp >= UNLIMITED then s.ext else s.timeStamp))
  }

  /** The entry as kept for the next message of the same chunk stream. */
  function Cleared(s: Slot): Slot {
    s.(data := [], timeStamp := 0, ext := 0)
  }

  function Deliver(r: Result): Result {
    if r.Undefined? || r.used <= 0 || r.parser.current < 0 then r
    else
      var s := Lookup(r.parser.slots, r.parser.current);
      if |s.data| != s.length then r
      else
        var m := Complete(s);
        Result(r.parser.(current := -1, slots := r.parser.slots[r.parser.current := Cleared(m)]), r.used, Some(m))
  }

  function Parse(p: Parser, bytes: seq<Byte>): Result {
    if bytes == [] then Result(p, 0, None)
    else if p.phase == InHeader then ParseHeader(p, bytes)
    else Deliver(ParseBodyBytes(p, bytes))
  }

  // ---------- the states a parser can reach ----------

  ghost predicate SlotOk(s: Slot) {
    && s.length < 0x100_0000
    && |s.data| <= s.length
    && (s.data != [] ==> |s.data| < s.length)
    && (!s.hasBuffer ==> s.length == 0)
  }

  ghost predicate Reachable(p: Parser) {
    && (forall k <- p.slots :: 0 <= k < 0x100 && p.slots[k].csId == k && SlotOk(p.slots[k]))
    && (p.phase == InBody ==> p.current in p.slots)
  }

  lemma HeaderSafe(p: Parser, bytes: seq<Byte>)
    requires Reachable(p) && bytes != []
    ensures var r := ParseHeader(p, bytes);
      r.Result? && 0 <= r.used <= |bytes| && r.message.None? && Reachable(r.parser)
  {
    match ReadHead(bytes)
    case None =>
    case Some(h) =>
      var s := Touch(Lookup(p.slots, h.csId), h);
      assert SlotOk(s);
      assert forall e: U32 :: SlotOk(Stamp(s, h, e)) && Stamp(s, h, e).csId == h.csId;
  }

  lemma BodySafe(p: Parser, bytes: seq<Byte>)
    requires Reachable(p) && p.phase == InBody
    ensures var r := ParseBodyBytes(p, bytes);
      r != Undefined ==>
        && 0 <= r.used <= |bytes| && r.message.None? && r.parser.current == p.current && p.current in r.parser.slots
        && (forall k <- r.parser.slots :: 0 <= k < 0x100 && r.parser.slots[k].csId == k)
        && (forall k <- r.parser.slots :: k != p.current ==> SlotOk(r.parser.slots[k]))
        && var s := r.parser.slots[p.current];
           s.length < 0x100_0000 && |s.data| <= s.length && (!s.hasBuffer ==> s.length == 0)
           && (r.used == 0 ==> SlotOk(s))
           && (|s.data| == s.length ==> r.parser.phase == InHeader)
  {
  }

  /** Every call on a reachable state consumes no more than it was given, never fails, and keeps
      the state reachable; a message it hands out is complete and owns a buffer. */
  lemma ParseSafe(p: Parser, bytes: seq<Byte>)
    requires Reachable(p) && Parse(p, bytes) != Undefined
    ensures var r := Parse(p, bytes);
      && 0 <= r.used <= |bytes|
      && Reachable(r.parser)
      && (r.message.Some? ==>
            var m := r.message.value;
            0 < |m.data| == m.length && m.hasBuffer && r.used > 0 && r.parser.phase == InHeader && p.current == m.csId)
  {
    if bytes != [] {
      if p.phase == InHeader {
        HeaderSafe(p, bytes);
      } else {
        BodySafe(p, bytes);
      }
    }
  }

  /** A call is meaningless exactly when it is to copy a body piece of a message that still lacks
      bytes while the input chunk size is zero. */
  lemma UndefinedExactly(p: Parser, bytes: seq<Byte>)
    requires Reachable(p)
    ensures Parse(p, bytes) == Undefined <==>
            bytes != [] && p.phase == InBody && p.inChunk == 0
            && |p.slots[p.current].data| < p.slots[p.current].length
  {}
}
