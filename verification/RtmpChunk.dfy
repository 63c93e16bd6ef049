/** The chunk parser and writer as they work on the heap: a table of messages whose payload buffers
    are filled in place, and whose completed payloads are handed out without being copied. */
module RtmpChunks {
  import opened Bytes
  import opened ChunkSpec
  import opened BufferReaders

  /** A message entry. Copying it shares the payload buffer. */
  datatype RtmpMessage = RtmpMessage(
    timeStamp: U32, length: U32, typeId: Byte, streamId: U32, ext: U32,
    internalTs: U64, csId: Byte, index: nat, payload: array?<Byte>)

  const BLANK := RtmpMessage(0, 0, 0, 0, 0, 0, 0, 0, null)

  ghost predicate Filled(m: RtmpMessage) {
    m.index <= if m.payload == null then 0 else m.payload.Length
  }

  ghost function SlotOf(m: RtmpMessage): Slot
    requires Filled(m)
    reads m.payload
  {
    Slot(m.timeStamp, m.length, m.typeId, m.streamId, m.ext, m.internalTs, m.csId, m.payload != null,
         if m.payload == null then [] else m.payload[..m.index])
  }

  ghost predicate EntryOk(m: RtmpMessage) {
    && m.length < 0x100_0000 && m.index <= m.length
    && (if m.payload == null then m.length == 0 else m.payload.Length == m.length)
  }

  // ---------- the table of messages ----------

  type Table = map<int, RtmpMessage>

  /** The payload buffers of a table. */
  ghost function BuffersOf(t: Table): set<array<Byte>> {
    set k | k in t && t[k].payload != null :: t[k].payload
  }

  ghost function OwnBuffer(m: RtmpMessage): set<array<Byte>> {
    if m.payload == null then {} else {m.payload}
  }

  /** No other entry has this buffer. */
  ghost predicate Alone(t: Table, k: int, payload: array?<Byte>) {
    payload != null ==> forall j <- t :: j != k ==> t[j].payload != payload
  }

  /** Every entry is filed under its own stream id and owns its buffer. */
  ghost predicate TableOk(t: Table) {
    && (forall k <- t :: 0 <= k < 0x100 && t[k].csId == k && EntryOk(t[k]))
    && (forall k <- t :: Alone(t, k, t[k].payload))
  }

  /** No message is complete, except perhaps one. */
  ghost predicate Unfinished(t: Table, but: int) {
    forall k <- t :: k != but && t[k].index > 0 ==> t[k].index < t[k].length
  }

  /** The table as the specification sees it. */
  ghost function SlotsOf(t: Table): map<int, Slot>
    requires TableOk(t)
    reads BuffersOf(t)
  {
    map k | k in t :: SlotOf(t[k])
  }

  function EntryOf(t: Table, k: int): RtmpMessage {
    if k in t then t[k] else BLANK
  }

  lemma EntryFacts(t: Table, k: int)
    requires TableOk(t)
    ensures var m := EntryOf(t, k);
      && EntryOk(m) && SlotOf(m) == Lookup(SlotsOf(t), k) && Alone(t, k, m.payload) && OwnBuffer(m) <= BuffersOf(t)
      && (k in t <==> k in SlotsOf(t)) && (k in t ==> m.csId == k)
  {}

  lemma NewBufferIsAlone(t: Table, k: int, payload: array<Byte>)
    requires payload !in BuffersOf(t)
    ensures Alone(t, k, payload)
  {}

  /** Filing an entry under its stream id. */
  lemma Filed(t: Table, m: RtmpMessage)
    requires TableOk(t) && EntryOk(m) && Alone(t, m.csId, m.payload)
    ensures var t' := t[m.csId as int := m];
      && TableOk(t') && SlotsOf(t') == SlotsOf(t)[m.csId as int := SlotOf(m)]
  {
    var t' := t[m.csId as int := m];
    forall k | k in t'
      ensures Alone(t', k, t'[k].payload)
    {
      assert k != m.csId ==> Alone(t, k, t[k].payload);
    }
  }

  lemma FiledBuffers(t: Table, m: RtmpMessage)
    ensures BuffersOf(t[m.csId as int := m]) <= BuffersOf(t) + OwnBuffer(m)
  {}

  /** A new buffer takes the place of the old one, which is then nowhere in the table. */
  lemma FiledAnew(t: Table, m: RtmpMessage)
    requires TableOk(t) && m.csId as int in t && t[m.csId].payload != null && m.payload != t[m.csId].payload
    ensures t[m.csId].payload !in BuffersOf(t[m.csId as int := m])
  {
    assert Alone(t, m.csId, t[m.csId].payload);
  }

  lemma FiledUnfinished(t: Table, m: RtmpMessage, but: int)
    requires Unfinished(t, but) && (m.csId != but && m.index > 0 ==> m.index < m.length)
    ensures Unfinished(t[m.csId as int := m], but)
  {}

  lemma NotYetComplete(t: Table, k: int, but: int)
    requires Unfinished(t, but) && k != but
    ensures var m := EntryOf(t, k); m.index > 0 ==> m.index < m.length
  {}

  lemma OneMayFinish(t: Table, m: RtmpMessage, k: int)
    requires TableOk(t) && Unfinished(t, -1) && m.csId == k
    ensures Unfinished(t[k := m], k)
    ensures k in t && m.index == t[k].index && m.length == t[k].length ==> Unfinished(t[k := m], -1)
  {}

  lemma NoneMayFinish(t: Table, m: RtmpMessage)
    requires Unfinished(t, m.csId) && m.index == 0
    ensures Unfinished(t[m.csId as int := m], -1)
  {}

  /** An entry without data, with a new buffer, takes the place of a complete one. */
  lemma Reset(t: Table, m: RtmpMessage)
    requires TableOk(t) && Unfinished(t, m.csId) && m.csId as int in t && t[m.csId].payload != null
    requires EntryOk(m) && m.index == 0 && m.payload != null && m.payload !in BuffersOf(t)
    ensures var t' := t[m.csId as int := m];
      && TableOk(t') && Unfinished(t', -1) && SlotsOf(t') == SlotsOf(t)[m.csId as int := SlotOf(m)]
      && BuffersOf(t') <= BuffersOf(t) + {m.payload} && t[m.csId].payload !in BuffersOf(t')
  {
    EntryFacts(t, m.csId);
    hide TableOk, SlotsOf, Unfinished, BuffersOf, EntryOk, SlotOf;
    NewBufferIsAlone(t, m.csId, m.payload);
    Filed(t, m);
    FiledBuffers(t, m);
    FiledAnew(t, m);
    NoneMayFinish(t, m);
  }

  lemma AllUnfinished(t: Table, k: int)
    requires Unfinished(t, k) && k in t && t[k].index < t[k].length
    ensures Unfinished(t, -1)
  {}

  lemma EntryTime(t: Table, k: int)
    requires TableOk(t) && k in t
    ensures k in SlotsOf(t) && SlotsOf(t)[k].timeStamp == t[k].timeStamp
  {}

  /** Sizes of an entry and of its slot. */
  lemma BodyFacts(t: Table, k: int)
    requires TableOk(t) && k in t
    ensures k in SlotsOf(t) && k >= 0
    ensures var m, s := t[k], SlotsOf(t)[k];
      && |s.data| == m.index <= m.length == s.length < 0x100_0000 && (m.payload == null ==> m.length == 0)
      && SlotsOf(t)[k := s] == SlotsOf(t)
  {}

  /** Whether a header comes next, behind a piece of a message. */
  predicate PieceEnds(s: Slot, chunk: nat) {
    |s.data| >= s.length || (chunk > 0 && |s.data| % chunk == 0)
  }

  function WithPiece(slots: map<int, Slot>, k: int, piece: seq<Byte>): map<int, Slot>
    requires k in slots
  {
    slots[k := slots[k].(data := slots[k].data + piece)]
  }

  lemma KeptSlots(t: Table, slots: map<int, Slot>)
    requires TableOk(t) && slots.Keys == t.Keys && forall j <- t :: SlotOf(t[j]) == slots[j]
    ensures SlotsOf(t) == slots
  {
    AllFacts(t);
    hide SlotsOf, TableOk;
    var s := SlotsOf(t);
    assert forall j <- t.Keys :: s[j] == slots[j];
    assert s.Keys == slots.Keys;
  }

  lemma Others(t: Table, k: int)
    requires TableOk(t) && k in t
    ensures forall j <- t :: j != k && t[j].payload != null ==> t[j].payload != t[k].payload
  {}

  lemma AllFacts(t: Table)
    requires TableOk(t)
    ensures SlotsOf(t).Keys == t.Keys && forall j <- t :: Filled(t[j]) && SlotOf(t[j]) == SlotsOf(t)[j]
  {}

  /** What reading a header comes to, step by step. */
  lemma HeaderSteps(p: Parser, bytes: seq<Byte>)
    requires bytes != []
    ensures ReadHead(bytes).None? ==> ParseHeader(p, bytes) == Result(p, 0, None)
    ensures ReadHead(bytes).Some? ==>
      var h := ReadHead(bytes).value; var t := Touched(p, h);
      && h.size <= |bytes| && h.csId in t.slots
      && var needs := h.timeStamp >= UNLIMITED || t.slots[h.csId].timeStamp >= UNLIMITED;
         ParseHeader(p, bytes) ==
           if !needs then Result(Stamped(t, h, 0), h.size, None)
           else if |bytes| < h.size + 4 then Result(t, 0, None)
           else Result(Stamped(t, h, ReadU32BE(bytes, h.size)), h.size + 4, None)
  {}

  /** What reading a body comes to, when the entry is not overfull. */
  lemma BodySteps(p: Parser, bytes: seq<Byte>)
    requires p.current >= 0 && p.current in p.slots && p.phase == InBody && p.slots[p.current := p.slots[p.current]] == p.slots
    requires |p.slots[p.current].data| <= p.slots[p.current].length < 0x100_0000
    ensures var s := p.slots[p.current]; var n := BodySize(s, p.inChunk);
      if |bytes| < n then ParseBodyBytes(p, bytes) == Result(p, 0, None)
      else
        var slots := WithPiece(p.slots, p.current, bytes[..n]);
        && |s.data| + n <= s.length
        && (ParseBodyBytes(p, bytes) != Undefined ==>
              && (|s.data| + n < s.length ==> p.inChunk > 0)
              && ParseBodyBytes(p, bytes) ==
                   Result(p.(slots := slots, phase := if PieceEnds(slots[p.current], p.inChunk) then InHeader else InBody), n, None))
  {}

  lemma NoMessages()
    ensures TableOk(map[]) && Unfinished(map[], -1) && SlotsOf(map[]) == map[] && BuffersOf(map[]) == {}
  {}

  // ---------- the parser ----------

  class RtmpChunk {
    var phase: Phase
    var chunkStreamId: int
    var inChunkSize: U32
    var outChunkSize: U32
    var messages: Table

    constructor ()
      ensures Valid() && State() == Parser(InHeader, -1, map[], 128) && outChunkSize == 128
    {
      phase, chunkStreamId, inChunkSize, outChunkSize, messages := InHeader, -1, 128, 128, map[];
      NoMessages();
    }

    /** The payload buffers being filled. */
    ghost function Buffers(): set<array<Byte>>
      reads this`messages
    {
      BuffersOf(messages)
    }

    ghost predicate Valid()
      reads this
    {
      && TableOk(messages) && Unfinished(messages, -1)
      && (phase == InBody ==> chunkStreamId in messages)
    }

    /** The parser state of the specification. */
    ghost function State(): Parser
      reads this, Buffers()
      requires TableOk(messages)
    {
      Parser(phase, chunkStreamId, SlotsOf(messages), inChunkSize)
    }

    twostate lemma SameSlots()
      requires old(TableOk(messages)) && messages == old(messages)
      requires forall k <- messages :: messages[k].payload != null ==> unchanged(messages[k].payload)
      ensures SlotsOf(messages) == old(SlotsOf(messages))
    {
      assert forall k <- messages :: SlotOf(messages[k]) == old(SlotOf(messages[k]));
    }

    lemma ValidIsReachable()
      requires Valid()
      ensures Reachable(State())
    {}

    method SetInChunkSize(n: U32)
      requires Valid()
      modifies this`inChunkSize
      ensures Valid() && State() == old(State()).(inChunk := n)
    {
      inChunkSize := n;
      SameSlots();
    }

    method SetOutChunkSize(n: U32)
      modifies this`outChunkSize
      ensures outChunkSize == n
    {
      outChunkSize := n;
    }

    method Clear()
      requires Valid() && phase == InHeader
      modifies this`messages
      ensures Valid() && State() == old(State()).(slots := map[]) && Buffers() == {}
    {
      NoMessages();
      hide TableOk, SlotsOf, Unfinished, BuffersOf;
      messages := map[];
    }

    /** Decodes the fixed part of a chunk header. */
    static method DecodeHead(bytes: seq<Byte>) returns (head: Option<Head>)
      requires bytes != []
      ensures head == ReadHead(bytes)
    {
      var fmt := bytes[0] / 64;
      var csId: int := bytes[0] % 64;
      var at := 1;
      if csId == 0 {
        if |bytes| < 2 { return None; }
        csId := (bytes[1] as int + 64) % 0x100;
        at := 2;
      } else if csId == 1 {
        if |bytes| < 3 { return None; }
        csId := (bytes[2] as int * 0x100 + bytes[1] + 64) % 0x100;
        at := 3;
      }
      var size := at + MessageHeaderLength(fmt);
      if |bytes| < size { return None; }
      var time, length, typeId, streamId := 0, 0, 0, 0;
      if fmt <= 2 { time := ReadU24BE(bytes, at); }
      if fmt <= 1 { length, typeId := ReadU24BE(bytes, at + 3), bytes[at + 6]; }
      if fmt == 0 { streamId := ReadU32LE(bytes, at + 7); }
      head := Some(Head(fmt, csId, size, time, length, typeId, streamId));
    }

    /** Starts a message, with a buffer of its length, if the header says so. */
    static method Announce(entry: RtmpMessage, h: Head) returns (m: RtmpMessage)
      requires EntryOk(entry)
      ensures EntryOk(m) && SlotOf(m) == Touch(SlotOf(entry), h) && m.csId == h.csId
      ensures m.payload != entry.payload ==> m.payload != null && fresh(m.payload)
      ensures m.index > 0 ==> m.index == entry.index && m.length == entry.length
    {
      m := entry.(csId := h.csId);
      if h.fmt <= 1 {
        if m.length != h.length || m.payload == null {
          var replacement := new Byte[h.length];
          m := m.(length := h.length, payload := replacement);
        }
        m := m.(index := 0, typeId := h.typeId);
      }
      if h.fmt == 0 {
        m := m.(streamId := h.streamId);
      }
    }

    /** The timestamp fields are set by the first chunk of a message only. */
    static method SetTime(entry: RtmpMessage, h: Head, ext: U32) returns (m: RtmpMessage)
      requires EntryOk(entry)
      ensures EntryOk(m) && SlotOf(m) == Stamp(SlotOf(entry), h, ext)
      ensures m.payload == entry.payload && m.index == entry.index && m.length == entry.length && m.csId == entry.csId
    {
      m := entry;
      if m.index == 0 {
        if h.fmt == 0 {
          m := m.(internalTs := 0, timeStamp := h.timeStamp, ext := ext);
        } else if m.timeStamp >= UNLIMITED {
          m := m.(ext := Add32(m.ext, ext));
        } else {
          m := m.(timeStamp := h.timeStamp);
        }
      }
    }

    /** The entry of the announced chunk stream, with what the fixed header says filed in. */
    method BeginChunk(h: Head) returns (m: RtmpMessage)
      requires Valid() && phase == InHeader
      modifies this`messages, this`chunkStreamId
      ensures Valid() && State() == Touched(old(State()), h)
      ensures fresh(Buffers() - old(Buffers()))
      ensures h.csId in messages && m == messages[h.csId] && chunkStreamId == h.csId
    {
      hide TableOk, SlotsOf, Unfinished, Alone, EntryOk, SlotOf, Touch;
      EntryFacts(messages, h.csId);
      var entry := EntryOf(messages, h.csId);
      NotYetComplete(messages, h.csId, -1);
      m := Announce(entry, h);
      if m.payload != entry.payload {
        NewBufferIsAlone(messages, h.csId, m.payload);
      }
      Filed(messages, m);
      FiledBuffers(messages, m);
      FiledUnfinished(messages, m, -1);
      messages := messages[m.csId as int := m];
      chunkStreamId := h.csId;
    }

    method EndHeader(m: RtmpMessage, h: Head, ext: U32)
      requires Valid() && phase == InHeader && h.csId in messages && m == messages[h.csId] && chunkStreamId == h.csId
      modifies this`messages, this`phase
      ensures Valid() && State() == Stamped(old(State()), h, ext)
      ensures Buffers() <= old(Buffers())
    {
      hide TableOk, SlotsOf, Unfinished, Alone, EntryOk, SlotOf, Stamp;
      EntryFacts(messages, h.csId);
      NotYetComplete(messages, h.csId, -1);
      var m' := SetTime(m, h, ext);
      Filed(messages, m');
      FiledBuffers(messages, m');
      FiledUnfinished(messages, m', -1);
      messages := messages[m'.csId as int := m'];
      phase := InBody;
    }

    /** Reads one chunk header, or as much of it as has arrived. */
    method ParseChunkHeader(buffer: BufferReader) returns (used: nat)
      requires Valid() && buffer.Valid() && buffer.Contents() != []
      requires phase == InHeader
      modifies this`messages, this`chunkStreamId, this`phase, buffer`readIndex, buffer`writeIndex
      ensures Valid() && buffer.Valid() && fresh(Buffers() - old(Buffers()))
      ensures Result(State(), used, None) == ParseHeader(old(State()), old(buffer.Contents()))
      ensures used <= |old(buffer.Contents())| && buffer.Contents() == old(buffer.Contents())[used..]
    {
      hide ReadHead, Touched, Stamped, ParseHeader, TableOk, SlotsOf, Unfinished, EntryOk, SlotOf, ReadU32BE;
      var bytes := buffer.Peek();
      SameSlots();
      HeaderSteps(State(), bytes);
      var head := DecodeHead(bytes);
      if head.None? { return 0; }
      var h := head.value;
      var m := BeginChunk(h);
      EntryTime(messages, h.csId);
      var at := h.size;
      var ext: U32 := 0;
      if h.timeStamp >= UNLIMITED || m.timeStamp >= UNLIMITED {
        if |bytes| < at + 4 { return 0; }
        ext := ReadU32BE(bytes, at);
        at := at + 4;
      }
      EndHeader(m, h, ext);
      buffer.Retrieve(at);
      used := at;
    }

    /** Copies bytes behind the received part of a payload. */
    static method CopyBehind(m: RtmpMessage, bytes: seq<Byte>)
      requires EntryOk(m) && m.index + |bytes| <= m.length
      modifies if m.payload == null then {} else {m.payload}
      ensures m.payload != null ==> m.payload[..m.index] == old(m.payload[..m.index])
      ensures SlotOf(m) == old(SlotOf(m))
      ensures EntryOk(m.(index := m.index + |bytes|))
      ensures SlotOf(m.(index := m.index + |bytes|)) == old(SlotOf(m)).(data := old(SlotOf(m)).data + bytes)
    {
      if |bytes| > 0 {
        forall i | 0 <= i < |bytes| {
          m.payload[m.index + i] := bytes[i];
        }
        assert m.payload[..m.index] == old(m.payload[..m.index]);
        assert m.payload[..m.index + |bytes|] == old(m.payload[..m.index]) + bytes;
      }
    }

    /** Copies bytes behind the received part of an entry's payload. No entry shares the buffer. */
    method CopyIn(k: int, bytes: seq<Byte>)
      requires TableOk(messages) && k in messages && messages[k].index + |bytes| <= messages[k].length
      modifies Buffers()
      ensures SlotsOf(messages) == old(SlotsOf(messages))
      ensures var m := messages[k]; var m' := m.(index := m.index + |bytes|);
        EntryOk(m') && SlotOf(m') == SlotsOf(messages)[k].(data := SlotsOf(messages)[k].data + bytes)
    {
      EntryFacts(messages, k);
      AllFacts(messages);
      Others(messages, k);
      hide TableOk, SlotsOf, BuffersOf, Alone, EntryOk, SlotOf;
      ghost var slots := SlotsOf(messages);
      CopyBehind(messages[k], bytes);
      forall j | j in messages
        ensures SlotOf(messages[j]) == slots[j]
      {
        assert SlotOf(messages[j]) == old(SlotOf(messages[j]));
      }
      KeptSlots(messages, slots);
    }

    /** The entry of the current chunk stream receives a piece, in place. */
    method Receive(bytes: seq<Byte>)
      requires Valid() && chunkStreamId in messages
      requires messages[chunkStreamId].index + |bytes| <= messages[chunkStreamId].length
      modifies this`messages, Buffers()
      ensures TableOk(messages) && Buffers() <= old(Buffers()) && Unfinished(messages, chunkStreamId)
      ensures chunkStreamId in messages && (bytes == [] ==> Unfinished(messages, -1))
      ensures var s := old(SlotsOf(messages))[chunkStreamId];
              SlotsOf(messages) == old(SlotsOf(messages))[chunkStreamId := s.(data := s.data + bytes)]
    {
      hide TableOk, SlotsOf, Unfinished, BuffersOf, Alone, EntryOk, SlotOf;
      var k := chunkStreamId;
      EntryFacts(messages, k);
      CopyIn(k, bytes);
      var m := messages[k];
      m := m.(index := m.index + |bytes|);
      Filed(messages, m);
      FiledBuffers(messages, m);
      OneMayFinish(messages, m, k);
      messages := messages[k := m];
    }

    /** Valid, except that the current message may be complete. */
    ghost predicate ValidButComplete()
      reads this
    {
      && TableOk(messages) && chunkStreamId in messages && Unfinished(messages, chunkStreamId)
      && (messages[chunkStreamId].index == messages[chunkStreamId].length ==> phase == InHeader)
    }

    /** A header comes next once the message is complete or a whole chunk has been received. */
    method EndPiece()
      requires TableOk(messages) && chunkStreamId in messages
      requires messages[chunkStreamId].index < messages[chunkStreamId].length ==> inChunkSize > 0
      modifies this`phase
      ensures phase == if PieceEnds(SlotsOf(messages)[chunkStreamId], inChunkSize) then InHeader else old(phase)
    {
      BodyFacts(messages, chunkStreamId);
      hide TableOk, SlotsOf, BuffersOf;
      var m := messages[chunkStreamId];
      if m.index >= m.length || m.index % inChunkSize == 0 {
        phase := InHeader;
      }
    }

    /** How much of the current message the next body read wants. */
    method Wanted() returns (n: U32)
      requires Valid() && phase == InBody
      ensures n == BodySize(SlotsOf(messages)[chunkStreamId], inChunkSize)
    {
      BodyFacts(messages, chunkStreamId);
      hide TableOk, SlotsOf, Unfinished, BuffersOf, Alone;
      var m := messages[chunkStreamId];
      n := Min((m.length - m.index) % 0x1_0000_0000, inChunkSize);
    }

    /** The piece is copied, and the parser knows what comes next. */
    method TakePiece(piece: seq<Byte>)
      requires Valid() && phase == InBody
      requires var s := SlotsOf(messages)[chunkStreamId];
        |s.data| + |piece| <= s.length && (|s.data| + |piece| < s.length ==> inChunkSize > 0)
      modifies this`messages, this`phase, Buffers()
      ensures TableOk(messages) && Unfinished(messages, if piece == [] then -1 else chunkStreamId) && chunkStreamId in messages
      ensures Buffers() <= old(Buffers())
      ensures SlotsOf(messages) == WithPiece(old(SlotsOf(messages)), chunkStreamId, piece)
      ensures phase == if PieceEnds(SlotsOf(messages)[chunkStreamId], inChunkSize) then InHeader else InBody
    {
      BodyFacts(messages, chunkStreamId);
      hide TableOk, SlotsOf, Unfinished, Alone, BuffersOf, PieceEnds;
      Receive(piece);
      BodyFacts(messages, chunkStreamId);
      EndPiece();
    }

    /** Takes the next piece of the current message from unread bytes, if it is all there. */
    method TakeFrom(bytes: seq<Byte>) returns (enough: bool, used: nat)
      requires Valid() && phase == InBody && ParseBodyBytes(State(), bytes) != Undefined
      modifies this`messages, this`phase, Buffers()
      ensures ValidButComplete() && Buffers() <= old(Buffers())
      ensures Result(State(), used, None) == ParseBodyBytes(old(State()), bytes)
      ensures used <= |bytes| && (!enough ==> used == 0)
      ensures if used == 0 then Valid() else messages[chunkStreamId].length > 0
    {
      BodyFacts(messages, chunkStreamId);
      hide TableOk, SlotsOf, Unfinished, BuffersOf, ParseBodyBytes, BodySize;
      BodySteps(State(), bytes);
      var n := Wanted();
      if |bytes| < n {
        MayBeComplete();
        return false, 0;
      }
      TakePiece(bytes[..n]);
      BodyFacts(messages, chunkStreamId);
      return true, n;
    }

    lemma MayBeComplete()
      requires Valid() && chunkStreamId in messages && messages[chunkStreamId].index < messages[chunkStreamId].length
      ensures ValidButComplete()
    {}

    /** Copies the next piece of the current message into its buffer, in place. On the states a
        parser reaches, the stream id is valid and the piece always fits. */
    method ParseChunkBody(buffer: BufferReader) returns (used: nat)
      requires Valid() && buffer.Valid() && buffer.buffer !in Buffers()
      requires phase == InBody && ParseBodyBytes(State(), buffer.Contents()) != Undefined
      modifies this`messages, this`phase, Buffers(), buffer`readIndex, buffer`writeIndex
      ensures ValidButComplete() && Buffers() <= old(Buffers())
      ensures buffer.Valid() && buffer.buffer !in Buffers()
      ensures Result(State(), used, None) == ParseBodyBytes(old(State()), old(buffer.Contents()))
      ensures used <= |old(buffer.Contents())| && buffer.Contents() == old(buffer.Contents())[used..]
      ensures if used == 0 then Valid() else messages[chunkStreamId].length > 0
    {
      hide TableOk, SlotsOf, Unfinished, ParseBodyBytes, ValidButComplete;
      var bytes := buffer.Peek();
      var enough;
      enough, used := TakeFrom(bytes);
      if enough {
        buffer.Retrieve(used);
      }
    }

    /** Resets an entry for the next message. The payload buffer is replaced, not reused. */
    static method Cleared(entry: RtmpMessage) returns (m: RtmpMessage)
      requires EntryOk(entry)
      ensures EntryOk(m) && m.csId == entry.csId && m.index == 0
      ensures SlotOf(m) == ChunkSpec.Cleared(SlotOf(entry))
      ensures entry.length > 0 ==> m.payload != null && fresh(m.payload)
      ensures entry.length == 0 ==> m.payload == entry.payload
    {
      m := entry.(index := 0, timeStamp := 0, ext := 0);
      if m.length > 0 {
        var replacement := new Byte[m.length];
        m := m.(payload := replacement);
      }
    }

    /** The entry of a complete message is reset. Its buffer leaves the table. */
    method Release(m: RtmpMessage)
      requires TableOk(messages) && Unfinished(messages, chunkStreamId) && chunkStreamId in messages && phase == InHeader
      requires EntryOk(m) && m.csId == chunkStreamId && m.length > 0 && m.payload == messages[chunkStreamId].payload
      modifies this`messages, this`chunkStreamId
      ensures Valid() && fresh(Buffers() - old(Buffers())) && chunkStreamId == -1
      ensures SlotsOf(messages) == old(SlotsOf(messages))[m.csId as int := ChunkSpec.Cleared(old(SlotOf(m)))]
      ensures m.payload != null && m.payload in old(Buffers()) && m.payload !in Buffers()
    {
      EntryFacts(messages, chunkStreamId);
      assert m.payload != null && m.payload in BuffersOf(messages);
      ghost var slots, s := SlotsOf(messages), SlotOf(m);
      hide TableOk, SlotsOf, Unfinished, Alone, EntryOk, SlotOf;
      var c := Cleared(m);
      assert SlotsOf(messages) == slots;
      assert SlotOf(c) == ChunkSpec.Cleared(s);
      assert c.payload !in BuffersOf(messages);
      Reset(messages, c);
      hide BuffersOf;
      chunkStreamId := -1;
      messages := messages[m.csId as int := c];
    }

    /** Hands out the current message if it is complete. */
    method Emit() returns (msg: Option<RtmpMessage>)
      requires ValidButComplete()
      requires messages[chunkStreamId].index == messages[chunkStreamId].length ==> messages[chunkStreamId].length > 0
      modifies this`messages, this`chunkStreamId
      ensures Valid() && fresh(Buffers() - old(Buffers()))
      ensures var r := Deliver(Result(old(State()), 1, None));
        && State() == r.parser
        && msg.Some? == r.message.Some?
        && (msg.Some? ==> EntryOk(msg.value) && SlotOf(msg.value) == r.message.value && msg.value.payload != null
                          && msg.value.payload in old(Buffers()) && msg.value.payload !in Buffers())
    {
      var k := chunkStreamId;
      EntryFacts(messages, k);
      BodyFacts(messages, k);
      var m := messages[k];
      if m.index != m.length {
        AllUnfinished(messages, k);
        return None;
      }
      m := m.(internalTs := Add64(m.internalTs, if m.timeStamp >= UNLIMITED then m.ext else m.timeStamp));
      assert EntryOk(m) && SlotOf(m) == Complete(SlotsOf(messages)[k]);
      hide TableOk, SlotsOf, Unfinished, BuffersOf, Alone, EntryOk, SlotOf, ChunkSpec.Cleared, Complete;
      msg := Some(m);
      Release(m);
    }

    /** One call of the parser: a header, or a piece of a body and with it perhaps a message. */
    method Parse(buffer: BufferReader) returns (used: nat, msg: Option<RtmpMessage>)
      requires Valid() && buffer.Valid() && buffer.buffer !in Buffers()
      requires ChunkSpec.Parse(State(), buffer.Contents()) != Undefined
      modifies this`messages, this`chunkStreamId, this`phase, Buffers(), buffer`readIndex, buffer`writeIndex
      ensures Valid() && buffer.Valid() && buffer.buffer !in Buffers() && fresh(Buffers() - old(Buffers()))
      ensures used <= |old(buffer.Contents())| && buffer.Contents() == old(buffer.Contents())[used..]
      ensures var r := ChunkSpec.Parse(old(State()), old(buffer.Contents()));
        && State() == r.parser && used == r.used
        && msg.Some? == r.message.Some?
        && (msg.Some? ==> EntryOk(msg.value) && SlotOf(msg.value) == r.message.value && msg.value.payload != null
                          && msg.value.payload in old(Buffers()) && msg.value.payload !in Buffers())
    {
      hide ParseHeader, ParseBodyBytes, SlotOf, BodySize, TableOk, SlotsOf, Unfinished, EntryOk;
      used, msg := 0, None;
      var readable := buffer.Readable();
      SameSlots();
      if readable == 0 { return; }
      if phase == InHeader {
        used := ParseChunkHeader(buffer);
      } else {
        used := ParseChunkBody(buffer);
        if used > 0 {
          msg := Emit();
        }
      }
    }
  }
}
