/** Which media messages a sink is sent: a viewer that was told the video format is sent nothing more
    until a key frame comes. The sink as a value, with the trace of what it was sent. */
module MediaGate {
  import opened Bytes

  datatype Media = Video | Audio | AvcHeader | AacHeader

  const TYPE_AUDIO := 8
  const TYPE_VIDEO := 9
  const CHUNK_AUDIO := 4
  const CHUNK_VIDEO := 5
  const CODEC_H264 := 7
  const CODEC_AAC := 10

  predicate IsFrame(media: Media) {
    media.Video? || media.Audio?
  }

  datatype Outgoing = Outgoing(chunkId: nat, typeId: nat, timestamp: nat, streamId: nat, payload: seq<Byte>)

  /** One event of a sink's history: a message handed to the chunk writer, the end of the stream, or a
      video header that the sink published itself. */
  datatype Mark = Sent(media: Media, message: Outgoing) | Deleted | Published(header: seq<Byte>)

  datatype Sink = Sink(closed: bool, playing: bool, keyFrame: bool, avc: seq<Byte>, aac: seq<Byte>,
                       streamId: nat, trace: seq<Mark>)

  function Fresh(streamId: nat): Sink {
    Sink(false, false, false, [], [], streamId, [])
  }

  /** The test looks at the first byte alone, whatever kind of frame the payload is. */
  predicate IsKeyFrame(payload: seq<Byte>)
    requires payload != []
  {
    payload[0] as int / 16 == 1 && payload[0] as int % 16 == CODEC_H264
  }

  function Packed(media: Media, timestamp: nat, streamId: nat, payload: seq<Byte>): Outgoing {
    if media.Video? || media.AvcHeader?
    then Outgoing(CHUNK_VIDEO, TYPE_VIDEO, timestamp, streamId, payload)
    else Outgoing(CHUNK_AUDIO, TYPE_AUDIO, timestamp, streamId, payload)
  }

  /** The sink after it was offered a message. */
  function AfterMedia(s: Sink, media: Media, timestamp: nat, payload: seq<Byte>): Sink {
    if s.closed || payload == [] then s else
      var t := s.(playing := true,
                  avc := if media.AvcHeader? then payload else s.avc,
                  aac := if media.AacHeader? then payload else s.aac);
      if !t.keyFrame && t.avc != [] && IsFrame(media) && !IsKeyFrame(payload) then t else
        t.(keyFrame := t.keyFrame || (t.avc != [] && IsFrame(media)),
           trace := t.trace + [Sent(media, Packed(media, timestamp, s.streamId, payload))])
  }

  /** The same in bytes and numbers. A message goes out on chunk stream 5 with type 9 if it is video and on chunk stream
      4 with type 8 if it is audio. A header is always sent and kept. A frame is sent if the video format is not known
      or the gate is open; otherwise only a first byte of 0x17 is sent, and opens the gate. */
  lemma OfferedExactly(s: Sink, media: Media, timestamp: nat, payload: seq<Byte>)
    ensures var t := AfterMedia(s, media, timestamp, payload);
      if s.closed || payload == [] then t == s else
      var video := Sent(media, Outgoing(5, 9, timestamp, s.streamId, payload));
      var audio := Sent(media, Outgoing(4, 8, timestamp, s.streamId, payload));
      match media
      case AvcHeader => t == s.(playing := true, avc := payload, trace := s.trace + [video])
      case AacHeader => t == s.(playing := true, aac := payload, trace := s.trace + [audio])
      case _ =>
        if s.avc == [] || s.keyFrame then t == s.(playing := true, trace := s.trace + [if media == Video then video else audio])
        else if payload[0] == 0x17 then
          t == s.(playing := true, keyFrame := true, trace := s.trace + [if media == Video then video else audio])
        else t == s.(playing := true)
  {}

  /** The end of a stream: the next viewer's start sends the headers again, and a key frame is waited for. */
  lemma DeletedExactly(s: Sink)
    ensures var t := AfterDelete(s);
      !t.playing && !t.keyFrame && t.trace == s.trace + [Deleted] && t.avc == s.avc && t.aac == s.aac && t.closed == s.closed
  {}

  lemma PublishedExactly(s: Sink, header: seq<Byte>)
    ensures AfterPublished(s, header) == s.(avc := header, trace := s.trace + [Published(header)])
  {}

  function AfterDelete(s: Sink): Sink {
    s.(playing := false, keyFrame := false, trace := s.trace + [Deleted])
  }

  function AfterPublished(s: Sink, header: seq<Byte>): Sink {
    s.(avc := header, trace := s.trace + [Published(header)])
  }

  // ---------- the trace ----------

  predicate IsHeader(mark: Mark) {
    mark.Published? || (mark.Sent? && mark.media.AvcHeader?)
  }

  predicate IsFrameMark(mark: Mark) {
    mark.Sent? && IsFrame(mark.media)
  }

  predicate HeaderSeen(trace: seq<Mark>) {
    exists k :: 0 <= k < |trace| && IsHeader(trace[k])
  }

  /** Since the stream last ended, a frame was sent to a sink that knew the video format. */
  predicate Opened(trace: seq<Mark>) {
    trace != [] &&
    var before, last := trace[..|trace| - 1], trace[|trace| - 1];
    !last.Deleted? && (Opened(before) || (IsFrameMark(last) && HeaderSeen(before)))
  }

  /** Every frame that is the first one since the stream last ended or the video format became known is
      a key frame. */
  ghost predicate Gated(trace: seq<Mark>) {
    forall j :: 0 <= j < |trace| && IsFrameMark(trace[j]) && HeaderSeen(trace[..j]) && !Opened(trace[..j]) ==>
      trace[j].message.payload != [] && IsKeyFrame(trace[j].message.payload)
  }

  /** The flags say what the trace says, and the trace is gated. */
  ghost predicate Sound(s: Sink) {
    && (s.avc != [] <==> HeaderSeen(s.trace))
    && (s.keyFrame <==> Opened(s.trace))
    && (s.keyFrame ==> s.playing)
    && Gated(s.trace)
  }

  lemma Extended(trace: seq<Mark>, mark: Mark)
    ensures HeaderSeen(trace + [mark]) <==> HeaderSeen(trace) || IsHeader(mark)
    ensures Opened(trace + [mark]) <==> !mark.Deleted? && (Opened(trace) || (IsFrameMark(mark) && HeaderSeen(trace)))
    ensures Gated(trace + [mark]) <==>
      (Gated(trace) && (IsFrameMark(mark) && HeaderSeen(trace) && !Opened(trace) ==>
                          mark.message.payload != [] && IsKeyFrame(mark.message.payload)))
  {
    hide IsKeyFrame;
    var longer := trace + [mark];
    assert longer[..|trace|] == trace;
    forall k | 0 <= k < |trace|
      ensures longer[k] == trace[k] && longer[..k] == trace[..k]
    {}
    if HeaderSeen(trace) {
      var k :| 0 <= k < |trace| && IsHeader(trace[k]);
      assert IsHeader(longer[k]);
    }
    if IsHeader(mark) {
      assert IsHeader(longer[|trace|]);
    }
    assert Gated(longer) ==> Gated(trace) by {
      if Gated(longer) {
        forall j | 0 <= j < |trace| && IsFrameMark(trace[j]) && HeaderSeen(trace[..j]) && !Opened(trace[..j])
          ensures trace[j].message.payload != [] && IsKeyFrame(trace[j].message.payload)
        {
          assert IsFrameMark(longer[j]);
        }
      }
    }
    assert IsFrameMark(longer[|trace|]) <==> IsFrameMark(mark);
  }

  /** Offering any message, ending the stream and publishing a header keep the sink sound. */
  lemma MediaKeepsSound(s: Sink, media: Media, timestamp: nat, payload: seq<Byte>)
    requires Sound(s)
    ensures Sound(AfterMedia(s, media, timestamp, payload)) && s.trace <= AfterMedia(s, media, timestamp, payload).trace
  {
    hide HeaderSeen, Opened, Gated;
    Extended(s.trace, Sent(media, Packed(media, timestamp, s.streamId, payload)));
  }

  lemma DeleteKeepsSound(s: Sink)
    requires Sound(s)
    ensures Sound(AfterDelete(s))
  {
    Extended(s.trace, Deleted);
  }

  lemma PublishKeepsSound(s: Sink, header: seq<Byte>)
    requires Sound(s) && header != []
    ensures Sound(AfterPublished(s, header))
  {
    Extended(s.trace, Published(header));
  }

  /** No frame sent and no end of the stream in a stretch of the trace. */
  ghost predicate Quiet(trace: seq<Mark>, lo: nat, hi: nat)
    requires hi <= |trace|
  {
    forall k :: lo <= k < hi ==> !IsFrameMark(trace[k]) && !trace[k].Deleted?
  }

  lemma {:induction false} QuietKeepsShut(trace: seq<Mark>, lo: nat, hi: nat)
    requires lo <= hi <= |trace| && Quiet(trace, lo, hi) && !Opened(trace[..lo])
    ensures !Opened(trace[..hi])
    decreases hi
  {
    if lo < hi {
      QuietKeepsShut(trace, lo, hi - 1);
      assert trace[..hi][..hi - 1] == trace[..hi - 1];
    }
  }

  lemma {:induction false} NoHeaderShut(trace: seq<Mark>, hi: nat)
    requires hi <= |trace| && !HeaderSeen(trace[..hi])
    ensures !Opened(trace[..hi])
    decreases hi
  {
    if hi > 0 {
      assert trace[..hi] == trace[..hi - 1] + [trace[hi - 1]];
      Extended(trace[..hi - 1], trace[hi - 1]);
      NoHeaderShut(trace, hi - 1);
    }
  }

  /** The first frame after the first video header ever is a key frame. */
  lemma FirstFrameAfterHeader(s: Sink, i: nat, j: nat)
    requires Sound(s) && i < j < |s.trace|
    requires IsHeader(s.trace[i]) && !HeaderSeen(s.trace[..i])
    requires IsFrameMark(s.trace[j]) && Quiet(s.trace, i, j)
    ensures s.trace[j].message.payload != [] && s.trace[j].message.payload[0] == 0x17
  {
    NoHeaderShut(s.trace, i);
    QuietKeepsShut(s.trace, i, j);
    assert IsHeader(s.trace[..j][i]);
  }

  /** Once a video header was sent, the first frame after each end of the stream is a key frame. */
  lemma FirstFrameAfterDelete(s: Sink, i: nat, j: nat)
    requires Sound(s) && i < j < |s.trace|
    requires s.trace[i].Deleted? && HeaderSeen(s.trace[..j])
    requires IsFrameMark(s.trace[j]) && Quiet(s.trace, i + 1, j)
    ensures s.trace[j].message.payload != [] && s.trace[j].message.payload[0] == 0x17
  {
    assert s.trace[..i + 1][i].Deleted?;
    QuietKeepsShut(s.trace, i + 1, j);
  }

  // ---------- a header sent again ----------

  datatype Offer = Offer(media: Media, timestamp: nat, payload: seq<Byte>)

  function AfterOffers(s: Sink, offers: seq<Offer>): Sink
    decreases |offers|
  {
    if offers == [] then s
    else AfterOffers(AfterMedia(s, offers[0].media, offers[0].timestamp, offers[0].payload), offers[1..])
  }

  /** The first frame sent at or after position `from` of the trace, if any, starts as a key frame does. */
  ghost predicate KeyFrameFirst(trace: seq<Mark>, from: nat) {
    forall j :: from <= j < |trace| && IsFrameMark(trace[j]) && Quiet(trace, from, j) ==>
      trace[j].message.payload != [] && trace[j].message.payload[0] == 0x17
  }

  lemma {:induction false} OffersKeepSound(s: Sink, offers: seq<Offer>)
    requires Sound(s)
    ensures Sound(AfterOffers(s, offers)) && s.trace <= AfterOffers(s, offers).trace
    decreases |offers|
  {
    if offers != [] {
      MediaKeepsSound(s, offers[0].media, offers[0].timestamp, offers[0].payload);
      OffersKeepSound(AfterMedia(s, offers[0].media, offers[0].timestamp, offers[0].payload), offers[1..]);
    }
  }

  const FRAME: seq<Byte> := [0x27]

  /** Sending a video header makes the viewer wait for a key frame, whatever it is offered next, exactly
      if it was not past one already: a header sent in the middle of a stream does not close the gate again. */
  lemma HeaderGatesExactly(s: Sink, timestamp: nat, header: seq<Byte>)
    requires Sound(s) && !s.closed && header != []
    ensures var h := AfterMedia(s, AvcHeader, timestamp, header);
      (forall offers :: KeyFrameFirst(AfterOffers(h, offers).trace, |h.trace|)) <==> !s.keyFrame
  {
    var h := AfterMedia(s, AvcHeader, timestamp, header);
    MediaKeepsSound(s, AvcHeader, timestamp, header);
    assert h.keyFrame == s.keyFrame;
    if s.keyFrame {
      var offers := [Offer(Video, 0, FRAME)];
      assert AfterOffers(h, offers) == AfterMedia(h, Video, 0, FRAME) by {
        assert offers[1..] == [];
      }
      var trace := AfterOffers(h, offers).trace;
      assert IsFrameMark(trace[|h.trace|]) && Quiet(trace, |h.trace|, |h.trace|) && !IsKeyFrame(FRAME);
      assert !KeyFrameFirst(AfterOffers(h, offers).trace, |h.trace|);
      assert !forall offers :: KeyFrameFirst(AfterOffers(h, offers).trace, |h.trace|);
    } else {
      forall offers
        ensures KeyFrameFirst(AfterOffers(h, offers).trace, |h.trace|)
      {
        GateHolds(h, offers);
      }
    }
  }

  lemma GateHolds(h: Sink, offers: seq<Offer>)
    requires Sound(h) && !h.keyFrame && h.avc != []
    ensures KeyFrameFirst(AfterOffers(h, offers).trace, |h.trace|)
  {
    OffersKeepSound(h, offers);
    var trace := AfterOffers(h, offers).trace;
    assert trace[..|h.trace|] == h.trace;
    var k :| 0 <= k < |h.trace| && IsHeader(h.trace[k]);
    forall j | |h.trace| <= j < |trace| && IsFrameMark(trace[j]) && Quiet(trace, |h.trace|, j)
      ensures trace[j].message.payload != [] && trace[j].message.payload[0] == 0x17
    {
      QuietKeepsShut(trace, |h.trace|, j);
      assert IsHeader(trace[..j][k]);
    }
  }

  // ---------- what a viewer is sent ----------

  /** A viewer that is not yet playing is first offered the stored headers, the audio one before the
      video one. */
  function AfterFanOut(s: Sink, aac: seq<Byte>, avc: seq<Byte>, media: Media, timestamp: nat, payload: seq<Byte>): Sink {
    var ready := if s.playing then s else
                   AfterMedia(AfterMedia(s, AacHeader, timestamp, aac), AvcHeader, timestamp, avc);
    AfterMedia(ready, media, timestamp, payload)
  }

  function Marked(streamId: nat, media: Media, timestamp: nat, payload: seq<Byte>): Mark {
    Sent(media, Packed(media, timestamp, streamId, payload))
  }

  /** A message that is sent unless it is empty. */
  function IfAny(streamId: nat, media: Media, timestamp: nat, payload: seq<Byte>): seq<Mark> {
    if payload == [] then [] else [Marked(streamId, media, timestamp, payload)]
  }

  /** A frame held back by the gate: it is no key frame, and the sink knows the format but waits. */
  predicate Held(s: Sink, media: Media, payload: seq<Byte>)
    requires payload != []
  {
    IsFrame(media) && !IsKeyFrame(payload) && !s.keyFrame && s.avc != []
  }

  /** What one published message makes the session send. A new viewer is sent the stored headers that are
      not empty, the audio one first, and then the message; the others, the message alone. The message
      itself is held back exactly if it is a frame that is not a key frame and the viewer knows the
      format, perhaps only just now, but is still waiting. */
  lemma FanOutExactly(s: Sink, aac: seq<Byte>, avc: seq<Byte>, media: Media, timestamp: nat, payload: seq<Byte>)
    requires Sound(s) && !s.closed && payload != []
    ensures var t := AfterFanOut(s, aac, avc, media, timestamp, payload);
      var first := if s.playing then [] else
                     IfAny(s.streamId, AacHeader, timestamp, aac) + IfAny(s.streamId, AvcHeader, timestamp, avc);
      var held := Held(if s.playing || avc == [] then s else s.(avc := avc), media, payload);
      && t.playing && Sound(t)
      && t.aac == (if media == AacHeader then payload else if s.playing || aac == [] then s.aac else aac)
      && t.avc == (if media == AvcHeader then payload else if s.playing || avc == [] then s.avc else avc)
      && (t.keyFrame <==> s.keyFrame || (media in {Video, Audio} && t.avc != [] && payload[0] == 0x17))
      && t.trace == s.trace + first + if held then [] else [Marked(s.streamId, media, timestamp, payload)]
  {
    hide HeaderSeen, Opened, Gated, Packed;
    if s.playing {
      MediaKeepsSound(s, media, timestamp, payload);
      assert s.trace + [] == s.trace;
    } else {
      hide Sound;
      var a := AfterMedia(s, AacHeader, timestamp, aac);
      var b := AfterMedia(a, AvcHeader, timestamp, avc);
      MediaKeepsSound(s, AacHeader, timestamp, aac);
      MediaKeepsSound(a, AvcHeader, timestamp, avc);
      MediaKeepsSound(b, media, timestamp, payload);
      NewViewer(s, aac, avc, timestamp);
    }
  }

  lemma NewViewer(s: Sink, aac: seq<Byte>, avc: seq<Byte>, timestamp: nat)
    requires !s.closed
    ensures var b := AfterMedia(AfterMedia(s, AacHeader, timestamp, aac), AvcHeader, timestamp, avc);
      && b.trace == s.trace + (IfAny(s.streamId, AacHeader, timestamp, aac) + IfAny(s.streamId, AvcHeader, timestamp, avc))
      && !b.closed && b.streamId == s.streamId && b.keyFrame == s.keyFrame && b.aac == (if aac == [] then s.aac else aac)
      && b.avc == if avc == [] then s.avc else avc
  {}
}
