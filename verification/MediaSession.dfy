/** A live stream: the session that fans a publisher's messages out to the viewers, and the sinks, each
    with its own key-frame gate. */
module MediaSessions {
  import opened Bytes
  import opened MediaGate

  datatype Role = Idle | Player | Publisher

  /** A video message that describes the stream: it starts like an H.264 key frame, then a zero. */
  predicate IsAvcHeader(first: Byte, second: Byte) {
    first as int / 16 == 1 && first as int % 16 == CODEC_H264 && second == 0
  }

  predicate IsAacHeader(first: Byte, second: Byte) {
    first as int / 16 == CODEC_AAC && second == 0
  }

  /** In bytes: 0x17 0x00 and 0xa_ 0x00. */
  lemma HeadersInBytes(first: Byte, second: Byte)
    ensures IsAvcHeader(first, second) <==> first == 0x17 && second == 0
    ensures IsAacHeader(first, second) <==> 0xa0 <= first <= 0xaf && second == 0
  {}

  /** What the server is told when a stream ends. */
  datatype Notice = NoNotice | PublishStop | PlayStop

  class RtmpSink {
    const id: nat
    var role: Role
    var closed: bool
    var playing: bool
    var publishing: bool
    var keyFrame: bool
    var avc: seq<Byte>
    var aac: seq<Byte>
    var streamId: nat
    ghost var trace: seq<Mark>

    ghost function State(): Sink
      reads this
    {
      Sink(closed, playing, keyFrame, avc, aac, streamId, trace)
    }

    ghost predicate Valid()
      reads this
    {
      Sound(State())
    }

    constructor (id: nat, streamId: nat)
      ensures Valid() && this.id == id && role == Idle && !publishing && State() == Fresh(streamId)
      ensures !closed && !playing && !keyFrame && avc == [] && aac == [] && trace == [] && this.streamId == streamId
    {
      this.id, this.streamId, role := id, streamId, Idle;
      closed, playing, publishing, keyFrame := false, false, false, false;
      avc, aac, trace := [], [], [];
    }

    method SendMediaData(media: Media, timestamp: nat, payload: seq<Byte>) returns (ok: bool)
      requires Valid()
      modifies this`playing, this`keyFrame, this`avc, this`aac, this`trace
      ensures Valid() && State() == AfterMedia(old(State()), media, timestamp, payload)
      ensures ok <==> !closed && payload != []
    {
      hide Sound, Packed, IsKeyFrame;
      MediaKeepsSound(State(), media, timestamp, payload);
      if closed {
        return false;
      }
      if payload == [] {
        return false;
      }
      playing := true;
      if media.AvcHeader? {
        avc := payload;
      } else if media.AacHeader? {
        aac := payload;
      }
      if !keyFrame && avc != [] && !media.AvcHeader? && !media.AacHeader? {
        if IsKeyFrame(payload) {
          keyFrame := true;
        } else {
          return true;
        }
      }
      trace := trace + [Sent(media, Packed(media, timestamp, streamId, payload))];
      return true;
    }

    /** What the session does for one viewer. */
    method Serve(aac: seq<Byte>, avc: seq<Byte>, media: Media, timestamp: nat, payload: seq<Byte>)
      requires Valid()
      modifies this`playing, this`keyFrame, this`avc, this`aac, this`trace
      ensures Valid() && State() == AfterFanOut(old(State()), aac, avc, media, timestamp, payload)
    {
      hide AfterMedia, Sound;
      if !playing {
        var _ := SendMediaData(AacHeader, timestamp, aac);
        var _ := SendMediaData(AvcHeader, timestamp, avc);
      }
      var _ := SendMediaData(media, timestamp, payload);
    }

    /** A client asks to publish. It may not if the session has a publisher that still exists, and not twice. */
    method HandlePublish(session: RtmpSession, alive: set<RtmpSink>) returns (ok: bool)
      requires Valid() && session.Valid()
      modifies this`role, this`publishing, session
      ensures Valid() && session.Valid() && State() == old(State())
      ensures ok <==> !closed && old(role) != Publisher && (old(session.publisher) == null || old(session.publisher) !in alive)
      ensures if ok then
          && role == Publisher && publishing && session.publisher == this && session.hasPublisher
          && session.sinks == old(session.sinks)[id := this] && session.avc == session.aac == []
        else
          && role == old(role) && publishing == old(publishing) && session.publisher == old(session.publisher)
          && session.hasPublisher == old(session.hasPublisher) && session.sinks == old(session.sinks)
          && session.avc == old(session.avc) && session.aac == old(session.aac)
    {
      hide Sound;
      if closed || (session.publisher != null && session.publisher in alive) || role == Publisher {
        return false;
      }
      role, publishing := Publisher, true;
      session.AddSink(this);
      return true;
    }

    /** A client asks to watch. A publisher that does becomes a viewer; its session still has it as publisher. */
    method HandlePlay(session: RtmpSession) returns (ok: bool)
      requires Valid() && session.Valid()
      modifies this`role, session`sinks
      ensures Valid() && session.Valid() && State() == old(State())
      ensures ok <==> !closed
      ensures role == (if ok then Player else old(role))
      ensures session.sinks == if ok then old(session.sinks)[id := this] else old(session.sinks)
    {
      hide Sound;
      if closed {
        return false;
      }
      role := Player;
      session.Enter(this);
      return true;
    }

    /** A client ends its stream: if it has one and the session still exists, the flags are reset, the server is told
        which kind of stream it was, and the session is to remove the sink a little later. The role stays. */
    method HandleDeleteStream(hasPath: bool, session: RtmpSession?) returns (ok: bool, notice: Notice, removeLater: bool)
      requires Valid()
      modifies this`playing, this`publishing, this`keyFrame, this`trace
      ensures Valid()
      ensures ok <==> !hasPath || session != null
      ensures removeLater <==> hasPath && session != null
      ensures notice == if !removeLater then NoNotice else if old(publishing) then PublishStop else PlayStop
      ensures State() == if removeLater then AfterDelete(old(State())) else old(State())
      ensures publishing == (old(publishing) && !removeLater)
    {
      DeleteKeepsSound(State());
      if !hasPath {
        return true, NoNotice, false;
      }
      if session == null {
        return false, NoNotice, false;
      }
      notice := if publishing then PublishStop else PlayStop;
      playing := false;
      publishing := false;
      keyFrame := false;
      trace := trace + [Deleted];
      return true, notice, true;
    }

    method KeepAvc(payload: seq<Byte>)
      requires Valid() && payload != []
      modifies this`avc, this`trace
      ensures Valid() && State() == AfterPublished(old(State()), payload)
    {
      hide Sound;
      PublishKeepsSound(State(), payload);
      avc := payload;
      trace := trace + [Published(payload)];
    }

    method KeepAac(payload: seq<Byte>)
      requires Valid()
      modifies this`aac
      ensures Valid() && State() == old(State()).(aac := payload)
    {
      aac := payload;
    }

    /** A video message from this sink's connection. A stream description is kept, here and in the
        session, before the message goes to the viewers. `behind` is the byte in memory behind a message
        of one byte, which is looked at as well. */
    method HandleVideo(session: RtmpSession, timestamp: nat, payload: seq<Byte>, behind: Byte, alive: set<RtmpSink>)
      requires Valid() && session.Valid() && payload != []
      modifies this, session, session.sinks.Values
      ensures Valid() && session.Valid() && session.sinks == session.Living(old(session.sinks), alive)
      ensures
        var header := IsAvcHeader(payload[0], (payload + [behind])[1]);
        var media := if header then AvcHeader else Video;
        && session.avc == (if header then payload else old(session.avc)) && session.aac == old(session.aac)
        && forall s :: s == this || s in old(session.sinks).Values ==>
             var was := if header && s == this then AfterPublished(old(State()), payload) else old(s.State());
             s.role == old(s.role) && s.State() ==
               if s in old(session.sinks).Values && s in alive && s.role.Player?
               then AfterFanOut(was, session.aac, session.avc, media, timestamp, payload) else was
    {
      hide AfterFanOut, Sound;
      var media := Video;
      if IsAvcHeader(payload[0], (payload + [behind])[1]) {
        KeepAvc(payload);
        session.avc := payload;
        media := AvcHeader;
      }
      session.SendMediaData(media, timestamp, payload, alive);
    }

    method HandleAudio(session: RtmpSession, timestamp: nat, payload: seq<Byte>, behind: Byte, alive: set<RtmpSink>)
      requires Valid() && session.Valid() && payload != []
      modifies this, session, session.sinks.Values
      ensures Valid() && session.Valid() && session.sinks == session.Living(old(session.sinks), alive)
      ensures
        var header := IsAacHeader(payload[0], (payload + [behind])[1]);
        var media := if header then AacHeader else Audio;
        && session.aac == (if header then payload else old(session.aac)) && session.avc == old(session.avc)
        && forall s :: s == this || s in old(session.sinks).Values ==>
             var was := if header && s == this then old(State()).(aac := payload) else old(s.State());
             s.role == old(s.role) && s.State() ==
               if s in old(session.sinks).Values && s in alive && s.role.Player?
               then AfterFanOut(was, session.aac, session.avc, media, timestamp, payload) else was
    {
      hide AfterFanOut, Sound;
      var media := Audio;
      if IsAacHeader(payload[0], (payload + [behind])[1]) {
        KeepAac(payload);
        session.aac := payload;
        media := AacHeader;
      }
      session.SendMediaData(media, timestamp, payload, alive);
    }
  }

  class RtmpSession {
    /** The sinks by id. The session does not keep them alive: which still exist is a parameter below. */
    var sinks: map<nat, RtmpSink>
    var avc: seq<Byte>
    var aac: seq<Byte>
    var hasPublisher: bool
    var publisher: RtmpSink?

    ghost predicate Valid()
      reads this, sinks.Values
    {
      forall i <- sinks :: sinks[i].id == i && sinks[i].Valid()
    }

    /** The sinks that still exist stay in the table. */
    static lemma LivingExactly(sinks: map<nat, RtmpSink>, alive: set<RtmpSink>)
      ensures forall i :: i in Living(sinks, alive) <==> i in sinks && sinks[i] in alive
      ensures forall i <- Living(sinks, alive) :: Living(sinks, alive)[i] == sinks[i]
    {}

    static function Living(sinks: map<nat, RtmpSink>, alive: set<RtmpSink>): map<nat, RtmpSink> {
      map i | i in sinks && sinks[i] in alive :: sinks[i]
    }

    constructor ()
      ensures Valid() && sinks == map[] && avc == aac == [] && !hasPublisher && publisher == null
    {
      sinks, avc, aac, hasPublisher, publisher := map[], [], [], false, null;
    }

    method Enter(sink: RtmpSink)
      requires Valid() && sink.Valid()
      modifies this`sinks
      ensures Valid() && sinks == old(sinks)[sink.id := sink]
    {
      sinks := sinks[sink.id := sink];
    }

    /** A publisher that joins starts a stream: what was known about the old one is forgotten. */
    method AddSink(sink: RtmpSink)
      requires Valid() && sink.Valid()
      modifies this
      ensures Valid() && sinks == old(sinks)[sink.id := sink]
      ensures if sink.role.Publisher? then avc == aac == [] && hasPublisher && publisher == sink
              else avc == old(avc) && aac == old(aac) && hasPublisher == old(hasPublisher) && publisher == old(publisher)
    {
      Enter(sink);
      if sink.role.Publisher? {
        avc, aac := [], [];
        hasPublisher := true;
        publisher := sink;
      }
    }

    method RemoveSink(sink: RtmpSink)
      requires Valid()
      modifies this
      ensures Valid() && sinks == old(sinks) - {sink.id} && publisher == old(publisher)
      ensures if sink.role.Publisher? then avc == aac == [] && !hasPublisher
              else avc == old(avc) && aac == old(aac) && hasPublisher == old(hasPublisher)
    {
      if sink.role.Publisher? {
        avc, aac := [], [];
        hasPublisher := false;
      }
      sinks := sinks - {sink.id};
    }

    method Visit(sink: RtmpSink, media: Media, timestamp: nat, payload: seq<Byte>, alive: set<RtmpSink>)
      requires sink.Valid()
      modifies this`sinks, sink`playing, sink`keyFrame, sink`avc, sink`aac, sink`trace
      ensures sinks == if sink in alive then old(sinks) else old(sinks) - {sink.id}
      ensures sink.Valid()
      ensures sink.State() == if sink in alive && sink.role.Player?
                              then AfterFanOut(old(sink.State()), aac, avc, media, timestamp, payload) else old(sink.State())
    {
      hide AfterFanOut, Sound;
      if sink !in alive {
        sinks := sinks - {sink.id};
      } else if sink.role.Player? {
        sink.Serve(aac, avc, media, timestamp, payload);
      }
    }

    /** The fan-out. Sinks that are gone leave the table; a new viewer first gets the stored headers. */
    method SendMediaData(media: Media, timestamp: nat, payload: seq<Byte>, alive: set<RtmpSink>)
      requires Valid()
      modifies this`sinks, sinks.Values`playing, sinks.Values`keyFrame, sinks.Values`avc, sinks.Values`aac, sinks.Values`trace
      ensures Valid() && sinks == Living(old(sinks), alive)
      ensures forall i <- old(sinks) :: var s := old(sinks)[i];
                s.Valid() && s.role == old(s.role) && s.State() ==
                  if s in alive && s.role.Player?
                  then AfterFanOut(old(s.State()), aac, avc, media, timestamp, payload) else old(s.State())
    {
      hide AfterFanOut, RtmpSink.State, RtmpSink.Valid;
      ghost var all := sinks;
      var todo := sinks.Keys;
      while todo != {}
        invariant todo <= sinks.Keys && sinks.Keys <= all.Keys
        invariant forall i <- all :: all[i].id == i && all[i].Valid()
        invariant forall i <- all :: i in sinks <==> i in todo || all[i] in alive
        invariant forall i <- sinks :: sinks[i] == all[i]
        invariant forall i <- all ::
                    all[i].State() == if i !in todo && all[i] in alive && all[i].role.Player?
                                      then AfterFanOut(old(all[i].State()), aac, avc, media, timestamp, payload)
                                      else old(all[i].State())
        decreases todo
      {
        var i :| i in todo;
        Visit(sinks[i], media, timestamp, payload, alive);
        todo := todo - {i};
      }
    }
  }
}
