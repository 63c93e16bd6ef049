/** The signalling server's objects: connections edit each other through the registry of codes. */
module SigConnections {
  import opened SignalSpec

  /** The registry of joined clients. */
  class ConnectionManager {
    var conns: map<string, SigConnection>

    constructor ()
      ensures conns == map[]
    {
      conns := map[];
    }

    method AddConn(code: string, conn: SigConnection)
      modifies this
      ensures conns == if code == "" || code in old(conns) then old(conns) else old(conns)[code := conn]
    {
      if code == "" { return; }
      if code !in conns {
        conns := conns[code := conn];
      }
    }

    method RemoveConn(code: string)
      modifies this
      ensures conns == if code == "" then old(conns) else old(conns) - {code}
    {
      if code == "" { return; }
      if code in conns {
        conns := conns - {code};
      }
    }

    method QueryConn(code: string) returns (conn: SigConnection?)
      ensures if code in conns then conn == conns[code] else conn == null
    {
      conn := if code in conns then conns[code] else null;
    }
  }

  /** All connections of the server and its registry, as a value. */
  ghost function View(all: set<SigConnection>, manager: ConnectionManager): World<SigConnection>
    reads all, manager
  {
    World(map c | c in all :: c.Record(), manager.conns)
  }

  lemma ViewHas(all: set<SigConnection>, manager: ConnectionManager, c: SigConnection)
    requires c in all
    ensures var w := View(all, manager); c in w.conns && w.conns[c] == c.Record() && w.registry == manager.conns
  {}

  ghost predicate Connected(all: set<SigConnection>, manager: ConnectionManager)
    reads manager
  {
    forall k <- manager.conns :: manager.conns[k] in all
  }

  lemma LastUpdatesWin(m: map<SigConnection, Conn>, y: SigConnection, x: SigConnection, a: Conn, b: Conn, a': Conn, b': Conn)
    requires x != y
    ensures m[y := a][x := b][y := a'][x := b'] == m[y := a'][x := b']
  {}

  class SigConnection {
    var state: Role
    var code: string
    var address: string
    var partners: seq<string>
    var sent: seq<Packet>

    constructor ()
      ensures Record() == NEWCOMER
    {
      state, code, address, partners, sent := NONE, "", "", [], [];
    }

    ghost function Record(): Conn
      reads this
    {
      Conn(state, code, address, partners, sent)
    }

    method Send(p: Packet)
      modifies this`sent
      ensures Record() == SignalSpec.Send(old(Record()), p)
    {
      sent := sent + [p];
    }

    method AddClient(other: string)
      modifies this`partners
      ensures Record() == SignalSpec.AddClient(old(Record()), other)
    {
      for i := 0 to |partners|
        invariant other !in partners[..i]
      {
        if partners[i] == other { return; }
      }
      assert other !in partners[..|partners|];
      partners := partners + [other];
    }

    method RemoveClient(other: string)
      modifies this`partners, this`state
      ensures Record() == SignalSpec.RemoveClient(old(Record()), other)
    {
      if partners == [] { return; }
      var kept := [];
      for i := 0 to |partners|
        invariant kept + Without(partners[i..], other) == Without(partners, other)
      {
        assert partners[i..][1..] == partners[i + 1..];
        if partners[i] != other {
          kept := kept + [partners[i]];
        }
      }
      partners := kept;
      if partners == [] {
        state := IDLE;
      }
    }
  
    // The handlers. `all` is the set of the server's connections.

    /** This connection's partner has left: strike its code off and send the notice. */
    method Leave(other: string, ghost all: set<SigConnection>, manager: ConnectionManager)
      requires this in all
      modifies this`partners, this`state, this`sent
      ensures View(all, manager) ==
        old(View(all, manager)).(conns := old(View(all, manager).conns[this := SignalSpec.Leave(Record(), other)]))
    {
      RemoveClient(other);
      Send(DeleteStream(|partners|));
      assert forall c <- all :: c != this ==> c.Record() == old(c.Record());
    }

    /** Walks the partner list. No connection is its own partner, so the list is not edited while it
        is walked. */
    method NotifyPartners(ghost all: set<SigConnection>, manager: ConnectionManager)
      requires this in all && Connected(all, manager)
      requires forall p <- partners :: p in manager.conns ==> manager.conns[p] != this
      modifies all
      ensures Record() == old(Record())
      ensures View(all, manager) == NotifyAll(old(View(all, manager)), code, partners)
    {
      hide SignalSpec.Leave;
      ghost var w := View(all, manager);
      for i := 0 to |partners|
        invariant Record() == old(Record())
        invariant NotifyAll(View(all, manager), code, partners[i..]) == NotifyAll(w, code, partners)
      {
        assert partners[i..][0] == partners[i] && partners[i..][1..] == partners[i + 1..];
        assert partners[i] in partners;
        var conn := manager.QueryConn(partners[i]);
        if conn != null {
          conn.Leave(code, all, manager);
        }
      }
    }

    method SetState(role: Role, ghost all: set<SigConnection>, manager: ConnectionManager)
      requires this in all
      modifies this`state
      ensures View(all, manager) == old(View(all, manager)).(conns := old(View(all, manager).conns)[this := old(Record()).(state := role)])
    {
      state := role;
      assert forall c <- all :: c != this ==> c.Record() == old(c.Record());
    }

    /** The connection departs. */
    method Clear(ghost all: set<SigConnection>, manager: ConnectionManager)
      requires this in all && Connected(all, manager)
      requires forall p <- partners :: p in manager.conns ==> manager.conns[p] != this
      modifies all, manager
      ensures Connected(all, manager)
      ensures View(all, manager) == SignalSpec.Clear(old(View(all, manager)), this)
    {
      hide NotifyAll;
      SetState(CLOSE, all, manager);
      NotifyPartners(all, manager);
      ghost var w2 := View(all, manager);
      partners := [];
      manager.RemoveConn(code);
      assert View(all, manager).conns == w2.conns[this := w2.conns[this].(partners := [])];
    }
  
    method SendTo(p: Packet, ghost all: set<SigConnection>, manager: ConnectionManager)
      requires this in all
      modifies this`sent
      ensures View(all, manager) == Reply(old(View(all, manager)), this, p)
    {
      Send(p);
      assert forall c <- all :: c != this ==> c.Record() == old(c.Record());
    }

    method Enroll(id: string, ghost all: set<SigConnection>, manager: ConnectionManager)
      requires this in all && id !in manager.conns
      modifies this`code, this`state, manager
      ensures View(all, manager) ==
        World(old(View(all, manager).conns)[this := old(Record()).(code := id, state := IDLE)],
              if id == "" then old(manager.conns) else old(manager.conns)[id := this])
    {
      code, state := id, IDLE;
      manager.AddConn(id, this);
      assert forall c <- all :: c != this ==> c.Record() == old(c.Record());
    }

    method HandleJoin(id: string, ghost all: set<SigConnection>, manager: ConnectionManager)
      requires this in all && Connected(all, manager)
      modifies this, manager
      ensures Connected(all, manager)
      ensures View(all, manager) == Join(old(View(all, manager)), this, id)
    {
      hide View;
      ViewHas(all, manager, this);
      if state == NONE {
        var conn := manager.QueryConn(id);
        if conn != null {
          SendTo(JoinReply(false), all, manager);
          return;
        }
        Enroll(id, all, manager);
        ViewHas(all, manager, this);
        SendTo(JoinReply(true), all, manager);
        ViewHas(all, manager, this);
        return;
      }
      SendTo(JoinReply(false), all, manager);
    }

    /** This connection becomes a puller of `target`, and both list each other. */
    method Pair(target: SigConnection, id: string, ghost all: set<SigConnection>, manager: ConnectionManager)
      requires this in all && target in all && this != target
      modifies this`state, this`partners, target`partners
      ensures View(all, manager) == old(View(all, manager)).(conns := old(View(all, manager).conns)
        [target := SignalSpec.AddClient(old(target.Record()), code)][this := SignalSpec.AddClient(old(Record()).(state := PULLER), id)])
    {
      state := PULLER;
      AddClient(id);
      target.AddClient(code);
      assert forall c <- all :: c != this && c != target ==> c.Record() == old(c.Record());
    }

    /** An idle target is asked to create a stream. */
    method ObtainFromIdle(target: SigConnection, id: string, ghost all: set<SigConnection>, manager: ConnectionManager)
      requires this in all && target in all && this != target
      modifies all
      ensures var w := old(View(all, manager));
        View(all, manager) == w.(conns := w.conns
          [target := SignalSpec.Send(SignalSpec.AddClient(old(target.Record()), old(code)), CreateStream)]
          [this := SignalSpec.Send(SignalSpec.AddClient(old(Record()).(state := PULLER), id), ObtainReply(true))])
    {
      ghost var w, a, b := View(all, manager).conns, SignalSpec.AddClient(target.Record(), code), SignalSpec.AddClient(Record().(state := PULLER), id);
      hide View, SignalSpec.AddClient;
      Pair(target, id, all, manager);
      target.SendTo(CreateStream, all, manager);
      SendTo(ObtainReply(true), all, manager);
      LastUpdatesWin(w, target, this, a, b, SignalSpec.Send(a, CreateStream), SignalSpec.Send(b, ObtainReply(true)));
    }

    /** A pushing target already has a stream to play. */
    method ObtainFromPusher(target: SigConnection, id: string, ghost all: set<SigConnection>, manager: ConnectionManager)
      requires this in all && target in all && this != target
      modifies all
      ensures var w := old(View(all, manager));
        View(all, manager) == w.(conns := w.conns
          [target := SignalSpec.AddClient(old(target.Record()), old(code))]
          [this := SignalSpec.Send(SignalSpec.AddClient(old(Record()).(state := PULLER), id), PlayStream(old(target.address)))])
    {
      hide View, SignalSpec.AddClient;
      Pair(target, id, all, manager);
      SendTo(PlayStream(target.address), all, manager);
    }

    method DoObtainStream(id: string, ghost all: set<SigConnection>, manager: ConnectionManager)
      requires this in all && Connected(all, manager)
      modifies all
      ensures View(all, manager) == Obtain(old(View(all, manager)), this, id)
    {
      hide View, SignalSpec.AddClient;
      ViewHas(all, manager, this);
      var conn := manager.QueryConn(id);
      if conn == null || conn == this || state != IDLE {
        SendTo(ObtainReply(false), all, manager);
        return;
      }
      ViewHas(all, manager, conn);
      match conn.state {
        case IDLE => ObtainFromIdle(conn, id, all, manager);
        case PUSHER =>
          if conn.address == "" {
            SendTo(ObtainReply(false), all, manager);
          } else {
            ObtainFromPusher(conn, id, all, manager);
          }
        case _ => SendTo(ObtainReply(false), all, manager);
      }
    }

    method Strike(other: string, ghost all: set<SigConnection>, manager: ConnectionManager)
      requires this in all
      modifies this`partners, this`state
      ensures View(all, manager) ==
        old(View(all, manager)).(conns := old(View(all, manager).conns)[this := SignalSpec.RemoveClient(old(Record()), other)])
    {
      RemoveClient(other);
      assert forall c <- all :: c != this ==> c.Record() == old(c.Record());
    }

    /** Tells one partner about the stream. */
    method TellPartner(id: string, ghost all: set<SigConnection>, manager: ConnectionManager)
      requires this in all && Connected(all, manager)
      modifies all
      ensures View(all, manager) == Announce(old(View(all, manager)), this, id)
    {
      hide View, SignalSpec.RemoveClient;
      ViewHas(all, manager, this);
      var conn := manager.QueryConn(id);
      if conn != null {
        ViewHas(all, manager, conn);
      }
      if conn == null {
        Strike(id, all, manager);
      } else if address == "" {
        conn.SetState(IDLE, all, manager);
        conn.SendTo(PlayFailed, all, manager);
      } else if conn.state == PULLER {
        SetState(PUSHER, all, manager);
        ViewHas(all, manager, conn);
        conn.SendTo(PlayStream(address), all, manager);
      } else {
        Strike(conn.code, all, manager);
        conn.SendTo(PlayFailed, all, manager);
      }
    }

    method SetAddress(streamAddress: string, ghost all: set<SigConnection>, manager: ConnectionManager)
      requires this in all
      modifies this`address
      ensures View(all, manager) ==
        old(View(all, manager)).(conns := old(View(all, manager).conns)[this := old(Record()).(address := streamAddress)])
    {
      address := streamAddress;
      assert forall c <- all :: c != this ==> c.Record() == old(c.Record());
    }

    /** The partner list is walked as it was at the start. */
    method DoCreateStream(streamAddress: string, ghost all: set<SigConnection>, manager: ConnectionManager)
      requires this in all && Connected(all, manager)
      modifies all
      ensures View(all, manager) == Create(old(View(all, manager)), this, streamAddress)
    {
      hide Announce;
      SetAddress(streamAddress, all, manager);
      ghost var w := View(all, manager);
      var codes := partners;
      for i := 0 to |codes|
        invariant AnnounceAll(View(all, manager), this, codes[i..]) == AnnounceAll(w, this, codes)
      {
        assert codes[i..][0] == codes[i] && codes[i..][1..] == codes[i + 1..];
        TellPartner(codes[i], all, manager);
      }
    }

    method HandleDeleteStream(ghost all: set<SigConnection>, manager: ConnectionManager)
      requires this in all && Connected(all, manager)
      requires forall p <- partners :: p in manager.conns ==> manager.conns[p] != this
      modifies all, manager
      ensures Connected(all, manager)
      ensures View(all, manager) == Delete(old(View(all, manager)), this)
    {
      if state == PUSHER || state == PULLER {
        Clear(all, manager);
      }
    }
  }
}
