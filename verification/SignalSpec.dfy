/** The signalling server as a transition system over connection records and the registry of codes. */
module SignalSpec {
  datatype Role = IDLE | NONE | CLOSE | PULLER | PUSHER

  /** What the server sends to one client. */
  datatype Packet =
    | JoinReply(ok: bool)
    | ObtainReply(ok: bool)
    | CreateStream
    | PlayStream(address: string)
    | PlayFailed
    | DeleteStream(count: nat)

  /** One connection: its role, its own code, its stream address, the codes of its partners, and all
      packets sent to it so far. */
  datatype Conn = Conn(state: Role, code: string, address: string, partners: seq<string>, sent: seq<Packet>)

  const NEWCOMER := Conn(NONE, "", "", [], [])

  datatype World<Id(==)> = World(conns: map<Id, Conn>, registry: map<string, Id>)

  ghost predicate Closed<Id>(w: World<Id>) {
    forall k <- w.registry :: w.registry[k] in w.conns
  }

  // ---------- one connection ----------

  function Send(c: Conn, p: Packet): Conn {
    c.(sent := c.sent + [p])
  }

  function AddClient(c: Conn, code: string): Conn {
    if code in c.partners then c else c.(partners := c.partners + [code])
  }

  function Without(s: seq<string>, code: string): (r: seq<string>)
    ensures code !in r
    ensures forall x :: x in r <==> x in s && x != code
    ensures |r| <= |s|
  {
    if s == [] then []
    else if s[0] == code then Without(s[1..], code)
    else [s[0]] + Without(s[1..], code)
  }

  function RemoveClient(c: Conn, code: string): Conn {
    if c.partners == [] then c
    else
      var rest := Without(c.partners, code);
      c.(partners := rest, state := if rest == [] then IDLE else c.state)
  }

  // ---------- the steps ----------

  /** A partner of a departing connection strikes its code off and is told how many remain. */
  function Leave(c: Conn, code: string): Conn {
    var c' := RemoveClient(c, code);
    Send(c', DeleteStream(|c'.partners|))
  }

  function NotifyAll<Id>(w: World<Id>, code: string, partners: seq<string>): (w': World<Id>)
    requires Closed(w)
    ensures w'.conns.Keys == w.conns.Keys && w'.registry == w.registry
    decreases |partners|
  {
    if partners == [] then w
    else
      var w1 :=
        if partners[0] in w.registry then
          var y := w.registry[partners[0]];
          w.(conns := w.conns[y := Leave(w.conns[y], code)])
        else w;
      NotifyAll(w1, code, partners[1..])
  }

  /** A connection departs: it lost its socket or deleted its stream. */
  function Clear<Id>(w: World<Id>, x: Id): (w': World<Id>)
    requires Closed(w) && x in w.conns
    ensures w'.conns.Keys == w.conns.Keys && Closed(w')
  {
    var c := w.conns[x];
    var w1 := NotifyAll(w.(conns := w.conns[x := c.(state := CLOSE)]), c.code, c.partners);
    World(w1.conns[x := w1.conns[x].(partners := [])],
          if c.code == "" then w1.registry else w1.registry - {c.code})
  }

  function Reply<Id>(w: World<Id>, x: Id, p: Packet): World<Id>
    requires x in w.conns
  {
    w.(conns := w.conns[x := Send(w.conns[x], p)])
  }

  function Join<Id>(w: World<Id>, x: Id, code: string): (w': World<Id>)
    requires Closed(w) && x in w.conns
    ensures w'.conns.Keys == w.conns.Keys && Closed(w')
  {
    var c := w.conns[x];
    if c.state != NONE || code in w.registry then Reply(w, x, JoinReply(false))
    else
      World(w.conns[x := Send(c.(code := code, state := IDLE), JoinReply(true))],
            if code == "" then w.registry else w.registry[code := x])
  }

  function Obtain<Id>(w: World<Id>, x: Id, code: string): (w': World<Id>)
    requires Closed(w) && x in w.conns
    ensures w'.conns.Keys == w.conns.Keys && Closed(w')
  {
    var c := w.conns[x];
    if code !in w.registry || w.registry[code] == x || c.state != IDLE then Reply(w, x, ObtainReply(false))
    else
      var y := w.registry[code];
      var d := w.conns[y];
      var puller := AddClient(c.(state := PULLER), code);
      var target := AddClient(d, c.code);
      match d.state
      case IDLE => w.(conns := w.conns[y := Send(target, CreateStream)][x := Send(puller, ObtainReply(true))])
      case PUSHER =>
        if d.address == "" then Reply(w, x, ObtainReply(false))
        else w.(conns := w.conns[y := target][x := Send(puller, PlayStream(d.address))])
      case _ => Reply(w, x, ObtainReply(false))
  }

  /** One partner is told about the stream that was, or was not, created. */
  function Announce<Id>(w: World<Id>, x: Id, code: string): (w': World<Id>)
    requires Closed(w) && x in w.conns
    ensures w'.conns.Keys == w.conns.Keys && w'.registry == w.registry
  {
    var c := w.conns[x];
    if code !in w.registry then w.(conns := w.conns[x := RemoveClient(c, code)])
    else
      var y := w.registry[code];
      var d := w.conns[y];
      if c.address == "" then w.(conns := w.conns[y := Send(d.(state := IDLE), PlayFailed)])
      else if d.state == PULLER then
        var w1 := w.(conns := w.conns[x := c.(state := PUSHER)]);
        Reply(w1, y, PlayStream(c.address))
      else
        var w1 := w.(conns := w.conns[x := RemoveClient(c, d.code)]);
        Reply(w1, y, PlayFailed)
  }

  function AnnounceAll<Id>(w: World<Id>, x: Id, partners: seq<string>): (w': World<Id>)
    requires Closed(w) && x in w.conns
    ensures w'.conns.Keys == w.conns.Keys && w'.registry == w.registry
    decreases |partners|
  {
    if partners == [] then w else AnnounceAll(Announce(w, x, partners[0]), x, partners[1..])
  }

  /** A client answers the request to create a stream. The partners told are those at the start. */
  function Create<Id>(w: World<Id>, x: Id, address: string): (w': World<Id>)
    requires Closed(w) && x in w.conns
    ensures w'.conns.Keys == w.conns.Keys && Closed(w')
  {
    var c := w.conns[x].(address := address);
    AnnounceAll(w.(conns := w.conns[x := c]), x, c.partners)
  }

  function Delete<Id>(w: World<Id>, x: Id): (w': World<Id>)
    requires Closed(w) && x in w.conns
    ensures w'.conns.Keys == w.conns.Keys && Closed(w')
  {
    if w.conns[x].state == PUSHER || w.conns[x].state == PULLER then Clear(w, x) else w
  }
}
