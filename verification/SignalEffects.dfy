/** What each step of the signalling server does to every client: roles, lists, registration and packets. */
module SignalEffects {
  import opened SignalSpec
  import opened SignalInvariant

  // ---------- joining ----------

  /** A join is accepted if and only if the client has not joined yet and nobody is registered under the code. An
      accepted client is idle under its code, and registered unless the code is empty. */
  lemma JoinEffect<Id>(w: World<Id>, x: Id, code: string)
    requires Closed(w) && x in w.conns
    ensures var c, w' := w.conns[x], Join(w, x, code);
      && (forall y <- w.conns :: y != x ==> w'.conns[y] == w.conns[y])
      && if c.state == NONE && code !in w.registry then
           && w'.conns[x] == Conn(IDLE, code, c.address, c.partners, c.sent + [JoinReply(true)])
           && w'.registry == (if code == "" then w.registry else w.registry[code := x])
         else
           && w'.conns[x] == Conn(c.state, c.code, c.address, c.partners, c.sent + [JoinReply(false)])
           && w'.registry == w.registry
  {}

  /** A connection departs on request exactly if it pushes or pulls; otherwise nothing happens. */
  lemma DeleteEffect<Id>(w: World<Id>, x: Id)
    requires Closed(w) && x in w.conns
    ensures Delete(w, x) == if w.conns[x].state in {PUSHER, PULLER} then Clear(w, x) else w
  {}

  // ---------- asking for a stream ----------

  /** The stream of `y` can be had: it is idle, or pushes to an address. */
  predicate Available(d: Conn) {
    d.state == IDLE || (d.state == PUSHER && d.address != "")
  }

  predicate Grants<Id>(w: World<Id>, x: Id, code: string)
    requires Closed(w) && x in w.conns
  {
    w.conns[x].state == IDLE && code in w.registry && w.registry[code] != x && Available(w.conns[w.registry[code]])
  }

  /** Lists the code, once. */
  ghost predicate Gains(c: Conn, c': Conn, code: string) {
    && (forall p :: p in c'.partners <==> p in c.partners || p == code)
    && |c'.partners| == |c.partners| + (if code in c.partners then 0 else 1)
    && c'.code == c.code && c'.address == c.address
  }

  lemma AddClientGains(c: Conn, code: string)
    ensures Gains(c, AddClient(c, code), code) && AddClient(c, code).state == c.state && AddClient(c, code).sent == c.sent
  {}

  /** A request is granted if and only if the client is idle and the code is that of another client whose stream can be
      had. Then the client pulls, and the two list each other. An idle target is asked to create a stream, and the client
      is told so; from a pushing target the client gets the address at once, and the target gets nothing. Otherwise the
      client is refused, and nothing else happens. */
  lemma ObtainEffect<Id>(w: World<Id>, x: Id, code: string)
    requires Inv(w) && x in w.conns
    ensures Closed(w)
    ensures var w' := Obtain(w, x, code); var c, c' := w.conns[x], w'.conns[x];
      && w'.registry == w.registry && w'.conns.Keys == w.conns.Keys
      && if Grants(w, x, code) then
           var y := w.registry[code];
           var d, d' := w.conns[y], w'.conns[y];
           && c'.state == PULLER && Gains(c, c', code)
           && d'.state == d.state && Gains(d, d', c.code)
           && (d.state == IDLE ==> c'.sent == c.sent + [ObtainReply(true)] && d'.sent == d.sent + [CreateStream])
           && (d.state == PUSHER ==> c'.sent == c.sent + [PlayStream(d.address)] && d'.sent == d.sent)
           && forall z <- w.conns :: z != x && z != y ==> w'.conns[z] == w.conns[z]
         else
           && c' == c.(sent := c.sent + [ObtainReply(false)])
           && forall z <- w.conns :: z != x ==> w'.conns[z] == w.conns[z]
  {
    hide AddClient, RoleOk, Mutual;
    ClosedByInv(w);
    if Grants(w, x, code) {
      AddClientGains(w.conns[x].(state := PULLER), code);
      AddClientGains(w.conns[w.registry[code]], w.conns[x].code);
    }
  }

  lemma ClosedByInv<Id>(w: World<Id>)
    requires Inv(w)
    ensures Closed(w)
  {}

  // ---------- answering a request ----------

  predicate Pulls<Id>(w: World<Id>, code: string) {
    code in w.registry && w.registry[code] in w.conns && w.conns[w.registry[code]].state == PULLER
  }

  /** What the client named by a code is sent when a stream was, or was not, created. */
  function Told(address: string, d: Conn): Conn {
    if address == "" then d.(state := IDLE, sent := d.sent + [PlayFailed])
    else d.(sent := d.sent + [if d.state == PULLER then PlayStream(address) else PlayFailed])
  }

  /** Part of the way: the codes of `done` have been told, and `x` has struck off those of them that do not pull. */
  ghost predicate ToldSoFar<Id>(w: World<Id>, w': World<Id>, x: Id, told: seq<string>)
    requires x in w.conns
  {
    var c := w.conns[x];
    && w'.registry == w.registry && w'.conns.Keys == w.conns.Keys
    && (forall y <- w.conns :: y != x ==>
          w'.conns[y] == if Named(w, y, told) then Told(c.address, w.conns[y]) else w.conns[y])
    && w'.conns[x].code == c.code && w'.conns[x].address == c.address && w'.conns[x].sent == c.sent
    && (forall p :: p in w'.conns[x].partners <==> p in c.partners && (c.address != "" && p in told ==> Pulls(w, p)))
    && (w'.conns[x].state == if c.address != "" && exists p <- told :: Pulls(w, p) then PUSHER
                             else if w'.conns[x].partners == [] && c.partners != [] then IDLE else c.state)
  }

  lemma {:induction false} AnnounceAllTells<Id>(w: World<Id>, x: Id, codes: seq<string>, n: nat)
    requires Filed(w) && Closed(w) && x in w.conns && n <= |codes| && Distinct(codes)
    requires forall p <- codes :: p in w.registry && w.registry[p] != x && p in w.conns[x].partners
    ensures ToldSoFar(w, AnnounceAll(w, x, codes[..n]), x, codes[..n])
    decreases n
  {
    hide AnnounceAll, Announce, Filed, ToldSoFar, Distinct;
    if n == 0 {
      NobodyTold(w, x, codes[..n]);
    } else {
      var told, code := codes[..n - 1], codes[n - 1];
      AnnounceAllTells(w, x, codes, n - 1);
      assert codes[..n] == told + [code];
      AnnounceLast(w, x, told, code);
      NotBefore(codes, n - 1);
      assert forall p <- told :: p in codes;
      assert code in codes;
      OneMoreTold(w, AnnounceAll(w, x, told), x, told, code);
    }
  }

  lemma NotBefore(codes: seq<string>, n: nat)
    requires n < |codes| && Distinct(codes)
    ensures codes[n] !in codes[..n]
  {}

  lemma NobodyTold<Id>(w: World<Id>, x: Id, codes: seq<string>)
    requires Closed(w) && x in w.conns && |codes| == 0
    ensures ToldSoFar(w, AnnounceAll(w, x, codes), x, codes)
  {}

  lemma {:induction false} AnnounceLast<Id>(w: World<Id>, x: Id, codes: seq<string>, code: string)
    requires Closed(w) && x in w.conns
    ensures var w1 := AnnounceAll(w, x, codes); Closed(w1) && AnnounceAll(w, x, codes + [code]) == Announce(w1, x, code)
    decreases |codes|
  {
    hide Announce;
    if codes == [] {
      assert [] + [code] == [code] && [code][1..] == [];
    } else {
      assert (codes + [code])[1..] == codes[1..] + [code];
      AnnounceLast(Announce(w, x, codes[0]), x, codes[1..], code);
    }
  }

  lemma OneMoreTold<Id>(w: World<Id>, w1: World<Id>, x: Id, told: seq<string>, code: string)
    requires Filed(w) && Closed(w1) && x in w.conns && ToldSoFar(w, w1, x, told)
    requires code !in told && code in w.registry && w.registry[code] != x && code in w.conns[x].partners
    requires forall p <- told :: p in w.conns[x].partners
    ensures ToldSoFar(w, Announce(w1, x, code), x, told + [code])
  {
    OthersTold(w, w1, x, told, code);
    SelfTold(w, w1, x, told, code);
    hide Announce, Named, Told, Filed, Pulls;
    assert forall p :: p in told + [code] <==> p in told || p == code;
  }

  lemma OthersTold<Id>(w: World<Id>, w1: World<Id>, x: Id, told: seq<string>, code: string)
    requires Filed(w) && Closed(w1) && x in w.conns && ToldSoFar(w, w1, x, told)
    requires code !in told && code in w.registry && w.registry[code] != x
    ensures var w' := Announce(w1, x, code);
      && w'.registry == w.registry && w'.conns.Keys == w.conns.Keys
      && forall y <- w.conns :: y != x ==>
           w'.conns[y] == if Named(w, y, told + [code]) then Told(w.conns[x].address, w.conns[y]) else w.conns[y]
  {
    hide RemoveClient;
    var z := w.registry[code];
    assert w.conns[z].code == code && !Named(w, z, told);
    forall y | y in w.conns
      ensures Named(w, y, told + [code]) <==> Named(w, y, told) || y == z
    {}
  }

  lemma SelfTold<Id>(w: World<Id>, w1: World<Id>, x: Id, told: seq<string>, code: string)
    requires Filed(w) && Closed(w1) && x in w.conns && ToldSoFar(w, w1, x, told)
    requires code !in told && code in w.registry && w.registry[code] != x && code in w.conns[x].partners
    requires forall p <- told :: p in w.conns[x].partners
    ensures var c, c' := w.conns[x], Announce(w1, x, code).conns[x];
      && c'.code == c.code && c'.address == c.address && c'.sent == c.sent
      && (forall p :: p in c'.partners <==> p in c.partners && (c.address != "" && (p in told || p == code) ==> Pulls(w, p)))
      && (c'.state == if c.address != "" && (Pulls(w, code) || exists p <- told :: Pulls(w, p)) then PUSHER
                      else if c'.partners == [] && c.partners != [] then IDLE else c.state)
  {
    var z := w.registry[code];
    var c, c1 := w.conns[x], w1.conns[x];
    assert w.conns[z].code == code && !Named(w, z, told) && w1.conns[z] == w.conns[z];
    assert code in c1.partners;
    if c.address != "" && w.conns[z].state != PULLER {
      var rest := Without(c1.partners, code);
      assert Announce(w1, x, code).conns[x] == RemoveClient(c1, code);
      if p :| p in told && Pulls(w, p) {
        assert p in c1.partners && p != code && p in rest;
      }
    }
  }

  /** Answering a request for a stream, all of it. With an address, every partner that pulls is sent the address, and
      every partner that does not is told that it failed and struck off; whoever is left pulls, and the client pushes
      if somebody is left. Without one, every partner is told that it failed and is idle. Nobody else is sent anything,
      and nobody else changes. */
  lemma CreateEffect<Id>(w: World<Id>, x: Id, address: string)
    requires Inv(w) && x in w.conns
    ensures Closed(w)
    ensures var w' := Create(w, x, address); var c, c' := w.conns[x], w'.conns[x];
      && w'.registry == w.registry && w'.conns.Keys == w.conns.Keys
      && c'.code == c.code && c'.address == address && c'.sent == c.sent
      && (address == "" ==> c'.state == c.state && forall p :: p in c'.partners <==> p in c.partners)
      && (address != "" ==>
            && (forall p :: p in c'.partners <==> p in c.partners && Pulls(w, p))
            && c'.state == if c'.partners != [] then PUSHER else if c.partners != [] then IDLE else c.state)
      && forall y <- w.conns :: y != x ==>
           var d, d' := w.conns[y], w'.conns[y];
           if !(Live(d) && d.code in c.partners) then d' == d
           else if address == "" then d' == d.(state := IDLE, sent := d.sent + [PlayFailed])
           else if d.state == PULLER then d' == d.(sent := d.sent + [PlayStream(address)])
           else d' == d.(sent := d.sent + [PlayFailed])
  {
    ClosedByInv(w);
    var c := w.conns[x];
    var w1 := w.(conns := w.conns[x := c.(address := address)]);
    PartnersRegistered(w, x);
    assert c.partners[..|c.partners|] == c.partners;
    AnnounceAllTells(w1, x, c.partners, |c.partners|);
    SeenFromInv(w, x, address, Create(w, x, address));
  }

  lemma PartnersRegistered<Id>(w: World<Id>, x: Id)
    requires Inv(w) && x in w.conns
    ensures Filed(w) && Distinct(w.conns[x].partners)
    ensures forall p <- w.conns[x].partners :: p in w.registry && w.registry[p] != x
    ensures forall y <- w.conns :: Live(w.conns[y]) <==> w.conns[y].code in w.registry && w.registry[w.conns[y].code] == y
  {
    assert RoleOk(w, x) && Mutual(w, x);
    forall y | y in w.conns
      ensures Live(w.conns[y]) <==> w.conns[y].code in w.registry && w.registry[w.conns[y].code] == y
    {
      assert RoleOk(w, y);
    }
  }

  lemma SeenFromInv<Id>(w: World<Id>, x: Id, address: string, w': World<Id>)
    requires x in w.conns && Filed(w) && Closed(w)
    requires forall p <- w.conns[x].partners :: p in w.registry && w.registry[p] != x
    requires forall y <- w.conns :: Live(w.conns[y]) <==> w.conns[y].code in w.registry && w.registry[w.conns[y].code] == y
    requires ToldSoFar(w.(conns := w.conns[x := w.conns[x].(address := address)]), w', x, w.conns[x].partners)
    ensures var c, c' := w.conns[x], w'.conns[x];
      && w'.registry == w.registry && w'.conns.Keys == w.conns.Keys
      && c'.code == c.code && c'.address == address && c'.sent == c.sent
      && (address == "" ==> c'.state == c.state && forall p :: p in c'.partners <==> p in c.partners)
      && (address != "" ==>
            && (forall p :: p in c'.partners <==> p in c.partners && Pulls(w, p))
            && c'.state == if c'.partners != [] then PUSHER else if c.partners != [] then IDLE else c.state)
      && forall y <- w.conns :: y != x ==>
           var d, d' := w.conns[y], w'.conns[y];
           if !(Live(d) && d.code in c.partners) then d' == d
           else if address == "" then d' == d.(state := IDLE, sent := d.sent + [PlayFailed])
           else if d.state == PULLER then d' == d.(sent := d.sent + [PlayStream(address)])
           else d' == d.(sent := d.sent + [PlayFailed])
  {
    var c, c' := w.conns[x], w'.conns[x];
    var w1 := w.(conns := w.conns[x := c.(address := address)]);
    assert forall p <- c.partners :: Pulls(w1, p) == Pulls(w, p);
    if c.partners != [] {
      assert c.partners[0] in c.partners;
    }
    if c'.partners != [] {
      assert c'.partners[0] in c'.partners;
    }
  }
}
