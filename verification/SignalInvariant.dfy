/** What every run of the signalling server keeps: roles, registration and mutual partner lists. */
module SignalInvariant {
  import opened SignalSpec

  predicate Live(c: Conn) {
    c.state == IDLE || c.state == PULLER || c.state == PUSHER
  }

  predicate Distinct(s: seq<string>) {
    forall i, j :: 0 <= i < j < |s| ==> s[i] != s[j]
  }

  /** Connection `x` has joined under its own code exactly when it is live, and its role fits its
      partner list. */
  ghost predicate Fits<Id>(w: World<Id>, x: Id)
    requires x in w.conns
  {
    var c := w.conns[x];
    && Distinct(c.partners) && c.code !in c.partners
    && (Live(c) <==> c.code in w.registry && w.registry[c.code] == x)
    && (c.state == NONE ==> c.code == "" && c.partners == [])
    && (c.state == CLOSE ==> c.partners == [])
    && (c.state == PULLER || c.state == PUSHER ==> c.partners != [])
  }

  /** And the code of a departed connection is not registered. */
  ghost predicate RoleOk<Id>(w: World<Id>, x: Id)
    requires x in w.conns
  {
    Fits(w, x) && (w.conns[x].state == CLOSE ==> w.conns[x].code !in w.registry)
  }

  /** Registered codes are not empty and belong to live connections of that code. */
  ghost predicate RegistryOk<Id>(w: World<Id>) {
    forall k <- w.registry :: k != "" && w.registry[k] in w.conns && w.conns[w.registry[k]].code == k && Live(w.conns[w.registry[k]])
  }

  /** Whoever is listed is registered and lists back. */
  ghost predicate Mutual<Id>(w: World<Id>, x: Id)
    requires x in w.conns
  {
    forall p <- w.conns[x].partners ::
      p in w.registry && w.registry[p] in w.conns && w.conns[x].code in w.conns[w.registry[p]].partners
  }

  ghost predicate Inv<Id>(w: World<Id>) {
    && RegistryOk(w)
    && (forall x <- w.conns :: RoleOk(w, x))
    && (forall x <- w.conns :: Mutual(w, x))
  }

  // ---------- departures ----------

  lemma DistinctTail(s: seq<string>)
    requires s != [] && Distinct(s)
    ensures Distinct(s[1..]) && s[0] !in s[1..]
    ensures forall x :: x in s <==> x == s[0] || x in s[1..]
  {}

  lemma DistinctCons(x: string, s: seq<string>)
    requires Distinct(s) && x !in s
    ensures Distinct([x] + s)
  {}

  lemma {:induction false} WithoutDistinct(s: seq<string>, code: string)
    requires Distinct(s)
    ensures Distinct(Without(s, code))
    ensures |Without(s, code)| == if code in s then |s| - 1 else |s|
    decreases |s|
  {
    if s != [] {
      DistinctTail(s);
      WithoutDistinct(s[1..], code);
      if s[0] != code {
        DistinctCons(s[0], Without(s[1..], code));
      }
    }
  }

  ghost predicate Filed<Id>(w: World<Id>) {
    forall k <- w.registry :: w.registry[k] in w.conns && w.conns[w.registry[k]].code == k
  }

  /** Connection `y` is the one registered under a code of the list. */
  predicate Named<Id>(w: World<Id>, y: Id, codes: seq<string>)
    requires y in w.conns
  {
    var k := w.conns[y].code;
    k in codes && k in w.registry && w.registry[k] == y
  }

  /** Notifying a list of distinct codes reaches exactly the connections registered under them, and
      each of them once. */
  lemma {:induction false} NotifyAllExactly<Id>(w: World<Id>, code: string, partners: seq<string>)
    requires Filed(w) && Distinct(partners)
    ensures var w' := NotifyAll(w, code, partners);
      forall y <- w.conns :: w'.conns[y] == if Named(w, y, partners) then Leave(w.conns[y], code) else w.conns[y]
    decreases |partners|
  {
    if partners != [] {
      var k, others := partners[0], partners[1..];
      DistinctTail(partners);
      if k in w.registry {
        var y0 := w.registry[k];
        var w1 := w.(conns := w.conns[y0 := Leave(w.conns[y0], code)]);
        NotifyAllExactly(w1, code, others);
      } else {
        NotifyAllExactly(w, code, others);
      }
    }
  }

  lemma FiledClearExactly<Id>(w: World<Id>, x: Id)
    requires Filed(w) && x in w.conns && Distinct(w.conns[x].partners) && w.conns[x].code !in w.conns[x].partners
    ensures Closed(w)
    ensures var c := w.conns[x]; var w' := Clear(w, x);
      && w'.registry == (if c.code == "" then w.registry else w.registry - {c.code})
      && w'.conns[x] == c.(state := CLOSE, partners := [])
      && forall y <- w.conns :: y != x ==>
           w'.conns[y] == if Named(w, y, c.partners) then Leave(w.conns[y], c.code) else w.conns[y]
  {
    hide Leave;
    var c := w.conns[x];
    var w1 := w.(conns := w.conns[x := c.(state := CLOSE)]);
    NotifyAllExactly(w1, c.code, c.partners);
    assert forall y <- w.conns :: Named(w1, y, c.partners) == Named(w, y, c.partners);
  }

  /** A departure changes the departing connection and its partners, and nothing else: every partner
      strikes it off, becomes idle if it was the last one, and is told the number that remains. */
  lemma ClearExactly<Id>(w: World<Id>, x: Id)
    requires Inv(w) && x in w.conns
    ensures var c := w.conns[x]; var w' := Clear(w, x);
      && w'.registry == (if c.code == "" then w.registry else w.registry - {c.code})
      && w'.conns[x] == c.(state := CLOSE, partners := [])
      && forall y <- w.conns :: y != x ==>
           w'.conns[y] == if Named(w, y, c.partners) then Leave(w.conns[y], c.code) else w.conns[y]
  {
    hide Clear, Leave, Named;
    assert RoleOk(w, x);
    FiledClearExactly(w, x);
  }

  lemma LeaveEffect(c: Conn, code: string)
    requires Distinct(c.partners)
    ensures var d := Leave(c, code);
      && Distinct(d.partners) && d.code == c.code && d.address == c.address
      && (forall p :: p in d.partners <==> p in c.partners && p != code)
      && d.state == (if c.partners != [] && d.partners == [] then IDLE else c.state)
      && d.sent == c.sent + [DeleteStream(|d.partners|)]
  {
    WithoutDistinct(c.partners, code);
  }

  lemma RoleAfterClear<Id>(w: World<Id>, x: Id, y: Id)
    requires Inv(w) && x in w.conns && y in w.conns
    ensures RoleOk(Clear(w, x), y)
  {
    hide Clear, Leave;
    var c := w.conns[x];
    ClearExactly(w, x);
    assert RoleOk(w, x) && RoleOk(w, y) && Mutual(w, x);
    hide Inv, Mutual;
    if y != x {
      hide Distinct;
      if Named(w, y, c.partners) {
        LeaveEffect(w.conns[y], c.code);
      }
    }
  }

  lemma RegistryAfterClear<Id>(w: World<Id>, x: Id)
    requires Inv(w) && x in w.conns
    ensures RegistryOk(Clear(w, x))
  {
    hide Clear, Leave, Mutual;
    var c, w' := w.conns[x], Clear(w, x);
    ClearExactly(w, x);
    assert RoleOk(w, x);
    forall k | k in w'.registry
      ensures k != "" && w'.conns[w'.registry[k]].code == k && Live(w'.conns[w'.registry[k]])
    {
      var y := w.registry[k];
      assert RoleOk(w, y);
      if Named(w, y, c.partners) {
        LeaveEffect(w.conns[y], c.code);
      }
    }
  }

  lemma ClearKeepsMutual<Id>(w: World<Id>, x: Id)
    requires Inv(w) && x in w.conns
    ensures var w' := Clear(w, x); forall y <- w'.conns :: Mutual(w', y)
  {
    hide Clear, Leave, Distinct;
    var c, w' := w.conns[x], Clear(w, x);
    ClearExactly(w, x);
    assert RoleOk(w, x);
    forall y, p | y in w'.conns && p in w'.conns[y].partners
      ensures p in w'.registry && w'.conns[y].code in w'.conns[w'.registry[p]].partners
    {
      assert RoleOk(w, y) && Mutual(w, y) && Mutual(w, x);
      if Named(w, y, c.partners) {
        LeaveEffect(w.conns[y], c.code);
      }
      var z := w.registry[p];
      assert RoleOk(w, z);
      LeaveEffect(w.conns[z], c.code);
    }
  }

  lemma ClearKeepsInv<Id>(w: World<Id>, x: Id)
    requires Inv(w) && x in w.conns
    ensures Inv(Clear(w, x))
  {
    hide Clear, RoleOk, Mutual;
    forall y | y in w.conns
      ensures RoleOk(Clear(w, x), y)
    {
      RoleAfterClear(w, x, y);
    }
    RegistryAfterClear(w, x);
    ClearKeepsMutual(w, x);
  }

  // ---------- joining ----------

  /** The code of a departed connection. */
  ghost predicate Departed<Id>(w: World<Id>, code: string) {
    exists y <- w.conns :: w.conns[y].state == CLOSE && w.conns[y].code == code
  }

  lemma FreshJoinKeepsInv<Id>(w: World<Id>, x: Id, code: string)
    requires Inv(w) && x in w.conns && w.conns[x].state == NONE
    requires code !in w.registry && code != "" && !Departed(w, code)
    ensures Inv(Join(w, x, code))
  {
    hide RoleOk, Mutual, Fits, Join;
    forall y | y in w.conns
      ensures RoleOk(Join(w, x, code), y)
    {
      RoleAfterJoin(w, x, code, y);
    }
    RegistryAfterJoin(w, x, code);
    FreshJoinKeepsMutual(w, x, code);
  }

  lemma RoleAfterJoin<Id>(w: World<Id>, x: Id, code: string, y: Id)
    requires Inv(w) && x in w.conns && y in w.conns && w.conns[x].state == NONE
    requires code !in w.registry && code != ""
    ensures Fits(Join(w, x, code), y)
    ensures !Departed(w, code) ==> RoleOk(Join(w, x, code), y)
  {
    assert RoleOk(w, x) && RoleOk(w, y);
    hide Inv;
  }

  lemma RegistryAfterJoin<Id>(w: World<Id>, x: Id, code: string)
    requires Inv(w) && x in w.conns && w.conns[x].state == NONE && code !in w.registry
    ensures RegistryOk(Join(w, x, code)) && Join(w, x, code).conns.Keys == w.conns.Keys
  {
    hide RoleOk, Mutual;
  }

  lemma FreshJoinKeepsMutual<Id>(w: World<Id>, x: Id, code: string)
    requires Inv(w) && x in w.conns && w.conns[x].state == NONE && code !in w.registry
    ensures forall y <- w.conns :: Mutual(Join(w, x, code), y)
  {}

  lemma BadJoinBreaksInv<Id>(w: World<Id>, x: Id, code: string)
    requires Inv(w) && x in w.conns && w.conns[x].state == NONE
    requires code !in w.registry && (code == "" || Departed(w, code))
    ensures !Inv(Join(w, x, code))
  {}

  /** A join keeps the invariant exactly if it is refused, or uses a code that is neither empty nor
      the code of a departed connection. */
  lemma JoinExactly<Id>(w: World<Id>, x: Id, code: string)
    requires Inv(w) && x in w.conns
    ensures Inv(Join(w, x, code)) <==>
            w.conns[x].state != NONE || code in w.registry || (code != "" && !Departed(w, code))
  {
    hide RoleOk, Mutual;
    if w.conns[x].state != NONE || code in w.registry {
      OnlySent(w, Join(w, x, code));
    } else if code == "" || Departed(w, code) {
      BadJoinBreaksInv(w, x, code);
    } else {
      FreshJoinKeepsInv(w, x, code);
    }
  }

  /** Sending packets touches nothing the invariant speaks of. */
  lemma OnlySent<Id>(w: World<Id>, w': World<Id>)
    requires Inv(w) && w'.registry == w.registry && w'.conns.Keys == w.conns.Keys
    requires forall y <- w.conns :: w'.conns[y] == w.conns[y].(sent := w'.conns[y].sent, address := w'.conns[y].address)
    ensures Inv(w')
  {
    forall y | y in w'.conns
      ensures RoleOk(w', y) && Mutual(w', y)
    {
      assert RoleOk(w, y) && Mutual(w, y);
    }
  }

  // ---------- obtaining a stream ----------

  lemma AddClientEffect(c: Conn, code: string)
    requires Distinct(c.partners)
    ensures var d := AddClient(c, code);
      Distinct(d.partners) && d.partners != [] && forall p :: p in d.partners <==> p in c.partners || p == code
  {}

  /** The connections `x` and `y`, both live, have listed each other; `x` now pulls. */
  ghost predicate Paired<Id>(w: World<Id>, w': World<Id>, x: Id, y: Id) {
    && x in w.conns && y in w.conns && x != y && Live(w.conns[x]) && Live(w.conns[y])
    && w'.registry == w.registry && w'.conns.Keys == w.conns.Keys
    && (forall z <- w.conns :: z != x && z != y ==> w'.conns[z] == w.conns[z])
    && w'.conns[x] == AddClient(w.conns[x], w.conns[y].code).(state := PULLER, sent := w'.conns[x].sent)
    && w'.conns[y] == AddClient(w.conns[y], w.conns[x].code).(sent := w'.conns[y].sent)
  }

  lemma PairedKeepsRoles<Id>(w: World<Id>, w': World<Id>, x: Id, y: Id)
    requires Inv(w) && Paired(w, w', x, y)
    ensures RegistryOk(w') && forall z <- w'.conns :: RoleOk(w', z)
  {
    assert RoleOk(w, x) && RoleOk(w, y);
    AddClientEffect(w.conns[x], w.conns[y].code);
    AddClientEffect(w.conns[y], w.conns[x].code);
    forall z | z in w'.conns
      ensures RoleOk(w', z)
    {
      assert RoleOk(w, z);
    }
  }

  lemma PairedKeepsMutual<Id>(w: World<Id>, w': World<Id>, x: Id, y: Id)
    requires Inv(w) && Paired(w, w', x, y)
    ensures forall z <- w'.conns :: Mutual(w', z)
  {
    assert RoleOk(w, x) && RoleOk(w, y);
    AddClientEffect(w.conns[x], w.conns[y].code);
    AddClientEffect(w.conns[y], w.conns[x].code);
    forall z, p | z in w'.conns && p in w'.conns[z].partners
      ensures p in w'.registry && w'.conns[z].code in w'.conns[w'.registry[p]].partners
    {
      assert Mutual(w, z);
      assert p in w.conns[z].partners ==> w.conns[z].code in w.conns[w.registry[p]].partners;
    }
  }

  lemma ObtainKeepsInv<Id>(w: World<Id>, x: Id, code: string)
    requires Inv(w) && x in w.conns
    ensures Inv(Obtain(w, x, code))
  {
    hide Obtain, RoleOk, Mutual;
    ObtainPairs(w, x, code);
    var w' := Obtain(w, x, code);
    if code in w.registry && Paired(w, w', x, w.registry[code]) {
      PairedKeepsRoles(w, w', x, w.registry[code]);
      PairedKeepsMutual(w, w', x, w.registry[code]);
    } else {
      OnlySent(w, w');
    }
  }

  /** A request for a stream pairs two connections or only sends something. */
  lemma ObtainPairs<Id>(w: World<Id>, x: Id, code: string)
    requires Inv(w) && x in w.conns
    ensures var w' := Obtain(w, x, code);
      && w'.registry == w.registry && w'.conns.Keys == w.conns.Keys
      && ((code in w.registry && Paired(w, w', x, w.registry[code]))
          || forall y <- w.conns :: w'.conns[y] == w.conns[y].(sent := w'.conns[y].sent))
  {
    hide Mutual, Distinct;
    if code in w.registry && w.registry[code] != x && w.conns[x].state == IDLE {
      var y := w.registry[code];
      assert RoleOk(w, x) && RoleOk(w, y);
      if w.conns[y].state == IDLE || (w.conns[y].state == PUSHER && w.conns[y].address != "") {
        assert Paired(w, Obtain(w, x, code), x, y);
      }
    }
  }

  // ---------- creating a stream ----------

  ghost predicate AllRegistered<Id>(w: World<Id>, codes: seq<string>) {
    forall p <- codes :: p in w.registry
  }

  /** Every code of the list belongs to a connection that pulls. */
  ghost predicate AllPull<Id>(w: World<Id>, codes: seq<string>) {
    forall p <- codes :: p in w.registry && w.registry[p] in w.conns && w.conns[w.registry[p]].state == PULLER
  }

  lemma SameButStates<Id>(w: World<Id>, w': World<Id>)
    requires Inv(w) && w'.registry == w.registry && w'.conns.Keys == w.conns.Keys
    requires forall y <- w.conns ::
      && w'.conns[y].code == w.conns[y].code && w'.conns[y].partners == w.conns[y].partners
      && (w'.conns[y].state == w.conns[y].state
          || (Live(w.conns[y]) && (w'.conns[y].state == IDLE || (Live(w'.conns[y]) && w.conns[y].partners != []))))
    ensures Inv(w')
  {
    forall y | y in w'.conns
      ensures RoleOk(w', y) && Mutual(w', y)
    {
      assert RoleOk(w, y) && Mutual(w, y);
    }
  }

  lemma {:induction false} FailureKeepsInv<Id>(w: World<Id>, x: Id, codes: seq<string>)
    requires Inv(w) && x in w.conns && w.conns[x].address == "" && AllRegistered(w, codes)
    ensures Inv(AnnounceAll(w, x, codes))
    decreases |codes|
  {
    if codes != [] {
      assert codes[0] in codes;
      SameButStates(w, Announce(w, x, codes[0]));
      FailureKeepsInv(Announce(w, x, codes[0]), x, codes[1..]);
    }
  }

  /** A pulling partner is told the address. */
  lemma TellPuller<Id>(w: World<Id>, x: Id, code: string)
    requires Inv(w) && x in w.conns && w.conns[x].address != "" && AllPull(w, [code])
    requires Live(w.conns[x]) && w.conns[x].partners != [] && w.conns[x].code != code
    ensures var w1 := Announce(w, x, code);
      && Inv(w1) && w1.registry == w.registry && w1.conns.Keys == w.conns.Keys
      && (forall y <- w.conns :: y != x ==> w1.conns[y] == w.conns[y].(sent := w1.conns[y].sent))
      && w1.conns[x] == w.conns[x].(state := PUSHER)
  {
    hide Mutual, Distinct;
    assert code in [code];
    assert RoleOk(w, x);
    assert w.registry[code] != x;
    SameButStates(w, Announce(w, x, code));
  }

  lemma {:induction false} SuccessKeepsInv<Id>(w: World<Id>, x: Id, codes: seq<string>)
    requires Inv(w) && x in w.conns && w.conns[x].address != "" && AllPull(w, codes)
    requires Live(w.conns[x]) && w.conns[x].partners != [] && w.conns[x].code !in codes
    ensures Inv(AnnounceAll(w, x, codes))
    decreases |codes|
  {
    if codes != [] {
      hide Announce, Mutual, RoleOk;
      assert codes[0] in codes;
      var w1 := Announce(w, x, codes[0]);
      TellPuller(w, x, codes[0]);
      forall p | p in codes[1..]
        ensures p in w1.registry && w1.conns[w1.registry[p]].state == PULLER && p != w.conns[x].code
      {
        assert p in codes;
        assert w.conns[w.registry[p]].code == p;
      }
      SuccessKeepsInv(w1, x, codes[1..]);
    }
  }

  lemma AnnounceEffect<Id>(w: World<Id>, x: Id, code: string)
    requires Filed(w) && x in w.conns && w.conns[x].address != "" && w.conns[x].code != code
    ensures var w' := Announce(w, x, code);
      && Filed(w')
      && w'.conns[x].code == w.conns[x].code && w'.conns[x].address == w.conns[x].address
      && (forall p <- w'.conns[x].partners :: p in w.conns[x].partners)
      && (forall y <- w.conns :: y != x ==> w'.conns[y] == w.conns[y].(sent := w'.conns[y].sent))
      && (code in w.registry && w.conns[w.registry[code]].state != PULLER ==> code !in w'.conns[x].partners)
  {}

  /** With an address, telling the partners leaves everyone else's lists alone, and strikes every
      partner that does not pull off the list of `x`. */
  lemma {:induction false} AnnounceAllStrikes<Id>(w: World<Id>, x: Id, codes: seq<string>)
    requires Filed(w) && x in w.conns && w.conns[x].address != "" && w.conns[x].code !in codes
    ensures var w' := AnnounceAll(w, x, codes);
      && w'.conns[x].code == w.conns[x].code && w'.conns[x].address == w.conns[x].address
      && (forall p <- w'.conns[x].partners :: p in w.conns[x].partners)
      && (forall y <- w.conns :: y != x ==> w'.conns[y] == w.conns[y].(sent := w'.conns[y].sent))
      && (forall p <- codes :: p in w.registry && w.conns[w.registry[p]].state != PULLER ==> p !in w'.conns[x].partners)
    decreases |codes|
  {
    if codes != [] {
      assert codes[0] in codes && forall p <- codes :: p == codes[0] || p in codes[1..];
      hide Announce;
      AnnounceEffect(w, x, codes[0]);
      AnnounceAllStrikes(Announce(w, x, codes[0]), x, codes[1..]);
    }
  }

  lemma UnpulledPartner<Id>(w: World<Id>, x: Id) returns (p: string)
    requires Inv(w) && x in w.conns && !AllPull(w, w.conns[x].partners)
    ensures p in w.conns[x].partners && p in w.registry && w.registry[p] != x
    ensures var d := w.conns[w.registry[p]]; d.state != PULLER && d.code == p && w.conns[x].code in d.partners
    ensures w.conns[x].code in w.registry && w.registry[w.conns[x].code] == x && w.conns[x].code !in w.conns[x].partners
  {
    assert RoleOk(w, x) && Mutual(w, x);
    p :| p in w.conns[x].partners && !(p in w.registry && w.registry[p] in w.conns && w.conns[w.registry[p]].state == PULLER);
  }

  lemma BadCreateBreaksInv<Id>(w: World<Id>, x: Id, address: string)
    requires Inv(w) && x in w.conns && address != "" && !AllPull(w, w.conns[x].partners)
    ensures !Inv(Create(w, x, address))
  {
    hide AnnounceAll, RoleOk, AllPull;
    var p := UnpulledPartner(w, x);
    var c := w.conns[x].(address := address);
    AnnounceAllStrikes(w.(conns := w.conns[x := c]), x, c.partners);
    assert !Mutual(Create(w, x, address), w.registry[p]);
  }

  /** Creating a stream keeps the invariant exactly if it reports failure, with an empty address, or
      all partners of the creator pull. */
  lemma CreateExactly<Id>(w: World<Id>, x: Id, address: string)
    requires Inv(w) && x in w.conns
    ensures Inv(Create(w, x, address)) <==> address == "" || AllPull(w, w.conns[x].partners)
  {
    var c := w.conns[x].(address := address);
    var w1 := w.(conns := w.conns[x := c]);
    OnlySent(w, w1);
    assert RoleOk(w, x) && Mutual(w, x);
    if address == "" {
      FailureKeepsInv(w1, x, c.partners);
    } else if !AllPull(w, c.partners) {
      BadCreateBreaksInv(w, x, address);
    } else if c.partners != [] {
      SuccessKeepsInv(w1, x, c.partners);
    }
  }
}
