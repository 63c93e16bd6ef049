/** What a join under the wrong code leads to. A connection that deleted its stream departs and is departed a second
    time when its socket is lost, and once more when it is destroyed; each time its code is struck off the registry,
    whoever is registered under it by then. */
module SignalLosses {
  import opened SignalSpec
  import opened SignalInvariant

  /** Clients are served: live ones are registered, roles fit, lists are mutual. Unlike the invariant, this does not
      say that the codes of departed connections are free. */
  ghost predicate Serves<Id>(w: World<Id>) {
    RegistryOk(w) && (forall x <- w.conns :: Fits(w, x)) && (forall x <- w.conns :: Mutual(w, x))
  }

  predicate Registered<Id>(w: World<Id>, y: Id)
    requires y in w.conns
  {
    w.conns[y].code in w.registry && w.registry[w.conns[y].code] == y
  }

  /** Departing again changes nothing but the registry. */
  lemma ClearAgain<Id>(w: World<Id>, x: Id)
    requires Closed(w) && x in w.conns && w.conns[x].state == CLOSE && w.conns[x].partners == []
    ensures Clear(w, x).conns == w.conns
    ensures Clear(w, x).registry == if w.conns[x].code == "" then w.registry else w.registry - {w.conns[x].code}
  {
    assert w.conns[x].(state := CLOSE) == w.conns[x];
    assert w.conns[x := w.conns[x]] == w.conns;
  }

  /** A departed connection that departs again takes the registration of another client with it exactly if that one
      has joined under its code. */
  lemma RegistrationLostExactly<Id>(w: World<Id>, x: Id, y: Id)
    requires Serves(w) && x in w.conns && w.conns[x].state == CLOSE && y in w.conns && Registered(w, y)
    ensures Closed(w) && y in Clear(w, x).conns && Clear(w, x).conns[y] == w.conns[y]
    ensures Registered(Clear(w, x), y) <==> w.conns[y].code != w.conns[x].code
  {
    assert Fits(w, x);
    ClearAgain(w, x);
  }

  /** What a live client without registration is in for: requests for its stream are refused, it cannot join again,
      and partners that depart stay on its list. */
  lemma Unreachable<Id>(w: World<Id>, y: Id, z: Id)
    requires Closed(w) && Filed(w) && y in w.conns && Live(w.conns[y]) && w.conns[y].code !in w.registry && z in w.conns
    ensures Obtain(w, z, w.conns[y].code) == Reply(w, z, ObtainReply(false))
    ensures forall code :: Join(w, y, code) == Reply(w, y, JoinReply(false))
    ensures z != y && Distinct(w.conns[z].partners) ==> Clear(w, z).conns[y] == w.conns[y]
  {
    if z != y && Distinct(w.conns[z].partners) {
      var c := w.conns[z];
      NotifyAllExactly(w.(conns := w.conns[z := c.(state := CLOSE)]), c.code, c.partners);
    }
  }

  /** The invariant is exactly what the loss of any connection needs: clients are still served after each possible
      loss if and only if the codes of departed connections are free. */
  lemma LossesSafeExactly<Id>(w: World<Id>)
    requires Serves(w)
    ensures Closed(w) && ((forall x <- w.conns :: Serves(Clear(w, x))) <==> Inv(w))
  {
    hide Clear, Mutual, Fits;
    if Inv(w) {
      forall x | x in w.conns
        ensures Serves(Clear(w, x))
      {
        ClearKeepsInv(w, x);
        InvServes(Clear(w, x));
      }
    } else {
      var x :| x in w.conns && !RoleOk(w, x);
      assert Fits(w, x);
      LossBreaks(w, x);
    }
  }

  lemma InvServes<Id>(w: World<Id>)
    requires Inv(w)
    ensures Serves(w)
  {
    forall x | x in w.conns
      ensures Fits(w, x)
    {
      assert RoleOk(w, x);
    }
  }

  lemma LossBreaks<Id>(w: World<Id>, x: Id)
    requires Serves(w) && x in w.conns && w.conns[x].state == CLOSE && w.conns[x].code in w.registry
    ensures Closed(w) && !Serves(Clear(w, x))
  {
    var y := w.registry[w.conns[x].code];
    RegistrationLostExactly(w, x, y);
    assert !Fits(Clear(w, x), y);
  }

  /** The harm of a join: after it, and after the loss of any one connection, clients are still served exactly if the
      join was refused or its code is neither empty nor that of a departed connection. */
  lemma JoinHarmsExactly<Id>(w: World<Id>, y: Id, code: string)
    requires Inv(w) && y in w.conns
    ensures var w' := Join(w, y, code);
      (Serves(w') && forall x <- w'.conns :: Serves(Clear(w', x))) <==>
      w.conns[y].state != NONE || code in w.registry || (code != "" && !Departed(w, code))
  {
    hide Clear, Serves, Departed, Join, Mutual, RoleOk;
    var w' := Join(w, y, code);
    JoinExactly(w, y, code);
    if Serves(w') {
      LossesSafeExactly(w');
    } else if Inv(w') {
      InvServes(w');
    }
  }

  /** The two harms apart: an empty code is live and registered nowhere at once, the code of a departed connection
      serves until that connection is lost. */
  lemma JoinServesExactly<Id>(w: World<Id>, y: Id, code: string)
    requires Inv(w) && y in w.conns
    ensures Serves(Join(w, y, code)) <==> w.conns[y].state != NONE || code in w.registry || code != ""
  {
    hide Fits, Mutual, Join;
    assert RoleOk(w, y);
    if w.conns[y].state != NONE || code in w.registry {
      RefusalServes(w, y, code);
    } else if code != "" {
      NamedJoinServes(w, y, code);
    } else {
      NamelessJoin(w, y);
    }
  }

  lemma RefusalServes<Id>(w: World<Id>, y: Id, code: string)
    requires Inv(w) && y in w.conns && (w.conns[y].state != NONE || code in w.registry)
    ensures Serves(Join(w, y, code))
  {
    hide RoleOk, Mutual;
    OnlySent(w, Join(w, y, code));
    InvServes(Join(w, y, code));
  }

  lemma NamedJoinServes<Id>(w: World<Id>, y: Id, code: string)
    requires Inv(w) && y in w.conns && w.conns[y].state == NONE && code !in w.registry && code != ""
    ensures Serves(Join(w, y, code))
  {
    hide Mutual, Fits, RoleOk, Join;
    forall z | z in w.conns
      ensures Fits(Join(w, y, code), z)
    {
      RoleAfterJoin(w, y, code, z);
    }
    RegistryAfterJoin(w, y, code);
    FreshJoinKeepsMutual(w, y, code);
  }

  lemma NamelessJoin<Id>(w: World<Id>, y: Id)
    requires Inv(w) && y in w.conns && w.conns[y].state == NONE
    ensures "" !in w.registry && !Serves(Join(w, y, ""))
  {
    assert !Fits(Join(w, y, ""), y);
  }
}
