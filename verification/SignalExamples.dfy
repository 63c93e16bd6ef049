/** Runs that break the rules, from the start of the server on, and what clients see of it. */
module SignalExamples {
  import opened SignalSpec
  import opened SignalInvariant
  import opened SignalRuns
  import opened SignalLosses

  /** One more step behind an orderly run. */
  lemma {:induction false} RunOn<Id>(w: World<Id>, steps: seq<Step<Id>>, s: Step<Id>)
    requires Closed(w) && OrderlyRun(w, steps) && Possible(Run(w, steps), s)
    ensures Closed(Run(w, steps)) && Run(w, steps + [s]) == Do(Run(w, steps), s)
    ensures OrderlyRun(w, steps + [s]) <==> Orderly(Run(w, steps), s)
    decreases |steps|
  {
    hide Do, Orderly;
    if steps == [] {
      assert [] + [s] == [s] && [s][1..] == [];
    } else {
      assert (steps + [s])[1..] == steps[1..] + [s];
      RunOn(Do(w, steps[0]), steps[1..], s);
    }
  }

  const A := "a"
  const B := "b"

  const JOINED: seq<Packet> := [JoinReply(true)]

  function Member(code: string): Conn {
    Conn(IDLE, code, "", [], JOINED)
  }

  /** Two clients join. */
  function Met<Id>(a: Id, b: Id): seq<Step<Id>> {
    [Connect(a), JoinStep(a, A), Connect(b), JoinStep(b, B)]
  }

  lemma MetRun<Id>(a: Id, b: Id)
    requires a != b
    ensures Closed(Empty<Id>()) && OrderlyRun(Empty<Id>(), Met(a, b))
    ensures Run(Empty<Id>(), Met(a, b)) == World(map[a := Member(A), b := Member(B)], map[A := a, B := b])
  {
    var w := Empty<Id>();
    var none: seq<Step<Id>> := [];
    assert NEWCOMER.sent + JOINED == JOINED;
    RunOn(w, none, Connect(a));
    RunOn(w, none + [Connect(a)], JoinStep(a, A));
    RunOn(w, none + [Connect(a)] + [JoinStep(a, A)], Connect(b));
    RunOn(w, none + [Connect(a)] + [JoinStep(a, A)] + [Connect(b)], JoinStep(b, B));
    assert none + [Connect(a)] + [JoinStep(a, A)] + [Connect(b)] + [JoinStep(b, B)] == Met(a, b);
  }

  /** The first asks for the stream of the second. */
  function Asked<Id>(a: Id, b: Id): seq<Step<Id>> {
    Met(a, b) + [ObtainStep(a, B)]
  }

  lemma AskedRun<Id>(a: Id, b: Id)
    requires a != b
    ensures Closed(Empty<Id>()) && OrderlyRun(Empty<Id>(), Asked(a, b))
    ensures Run(Empty<Id>(), Asked(a, b)) ==
      World(map[a := Conn(PULLER, A, "", [B], JOINED + [ObtainReply(true)]), b := Conn(IDLE, B, "", [A], JOINED + [CreateStream])],
            map[A := a, B := b])
  {
    MetRun(a, b);
    RunOn(Empty<Id>(), Met(a, b), ObtainStep(a, B));
    assert [] + [A] == [A] && [] + [B] == [B];
  }

  /** The wrong one of the two answers the request, with an address: it forgets its partner, which goes on listing it. */
  lemma CreatedByPuller<Id>(a: Id, b: Id, address: string)
    requires a != b && address != ""
    ensures Closed(Empty<Id>()) && OrderlyRun(Empty<Id>(), Asked(a, b)) && !OrderlyRun(Empty<Id>(), Asked(a, b) + [CreateStep(a, address)])
    ensures var w := Run(Empty<Id>(), Asked(a, b) + [CreateStep(a, address)]);
      && a in w.conns && b in w.conns && w.conns[a].partners == [] && w.conns[b].partners == [A] && w.registry == map[A := a, B := b]
      && !Inv(w)
  {
    AskedRun(a, b);
    var w0, s := Run(Empty<Id>(), Asked(a, b)), CreateStep(a, address);
    RunOn(Empty<Id>(), Asked(a, b), s);
    assert B in w0.conns[a].partners;
    OnePartner(w0.(conns := w0.conns[a := w0.conns[a].(address := address)]), a, B);
    assert A in Do(w0, s).conns[b].partners;
    assert !Mutual(Do(w0, s), b);
  }

  lemma OnePartner<Id>(w: World<Id>, x: Id, p: string)
    requires Closed(w) && x in w.conns && w.conns[x].partners == [p]
    ensures AnnounceAll(w, x, [p]) == Announce(w, x, p)
    ensures RemoveClient(w.conns[x], p).partners == []
  {
    assert [p][1..] == [];
  }

  /** A client joins under no code: it is live, and nobody finds it. */
  lemma JoinedNameless<Id>(a: Id)
    ensures var steps := [Connect(a), JoinStep(a, "")];
      && Closed(Empty<Id>()) && !OrderlyRun(Empty<Id>(), steps)
      && var w := Run(Empty<Id>(), steps);
      && w == World(map[a := Member("")], map[]) && !Serves(w)
  {
    var w := Empty<Id>();
    var none: seq<Step<Id>> := [];
    assert NEWCOMER.sent + JOINED == JOINED;
    RunOn(w, none, Connect(a));
    RunOn(w, none + [Connect(a)], JoinStep(a, ""));
    assert none + [Connect(a)] + [JoinStep(a, "")] == [Connect(a), JoinStep(a, "")];
    assert !Fits(World(map[a := Member("")], map[]), a);
  }

  /** A client ends its stream and keeps its socket; another one joins under its code. */
  function Rejoined<Id>(a: Id, b: Id, c: Id): seq<Step<Id>> {
    Asked(a, b) + [DeleteStep(a)] + [Connect(c)] + [JoinStep(c, A)]
  }

  /** Then the first one's socket is lost, and the registration of the other one with it. */
  lemma RegistrationLost<Id>(a: Id, b: Id, c: Id)
    requires a != b && a != c && b != c
    ensures Closed(Empty<Id>()) && OrderlyRun(Empty<Id>(), Asked(a, b) + [DeleteStep(a)] + [Connect(c)])
    ensures !OrderlyRun(Empty<Id>(), Rejoined(a, b, c))
    ensures var w := Run(Empty<Id>(), Rejoined(a, b, c));
      && Closed(w) && Serves(w) && a in w.conns && w.conns[a].state == CLOSE && w.registry == map[A := c, B := b]
      && var w' := Do(w, Disconnect(a));
      && w'.registry == map[B := b] && c in w'.conns && w'.conns[c] == Member(A) && !Serves(w')
  {
    hide Do, Run, OrderlyRun, Inv, Serves, Asked;
    var w := Empty<Id>();
    var first, second := Asked(a, b) + [DeleteStep(a)], Asked(a, b) + [DeleteStep(a)] + [Connect(c)];
    StartKeepsInv<Id>();
    AskedRun(a, b);
    OrderlyRunKeepsInv(w, Asked(a, b));
    RunOn(w, Asked(a, b), DeleteStep(a));
    DeletedByPuller(Run(w, Asked(a, b)), a, b);
    OrderlyRunKeepsInv(w, first);
    RunOn(w, first, Connect(c));
    Newcomer(Run(w, first), c);
    OrderlyRunKeepsInv(w, second);
    RunOn(w, second, JoinStep(c, A));
    RejoinedThenLost(Run(w, second), a, b, c);
  }

  lemma StartKeepsInv<Id>()
    ensures Inv(Empty<Id>())
  {}

  lemma Newcomer<Id>(w: World<Id>, c: Id)
    requires Closed(w) && c !in w.conns
    ensures Possible(w, Connect(c)) && Orderly(w, Connect(c)) && Do(w, Connect(c)) == w.(conns := w.conns[c := NEWCOMER])
  {}

  lemma DeletedByPuller<Id>(w: World<Id>, a: Id, b: Id)
    requires Inv(w) && Closed(w) && a in w.conns && w.conns[a].state == PULLER && w.conns[a].code == A
    requires w.registry == map[A := a, B := b] && w.conns.Keys == {a, b}
    ensures Possible(w, DeleteStep(a)) && Orderly(w, DeleteStep(a))
    ensures var d := Do(w, DeleteStep(a));
      d.conns.Keys == {a, b} && d.conns[a].state == CLOSE && d.conns[a].code == A && d.registry == map[B := b]
  {
    hide Inv, Clear;
    ClearExactly(w, a);
    assert map[A := a, B := b] - {A} == map[B := b];
  }

  lemma RejoinedThenLost<Id>(w: World<Id>, a: Id, b: Id, c: Id)
    requires Inv(w) && a in w.conns && c in w.conns && a != c && w.conns[a].state == CLOSE && w.conns[a].code == A
    requires w.conns[c] == NEWCOMER && w.registry == map[B := b]
    ensures Closed(w) && Possible(w, JoinStep(c, A)) && !Orderly(w, JoinStep(c, A))
    ensures var w1 := Do(w, JoinStep(c, A));
      && Closed(w1) && Serves(w1) && a in w1.conns && w1.conns[a].state == CLOSE && w1.registry == map[A := c, B := b]
      && var w2 := Do(w1, Disconnect(a));
      && w2.registry == map[B := b] && c in w2.conns && w2.conns[c] == Member(A) && !Serves(w2)
  {
    hide Inv, Serves, Clear, Join, RoleOk;
    InvIsClosed(w);
    var w1 := Join(w, c, A);
    JoinServesExactly(w, c, A);
    RoleHolds(w, a);
    JoinAs(w, c);
    ClearAgain(w1, a);
    LossBreaks(w1, a);
    assert map[A := c, B := b] - {A} == map[B := b];
  }

  lemma JoinAs<Id>(w: World<Id>, c: Id)
    requires Closed(w) && c in w.conns && w.conns[c] == NEWCOMER && A !in w.registry
    ensures Join(w, c, A) == World(w.conns[c := Member(A)], w.registry[A := c])
  {
    assert NEWCOMER.sent + JOINED == JOINED;
  }

  lemma RoleHolds<Id>(w: World<Id>, a: Id)
    requires Inv(w) && a in w.conns
    ensures RoleOk(w, a) && (w.conns[a].state == CLOSE ==> w.conns[a].partners == [])
  {
    assert RoleOk(w, a);
  }
}
