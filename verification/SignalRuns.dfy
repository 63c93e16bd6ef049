/** Whole runs of the signalling server. */
module SignalRuns {
  import opened SignalSpec
  import opened SignalInvariant

  /** Everything that can happen: a client connects, sends one of its commands, or is lost. */
  datatype Step<Id> =
    | Connect(x: Id)
    | JoinStep(x: Id, code: string)
    | ObtainStep(x: Id, code: string)
    | CreateStep(x: Id, address: string)
    | DeleteStep(x: Id)
    | Disconnect(x: Id)

  function Empty<Id>(): World<Id> {
    World(map[], map[])
  }

  predicate Possible<Id>(w: World<Id>, s: Step<Id>) {
    if s.Connect? then s.x !in w.conns else s.x in w.conns
  }

  function Do<Id>(w: World<Id>, s: Step<Id>): (w': World<Id>)
    requires Closed(w) && Possible(w, s)
    ensures Closed(w')
  {
    match s
    case Connect(x) => w.(conns := w.conns[x := NEWCOMER])
    case JoinStep(x, code) => Join(w, x, code)
    case ObtainStep(x, code) => Obtain(w, x, code)
    case CreateStep(x, address) => Create(w, x, address)
    case DeleteStep(x) => Delete(w, x)
    case Disconnect(x) => Clear(w, x)
  }

  /** The two rules clients have to follow: no join under an empty code or the code of a departed
      client, and no successful answer to a request for a stream while a partner does not pull. */
  ghost predicate Orderly<Id>(w: World<Id>, s: Step<Id>)
    requires s.Connect? || s.x in w.conns
  {
    match s
    case JoinStep(x, code) => w.conns[x].state != NONE || code in w.registry || (code != "" && !Departed(w, code))
    case CreateStep(x, address) => address == "" || AllPull(w, w.conns[x].partners)
    case _ => true
  }

  /** The steps can be taken one after the other, each of them orderly when it is taken. */
  ghost predicate OrderlyRun<Id>(w: World<Id>, steps: seq<Step<Id>>)
    decreases |steps|
  {
    steps == [] || (Closed(w) && Possible(w, steps[0]) && Orderly(w, steps[0]) && OrderlyRun(Do(w, steps[0]), steps[1..]))
  }

  function Run<Id>(w: World<Id>, steps: seq<Step<Id>>): World<Id>
    requires Closed(w)
    decreases |steps|
  {
    if steps == [] || !Possible(w, steps[0]) then w else Run(Do(w, steps[0]), steps[1..])
  }

  lemma InvIsClosed<Id>(w: World<Id>)
    requires Inv(w)
    ensures Closed(w)
  {}

  /** One step keeps the invariant exactly if it is orderly. */
  lemma StepExactly<Id>(w: World<Id>, s: Step<Id>)
    requires Inv(w) && Possible(w, s)
    ensures Closed(w) && (Inv(Do(w, s)) <==> Orderly(w, s))
  {
    hide Clear, Join, Create, Obtain, AllPull, Departed;
    InvIsClosed(w);
    match s
    case Connect(x) => ConnectKeepsInv(w, x);
    case JoinStep(x, code) => JoinExactly(w, x, code);
    case ObtainStep(x, code) => ObtainKeepsInv(w, x, code);
    case CreateStep(x, address) => CreateExactly(w, x, address);
    case DeleteStep(x) => ClearKeepsInv(w, x);
    case Disconnect(x) => ClearKeepsInv(w, x);
  }

  lemma ConnectKeepsInv<Id>(w: World<Id>, x: Id)
    requires Inv(w) && x !in w.conns
    ensures Inv(w.(conns := w.conns[x := NEWCOMER]))
  {
    var w' := w.(conns := w.conns[x := NEWCOMER]);
    forall y | y in w'.conns
      ensures RoleOk(w', y) && Mutual(w', y)
    {
      if y != x {
        assert RoleOk(w, y) && Mutual(w, y);
      }
    }
  }

  /** After any orderly run, from the start of the server on: registration follows the role, roles
      fit the partner lists, and partner lists are mutual. */
  lemma {:induction false} OrderlyRunKeepsInv<Id>(w: World<Id>, steps: seq<Step<Id>>)
    requires Inv(w) && OrderlyRun(w, steps)
    ensures Closed(w) && Inv(Run(w, steps))
    decreases |steps|
  {
    InvIsClosed(w);
    if steps != [] {
      StepExactly(w, steps[0]);
      OrderlyRunKeepsInv(Do(w, steps[0]), steps[1..]);
    }
  }

  /** What an orderly run means for clients: two live clients list each other or neither lists the
      other; and once a client has departed, no list names it. */
  lemma PartnersAfterRun<Id>(steps: seq<Step<Id>>)
    requires OrderlyRun(Empty<Id>(), steps)
    ensures var w := Run(Empty<Id>(), steps);
      && Inv(w)
      && (forall x, y :: x in w.conns && y in w.conns && Live(w.conns[x]) && Live(w.conns[y]) ==>
            (w.conns[y].code in w.conns[x].partners <==> w.conns[x].code in w.conns[y].partners))
      && (forall x, y :: x in w.conns && y in w.conns && w.conns[x].state == CLOSE ==> w.conns[x].code !in w.conns[y].partners)
  {
    var w := Run(Empty<Id>(), steps);
    OrderlyRunKeepsInv(Empty<Id>(), steps);
    forall x, y | x in w.conns && y in w.conns && w.conns[y].code in w.conns[x].partners
      ensures w.conns[x].state != CLOSE && w.conns[y].state != CLOSE
      ensures Live(w.conns[y]) ==> w.conns[x].code in w.conns[y].partners
    {
      assert RoleOk(w, x) && RoleOk(w, y) && Mutual(w, x);
    }
  }

  /** A departed connection stays departed, whatever happens, as long as the invariant holds. */
  lemma DepartedStaysStep<Id>(w: World<Id>, s: Step<Id>, x: Id)
    requires Inv(w) && Possible(w, s) && x in w.conns && w.conns[x].state == CLOSE
    ensures Closed(w) && x in Do(w, s).conns && Do(w, s).conns[x].state == CLOSE
  {
    hide Clear, Join, Obtain, Create, Inv;
    InvIsClosed(w);
    match s
    case Connect(z) =>
    case JoinStep(z, code) => DepartedStaysJoin(w, z, code, x);
    case ObtainStep(z, code) => DepartedStaysObtain(w, z, code, x);
    case CreateStep(z, address) => DepartedStaysCreate(w, z, address, x);
    case DeleteStep(z) => DepartedStaysClear(w, z, x);
    case Disconnect(z) => DepartedStaysClear(w, z, x);
  }

  lemma DepartedStaysJoin<Id>(w: World<Id>, z: Id, code: string, x: Id)
    requires Closed(w) && z in w.conns && x in w.conns && w.conns[x].state == CLOSE
    ensures Join(w, z, code).conns[x].state == CLOSE
  {}

  lemma DepartedStaysObtain<Id>(w: World<Id>, z: Id, code: string, x: Id)
    requires Closed(w) && z in w.conns && x in w.conns && w.conns[x].state == CLOSE
    ensures Obtain(w, z, code).conns[x].state == CLOSE
  {}

  lemma DepartedStaysCreate<Id>(w: World<Id>, z: Id, address: string, x: Id)
    requires Inv(w) && z in w.conns && x in w.conns && w.conns[x].state == CLOSE
    ensures Create(w, z, address).conns[x].state == CLOSE
  {
    assert RoleOk(w, x);
    var c := w.conns[z].(address := address);
    OutsidersUntouched(w.(conns := w.conns[z := c]), z, c.partners, x);
  }

  lemma DepartedStaysClear<Id>(w: World<Id>, z: Id, x: Id)
    requires Inv(w) && z in w.conns && x in w.conns && w.conns[x].state == CLOSE
    ensures Clear(w, z).conns[x].state == CLOSE
  {
    ClearExactly(w, z);
    assert RoleOk(w, x);
  }

  /** Telling partners about a stream changes the creator and registered connections only. */
  lemma {:induction false} OutsidersUntouched<Id>(w: World<Id>, z: Id, codes: seq<string>, x: Id)
    requires Closed(w) && z in w.conns && x in w.conns && w.conns[x].state == CLOSE
    requires forall k <- w.registry :: w.registry[k] != x
    requires x == z ==> codes == []
    ensures AnnounceAll(w, z, codes).conns[x].state == CLOSE
    decreases |codes|
  {
    if codes != [] {
      OutsidersUntouched(Announce(w, z, codes[0]), z, codes[1..], x);
    }
  }

  lemma {:induction false} DepartedStays<Id>(w: World<Id>, steps: seq<Step<Id>>, x: Id)
    requires Inv(w) && OrderlyRun(w, steps) && x in w.conns && w.conns[x].state == CLOSE
    ensures Closed(w) && x in Run(w, steps).conns && Run(w, steps).conns[x].state == CLOSE
    decreases |steps|
  {
    InvIsClosed(w);
    if steps != [] {
      StepExactly(w, steps[0]);
      DepartedStaysStep(w, steps[0], x);
      DepartedStays(Do(w, steps[0]), steps[1..], x);
    }
  }

  /** The notices a departure causes: only partners get one; it carries the number of partners they
      have left; and it carries zero exactly when the receiver is now idle because of it. */
  lemma DeleteNotices<Id>(w: World<Id>, x: Id, y: Id)
    requires Inv(w) && x in w.conns && y in w.conns && x != y
    ensures var before := w.conns[y]; var after := Clear(w, x).conns[y];
      if w.conns[x].code in before.partners then
        && after.sent == before.sent + [DeleteStream(|after.partners|)]
        && |after.partners| == |before.partners| - 1
        && after.state == (if after.partners == [] then IDLE else before.state)
      else after == before
  {
    var c := w.conns[x];
    ClearExactly(w, x);
    assert RoleOk(w, x) && RoleOk(w, y) && Mutual(w, x) && Mutual(w, y);
    if Named(w, y, c.partners) {
      LeaveEffect(w.conns[y], c.code);
      WithoutDistinct(w.conns[y].partners, c.code);
    }
  }
}
