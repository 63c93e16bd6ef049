/** The timer queue: timers filed by id and, for the order of expiry, by (timeout, id). */
module TimerQueues {
  import opened Bytes

  /** A pending timer as a value. */
  datatype Entry = Entry(next: int, interval: U32)

  type Pending = map<U32, Entry>

  type Key = (int, U32)

  predicate Before(a: Key, b: Key) {
    a.0 < b.0 || (a.0 == b.0 && a.1 <= b.1)
  }

  predicate Due(p: Pending, id: U32, now: int) {
    id in p && p[id].next <= now
  }

  /** The ids are distinct and in the order in which their timers expire. */
  ghost predicate InOrder(p: Pending, log: seq<U32>) {
    && (forall i :: 0 <= i < |log| ==> log[i] in p)
    && (forall i, j :: 0 <= i < j < |log| ==> log[i] != log[j] && Before((p[log[i]].next, log[i]), (p[log[j]].next, log[j])))
  }

  /** The timers of `log` have fired: those that asked for it are due again one interval from now,
      the others are gone, and all other timers are as before. */
  ghost predicate Fired(p: Pending, p': Pending, log: seq<U32>, now: int, answer: (nat, U32) -> bool) {
    && (forall i :: 0 <= i < |log| ==> log[i] in p && Turned(p, p', log[i], now, answer(i, log[i])))
    && (forall id <- p' :: id in p)
    && (forall id <- p :: id !in log ==> id in p' && p'[id] == p[id])
  }

  ghost predicate Turned(p: Pending, p': Pending, id: U32, now: int, again: bool)
    requires id in p
  {
    if again then id in p' && p'[id] == p[id].(next := now + p[id].interval) else id !in p'
  }

  /** What handling expired timers does: the timers due at the start have fired, once each and in
      order of expiry; those that asked for it are due again one interval from now; the others are
      gone; all other timers are as before. `answer(i, id)` is what the callback called as number
      `i` returns. */
  ghost predicate Handled(p: Pending, p': Pending, log: seq<U32>, now: int, answer: (nat, U32) -> bool) {
    && InOrder(p, log)
    && (forall id :: id in log <==> Due(p, id, now))
    && Fired(p, p', log, now, answer)
  }

  /** The same in plain terms: the timers with a timeout not after now fire, the earlier timeout first and the smaller
      id first among equals; one that asks for it is next due its interval from now. */
  lemma HandledExactly(p: Pending, p': Pending, log: seq<U32>, now: int, answer: (nat, U32) -> bool)
    requires Handled(p, p', log, now, answer)
    ensures forall id :: id in log <==> id in p && p[id].next <= now
    ensures forall i :: 0 <= i < |log| ==> log[i] in p
    ensures forall i, j :: 0 <= i < j < |log| ==>
              p[log[i]].next < p[log[j]].next || (p[log[i]].next == p[log[j]].next && log[i] < log[j])
    ensures forall i :: 0 <= i < |log| && !answer(i, log[i]) ==> log[i] !in p'
    ensures forall i :: 0 <= i < |log| && answer(i, log[i]) ==>
              log[i] in p' && p'[log[i]] == Entry(now + p[log[i]].interval, p[log[i]].interval)
    ensures forall id :: id !in log ==> (id in p' <==> id in p) && (id in p ==> p'[id] == p[id])
  {}

  /** The outcome is determined: two ways of handling the same timers agree. */
  lemma {:induction false} OrderIsUnique(p: Pending, a: seq<U32>, b: seq<U32>)
    requires InOrder(p, a) && InOrder(p, b) && forall id :: id in a <==> id in b
    ensures a == b
    decreases |a|
  {
    assert a != [] ==> a[0] in a;
    assert b != [] ==> b[0] in b;
    if a != [] {
      assert a[0] in b && b[0] in a;
      var i :| 0 <= i < |b| && b[i] == a[0];
      var j :| 0 <= j < |a| && a[j] == b[0];
      assert a[0] == b[0];
      forall id
        ensures id in a[1..] <==> id in b[1..]
      {
        assert id in a <==> id == a[0] || id in a[1..];
        assert id in b <==> id == b[0] || id in b[1..];
        assert a[0] !in a[1..] && b[0] !in b[1..];
      }
      OrderIsUnique(p, a[1..], b[1..]);
    }
  }

  // ---------- the loop ----------

  /** One pass of the loop over the timer that expires first. */
  function Fire(p: Pending, id: U32, now: int, again: bool): Pending
    requires id in p
  {
    if again then p[id := p[id].(next := now + p[id].interval)] else p - {id}
  }

  ghost predicate FirstDue(p: Pending, id: U32, now: int) {
    Due(p, id, now) && forall j <- p :: Before((p[id].next, id), (p[j].next, j))
  }

  /** The states the loop passes through, from `ps[0]` on, and the timers it fires on the way. */
  ghost predicate LoopRun(ps: seq<Pending>, ids: seq<U32>, now: int, answer: (nat, U32) -> bool) {
    && |ps| == |ids| + 1
    && forall i :: 0 <= i < |ids| ==> FirstDue(ps[i], ids[i], now) && ps[i + 1] == Fire(ps[i], ids[i], now, answer(i, ids[i]))
  }

  lemma LoopRunStep(ps: seq<Pending>, ids: seq<U32>, now: int, answer: (nat, U32) -> bool, id: U32)
    requires LoopRun(ps, ids, now, answer) && FirstDue(ps[|ids|], id, now)
    ensures LoopRun(ps + [Fire(ps[|ids|], id, now, answer(|ids|, id))], ids + [id], now, answer)
  {
    hide FirstDue, Fire;
  }

  ghost predicate NoneDueIn(p: Pending, now: int) {
    forall id <- p :: !Due(p, id, now)
  }

  lemma NoneIsDue(p: Pending, now: int)
    requires NoneDueIn(p, now)
    ensures forall id <- p :: p[id].next > now
  {}

  /** A due timer with interval zero whose callback keeps asking to be repeated stays due, so the
      loop runs on however long it has run. */
  lemma {:induction false} ZeroIntervalNeverEnds(ps: seq<Pending>, ids: seq<U32>, now: int, answer: (nat, U32) -> bool, id: U32)
    requires LoopRun(ps, ids, now, answer)
    requires Due(ps[0], id, now) && ps[0][id].interval == 0 && forall i: nat :: answer(i, id)
    ensures Due(ps[|ids|], id, now) && ps[|ids|][id].interval == 0
    decreases |ids|
  {
    var n := |ids|;
    if n > 0 {
      ZeroIntervalNeverEnds(ps[..n], ids[..n - 1], now, answer, id);
      assert ps[..n][n - 1] == ps[n - 1];
      assert ps[n - 1 + 1] == Fire(ps[n - 1], ids[n - 1], now, answer(n - 1, ids[n - 1]));
    }
  }

  // ---------- the order of firing ----------

  /** All timers due, in the order in which they expire. */
  ghost predicate Queue(p: Pending, log: seq<U32>, now: int) {
    InOrder(p, log) && forall id :: id in log <==> Due(p, id, now)
  }

  lemma {:induction false} LeastExists(keys: set<Key>) returns (k: Key)
    requires keys != {}
    ensures k in keys && forall j <- keys :: Before(k, j)
    decreases |keys|
  {
    k :| k in keys;
    var others := keys - {k};
    if others != {} {
      var m := LeastExists(others);
      assert forall j <- keys :: j == k || j in others;
      if Before(m, k) {
        k := m;
      }
    }
  }

  lemma {:induction false} OrderExists(p: Pending, ids: set<U32>) returns (log: seq<U32>)
    requires ids <= p.Keys
    ensures InOrder(p, log) && forall id :: id in log <==> id in ids
    decreases |ids|
  {
    log := [];
    if ids != {} {
      var id0 :| id0 in ids;
      var keys := set id | id in ids :: (p[id].next, id);
      assert (p[id0].next, id0) in keys;
      var k := LeastExists(keys);
      var rest := OrderExists(p, ids - {k.1});
      log := [k.1] + rest;
      forall i | 0 < i < |log|
        ensures log[i] in p && log[i] != k.1 && Before(k, (p[log[i]].next, log[i]))
      {
        assert log[i] in rest;
        assert (p[log[i]].next, log[i]) in keys;
      }
      assert forall i, j :: 0 < i < j < |log| ==> log[i] == rest[i - 1] && log[j] == rest[j - 1];
    }
  }

  lemma QueueExists(p: Pending, now: int) returns (log: seq<U32>)
    ensures Queue(p, log, now)
  {
    log := OrderExists(p, set id | id in p && p[id].next <= now);
  }

  /** No due timer with interval zero asks to be repeated when its turn comes. */
  ghost predicate Settles(p: Pending, now: int, answer: (nat, U32) -> bool) {
    forall log :: Queue(p, log, now) ==> SettlesIn(p, log, answer)
  }

  ghost predicate SettlesIn(p: Pending, log: seq<U32>, answer: (nat, U32) -> bool) {
    forall i :: 0 <= i < |log| && log[i] in p && answer(i, log[i]) ==> p[log[i]].interval > 0
  }

  ghost function DueSet(p: Pending, now: int): set<U32> {
    set id | id in p && p[id].next <= now
  }

  /** Everything still due expires after the timer `id`. */
  ghost predicate AllLater(p: Pending, q: Pending, id: U32, now: int) {
    id in p && forall j <- q :: Due(q, j, now) ==> j in p && Before((p[id].next, id), (p[j].next, j))
  }

  /** What has happened when the timers of `log` have fired; all that are still due expire later. */
  ghost predicate Progress(p: Pending, q: Pending, log: seq<U32>, now: int, answer: (nat, U32) -> bool) {
    && InOrder(p, log)
    && (forall i :: 0 <= i < |log| ==> Due(p, log[i], now) && AllLater(p, q, log[i], now))
    && (forall id <- q :: Due(q, id, now) ==> id !in log)
    && Fired(p, q, log, now, answer)
  }

  lemma FiredStep(p: Pending, q: Pending, log: seq<U32>, id: U32, now: int, answer: (nat, U32) -> bool)
    requires Fired(p, q, log, now, answer) && id in q && id !in log
    ensures Fired(p, Fire(q, id, now, answer(|log|, id)), log + [id], now, answer)
  {
    var log' := log + [id];
    assert forall x :: x in log' <==> x in log || x == id;
    assert forall i :: 0 <= i < |log| ==> log'[i] == log[i] && log[i] in log;
  }

  lemma InOrderStep(p: Pending, q: Pending, log: seq<U32>, id: U32, now: int)
    requires InOrder(p, log) && id in p && id !in log && Due(q, id, now)
    requires forall i :: 0 <= i < |log| ==> AllLater(p, q, log[i], now)
    ensures InOrder(p, log + [id])
  {}

  lemma DueAfterFire(p: Pending, q: Pending, log: seq<U32>, id: U32, now: int, again: bool)
    requires id in p && id in q && q[id] == p[id] && FirstDue(q, id, now) && (again ==> p[id].interval > 0)
    requires forall j <- q :: Due(q, j, now) ==> j in p && q[j] == p[j]
    ensures var q' := Fire(q, id, now, again);
      && DueSet(q', now) == DueSet(q, now) - {id} && id in DueSet(q, now)
      && AllLater(p, q', id, now)
      && (forall x :: AllLater(p, q, x, now) ==> AllLater(p, q', x, now))
  {}

  lemma LaterStep(p: Pending, q: Pending, q': Pending, log: seq<U32>, id: U32, now: int)
    requires forall i :: 0 <= i < |log| ==> Due(p, log[i], now) && AllLater(p, q, log[i], now)
    requires Due(p, id, now) && AllLater(p, q', id, now) && forall x :: AllLater(p, q, x, now) ==> AllLater(p, q', x, now)
    ensures var log' := log + [id]; forall i :: 0 <= i < |log'| ==> Due(p, log'[i], now) && AllLater(p, q', log'[i], now)
  {
    hide Due, AllLater;
    var log' := log + [id];
    assert forall i :: 0 <= i < |log'| ==> log'[i] == if i < |log| then log[i] else id;
  }

  lemma NotDueStep(q: Pending, q': Pending, log: seq<U32>, id: U32, now: int)
    requires (forall j <- q :: Due(q, j, now) ==> j !in log) && DueSet(q', now) == DueSet(q, now) - {id}
    ensures forall j <- q' :: Due(q', j, now) ==> j !in log + [id]
  {
    forall j | j in q' && Due(q', j, now)
      ensures j !in log + [id]
    {
      assert j in DueSet(q', now);
    }
  }

  lemma ProgressStep(p: Pending, q: Pending, log: seq<U32>, id: U32, now: int, answer: (nat, U32) -> bool)
    requires Progress(p, q, log, now, answer) && FirstDue(q, id, now)
    requires id in p && answer(|log|, id) ==> p[id].interval > 0
    ensures var q' := Fire(q, id, now, answer(|log|, id));
            Progress(p, q', log + [id], now, answer) && DueSet(q', now) == DueSet(q, now) - {id} && id in DueSet(q, now)
  {
    SameUntilFired(p, q, log, id, now, answer);
    assert Due(p, id, now);
    var q' := Fire(q, id, now, answer(|log|, id));
    FiredStep(p, q, log, id, now, answer);
    InOrderStep(p, q, log, id, now);
    DueAfterFire(p, q, log, id, now, answer(|log|, id));
    hide Fired, InOrder, AllLater, Fire, FirstDue, DueSet, Due;
    LaterStep(p, q, q', log, id, now);
    NotDueStep(q, q', log, id, now);
  }

  lemma ProgressStarts(p: Pending, now: int, answer: (nat, U32) -> bool)
    ensures Progress(p, p, [], now, answer)
  {}

  lemma ProgressEnds(p: Pending, q: Pending, log: seq<U32>, now: int, answer: (nat, U32) -> bool)
    requires Progress(p, q, log, now, answer) && forall id <- q :: !Due(q, id, now)
    ensures Handled(p, q, log, now, answer)
  {}

  /** The timer that expires first is the next one of the queue as it was at the start. */
  lemma NextInQueue(p: Pending, q: Pending, log: seq<U32>, full: seq<U32>, id: U32, now: int, answer: (nat, U32) -> bool)
    requires Queue(p, full, now) && Progress(p, q, log, now, answer) && FirstDue(q, id, now) && log <= full
    ensures id in p && |log| < |full| && full[|log|] == id && log + [id] <= full
  {
    SameUntilFired(p, q, log, id, now, answer);
    assert Due(p, id, now) && id in full;
    StillDue(p, q, log, full, now, answer);
    assert InOrder(p, full);
    hide Progress, Queue, InOrder, FirstDue, Due;
    var i :| 0 <= i < |full| && full[i] == id;
    assert forall j :: 0 <= j < |log| ==> full[j] == log[j] && log[j] != id;
    FirstOfRest(p, q, full, id, |log|, i, now);
  }

  lemma StillDue(p: Pending, q: Pending, log: seq<U32>, full: seq<U32>, now: int, answer: (nat, U32) -> bool)
    requires Queue(p, full, now) && Progress(p, q, log, now, answer) && log <= full
    ensures forall i :: |log| <= i < |full| ==> full[i] in q && full[i] in p && q[full[i]] == p[full[i]]
  {
    forall i | |log| <= i < |full|
      ensures full[i] in p && full[i] !in log
    {
      assert forall j :: 0 <= j < |log| ==> log[j] == full[j] && full[j] != full[i];
    }
  }

  lemma FirstOfRest(p: Pending, q: Pending, full: seq<U32>, id: U32, n: nat, i: nat, now: int)
    requires InOrder(p, full) && n <= i < |full| && full[i] == id && FirstDue(q, id, now)
    requires forall i :: n <= i < |full| ==> full[i] in q && full[i] in p && q[full[i]] == p[full[i]]
    ensures i == n
  {
    assert full[n] in q && full[n] in p;
  }

  // ---------- when the loop ends ----------

  /** The loop comes to a state with nothing due, having fired no timer twice. */
  ghost predicate EndsOnce(p: Pending, now: int, answer: (nat, U32) -> bool) {
    exists ps, ids :: EndsWith(p, ps, ids, now, answer)
  }

  ghost predicate EndsWith(p: Pending, ps: seq<Pending>, ids: seq<U32>, now: int, answer: (nat, U32) -> bool) {
    && LoopRun(ps, ids, now, answer) && ps[0] == p && NoneDueIn(ps[|ids|], now)
    && forall i, j :: 0 <= i < j < |ids| ==> ids[i] != ids[j]
  }

  /** A timer that is due stays due until it fires. */
  lemma {:induction false} DueUntilFired(ps: seq<Pending>, ids: seq<U32>, now: int, answer: (nat, U32) -> bool, id: U32, i: nat, n: nat)
    requires LoopRun(ps, ids, now, answer) && i <= n <= |ids| && Due(ps[i], id, now)
    requires forall j :: i <= j < n ==> ids[j] != id
    ensures Due(ps[n], id, now)
    decreases n
  {
    if i < n {
      DueUntilFired(ps, ids, now, answer, id, i, n - 1);
      assert ps[n - 1 + 1] == Fire(ps[n - 1], ids[n - 1], now, answer(n - 1, ids[n - 1]));
    }
  }

  /** In a run that ends and fires nothing twice, no timer that repeats is due again at once. */
  lemma RepeatsLater(p: Pending, ps: seq<Pending>, ids: seq<U32>, now: int, answer: (nat, U32) -> bool, i: nat)
    requires EndsWith(p, ps, ids, now, answer) && i < |ids|
    ensures answer(i, ids[i]) ==> ps[i][ids[i]].interval > 0
  {
    if answer(i, ids[i]) && ps[i][ids[i]].interval == 0 {
      assert ps[i + 1] == Fire(ps[i], ids[i], now, true);
      DueUntilFired(ps, ids, now, answer, ids[i], i + 1, |ids|);
      assert false;
    }
  }

  lemma RunPass(p: Pending, ps: seq<Pending>, ids: seq<U32>, now: int, answer: (nat, U32) -> bool, i: nat)
    requires EndsWith(p, ps, ids, now, answer) && i < |ids|
    ensures FirstDue(ps[i], ids[i], now) && ps[i + 1] == Fire(ps[i], ids[i], now, answer(i, ids[i]))
    ensures answer(i, ids[i]) ==> ps[i][ids[i]].interval > 0
    ensures ids[..i + 1] == ids[..i] + [ids[i]]
  {
    RepeatsLater(p, ps, ids, now, answer, i);
  }

  lemma RunShape(p: Pending, ps: seq<Pending>, ids: seq<U32>, now: int, answer: (nat, U32) -> bool)
    requires EndsWith(p, ps, ids, now, answer)
    ensures |ps| == |ids| + 1 && ps[0] == p && NoneDueIn(ps[|ids|], now)
  {}

  lemma {:induction false} RunProgresses(p: Pending, ps: seq<Pending>, ids: seq<U32>, now: int, answer: (nat, U32) -> bool, n: nat)
    requires EndsWith(p, ps, ids, now, answer) && n <= |ids|
    ensures |ps| == |ids| + 1 && Progress(p, ps[n], ids[..n], now, answer)
    decreases n
  {
    hide EndsWith, Progress, Fire, FirstDue;
    RunShape(p, ps, ids, now, answer);
    if n == 0 {
      ProgressStarts(p, now, answer);
      assert ids[..0] == [];
    } else {
      var m, id, log := n - 1, ids[n - 1], ids[..n - 1];
      RunPass(p, ps, ids, now, answer, m);
      RunProgresses(p, ps, ids, now, answer, m);
      SameUntilFired(p, ps[m], log, id, now, answer);
      ProgressStep(p, ps[m], log, id, now, answer);
    }
  }

  /** A run that ends without firing a timer twice settles: at its turn no timer with interval zero is
      repeated. */
  lemma RunSettles(p: Pending, ps: seq<Pending>, ids: seq<U32>, now: int, answer: (nat, U32) -> bool)
    requires EndsWith(p, ps, ids, now, answer)
    ensures SettlesIn(p, ids, answer)
  {
    forall i | 0 <= i < |ids| && ids[i] in p && answer(i, ids[i])
      ensures p[ids[i]].interval > 0
    {
      RunPass(p, ps, ids, now, answer, i);
      RunProgresses(p, ps, ids, now, answer, i);
      hide EndsWith, Progress, Fire;
      SameUntilFired(p, ps[i], ids[..i], ids[i], now, answer);
    }
  }

  lemma SameUntilFired(p: Pending, q: Pending, log: seq<U32>, id: U32, now: int, answer: (nat, U32) -> bool)
    requires Progress(p, q, log, now, answer) && FirstDue(q, id, now)
    ensures id in q && id !in log && id in p && q[id] == p[id]
  {}

  lemma FirstDueExists(q: Pending, now: int) returns (id: U32)
    requires !NoneDueIn(q, now)
    ensures FirstDue(q, id, now)
  {
    var keys := set j | j in q :: (q[j].next, j);
    var id0 :| id0 in q && Due(q, id0, now);
    assert (q[id0].next, id0) in keys;
    var k := LeastExists(keys);
    id := k.1;
    forall j | j in q
      ensures Before(k, (q[j].next, j))
    {
      assert (q[j].next, j) in keys;
    }
  }

  /** The loop on its way from `p` to `q`, along the queue `full` of what was due at the start. */
  ghost predicate Going(p: Pending, q: Pending, ps: seq<Pending>, log: seq<U32>, full: seq<U32>, now: int, answer: (nat, U32) -> bool) {
    && LoopRun(ps, log, now, answer) && ps[0] == p && ps[|log|] == q
    && Progress(p, q, log, now, answer)
    && Queue(p, full, now) && SettlesIn(p, full, answer) && log <= full
  }

  lemma GoingStarts(p: Pending, now: int, answer: (nat, U32) -> bool) returns (full: seq<U32>)
    requires Settles(p, now, answer)
    ensures Going(p, p, [p], [], full, now, answer)
  {
    full := QueueExists(p, now);
    assert SettlesIn(p, full, answer);
    hide SettlesIn, Queue;
    ProgressStarts(p, now, answer);
  }

  lemma GoingOn(p: Pending, q: Pending, ps: seq<Pending>, log: seq<U32>, full: seq<U32>, id: U32, now: int, answer: (nat, U32) -> bool)
    requires Going(p, q, ps, log, full, now, answer) && FirstDue(q, id, now)
    ensures var q' := Fire(q, id, now, answer(|log|, id));
      && Going(p, q', ps + [q'], log + [id], full, now, answer)
      && DueSet(q', now) == DueSet(q, now) - {id} && id in DueSet(q, now)
  {
    NextInQueue(p, q, log, full, id, now, answer);
    assert answer(|log|, id) ==> p[id].interval > 0;
    hide Progress, FirstDue, Fire, Queue, SettlesIn;
    ProgressStep(p, q, log, id, now, answer);
    LoopRunStep(ps, log, now, answer, id);
  }

  lemma GoingEnds(p: Pending, q: Pending, ps: seq<Pending>, log: seq<U32>, full: seq<U32>, now: int, answer: (nat, U32) -> bool)
    requires Going(p, q, ps, log, full, now, answer) && NoneDueIn(q, now)
    ensures Handled(p, q, log, now, answer)
    ensures |ps| == |log| + 1 && LoopRun(ps, log, now, answer) && ps[0] == p && ps[|log|] == q
  {
    ProgressEnds(p, q, log, now, answer);
  }

  /** From a start that settles, the loop ends. */
  lemma SettledRun(p: Pending, now: int, answer: (nat, U32) -> bool)
    requires Settles(p, now, answer)
    ensures EndsOnce(p, now, answer)
  {
    hide Going, Fire, FirstDue, NoneDueIn, Settles;
    var q, ps, ids := p, [p], [];
    var full := GoingStarts(p, now, answer);
    while !NoneDueIn(q, now)
      invariant Going(p, q, ps, ids, full, now, answer)
      decreases DueSet(q, now)
    {
      var id := FirstDueExists(q, now);
      GoingOn(p, q, ps, ids, full, id, now, answer);
      q := Fire(q, id, now, answer(|ids|, id));
      ps, ids := ps + [q], ids + [id];
    }
    GoingEnds(p, q, ps, ids, full, now, answer);
    assert EndsWith(p, ps, ids, now, answer);
  }

  /** The loop ends with nothing due, every timer due at the start having fired exactly once, if and
      only if no due timer with interval zero asks to be repeated when its turn comes. */
  lemma EndsExactly(p: Pending, now: int, answer: (nat, U32) -> bool)
    ensures EndsOnce(p, now, answer) <==> Settles(p, now, answer)
  {
    if Settles(p, now, answer) {
      SettledRun(p, now, answer);
    }
    if EndsOnce(p, now, answer) {
      var ps, ids :| EndsWith(p, ps, ids, now, answer);
      RunShape(p, ps, ids, now, answer);
      RunProgresses(p, ps, ids, now, answer, |ids|);
      RunSettles(p, ps, ids, now, answer);
      hide EndsWith, Progress, SettlesIn, NoneDueIn;
      assert ids[..|ids|] == ids;
      ProgressEnds(p, ps[|ids|], ids, now, answer);
      forall log | Queue(p, log, now)
        ensures SettlesIn(p, log, answer)
      {
        OrderIsUnique(p, log, ids);
      }
    }
  }

  // ---------- the queue ----------

  class Timer {
    const interval: U32
    var next: int

    constructor (interval: U32, next: int)
      ensures this.interval == interval && this.next == next
    {
      this.interval, this.next := interval, next;
    }
  }

  /** When each timer is due. */
  ghost function Nexts(timers: map<U32, Timer>): map<U32, int>
    reads timers.Values
  {
    map id | id in timers :: timers[id].next
  }

  lemma NextsWith(timers: map<U32, Timer>, id: U32, timer: Timer)
    ensures Nexts(timers[id := timer]) == Nexts(timers)[id := timer.next]
  {}

  lemma NextsWithout(timers: map<U32, Timer>, id: U32)
    ensures Nexts(timers - {id}) == Nexts(timers) - {id}
  {}

  // The two indexes, with the times at which the timers are due.

  ghost predicate Agree(timers: map<U32, Timer>, events: map<Key, Timer>, nexts: map<U32, int>) {
    && nexts.Keys == timers.Keys
    && (forall id <- timers :: 0 < id && (nexts[id], id) in events && events[(nexts[id], id)] == timers[id])
    && (forall k <- events :: k.1 in timers && timers[k.1] == events[k] && nexts[k.1] == k.0)
    && (forall i, j :: i in timers && j in timers && i != j ==> timers[i] != timers[j])
  }

  ghost function Entries(timers: map<U32, Timer>, nexts: map<U32, int>): Pending
    requires nexts.Keys == timers.Keys
  {
    map id | id in timers :: Entry(nexts[id], timers[id].interval)
  }

  lemma Added(timers: map<U32, Timer>, events: map<Key, Timer>, nexts: map<U32, int>, id: U32, timer: Timer, next: int)
    requires Agree(timers, events, nexts) && id !in timers && timer !in timers.Values
    ensures nexts.Keys == timers.Keys && (next, id) !in events
    ensures Agree(timers[id := timer], events[(next, id) := timer], nexts[id := next]) <==> id != 0
  {
    var timers', events', nexts' := timers[id := timer], events[(next, id) := timer], nexts[id := next];
    if id == 0 {
      assert id in timers';
    } else {
      forall i | i in timers'
        ensures 0 < i && (nexts'[i], i) in events' && events'[(nexts'[i], i)] == timers'[i]
      {
        assert i != id ==> i in timers;
      }
      forall k | k in events'
        ensures k.1 in timers' && timers'[k.1] == events'[k] && nexts'[k.1] == k.0
      {
        assert k != (next, id) ==> k in events;
      }
    }
  }

  lemma AddedEntry(timers: map<U32, Timer>, nexts: map<U32, int>, id: U32, timer: Timer, next: int)
    requires nexts.Keys == timers.Keys && id !in timers
    ensures id !in Entries(timers, nexts)
    ensures Entries(timers[id := timer], nexts[id := next]) == Entries(timers, nexts)[id := Entry(next, timer.interval)]
  {}

  /** An id that is taken keeps its timer; a second key for it is one too many. */
  lemma Refused(timers: map<U32, Timer>, events: map<Key, Timer>, nexts: map<U32, int>, id: U32, timer: Timer, next: int)
    requires Agree(timers, events, nexts) && id in timers
    ensures id in Entries(timers, nexts) && Entries(timers, nexts)[id].next == nexts[id]
    ensures (next, id) in events <==> nexts[id] == next
    ensures nexts[id] != next ==> !Agree(timers, events[(next, id) := timer], nexts)
  {
    assert (next, id) in events[(next, id) := timer];
  }

  lemma Removed(timers: map<U32, Timer>, events: map<Key, Timer>, nexts: map<U32, int>, id: U32)
    requires Agree(timers, events, nexts) && id in timers
    ensures Agree(timers - {id}, events - {(nexts[id], id)}, nexts - {id})
    ensures id in Entries(timers, nexts) && Entries(timers - {id}, nexts - {id}) == Entries(timers, nexts) - {id}
  {}

  lemma NothingRemoved(timers: map<U32, Timer>, nexts: map<U32, int>, id: U32)
    requires nexts.Keys == timers.Keys && id !in timers
    ensures Entries(timers, nexts) == Entries(timers, nexts) - {id}
  {}

  lemma Dropped(timers: map<U32, Timer>, events: map<Key, Timer>, nexts: map<U32, int>, k: Key, now: int)
    requires Agree(timers, events, nexts) && k in events
    ensures nexts.Keys == timers.Keys && k.1 in Entries(timers, nexts)
    ensures Agree(timers - {k.1}, events - {k}, nexts - {k.1})
    ensures Entries(timers - {k.1}, nexts - {k.1}) == Fire(Entries(timers, nexts), k.1, now, false)
  {
    Removed(timers, events, nexts, k.1);
  }

  lemma KeyIsNext(timers: map<U32, Timer>, events: map<Key, Timer>, nexts: map<U32, int>, k: Key)
    requires Agree(timers, events, nexts) && k in events
    ensures k.1 in timers && k == (nexts[k.1], k.1) && events[k] == timers[k.1]
    ensures forall i <- timers :: i != k.1 ==> timers[i] != timers[k.1]
  {}

  function Refiled(events: map<Key, Timer>, k: Key, next: int): map<Key, Timer>
    requires k in events
  {
    (events - {k})[(next, k.1) := events[k]]
  }

  ghost function Later(nexts: map<U32, int>, id: U32, next: int): map<U32, int> {
    nexts[id := next]
  }

  lemma Moved(timers: map<U32, Timer>, events: map<Key, Timer>, nexts: map<U32, int>, k: Key, now: int)
    requires Agree(timers, events, nexts) && k in events
    ensures Agree(timers, Refiled(events, k, now + events[k].interval), Later(nexts, k.1, now + events[k].interval))
  {}

  lemma MovedEntry(timers: map<U32, Timer>, events: map<Key, Timer>, nexts: map<U32, int>, k: Key, now: int)
    requires Agree(timers, events, nexts) && k in events
    ensures nexts.Keys == timers.Keys && k.1 in Entries(timers, nexts) && Later(nexts, k.1, now + events[k].interval).Keys == timers.Keys
    ensures Entries(timers, Later(nexts, k.1, now + events[k].interval)) == Fire(Entries(timers, nexts), k.1, now, true)
  {}

  lemma EventsExist(timers: map<U32, Timer>, events: map<Key, Timer>, nexts: map<U32, int>)
    requires Agree(timers, events, nexts) && timers != map[]
    ensures events != map[]
  {
    var id :| id in timers;
    assert (nexts[id], id) in events;
  }

  lemma FirstIsFirst(timers: map<U32, Timer>, events: map<Key, Timer>, nexts: map<U32, int>, k: Key, now: int)
    requires Agree(timers, events, nexts) && k in events && forall j <- events :: Before(k, j)
    ensures if k.0 <= now then k.1 != 0 && FirstDue(Entries(timers, nexts), k.1, now) else NoneDueIn(Entries(timers, nexts), now)
  {
    forall id | id in timers
      ensures Before(k, (nexts[id], id))
    {
      assert (nexts[id], id) in events;
    }
  }

  class TimerQueue {
    var lastId: U32
    var timers: map<U32, Timer>
    var events: map<Key, Timer>

    constructor ()
      ensures Valid() && State() == map[] && lastId == 0
    {
      lastId, timers, events := 0, map[], map[];
    }

    /** Both indexes describe the same timers; ids are positive. */
    ghost predicate Valid()
      reads this, timers.Values
    {
      Agree(timers, events, Nexts(timers))
    }

    ghost function State(): Pending
      reads this`timers, timers.Values
    {
      Entries(timers, Nexts(timers))
    }

    /** Moves a timer's time. No other timer is the same object. */
    method SetNext(id: U32, next: int)
      requires id in timers && forall i <- timers :: i != id ==> timers[i] != timers[id]
      modifies timers.Values
      ensures Nexts(timers) == Later(old(Nexts(timers)), id, next)
    {
      timers[id].next := next;
    }

    /** Enters a timer into both indexes; an id or key that is taken keeps its timer. */
    method Emplace(id: U32, timer: Timer)
      modifies this`timers, this`events
      ensures timers == if id in old(timers) then old(timers) else old(timers)[id := timer]
      ensures events == if (timer.next, id) in old(events) then old(events) else old(events)[(timer.next, id) := timer]
    {
      if id !in timers {
        timers := timers[id := timer];
      }
      if (timer.next, id) !in events {
        events := events[(timer.next, id) := timer];
      }
    }

    /** Ids are given out in order and start over after the last. If the next one is free and not zero, the new timer is
        the only change; the indexes agree afterwards in that case, and when the id is taken by a timer due at the same
        time. */
    method AddTimer(now: int, interval: U32) returns (id: U32)
      requires Valid()
      modifies this
      ensures id == lastId == (old(lastId) + 1) % 0x1_0000_0000
      ensures State() == if id in old(State()) then old(State()) else old(State())[id := Entry(now + interval, interval)]
      ensures Valid() <==> if id in old(State()) then old(State())[id].next == now + interval else id != 0
      ensures fresh(timers.Values - old(timers.Values))
    {
      hide Agree, Entries, Nexts;
      ghost var nexts := Nexts(timers);
      lastId := (lastId + 1) % 0x1_0000_0000;
      id := lastId;
      var timer := new Timer(interval, now + interval);
      if id in timers {
        Refused(timers, events, nexts, id, timer, now + interval);
      } else {
        Added(timers, events, nexts, id, timer, now + interval);
        AddedEntry(timers, nexts, id, timer, now + interval);
        NextsWith(timers, id, timer);
      }
      Emplace(id, timer);
    }

    method RemoveTimer(id: U32)
      requires Valid()
      modifies this`timers, this`events
      ensures Valid() && State() == old(State()) - {id}
      ensures timers.Values <= old(timers.Values)
    {
      hide Agree, Entries;
      if id in timers {
        NextsWithout(timers, id);
        Removed(timers, events, Nexts(timers), id);
        var timer := timers[id];
        events := events - {(timer.next, id)};
        timers := timers - {id};
      } else {
        NothingRemoved(timers, Nexts(timers), id);
      }
    }

    method Begin() returns (k: Key)
      requires events != map[]
      ensures k in events && forall j <- events :: Before(k, j)
    {
      ghost var least := LeastExists(events.Keys);
      k :| k in events && forall j <- events :: Before(k, j);
    }

    /** Moves an event to a later time. */
    method Refile(k: Key, next: int)
      requires k in events
      modifies this`events
      ensures events == Refiled(old(events), k, next)
    {
      var timer := events[k];
      events := events - {k};
      events := events[(next, k.1) := timer];
    }

    method Reschedule(k: Key, now: int)
      requires Valid() && k in events
      modifies this`events, timers.Values
      ensures Valid() && timers == old(timers)
      ensures State() == Fire(old(State()), k.1, now, true)
    {
      hide Agree, Entries, Fire, Nexts, Later, Refiled;
      KeyIsNext(timers, events, Nexts(timers), k);
      Moved(timers, events, Nexts(timers), k, now);
      MovedEntry(timers, events, Nexts(timers), k, now);
      var timer := events[k];
      SetNext(k.1, now + timer.interval);
      Refile(k, now + timer.interval);
    }

    method Drop(k: Key, now: int)
      requires Valid() && k in events
      modifies this`events, this`timers
      ensures Valid() && timers.Values <= old(timers.Values)
      ensures State() == Fire(old(State()), k.1, now, false)
    {
      hide Agree, Entries, Nexts, Fire;
      Dropped(timers, events, Nexts(timers), k, now);
      NextsWithout(timers, k.1);
      events := events - {k};
      timers := timers - {k.1};
    }

    /** What happens to the first event, depending on its callback's answer. */
    method FireFirst(k: Key, now: int, again: bool)
      requires Valid() && k in events
      modifies this`events, this`timers, timers.Values
      ensures Valid() && timers.Values <= old(timers.Values)
      ensures k.1 in old(State()) && State() == Fire(old(State()), k.1, now, again)
    {
      Dropped(timers, events, Nexts(timers), k, now);
      hide Valid, State, Fire, Agree, Entries, Nexts;
      if again {
        Reschedule(k, now);
      } else {
        Drop(k, now);
      }
    }

    /** The loop's test: is there a timer, and is the one that expires first due? The test that its id is
        not zero, inside the loop, never fails. */
    method FirstExpired(now: int) returns (due: bool, k: Key)
      requires Valid()
      ensures due ==> k in events && k.1 != 0 && FirstDue(State(), k.1, now)
      ensures !due ==> NoneDueIn(State(), now)
    {
      due, k := false, (0, 0);
      if timers == map[] {
        return;
      }
      EventsExist(timers, events, Nexts(timers));
      k := Begin();
      due := k.0 <= now;
      FirstIsFirst(timers, events, Nexts(timers), k, now);
    }

    /** Fires everything that is due. The loop reschedules and removes timers while it goes on; the
        states it passes through are a run, and it ends for every start that settles. */
    method HandleTimerEvent(now: int, answer: (nat, U32) -> bool) returns (log: seq<U32>, ghost ps: seq<Pending>)
      requires Valid() && Settles(State(), now, answer)
      modifies this`events, this`timers, timers.Values
      ensures Valid() && lastId == old(lastId)
      ensures Handled(old(State()), State(), log, now, answer) && NoneDueIn(State(), now)
      ensures forall id <- State() :: State()[id].next > now
      ensures |ps| == |log| + 1 && LoopRun(ps, log, now, answer) && ps[0] == old(State()) && ps[|log|] == State()
    {
      hide Going, Fire, Handled, FirstDue, Valid, State, LoopRun, NoneDueIn, Settles;
      ghost var p := State();
      ghost var full := GoingStarts(p, now, answer);
      log, ps := [], [p];
      var due, k := FirstExpired(now);
      while due
        invariant Valid() && timers.Values <= old(timers.Values)
        invariant Going(p, State(), ps, log, full, now, answer)
        invariant due ==> k in events && k.1 != 0 && FirstDue(State(), k.1, now)
        invariant !due ==> NoneDueIn(State(), now)
        decreases DueSet(State(), now)
      {
        GoingOn(p, State(), ps, log, full, k.1, now, answer);
        FireFirst(k, now, answer(|log|, k.1));
        ps, log := ps + [State()], log + [k.1];
        due, k := FirstExpired(now);
      }
      GoingEnds(p, State(), ps, log, full, now, answer);
      NoneIsDue(State(), now);
    }
  }
}
