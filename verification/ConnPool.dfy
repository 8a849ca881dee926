/** The connection pools (db_proxy_server/DBPool.cpp:321-390, CachePool.cpp:585-649): a monitor with a
    free list, a count and a condition variable. Each step is one stretch of code that runs with the
    lock held. Connections are named by the order in which they were created. */
module ConnPool {
  type Conn = nat
  type Caller = nat

  const MIN_CONN_CNT: nat := 2

  /** A caller inside the pool: blocked on the condition, woken but not yet back in the monitor, or
      the owner of a connection. */
  datatype Place = Waiting | Signalled | Holding(conn: Conn)

  /** Auxiliary record of where each created connection is; the code does not keep it. */
  datatype Where = InList | By(caller: Caller)

  datatype Pool = Pool(free: seq<Conn>, cur: nat, max: int, callers: map<Caller, Place>, ledger: seq<Where>)

  /** After a successful Init. */
  function Fresh(max: int): Pool { Pool([0, 1], MIN_CONN_CNT, max, map[], [InList, InList]) }

  datatype Action =
    | Get(caller: Caller, initOk: bool)       // a new call of GetDBConn enters the monitor
    | Wake(caller: Caller, initOk: bool)      // a signalled caller is back from Wait
    | Spurious(caller: Caller)                // Wait returns without a signal
    | Release(caller: Caller, woken: Caller)  // RelDBConn; the signal wakes `woken` if it is waiting

  /** Pop the front of the free list for a caller. */
  function Hand(p: Pool, t: Caller): Pool
    requires p.free != []
  {
    var c := p.free[0];
    p.(free := p.free[1..], callers := p.callers[t := Holding(c)],
       ledger := if c < |p.ledger| then p.ledger[c := By(t)] else p.ledger)
  }

  /** Push a connection back unless the scan of the free list finds it there already. */
  function PutBack(p: Pool, t: Caller, c: Conn): Pool {
    p.(callers := p.callers - {t}, free := if c in p.free then p.free else p.free + [c],
       ledger := if c < |p.ledger| then p.ledger[c := InList] else p.ledger)
  }

  /** The loop of GetDBConn, up to the next Wait or the return. */
  function Attempt(p: Pool, t: Caller, initOk: bool): Pool {
    if p.free == [] && p.cur >= p.max then p.(callers := p.callers[t := Waiting])
    else if p.free == [] && !initOk then p.(callers := p.callers - {t})
    else
      var q := if p.free == [] then p.(free := [|p.ledger|], cur := p.cur + 1, ledger := p.ledger + [InList]) else p;
      Hand(q, t)
  }

  /** Some caller is blocked in Wait. */
  ghost predicate SomeoneWaits(p: Pool) { exists t :: t in p.callers && p.callers[t] == Waiting }

  /** pthread_cond_signal wakes one of the waiting callers, if there is one. */
  ghost predicate MayWake(p: Pool, woken: Caller) {
    SomeoneWaits(p) ==> woken in p.callers && p.callers[woken] == Waiting
  }

  function Apply(p: Pool, a: Action): Pool {
    match a
    case Get(t, initOk) => if t in p.callers then p else Attempt(p, t, initOk)
    case Wake(t, initOk) => if t in p.callers && p.callers[t] == Signalled then Attempt(p, t, initOk) else p
    case Spurious(t) =>
      if t in p.callers && p.callers[t] == Waiting then p.(callers := p.callers[t := Signalled]) else p
    case Release(t, woken) =>
      if t in p.callers && p.callers[t].Holding? then
        var q := PutBack(p, t, p.callers[t].conn);
        if woken in q.callers && q.callers[woken] == Waiting then q.(callers := q.callers[woken := Signalled]) else q
      else p
  }

  /** A schedule in which every signal wakes a waiting caller when there is one. */
  ghost predicate Fair(p: Pool, a: Action) { a.Release? ==> a.caller != a.woken && MayWake(p, a.woken) }

  // ---- Ownership ----

  ghost predicate Distinct(free: seq<Conn>) { forall i, j :: 0 <= i < j < |free| ==> free[i] != free[j] }

  /** The ledger, the free list and the callers agree. */
  ghost predicate Agrees(p: Pool) {
    Distinct(p.free) &&
    (forall c :: c in p.free <==> 0 <= c < |p.ledger| && p.ledger[c] == InList) &&
    (forall c :: 0 <= c < |p.ledger| && p.ledger[c].By? ==>
       p.ledger[c].caller in p.callers && p.callers[p.ledger[c].caller] == Holding(c)) &&
    (forall t :: t in p.callers && p.callers[t].Holding? ==>
       p.callers[t].conn < |p.ledger| && p.ledger[p.callers[t].conn] == By(t))
  }

  predicate Counted(p: Pool) {
    p.cur == |p.ledger| <= if p.max > MIN_CONN_CNT then p.max else MIN_CONN_CNT
  }

  lemma HandAgrees(p: Pool, t: Caller)
    requires Agrees(p) && p.free != [] && (t in p.callers ==> !p.callers[t].Holding?)
    ensures Agrees(Hand(p, t))
  {
    var c, q := p.free[0], Hand(p, t);
    assert c in p.free;
    assert forall x :: x in p.free <==> x == c || x in q.free;
    assert c !in q.free;
  }

  lemma CreateAgrees(p: Pool)
    requires Agrees(p) && p.free == []
    ensures Agrees(p.(free := [|p.ledger|], cur := p.cur + 1, ledger := p.ledger + [InList]))
  {
  }

  lemma PutBackAgrees(p: Pool, t: Caller)
    requires Agrees(p) && t in p.callers && p.callers[t].Holding?
    ensures Agrees(PutBack(p, t, p.callers[t].conn))
  {
    var c, q := p.callers[t].conn, PutBack(p, t, p.callers[t].conn);
    assert c !in p.free;
    assert forall x :: x in q.free <==> x == c || x in p.free;
  }

  lemma ApplyAgrees(p: Pool, a: Action)
    requires Agrees(p) && Counted(p)
    ensures Agrees(Apply(p, a)) && Counted(Apply(p, a))
  {
    hide Hand, PutBack;
    match a
    case Get(t, initOk) =>
      if t !in p.callers {
        AttemptAgrees(p, t, initOk);
      }
    case Wake(t, initOk) =>
      if t in p.callers && p.callers[t] == Signalled {
        AttemptAgrees(p, t, initOk);
      }
    case Spurious(_) =>
    case Release(t, woken) =>
      if t in p.callers && p.callers[t].Holding? {
        PutBackAgrees(p, t);
        PutBackCounts(p, t, p.callers[t].conn);
      }
  }

  lemma AttemptAgrees(p: Pool, t: Caller, initOk: bool)
    requires Agrees(p) && Counted(p) && (t in p.callers ==> !p.callers[t].Holding?)
    ensures Agrees(Attempt(p, t, initOk)) && Counted(Attempt(p, t, initOk))
  {
    if p.free != [] {
      HandAgrees(p, t);
    } else if p.cur < p.max && initOk {
      CreateAgrees(p);
      HandAgrees(p.(free := [|p.ledger|], cur := p.cur + 1, ledger := p.ledger + [InList]), t);
    }
  }

  lemma PutBackCounts(p: Pool, t: Caller, c: Conn)
    requires Counted(p)
    ensures Counted(PutBack(p, t, c))
  {
  }

  // ---- Wake-ups ----

  function InFlight(p: Pool): set<Caller> { set t | t in p.callers && p.callers[t] == Signalled }

  /** While anyone is blocked unsignalled, there are at least as many wake-ups in flight as free
      connections; so no free connection is left beside a blocked caller. */
  ghost predicate NoLostWakeup(p: Pool) { SomeoneWaits(p) ==> |p.free| <= |InFlight(p)| }

  lemma AttemptInFlight(p: Pool, t: Caller, initOk: bool)
    ensures InFlight(Attempt(p, t, initOk)) == InFlight(p) - {t}
    ensures forall u :: u != t ==>
              (u in Attempt(p, t, initOk).callers <==> u in p.callers) &&
              (u in p.callers ==> Attempt(p, t, initOk).callers[u] == p.callers[u])
    ensures |Attempt(p, t, initOk).free| == if p.free == [] then 0 else |p.free| - 1
  {
  }

  /** A caller that enters or comes back takes a free connection if there is one. */
  lemma AttemptWakeup(p: Pool, t: Caller, initOk: bool)
    requires NoLostWakeup(p) && (t in p.callers ==> p.callers[t] == Signalled)
    ensures NoLostWakeup(Attempt(p, t, initOk))
  {
    hide Attempt;
    var q := Attempt(p, t, initOk);
    AttemptInFlight(p, t, initOk);
    if t !in p.callers {
      assert InFlight(p) - {t} == InFlight(p);
    }
    if SomeoneWaits(q) && p.free != [] {
      var u :| u in q.callers && q.callers[u] == Waiting;
      if u == t {
        AttemptTakes(p, t, initOk);
      }
      assert SomeoneWaits(p);
    }
  }

  lemma AttemptTakes(p: Pool, t: Caller, initOk: bool)
    requires p.free != []
    ensures t in Attempt(p, t, initOk).callers && Attempt(p, t, initOk).callers[t].Holding?
  {
  }

  lemma ReleaseWakeup(p: Pool, t: Caller, woken: Caller)
    requires NoLostWakeup(p) && t in p.callers && p.callers[t].Holding? && t != woken && MayWake(p, woken)
    ensures NoLostWakeup(Apply(p, Release(t, woken)))
  {
    var q := Apply(p, Release(t, woken));
    if woken in p.callers && p.callers[woken] == Waiting {
      assert InFlight(q) == InFlight(p) + {woken};
    } else {
      assert !SomeoneWaits(p);
      assert forall u :: u in q.callers ==> u in p.callers && q.callers[u] == p.callers[u];
    }
  }

  lemma SpuriousWakeup(p: Pool, t: Caller)
    requires NoLostWakeup(p) && t in p.callers && p.callers[t] == Waiting
    ensures NoLostWakeup(p.(callers := p.callers[t := Signalled]))
  {
    assert SomeoneWaits(p);
    assert InFlight(p.(callers := p.callers[t := Signalled])) == InFlight(p) + {t};
  }

  lemma ApplyWakeup(p: Pool, a: Action)
    requires NoLostWakeup(p) && Fair(p, a)
    ensures NoLostWakeup(Apply(p, a))
  {
    hide Attempt, NoLostWakeup, PutBack;
    match a
    case Get(t, initOk) =>
      if t !in p.callers {
        AttemptWakeup(p, t, initOk);
      }
    case Wake(t, initOk) =>
      if t in p.callers && p.callers[t] == Signalled {
        AttemptWakeup(p, t, initOk);
      }
    case Spurious(t) =>
      if t in p.callers && p.callers[t] == Waiting {
        SpuriousWakeup(p, t);
      }
    case Release(t, woken) =>
      if t in p.callers && p.callers[t].Holding? {
        ReleaseWakeup(p, t, woken);
      }
  }

  // ---- No caller waits while there is room ----

  /** While anyone is blocked unsignalled, no further connection may be created. */
  ghost predicate WaitersFull(p: Pool) { p.cur >= MIN_CONN_CNT && (SomeoneWaits(p) ==> p.cur >= p.max) }

  lemma AttemptFull(p: Pool, t: Caller, initOk: bool)
    requires WaitersFull(p)
    ensures WaitersFull(Attempt(p, t, initOk))
  {
    var q := Attempt(p, t, initOk);
    if SomeoneWaits(q) {
      var u :| u in q.callers && q.callers[u] == Waiting;
      assert u != t ==> u in p.callers && p.callers[u] == Waiting;
    }
  }

  lemma ApplyFull(p: Pool, a: Action)
    requires WaitersFull(p)
    ensures WaitersFull(Apply(p, a))
  {
    var q := Apply(p, a);
    match a
    case Get(t, initOk) => AttemptFull(p, t, initOk);
    case Wake(t, initOk) => AttemptFull(p, t, initOk);
    case _ =>
      if SomeoneWaits(q) {
        var u :| u in q.callers && q.callers[u] == Waiting;
        assert u in p.callers && p.callers[u] == Waiting;
      }
  }

  // ---- Every run ----

  function Run(p: Pool, actions: seq<Action>): Pool {
    if actions == [] then p else Apply(Run(p, actions[..|actions| - 1]), actions[|actions| - 1])
  }

  ghost predicate FairRun(p: Pool, actions: seq<Action>) {
    actions == [] ||
    (FairRun(p, actions[..|actions| - 1]) && Fair(Run(p, actions[..|actions| - 1]), actions[|actions| - 1]))
  }

  /** The owner of a held connection is unique, and a held connection is not free. */
  ghost predicate Exclusive(p: Pool) {
    Distinct(p.free) &&
    (forall c :: 0 <= c < |p.ledger| ==>
       (c in p.free && forall t :: t in p.callers ==> p.callers[t] != Holding(c)) ||
       (c !in p.free && exists t :: t in p.callers && p.callers[t] == Holding(c))) &&
    (forall t, u :: t in p.callers && u in p.callers && p.callers[t].Holding? && p.callers[t] == p.callers[u] ==> t == u)
  }

  lemma AgreesExclusive(p: Pool)
    requires Agrees(p)
    ensures Exclusive(p)
  {
    forall c | 0 <= c < |p.ledger| && p.ledger[c].By?
      ensures c !in p.free && exists t :: t in p.callers && p.callers[t] == Holding(c)
    {
      assert p.callers[p.ledger[c].caller] == Holding(c);
    }
  }

  /** Pool safety over every schedule: exclusive ownership, the bound on the count, no lost wake-up, and a caller is
      blocked only while the count has reached its bound. */
  lemma {:induction false} PoolSafety(max: int, actions: seq<Action>)
    requires FairRun(Fresh(max), actions)
    ensures var p := Run(Fresh(max), actions);
            Agrees(p) && Exclusive(p) && NoLostWakeup(p) && p.max == max &&
            p.cur == |p.ledger| <= (if max > MIN_CONN_CNT then max else MIN_CONN_CNT) &&
            (SomeoneWaits(p) ==> p.cur == if max > MIN_CONN_CNT then max else MIN_CONN_CNT)
  {
    hide Apply, Exclusive;
    PoolKeeps(max, actions);
    AgreesExclusive(Run(Fresh(max), actions));
  }

  lemma KeepsMax(p: Pool, a: Action)
    ensures Apply(p, a).max == p.max
  {
  }

  lemma FreshGood(max: int)
    ensures Agrees(Fresh(max)) && NoLostWakeup(Fresh(max))
  {
  }

  lemma {:induction false} PoolKeeps(max: int, actions: seq<Action>)
    requires FairRun(Fresh(max), actions)
    ensures var p := Run(Fresh(max), actions);
            Agrees(p) && Counted(p) && NoLostWakeup(p) && WaitersFull(p) && p.max == max
  {
    hide Apply, Fair, Agrees, NoLostWakeup;
    FreshGood(max);
    if actions != [] {
      var before, a := actions[..|actions| - 1], actions[|actions| - 1];
      PoolKeeps(max, before);
      var p := Run(Fresh(max), before);
      ApplyAgrees(p, a);
      ApplyWakeup(p, a);
      ApplyFull(p, a);
      KeepsMax(p, a);
    }
  }

  // ---- The pool object ----

  datatype Got = Blocked | InitFailed | Got(conn: Conn)

  /** CDBPool and CachePool. Callers and ledger are not kept by the code. */
  class ConnectionPool {
    var free: seq<Conn>
    var cur: nat
    const max: int
    ghost var callers: map<Caller, Place>
    ghost var ledger: seq<Where>

    ghost function View(): Pool
      reads this
    {
      Pool(free, cur, max, callers, ledger)
    }

    /** The constructor and a successful Init. */
    constructor (limit: int)
      ensures View() == Fresh(limit)
    {
      max, cur, free := limit, MIN_CONN_CNT, [];
      callers, ledger := map[], [];
      new;
      for i := 0 to cur
        invariant cur == MIN_CONN_CNT && callers == map[]
        invariant |free| == |ledger| == i && forall k :: 0 <= k < i ==> free[k] == k && ledger[k] == InList
      {
        free := free + [i];
        ledger := ledger + [InList];
      }
      assert free == [0, 1] && ledger == [InList, InList];
    }

    /** GetDBConn from entering the monitor, or from coming back out of Wait, to the next Wait or the return. */
    method GetConn(t: Caller, initOk: bool) returns (r: Got)
      requires Counted(View())
      modifies this
      ensures View() == Attempt(old(View()), t, initOk)
      ensures match r
              case Got(c) => t in callers && callers[t] == Holding(c)
              case Blocked => t in callers && callers[t] == Waiting
              case InitFailed => t !in callers
      ensures r == Blocked <==> old(free) == [] && old(cur) >= max
      ensures r == InitFailed <==> old(free) == [] && old(cur) < max && !initOk
      ensures r.Got? && old(free) != [] ==> r.conn == old(free)[0] && free == old(free)[1..] && cur == old(cur)
      ensures r.Got? && old(free) == [] ==> r.conn == old(|ledger|) && free == [] && cur == old(cur) + 1
      ensures !r.Got? ==> free == [] && cur == old(cur)
    {
      while free == []
        invariant View() == old(View()) || (free == [|old(ledger)|] && old(free) == [] && old(cur) < max && initOk &&
          View() == old(View()).(free := free, cur := old(cur) + 1, ledger := old(ledger) + [InList]))
        decreases |free| == 0
      {
        if cur >= max {
          callers := callers[t := Waiting];
          return Blocked;
        }
        if !initOk {
          callers := callers - {t};
          return InitFailed;
        }
        free := free + [cur];
        cur := cur + 1;
        ledger := ledger + [InList];
      }
      var c := free[0];
      free := free[1..];
      callers := callers[t := Holding(c)];
      ledger := if c < |ledger| then ledger[c := By(t)] else ledger;
      return Got(c);
    }

    /** RelDBConn: scan, push back if not found, signal. */
    method ReleaseConn(t: Caller, woken: Caller, c: Conn)
      requires t in callers && callers[t] == Holding(c)
      modifies this
      ensures View() == Apply(old(View()), Release(t, woken))
      ensures t !in callers && cur == old(cur) && free == if c in old(free) then old(free) else old(free) + [c]
      ensures t != woken && woken in old(callers) && old(callers)[woken] == Waiting ==> callers[woken] == Signalled
    {
      var i := 0;
      while i < |free| && free[i] != c
        invariant i <= |free| && c !in free[..i]
      {
        i := i + 1;
      }
      assert i < |free| ==> c in free;
      assert free[..|free|] == free;
      if i == |free| {
        free := free + [c];
      }
      callers := callers - {t};
      ledger := if c < |ledger| then ledger[c := InList] else ledger;
      if woken in callers && callers[woken] == Waiting {
        callers := callers[woken := Signalled];
      }
    }
  }
}
