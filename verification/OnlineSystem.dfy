/** The two halves of the online count joined: the message servers are their user indexes, what they send to the login
    server is what their handlers send, and the snapshot of a new link is what GetUserConnCnt returns. */
module OnlineSystem {
  import opened Wrappers
  import UserIndex
  import OnlineCount

  type Server = OnlineCount.Server
  type LinkId = OnlineCount.LinkId

  datatype System = System(
    servers: map<Server, UserIndex.Index>, links: map<LinkId, OnlineCount.Link>, counts: OnlineCount.Counts)

  /** A handler runs on one message server, or something happens to a link. */
  datatype Step = Handle(m: Server, e: UserIndex.Event) | OnLink(step: OnlineCount.Step)

  function AsMsg(a: UserIndex.Action): OnlineCount.Msg {
    match a case Inc => OnlineCount.Inc case Dec => OnlineCount.Dec
  }

  /** What send_to_all_login_server puts on the open links of m, update by update. */
  function SendEach(links: map<LinkId, OnlineCount.Link>, m: Server, sent: seq<UserIndex.Action>)
    : map<LinkId, OnlineCount.Link>
  {
    if sent == [] then links else SendEach(OnlineCount.SendAll(links, m, AsMsg(sent[0])), m, sent[1..])
  }

  ghost function OpenCount(s: UserIndex.Index): nat { |UserIndex.OpenConns(s)| }

  /** The counting protocol's view of the system: of each server only how many connections are open. */
  ghost function View(s: System): OnlineCount.Sys {
    OnlineCount.Sys(map m | m in s.servers :: OpenCount(s.servers[m]), s.links, s.counts)
  }

  /** Handlers run on live servers, whose connections are counted in 32 bits. Opening and closing connections is what
      handlers do, never a step of its own. */
  ghost predicate Enabled(s: System, ids: UserIndex.IdOf, e: Step) {
    match e
    case Handle(m, event) =>
      m in s.servers && UserIndex.MapsLive(s.servers[m]) && UserIndex.Possible(s.servers[m], event) &&
      OpenCount(UserIndex.Apply(s.servers[m], ids, event)) < OnlineCount.WRAP
    case OnLink(step) => !step.ConnOpens? && !step.ConnCloses? && OnlineCount.Enabled(View(s), step)
  }

  ghost function Apply(s: System, ids: UserIndex.IdOf, e: Step): System
    requires Enabled(s, ids, e)
  {
    match e
    case Handle(m, event) =>
      var t := UserIndex.Apply(s.servers[m], ids, event);
      var sent := if |s.servers[m].sent| <= |t.sent| then t.sent[|s.servers[m].sent|..] else [];
      s.(servers := s.servers[m := t], links := SendEach(s.links, m, sent))
    case OnLink(step) =>
      var t := OnlineCount.Apply(View(s), step);
      s.(links := t.links, counts := t.counts)
  }

  ghost predicate Inv(s: System, ids: UserIndex.IdOf) {
    (forall m :: m in s.servers ==> UserIndex.Agreed(s.servers[m], ids)) && OnlineCount.Inv(View(s))
  }

  /** A handler sends nothing, one increment or one decrement, as it opens nothing, opens a connection or closes one. */
  lemma HandlerSends(s: UserIndex.Index, ids: UserIndex.IdOf, e: UserIndex.Event)
    requires UserIndex.NonzeroIds(ids) && UserIndex.Agreed(s, ids) && UserIndex.Possible(s, e)
    ensures var t := UserIndex.Apply(s, ids, e);
            t.sent == s.sent || t.sent == s.sent + [UserIndex.Inc] || t.sent == s.sent + [UserIndex.Dec]
  {
    hide UserIndex.GoodUsers, UserIndex.GoodConn, UserIndex.HandlesDistinct, UserIndex.Accept, UserIndex.Close,
         UserIndex.Login;
    match e
    case Accepted(_, _) =>
    case LoginRequest(c, name, _) =>
      UserIndex.LoginSent(s, c, name);
      UserIndex.CloseInv(s, ids, c);
    case Closed(c) =>
      UserIndex.CloseInv(s, ids, c);
    case ValidateResponse(name, handle, ok) =>
      var w := UserIndex.Waiting(s, name, handle);
      if w.Some? {
        UserIndex.AcceptInv(s, ids, s.byName[name], w.value, ids(name));
        UserIndex.CloseInv(s, ids, w.value);
      }
  }

  /** The step of the counting protocol a handler takes, if any. */
  lemma HandlerCounts(s: UserIndex.Index, ids: UserIndex.IdOf, e: UserIndex.Event)
    requires UserIndex.NonzeroIds(ids) && UserIndex.Agreed(s, ids) && UserIndex.Possible(s, e)
    ensures var t := UserIndex.Apply(s, ids, e);
            UserIndex.Agreed(t, ids) &&
            ((t.sent == s.sent && OpenCount(t) == OpenCount(s)) ||
             (t.sent == s.sent + [UserIndex.Inc] && OpenCount(t) == OpenCount(s) + 1) ||
             (t.sent == s.sent + [UserIndex.Dec] && OpenCount(t) == OpenCount(s) - 1))
  {
    hide UserIndex.Apply, UserIndex.GoodUsers, UserIndex.GoodConn, UserIndex.HandlesDistinct;
    HandlerSends(s, ids, e);
    UserIndex.ApplyAgreed(s, ids, e);
    UserIndex.NetOf(s.sent, UserIndex.Inc);
    UserIndex.NetOf(s.sent, UserIndex.Dec);
  }

  lemma SendOne(links: map<LinkId, OnlineCount.Link>, m: Server, a: UserIndex.Action)
    ensures SendEach(links, m, [a]) == OnlineCount.SendAll(links, m, AsMsg(a))
    ensures SendEach(links, m, []) == links
  {
    assert [a][1..] == [];
  }

  lemma HandleInv(s: System, ids: UserIndex.IdOf, m: Server, event: UserIndex.Event)
    requires UserIndex.NonzeroIds(ids) && Inv(s, ids) && Enabled(s, ids, Handle(m, event))
    ensures Inv(Apply(s, ids, Handle(m, event)), ids)
  {
    hide UserIndex.Apply, UserIndex.Agreed, UserIndex.Possible, OnlineCount.Inv, OpenCount, OnlineCount.SendAll, SendEach;
    var i := s.servers[m];
    var t := UserIndex.Apply(i, ids, event);
    HandlerCounts(i, ids, event);
    var u := Apply(s, ids, Handle(m, event));
    if t.sent == i.sent {
      assert t.sent[|i.sent|..] == [];
      SendOne(s.links, m, UserIndex.Inc);
      assert View(u) == View(s);
    } else {
      var a, step := t.sent[|i.sent|], if t.sent == i.sent + [UserIndex.Inc] then OnlineCount.ConnOpens(m)
                                      else OnlineCount.ConnCloses(m);
      assert t.sent[|i.sent|..] == [a];
      SendOne(s.links, m, a);
      assert View(u).open == OnlineCount.Apply(View(s), step).open;
      OnlineCount.ApplyInv(View(s), step);
    }
  }

  lemma LinkInv(s: System, ids: UserIndex.IdOf, step: OnlineCount.Step)
    requires Inv(s, ids) && Enabled(s, ids, OnLink(step))
    ensures Inv(Apply(s, ids, OnLink(step)), ids)
  {
    hide OnlineCount.Inv, UserIndex.Agreed, OpenCount;
    var u := Apply(s, ids, OnLink(step));
    OnlineCount.ApplyInv(View(s), step);
    assert View(u) == OnlineCount.Apply(View(s), step);
  }

  // ---- Runs ----

  /** Servers without connections, no link. */
  ghost predicate Start(s: System) {
    s.links == map[] && s.counts == OnlineCount.Counts(map[], 0) &&
    forall m :: m in s.servers ==> s.servers[m] == UserIndex.EMPTY
  }

  ghost predicate Next(s: System, ids: UserIndex.IdOf, e: Step, t: System) { Enabled(s, ids, e) && t == Apply(s, ids, e) }

  ghost predicate Reached(s: System, ids: UserIndex.IdOf, steps: seq<Step>)
    decreases |steps|
  {
    if steps == [] then Start(s)
    else
      var before, last := steps[..|steps| - 1], steps[|steps| - 1];
      exists t :: Reached(t, ids, before) && Next(t, ids, last, s)
  }

  lemma StartInv(s: System, ids: UserIndex.IdOf)
    requires Start(s)
    ensures Inv(s, ids)
  {
    assert OnlineCount.TotalIsSum(s.counts);
    assert UserIndex.OpenConns(UserIndex.EMPTY) == {};
  }

  lemma {:induction false} ReachedInv(s: System, ids: UserIndex.IdOf, steps: seq<Step>)
    requires UserIndex.NonzeroIds(ids) && Reached(s, ids, steps)
    ensures Inv(s, ids)
    decreases |steps|
  {
    if steps == [] {
      StartInv(s, ids);
    } else {
      var t :| Reached(t, ids, steps[..|steps| - 1]) && Next(t, ids, steps[|steps| - 1], s);
      ReachedInv(t, ids, steps[..|steps| - 1]);
      hide Inv, Apply, UserIndex.Apply;
      match steps[|steps| - 1] {
        case Handle(m, event) => HandleInv(t, ids, m, event);
        case OnLink(step) => LinkInv(t, ids, step);
      }
    }
  }

  /** Over every run of logins, answers, closes, links coming and going and messages in flight: on a live link the
      login server's count and the updates in flight add up to the connections open in the message server's own index,
      no delivery wraps, and the total is the sum over the servers. */
  lemma OnlineUsersCounted(s: System, ids: UserIndex.IdOf, steps: seq<Step>)
    requires UserIndex.NonzeroIds(ids) && Reached(s, ids, steps)
    ensures forall l :: l in s.links && s.links[l].msgUp && s.links[l].loginUp ==>
      var k := s.links[l];
      k.server in s.servers &&
      |UserIndex.OpenConns(s.servers[k.server])| ==
        OnlineCount.InFlight(k.queue) + if l in s.counts.info then s.counts.info[l].cur else 0
    ensures forall l :: l in s.links && s.links[l].loginUp && s.links[l].queue != [] ==>
      var m := s.links[l].queue[0];
      (m.Info? <==> l !in s.counts.info) && (m.Dec? ==> s.counts.info[l].cur > 0) &&
      (m.Inc? ==> s.counts.info[l].cur + 1 < OnlineCount.WRAP)
    ensures s.counts.total == OnlineCount.U32(OnlineCount.Sum(s.counts.info))
  {
    ReachedInv(s, ids, steps);
    hide UserIndex.Agreed, OnlineCount.Sum;
    OnlineCount.InvConserves(View(s));
  }
}
