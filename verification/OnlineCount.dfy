/** The online-count protocol: message servers report their open connections to a login server over FIFO links
    (msg_server/MsgConn.cpp:121-173, msg_server/LoginServConn.cpp:77-148, login_server/LoginConn.cpp:53-249).
    A link is one TCP connection; its two ends close independently. */
module OnlineCount {
  import opened Wrappers

  type Server = nat
  type LinkId = nat

  const WRAP := 0x1_0000_0000

  /** msg_serv_info_t: the counts are uint32_t. */
  datatype ServInfo = ServInfo(max: nat, cur: nat)

  datatype Msg = Info(max: nat, cur: nat) | Inc | Dec

  /** uint32_t arithmetic. */
  function U32(x: int): (r: nat)
    ensures r < WRAP
  {
    x % WRAP
  }

  // ---- The login server ----

  /** g_msg_serv_info and g_total_online_user_cnt. */
  datatype Counts = Counts(info: map<LinkId, ServInfo>, total: nat)

  /** _HandleMsgServInfo: `insert` keeps an entry that is already there. */
  function OnInfo(c: Counts, l: LinkId, max: nat, cur: nat): Counts {
    c.(info := if l in c.info then c.info else c.info[l := ServInfo(max, cur)], total := U32(c.total + cur))
  }

  /** _HandleUserCntUpdate. */
  function OnUpdate(c: Counts, l: LinkId, up: bool): Counts {
    if l !in c.info then c
    else
      var d := if up then 1 else -1;
      c.(info := c.info[l := c.info[l].(cur := U32(c.info[l].cur + d))], total := U32(c.total + d))
  }

  /** CLoginConn::Close for a message server. */
  function OnClose(c: Counts, l: LinkId): Counts {
    if l !in c.info then c
    else c.(info := c.info - {l}, total := U32(c.total - c.info[l].cur))
  }

  function OnMsg(c: Counts, l: LinkId, m: Msg): Counts {
    match m
    case Info(max, cur) => OnInfo(c, l, max, cur)
    case Inc => OnUpdate(c, l, true)
    case Dec => OnUpdate(c, l, false)
  }

  class LoginServer {
    var info: map<LinkId, ServInfo>
    var total: nat

    ghost function View(): Counts
      reads this
    {
      Counts(info, total)
    }

    constructor ()
      ensures View() == Counts(map[], 0)
    {
      info, total := map[], 0;
    }

    method HandleMsgServInfo(l: LinkId, max: nat, cur: nat)
      modifies this
      ensures View() == OnInfo(old(View()), l, max, cur)
    {
      if l !in info {
        info := info[l := ServInfo(max, cur)];
      }
      total := U32(total + cur);
    }

    method HandleUserCntUpdate(l: LinkId, up: bool)
      modifies this
      ensures View() == OnUpdate(old(View()), l, up)
    {
      if l in info {
        var k := info[l];
        if up {
          info := info[l := k.(cur := U32(k.cur + 1))];
          total := U32(total + 1);
        } else {
          info := info[l := k.(cur := U32(k.cur - 1))];
          total := U32(total - 1);
        }
      }
    }

    method Close(l: LinkId)
      modifies this
      ensures View() == OnClose(old(View()), l)
    {
      if l in info {
        total := U32(total - info[l].cur);
        info := info - {l};
      }
    }

    /** _HandleMsgServRequest: a client is sent to the least loaded server that has room, if there is one. */
    method HandleMsgServRequest() returns (best: Option<LinkId>)
      ensures best.Some? ==> best.value in info && info[best.value].cur < info[best.value].max
      ensures best.Some? ==>
        forall l :: l in info && info[l].cur < info[l].max ==> info[best.value].cur <= info[l].cur
      ensures best.None? ==> forall l :: l in info ==> info[l].cur >= info[l].max || info[l].cur >= WRAP - 1
    {
      var least := WRAP - 1;
      var rest := info.Keys;
      best := None;
      while rest != {}
        invariant rest <= info.Keys
        invariant best.Some? ==>
          best.value in info && info[best.value].cur < info[best.value].max && least == info[best.value].cur < WRAP - 1
        invariant best.None? ==> least == WRAP - 1
        invariant forall l :: l in info && l !in rest && info[l].cur < info[l].max ==> least <= info[l].cur
        decreases |rest|
      {
        var l :| l in rest;
        if info[l].cur < info[l].max && info[l].cur < least {
          best := Some(l);
          least := info[l].cur;
        }
        rest := rest - {l};
      }
    }
  }

  // ---- The sum over servers ----

  ghost function Sum(info: map<LinkId, ServInfo>): nat
    decreases |info|
  {
    if info == map[] then 0 else var l :| l in info; info[l].cur + Sum(info - {l})
  }

  lemma {:induction false} SumWithout(info: map<LinkId, ServInfo>, l: LinkId)
    requires l in info
    ensures Sum(info) == info[l].cur + Sum(info - {l})
    decreases |info|
  {
    var k :| k in info && Sum(info) == info[k].cur + Sum(info - {k});
    if k != l {
      SumWithout(info - {k}, l);
      SumWithout(info - {l}, k);
      assert info - {k} - {l} == info - {l} - {k};
    }
  }

  lemma SumWith(info: map<LinkId, ServInfo>, l: LinkId, k: ServInfo)
    ensures Sum(info[l := k]) == k.cur + Sum(info - {l})
  {
    SumWithout(info[l := k], l);
    assert info[l := k] - {l} == info - {l};
  }

  ghost predicate TotalIsSum(c: Counts) { c.total == U32(Sum(c.info)) }

  lemma U32Add(a: int, d: int)
    ensures U32(U32(a) + d) == U32(a + d)
  {}

  lemma U32Small(n: int)
    requires 0 <= n < WRAP
    ensures U32(n) == n
  {}

  /** Every message but a second Info on one link keeps the total equal to the sum. */
  lemma OnMsgTotal(c: Counts, l: LinkId, m: Msg)
    requires TotalIsSum(c) && (m.Info? ==> l !in c.info)
    requires m.Dec? && l in c.info ==> 0 < c.info[l].cur < WRAP
    requires m.Inc? && l in c.info ==> c.info[l].cur + 1 < WRAP
    ensures TotalIsSum(OnMsg(c, l, m))
  {
    hide U32, Sum;
    if m.Info? {
      SumWith(c.info, l, ServInfo(m.max, m.cur));
      assert c.info - {l} == c.info;
      U32Add(Sum(c.info), m.cur);
    } else if l in c.info {
      SumWithout(c.info, l);
      var d: int := if m.Inc? then 1 else -1;
      var n := c.info[l].cur;
      U32Small(n + d);
      SumWith(c.info, l, c.info[l].(cur := n + d));
      U32Add(Sum(c.info), d);
    }
  }

  lemma OnCloseTotal(c: Counts, l: LinkId)
    requires TotalIsSum(c)
    ensures TotalIsSum(OnClose(c, l))
  {
    hide U32, Sum;
    if l in c.info {
      SumWithout(c.info, l);
      U32Add(Sum(c.info), 0 - c.info[l].cur);
    }
  }

  // ---- The protocol ----

  /** The messages in flight, and whether the message server still writes and the login server still reads. */
  datatype Link = Link(server: Server, max: nat, queue: seq<Msg>, msgUp: bool, loginUp: bool)

  datatype Sys = Sys(open: map<Server, nat>, links: map<LinkId, Link>, counts: Counts)

  datatype Step =
    | ConnOpens(m: Server)
    | ConnCloses(m: Server)
    | Confirm(l: LinkId, m: Server, max: nat)
    | Deliver(l: LinkId)
    | MsgSideCloses(l: LinkId)
    | Lose(l: LinkId, keep: nat)
    | LoginSideCloses(l: LinkId)

  /** Connections are counted in 32 bits; bytes are lost only once the writer has closed. */
  predicate Enabled(s: Sys, e: Step) {
    match e
    case ConnOpens(m) => m in s.open && s.open[m] + 1 < WRAP
    case ConnCloses(m) => m in s.open && s.open[m] > 0
    case Confirm(l, m, _) => l !in s.links && m in s.open
    case Deliver(l) => l in s.links && s.links[l].loginUp && s.links[l].queue != []
    case MsgSideCloses(l) => l in s.links
    case Lose(l, keep) => l in s.links && !s.links[l].msgUp && keep <= |s.links[l].queue|
    case LoginSideCloses(l) => l in s.links
  }

  /** send_to_all_login_server. */
  function Sent(k: Link, m: Server, msg: Msg): Link {
    if k.server == m && k.msgUp then k.(queue := k.queue + [msg]) else k
  }

  function SendAll(links: map<LinkId, Link>, m: Server, msg: Msg): map<LinkId, Link> {
    map l | l in links :: Sent(links[l], m, msg)
  }

  function Apply(s: Sys, e: Step): Sys
    requires Enabled(s, e)
  {
    match e
    case ConnOpens(m) => s.(open := s.open[m := s.open[m] + 1], links := SendAll(s.links, m, Inc))
    case ConnCloses(m) => s.(open := s.open[m := s.open[m] - 1], links := SendAll(s.links, m, Dec))
    case Confirm(l, m, max) => s.(links := s.links[l := Link(m, max, [Info(max, s.open[m])], true, true)])
    case Deliver(l) =>
      var k := s.links[l];
      s.(links := s.links[l := k.(queue := k.queue[1..])], counts := OnMsg(s.counts, l, k.queue[0]))
    case MsgSideCloses(l) => s.(links := s.links[l := s.links[l].(msgUp := false)])
    case Lose(l, keep) => s.(links := s.links[l := s.links[l].(queue := s.links[l].queue[..keep])])
    case LoginSideCloses(l) =>
      s.(links := s.links[l := s.links[l].(loginUp := false, queue := [])], counts := OnClose(s.counts, l))
  }

  // ---- What is in flight ----

  function Delta(m: Msg): int { match m case Info(_, n) => n case Inc => 1 case Dec => -1 }

  /** Increments minus decrements, the first snapshot included. */
  function InFlight(q: seq<Msg>): int
  {
    if q == [] then 0 else Delta(q[0]) + InFlight(q[1..])
  }

  /** Counting on from `v` the queued updates never leave 32 bits. */
  ghost predicate Sound(v: int, q: seq<Msg>)
    decreases |q|
  {
    0 <= v < WRAP && (q == [] || (!q[0].Info? && Sound(v + Delta(q[0]), q[1..])))
  }

  lemma {:induction false} SoundAppend(v: int, q: seq<Msg>, m: Msg)
    requires Sound(v, q) && !m.Info? && 0 <= v + InFlight(q) + Delta(m) < WRAP
    ensures Sound(v, q + [m])
    decreases |q|
  {
    if q != [] {
      SoundAppend(v + Delta(q[0]), q[1..], m);
      assert (q + [m])[1..] == q[1..] + [m];
    } else {
      assert (q + [m])[1..] == [];
    }
  }

  lemma {:induction false} SoundPrefix(v: int, q: seq<Msg>, keep: nat)
    requires Sound(v, q) && keep <= |q|
    ensures Sound(v, q[..keep])
    decreases |q|
  {
    if keep > 0 {
      SoundPrefix(v + Delta(q[0]), q[1..], keep - 1);
      assert q[..keep][1..] == q[1..][..keep - 1];
    }
  }

  lemma {:induction false} InFlightAppend(q: seq<Msg>, m: Msg)
    ensures InFlight(q + [m]) == InFlight(q) + Delta(m)
  {
    if q != [] {
      InFlightAppend(q[1..], m);
      assert (q + [m])[1..] == q[1..] + [m];
    } else {
      assert (q + [m])[1..] == [];
    }
  }

  // ---- The invariant ----

  /** What the login server has counted on a link. */
  function Counted(c: Counts, l: LinkId): Option<nat> {
    if l in c.info then Some(c.info[l].cur) else None
  }

  /** A link read by the login server: the snapshot comes first and once, and while the message server writes to it
      the count so far and the updates in flight add up to the open connections. */
  ghost predicate GoodLink(k: Link, open: int, counted: Option<nat>) {
    match counted
    case Some(v) => k.loginUp && Sound(v, k.queue) && (k.msgUp ==> v + InFlight(k.queue) == open)
    case None =>
      (k.loginUp && k.msgUp ==> k.queue != [] && InFlight(k.queue) == open) &&
      (k.loginUp && k.queue != [] ==> k.queue[0].Info? && Sound(k.queue[0].cur, k.queue[1..]))
  }

  /** The capacity a message server announced on a link: in its snapshot, and once that has arrived in the entry. */
  ghost predicate GoodMax(c: Counts, k: Link, l: LinkId) {
    (l in c.info ==> c.info[l].max == k.max) &&
    forall i :: 0 <= i < |k.queue| && k.queue[i].Info? ==> k.queue[i].max == k.max
  }

  ghost predicate Inv(s: Sys) {
    TotalIsSum(s.counts) &&
    (forall l :: l in s.links ==> GoodMax(s.counts, s.links[l], l)) &&
    (forall l :: l in s.counts.info ==> l in s.links) &&
    (forall m :: m in s.open ==> s.open[m] < WRAP) &&
    (forall l :: l in s.links ==>
       s.links[l].server in s.open && GoodLink(s.links[l], s.open[s.links[l].server], Counted(s.counts, l)))
  }

  lemma SentGood(k: Link, open: int, counted: Option<nat>, m: Server, msg: Msg)
    requires GoodLink(k, open, counted) && !msg.Info? && 0 <= open + Delta(msg) < WRAP
    ensures GoodLink(Sent(k, m, msg), if k.server == m then open + Delta(msg) else open, counted)
  {
    if k.server == m && k.msgUp {
      InFlightAppend(k.queue, msg);
      match counted
      case Some(v) => SoundAppend(v, k.queue, msg);
      case None =>
        if k.loginUp {
          SoundAppend(k.queue[0].cur, k.queue[1..], msg);
          assert (k.queue + [msg])[1..] == k.queue[1..] + [msg];
        }
    }
  }

  lemma LoseGood(k: Link, open: int, counted: Option<nat>, keep: nat)
    requires GoodLink(k, open, counted) && !k.msgUp && keep <= |k.queue|
    ensures GoodLink(k.(queue := k.queue[..keep]), open, counted)
  {
    match counted
    case Some(v) => SoundPrefix(v, k.queue, keep);
    case None =>
      if k.loginUp && keep > 0 {
        SoundPrefix(k.queue[0].cur, k.queue[1..], keep - 1);
        assert k.queue[..keep][1..] == k.queue[1..][..keep - 1];
      }
  }

  /** Delivery moves the head of the queue into the count: nothing wraps and nothing is lost. */
  lemma DeliverGood(c: Counts, k: Link, open: int, l: LinkId)
    requires GoodLink(k, open, Counted(c, l)) && k.loginUp && k.queue != []
    ensures k.queue[0].Info? <==> l !in c.info
    ensures k.queue[0].Dec? ==> 0 < c.info[l].cur < WRAP
    ensures k.queue[0].Inc? ==> c.info[l].cur + 1 < WRAP
    ensures GoodLink(k.(queue := k.queue[1..]), open, Counted(OnMsg(c, l, k.queue[0]), l))
  {
    var q := k.queue;
    if l in c.info {
      var v := c.info[l].cur;
      assert Sound(v + Delta(q[0]), q[1..]);
      U32Small(v + Delta(q[0]));
    }
  }

  lemma OnMsgOthers(c: Counts, l: LinkId, m: Msg, j: LinkId)
    requires j != l
    ensures Counted(OnMsg(c, l, m), j) == Counted(c, j) && Counted(OnClose(c, l), j) == Counted(c, j)
  {}

  lemma SentMax(c: Counts, k: Link, l: LinkId, m: Server, msg: Msg)
    requires GoodMax(c, k, l) && !msg.Info?
    ensures GoodMax(c, Sent(k, m, msg), l)
  {
  }

  lemma DeliverMax(c: Counts, k: Link, l: LinkId)
    requires GoodMax(c, k, l) && k.queue != []
    ensures GoodMax(OnMsg(c, l, k.queue[0]), k.(queue := k.queue[1..]), l)
  {
  }

  lemma OtherMax(c: Counts, l: LinkId, m: Msg, k: Link, j: LinkId)
    requires j != l && GoodMax(c, k, j)
    ensures GoodMax(OnMsg(c, l, m), k, j) && GoodMax(OnClose(c, l), k, j)
  {
  }

  lemma SendInv(s: Sys, m: Server, msg: Msg, e: Step)
    requires Inv(s) && Enabled(s, e) && ((msg == Inc && e == ConnOpens(m)) || (msg == Dec && e == ConnCloses(m)))
    ensures Inv(Apply(s, e))
  {
    hide GoodLink, GoodMax, Sent;
    var t := Apply(s, e);
    forall l | l in t.links
      ensures GoodMax(t.counts, t.links[l], l) && t.links[l].server in t.open
      ensures GoodLink(t.links[l], t.open[t.links[l].server], Counted(t.counts, l))
    {
      var k := s.links[l];
      SentServer(k, m, msg);
      SentMax(s.counts, k, l, m, msg);
      if k.server == m {
        SentGood(k, s.open[m], Counted(s.counts, l), m, msg);
      } else {
        SentElse(k, m, msg);
      }
    }
  }

  lemma SentServer(k: Link, m: Server, msg: Msg)
    ensures Sent(k, m, msg).server == k.server
  {}

  lemma SentElse(k: Link, m: Server, msg: Msg)
    requires k.server != m
    ensures Sent(k, m, msg) == k
  {}

  lemma DeliverInv(s: Sys, l: LinkId)
    requires Inv(s) && Enabled(s, Deliver(l))
    ensures Inv(Apply(s, Deliver(l)))
  {
    hide GoodLink, GoodMax, TotalIsSum, OnMsg;
    var k := s.links[l];
    var c := s.counts;
    var t := Apply(s, Deliver(l));
    DeliverGood(c, k, s.open[k.server], l);
    OnMsgTotal(c, l, k.queue[0]);
    DeliverMax(c, k, l);
    forall j | j in t.links
      ensures GoodLink(t.links[j], t.open[t.links[j].server], Counted(t.counts, j)) && GoodMax(t.counts, t.links[j], j)
    {
      if j != l {
        OnMsgOthers(c, l, k.queue[0], j);
        OtherMax(c, l, k.queue[0], t.links[j], j);
      }
    }
    forall j | j in t.counts.info
      ensures j in t.links
    {
      if j != l {
        OnMsgOthers(c, l, k.queue[0], j);
      }
    }
  }

  lemma LoginClosesInv(s: Sys, l: LinkId)
    requires Inv(s) && Enabled(s, LoginSideCloses(l))
    ensures Inv(Apply(s, LoginSideCloses(l)))
  {
    hide TotalIsSum, Sound;
    OnCloseTotal(s.counts, l);
  }

  lemma ApplyInv(s: Sys, e: Step)
    requires Inv(s) && Enabled(s, e)
    ensures Inv(Apply(s, e))
  {
    hide Inv, Apply;
    match e
    case ConnOpens(m) => SendInv(s, m, Inc, e);
    case ConnCloses(m) => SendInv(s, m, Dec, e);
    case Deliver(l) => DeliverInv(s, l);
    case Lose(l, keep) => LoseInv(s, l, keep);
    case LoginSideCloses(l) => LoginClosesInv(s, l);
    case Confirm(l, m, max) => ConfirmInv(s, l, m, max);
    case MsgSideCloses(l) => MsgClosesInv(s, l);
  }

  lemma LoseInv(s: Sys, l: LinkId, keep: nat)
    requires Inv(s) && Enabled(s, Lose(l, keep))
    ensures Inv(Apply(s, Lose(l, keep)))
  {
    hide TotalIsSum, Sound;
    LoseGood(s.links[l], s.open[s.links[l].server], Counted(s.counts, l), keep);
  }

  lemma ConfirmInv(s: Sys, l: LinkId, m: Server, max: nat)
    requires Inv(s) && Enabled(s, Confirm(l, m, max))
    ensures Inv(Apply(s, Confirm(l, m, max)))
  {
    hide TotalIsSum, Sound;
    ConfirmGood(s.open[m], max, m);
  }

  lemma MsgClosesInv(s: Sys, l: LinkId)
    requires Inv(s) && Enabled(s, MsgSideCloses(l))
    ensures Inv(Apply(s, MsgSideCloses(l)))
  {
    hide TotalIsSum, Sound;
  }

  lemma ConfirmGood(open: nat, max: nat, m: Server)
    requires open < WRAP
    ensures GoodLink(Link(m, max, [Info(max, open)], true, true), open, None)
  {
    var q := [Info(max, open)];
    assert q[1..] == [];
    assert InFlight(q) == Delta(q[0]) + InFlight(q[1..]);
  }

  // ---- Runs ----

  /** Message servers with no connection, no link. */
  predicate Start(s: Sys) {
    s.links == map[] && s.counts == Counts(map[], 0) && forall m :: m in s.open ==> s.open[m] == 0
  }

  predicate Next(s: Sys, e: Step, t: Sys) { Enabled(s, e) && t == Apply(s, e) }

  ghost predicate Reached(s: Sys, steps: seq<Step>)
    decreases |steps|
  {
    if steps == [] then Start(s)
    else
      var before, last := steps[..|steps| - 1], steps[|steps| - 1];
      exists t :: Reached(t, before) && Next(t, last, s)
  }

  lemma {:induction false} ReachedInv(s: Sys, steps: seq<Step>)
    requires Reached(s, steps)
    ensures Inv(s)
    decreases |steps|
  {
    if steps == [] {
      assert TotalIsSum(s.counts);
    } else {
      var t :| Reached(t, steps[..|steps| - 1]) && Next(t, steps[|steps| - 1], s);
      ReachedInv(t, steps[..|steps| - 1]);
      ApplyInv(t, steps[|steps| - 1]);
    }
  }

  /** On a live link the count and the messages in flight add up to the open connections, no count wraps on the next
      delivery, and the total is the sum over the servers. */
  ghost predicate Conserved(s: Sys) {
    (forall l :: l in s.links && s.links[l].msgUp && s.links[l].loginUp ==>
       s.links[l].server in s.open &&
       s.open[s.links[l].server] ==
         InFlight(s.links[l].queue) + if l in s.counts.info then s.counts.info[l].cur else 0) &&
    (forall l :: l in s.links && s.links[l].loginUp && s.links[l].queue != [] ==>
       var m := s.links[l].queue[0];
       (m.Info? <==> l !in s.counts.info) && (m.Dec? ==> s.counts.info[l].cur > 0) &&
       (m.Inc? ==> s.counts.info[l].cur + 1 < WRAP)) &&
    (forall l :: l in s.counts.info ==> l in s.links && s.counts.info[l].max == s.links[l].max) &&
    s.counts.total == U32(Sum(s.counts.info))
  }

  lemma InvConserves(s: Sys)
    requires Inv(s)
    ensures Conserved(s)
  {
    forall l | l in s.links && s.links[l].loginUp && s.links[l].queue != []
      ensures s.links[l].queue[0].Info? <==> l !in s.counts.info
      ensures s.links[l].queue[0].Dec? ==> s.counts.info[l].cur > 0
      ensures s.links[l].queue[0].Inc? ==> s.counts.info[l].cur + 1 < WRAP
    {
      DeliverGood(s.counts, s.links[l], s.open[s.links[l].server], l);
    }
  }

  /** Over every run. */
  lemma CountConservation(s: Sys, steps: seq<Step>)
    requires Reached(s, steps)
    ensures Conserved(s)
  {
    ReachedInv(s, steps);
    InvConserves(s);
  }

  /** Once a live link has delivered everything, the login server's count is exact. */
  lemma Settled(s: Sys, steps: seq<Step>, l: LinkId)
    requires Reached(s, steps) && l in s.links && s.links[l].msgUp && s.links[l].loginUp && s.links[l].queue == []
    ensures l in s.counts.info && s.links[l].server in s.open && s.counts.info[l].cur == s.open[s.links[l].server]
  {
    ReachedInv(s, steps);
  }
}
