/** What becomes of a connection that has logged in and waits for the database's answer. Its user is found again by
    login name only, and a user is deleted as soon as it has no open connection left when one of its connections
    closes (msg_server/MsgConn.cpp:183-200, msg_server/DBServConn.cpp:317-330), so a positive answer can find
    nobody to open. */
module UserWaiters {
  import opened Wrappers
  import opened UserIndex

  /** The user found by name still waits for c. */
  ghost predicate Kept(s: Index, name: string, c: ConnRef) {
    name in s.byName && s.byName[name] in s.users && c in s.users[s.byName[name]].pending
  }

  /** The connection an event closes. */
  ghost function Closing(s: Index, e: Event): Option<ConnRef>
    requires MapsLive(s) && Possible(s, e)
  {
    match e
    case Accepted(_, _) => None
    case LoginRequest(d, _, available) => if s.conns[d].login == [] && !available then Some(d) else None
    case ValidateResponse(name, handle, ok) =>
      var w := Waiting(s, name, handle);
      if !ok && w.Some? && !s.conns[w.value].open then w else None
    case Closed(d) => Some(d)
  }

  /** d belongs to the user of a name, and that user has no open connection but d. */
  ghost predicate LastOf(s: Index, d: ConnRef, name: string)
    requires MapsLive(s) && d in s.conns
  {
    name in s.byName &&
    var r, k := s.byName[name], s.conns[d];
    (k.login == name || (k.open && k.user in s.byId && s.byId[k.user] == r)) &&
    forall h :: h in s.users[r].conns ==> s.users[r].conns[h] == d
  }

  /** A waiter of that name is validated into another user of the same id. */
  ghost predicate Merges(s: Index, ids: IdOf, e: Event, name: string)
    requires MapsLive(s)
  {
    e.ValidateResponse? && e.ok && e.name == name &&
    var w := Waiting(s, name, e.handle);
    w.Some? && !s.conns[w.value].open && ids(name) in s.byId && s.byId[ids(name)] != s.byName[name]
  }

  /** The events after which nobody waits for the connections of a name any more: a close, a refused login or a
      refused validation of the last connection of its user, or a merge. */
  ghost predicate Forgets(s: Index, ids: IdOf, e: Event, name: string)
    requires MapsLive(s) && Possible(s, e)
  {
    (Closing(s, e).Some? && Closing(s, e).value in s.conns && LastOf(s, Closing(s, e).value, name)) ||
    Merges(s, ids, e, name)
  }

  // ---- The elementary steps ----

  lemma RemoveKept(s: Index, ids: IdOf, r: UserRef, name: string, c: ConnRef)
    requires MapsLive(s) && r in s.users && GoodUser(s, ids, r)
    ensures Kept(RemoveUser(s, r), name, c) <==> Kept(s, name, c) && s.byName[name] != r
  {
  }

  lemma LeaveKept(s: Index, r: UserRef, d: ConnRef, name: string, c: ConnRef)
    requires r in s.users && d in s.conns && d != c
    ensures Kept(Leave(s, r, d), name, c) <==> Kept(s, name, c)
  {
  }

  lemma GainKept(s: Index, r: UserRef, d: ConnRef, id: nat, name: string, c: ConnRef)
    requires r in s.users && d in s.conns && d != c
    ensures Kept(Gain(s, r, d, id), name, c) <==> Kept(s, name, c)
    ensures c in s.conns ==> c in Gain(s, r, d, id).conns && Gain(s, r, d, id).conns[c] == s.conns[c]
  {
  }

  lemma LoginKept(s: Index, ids: IdOf, d: ConnRef, n: string, name: string, c: ConnRef)
    requires Inv(s, ids) && d in s.conns && d != c
    ensures Kept(Login(s, d, n), name, c) <==> Kept(s, name, c)
    ensures c in s.conns ==> c in Login(s, d, n).conns && Login(s, d, n).conns[c] == s.conns[c]
  {
    NextFree(s, ids);
    hide Inv;
  }

  lemma AcceptKept(s: Index, ids: IdOf, r: UserRef, d: ConnRef, id: nat, name: string, c: ConnRef)
    requires Inv(s, ids) && r in s.users && d in s.users[r].pending && id == ids(s.users[r].login) && id != 0
    requires c in s.conns && c != d
    ensures d in s.conns
    ensures var t := Accept(s, r, d, id);
            c in t.conns && t.conns[c] == s.conns[c] &&
            (Kept(t, name, c) <==> Kept(s, name, c) && !(id in s.byId && s.byId[id] != r && s.byName[name] == r))
  {
    WaitFacts(s, ids, r, d);
    IdFacts(s, ids, r, id);
    assert GoodUser(s, ids, r);
    hide GoodUser, GoodUsers, GoodConn, Accept, Kept, Gain, HandlesDistinct;
    if id in s.byId && s.byId[id] != r {
      AcceptMerge(s, r, d, id);
      RemoveKept(s, ids, r, name, c);
      GainKept(RemoveUser(s, r), s.byId[id], d, id, name, c);
      if Kept(s, name, c) {
        KeptNamed(s, name, c);
      }
    } else {
      AcceptSame(s, r, d, id);
      GainKept(s, r, d, id, name, c);
    }
  }

  lemma KeptNamed(s: Index, name: string, c: ConnRef)
    requires Kept(s, name, c)
    ensures name in s.byName
  {
  }

  // ---- Closing ----

  lemma LeaveByIdKept(s: Index, ids: IdOf, d: ConnRef, name: string, c: ConnRef)
    requires Inv(s, ids) && d in s.conns && d != c
    ensures var t, k := LeaveById(s, d), s.conns[d];
            var emptied := k.user in s.byId && name in s.byName && s.byId[k.user] == s.byName[name] &&
                           s.users[s.byName[name]].conns - {k.handle} == map[];
            (Kept(t, name, c) <==> Kept(s, name, c) && !emptied) &&
            (Kept(t, name, c) ==>
               t.byName[name] == s.byName[name] &&
               t.users[t.byName[name]].conns ==
                 if k.user in s.byId && s.byId[k.user] == s.byName[name]
                 then s.users[s.byName[name]].conns - {k.handle} else s.users[s.byName[name]].conns)
  {
    LeaveByIdForms(s, d);
    var k := s.conns[d];
    if k.user in s.byId {
      var r := s.byId[k.user];
      assert GoodUser(s, ids, r);
      hide GoodUser, GoodUsers, GoodConn, LeaveById, HandlesDistinct;
      RemoveKept(s, ids, r, name, c);
      LeaveKept(s, r, d, name, c);
    }
  }

  lemma LeaveByNameKept(s: Index, ids: IdOf, d: ConnRef, name: string, c: ConnRef)
    requires InvBut(s, ids, d) && Unheld(s, d) && d in s.conns && d != c
    ensures Kept(LeaveByName(s, d), name, c) <==>
              Kept(s, name, c) && !(s.conns[d].login == name && s.users[s.byName[name]].conns == map[])
  {
    LeaveByNameForms(s, ids, d);
    var k := s.conns[d];
    if k.login in s.byName {
      var r := s.byName[k.login];
      assert GoodUser(s, ids, r);
      hide GoodUser, GoodUsers, GoodConnsBut, LeaveByName, HandlesDistinct, Unheld;
      RemoveKept(s, ids, r, name, c);
      LeaveKept(s, r, d, name, c);
    }
  }

  /** Whether d is the last connection of a user, read off that user's map. */
  lemma LastIs(s: Index, ids: IdOf, d: ConnRef, name: string)
    requires Inv(s, ids) && d in s.conns && name in s.byName
    ensures var r, k := s.byName[name], s.conns[d];
            LastOf(s, d, name) <==>
              if k.user in s.byId && s.byId[k.user] == r then s.users[r].conns - {k.handle} == map[]
              else k.login == name && s.users[r].conns == map[]
  {
    var r, k := s.byName[name], s.conns[d];
    assert GoodUser(s, ids, r);
    assert GoodConn(s, d);
    var m := s.users[r].conns;
    if k.user in s.byId && s.byId[k.user] == r {
      assert k.open;
      if m - {k.handle} == map[] {
        forall h | h in m
          ensures m[h] == d
        {
          assert h !in m - {k.handle};
        }
      }
    } else {
      forall h | h in m
        ensures m[h] != d
      {
      }
      if m != map[] {
        var h :| h in m;
      }
    }
  }

  /** A close forgets the waiters of a name exactly when it takes the last connection of its user. */
  lemma CloseKept(s: Index, ids: IdOf, d: ConnRef, name: string, c: ConnRef)
    requires Inv(s, ids) && d in s.conns && d != c && c in s.conns
    ensures var t := Close(s, d);
            c in t.conns && t.conns[c] == s.conns[c] &&
            (Kept(t, name, c) <==> Kept(s, name, c) && !LastOf(s, d, name))
  {
    hide GoodUsers, GoodConn, GoodConnsBut, HandlesDistinct, Unheld, LeaveById, LeaveByName, Kept, LastOf;
    LeaveByIdInv(s, ids, d);
    LeaveByIdGone(s, ids, d);
    var t := LeaveById(s, d);
    LeaveByNameInv(t, ids, d);
    LeaveByIdKept(s, ids, d, name, c);
    LeaveByNameKept(t, ids, d, name, c);
    ConnsFree(LeaveByName(t, d), name, c, LeaveByName(t, d).conns - {d});
    if Kept(s, name, c) {
      KeptNamed(s, name, c);
      LastIs(s, ids, d, name);
    }
  }

  lemma ConnsFree(s: Index, name: string, c: ConnRef, conns: map<ConnRef, Conn>)
    ensures Kept(s.(conns := conns), name, c) <==> Kept(s, name, c)
  {
  }

  // ---- One event ----

  /** While c is neither closed nor opened, an event keeps it waiting unless it forgets its name. */
  lemma StepKept(s: Index, ids: IdOf, e: Event, name: string, c: ConnRef)
    requires NonzeroIds(ids) && Inv(s, ids) && Possible(s, e)
    requires c in s.conns && s.conns[c].login == name != [] && !s.conns[c].open
    requires c in Apply(s, ids, e).conns && !Apply(s, ids, e).conns[c].open && Closing(s, e) != Some(c)
    ensures var t := Apply(s, ids, e);
            t.conns[c] == s.conns[c] && (Kept(t, name, c) <==> Kept(s, name, c) && !Forgets(s, ids, e, name))
  {
    hide GoodUsers, GoodConn, HandlesDistinct, Kept, Login, Accept, Close, LastOf;
    match e
    case Accepted(d, handle) =>
      ConnsFree(s, name, c, s.conns[d := Conn(handle, [], 0, false)]);
    case LoginRequest(d, n, available) =>
      if s.conns[d].login == [] {
        if available {
          LoginKept(s, ids, d, n, name, c);
        } else {
          CloseKept(s, ids, d, name, c);
        }
      }
    case Closed(d) =>
      CloseKept(s, ids, d, name, c);
    case ValidateResponse(n, handle, ok) =>
      var w := Waiting(s, n, handle);
      if w.Some? && !s.conns[w.value].open {
        if ok {
          AnswerKept(s, ids, n, handle, name, c);
        } else {
          CloseKept(s, ids, w.value, name, c);
        }
      }
  }

  lemma AnswerKept(s: Index, ids: IdOf, n: string, handle: nat, name: string, c: ConnRef)
    requires NonzeroIds(ids) && Inv(s, ids)
    requires c in s.conns && s.conns[c].login == name != [] && !s.conns[c].open
    requires var w := Waiting(s, n, handle); w.Some? && !s.conns[w.value].open
    requires var t := Accept(s, s.byName[n], Waiting(s, n, handle).value, ids(n)); c in t.conns && !t.conns[c].open
    ensures var t := Accept(s, s.byName[n], Waiting(s, n, handle).value, ids(n));
            t.conns[c] == s.conns[c] &&
            (Kept(t, name, c) <==> Kept(s, name, c) && !Merges(s, ids, ValidateResponse(n, handle, true), name))
  {
    hide GoodUsers, GoodConn, HandlesDistinct, Kept, Accept;
    var w := Waiting(s, n, handle).value;
    AcceptInv(s, ids, s.byName[n], w, ids(n));
    assert w in OpenConns(Accept(s, s.byName[n], w, ids(n)));
    AcceptKept(s, ids, s.byName[n], w, ids(n), name, c);
    if Kept(s, name, c) {
      KeptNamed(s, name, c);
    }
  }

  // ---- Any number of events ----

  ghost predicate Runnable(s: Index, ids: IdOf, events: seq<Event>)
    decreases |events|
  {
    events == [] || (MapsLive(s) && Possible(s, events[0]) && Runnable(Apply(s, ids, events[0]), ids, events[1..]))
  }

  ghost function After(s: Index, ids: IdOf, events: seq<Event>): Index
    requires Runnable(s, ids, events)
    decreases |events|
  {
    if events == [] then s else After(Apply(s, ids, events[0]), ids, events[1..])
  }

  /** None of the events closes c or opens it. */
  ghost predicate Untouched(s: Index, ids: IdOf, events: seq<Event>, c: ConnRef)
    requires Runnable(s, ids, events)
    decreases |events|
  {
    c in s.conns && !s.conns[c].open &&
    (events == [] ||
     (Closing(s, events[0]) != Some(c) && Untouched(Apply(s, ids, events[0]), ids, events[1..], c)))
  }

  /** One of the events forgets the waiters of a name. */
  ghost predicate Forgotten(s: Index, ids: IdOf, events: seq<Event>, name: string)
    requires Runnable(s, ids, events)
    decreases |events|
  {
    events != [] &&
    (Forgets(s, ids, events[0], name) || Forgotten(Apply(s, ids, events[0]), ids, events[1..], name))
  }

  lemma {:induction false} RunKept(s: Index, ids: IdOf, events: seq<Event>, name: string, c: ConnRef)
    requires NonzeroIds(ids) && Agreed(s, ids) && Runnable(s, ids, events) && Untouched(s, ids, events, c)
    requires s.conns[c].login == name != []
    ensures var t := After(s, ids, events);
            Agreed(t, ids) && c in t.conns && t.conns[c] == s.conns[c] &&
            (Kept(t, name, c) <==> Kept(s, name, c) && !Forgotten(s, ids, events, name))
    decreases |events|
  {
    if events != [] {
      hide Apply, Kept, Forgets, Possible, GoodUsers, GoodConn, HandlesDistinct;
      var t := Apply(s, ids, events[0]);
      ApplyAgreed(s, ids, events[0]);
      UntouchedHere(t, ids, events[1..], c);
      StepKept(s, ids, events[0], name, c);
      RunKept(t, ids, events[1..], name, c);
    }
  }

  lemma UntouchedHere(s: Index, ids: IdOf, events: seq<Event>, c: ConnRef)
    requires Runnable(s, ids, events) && Untouched(s, ids, events, c)
    ensures c in s.conns && !s.conns[c].open
  {
  }

  /** A positive answer opens a waiting connection exactly when its user still waits for it, and otherwise changes
      nothing. */
  lemma AnswerFinds(s: Index, ids: IdOf, name: string, c: ConnRef)
    requires NonzeroIds(ids) && Inv(s, ids) && c in s.conns && s.conns[c].login == name != [] && !s.conns[c].open
    ensures var t := Apply(s, ids, ValidateResponse(name, s.conns[c].handle, true));
            if Kept(s, name, c) then c in t.conns && t.conns[c].open else t == s
  {
    var w := Waiting(s, name, s.conns[c].handle);
    assert w.Some? ==> w.value == c;
    if Kept(s, name, c) {
      hide GoodUsers, GoodConn, Accept;
      AcceptInv(s, ids, s.byName[name], c, ids(name));
      assert c in OpenConns(Accept(s, s.byName[name], c, ids(name)));
    }
  }

  lemma LoginWaits(s: Index, ids: IdOf, c: ConnRef, name: string)
    requires Inv(s, ids) && c in s.conns && s.conns[c].login == [] && name != []
    ensures var t := Login(s, c, name);
            Kept(t, name, c) && c in t.conns && t.conns[c].login == name && t.conns[c].handle == s.conns[c].handle
  {
    NextFree(s, ids);
    hide Inv;
  }

  /** From a login on, whatever happens meanwhile: the database's positive answer opens the connection if and only if
      no event in between was a close, a refusal or a merge that took the last connection of the user of its name. If
      one was, the answer changes nothing at all. */
  lemma AnswerOpens(s: Index, ids: IdOf, c: ConnRef, name: string, events: seq<Event>)
    requires NonzeroIds(ids) && Agreed(s, ids) && c in s.conns && s.conns[c].login == [] && name != []
    requires Runnable(Login(s, c, name), ids, events) && Untouched(Login(s, c, name), ids, events, c)
    ensures var t := After(Login(s, c, name), ids, events);
            MapsLive(t) && c in t.conns && t.conns[c].handle == s.conns[c].handle &&
            var u := Apply(t, ids, ValidateResponse(name, t.conns[c].handle, true));
            (c in u.conns && u.conns[c].open <==> !Forgotten(Login(s, c, name), ids, events, name)) &&
            (Forgotten(Login(s, c, name), ids, events, name) ==> u == t)
  {
    hide GoodUsers, GoodConn, HandlesDistinct, Apply, Kept, Login;
    var s1 := Login(s, c, name);
    LoginIs(s, ids, c, name);
    ApplyAgreed(s, ids, LoginRequest(c, name, true));
    LoginWaits(s, ids, c, name);
    UntouchedHere(s1, ids, events, c);
    RunKept(s1, ids, events, name, c);
    AnswerFinds(After(s1, ids, events), ids, name, c);
  }

  lemma LoginIs(s: Index, ids: IdOf, c: ConnRef, name: string)
    requires MapsLive(s) && c in s.conns && s.conns[c].login == [] && name != []
    ensures Login(s, c, name) == Apply(s, ids, LoginRequest(c, name, true))
  {
    hide Login;
  }

  // ---- A connection that is never opened ----

  const FORGETFUL: seq<Event> := [
    Accepted(0, 10), Accepted(1, 11), LoginRequest(0, "a", true), LoginRequest(1, "a", true),
    ValidateResponse("a", 10, false)]

  const TWO_WAIT := Index(
    map[0 := Conn(10, "a", 0, false), 1 := Conn(11, "a", 0, false)],
    map[0 := User("a", 0, false, map[], {0, 1})], map["a" := 0], map[], 1, [])

  const ONE_LEFT := Index(map[1 := Conn(11, "a", 0, false)], map[], map[], map[], 1, [])

  const BOTH_IN := Index(
    map[0 := Conn(10, [], 0, false), 1 := Conn(11, [], 0, false)], map[], map[], map[], 0, [])

  const ONE_WAITS := Index(
    map[0 := Conn(10, "a", 0, false), 1 := Conn(11, [], 0, false)],
    map[0 := User("a", 0, false, map[], {0})], map["a" := 0], map[], 1, [])

  lemma ReachNext(s: Index, ids: IdOf, events: seq<Event>, e: Event)
    requires Reached(s, ids, events) && MapsLive(s) && Possible(s, e)
    ensures Reached(Apply(s, ids, e), ids, events + [e])
  {
    hide Apply, Possible, MapsLive;
    assert (events + [e])[..|events + [e]| - 1] == events;
  }

  lemma BothConnect(ids: IdOf)
    ensures Reached(BOTH_IN, ids, FORGETFUL[..2])
  {
    var s := Connect(EMPTY, 0, 10);
    assert Reached(EMPTY, ids, []);
    ReachNext(EMPTY, ids, [], Accepted(0, 10));
    ReachNext(s, ids, [] + [Accepted(0, 10)], Accepted(1, 11));
    assert BOTH_IN == Apply(s, ids, Accepted(1, 11));
    assert FORGETFUL[..2] == [] + [Accepted(0, 10)] + [Accepted(1, 11)];
  }

  lemma FirstLogs(ids: IdOf)
    ensures MapsLive(BOTH_IN) && Apply(BOTH_IN, ids, LoginRequest(0, "a", true)) == ONE_WAITS
  {
    var s := Rename(BOTH_IN, 0, "a");
    assert s.conns == ONE_WAITS.conns;
    var t := WithUser(s, "a");
    assert t.users == map[0 := User("a", 0, false, map[], {})] && t.byName == map["a" := 0];
    assert {} + {0} == {0};
    assert Pend(t, 0, 0).users == ONE_WAITS.users;
  }

  lemma SecondLogs(ids: IdOf)
    ensures MapsLive(ONE_WAITS) && Apply(ONE_WAITS, ids, LoginRequest(1, "a", true)) == TWO_WAIT
  {
    var s := Rename(ONE_WAITS, 1, "a");
    assert s.conns == TWO_WAIT.conns;
    assert WithUser(s, "a") == s;
    assert {0} + {1} == {0, 1};
    assert Pend(s, 0, 1).users == TWO_WAIT.users;
  }

  lemma FirstFour(ids: IdOf)
    ensures Reached(TWO_WAIT, ids, FORGETFUL[..4])
  {
    hide Apply, Reached, MapsLive;
    BothConnect(ids);
    FirstLogs(ids);
    SecondLogs(ids);
    ReachNext(BOTH_IN, ids, FORGETFUL[..2], LoginRequest(0, "a", true));
    assert FORGETFUL[..3] == FORGETFUL[..2] + [LoginRequest(0, "a", true)];
    ReachNext(ONE_WAITS, ids, FORGETFUL[..3], LoginRequest(1, "a", true));
    assert FORGETFUL[..4] == FORGETFUL[..3] + [LoginRequest(1, "a", true)];
  }

  lemma Refused(ids: IdOf)
    ensures MapsLive(TWO_WAIT) && Apply(TWO_WAIT, ids, ValidateResponse("a", 10, false)) == ONE_LEFT
  {
    var w := Waiting(TWO_WAIT, "a", 10);
    assert 0 in TWO_WAIT.users[TWO_WAIT.byName["a"]].pending && TWO_WAIT.conns[0].handle == 10;
    assert w == Some(0);
    var s := TWO_WAIT;
    assert LeaveById(s, 0) == s;
    assert s.users[0].pending - {0} == {1};
    var t := LeaveByName(s, 0);
    assert t.users == map[] && t.byName == map[] && t.byId == map[];
    assert t.conns - {0} == ONE_LEFT.conns;
  }

  lemma NobodyWaits()
    ensures MapsLive(ONE_LEFT) && Waiting(ONE_LEFT, "a", 11) == None
  {
  }

  /** Two connections log in under one name; the first is refused; the positive answer for the second, still live and
      waiting, changes nothing. */
  lemma WaiterForgotten(ids: IdOf)
    ensures Reached(ONE_LEFT, ids, FORGETFUL) && MapsLive(ONE_LEFT)
    ensures 1 in ONE_LEFT.conns && ONE_LEFT.conns[1] == Conn(11, "a", 0, false)
    ensures Apply(ONE_LEFT, ids, ValidateResponse("a", 11, true)) == ONE_LEFT
  {
    FirstFour(ids);
    Refused(ids);
    NobodyWaits();
    hide Reached;
    ReachNext(TWO_WAIT, ids, FORGETFUL[..4], ValidateResponse("a", 10, false));
    assert FORGETFUL == FORGETFUL[..4] + [ValidateResponse("a", 10, false)];
  }

  // ---- Every connection after every event ----

  /** The connection an event opens. */
  ghost function Opening(s: Index, e: Event): Option<ConnRef>
    requires MapsLive(s)
  {
    if e.ValidateResponse? && e.ok then
      var w := Waiting(s, e.name, e.handle);
      if w.Some? && !s.conns[w.value].open then w else None
    else None
  }

  lemma CloseConns(s: Index, c: ConnRef)
    requires c in s.conns && MapsLive(s)
    ensures Close(s, c).conns == s.conns - {c}
  {
    hide MapsLive;
    LeaveByIdMaps(s, c);
  }

  lemma AcceptConns(s: Index, r: UserRef, c: ConnRef, id: nat)
    requires r in s.users && c in s.conns && MapsLive(s)
    ensures Accept(s, r, c, id).conns == s.conns[c := s.conns[c].(user := id, open := true)]
  {
  }

  lemma LoginConns(s: Index, c: ConnRef, name: string)
    requires c in s.conns && MapsLive(s) && s.conns[c].login == []
    ensures Login(s, c, name).conns == s.conns[c := s.conns[c].(login := name)]
  {
  }

  /** What becomes of one connection. */
  ghost function ConnAfter(s: Index, ids: IdOf, e: Event, d: ConnRef): Conn
    requires MapsLive(s) && Possible(s, e) && (d in s.conns || (e.Accepted? && e.c == d))
  {
    if e.Accepted? && e.c == d then Conn(e.handle, [], 0, false)
    else if e.LoginRequest? && e.c == d && s.conns[d].login == [] then s.conns[d].(login := e.name)
    else if Opening(s, e) == Some(d) then s.conns[d].(user := ids(e.name), open := true)
    else s.conns[d]
  }

  /** A connection lives from its accept to the event that closes it; a first login request names it, a positive answer
      for it opens it as the user of its name, and nothing else changes it. */
  lemma ConnsExact(s: Index, ids: IdOf, e: Event)
    requires MapsLive(s) && Possible(s, e)
    ensures var t := Apply(s, ids, e);
            forall d :: d in t.conns <==>
              (d in s.conns && Closing(s, e) != Some(d)) || (e.Accepted? && e.c == d)
    ensures var t := Apply(s, ids, e);
            forall d :: d in t.conns ==> t.conns[d] == ConnAfter(s, ids, e, d)
  {
    hide MapsLive, Close, Accept, Login;
    match e
    case Accepted(c, handle) =>
    case LoginRequest(c, name, available) =>
      if s.conns[c].login == [] {
        LoginConns(s, c, name);
        CloseConns(s, c);
      }
    case ValidateResponse(name, handle, ok) =>
      var w := Waiting(s, name, handle);
      if w.Some? {
        WaitingUser(s, name, handle);
        AcceptConns(s, s.byName[name], w.value, ids(name));
        CloseConns(s, w.value);
      }
    case Closed(c) => CloseConns(s, c);
  }

  lemma WaitingUser(s: Index, name: string, handle: nat)
    requires MapsLive(s) && Waiting(s, name, handle).Some?
    ensures name in s.byName && s.byName[name] in s.users
  {
  }
}
