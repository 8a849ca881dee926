/** The message server's two indexes of users and their connections (msg_server/ImUser.cpp,
    msg_server/MsgConn.cpp:121-227 and 424-500, msg_server/DBServConn.cpp:285-400). Objects are named by
    references; a reference keeps naming one object until that object is deleted. */
module UserIndex {
  import opened Wrappers

  type ConnRef = nat
  type UserRef = nat

  /** CMsgConn: not logged in while `login` is empty, validated when `open`. */
  datatype Conn = Conn(handle: nat, login: string, user: nat, open: bool)

  /** CImUser. */
  datatype User = User(login: string, id: nat, validated: bool, conns: map<nat, ConnRef>, pending: set<ConnRef>)

  /** What a message server tells every login server. */
  datatype Action = Inc | Dec

  /** The live connections, the live users, CImUserManager's two maps, and the updates sent so far. */
  datatype Index = Index(
    conns: map<ConnRef, Conn>, users: map<UserRef, User>, byName: map<string, UserRef>, byId: map<nat, UserRef>,
    nextUser: UserRef, sent: seq<Action>)

  /** The database's answer to a login name, constant during a run. */
  type IdOf = string -> nat

  // ---- The invariant ----

  /** A user is indexed by its login name; it has an id, and is indexed by it, exactly when it has connections. */
  ghost predicate Named(s: Index, ids: IdOf, r: UserRef, u: User) {
    r < s.nextUser && u.login != [] && u.login in s.byName && s.byName[u.login] == r &&
    (u.id == 0 <==> u.conns == map[]) && (u.validated <==> u.id != 0) &&
    (u.id != 0 ==> u.id == ids(u.login) && u.id in s.byId && s.byId[u.id] == r)
  }

  ghost predicate Holds(conns: map<ConnRef, Conn>, u: User) {
    forall h :: h in u.conns ==>
      u.conns[h] in conns && conns[u.conns[h]].open && conns[u.conns[h]].handle == h && conns[u.conns[h]].user == u.id
  }

  ghost predicate Waits(conns: map<ConnRef, Conn>, u: User) {
    forall c :: c in u.pending ==> c in conns && !conns[c].open && conns[c].login == u.login
  }

  ghost predicate GoodUser(s: Index, ids: IdOf, r: UserRef)
    requires r in s.users
  {
    Named(s, ids, r, s.users[r]) && Holds(s.conns, s.users[r]) && Waits(s.conns, s.users[r])
  }

  /** CImUserManager::GetMsgConnByHandle. */
  function Lookup(s: Index, id: nat, handle: nat): (r: Option<ConnRef>) {
    if id in s.byId && s.byId[id] in s.users && handle in s.users[s.byId[id]].conns
    then Some(s.users[s.byId[id]].conns[handle])
    else None
  }

  /** An open connection is found under its own user id and handle. */
  ghost predicate GoodConn(s: Index, c: ConnRef)
    requires c in s.conns
  {
    var k := s.conns[c];
    if k.open then k.login != [] && k.user != 0 && Lookup(s, k.user, k.handle) == Some(c) else k.user == 0
  }

  ghost predicate HandlesDistinct(conns: map<ConnRef, Conn>) {
    forall c, d :: c in conns && d in conns && conns[c].handle == conns[d].handle ==> c == d
  }

  predicate MapsLive(s: Index) {
    (forall n :: n in s.byName ==> s.byName[n] in s.users && s.users[s.byName[n]].login == n) &&
    (forall i :: i in s.byId ==> i != 0 && s.byId[i] in s.users && s.users[s.byId[i]].id == i)
  }

  ghost predicate GoodUsers(s: Index, ids: IdOf) { forall r :: r in s.users ==> GoodUser(s, ids, r) }

  ghost predicate GoodConnsBut(s: Index, x: ConnRef) { forall c :: c in s.conns && c != x ==> GoodConn(s, c) }

  /** The invariant in the middle of closing `x`. */
  ghost predicate InvBut(s: Index, ids: IdOf, x: ConnRef) {
    HandlesDistinct(s.conns) && MapsLive(s) && GoodUsers(s, ids) && GoodConnsBut(s, x)
  }

  ghost predicate Inv(s: Index, ids: IdOf) {
    HandlesDistinct(s.conns) && MapsLive(s) && GoodUsers(s, ids) && forall c :: c in s.conns ==> GoodConn(s, c)
  }

  ghost function OpenConns(s: Index): set<ConnRef> { set c | c in s.conns && s.conns[c].open }

  /** Increments minus decrements. */
  function Net(sent: seq<Action>): int {
    if sent == [] then 0 else Net(sent[..|sent| - 1]) + if sent[|sent| - 1] == Inc then 1 else -1
  }

  // ---- Connecting and logging in ----

  /** OnConnect. */
  function Connect(s: Index, c: ConnRef, handle: nat): Index {
    s.(conns := s.conns[c := Conn(handle, [], 0, false)])
  }

  /** GetImUserByLoginName, or a new user. */
  function WithUser(s: Index, name: string): Index {
    if name in s.byName then s
    else
      s.(users := s.users[s.nextUser := User(name, 0, false, map[], {})], byName := s.byName[name := s.nextUser],
         nextUser := s.nextUser + 1)
  }

  function Rename(s: Index, c: ConnRef, name: string): Index
    requires c in s.conns
  {
    s.(conns := s.conns[c := s.conns[c].(login := name)])
  }

  function Pend(s: Index, r: UserRef, c: ConnRef): Index
    requires r in s.users
  {
    s.(users := s.users[r := s.users[r].(pending := s.users[r].pending + {c})])
  }

  /** _HandleLoginRequest once the other servers are available. */
  function Login(s: Index, c: ConnRef, name: string): Index
    requires c in s.conns && MapsLive(s)
  {
    if s.conns[c].login != [] then s
    else
      var t := WithUser(Rename(s, c, name), name);
      Pend(t, t.byName[name], c)
  }

  lemma ConnectUser(s: Index, ids: IdOf, c: ConnRef, handle: nat, r: UserRef)
    requires c !in s.conns && r in s.users && GoodUser(s, ids, r)
    ensures GoodUser(Connect(s, c, handle), ids, r)
  {}

  lemma ConnectInv(s: Index, ids: IdOf, c: ConnRef, handle: nat)
    requires Inv(s, ids) && c !in s.conns && forall d :: d in s.conns ==> s.conns[d].handle != handle
    ensures Inv(Connect(s, c, handle), ids) && OpenConns(Connect(s, c, handle)) == OpenConns(s)
  {
    hide GoodUser;
    var t := Connect(s, c, handle);
    forall r | r in t.users
      ensures GoodUser(t, ids, r)
    {
      ConnectUser(s, ids, c, handle, r);
    }
  }

  lemma RenameUser(s: Index, ids: IdOf, c: ConnRef, name: string, r: UserRef)
    requires c in s.conns && s.conns[c].login == [] && !s.conns[c].open && r in s.users && GoodUser(s, ids, r)
    ensures GoodUser(Rename(s, c, name), ids, r)
  {}

  /** Naming a connection that is neither open nor pending anywhere. */
  lemma RenameInv(s: Index, ids: IdOf, c: ConnRef, name: string)
    requires Inv(s, ids) && c in s.conns && s.conns[c].login == []
    ensures Inv(Rename(s, c, name), ids) && OpenConns(Rename(s, c, name)) == OpenConns(s)
  {
    hide GoodUser;
    var t := Rename(s, c, name);
    assert GoodConn(s, c);
    forall r | r in t.users
      ensures GoodUser(t, ids, r)
    {
      RenameUser(s, ids, c, name, r);
    }
    forall d | d in t.conns
      ensures GoodConn(t, d)
    {
      assert GoodConn(s, d);
    }
  }

  lemma NextFree(s: Index, ids: IdOf)
    requires GoodUsers(s, ids)
    ensures s.nextUser !in s.users
  {
    assert s.nextUser in s.users ==> GoodUser(s, ids, s.nextUser);
  }

  lemma WithUserInv(s: Index, ids: IdOf, name: string)
    requires Inv(s, ids) && name != []
    ensures Inv(WithUser(s, name), ids) && name in WithUser(s, name).byName
  {
    hide GoodUser, GoodConn;
    var t := WithUser(s, name);
    if name !in s.byName {
      NextFree(s, ids);
      forall r | r in t.users
        ensures GoodUser(t, ids, r)
      {
        WithUserUser(s, ids, name, r);
      }
      forall c | c in t.conns
        ensures GoodConn(t, c)
      {
        WithUserConn(s, name, c);
      }
    }
  }

  lemma WithUserConn(s: Index, name: string, c: ConnRef)
    requires s.nextUser !in s.users && c in s.conns && GoodConn(s, c)
    ensures GoodConn(WithUser(s, name), c)
  {}

  lemma WithUserUser(s: Index, ids: IdOf, name: string, r: UserRef)
    requires name != [] && name !in s.byName && s.nextUser !in s.users && r in WithUser(s, name).users
    requires r in s.users ==> GoodUser(s, ids, r)
    ensures GoodUser(WithUser(s, name), ids, r)
  {}

  lemma PendUser(s: Index, ids: IdOf, r: UserRef, c: ConnRef, q: UserRef)
    requires c in s.conns && !s.conns[c].open && r in s.users && s.users[r].login == s.conns[c].login
    requires q in s.users && GoodUser(s, ids, q)
    ensures GoodUser(Pend(s, r, c), ids, q)
  {}

  lemma PendInv(s: Index, ids: IdOf, r: UserRef, c: ConnRef)
    requires Inv(s, ids) && c in s.conns && !s.conns[c].open && r in s.users && s.users[r].login == s.conns[c].login
    ensures Inv(Pend(s, r, c), ids)
  {
    hide GoodUser;
    var t := Pend(s, r, c);
    forall q | q in t.users
      ensures GoodUser(t, ids, q)
    {
      PendUser(s, ids, r, c, q);
    }
    forall d | d in t.conns
      ensures GoodConn(t, d)
    {
      assert GoodConn(s, d);
    }
  }

  lemma LoginInv(s: Index, ids: IdOf, c: ConnRef, name: string)
    requires Inv(s, ids) && c in s.conns && name != []
    ensures Inv(Login(s, c, name), ids) && OpenConns(Login(s, c, name)) == OpenConns(s)
  {
    if s.conns[c].login == [] {
      assert GoodConn(s, c);
      assert !s.conns[c].open;
      hide GoodUsers, GoodConn;
      RenameInv(s, ids, c, name);
      var t := Rename(s, c, name);
      WithUserInv(t, ids, name);
      var u := WithUser(t, name);
      PendInv(u, ids, u.byName[name], c);
    }
  }

  // ---- Deleting a user ----

  /** CImUserManager::RemoveImUser. */
  function RemoveUser(s: Index, r: UserRef): Index
    requires r in s.users
  {
    var u := s.users[r];
    s.(byId := s.byId - {u.id}, byName := s.byName - {u.login}, users := s.users - {r})
  }

  lemma RemoveMaps(s: Index, r: UserRef)
    requires r in s.users && MapsLive(s)
    ensures MapsLive(RemoveUser(s, r))
  {}

  lemma RemoveUserUser(s: Index, ids: IdOf, r: UserRef, q: UserRef)
    requires r in s.users && q in s.users && q != r && GoodUser(s, ids, q) && GoodUser(s, ids, r)
    ensures GoodUser(RemoveUser(s, r), ids, q)
  {}

  /** A user holding no connection but `x` can go. */
  lemma RemoveInv(s: Index, ids: IdOf, r: UserRef, x: ConnRef)
    requires InvBut(s, ids, x) && r in s.users
    requires forall h :: h in s.users[r].conns ==> s.users[r].conns[h] == x
    ensures InvBut(RemoveUser(s, r), ids, x)
  {
    hide GoodUser;
    var t := RemoveUser(s, r);
    RemoveMaps(s, r);
    forall q | q in t.users
      ensures GoodUser(t, ids, q)
    {
      RemoveUserUser(s, ids, r, q);
    }
    forall d | d in t.conns && d != x
      ensures GoodConn(t, d)
    {
      RemoveConn(s, ids, r, x, d);
    }
  }

  lemma RemoveConn(s: Index, ids: IdOf, r: UserRef, x: ConnRef, d: ConnRef)
    requires MapsLive(s) && r in s.users && GoodUser(s, ids, r) && d in s.conns && d != x && GoodConn(s, d)
    requires forall h :: h in s.users[r].conns ==> s.users[r].conns[h] == x
    ensures GoodConn(RemoveUser(s, r), d)
  {}

  // ---- The database's answer ----

  /** `c` becomes an open connection of user `r`. */
  function Gain(s: Index, r: UserRef, c: ConnRef, id: nat): Index
    requires r in s.users && c in s.conns
  {
    var u := s.users[r];
    var k := s.conns[c];
    s.(conns := s.conns[c := k.(user := id, open := true)],
       users := s.users[r := u.(id := id, validated := true, conns := u.conns[k.handle := c], pending := u.pending - {c})],
       byId := if id in s.byId then s.byId else s.byId[id := r],
       sent := s.sent + [Inc])
  }

  /** The successful branch of _HandleValidateResponse: the user `r` found by name waits for `c`. */
  function Accept(s: Index, r: UserRef, c: ConnRef, id: nat): Index
    requires r in s.users && c in s.conns && MapsLive(s)
  {
    if id in s.byId then
      var v := s.byId[id];
      var t := Pend(s, v, c);
      var u := t.users[r].(pending := t.users[r].pending - {c});
      if u.conns == map[] && r != v then
        Gain(t.(users := t.users - {r}, byName := t.byName - {u.login}), v, c, id)
      else Gain(t.(users := t.users[r := u]), v, c, id)
    else Gain(s, r, c, id)
  }

  ghost predicate Gainable(s: Index, ids: IdOf, r: UserRef, c: ConnRef, id: nat) {
    r in s.users && c in s.conns && !s.conns[c].open && s.conns[c].login != [] && id != 0 && ids(s.users[r].login) == id &&
    (forall q :: q in s.users && q != r ==> c !in s.users[q].pending) &&
    (if id in s.byId then s.byId[id] == r && s.users[r].id == id else s.users[r].id == 0)
  }

  lemma GainOther(s: Index, ids: IdOf, r: UserRef, c: ConnRef, id: nat, q: UserRef)
    requires Gainable(s, ids, r, c, id) && q in s.users && q != r && GoodUser(s, ids, q)
    ensures GoodUser(Gain(s, r, c, id), ids, q)
  {
    var t := Gain(s, r, c, id);
    var u := s.users[q];
    assert Holds(t.conns, u);
    assert Waits(t.conns, u);
    assert Named(t, ids, q, u);
  }

  lemma GainSelf(s: Index, ids: IdOf, r: UserRef, c: ConnRef, id: nat)
    requires Gainable(s, ids, r, c, id) && GoodUser(s, ids, r)
    ensures GoodUser(Gain(s, r, c, id), ids, r)
  {
    var t := Gain(s, r, c, id);
    var u := t.users[r];
    assert Holds(t.conns, u);
    assert Waits(t.conns, u);
    assert s.conns[c].handle in u.conns;
    assert Named(t, ids, r, u);
  }

  lemma GainConn(s: Index, ids: IdOf, r: UserRef, c: ConnRef, id: nat, d: ConnRef)
    requires Gainable(s, ids, r, c, id) && d in s.conns && GoodConn(s, d)
    requires d != c ==> s.conns[d].handle != s.conns[c].handle
    ensures GoodConn(Gain(s, r, c, id), d)
  {}

  lemma GainInv(s: Index, ids: IdOf, r: UserRef, c: ConnRef, id: nat)
    requires Inv(s, ids) && Gainable(s, ids, r, c, id)
    ensures Inv(Gain(s, r, c, id), ids) && OpenConns(Gain(s, r, c, id)) == OpenConns(s) + {c}
  {
    hide GoodUser, GoodConn;
    var t := Gain(s, r, c, id);
    GainMaps(s, ids, r, c, id);
    GainSelf(s, ids, r, c, id);
    forall q | q in t.users
      ensures GoodUser(t, ids, q)
    {
      if q != r {
        GainOther(s, ids, r, c, id, q);
      }
    }
    forall d | d in t.conns
      ensures GoodConn(t, d)
    {
      GainConn(s, ids, r, c, id, d);
    }
  }

  lemma GainMaps(s: Index, ids: IdOf, r: UserRef, c: ConnRef, id: nat)
    requires MapsLive(s) && Gainable(s, ids, r, c, id)
    ensures MapsLive(Gain(s, r, c, id))
  {}

  lemma Overwrite<V>(m: map<nat, V>, k: nat, a: V, b: V, d: V)
    ensures m[k := a][k := b][k := d] == m[k := d]
  {}

  lemma OverwriteWithout<V>(m: map<nat, V>, k: nat, j: nat, a: V, b: V)
    requires j != k
    ensures (m[k := a] - {j})[k := b] == (m - {j})[k := b]
  {}

  /** The user found by name is the one with the id. */
  lemma AcceptSame(s: Index, r: UserRef, c: ConnRef, id: nat)
    requires MapsLive(s) && r in s.users && c in s.conns && (id in s.byId ==> s.byId[id] == r)
    ensures Accept(s, r, c, id) == Gain(s, r, c, id)
  {
    if id in s.byId {
      hide MapsLive;
      var u := s.users[r];
      var k := s.conns[c];
      var u1 := u.(pending := u.pending + {c});
      var u2 := u1.(pending := u1.pending - {c});
      var u3 := u2.(id := id, validated := true, conns := u.conns[k.handle := c], pending := u2.pending - {c});
      assert u2.pending - {c} == u.pending - {c};
      Overwrite(s.users, r, u1, u2, u3);
    }
  }

  /** Two users for one id: the one without connections gives up its claim and is deleted. */
  lemma AcceptMerge(s: Index, r: UserRef, c: ConnRef, id: nat)
    requires MapsLive(s) && r in s.users && c in s.conns && id in s.byId && s.byId[id] != r
    requires s.users[r].conns == map[] && s.users[r].id == 0
    ensures Accept(s, r, c, id) == Gain(RemoveUser(s, r), s.byId[id], c, id)
  {
    assert s.byId - {0} == s.byId;
    var v := s.byId[id];
    assert v in s.users;
    hide MapsLive;
    var u := s.users[v];
    var k := s.conns[c];
    var u1 := u.(pending := u.pending + {c});
    var u3 := u1.(id := id, validated := true, conns := u.conns[k.handle := c], pending := u1.pending - {c});
    assert u1.pending - {c} == u.pending - {c};
    OverwriteWithout(s.users, v, r, u1, u3);
  }

  /** Nobody but the user of its own name waits for a connection. */
  lemma WaitsOnce(s: Index, ids: IdOf, r: UserRef, c: ConnRef, q: UserRef)
    requires Inv(s, ids) && r in s.users && q in s.users && q != r && c in s.users[r].pending
    ensures c !in s.users[q].pending
  {
    assert GoodUser(s, ids, r) && GoodUser(s, ids, q);
  }

  /** What waiting for a connection says about it. */
  lemma WaitFacts(s: Index, ids: IdOf, r: UserRef, c: ConnRef)
    requires Inv(s, ids) && r in s.users && c in s.users[r].pending
    ensures c in s.conns && !s.conns[c].open && s.conns[c].login == s.users[r].login != []
    ensures forall q :: q in s.users && q != r ==> c !in s.users[q].pending
  {
    assert GoodUser(s, ids, r);
    forall q | q in s.users && q != r
      ensures c !in s.users[q].pending
    {
      WaitsOnce(s, ids, r, c, q);
    }
  }

  lemma IdFacts(s: Index, ids: IdOf, r: UserRef, id: nat)
    requires Inv(s, ids) && r in s.users && id == ids(s.users[r].login) && id != 0
    ensures id in s.byId && s.byId[id] != r ==> s.users[r].conns == map[] && s.users[r].id == 0
    ensures id in s.byId ==> s.byId[id] in s.users && s.users[s.byId[id]].id == id == ids(s.users[s.byId[id]].login)
    ensures id in s.byId ==> s.users[s.byId[id]].conns != map[]
    ensures id !in s.byId ==> s.users[r].id == 0
  {
    assert GoodUser(s, ids, r);
    if id in s.byId {
      assert GoodUser(s, ids, s.byId[id]);
    }
  }

  lemma AcceptInv(s: Index, ids: IdOf, r: UserRef, c: ConnRef, id: nat)
    requires Inv(s, ids) && r in s.users && c in s.users[r].pending && id == ids(s.users[r].login) && id != 0
    ensures c in s.conns && c !in OpenConns(s)
    ensures Inv(Accept(s, r, c, id), ids) && OpenConns(Accept(s, r, c, id)) == OpenConns(s) + {c}
    ensures Accept(s, r, c, id).sent == s.sent + [Inc]
    ensures c in Accept(s, r, c, id).conns &&
      Accept(s, r, c, id).conns[c] == s.conns[c].(user := ids(s.conns[c].login), open := true)
  {
    hide GoodUser, GoodConn, Accept, MapsLive, HandlesDistinct;
    WaitFacts(s, ids, r, c);
    IdFacts(s, ids, r, id);
    if id in s.byId && s.byId[id] != r {
      var v := s.byId[id];
      AcceptMerge(s, r, c, id);
      RemoveInv(s, ids, r, c);
      RemoveConn(s, ids, r, c + 1, c);
      GainInv(RemoveUser(s, r), ids, v, c, id);
    } else {
      AcceptSame(s, r, c, id);
      GainInv(s, ids, r, c, id);
    }
  }

  // ---- Closing a connection ----

  /** Close, by user id: the connection leaves its user and the login servers hear of it if it was open. */
  function LeaveById(s: Index, c: ConnRef): Index
    requires c in s.conns && MapsLive(s)
  {
    var k := s.conns[c];
    if k.user !in s.byId then s
    else
      var r := s.byId[k.user];
      var u := s.users[r].(conns := s.users[r].conns - {k.handle}, pending := s.users[r].pending - {c});
      var t := s.(users := s.users[r := u], sent := if k.open then s.sent + [Dec] else s.sent);
      if u.conns == map[] then RemoveUser(t, r) else t
  }

  /** Close, by login name. */
  function LeaveByName(s: Index, c: ConnRef): Index
    requires c in s.conns && MapsLive(s)
  {
    var k := s.conns[c];
    if k.login !in s.byName then s
    else
      var r := s.byName[k.login];
      var u := s.users[r].(pending := s.users[r].pending - {c});
      var t := s.(users := s.users[r := u]);
      if u.conns == map[] then RemoveUser(t, r) else t
  }

  lemma LeaveByIdMaps(s: Index, c: ConnRef)
    requires c in s.conns && MapsLive(s)
    ensures MapsLive(LeaveById(s, c)) && LeaveById(s, c).conns == s.conns
  {}

  /** CMsgConn::Close, run once per connection. */
  function Close(s: Index, c: ConnRef): Index
    requires c in s.conns && MapsLive(s)
  {
    LeaveByIdMaps(s, c);
    var t := LeaveByName(LeaveById(s, c), c);
    t.(conns := t.conns - {c})
  }

  /** User `r` without connection `c`. */
  function Leave(s: Index, r: UserRef, c: ConnRef): Index
    requires r in s.users && c in s.conns
  {
    var u := s.users[r];
    s.(users := s.users[r := u.(conns := u.conns - {s.conns[c].handle}, pending := u.pending - {c})])
  }

  lemma LeaveUser(s: Index, ids: IdOf, r: UserRef, c: ConnRef, q: UserRef)
    requires r in s.users && c in s.conns && q in s.users && GoodUser(s, ids, q) && GoodUser(s, ids, r)
    requires s.users[r].conns == map[] || s.users[r].conns - {s.conns[c].handle} != map[]
    ensures GoodUser(Leave(s, r, c), ids, q)
  {
    if s.users[r].conns == map[] {
      assert s.users[r].conns - {s.conns[c].handle} == map[];
    }
  }

  lemma LeaveConn(s: Index, r: UserRef, c: ConnRef, d: ConnRef)
    requires r in s.users && c in s.conns && d in s.conns && GoodConn(s, d)
    requires s.conns[d].handle != s.conns[c].handle
    ensures GoodConn(Leave(s, r, c), d)
  {}

  lemma LeaveMaps(s: Index, r: UserRef, c: ConnRef)
    requires r in s.users && c in s.conns && MapsLive(s)
    ensures MapsLive(Leave(s, r, c))
  {}

  lemma LeaveInv(s: Index, ids: IdOf, r: UserRef, c: ConnRef)
    requires InvBut(s, ids, c) && c in s.conns && r in s.users
    requires s.users[r].conns == map[] || s.users[r].conns - {s.conns[c].handle} != map[]
    ensures InvBut(Leave(s, r, c), ids, c)
  {
    hide GoodUser, GoodConn, MapsLive;
    var t := Leave(s, r, c);
    LeaveMaps(s, r, c);
    forall q | q in t.users
      ensures GoodUser(t, ids, q)
    {
      LeaveUser(s, ids, r, c, q);
    }
    forall d | d in t.conns && d != c
      ensures GoodConn(t, d)
    {
      LeaveConn(s, r, c, d);
    }
  }

  lemma RemoveSet<V>(m: map<nat, V>, k: nat, a: V)
    ensures m[k := a] - {k} == m - {k}
  {}

  /** The sent updates are no part of the invariant. */
  lemma SentFree(s: Index, ids: IdOf, x: ConnRef, sent: seq<Action>)
    requires InvBut(s, ids, x)
    ensures InvBut(s.(sent := sent), ids, x)
  {
    var t := s.(sent := sent);
    forall q | q in t.users
      ensures GoodUser(t, ids, q)
    {
      assert GoodUser(s, ids, q);
    }
    forall d | d in t.conns && d != x
      ensures GoodConn(t, d)
    {
      assert GoodConn(s, d);
    }
  }

  lemma LeaveByIdForms(s: Index, c: ConnRef)
    requires c in s.conns && MapsLive(s)
    ensures s.conns[c].user !in s.byId ==> LeaveById(s, c) == s
    ensures s.conns[c].user in s.byId ==>
      var r, sent := s.byId[s.conns[c].user], if s.conns[c].open then s.sent + [Dec] else s.sent;
      LeaveById(s, c) ==
        (if s.users[r].conns - {s.conns[c].handle} == map[] then RemoveUser(s, r) else Leave(s, r, c)).(sent := sent)
  {
    var k := s.conns[c];
    if k.user in s.byId {
      var r := s.byId[k.user];
      assert r in s.users;
      hide MapsLive;
      RemoveSet(s.users, r, s.users[r].(conns := s.users[r].conns - {k.handle}, pending := s.users[r].pending - {c}));
    }
  }

  /** A user's connections under one handle are that handle's one live connection. */
  lemma OnlyHandle(s: Index, ids: IdOf, r: UserRef, c: ConnRef)
    requires InvBut(s, ids, c) && c in s.conns && r in s.users && s.users[r].conns - {s.conns[c].handle} == map[]
    ensures forall h :: h in s.users[r].conns ==> s.users[r].conns[h] == c
  {
    assert GoodUser(s, ids, r);
    forall h | h in s.users[r].conns
      ensures s.users[r].conns[h] == c
    {
      assert h == s.conns[c].handle by {
        assert h !in s.users[r].conns - {s.conns[c].handle};
      }
    }
  }

  lemma LeaveByIdInv(s: Index, ids: IdOf, c: ConnRef)
    requires Inv(s, ids) && c in s.conns
    ensures LeaveById(s, c).conns == s.conns && InvBut(LeaveById(s, c), ids, c)
  {
    hide GoodUser, GoodConn, LeaveById;
    LeaveByIdForms(s, c);
    LeaveByIdMaps(s, c);
    var k := s.conns[c];
    if k.user in s.byId {
      var r := s.byId[k.user];
      var t;
      if s.users[r].conns - {k.handle} == map[] {
        OnlyHandle(s, ids, r, c);
        RemoveInv(s, ids, r, c);
        t := RemoveUser(s, r);
      } else {
        LeaveInv(s, ids, r, c);
        t := Leave(s, r, c);
      }
      hide MapsLive, GoodUsers, GoodConnsBut, HandlesDistinct;
      SentFree(t, ids, c, if k.open then s.sent + [Dec] else s.sent);
    }
  }

  /** After leaving by id no user holds the connection. */
  lemma LeaveByIdGone(s: Index, ids: IdOf, c: ConnRef)
    requires Inv(s, ids) && c in s.conns
    ensures Unheld(LeaveById(s, c), c)
  {
    assert GoodConn(s, c);
    forall r, h | r in s.users && h in s.users[r].conns && s.users[r].conns[h] == c
      ensures s.conns[c].user in s.byId && s.byId[s.conns[c].user] == r && h == s.conns[c].handle
    {
      assert GoodUser(s, ids, r);
    }
  }

  ghost predicate Unheld(s: Index, c: ConnRef) {
    forall r, h :: r in s.users && h in s.users[r].conns ==> s.users[r].conns[h] != c
  }

  ghost predicate Unawaited(s: Index, c: ConnRef) {
    forall r :: r in s.users ==> c !in s.users[r].pending
  }

  /** A connection nobody holds has no entry under its handle. */
  lemma UnheldHandle(s: Index, ids: IdOf, r: UserRef, c: ConnRef)
    requires InvBut(s, ids, c) && Unheld(s, c) && c in s.conns && r in s.users
    ensures s.users[r].conns - {s.conns[c].handle} == s.users[r].conns
  {
    assert GoodUser(s, ids, r);
  }

  lemma LeaveByNameForms(s: Index, ids: IdOf, c: ConnRef)
    requires InvBut(s, ids, c) && Unheld(s, c) && c in s.conns
    ensures s.conns[c].login !in s.byName ==> LeaveByName(s, c) == s
    ensures s.conns[c].login in s.byName ==>
      var r := s.byName[s.conns[c].login];
      LeaveByName(s, c) == if s.users[r].conns == map[] then RemoveUser(s, r) else Leave(s, r, c)
  {
    var k := s.conns[c];
    if k.login in s.byName {
      var r := s.byName[k.login];
      UnheldHandle(s, ids, r, c);
      assert r in s.users;
      hide InvBut, Unheld;
      RemoveSet(s.users, r, s.users[r].(pending := s.users[r].pending - {c}));
    }
  }

  lemma LeaveByNameInv(s: Index, ids: IdOf, c: ConnRef)
    requires InvBut(s, ids, c) && Unheld(s, c) && c in s.conns
    ensures var t := LeaveByName(s, c); t.conns == s.conns && t.sent == s.sent && InvBut(t, ids, c)
  {
    hide GoodUser, GoodConn, LeaveByName;
    LeaveByNameForms(s, ids, c);
    if s.conns[c].login in s.byName {
      var r := s.byName[s.conns[c].login];
      if s.users[r].conns == map[] {
        RemoveInv(s, ids, r, c);
      } else {
        UnheldHandle(s, ids, r, c);
        LeaveInv(s, ids, r, c);
      }
    }
  }

  lemma LeaveByNameGone(s: Index, ids: IdOf, c: ConnRef)
    requires InvBut(s, ids, c) && Unheld(s, c) && c in s.conns
    ensures Unheld(LeaveByName(s, c), c) && Unawaited(LeaveByName(s, c), c)
  {
    forall q | q in s.users && c in s.users[q].pending
      ensures s.conns[c].login in s.byName && s.byName[s.conns[c].login] == q
    {
      assert GoodUser(s, ids, q);
    }
  }

  lemma DropInv(s: Index, ids: IdOf, c: ConnRef)
    requires InvBut(s, ids, c) && Unheld(s, c) && Unawaited(s, c)
    ensures Inv(s.(conns := s.conns - {c}), ids)
  {
    var t := s.(conns := s.conns - {c});
    forall q | q in t.users
      ensures GoodUser(t, ids, q)
    {
      assert GoodUser(s, ids, q);
    }
    forall d | d in t.conns
      ensures GoodConn(t, d)
    {
      assert GoodConn(s, d);
    }
  }

  lemma LeaveByIdSent(s: Index, ids: IdOf, c: ConnRef)
    requires Inv(s, ids) && c in s.conns
    ensures LeaveById(s, c).sent == if s.conns[c].open then s.sent + [Dec] else s.sent
  {
    assert GoodConn(s, c);
  }

  lemma CloseInv(s: Index, ids: IdOf, c: ConnRef)
    requires Inv(s, ids) && c in s.conns
    ensures Inv(Close(s, c), ids) && OpenConns(Close(s, c)) == OpenConns(s) - {c}
    ensures Close(s, c).sent == if s.conns[c].open then s.sent + [Dec] else s.sent
  {
    hide GoodUsers, GoodConn, GoodConnsBut, HandlesDistinct, Unheld, Unawaited, LeaveById, LeaveByName;
    LeaveByIdInv(s, ids, c);
    LeaveByIdGone(s, ids, c);
    LeaveByIdSent(s, ids, c);
    var t := LeaveById(s, c);
    LeaveByNameInv(t, ids, c);
    LeaveByNameGone(t, ids, c);
    DropInv(LeaveByName(t, c), ids, c);
  }

  // ---- Runs ----

  /** What the outside world makes the server do. `available`: the database, login and route servers are connected. */
  datatype Event =
    | Accepted(c: ConnRef, handle: nat)
    | LoginRequest(c: ConnRef, name: string, available: bool)
    | ValidateResponse(name: string, handle: nat, ok: bool)
    | Closed(c: ConnRef)

  /** New connections are new objects on unused handles; other events come from live ones; names are nonempty. */
  predicate Possible(s: Index, e: Event) {
    match e
    case Accepted(c, handle) => c !in s.conns && forall d :: d in s.conns ==> s.conns[d].handle != handle
    case LoginRequest(c, name, _) => c in s.conns && name != []
    case ValidateResponse(_, _, _) => true
    case Closed(c) => c in s.conns
  }

  /** GetUnValidateMsgConn. */
  ghost function Waiting(s: Index, name: string, handle: nat): (r: Option<ConnRef>)
    requires MapsLive(s)
    ensures r.Some? ==> name in s.byName && r.value in s.users[s.byName[name]].pending
    ensures r.Some? ==> r.value in s.conns && s.conns[r.value].handle == handle
  {
    if name in s.byName &&
       exists c :: c in s.users[s.byName[name]].pending && c in s.conns && s.conns[c].handle == handle then
      Some(var c :| c in s.users[s.byName[name]].pending && c in s.conns && s.conns[c].handle == handle; c)
    else None
  }

  ghost function Apply(s: Index, ids: IdOf, e: Event): Index
    requires MapsLive(s) && Possible(s, e)
  {
    match e
    case Accepted(c, handle) => Connect(s, c, handle)
    case LoginRequest(c, name, available) =>
      if s.conns[c].login != [] then s else if available then Login(s, c, name) else Close(s, c)
    case ValidateResponse(name, handle, ok) =>
      var w := Waiting(s, name, handle);
      if w.None? || s.conns[w.value].open then s
      else if ok then Accept(s, s.byName[name], w.value, ids(name))
      else Close(s, w.value)
    case Closed(c) => Close(s, c)
  }

  ghost predicate NonzeroIds(ids: IdOf) { forall name :: ids(name) != 0 }

  /** Index agreement, and the updates sent add up to the open connections. */
  ghost predicate Agreed(s: Index, ids: IdOf) {
    Inv(s, ids) && Net(s.sent) == |OpenConns(s)|
  }

  lemma NetOf(s: seq<Action>, a: Action)
    ensures Net(s + [a]) == Net(s) + if a == Inc then 1 else -1
  {
    assert (s + [a])[..|s|] == s;
  }

  lemma CloseAgreed(s: Index, ids: IdOf, c: ConnRef)
    requires Agreed(s, ids) && c in s.conns
    ensures Agreed(Close(s, c), ids)
  {
    hide GoodUsers, GoodConn, HandlesDistinct, Close;
    CloseInv(s, ids, c);
    NetOf(s.sent, Dec);
    if s.conns[c].open {
      assert OpenConns(s) == OpenConns(Close(s, c)) + {c};
    } else {
      assert OpenConns(s) == OpenConns(Close(s, c));
    }
  }

  lemma AcceptAgreed(s: Index, ids: IdOf, r: UserRef, c: ConnRef, id: nat)
    requires Agreed(s, ids) && r in s.users && c in s.users[r].pending && id == ids(s.users[r].login) && id != 0
    ensures c in s.conns && Agreed(Accept(s, r, c, id), ids)
  {
    hide GoodUsers, GoodConn, HandlesDistinct, Accept;
    AcceptInv(s, ids, r, c, id);
    NetOf(s.sent, Inc);
  }

  lemma ApplyAgreed(s: Index, ids: IdOf, e: Event)
    requires NonzeroIds(ids) && Agreed(s, ids) && Possible(s, e)
    ensures Agreed(Apply(s, ids, e), ids)
  {
    hide GoodUsers, GoodConn, HandlesDistinct, Accept, Close;
    match e
    case Accepted(c, handle) => ConnectInv(s, ids, c, handle);
    case LoginRequest(c, name, available) =>
      LoginInv(s, ids, c, name);
      CloseAgreed(s, ids, c);
      LoginSent(s, c, name);
    case ValidateResponse(name, handle, ok) =>
      var w := Waiting(s, name, handle);
      if w.Some? {
        AcceptAgreed(s, ids, s.byName[name], w.value, ids(name));
        CloseAgreed(s, ids, w.value);
      }
    case Closed(c) => CloseAgreed(s, ids, c);
  }

  lemma LoginSent(s: Index, c: ConnRef, name: string)
    requires c in s.conns && MapsLive(s)
    ensures Login(s, c, name).sent == s.sent
  {}

  const EMPTY := Index(map[], map[], map[], map[], 0, [])

  /** `s` is reached from the empty server by the events. */
  ghost predicate Reached(s: Index, ids: IdOf, events: seq<Event>)
    decreases |events|
  {
    if events == [] then s == EMPTY
    else
      exists t :: Reached(t, ids, events[..|events| - 1]) && MapsLive(t) && Possible(t, events[|events| - 1]) &&
        s == Apply(t, ids, events[|events| - 1])
  }

  /** In every reachable state each open connection is the one found under its own user id and handle, every user
      in the id map has a connection, and the increments less the decrements sent are the open connections. */
  lemma {:induction false} IndexAgreement(s: Index, ids: IdOf, events: seq<Event>)
    requires NonzeroIds(ids) && Reached(s, ids, events)
    ensures Agreed(s, ids)
    ensures forall c :: c in s.conns && s.conns[c].open ==> Lookup(s, s.conns[c].user, s.conns[c].handle) == Some(c)
    ensures forall i :: i in s.byId ==> s.byId[i] in s.users && s.users[s.byId[i]].conns != map[]
    ensures Net(s.sent) == |OpenConns(s)|
    decreases |events|
  {
    if events != [] {
      var t :| Reached(t, ids, events[..|events| - 1]) && MapsLive(t) && Possible(t, events[|events| - 1]) &&
        s == Apply(t, ids, events[|events| - 1]);
      IndexAgreement(t, ids, events[..|events| - 1]);
      ApplyAgreed(t, ids, events[|events| - 1]);
    }
    AgreedMeans(s, ids);
  }

  lemma AgreedMeans(s: Index, ids: IdOf)
    requires Agreed(s, ids)
    ensures forall c :: c in s.conns && s.conns[c].open ==> Lookup(s, s.conns[c].user, s.conns[c].handle) == Some(c)
    ensures forall i :: i in s.byId ==> s.byId[i] in s.users && s.users[s.byId[i]].conns != map[]
  {
    forall i | i in s.byId
      ensures s.byId[i] in s.users && s.users[s.byId[i]].conns != map[]
    {
      assert GoodUser(s, ids, s.byId[i]);
    }
    forall c | c in s.conns && s.conns[c].open
      ensures Lookup(s, s.conns[c].user, s.conns[c].handle) == Some(c)
    {
      assert GoodConn(s, c);
    }
  }

  // ---- The server object ----

  class MsgServer {
    var conns: map<ConnRef, Conn>
    var users: map<UserRef, User>
    var byName: map<string, UserRef>
    var byId: map<nat, UserRef>
    var nextUser: UserRef
    var sent: seq<Action>

    ghost function Ix(): Index
      reads this
    {
      Index(conns, users, byName, byId, nextUser, sent)
    }

    constructor ()
      ensures Ix() == EMPTY
    {
      conns, users, byName, byId, nextUser, sent := map[], map[], map[], map[], 0, [];
    }

    method OnConnect(c: ConnRef, handle: nat)
      modifies this
      ensures Ix() == Connect(old(Ix()), c, handle)
    {
      conns := conns[c := Conn(handle, [], 0, false)];
    }

    method HandleLogin(c: ConnRef, name: string, available: bool, ghost ids: IdOf)
      requires Inv(Ix(), ids) && name != [] && Possible(Ix(), LoginRequest(c, name, available))
      modifies this
      ensures Ix() == Apply(old(Ix()), ids, LoginRequest(c, name, available))
    {
      if conns[c].login != [] {
        return;
      }
      if !available {
        CloseConn(c);
        return;
      }
      conns := conns[c := conns[c].(login := name)];
      if name !in byName {
        users := users[nextUser := User(name, 0, false, map[], {})];
        byName := byName[name := nextUser];
        nextUser := nextUser + 1;
      }
      var r := byName[name];
      users := users[r := users[r].(pending := users[r].pending + {c})];
    }

    method RemoveImUser(r: UserRef)
      requires r in users
      modifies this
      ensures Ix() == RemoveUser(old(Ix()), r)
    {
      byId := byId - {users[r].id};
      byName := byName - {users[r].login};
      users := users - {r};
    }

    method CloseConn(c: ConnRef)
      requires c in conns && MapsLive(Ix())
      modifies this
      ensures Ix() == Close(old(Ix()), c)
    {
      ghost var s := Ix();
      hide LeaveById, LeaveByName, MapsLive;
      LeaveByIdMaps(s, c);
      CloseById(c);
      CloseByName(c);
      conns := conns - {c};
    }

    method CloseById(c: ConnRef)
      requires c in conns && MapsLive(Ix())
      modifies this
      ensures Ix() == LeaveById(old(Ix()), c)
    {
      var k := conns[c];
      if k.user in byId {
        var r := byId[k.user];
        var u := users[r];
        u := u.(conns := u.conns - {k.handle});
        u := u.(pending := u.pending - {c});
        users := users[r := u];
        if k.open {
          sent := sent + [Dec];
        }
        if u.conns == map[] {
          RemoveImUser(r);
        }
      }
    }

    method CloseByName(c: ConnRef)
      requires c in conns && MapsLive(Ix())
      modifies this
      ensures Ix() == LeaveByName(old(Ix()), c)
    {
      var k := conns[c];
      if k.login in byName {
        var r := byName[k.login];
        users := users[r := users[r].(pending := users[r].pending - {c})];
        if users[r].conns == map[] {
          RemoveImUser(r);
        }
      }
    }

    /** GetUnValidateMsgConn: the loop over the waiting connections of one user. */
    method FindWaiting(r: UserRef, handle: nat, ghost ids: IdOf) returns (found: Option<ConnRef>)
      requires Inv(Ix(), ids) && r in users
      ensures found.Some? ==>
        found.value in users[r].pending && found.value in conns && conns[found.value].handle == handle
      ensures found.None? ==> forall c :: c in users[r].pending && c in conns ==> conns[c].handle != handle
    {
      var rest := users[r].pending;
      assert GoodUser(Ix(), ids, r);
      while rest != {}
        invariant rest <= users[r].pending
        invariant forall c :: c in users[r].pending && c in conns && conns[c].handle == handle ==> c in rest
        decreases |rest|
      {
        var c :| c in rest;
        if conns[c].handle == handle {
          return Some(c);
        }
        rest := rest - {c};
      }
      return None;
    }

    /** _HandleValidateResponse. */
    method HandleValidate(name: string, handle: nat, ok: bool, id: nat, ghost ids: IdOf)
      requires Inv(Ix(), ids) && id == ids(name) != 0
      modifies this
      ensures Ix() == Apply(old(Ix()), ids, ValidateResponse(name, handle, ok))
    {
      if name !in byName {
        return;
      }
      var r := byName[name];
      var found := FindWaiting(r, handle, ids);
      WaitingIs(Ix(), ids, name, handle, found);
      if found.None? || conns[found.value].open {
        return;
      }
      if ok {
        AcceptConn(r, found.value, id, ids);
      } else {
        CloseConn(found.value);
      }
    }

    method AcceptConn(r: UserRef, c: ConnRef, id: nat, ghost ids: IdOf)
      requires Inv(Ix(), ids) && r in users && c in conns && c in users[r].pending && id == ids(users[r].login) != 0
      modifies this
      ensures Ix() == Accept(old(Ix()), r, c, id)
    {
      hide GoodUsers, GoodConn, HandlesDistinct;
      IdFacts(Ix(), ids, r, id);
      var v := r;
      if id in byId {
        v := byId[id];
        users := users[v := users[v].(pending := users[v].pending + {c})];
        users := users[r := users[r].(pending := users[r].pending - {c})];
        if users[r].conns == map[] {
          byName := byName - {users[r].login};
          users := users - {r};
        }
      }
      GainConn(v, c, id);
    }

    /** The user takes the id and the connection opens under it. */
    method GainConn(v: UserRef, c: ConnRef, id: nat)
      requires v in users && c in conns
      modifies this
      ensures Ix() == Gain(old(Ix()), v, c, id)
    {
      users := users[v := users[v].(id := id, validated := true)];
      if id !in byId {
        byId := byId[id := v];
      }
      conns := conns[c := conns[c].(user := id, open := true)];
      sent := sent + [Inc];
      users := users[v := users[v].(conns := users[v].conns[conns[c].handle := c], pending := users[v].pending - {c})];
    }

    /** GetUserConn: the open connections of one user. */
    method CountUser(id: nat, ghost ids: IdOf) returns (count: nat)
      requires Inv(Ix(), ids) && id in byId
      ensures count == |OfUser(Ix(), id)|
    {
      HeldFacts(Ix(), ids, id);
      OfUserIs(Ix(), ids, id);
      count := CountOpen(conns, users[byId[id]].conns);
    }

    /** GetUserConnCnt: what the server reports when a login server confirms the link. */
    method GetUserConnCnt(ghost ids: IdOf) returns (total: nat)
      requires Inv(Ix(), ids)
      ensures total == |OpenConns(Ix())|
    {
      hide GoodUsers, GoodConn, HandlesDistinct, OfUser, OfUsers;
      var rest := byId.Keys;
      total := 0;
      OfNobody(Ix());
      assert byId.Keys - rest == {};
      while rest != {}
        invariant rest <= byId.Keys && total == |OfUsers(Ix(), byId.Keys - rest)|
        decreases |rest|
      {
        var id :| id in rest;
        HeldFacts(Ix(), ids, id);
        OfUsersStep(Ix(), byId.Keys - rest, id);
        if users[byId[id]].validated {
          var count := CountUser(id, ids);
          total := total + count;
        }
        assert byId.Keys - rest + {id} == byId.Keys - (rest - {id});
        rest := rest - {id};
      }
      assert byId.Keys - rest == byId.Keys;
      OfEverybody(Ix(), ids);
    }
  }

  /** The loop of GetUserConn. */
  method CountOpen(conns: map<ConnRef, Conn>, m: map<nat, ConnRef>) returns (count: nat)
    requires forall h :: h in m ==> m[h] in conns && conns[m[h]].handle == h
    ensures count == |Through(conns, m, m.Keys)|
  {
    hide Through;
    var rest := m.Keys;
    count := 0;
    ThroughNone(conns, m);
    assert m.Keys - rest == {};
    while rest != {}
      invariant rest <= m.Keys && count == |Through(conns, m, m.Keys - rest)|
      decreases |rest|
    {
      var h :| h in rest;
      ThroughStep(conns, m, m.Keys - rest, h);
      if conns[m[h]].open {
        count := count + 1;
      }
      assert m.Keys - rest + {h} == m.Keys - (rest - {h});
      rest := rest - {h};
    }
    assert m.Keys - rest == m.Keys;
  }

  ghost function OfUser(s: Index, id: nat): set<ConnRef> { set c | c in s.conns && s.conns[c].open && s.conns[c].user == id }

  ghost function OfUsers(s: Index, of: set<nat>): set<ConnRef> {
    set c | c in s.conns && s.conns[c].open && s.conns[c].user in of
  }

  lemma OfUsersStep(s: Index, of: set<nat>, id: nat)
    requires id !in of
    ensures |OfUsers(s, of + {id})| == |OfUsers(s, of)| + |OfUser(s, id)|
  {
    assert OfUsers(s, of + {id}) == OfUsers(s, of) + OfUser(s, id);
    assert OfUsers(s, of) !! OfUser(s, id);
  }

  lemma OfNobody(s: Index)
    ensures OfUsers(s, {}) == {}
  {}

  lemma OfEverybody(s: Index, ids: IdOf)
    requires Inv(s, ids)
    ensures OfUsers(s, s.byId.Keys) == OpenConns(s)
  {
    forall c | c in s.conns && s.conns[c].open
      ensures s.conns[c].user in s.byId
    {
      assert GoodConn(s, c);
    }
  }

  /** The open connections held under some handles. */
  ghost function Through(conns: map<ConnRef, Conn>, m: map<nat, ConnRef>, handles: set<nat>): set<ConnRef> {
    set h | h in handles && h in m && m[h] in conns && conns[m[h]].open :: m[h]
  }

  lemma ThroughNone(conns: map<ConnRef, Conn>, m: map<nat, ConnRef>)
    ensures Through(conns, m, {}) == {}
  {}

  lemma ThroughStep(conns: map<ConnRef, Conn>, m: map<nat, ConnRef>, handles: set<nat>, h: nat)
    requires forall g :: g in m ==> m[g] in conns && conns[m[g]].handle == g
    requires h in m && h !in handles
    ensures |Through(conns, m, handles + {h})| == |Through(conns, m, handles)| + if conns[m[h]].open then 1 else 0
  {
    assert Through(conns, m, handles + {h}) ==
      if conns[m[h]].open then Through(conns, m, handles) + {m[h]} else Through(conns, m, handles);
    assert m[h] !in Through(conns, m, handles);
  }

  lemma HeldFacts(s: Index, ids: IdOf, id: nat)
    requires Inv(s, ids) && id in s.byId
    ensures s.users[s.byId[id]].validated
    ensures forall h :: h in s.users[s.byId[id]].conns ==> var c := s.users[s.byId[id]].conns[h];
      c in s.conns && s.conns[c].open && s.conns[c].handle == h
  {
    assert GoodUser(s, ids, s.byId[id]);
  }

  lemma OfUserIs(s: Index, ids: IdOf, id: nat)
    requires Inv(s, ids) && id in s.byId
    ensures var m := s.users[s.byId[id]].conns; Through(s.conns, m, m.Keys) == OfUser(s, id)
  {
    var u := s.users[s.byId[id]];
    assert GoodUser(s, ids, s.byId[id]);
    forall c | c in OfUser(s, id)
      ensures c in Through(s.conns, u.conns, u.conns.Keys)
    {
      assert GoodConn(s, c);
      assert u.conns[s.conns[c].handle] == c;
    }
  }

  /** Handles being distinct, the search has at most one answer. */
  lemma WaitingIs(s: Index, ids: IdOf, name: string, handle: nat, found: Option<ConnRef>)
    requires Inv(s, ids) && name in s.byName
    requires found.Some? ==> found.value in s.users[s.byName[name]].pending
    requires found.Some? ==> found.value in s.conns && s.conns[found.value].handle == handle
    requires found.None? ==>
      forall c :: c in s.users[s.byName[name]].pending && c in s.conns ==> s.conns[c].handle != handle
    ensures Waiting(s, name, handle) == found
  {}
}
