/** The message server's route servers: reconnecting with back-off and electing a master connection
    (base/ServInfo.h:26-68, msg_server/RouteServConn.cpp:97-175). A connection is named by its slot: a slot keeps
    its connection until that connection closes. */
module RouteMaster {
  import opened Wrappers

  const MAX_RECONNECT := 64
  const MIN_RECONNECT := 4
  const NO_TIME := 0xffff_ffff_ffff_ffff

  datatype Conn = Conn(open: bool, time: nat)

  /** serv_info_t. */
  datatype Slot = Slot(conn: Option<Conn>, idle: nat, reconnect: nat)

  /** The server list, the master and the clock's last reading. */
  datatype List = List(slots: seq<Slot>, master: Option<nat>, now: nat)

  predicate Open(k: Slot) { k.conn.Some? && k.conn.value.open }

  // ---- Election ----

  /** The first open slot of least connect time among the first `n`. */
  function Oldest(slots: seq<Slot>, n: nat): (r: Option<nat>)
    requires n <= |slots|
    ensures r.Some? ==> r.value < n && Open(slots[r.value]) && slots[r.value].conn.value.time < NO_TIME
  {
    if n == 0 then None
    else
      var r := Oldest(slots, n - 1);
      var k := slots[n - 1];
      if Open(k) && k.conn.value.time < (if r.None? then NO_TIME else slots[r.value].conn.value.time)
      then Some(n - 1)
      else r
  }

  /** No master exactly when nothing is open, and otherwise an open connection of minimum connect time. */
  ghost predicate Elected(slots: seq<Slot>, master: Option<nat>) {
    match master
    case None => forall i :: 0 <= i < |slots| ==> !Open(slots[i])
    case Some(m) =>
      m < |slots| && Open(slots[m]) &&
      forall i :: 0 <= i < |slots| && Open(slots[i]) ==> slots[m].conn.value.time <= slots[i].conn.value.time
  }

  /** Open connections were confirmed at or before `now`. */
  ghost predicate Past(slots: seq<Slot>, now: nat) {
    forall i :: 0 <= i < |slots| && Open(slots[i]) ==> slots[i].conn.value.time <= now
  }

  lemma {:induction false} OldestLeast(slots: seq<Slot>, n: nat)
    requires n <= |slots| && Past(slots, NO_TIME - 1)
    ensures Oldest(slots, n).None? ==> forall i :: 0 <= i < n ==> !Open(slots[i])
    ensures Oldest(slots, n).Some? ==>
      forall i :: 0 <= i < n && Open(slots[i]) ==>
        slots[Oldest(slots, n).value].conn.value.time <= slots[i].conn.value.time
  {
    if n > 0 {
      OldestLeast(slots, n - 1);
    }
  }

  lemma OldestElected(slots: seq<Slot>)
    requires Past(slots, NO_TIME - 1)
    ensures Elected(slots, Oldest(slots, |slots|))
  {
    OldestLeast(slots, |slots|);
  }

  // ---- Back-off ----

  /** A power of two in [2, 64]. */
  predicate BackOff(n: nat) { n in {2, 4, 8, 16, 32, 64} }

  /** serv_reset. */
  function Reset(k: Slot): Slot {
    Slot(None, 0, if 2 * k.reconnect > MAX_RECONNECT then MIN_RECONNECT else 2 * k.reconnect)
  }

  /** One slot of serv_check_reconnect. */
  function Retry(k: Slot): Slot {
    if k.conn.Some? then k
    else Slot(if k.idle + 1 >= k.reconnect then Some(Conn(false, 0)) else None, k.idle + 1, k.reconnect)
  }

  /** A slot waiting to reconnect has not used up its back-off. */
  predicate GoodSlot(k: Slot) {
    BackOff(k.reconnect) && (k.conn.None? ==> k.idle < k.reconnect)
  }

  function RetryTimes(k: Slot, n: nat): Slot { if n == 0 then k else Retry(RetryTimes(k, n - 1)) }

  /** A closed slot reconnects on exactly the timer tick its back-off says. */
  lemma {:induction false} ReconnectsAfter(k: Slot, n: nat)
    requires BackOff(k.reconnect)
    ensures RetryTimes(Reset(k), n).reconnect == Reset(k).reconnect
    ensures RetryTimes(Reset(k), n).conn.None? <==> n < Reset(k).reconnect
    ensures RetryTimes(Reset(k), n).conn.None? ==> RetryTimes(Reset(k), n).idle == n
  {
    if n > 0 {
      ReconnectsAfter(k, n - 1);
    }
  }

  function Pow2(n: nat): nat { if n == 0 then 1 else 2 * Pow2(n - 1) }

  function ResetTimes(k: Slot, n: nat): Slot { if n == 0 then k else Reset(ResetTimes(k, n - 1)) }

  /** After a confirmed connection, n closes without another confirm give back-offs of 4, 8, 16, 32, 64 ticks, and then
      4 again. */
  lemma {:induction false} BackOffAfter(k: Slot, n: nat)
    requires k.reconnect == 2 && n >= 1
    ensures ResetTimes(k, n) == Slot(None, 0, Pow2(2 + (n - 1) % 5))
  {
    assert Pow2(2) == 4 && Pow2(3) == 8 && Pow2(4) == 16 && Pow2(5) == 32 && Pow2(6) == 64;
    if n == 1 {
      assert ResetTimes(k, 0) == k;
    } else {
      BackOffAfter(k, n - 1);
      var r := (n - 2) % 5;
      assert (n - 1) % 5 == if r == 4 then 0 else r + 1;
    }
  }

  // ---- Steps ----

  function Confirm(s: List, i: nat, tick: nat): List
    requires i < |s.slots|
  {
    var slots := s.slots[i := s.slots[i].(conn := Some(Conn(true, tick)), reconnect := MIN_RECONNECT / 2)];
    List(slots, if s.master.None? then Oldest(slots, |slots|) else s.master, tick)
  }

  function Close(s: List, i: nat): List
    requires i < |s.slots|
  {
    var slots := s.slots[i := Reset(s.slots[i])];
    s.(slots := slots, master := if s.master == Some(i) then Oldest(slots, |slots|) else s.master)
  }

  function Tick(s: List): List { s.(slots := seq(|s.slots|, i requires 0 <= i < |s.slots| => Retry(s.slots[i]))) }

  function Start(count: nat): List { List(seq(count, _ => Slot(Some(Conn(false, 0)), 0, MIN_RECONNECT / 2)), None, 0) }

  ghost predicate Inv(s: List) {
    s.now < NO_TIME && Past(s.slots, s.now) && Elected(s.slots, s.master) &&
    forall i :: 0 <= i < |s.slots| ==> GoodSlot(s.slots[i])
  }

  datatype Event = Confirmed(i: nat, tick: nat) | Closed(i: nat) | Timer

  /** A connection confirms once and closes once; the clock does not go back. */
  predicate Possible(s: List, e: Event) {
    match e
    case Confirmed(i, tick) => i < |s.slots| && s.slots[i].conn.Some? && !Open(s.slots[i]) && s.now <= tick < NO_TIME
    case Closed(i) => i < |s.slots| && s.slots[i].conn.Some?
    case Timer => true
  }

  function Apply(s: List, e: Event): List
    requires Possible(s, e)
  {
    match e
    case Confirmed(i, tick) => Confirm(s, i, tick)
    case Closed(i) => Close(s, i)
    case Timer => Tick(s)
  }

  lemma ConfirmInv(s: List, i: nat, tick: nat)
    requires Inv(s) && Possible(s, Confirmed(i, tick))
    ensures Inv(Confirm(s, i, tick))
  {
    var t := Confirm(s, i, tick);
    if s.master.None? {
      OldestElected(t.slots);
    }
  }

  lemma CloseInv(s: List, i: nat)
    requires Inv(s) && Possible(s, Closed(i))
    ensures Inv(Close(s, i))
  {
    var t := Close(s, i);
    if s.master == Some(i) {
      OldestElected(t.slots);
    }
  }

  lemma TickInv(s: List)
    requires Inv(s)
    ensures Inv(Tick(s))
  {
    var t := Tick(s);
    forall i | 0 <= i < |s.slots|
      ensures GoodSlot(t.slots[i]) && Open(t.slots[i]) == Open(s.slots[i])
      ensures Open(t.slots[i]) ==> t.slots[i] == s.slots[i]
    {
      assert t.slots[i] == Retry(s.slots[i]);
    }
  }

  function Run(s: List, events: seq<Event>): Option<List>
    decreases |events|
  {
    if events == [] then Some(s)
    else if !Possible(s, events[0]) then None
    else Run(Apply(s, events[0]), events[1..])
  }

  lemma {:induction false} RunInv(s: List, events: seq<Event>)
    requires Inv(s) && Run(s, events).Some?
    ensures Inv(Run(s, events).value)
    decreases |events|
  {
    if events != [] {
      match events[0] {
        case Confirmed(i, tick) => ConfirmInv(s, i, tick);
        case Closed(i) => CloseInv(s, i);
        case Timer => TickInv(s);
      }
      RunInv(Apply(s, events[0]), events[1..]);
    }
  }

  function Ticks(n: nat): seq<Event> { seq(n, _ => Timer) }

  lemma {:induction false} TicksRun(s: List, i: nat, n: nat)
    requires i < |s.slots|
    ensures Run(s, Ticks(n)).Some? && |Run(s, Ticks(n)).value.slots| == |s.slots|
    ensures Run(s, Ticks(n)).value.slots[i] == RetryTimes(s.slots[i], n)
    decreases n
  {
    if n > 0 {
      assert Ticks(n)[0] == Timer && Ticks(n)[1..] == Ticks(n - 1);
      TicksRun(Tick(s), i, n - 1);
      RetryFirst(s.slots[i], n);
    } else {
      assert Ticks(0) == [];
    }
  }

  lemma {:induction false} RetryFirst(k: Slot, n: nat)
    requires n > 0
    ensures RetryTimes(k, n) == RetryTimes(Retry(k), n - 1)
  {
    if n > 1 {
      RetryFirst(k, n - 1);
    } else {
      assert RetryTimes(k, 0) == k;
    }
  }

  /** A closed server is connected to again on exactly the timer tick its back-off says. */
  lemma ReconnectsOnTime(s: List, i: nat, n: nat)
    requires i < |s.slots| && BackOff(s.slots[i].reconnect)
    ensures Run(Close(s, i), Ticks(n)).Some? && i < |Run(Close(s, i), Ticks(n)).value.slots|
    ensures Run(Close(s, i), Ticks(n)).value.slots[i].conn.None? <==>
              n < if s.slots[i].reconnect == 64 then 4 else 2 * s.slots[i].reconnect
  {
    TicksRun(Close(s, i), i, n);
    ReconnectsAfter(s.slots[i], n);
  }

  /** A confirmed connection has the shortest back-off behind it: once it closes, the server is connected to again on
      the fourth tick. */
  lemma ConfirmShortens(s: List, i: nat, tick: nat, n: nat)
    requires i < |s.slots|
    ensures Run(Close(Confirm(s, i, tick), i), Ticks(n)).Some?
    ensures i < |Run(Close(Confirm(s, i, tick), i), Ticks(n)).value.slots|
    ensures Run(Close(Confirm(s, i, tick), i), Ticks(n)).value.slots[i].conn.None? <==> n < 4
  {
    ReconnectsOnTime(Confirm(s, i, tick), i, n);
  }

  /** When the connection in slot i was confirmed, if it is open after the events; `was` is the time before them. */
  function ConfirmedAt(was: Option<nat>, events: seq<Event>, i: nat): Option<nat>
    decreases |events|
  {
    if events == [] then was
    else
      var now := match events[0]
        case Confirmed(j, tick) => if j == i then Some(tick) else was
        case Closed(j) => if j == i then None else was
        case Timer => was;
      ConfirmedAt(now, events[1..], i)
  }

  function OpenTime(k: Slot): Option<nat> { if Open(k) then Some(k.conn.value.time) else None }

  /** A slot is open exactly from its confirm to its close, with the time of that confirm. */
  lemma {:induction false} OpenSince(s: List, events: seq<Event>, i: nat)
    requires i < |s.slots| && Run(s, events).Some?
    ensures i < |Run(s, events).value.slots|
    ensures OpenTime(Run(s, events).value.slots[i]) == ConfirmedAt(OpenTime(s.slots[i]), events, i)
    decreases |events|
  {
    if events != [] {
      var t := Apply(s, events[0]);
      assert events[0].Timer? ==> t.slots[i] == Retry(s.slots[i]);
      OpenSince(t, events[1..], i);
    }
  }

  /** After every run of confirms, closes and timer ticks the election is right and every back-off is a power of two
      in [2, 64]. */
  lemma MasterElection(count: nat, events: seq<Event>)
    requires Run(Start(count), events).Some?
    ensures var s := Run(Start(count), events).value;
      Elected(s.slots, s.master) && forall i :: 0 <= i < |s.slots| ==> BackOff(s.slots[i].reconnect)
  {
    RunInv(Start(count), events);
  }

  /** The master is a connection confirmed before or with all others that are open; there is none only if nothing is. */
  lemma OldestIsMaster(count: nat, events: seq<Event>)
    requires Run(Start(count), events).Some?
    ensures var m := Run(Start(count), events).value.master;
      if m.Some? then
        ConfirmedAt(None, events, m.value).Some? &&
        forall i: nat :: i < count && ConfirmedAt(None, events, i).Some? ==>
          ConfirmedAt(None, events, m.value).value <= ConfirmedAt(None, events, i).value
      else forall i: nat :: i < count ==> ConfirmedAt(None, events, i).None?
  {
    hide ConfirmedAt, Run;
    MasterElection(count, events);
    SlotCount(Start(count), events);
    var s := Run(Start(count), events).value;
    forall i: nat | i < count
      ensures OpenTime(s.slots[i]) == ConfirmedAt(None, events, i)
    {
      OpenSince(Start(count), events, i);
    }
  }

  lemma {:induction false} SlotCount(s: List, events: seq<Event>)
    requires Run(s, events).Some?
    ensures |Run(s, events).value.slots| == |s.slots|
    decreases |events|
  {
    if events != [] {
      SlotCount(Apply(s, events[0]), events[1..]);
    }
  }

  // ---- The server's globals ----

  class RouteServers {
    const slots: array<Slot>
    var master: Option<nat>
    ghost var now: nat

    ghost function View(): List
      reads this, slots
    {
      List(slots[..], master, now)
    }

    /** serv_init. */
    constructor (count: nat)
      ensures View() == Start(count) && fresh(slots)
    {
      var a := new Slot[count] (_ => Slot(None, 0, 0));
      slots := a;
      master, now := None, 0;
      new;
      for i := 0 to count
        invariant forall j :: 0 <= j < i ==> a[j] == Slot(Some(Conn(false, 0)), 0, MIN_RECONNECT / 2)
        invariant a == slots && master == None && now == 0
      {
        a[i] := Slot(Some(Conn(false, 0)), 0, MIN_RECONNECT / 2);
      }
    }

    method CheckReconnect()
      modifies slots
      ensures View() == Tick(old(View()))
    {
      for i := 0 to slots.Length
        invariant forall j :: 0 <= j < i ==> slots[j] == Retry(old(slots[..])[j])
        invariant forall j :: i <= j < slots.Length ==> slots[j] == old(slots[..])[j]
      {
        var k := slots[i];
        if k.conn.None? {
          k := k.(idle := k.idle + 1);
          if k.idle >= k.reconnect {
            k := k.(conn := Some(Conn(false, 0)));
          }
          slots[i] := k;
        }
      }
      assert View().slots == Tick(old(View())).slots;
    }

    method UpdateMaster()
      modifies this`master
      ensures master == Oldest(slots[..], slots.Length)
    {
      var least := NO_TIME;
      var oldest: Option<nat> := None;
      for i := 0 to slots.Length
        invariant oldest == Oldest(slots[..], i)
        invariant least == if oldest.None? then NO_TIME else slots[oldest.value].conn.value.time
      {
        var k := slots[i];
        if k.conn.Some? && k.conn.value.open && k.conn.value.time < least {
          oldest := Some(i);
          least := k.conn.value.time;
        }
      }
      master := oldest;
    }

    method CloseConn(i: nat)
      requires i < slots.Length
      modifies this`master, slots
      ensures View() == Close(old(View()), i)
    {
      var k := slots[i];
      k := k.(conn := None, idle := 0, reconnect := k.reconnect * 2);
      if k.reconnect > MAX_RECONNECT {
        k := k.(reconnect := MIN_RECONNECT);
      }
      slots[i] := k;
      assert slots[..] == old(slots[..])[i := Reset(old(slots[..])[i])];
      if master == Some(i) {
        UpdateMaster();
      }
    }

    method OnConfirm(i: nat, tick: nat)
      requires i < slots.Length
      modifies this, slots
      ensures View() == Confirm(old(View()), i, tick)
    {
      slots[i] := slots[i].(conn := Some(Conn(true, tick)), reconnect := MIN_RECONNECT / 2);
      now := tick;
      assert slots[..] ==
        old(slots[..])[i := old(slots[..])[i].(conn := Some(Conn(true, tick)), reconnect := MIN_RECONNECT / 2)];
      if master.None? {
        UpdateMaster();
      }
    }
  }
}
