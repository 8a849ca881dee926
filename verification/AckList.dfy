/** The list of messages a connection waits to see acknowledged (msg_server/MsgConn.cpp:278-290 and 961-984). */
module AckList {
  const TIMEOUT := 15000

  /** msg_ack_t. */
  datatype Entry = Entry(id: nat, from: nat, stamp: nat)

  predicate Expired(e: Entry, tick: nat) { tick >= e.stamp + TIMEOUT }

  /** In order of their time stamps, none later than `now`. */
  ghost predicate Ordered(pending: seq<Entry>, now: nat) {
    (forall i, j :: 0 <= i < j < |pending| ==> pending[i].stamp <= pending[j].stamp) &&
    forall i :: 0 <= i < |pending| ==> pending[i].stamp <= now
  }

  /** The entries still waiting after `tick`, wherever they stand. */
  function Waiting(pending: seq<Entry>, tick: nat): seq<Entry> {
    if pending == [] then []
    else (if Expired(pending[0], tick) then [] else [pending[0]]) + Waiting(pending[1..], tick)
  }

  /** The expired entries, wherever they stand. */
  function Missed(pending: seq<Entry>, tick: nat): seq<Entry> {
    if pending == [] then []
    else (if Expired(pending[0], tick) then [pending[0]] else []) + Missed(pending[1..], tick)
  }

  /** How many entries the sweep removes: it stops at the first entry that has not expired. */
  function Swept(pending: seq<Entry>, tick: nat): (k: nat)
    ensures k <= |pending|
    ensures forall i :: 0 <= i < k ==> Expired(pending[i], tick)
    ensures k < |pending| ==> !Expired(pending[k], tick)
  {
    if pending == [] || !Expired(pending[0], tick) then 0
    else
      var k := Swept(pending[1..], tick);
      assert forall i :: 0 < i < k + 1 ==> pending[i] == pending[1..][i - 1];
      1 + k
  }

  /** Taking out a run keeps the order. */
  lemma OrderedPart(pending: seq<Entry>, now: nat, a: nat, b: nat)
    requires Ordered(pending, now) && a <= b <= |pending|
    ensures Ordered(pending[..a] + pending[b..], now)
  {
    var p := pending[..a] + pending[b..];
    forall i | 0 <= i < |p|
      ensures p[i] == pending[if i < a then i else i + (b - a)]
    {}
  }

  lemma OrderedLater(pending: seq<Entry>, now: nat, later: nat)
    requires Ordered(pending, now) && now <= later
    ensures Ordered(pending, later)
  {}

  lemma OrderedAdd(pending: seq<Entry>, now: nat, e: Entry)
    requires Ordered(pending, now) && now <= e.stamp
    ensures Ordered(pending + [e], e.stamp)
  {}

  /** With ordered time stamps the early exit removes exactly the expired entries. */
  lemma {:induction false} SweptExact(pending: seq<Entry>, now: nat, tick: nat)
    requires Ordered(pending, now)
    ensures pending[Swept(pending, tick)..] == Waiting(pending, tick)
    ensures pending[..Swept(pending, tick)] == Missed(pending, tick)
  {
    hide Ordered, Expired;
    if pending == [] {
    } else if Expired(pending[0], tick) {
      OrderedPart(pending, now, 0, 1);
      assert pending[0..0] + pending[1..] == pending[1..];
      SweptExact(pending[1..], now, tick);
      TailSlices(pending, Swept(pending[1..], tick));
    } else {
      FirstWaits(pending, now, tick);
      NoneBehind(pending, tick);
    }
  }

  lemma TailSlices(pending: seq<Entry>, k: nat)
    requires k < |pending|
    ensures pending[..k + 1] == [pending[0]] + pending[1..][..k] && pending[k + 1..] == pending[1..][k..]
  {
  }

  lemma FirstWaits(pending: seq<Entry>, now: nat, tick: nat)
    requires Ordered(pending, now) && pending != [] && !Expired(pending[0], tick)
    ensures forall i :: 0 <= i < |pending| ==> !Expired(pending[i], tick)
  {}

  /** The early exit loses nothing: behind an entry that has not expired none has. */
  lemma {:induction false} NoneBehind(pending: seq<Entry>, tick: nat)
    requires forall i :: 0 <= i < |pending| ==> !Expired(pending[i], tick)
    ensures Waiting(pending, tick) == pending && Missed(pending, tick) == []
  {
    if pending != [] {
      NoneBehind(pending[1..], tick);
    }
  }

  lemma {:induction false} WaitingMembers(pending: seq<Entry>, tick: nat, e: Entry)
    ensures e in Waiting(pending, tick) <==> e in pending && !Expired(e, tick)
    ensures e in Missed(pending, tick) <==> e in pending && Expired(e, tick)
  {
    if pending != [] {
      WaitingMembers(pending[1..], tick, e);
      assert pending == [pending[0]] + pending[1..];
    }
  }

  /** Where the first entry of a message stands, or the length. */
  function Position(pending: seq<Entry>, id: nat, from: nat): (k: nat)
    ensures k <= |pending|
    ensures k < |pending| ==> pending[k].id == id && pending[k].from == from
    ensures forall i :: 0 <= i < k ==> !(pending[i].id == id && pending[i].from == from)
  {
    if pending == [] then 0
    else if pending[0].id == id && pending[0].from == from then 0
    else
      var k := Position(pending[1..], id, from);
      assert forall i :: 0 < i < k + 1 ==> pending[i] == pending[1..][i - 1];
      1 + k
  }

  function Without(pending: seq<Entry>, id: nat, from: nat): seq<Entry> {
    var k := Position(pending, id, from);
    if k < |pending| then pending[..k] + pending[k + 1..] else pending
  }

  /** The first entry that matches goes, and nothing else; without a match nothing does. */
  lemma AckFirst(pending: seq<Entry>, id: nat, from: nat, k: nat)
    requires k <= |pending| && forall i :: 0 <= i < k ==> !(pending[i].id == id && pending[i].from == from)
    ensures k == |pending| ==> Without(pending, id, from) == pending
    ensures k < |pending| && pending[k].id == id && pending[k].from == from ==>
              Without(pending, id, from) == pending[..k] + pending[k + 1..]
  {
    var j := Position(pending, id, from);
    assert k < |pending| && pending[k].id == id && pending[k].from == from ==> j == k;
  }

  // ---- Runs ----

  /** A connection's list and what became of the entries so far. */
  datatype Account = Account(
    pending: seq<Entry>, now: nat, added: seq<Entry>, acked: multiset<Entry>, missed: multiset<Entry>)

  datatype Event = Added(id: nat, from: nat, tick: nat) | Acked(id: nat, from: nat) | Timer(tick: nat)

  /** The clock does not go back. */
  predicate Possible(s: Account, e: Event) {
    match e
    case Added(_, _, tick) => s.now <= tick
    case Acked(_, _) => true
    case Timer(tick) => s.now <= tick
  }

  function Apply(s: Account, e: Event): Account {
    match e
    case Added(id, from, tick) =>
      s.(pending := s.pending + [Entry(id, from, tick)], added := s.added + [Entry(id, from, tick)], now := tick)
    case Acked(id, from) =>
      var k := Position(s.pending, id, from);
      s.(pending := Without(s.pending, id, from),
         acked := if k < |s.pending| then s.acked + multiset{s.pending[k]} else s.acked)
    case Timer(tick) =>
      var k := Swept(s.pending, tick);
      s.(pending := s.pending[k..], missed := s.missed + multiset(s.pending[..k]), now := tick)
  }

  /** Every entry added is acknowledged, missed or pending, and only one of them. */
  ghost predicate Inv(s: Account) {
    Ordered(s.pending, s.now) && multiset(s.added) == s.acked + s.missed + multiset(s.pending)
  }

  lemma ApplyInv(s: Account, e: Event)
    requires Inv(s) && Possible(s, e)
    ensures Inv(Apply(s, e))
  {
    hide Ordered;
    match e
    case Added(id, from, tick) =>
      OrderedAdd(s.pending, s.now, Entry(id, from, tick));
    case Acked(id, from) =>
      AckedInv(s, id, from);
    case Timer(tick) =>
      TimerInv(s, tick);
  }

  lemma AckedInv(s: Account, id: nat, from: nat)
    requires Inv(s)
    ensures Inv(Apply(s, Acked(id, from)))
  {
    hide Ordered;
    var k := Position(s.pending, id, from);
    if k < |s.pending| {
      var rest := s.pending[..k] + s.pending[k + 1..];
      Taken(s.pending, k);
      OrderedPart(s.pending, s.now, k, k + 1);
      assert Apply(s, Acked(id, from)) == s.(pending := rest, acked := s.acked + multiset{s.pending[k]});
    }
  }

  lemma TimerInv(s: Account, tick: nat)
    requires Inv(s) && s.now <= tick
    ensures Inv(Apply(s, Timer(tick)))
  {
    hide Ordered;
    var k := Swept(s.pending, tick);
    hide Swept;
    assert s.pending == s.pending[..k] + s.pending[k..];
    OrderedPart(s.pending, s.now, 0, k);
    assert s.pending[..0] + s.pending[k..] == s.pending[k..];
    OrderedLater(s.pending[k..], s.now, tick);
  }

  lemma Taken(pending: seq<Entry>, k: nat)
    requires k < |pending|
    ensures multiset(pending) == multiset(pending[..k] + pending[k + 1..]) + multiset{pending[k]}
  {
    assert pending == pending[..k] + [pending[k]] + pending[k + 1..];
  }

  function Run(s: Account, events: seq<Event>): (r: Account)
    decreases |events|
  {
    if events == [] then s else Run(Apply(s, events[0]), events[1..])
  }

  ghost predicate Timely(s: Account, events: seq<Event>)
    decreases |events|
  {
    events == [] || (Possible(s, events[0]) && Timely(Apply(s, events[0]), events[1..]))
  }

  /** added = acknowledged + missed + pending, after every run with a clock that does not go back. */
  lemma {:induction false} Conserved(s: Account, events: seq<Event>)
    requires Inv(s) && Timely(s, events)
    ensures Inv(Run(s, events))
    ensures var t := Run(s, events); |t.added| == |t.acked| + |t.missed| + |t.pending|
    decreases |events|
  {
    if events != [] {
      ApplyInv(s, events[0]);
      Conserved(Apply(s, events[0]), events[1..]);
    } else {
      assert |multiset(s.added)| == |s.acked + s.missed + multiset(s.pending)|;
    }
  }

  // ---- The connection's list ----

  class SendList {
    var pending: seq<Entry>
    var missCount: nat
    var totalCount: nat

    constructor ()
      ensures pending == [] && missCount == 0 && totalCount == 0
    {
      pending, missCount, totalCount := [], 0, 0;
    }

    /** AddToSendList. */
    method Add(id: nat, from: nat, tick: nat)
      modifies this
      ensures pending == old(pending) + [Entry(id, from, tick)]
      ensures totalCount == old(totalCount) + 1 && missCount == old(missCount)
    {
      pending := pending + [Entry(id, from, tick)];
      totalCount := totalCount + 1;
    }

    /** DelFromSendList: the first matching entry goes. */
    method Acknowledge(id: nat, from: nat)
      modifies this`pending
      ensures pending == Without(old(pending), id, from)
    {
      var i := 0;
      while i < |pending|
        invariant i <= Position(pending, id, from)
        invariant pending == old(pending)
      {
        var e := pending[i];
        if e.id == id && e.from == from {
          pending := pending[..i] + pending[i + 1..];
          return;
        }
        i := i + 1;
      }
    }

    /** The sweep of OnTimer stops at the first entry still waiting, yet removes every expired one. */
    method Sweep(tick: nat, ghost now: nat)
      requires Ordered(pending, now) && now <= tick
      modifies this`pending, this`missCount
      ensures pending == Waiting(old(pending), tick) == old(pending)[Swept(old(pending), tick)..]
      ensures missCount == old(missCount) + |Missed(old(pending), tick)|
    {
      ghost var all := pending;
      SweptExact(all, now, tick);
      ghost var k := 0;
      while pending != []
        invariant k <= Swept(all, tick) && pending == all[k..]
        invariant missCount == old(missCount) + k
        decreases |pending|
      {
        var e := pending[0];
        if tick >= e.stamp + TIMEOUT {
          missCount := missCount + 1;
          pending := pending[1..];
          k := k + 1;
        } else {
          break;
        }
      }
    }
  }
}
