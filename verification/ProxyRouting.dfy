/** The hand-off between the main thread and the workers of the database proxy
    (db_proxy_server/ProxyConn.cpp, ProxyTask.cpp, base/ThreadPool.cpp), as a machine of atomic steps.
    Connections are named by the order in which they were created; socket handles are reused by the
    operating system, and responses find their connection only by its 32-bit uuid. */
module ProxyRouting {
  import opened Bytes
  import opened Wrappers

  type ConnId = nat

  // ---- The uuid allocator ----

  /** The constructor: ++s_uuid_alloctor, once more if it came out as zero. */
  function Allocate(counter: Uint32): Uint32 {
    var next := (counter + 1) % TWO32;
    if next == 0 then 1 else next
  }

  /** The counter after n connections have been made. */
  function Counter(n: nat): Uint32 { if n == 0 then 0 else Allocate(Counter(n - 1)) }

  /** The uuid of the n-th connection. */
  function UuidOf(n: ConnId): Uint32 { Counter(n + 1) }

  const PERIOD: nat := TWO32 - 1

  lemma ModIs(n: int, q: int, r: int)
    requires n == q * PERIOD + r && 0 <= r < PERIOD
    ensures n % PERIOD == r
  {
  }

  lemma AllocateIs(counter: Uint32)
    ensures Allocate(counter) == if counter == PERIOD then 1 else counter + 1
  {
  }

  lemma {:induction false} UuidForm(n: ConnId)
    ensures UuidOf(n) == n % PERIOD + 1
  {
    hide Allocate;
    if n == 0 {
      AllocateIs(0);
    } else {
      UuidForm(n - 1);
      var q, r := (n - 1) / PERIOD, (n - 1) % PERIOD;
      AllocateIs(r + 1);
      if r == PERIOD - 1 {
        ModIs(n, q + 1, 0);
      } else {
        ModIs(n, q, r + 1);
      }
    }
  }

  /** Two connections share a uuid exactly when a multiple of 2^32 - 1 connections lies between them. */
  lemma UuidCollision(m: ConnId, n: ConnId)
    requires m <= n
    ensures UuidOf(m) == UuidOf(n) <==> (n - m) % PERIOD == 0
  {
    hide UuidOf;
    UuidForm(m);
    UuidForm(n);
    var q, rm, rn := n / PERIOD - m / PERIOD, m % PERIOD, n % PERIOD;
    if rm <= rn {
      ModIs(n - m, q, rn - rm);
    } else {
      ModIs(n - m, q - 1, PERIOD + rn - rm);
    }
  }

  // ---- The machine ----

  /** A request read from a connection; `origin` and `request` are not known to the program. */
  datatype Task = Task(uuid: Uint32, request: nat, origin: ConnId)

  /** A response; no payload asks for the connection to be closed. */
  datatype Response = Response(uuid: Uint32, payload: Option<nat>, cause: Task)

  /** A worker's queue and the task it is running, with the history of both. */
  datatype Worker = Worker(queue: seq<Task>, running: Option<Task>, pushed: seq<Task>, started: seq<Task>)

  datatype Delivery = Delivery(conn: ConnId, handle: nat, response: Response)

  datatype State = State(
    counter: Uint32, uuids: seq<Uint32>,       // s_uuid_alloctor, and m_uuid of every connection ever made
    handleMap: map<nat, ConnId>, uuidMap: map<Uint32, ConnId>, handleOf: map<ConnId, nat>,
    workers: seq<Worker>, requests: nat,
    responses: seq<Response>, inHand: Option<Response>,
    delivered: seq<Delivery>)

  datatype Action =
    | Accept(handle: nat)                      // a new connection on a handle the system considers free
    | Close(handle: nat)                       // CProxyConn::Close
    | Receive(handle: nat, worker: nat)        // HandlePduBuf with a handler: push to a random worker
    | Take(worker: nat)                        // a worker pops the front of its queue
    | Respond(worker: nat, payload: Option<nat>)  // the handler of the running task calls AddResponsePdu
    | Finish(worker: nat)
    | Pop                                      // the main loop pops a response under the lock
    | Deliver                                  // and, the lock released, looks up the connection

  /** The main thread does nothing else between popping a response and delivering it. */
  predicate MainIdle(s: State) { s.inHand == None }

  /** Close erases the handle, then the uuid. */
  function DropConn(s: State, c: ConnId, handle: nat): State {
    s.(handleMap := s.handleMap - {handle}, uuidMap := s.uuidMap - {UuidAt(s, c)}, handleOf := s.handleOf - {c})
  }

  function UuidAt(s: State, c: ConnId): Uint32 { if c < |s.uuids| then s.uuids[c] else 0 }

  function Apply(s: State, a: Action): State {
    match a
    case Accept(handle) =>
      if !MainIdle(s) || handle in s.handleMap then s
      else
        var uuid := Allocate(s.counter);
        // insert keeps an existing entry
        var c := |s.uuids|;
        var byUuid := if uuid in s.uuidMap then s.uuidMap else s.uuidMap[uuid := c];
        s.(counter := uuid, uuids := s.uuids + [uuid], uuidMap := byUuid,
           handleMap := s.handleMap[handle := c], handleOf := s.handleOf[c := handle])
    case Close(handle) =>
      if !MainIdle(s) || handle !in s.handleMap then s else DropConn(s, s.handleMap[handle], handle)
    case Receive(handle, w) =>
      if !MainIdle(s) || handle !in s.handleMap || w >= |s.workers| then s
      else
        var c := s.handleMap[handle];
        var task := Task(UuidAt(s, c), s.requests, c);
        var k := s.workers[w];
        s.(requests := s.requests + 1,
           workers := s.workers[w := k.(queue := k.queue + [task], pushed := k.pushed + [task])])
    case Take(w) =>
      if w >= |s.workers| || s.workers[w].running != None || s.workers[w].queue == [] then s
      else
        var k := s.workers[w];
        s.(workers := s.workers[w := k.(queue := k.queue[1..], running := Some(k.queue[0]),
                                        started := k.started + [k.queue[0]])])
    case Respond(w, payload) =>
      if w >= |s.workers| || s.workers[w].running == None then s
      else
        var task := s.workers[w].running.value;
        s.(responses := s.responses + [Response(task.uuid, payload, task)])
    case Finish(w) =>
      if w >= |s.workers| then s else s.(workers := s.workers[w := s.workers[w].(running := None)])
    case Pop =>
      if !MainIdle(s) || s.responses == [] then s
      else s.(inHand := Some(s.responses[0]), responses := s.responses[1..])
    case Deliver =>
      if s.inHand == None then s
      else
        var r := s.inHand.value;
        var t := s.(inHand := None);
        if r.uuid !in s.uuidMap then t
        else
          var c := s.uuidMap[r.uuid];
          if c !in s.handleOf then t
          else if r.payload.Some? then t.(delivered := t.delivered + [Delivery(c, s.handleOf[c], r)])
          else DropConn(t, c, s.handleOf[c])
  }

  function Run(s: State, actions: seq<Action>): State {
    if actions == [] then s else Apply(Run(s, actions[..|actions| - 1]), actions[|actions| - 1])
  }

  function Initial(workers: nat): State {
    State(0, [], map[], map[], map[], seq(workers, _ => Worker([], None, [], [])), 0, [], None, [])
  }

  // ---- Invariants ----

  /** A task carries the uuid of the connection it came from. */
  predicate GoodTask(s: State, t: Task) {
    t.origin < |s.uuids| && t.uuid == s.uuids[t.origin] && t.request < s.requests
  }

  predicate GoodResponse(s: State, r: Response) { r.uuid == r.cause.uuid && GoodTask(s, r.cause) }

  predicate GoodWorker(s: State, k: Worker) {
    (forall i :: 0 <= i < |k.pushed| ==> GoodTask(s, k.pushed[i])) &&
    k.started + k.queue == k.pushed &&
    (k.running.Some? ==> GoodTask(s, k.running.value))
  }

  /** The connection that owns a socket handle at the moment. */
  predicate Owns(s: State, c: ConnId, handle: nat) {
    c in s.handleOf && s.handleOf[c] == handle && handle in s.handleMap && s.handleMap[handle] == c
  }

  /** A connection found by uuid still owns its handle, so nothing is written to a reused handle. */
  predicate GoodMaps(s: State) {
    (forall u :: u in s.uuidMap ==>
       s.uuidMap[u] < |s.uuids| && s.uuids[s.uuidMap[u]] == u && s.uuidMap[u] in s.handleOf) &&
    (forall h :: h in s.handleMap ==> s.handleMap[h] < |s.uuids| && Owns(s, s.handleMap[h], h)) &&
    (forall c :: c in s.handleOf ==> c < |s.uuids| && Owns(s, c, s.handleOf[c]))
  }

  predicate GoodCounter(s: State) {
    s.counter == Counter(|s.uuids|) && forall c :: 0 <= c < |s.uuids| ==> s.uuids[c] == UuidOf(c)
  }

  predicate Inv(s: State) {
    GoodCounter(s) && GoodMaps(s) &&
    (forall w :: 0 <= w < |s.workers| ==> GoodWorker(s, s.workers[w])) &&
    (forall i :: 0 <= i < |s.responses| ==> GoodResponse(s, s.responses[i])) &&
    (s.inHand.Some? ==> GoodResponse(s, s.inHand.value))
  }

  /** A response has reached only the connection whose request produced it. */
  predicate Routed(s: State) {
    forall i :: 0 <= i < |s.delivered| ==> s.delivered[i].conn == s.delivered[i].response.cause.origin
  }

  lemma ApplyCounter(s: State, a: Action)
    requires GoodCounter(s)
    ensures GoodCounter(Apply(s, a))
  {
  }

  lemma DropMaps(s: State, c: ConnId, handle: nat)
    requires GoodMaps(s) && Owns(s, c, handle) && c < |s.uuids|
    ensures GoodMaps(DropConn(s, c, handle))
  {
  }

  lemma AcceptMaps(s: State, handle: nat, uuid: Uint32)
    requires GoodMaps(s) && handle !in s.handleMap
    ensures var c := |s.uuids|;
            GoodMaps(s.(counter := uuid, uuids := s.uuids + [uuid],
                        uuidMap := if uuid in s.uuidMap then s.uuidMap else s.uuidMap[uuid := c],
                        handleMap := s.handleMap[handle := c], handleOf := s.handleOf[c := handle]))
  {
  }

  lemma ApplyMaps(s: State, a: Action)
    requires GoodMaps(s)
    ensures GoodMaps(Apply(s, a))
  {
    hide Allocate, DropConn;
    match a
    case Accept(handle) =>
      if MainIdle(s) && handle !in s.handleMap {
        AcceptMaps(s, handle, Allocate(s.counter));
      }
    case Close(handle) =>
      if handle in s.handleMap {
        DropMaps(s, s.handleMap[handle], handle);
      }
    case Deliver =>
      if s.inHand.Some? && s.inHand.value.uuid in s.uuidMap {
        var c := s.uuidMap[s.inHand.value.uuid];
        DropMaps(s.(inHand := None), c, s.handleOf[c]);
      }
    case _ =>
  }

  /** Connections and requests only accumulate, and one action touches one worker. */
  lemma Grows(s: State, a: Action, w: nat)
    requires w < |s.workers|
    ensures var t := Apply(s, a);
            s.uuids <= t.uuids && s.requests <= t.requests && |t.workers| == |s.workers| &&
            (t.workers[w] != s.workers[w] ==> (a.Receive? || a.Take? || a.Finish?) && a.worker == w)
  {
    hide Allocate;
  }

  lemma WorkerStable(s: State, t: State, k: Worker)
    requires GoodWorker(s, k) && s.uuids <= t.uuids && s.requests <= t.requests
    ensures GoodWorker(t, k)
  {
    assert forall x :: GoodTask(s, x) ==> GoodTask(t, x);
  }

  lemma PushKeeps(s: State, k: Worker, task: Task)
    requires GoodWorker(s, k) && GoodTask(s, task)
    ensures GoodWorker(s, k.(queue := k.queue + [task], pushed := k.pushed + [task]))
  {
    assert k.started + (k.queue + [task]) == k.pushed + [task];
  }

  lemma TakeKeeps(s: State, k: Worker)
    requires GoodWorker(s, k) && k.queue != []
    ensures GoodWorker(s, k.(queue := k.queue[1..], running := Some(k.queue[0]), started := k.started + [k.queue[0]]))
  {
    assert k.started + k.queue == k.started + [k.queue[0]] + k.queue[1..];
    assert k.pushed[|k.started|] == k.queue[0];
  }

  lemma ApplyWorker(s: State, a: Action, w: nat)
    requires Inv(s) && w < |s.workers|
    ensures |Apply(s, a).workers| == |s.workers| && GoodWorker(Apply(s, a), Apply(s, a).workers[w])
  {
    hide GoodCounter, GoodWorker, Allocate, DropConn;
    var t, k := Apply(s, a), s.workers[w];
    Grows(s, a, w);
    WorkerStable(s, t, k);
    if t.workers[w] != k {
      if a.Receive? {
        PushKeeps(t, k, Task(UuidAt(s, s.handleMap[a.handle]), s.requests, s.handleMap[a.handle]));
      } else if a.Take? {
        TakeKeeps(t, k);
      } else {
        IdleKeeps(t, k);
      }
    }
  }

  lemma IdleKeeps(s: State, k: Worker)
    requires GoodWorker(s, k)
    ensures GoodWorker(s, k.(running := None))
  {
  }

  lemma ApplyResponses(s: State, a: Action)
    requires Inv(s)
    ensures var t := Apply(s, a);
            (forall i :: 0 <= i < |t.responses| ==> GoodResponse(t, t.responses[i])) &&
            (t.inHand.Some? ==> GoodResponse(t, t.inHand.value))
  {
    hide GoodCounter, GoodMaps, Allocate;
  }

  lemma ApplyInv(s: State, a: Action)
    requires Inv(s)
    ensures Inv(Apply(s, a))
  {
    hide Apply, GoodWorker, GoodResponse, GoodCounter, GoodMaps;
    ApplyCounter(s, a);
    ApplyMaps(s, a);
    ApplyResponses(s, a);
    forall w | 0 <= w < |s.workers|
      ensures |Apply(s, a).workers| == |s.workers| && GoodWorker(Apply(s, a), Apply(s, a).workers[w])
    {
      ApplyWorker(s, a, w);
    }
    SameWorkers(s, a);
  }

  lemma SameWorkers(s: State, a: Action)
    ensures |Apply(s, a).workers| == |s.workers| && |s.uuids| <= |Apply(s, a).uuids|
  {
  }

  /** The connection a response finds is the one its request came from. */
  lemma RightOwner(s: State)
    requires Inv(s) && |s.uuids| <= PERIOD && s.inHand.Some? && s.inHand.value.uuid in s.uuidMap
    ensures s.uuidMap[s.inHand.value.uuid] == s.inHand.value.cause.origin
  {
    hide Counter, UuidOf;
    var r := s.inHand.value;
    var c, d := s.uuidMap[r.uuid], r.cause.origin;
    assert UuidOf(c) == UuidOf(d);
    if c <= d {
      UuidCollision(c, d);
    } else {
      UuidCollision(d, c);
    }
  }

  lemma ApplyRouted(s: State, a: Action)
    requires Inv(s) && Routed(s) && |s.uuids| <= PERIOD
    ensures Routed(Apply(s, a))
  {
    hide Inv, Allocate;
    if a.Deliver? && s.inHand.Some? && s.inHand.value.uuid in s.uuidMap {
      RightOwner(s);
    }
  }

  /** Response routing: over every interleaving of accepts, closes, handle reuse, worker steps and
      main-loop drains in which at most 2^32 - 1 connections are ever made, every response that is
      sent reaches the connection whose request produced it; and each worker has started its tasks
      in the order they were pushed, each once. */
  lemma {:induction false} ResponseRouting(workers: nat, actions: seq<Action>)
    requires |Run(Initial(workers), actions).uuids| <= PERIOD
    ensures var s := Run(Initial(workers), actions);
            Inv(s) && Routed(s) && |s.workers| == workers &&
            forall w :: 0 <= w < workers ==> s.workers[w].started <= s.workers[w].pushed
  {
    hide Apply;
    if actions != [] {
      var before := actions[..|actions| - 1];
      var s, a := Run(Initial(workers), before), actions[|actions| - 1];
      SameWorkers(s, a);
      ResponseRouting(workers, before);
      ApplyInv(s, a);
      ApplyRouted(s, a);
    }
  }

  // ---- No task runs twice ----

  /** Every request number occurs at most once in all that was ever pushed. */
  predicate Distinct(s: State) {
    forall v, w, i, j ::
      (0 <= v < |s.workers| && 0 <= w < |s.workers| && 0 <= i < |s.workers[v].pushed| &&
       0 <= j < |s.workers[w].pushed| && s.workers[v].pushed[i].request == s.workers[w].pushed[j].request)
      ==> v == w && i == j
  }

  lemma ApplyDistinct(s: State, a: Action)
    requires Inv(s) && Distinct(s)
    ensures Distinct(Apply(s, a))
  {
    hide Apply, Inv;
    SameWorkers(s, a);
    if Pushes(s, a) {
      PushDistinct(s, a);
    } else {
      forall w | 0 <= w < |s.workers|
        ensures Apply(s, a).workers[w].pushed == s.workers[w].pushed
      {
        NoPush(s, a, w);
      }
    }
  }

  predicate Pushes(s: State, a: Action) {
    a.Receive? && MainIdle(s) && a.handle in s.handleMap && a.worker < |s.workers|
  }

  lemma NoPush(s: State, a: Action, w: nat)
    requires w < |s.workers| && !Pushes(s, a)
    ensures |Apply(s, a).workers| == |s.workers| && Apply(s, a).workers[w].pushed == s.workers[w].pushed
  {
    hide Allocate;
  }

  lemma PushDistinct(s: State, a: Action)
    requires Inv(s) && Distinct(s) && Pushes(s, a)
    ensures Distinct(Apply(s, a))
  {
    hide GoodCounter, GoodMaps, UuidAt;
    var t := Apply(s, a);
    forall w, i | 0 <= w < |s.workers| && 0 <= i < |s.workers[w].pushed|
      ensures s.workers[w].pushed[i].request < s.requests
    {
      assert GoodWorker(s, s.workers[w]);
    }
    assert t.workers[a.worker].pushed[..|s.workers[a.worker].pushed|] == s.workers[a.worker].pushed;
  }

  lemma {:induction false} RunsAtMostOnce(workers: nat, actions: seq<Action>)
    ensures var s := Run(Initial(workers), actions); Inv(s) && Distinct(s)
  {
    hide Apply;
    if actions != [] {
      var before := actions[..|actions| - 1];
      RunsAtMostOnce(workers, before);
      ApplyInv(Run(Initial(workers), before), actions[|actions| - 1]);
      ApplyDistinct(Run(Initial(workers), before), actions[|actions| - 1]);
    }
  }

  // ---- Every response is answered ----

  /** An open connection is the one found under its uuid. */
  predicate GoodBack(s: State) {
    forall c :: c in s.handleOf ==> c < |s.uuids| && s.uuids[c] in s.uuidMap && s.uuidMap[s.uuids[c]] == c
  }

  /** Among the first 2^32 - 1 connections uuids are unique. */
  lemma UniqueUuids(s: State, c: ConnId, d: ConnId)
    requires GoodCounter(s) && |s.uuids| <= PERIOD && c < |s.uuids| && d < |s.uuids| && s.uuids[c] == s.uuids[d]
    ensures c == d
  {
    hide Counter, UuidOf;
    if c <= d {
      UuidCollision(c, d);
    } else {
      UuidCollision(d, c);
    }
  }

  lemma DropBack(s: State, c: ConnId, handle: nat)
    requires GoodCounter(s) && GoodMaps(s) && GoodBack(s) && |s.uuids| <= PERIOD && Owns(s, c, handle) && c < |s.uuids|
    ensures GoodBack(DropConn(s, c, handle))
  {
    var t := DropConn(s, c, handle);
    forall d | d in t.handleOf
      ensures s.uuids[d] in t.uuidMap && t.uuidMap[s.uuids[d]] == d
    {
      if s.uuids[d] == s.uuids[c] {
        UniqueUuids(s, c, d);
      }
    }
  }

  lemma AcceptBack(s: State, handle: nat)
    requires GoodCounter(s) && GoodMaps(s) && GoodBack(s) && |s.uuids| < PERIOD && MainIdle(s) && handle !in s.handleMap
    ensures var t, c := Apply(s, Accept(handle)), |s.uuids|;
            GoodBack(t) && |t.uuids| == c + 1 && t.handleOf == s.handleOf[c := handle]
  {
    var t, c := Apply(s, Accept(handle)), |s.uuids|;
    ApplyCounter(s, Accept(handle));
    assert t.uuids[c] == Allocate(s.counter);
    if t.uuids[c] in s.uuidMap {
      var d := s.uuidMap[t.uuids[c]];
      assert t.uuids[d] == t.uuids[c];
      UniqueUuids(t, c, d);
    }
  }

  lemma ApplyBack(s: State, a: Action)
    requires GoodCounter(s) && GoodMaps(s) && GoodBack(s) && |Apply(s, a).uuids| <= PERIOD
    ensures GoodBack(Apply(s, a))
  {
    hide Allocate, DropConn, GoodBack, Counter, UuidOf;
    SameWorkers(s, a);
    match a
    case Accept(handle) =>
      if MainIdle(s) && handle !in s.handleMap {
        assert |Apply(s, a).uuids| == |s.uuids| + 1;
        AcceptBack(s, handle);
      }
    case Close(handle) =>
      if MainIdle(s) && handle in s.handleMap {
        DropBack(s, s.handleMap[handle], handle);
      }
    case Deliver =>
      if s.inHand.Some? && s.inHand.value.uuid in s.uuidMap {
        var t, c := s.(inHand := None), s.uuidMap[s.inHand.value.uuid];
        SameBack(s, t);
        DropBack(t, c, s.handleOf[c]);
        SameBack(s, t.(delivered := Apply(s, a).delivered));
      } else {
        SameBack(s, Apply(s, a));
      }
    case _ => SameBack(s, Apply(s, a));
  }

  lemma SameBack(s: State, t: State)
    requires GoodBack(s)
    ensures t.uuids == s.uuids && t.uuidMap == s.uuidMap && t.handleOf == s.handleOf ==> GoodBack(t)
  {
  }

  /** What delivering the response in hand does, told by its origin alone: an open origin gets the payload, or is closed
      if there is none; a response whose origin has closed is dropped. */
  lemma DeliverEffect(s: State)
    requires Inv(s) && GoodBack(s) && |s.uuids| <= PERIOD && s.inHand.Some?
    ensures var t, r := Apply(s, Deliver), s.inHand.value;
            var origin := r.cause.origin;
            t.inHand == None && t.responses == s.responses &&
            (origin in s.handleOf && r.payload.Some? ==>
               t.delivered == s.delivered + [Delivery(origin, s.handleOf[origin], r)] && t.handleOf == s.handleOf) &&
            (origin in s.handleOf && r.payload.None? ==>
               t.delivered == s.delivered && t.handleOf == s.handleOf - {origin}) &&
            (origin !in s.handleOf ==> t.delivered == s.delivered && t.handleOf == s.handleOf)
  {
    var r := s.inHand.value;
    assert s.uuids[r.cause.origin] == r.uuid;
    if r.uuid in s.uuidMap {
      RightOwner(s);
    }
  }

  // ---- The history of a run ----

  /** The responses taken from the list and looked up, in order. */
  function Handled(s: State, actions: seq<Action>): seq<Response> {
    if actions == [] then []
    else
      var front, a := actions[..|actions| - 1], actions[|actions| - 1];
      var t := Run(s, front);
      Handled(s, front) + if a.Deliver? && t.inHand.Some? then [t.inHand.value] else []
  }

  /** The answers due: each handled response with a payload whose origin was open at that moment. */
  function Due(s: State, actions: seq<Action>): seq<Delivery> {
    if actions == [] then []
    else
      var front, a := actions[..|actions| - 1], actions[|actions| - 1];
      var t := Run(s, front);
      Due(s, front) +
      if a.Deliver? && t.inHand.Some? && t.inHand.value.payload.Some? && t.inHand.value.cause.origin in t.handleOf
      then [Delivery(t.inHand.value.cause.origin, t.handleOf[t.inHand.value.cause.origin], t.inHand.value)]
      else []
  }

  /** The responses the workers' handlers make, in order. */
  function Made(s: State, actions: seq<Action>): seq<Response> {
    if actions == [] then []
    else
      var front, a := actions[..|actions| - 1], actions[|actions| - 1];
      var t := Run(s, front);
      Made(s, front) +
      if a.Respond? && a.worker < |t.workers| && t.workers[a.worker].running.Some?
      then [Response(t.workers[a.worker].running.value.uuid, a.payload, t.workers[a.worker].running.value)]
      else []
  }

  /** The requests read from open connections and given to worker w, in order. */
  function Asked(s: State, actions: seq<Action>, w: nat): seq<Task> {
    if actions == [] then []
    else
      var front, a := actions[..|actions| - 1], actions[|actions| - 1];
      var t := Run(s, front);
      Asked(s, front, w) +
      if a.Receive? && a.worker == w && MainIdle(t) && a.handle in t.handleMap
      then [Task(UuidAt(t, t.handleMap[a.handle]), t.requests, t.handleMap[a.handle])]
      else []
  }

  /** The response between the list and its connection. */
  function InHand(s: State): seq<Response> { if s.inHand.Some? then [s.inHand.value] else [] }

  /** First in, first out: nothing made is lost on the way, and nothing appears. */
  lemma {:induction false} ResponsesFlow(s: State, actions: seq<Action>)
    ensures var t := Run(s, actions);
            InHand(s) + s.responses + Made(s, actions) == Handled(s, actions) + InHand(t) + t.responses
  {
    if actions != [] {
      var front, a := actions[..|actions| - 1], actions[|actions| - 1];
      ResponsesFlow(s, front);
      var t := Run(s, front);
      FlowStep(t, a);
      var made := if a.Respond? && a.worker < |t.workers| && t.workers[a.worker].running.Some?
        then [Response(t.workers[a.worker].running.value.uuid, a.payload, t.workers[a.worker].running.value)] else [];
      var done := if a.Deliver? && t.inHand.Some? then [t.inHand.value] else [];
      hide Run, Apply, InHand;
      FlowJoin(InHand(s) + s.responses, Made(s, front), made, Handled(s, front), InHand(t), t.responses, done,
               InHand(Apply(t, a)), Apply(t, a).responses);
    }
  }

  lemma FlowJoin(
    start: seq<Response>, made: seq<Response>, more: seq<Response>, handled: seq<Response>, hand: seq<Response>,
    list: seq<Response>, done: seq<Response>, hand': seq<Response>, list': seq<Response>)
    requires start + made == handled + hand + list && hand + list + more == done + hand' + list'
    ensures start + (made + more) == handled + done + hand' + list'
  {
    assert start + (made + more) == (start + made) + more;
    assert handled + hand + list + more == handled + (hand + list + more);
    assert handled + (done + hand' + list') == handled + done + hand' + list';
  }

  lemma FlowStep(s: State, a: Action)
    ensures var t := Apply(s, a);
            var made := if a.Respond? && a.worker < |s.workers| && s.workers[a.worker].running.Some?
              then [Response(s.workers[a.worker].running.value.uuid, a.payload, s.workers[a.worker].running.value)] else [];
            var done := if a.Deliver? && s.inHand.Some? then [s.inHand.value] else [];
            InHand(s) + s.responses + made == done + InHand(t) + t.responses
  {
    hide Apply;
    if a.Deliver? {
      DeliverFlow(s);
    } else if a.Pop? {
      PopFlow(s);
    } else {
      OtherFlow(s, a);
    }
  }

  lemma PopFlow(s: State)
    ensures InHand(Apply(s, Pop)) + Apply(s, Pop).responses == InHand(s) + s.responses
  {
  }

  lemma DeliverFlow(s: State)
    ensures Apply(s, Deliver).inHand == None && Apply(s, Deliver).responses == s.responses
  {
  }

  lemma OtherFlow(s: State, a: Action)
    requires !a.Pop? && !a.Deliver?
    ensures Apply(s, a).inHand == s.inHand
    ensures Apply(s, a).responses ==
            s.responses + if a.Respond? && a.worker < |s.workers| && s.workers[a.worker].running.Some?
              then [Response(s.workers[a.worker].running.value.uuid, a.payload, s.workers[a.worker].running.value)] else []
  {
    hide Allocate;
  }

  /** Every answer due has been sent, in order, and no other. */
  lemma {:induction false} AnswersSent(s: State, actions: seq<Action>)
    requires Inv(s) && GoodBack(s) && |Run(s, actions).uuids| <= PERIOD
    ensures var t := Run(s, actions); Inv(t) && GoodBack(t) && t.delivered == s.delivered + Due(s, actions)
  {
    hide Apply, Inv, GoodBack;
    if actions != [] {
      var front, a := actions[..|actions| - 1], actions[|actions| - 1];
      var t := Run(s, front);
      SameWorkers(t, a);
      AnswersSent(s, front);
      ApplyInv(t, a);
      InvParts(t);
      ApplyBack(t, a);
      if a.Deliver? && t.inHand.Some? {
        DeliverEffect(t);
      } else {
        NothingSent(t, a);
      }
    }
  }

  lemma InvParts(s: State)
    requires Inv(s)
    ensures GoodCounter(s) && GoodMaps(s)
  {
  }

  lemma NothingSent(s: State, a: Action)
    requires !(a.Deliver? && s.inHand.Some?)
    ensures Apply(s, a).delivered == s.delivered
  {
    hide Allocate;
  }

  /** Every request read has been pushed to its worker, in order, and no other. */
  lemma {:induction false} RequestsPushed(s: State, actions: seq<Action>, w: nat)
    requires w < |s.workers|
    ensures var t := Run(s, actions);
            |t.workers| == |s.workers| && t.workers[w].pushed == s.workers[w].pushed + Asked(s, actions, w)
  {
    hide Apply;
    if actions != [] {
      var front, a := actions[..|actions| - 1], actions[|actions| - 1];
      RequestsPushed(s, front, w);
      SameWorkers(Run(s, front), a);
      PushedStep(Run(s, front), a, w);
    }
  }

  lemma PushedStep(s: State, a: Action, w: nat)
    requires w < |s.workers|
    ensures |Apply(s, a).workers| == |s.workers|
    ensures Apply(s, a).workers[w].pushed == s.workers[w].pushed +
              if a.Receive? && a.worker == w && MainIdle(s) && a.handle in s.handleMap
              then [Task(UuidAt(s, s.handleMap[a.handle]), s.requests, s.handleMap[a.handle])] else []
  {
    hide Allocate;
  }

  /** Nothing is lost between a request and its answer, over every interleaving of at most 2^32 - 1 connections: every
      request read from an open connection is in its worker's queue or was started, in order; every response made was
      handled, is in hand or is in the list, in order; and every handled response has been delivered exactly once, in
      order, to its origin, unless it has no payload or the origin was closed before. */
  lemma Completeness(workers: nat, actions: seq<Action>)
    requires |Run(Initial(workers), actions).uuids| <= PERIOD
    ensures var s, s0 := Run(Initial(workers), actions), Initial(workers);
            |s.workers| == workers &&
            (forall w :: 0 <= w < workers ==> s.workers[w].started + s.workers[w].queue == Asked(s0, actions, w)) &&
            Made(s0, actions) == Handled(s0, actions) + InHand(s) + s.responses &&
            s.delivered == Due(s0, actions)
  {
    hide Run, Due, Handled, Made, Asked, GoodMaps, GoodCounter;
    var s0, s := Initial(workers), Run(Initial(workers), actions);
    StartsGood(workers);
    ResponsesFlow(s0, actions);
    AnswersSent(s0, actions);
    assert InHand(s0) + s0.responses + Made(s0, actions) == Made(s0, actions);
    forall w | 0 <= w < workers
      ensures |s.workers| == workers && s.workers[w].started + s.workers[w].queue == Asked(s0, actions, w)
    {
      RequestsPushed(s0, actions, w);
      assert GoodWorker(s, s.workers[w]);
    }
    SizeKept(s0, actions);
  }

  lemma StartsGood(workers: nat)
    ensures Inv(Initial(workers)) && GoodBack(Initial(workers))
  {
  }

  lemma {:induction false} SizeKept(s: State, actions: seq<Action>)
    ensures |Run(s, actions).workers| == |s.workers|
  {
    hide Apply;
    if actions != [] {
      SizeKept(s, actions[..|actions| - 1]);
      SameWorkers(Run(s, actions[..|actions| - 1]), actions[|actions| - 1]);
    }
  }

  /** A request read from an open connection, run by an idle worker and answered, reaches that connection on its own
      handle, when nothing else intervenes. */
  lemma RequestAnswered(s: State, handle: nat, w: nat, payload: nat)
    requires Inv(s) && GoodBack(s) && |s.uuids| <= PERIOD && MainIdle(s) && s.responses == []
    requires handle in s.handleMap && w < |s.workers| && s.workers[w].queue == [] && s.workers[w].running == None
    ensures var c := s.handleMap[handle];
            var task := Task(UuidAt(s, c), s.requests, c);
            Run(s, [Receive(handle, w), Take(w), Respond(w, Some(payload)), Pop, Deliver]).delivered ==
              s.delivered + [Delivery(c, handle, Response(task.uuid, Some(payload), task))]
  {
    hide Inv, GoodBack, Apply, Run;
    var c := s.handleMap[handle];
    var s1 := Apply(s, Receive(handle, w));
    var s2 := Apply(s1, Take(w));
    var s3 := Apply(s2, Respond(w, Some(payload)));
    var s4 := Apply(s3, Pop);
    FiveSteps(s, Receive(handle, w), Take(w), Respond(w, Some(payload)), Pop, Deliver);
    ToTheHand(s, handle, w, payload);
    Kept(s, Receive(handle, w));
    Kept(s1, Take(w));
    Kept(s2, Respond(w, Some(payload)));
    Kept(s3, Pop);
    DeliverEffect(s4);
    HandleOf(s, handle);
  }

  /** From the socket through the queue and the list into the hand of the main loop. */
  lemma ToTheHand(s: State, handle: nat, w: nat, payload: nat)
    requires MainIdle(s) && s.responses == [] && handle in s.handleMap
    requires w < |s.workers| && s.workers[w].queue == [] && s.workers[w].running == None
    ensures var c := s.handleMap[handle];
            var task := Task(UuidAt(s, c), s.requests, c);
            var t := Apply(Apply(Apply(Apply(s, Receive(handle, w)), Take(w)), Respond(w, Some(payload))), Pop);
            t.inHand == Some(Response(task.uuid, Some(payload), task)) && t.handleOf == s.handleOf &&
            t.delivered == s.delivered
  {
    var s1 := Apply(s, Receive(handle, w));
    assert s1.workers[w].queue == [Task(UuidAt(s, s.handleMap[handle]), s.requests, s.handleMap[handle])];
    var s2 := Apply(s1, Take(w));
    var s3 := Apply(s2, Respond(w, Some(payload)));
    assert s3.responses == [] + [Response(s2.workers[w].running.value.uuid, Some(payload), s2.workers[w].running.value)];
  }

  lemma HandleOf(s: State, handle: nat)
    requires Inv(s) && handle in s.handleMap
    ensures s.handleMap[handle] in s.handleOf && s.handleOf[s.handleMap[handle]] == handle
  {
  }

  lemma Kept(s: State, a: Action)
    requires Inv(s) && GoodBack(s) && |s.uuids| <= PERIOD && !a.Accept?
    ensures Inv(Apply(s, a)) && GoodBack(Apply(s, a)) && Apply(s, a).uuids == s.uuids
  {
    SameUuids(s, a);
    hide Apply;
    ApplyInv(s, a);
    InvParts(s);
    hide GoodCounter, GoodMaps, GoodWorker, GoodResponse, GoodBack, Inv;
    ApplyBack(s, a);
  }

  lemma SameUuids(s: State, a: Action)
    requires !a.Accept?
    ensures Apply(s, a).uuids == s.uuids
  {
    hide Allocate;
  }

  lemma FiveSteps(s: State, a: Action, b: Action, c: Action, d: Action, e: Action)
    ensures Run(s, [a, b, c, d, e]) == Apply(Apply(Apply(Apply(Apply(s, a), b), c), d), e)
  {
    ThreeSteps(s, a, b, c);
    hide Apply, Run;
    RunOne(s, [a, b, c], d);
    RunOne(s, [a, b, c, d], e);
    assert [a, b, c] + [d] == [a, b, c, d] && [a, b, c, d] + [e] == [a, b, c, d, e];
  }

  lemma ThreeSteps(s: State, a: Action, b: Action, c: Action)
    ensures Run(s, [a, b, c]) == Apply(Apply(Apply(s, a), b), c)
  {
    RunNone(s);
    hide Apply, Run;
    RunOne(s, [], a);
    RunOne(s, [a], b);
    RunOne(s, [a, b], c);
    assert [] + [a] == [a] && [a] + [b] == [a, b] && [a, b] + [c] == [a, b, c];
  }

  lemma RunNone(s: State)
    ensures Run(s, []) == s
  {
  }

  // ---- The proxy's globals ----

  predicate WorkerAction(a: Action) { a.Take? || a.Respond? || a.Finish? }

  predicate WorkerActions(actions: seq<Action>) { forall i :: 0 <= i < |actions| ==> WorkerAction(actions[i]) }

  lemma RunOne(s: State, trace: seq<Action>, a: Action)
    ensures Run(s, trace + [a]) == Apply(Run(s, trace), a)
  {
    assert (trace + [a])[..|trace|] == trace;
  }

  lemma WorkerQuiet(s: State, a: Action)
    requires WorkerAction(a)
    ensures Apply(s, a).inHand == s.inHand && |Apply(s, a).responses| <= |s.responses| + 1
  {
  }

  /** What a drained list means for the history. */
  lemma DrainedAll(start: State, trace: seq<Action>, all: seq<Action>, before: State, after: State)
    requires Inv(start) && GoodBack(start) && trace <= all && before == Run(start, trace) && after == Run(start, all)
    requires |after.uuids| <= PERIOD && before.inHand == None && after.inHand == None && after.responses == []
    ensures Handled(start, trace) + before.responses <= Handled(start, all)
    ensures after.delivered == start.delivered + Due(start, all) && Due(start, trace) <= Due(start, all)
  {
    hide Run, Due, Handled, Inv, GoodBack;
    ResponsesFlow(start, trace);
    ResponsesFlow(start, all);
    HistoryGrows(start, trace, all);
    AnswersSent(start, all);
    var first := InHand(start) + start.responses;
    assert Handled(start, trace) + before.responses == first + Made(start, trace);
    assert Handled(start, all) == first + Made(start, all);
  }

  lemma {:induction false} HistoryGrows(s: State, trace: seq<Action>, all: seq<Action>)
    requires trace <= all
    ensures Made(s, trace) <= Made(s, all) && Due(s, trace) <= Due(s, all)
    decreases |all|
  {
    if trace != all {
      HistoryGrows(s, trace, all[..|all| - 1]);
    }
  }

  class Proxy {
    var counter: Uint32
    var uuids: seq<Uint32>
    var handleMap: map<nat, ConnId>
    var uuidMap: map<Uint32, ConnId>
    var handleOf: map<ConnId, nat>
    var workers: seq<Worker>
    var requests: nat
    var responses: seq<Response>
    var inHand: Option<Response>
    var delivered: seq<Delivery>

    ghost function View(): State
      reads this
    {
      State(counter, uuids, handleMap, uuidMap, handleOf, workers, requests, responses, inHand, delivered)
    }

    constructor (count: nat)
      ensures View() == Initial(count)
    {
      counter, uuids, handleMap, uuidMap, handleOf := 0, [], map[], map[], map[];
      workers := seq(count, _ => Worker([], None, [], []));
      requests, responses, inHand, delivered := 0, [], None, [];
    }

    /** The uuid counter of the constructor. */
    static method NextUuid(counter: Uint32) returns (next: Uint32)
      ensures next == Allocate(counter)
    {
      next := (counter + 1) % TWO32;
      if next == 0 {
        next := (next + 1) % TWO32;
      }
    }

    /** The CProxyConn constructor and OnConnect. */
    method NewConn(handle: nat)
      requires inHand == None && handle !in handleMap
      modifies this
      ensures View() == Apply(old(View()), Accept(handle))
    {
      hide Allocate;
      var c := |uuids|;
      counter := NextUuid(counter);
      uuids := uuids + [counter];
      if counter !in uuidMap {
        uuidMap := uuidMap[counter := c];
      }
      handleMap := handleMap[handle := c];
      handleOf := handleOf[c := handle];
    }

    method CloseConn(c: ConnId)
      requires c in handleOf && c < |uuids|
      modifies this
      ensures View() == DropConn(old(View()), c, old(handleOf)[c])
    {
      handleMap := handleMap - {handleOf[c]};
      uuidMap := uuidMap - {uuids[c]};
      handleOf := handleOf - {c};
    }

    /** HandlePduBuf and AddTask. */
    method HandlePduBuf(handle: nat, worker: nat)
      requires inHand == None && handle in handleMap && handleMap[handle] < |uuids| && worker < |workers|
      modifies this
      ensures View() == Apply(old(View()), Receive(handle, worker))
    {
      var c := handleMap[handle];
      var task := Task(uuids[c], requests, c);
      var k := workers[worker];
      workers := workers[worker := k.(queue := k.queue + [task], pushed := k.pushed + [task])];
      requests := requests + 1;
    }

    /** A worker pops a task, answers the one it runs, or finishes it. */
    method WorkerStep(a: Action)
      requires WorkerAction(a)
      modifies this`workers, this`responses
      ensures View() == Apply(old(View()), a)
    {
      var w := a.worker;
      if w >= |workers| {
        return;
      }
      var k := workers[w];
      if a.Take? {
        if k.running == None && k.queue != [] {
          var task := k.queue[0];
          workers := workers[w := k.(queue := k.queue[1..], running := Some(task), started := k.started + [task])];
        }
      } else if a.Respond? {
        if k.running.Some? {
          responses := responses + [Response(k.running.value.uuid, a.payload, k.running.value)];
        }
      } else {
        workers := workers[w := k.(running := None)];
      }
    }

    /** What the workers do while the main thread does not hold the list lock: any number of their next steps. */
    method Unlocked(env: seq<Action>, ghost start: State, ghost trace: seq<Action>)
      returns (rest: seq<Action>, ghost all: seq<Action>)
      requires WorkerActions(env) && View() == Run(start, trace)
      modifies this`workers, this`responses
      ensures View() == Run(start, all) && trace <= all && WorkerActions(rest) && |rest| <= |env|
      ensures 2 * |rest| + |responses| <= 2 * |env| + old(|responses|)
      ensures inHand == old(inHand)
    {
      rest, all := env, trace;
      var stop: nat :| stop <= |env|;
      while |rest| > stop
        invariant View() == Run(start, all) && trace <= all && WorkerActions(rest) && stop <= |rest| <= |env|
        invariant 2 * |rest| + |responses| <= 2 * |env| + old(|responses|)
      {
        hide Apply, Run;
        RunOne(start, all, rest[0]);
        WorkerQuiet(View(), rest[0]);
        WorkerStep(rest[0]);
        all, rest := all + [rest[0]], rest[1..];
      }
    }

    method PopOne()
      requires inHand == None && responses != []
      modifies this`inHand, this`responses
      ensures View() == Apply(old(View()), Pop) && inHand.Some? && |responses| == old(|responses|) - 1
    {
      inHand, responses := Some(responses[0]), responses[1..];
    }

    /** Look up the connection of the response in hand, and send to it or close it. */
    method DeliverOne()
      requires inHand.Some? && GoodMaps(View())
      modifies this
      ensures View() == Apply(old(View()), Deliver) && inHand == None && responses == old(responses)
      ensures uuids == old(uuids)
    {
      var r := inHand.value;
      inHand := None;
      if r.uuid in uuidMap {
        var c := uuidMap[r.uuid];
        if r.payload.Some? {
          delivered := delivered + [Delivery(c, handleOf[c], r)];
        } else {
          CloseConn(c);
        }
      }
    }

    /** SendResponsePduList with the workers `env` running whenever the lock is free: it continues the run so far and
        ends with the list empty. Every response in the list at entry has been handled, in order, and every answer due
        has been sent. */
    method SendResponses(env: seq<Action>, ghost start: State, ghost trace: seq<Action>)
      returns (ghost all: seq<Action>)
      requires WorkerActions(env) && View() == Run(start, trace) && inHand == None && Inv(start)
      requires GoodBack(start) && |uuids| <= PERIOD
      modifies this
      ensures View() == Run(start, all) && trace <= all && inHand == None && responses == []
      ensures Handled(start, trace) + old(responses) <= Handled(start, all)
      ensures delivered == start.delivered + Due(start, all) && Due(start, trace) <= Due(start, all)
    {
      hide Due, Handled, Made, InHand;
      ghost var before := View();
      var rest := env;
      all := trace;
      while responses != []
        invariant View() == Run(start, all) && trace <= all && WorkerActions(rest) && inHand == None
        invariant uuids == old(uuids)
        decreases 2 * |rest| + |responses|
      {
        hide Run, Inv, Apply, WorkerActions, GoodBack;
        RunOne(start, all, Pop);
        PopOne();
        all := all + [Pop];
        rest, all := Unlocked(rest, start, all);
        RunInv(start, all);
        InvMaps(View());
        RunOne(start, all, Deliver);
        DeliverOne();
        all := all + [Deliver];
        rest, all := Unlocked(rest, start, all);
      }
      DrainedAll(start, trace, all, before, View());
    }
  }

  lemma InvMaps(s: State)
    requires Inv(s)
    ensures GoodMaps(s)
  {
  }

  lemma {:induction false} RunInv(s: State, actions: seq<Action>)
    requires Inv(s)
    ensures Inv(Run(s, actions))
  {
    hide Apply, Inv;
    if actions != [] {
      RunInv(s, actions[..|actions| - 1]);
      ApplyInv(Run(s, actions[..|actions| - 1]), actions[|actions| - 1]);
    }
  }
}
