/** The event centre of pkg/sse: `Hub.run`, the push path with its task pool, and the connection
    handlers of `Serve`, as a state machine whose steps are the communications on channels.
    Every interleaving of the goroutines is a run of this machine.  Timers are steps that may
    fire at any moment. */
module Hub {

  /** NewHub sets this and nothing changes it. */
  const MAX_RETRY: nat := 3
  const TASK_CAPACITY: nat := 10000

  datatype UserEvent = UserEvent(uid: string, event: int)

  /** A connection handler: created, waiting to register, serving, waiting to unregister, ended. */
  datatype Phase = Connecting | Serving | Leaving | Gone

  /** A `UserClient` with its channel `Send`.  `accepted` is everything ever sent on the channel
      and `received` what the handler has taken from it. */
  datatype Conn = Conn(
    uid: string, phase: Phase, open: bool,
    buffer: seq<UserEvent>, accepted: seq<UserEvent>, received: seq<UserEvent>)
  {
    predicate Registered() {
      phase.Serving? || phase.Leaving?
    }
  }

  datatype Worker = Free | Pushing(ue: UserEvent, tries: nat)

  /** Where the goroutine of `run` is: at its select, inside `trySendWithTimeout`, or returned. */
  datatype Loop = AtSelect | Sending(conn: nat, ue: UserEvent, tries: nat) | Returned

  /** Total, success, failed and timed-out pushes. */
  datatype Stats = Stats(total: nat, success: nat, failed: nat, timeout: nat)

  /** What has become of every pushed event so far, and all events in the order `run` took them. */
  datatype History = History(
    pushed: seq<UserEvent>, delivered: seq<UserEvent>, failed: seq<UserEvent>,
    offline: seq<UserEvent>, dequeued: seq<UserEvent>)

  datatype State = State(
    conns: seq<Conn>, clients: map<string, nat>, broadcast: seq<UserEvent>, loop: Loop,
    submitting: seq<UserEvent>, tasks: seq<UserEvent>, workers: seq<Worker>,
    stats: Stats, history: History)

  function Init(workerNum: nat): State {
    State([], map[], [], AtSelect, [], [], seq(workerNum, _ => Free), Stats(0, 0, 0, 0), History([], [], [], [], []))
  }

  datatype Action =
    | Connect(uid: string)             // Serve creates a client
    | Register(c: nat)                 // h.register
    | Leave(c: nat)                    // a heartbeat fails or the request ends
    | Unregister(c: nat)               // h.unregister
    | Receive(c: nat, written: bool)   // the handler takes an event and writes it
    | Push(ue: UserEvent)              // pushOne
    | Submit(i: nat)                   // a blocked pusher's task enters the pool's channel
    | Start(w: nat)                    // a worker takes a task
    | WorkerSend(w: nat)               // tryPushWithTimeout succeeds
    | WorkerTimeout(w: nat)
    | WorkerGiveUp(w: nat)
    | Dequeue                          // run takes an event from broadcast
    | RunSend                          // trySendWithTimeout succeeds
    | RunTimeout
    | RunGiveUp
    | Stop                             // the context is cancelled

  /** When a step can happen; `size` is the buffer size of the broadcast and client channels. */
  predicate Enabled(size: nat, s: State, a: Action) {
    match a
    case Connect(uid) => uid != ""
    case Register(c) => s.loop.AtSelect? && c < |s.conns| && s.conns[c].phase.Connecting?
    case Leave(c) => c < |s.conns| && s.conns[c].phase.Serving?
    case Unregister(c) => s.loop.AtSelect? && c < |s.conns| && s.conns[c].phase.Leaving?
    case Receive(c, _) => c < |s.conns| && s.conns[c].phase.Serving? && s.conns[c].buffer != []
    case Push(_) => true
    case Submit(i) => i < |s.submitting| && |s.tasks| < TASK_CAPACITY
    case Start(w) => w < |s.workers| && s.workers[w].Free? && s.tasks != []
    case WorkerSend(w) =>
      w < |s.workers| && s.workers[w].Pushing? && s.workers[w].tries < MAX_RETRY && |s.broadcast| < size
    case WorkerTimeout(w) => w < |s.workers| && s.workers[w].Pushing? && s.workers[w].tries < MAX_RETRY
    case WorkerGiveUp(w) => w < |s.workers| && s.workers[w].Pushing? && s.workers[w].tries >= MAX_RETRY
    case Dequeue => s.loop.AtSelect? && s.broadcast != [] && TargetExists(s, s.broadcast[0])
    case RunSend =>
      && s.loop.Sending? && s.loop.tries < MAX_RETRY
      && s.loop.conn < |s.conns| && |s.conns[s.loop.conn].buffer| < size
    case RunTimeout => s.loop.Sending? && s.loop.tries < MAX_RETRY
    case RunGiveUp => s.loop.Sending? && s.loop.tries >= MAX_RETRY
    case Stop => s.loop.AtSelect?
  }

  /** The client map never holds a dangling reference; see `Safe`. */
  predicate TargetExists(s: State, ue: UserEvent) {
    ue.uid in s.clients ==> s.clients[ue.uid] < |s.conns|
  }

  function Without<T>(q: seq<T>, i: nat): seq<T>
    requires i < |q|
  {
    q[..i] + q[i + 1..]
  }

  function Accept(k: Conn, ue: UserEvent): Conn {
    k.(buffer := k.buffer + [ue], accepted := k.accepted + [ue])
  }

  function Next(size: nat, s: State, a: Action): State
    requires Enabled(size, s, a)
  {
    var st, h := s.stats, s.history;
    match a
    case Connect(uid) => s.(conns := s.conns + [Conn(uid, Connecting, true, [], [], [])])
    case Register(c) =>
      s.(conns := s.conns[c := s.conns[c].(phase := Serving)], clients := s.clients[s.conns[c].uid := c])
    case Leave(c) => s.(conns := s.conns[c := s.conns[c].(phase := Leaving)])
    case Unregister(c) =>
      if s.conns[c].uid in s.clients then
        s.(conns := s.conns[c := s.conns[c].(phase := Gone, open := false)],
           clients := s.clients - {s.conns[c].uid})
      else s.(conns := s.conns[c := s.conns[c].(phase := Gone)])
    case Receive(c, written) =>
      var k := s.conns[c];
      var ue := k.buffer[0];
      var k' := k.(buffer := k.buffer[1..], received := k.received + [ue],
                   phase := if written then Serving else Leaving);
      s.(conns := s.conns[c := k'],
         stats := if written then st.(success := st.success + 1) else st.(failed := st.failed + 1),
         history := if written then h.(delivered := h.delivered + [ue]) else h.(failed := h.failed + [ue]))
    case Push(ue) =>
      var t := s.(stats := st.(total := st.total + 1), history := h.(pushed := h.pushed + [ue]));
      if |s.broadcast| < size then t.(broadcast := s.broadcast + [ue])
      else t.(submitting := s.submitting + [ue])
    case Submit(i) => s.(submitting := Without(s.submitting, i), tasks := s.tasks + [s.submitting[i]])
    case Start(w) => s.(tasks := s.tasks[1..], workers := s.workers[w := Pushing(s.tasks[0], 0)])
    case WorkerSend(w) => s.(broadcast := s.broadcast + [s.workers[w].ue], workers := s.workers[w := Free])
    case WorkerTimeout(w) =>
      s.(workers := s.workers[w := s.workers[w].(tries := s.workers[w].tries + 1)],
         stats := st.(timeout := st.timeout + 1))
    case WorkerGiveUp(w) =>
      s.(workers := s.workers[w := Free], stats := st.(failed := st.failed + 1),
         history := h.(failed := h.failed + [s.workers[w].ue]))
    case Dequeue =>
      var ue := s.broadcast[0];
      var t := s.(broadcast := s.broadcast[1..], history := h.(dequeued := h.dequeued + [ue]));
      if ue.uid !in s.clients then t.(history := t.history.(offline := h.offline + [ue]))
      else
        var c := s.clients[ue.uid];
        if |s.conns[c].buffer| < size then t.(conns := s.conns[c := Accept(s.conns[c], ue)])
        else t.(loop := Sending(c, ue, 0))
    case RunSend =>
      var c := s.loop.conn;
      s.(conns := s.conns[c := Accept(s.conns[c], s.loop.ue)], loop := AtSelect)
    case RunTimeout =>
      s.(loop := s.loop.(tries := s.loop.tries + 1), stats := st.(timeout := st.timeout + 1))
    case RunGiveUp =>
      s.(loop := AtSelect, stats := st.(failed := st.failed + 1),
         history := h.(failed := h.failed + [s.loop.ue]))
    case Stop => s.(loop := Returned)
  }

  /** A run: the states and the actions between them. */
  predicate IsRun(size: nat, workerNum: nat, states: seq<State>, acts: seq<Action>) {
    && |states| == |acts| + 1 && states[0] == Init(workerNum)
    && forall i :: 0 <= i < |acts| ==>
         Enabled(size, states[i], acts[i]) && states[i + 1] == Next(size, states[i], acts[i])
  }

  // ---------- channels ----------

  /** The client map holds registered clients with open channels only, and only a client whose
      handler has ended has a closed channel. */
  predicate Safe(s: State) {
    && (forall uid <- s.clients :: MapHolds(s, uid))
    && (forall c :: 0 <= c < |s.conns| && !s.conns[c].open ==> s.conns[c].phase.Gone?)
    && (s.loop.Sending? ==> s.loop.ue.uid in s.clients && s.clients[s.loop.ue.uid] == s.loop.conn)
  }

  predicate MapHolds(s: State, uid: string)
    requires uid in s.clients
  {
    var c := s.clients[uid];
    c < |s.conns| && s.conns[c].uid == uid && s.conns[c].Registered() && s.conns[c].open
  }

  lemma SafeStep(size: nat, s: State, a: Action)
    requires Safe(s) && Enabled(size, s, a)
    ensures Safe(Next(size, s, a))
  {
    var t := Next(size, s, a);
    forall uid <- t.clients
      ensures MapHolds(t, uid)
    {
      MapStep(size, s, a, t, uid);
    }
    ClosedStep(size, s, a, t);
    if t.loop.Sending? { TargetStep(size, s, a, t); }
  }

  lemma MapStep(size: nat, s: State, a: Action, t: State, uid: string)
    requires Safe(s) && Enabled(size, s, a) && t == Next(size, s, a) && uid in t.clients
    ensures MapHolds(t, uid)
  {
    if uid in s.clients { assert MapHolds(s, uid); }
  }

  lemma ClosedStep(size: nat, s: State, a: Action, t: State)
    requires Safe(s) && Enabled(size, s, a) && t == Next(size, s, a)
    ensures forall c :: 0 <= c < |t.conns| && !t.conns[c].open ==> t.conns[c].phase.Gone?
  {
    if a.Unregister? && s.conns[a.c].uid in s.clients { assert MapHolds(s, s.conns[a.c].uid); }
  }

  lemma TargetStep(size: nat, s: State, a: Action, t: State)
    requires Safe(s) && Enabled(size, s, a) && t == Next(size, s, a) && t.loop.Sending?
    ensures t.loop.ue.uid in t.clients && t.clients[t.loop.ue.uid] == t.loop.conn
  {}

  /** The connection a step sends to, and the one whose channel it closes. */
  datatype Target = NoConn | To(conn: nat)

  function SendsTo(size: nat, s: State, a: Action): Target
    requires Enabled(size, s, a)
  {
    match a
    case Dequeue =>
      var ue := s.broadcast[0];
      if ue.uid in s.clients && |s.conns[s.clients[ue.uid]].buffer| < size then To(s.clients[ue.uid]) else NoConn
    case RunSend => To(s.loop.conn)
    case _ => NoConn
  }

  function Closes(size: nat, s: State, a: Action): Target
    requires Enabled(size, s, a)
  {
    match a
    case Unregister(c) => if s.conns[c].uid in s.clients then To(c) else NoConn
    case _ => NoConn
  }

  lemma {:induction false} SafeRun(size: nat, workerNum: nat, states: seq<State>, acts: seq<Action>, i: nat)
    requires IsRun(size, workerNum, states, acts) && i < |states|
    ensures Safe(states[i])
    decreases i
  {
    if i > 0 {
      SafeRun(size, workerNum, states, acts, i - 1);
      SafeStep(size, states[i - 1], acts[i - 1]);
    }
  }

  lemma OpenTargets(size: nat, s: State, a: Action)
    requires Safe(s) && Enabled(size, s, a)
    ensures var to := SendsTo(size, s, a); to.To? ==> to.conn < |s.conns| && s.conns[to.conn].open
    ensures var cl := Closes(size, s, a); cl.To? ==> cl.conn < |s.conns| && s.conns[cl.conn].open
  {
    if s.loop.Sending? { assert MapHolds(s, s.loop.ue.uid); }
    if a.Unregister? && s.conns[a.c].uid in s.clients { assert MapHolds(s, s.conns[a.c].uid); }
  }

  /** On no run is a closed channel sent to or closed again. */
  lemma ChannelSafety(size: nat, workerNum: nat, states: seq<State>, acts: seq<Action>, i: nat)
    requires IsRun(size, workerNum, states, acts) && i < |states|
    ensures Safe(states[i])
    ensures i < |acts| ==>
              && (var to := SendsTo(size, states[i], acts[i]); to.To? ==> states[i].conns[to.conn].open)
              && (var cl := Closes(size, states[i], acts[i]); cl.To? ==> states[i].conns[cl.conn].open)
  {
    SafeRun(size, workerNum, states, acts, i);
    if i < |acts| { OpenTargets(size, states[i], acts[i]); }
  }

  /** Nothing else is sent and nothing else is closed. */
  lemma OnlyTargets(size: nat, s: State, a: Action, c: nat)
    requires Enabled(size, s, a) && c < |s.conns|
    ensures
      var t := Next(size, s, a);
      && c < |t.conns|
      && (t.conns[c].accepted != s.conns[c].accepted ==> SendsTo(size, s, a) == To(c))
      && (s.conns[c].open && !t.conns[c].open ==> Closes(size, s, a) == To(c))
  {
  }

  // ---------- order of delivery ----------

  /** `a` arises from `b` by leaving out elements. */
  predicate IsSubseq<T(==)>(a: seq<T>, b: seq<T>)
    decreases |b|
  {
    if a == [] then true
    else if b == [] then false
    else
      || (a[|a| - 1] == b[|b| - 1] && IsSubseq(a[..|a| - 1], b[..|b| - 1]))
      || IsSubseq(a, b[..|b| - 1])
  }

  /** The events meant for one user, in order. */
  function For(uid: string, log: seq<UserEvent>): seq<UserEvent>
    decreases |log|
  {
    if log == [] then []
    else
      var front, last := log[..|log| - 1], log[|log| - 1];
      For(uid, front) + if last.uid == uid then [last] else []
  }

  lemma ForSnoc(uid: string, log: seq<UserEvent>, ue: UserEvent)
    ensures For(uid, log + [ue]) == For(uid, log) + if ue.uid == uid then [ue] else []
  {
    assert (log + [ue])[..|log|] == log;
  }

  lemma SubseqSnoc<T>(a: seq<T>, b: seq<T>, x: T)
    requires IsSubseq(a, b)
    ensures IsSubseq(a, b + [x]) && IsSubseq(a + [x], b + [x])
  {
    assert (b + [x])[..|b|] == b && (a + [x])[..|a|] == a;
  }

  /** The dequeued events that `run` has finished with. */
  function Handled(s: State): seq<UserEvent> {
    if s.loop.Sending? && s.history.dequeued != [] then s.history.dequeued[..|s.history.dequeued| - 1]
    else s.history.dequeued
  }

  predicate InOrder(handled: seq<UserEvent>, k: Conn) {
    k.accepted == k.received + k.buffer && IsSubseq(k.accepted, For(k.uid, handled))
  }

  predicate Ordered(s: State) {
    SendsLast(s) && forall c :: 0 <= c < |s.conns| ==> InOrder(Handled(s), s.conns[c])
  }

  /** `run` is sending the event it took last. */
  predicate SendsLast(s: State) {
    var d := s.history.dequeued;
    s.loop.Sending? ==> d != [] && d[|d| - 1] == s.loop.ue
  }

  lemma OrderedStep(size: nat, s: State, a: Action)
    requires Safe(s) && Ordered(s) && Enabled(size, s, a)
    ensures Ordered(Next(size, s, a))
  {
    var t := Next(size, s, a);
    HandledStep(size, s, a, t);
    forall c | 0 <= c < |t.conns|
      ensures InOrder(Handled(t), t.conns[c])
    {
      if c < |s.conns| {
        assert InOrder(Handled(s), s.conns[c]);
        ConnOrdered(size, s, a, t, c);
      }
    }
  }

  lemma ConnOrdered(size: nat, s: State, a: Action, t: State, c: nat)
    requires Safe(s) && Ordered(s) && Enabled(size, s, a) && t == Next(size, s, a)
    requires c < |s.conns| && InOrder(Handled(s), s.conns[c])
    ensures c < |t.conns| && InOrder(Handled(t), t.conns[c])
  {
    if a.Receive? && a.c == c {
      LoopFrame(size, s, a);
      Took(Handled(t), s.conns[c], t.conns[c]);
    } else {
      var sent, ue := SendsTo(size, s, a) == To(c), Taken(s, a);
      HandledStep(size, s, a, t);
      ConnStep(size, s, a, t, c);
      assert HandledStepped(Handled(s), Handled(t), sent, ue);
      ConnAfter(Handled(s), Handled(t), s.conns[c], t.conns[c], sent, ue);
    }
  }

  /** What a step makes of a connection and of the events `run` has finished with. */
  predicate ConnStepped(k: Conn, k': Conn, sent: bool, ue: UserEvent) {
    && k'.uid == k.uid
    && if sent then k' == Accept(k, ue) && ue.uid == k.uid else k'.(phase := k.phase, open := k.open) == k
  }

  predicate HandledStepped(log: seq<UserEvent>, log': seq<UserEvent>, sent: bool, ue: UserEvent) {
    (log' == log || log' == log + [ue]) && (sent ==> log' == log + [ue])
  }

  lemma ConnAfter(log: seq<UserEvent>, log': seq<UserEvent>, k: Conn, k': Conn, sent: bool, ue: UserEvent)
    requires InOrder(log, k) && ConnStepped(k, k', sent, ue) && HandledStepped(log, log', sent, ue)
    ensures InOrder(log', k')
  {
    var k1 := if sent then Accept(k, ue) else k;
    InOrderAfter(log, log', k, k1, ue);
    SameChannel(log', k1, k');
  }

  predicate After(log: seq<UserEvent>, log': seq<UserEvent>, k: Conn, k': Conn, ue: UserEvent) {
    || (k' == Accept(k, ue) && ue.uid == k.uid && log' == log + [ue])
    || (k' == k && (log' == log || log' == log + [ue]))
  }

  lemma InOrderAfter(log: seq<UserEvent>, log': seq<UserEvent>, k: Conn, k': Conn, ue: UserEvent)
    requires InOrder(log, k) && After(log, log', k, k', ue)
    ensures InOrder(log', k')
  {
    if k' != k {
      Sent(log, k, ue);
    } else if log' != log {
      NotSent(log, k, ue);
    }
  }

  lemma SameChannel(log: seq<UserEvent>, k: Conn, k': Conn)
    requires InOrder(log, k) && k'.(phase := k.phase, open := k.open) == k
    ensures InOrder(log, k')
  {}

  /** A handler takes an event from its channel. */
  lemma Took(log: seq<UserEvent>, k: Conn, k': Conn)
    requires InOrder(log, k) && k.buffer != []
    requires k' == k.(buffer := k.buffer[1..], received := k.received + [k.buffer[0]], phase := k'.phase)
    ensures InOrder(log, k')
  {
    assert k.received + k.buffer == k.received + [k.buffer[0]] + k.buffer[1..];
  }

  /** The event that `run` finishes with in this step, where it does. */
  function Taken(s: State, a: Action): UserEvent {
    if a.Dequeue? && s.broadcast != [] then s.broadcast[0]
    else if s.loop.Sending? then s.loop.ue
    else UserEvent("", 0)
  }

  lemma HandledStep(size: nat, s: State, a: Action, t: State)
    requires SendsLast(s) && Enabled(size, s, a) && t == Next(size, s, a)
    ensures HandledStepped(Handled(s), Handled(t), SendsTo(size, s, a).To?, Taken(s, a))
    ensures SendsLast(t)
  {
    var d := s.history.dequeued;
    if a.Dequeue? {
      assert (d + [s.broadcast[0]])[..|d|] == d;
    } else if a.RunSend? || a.RunGiveUp? {
      assert d == d[..|d| - 1] + [s.loop.ue];
    } else {
      LoopFrame(size, s, a);
    }
  }

  lemma LoopFrame(size: nat, s: State, a: Action)
    requires Enabled(size, s, a) && !a.Dequeue? && !a.RunSend? && !a.RunGiveUp?
    ensures
      var t := Next(size, s, a);
      && t.history.dequeued == s.history.dequeued
      && (t.loop.Sending? <==> s.loop.Sending?)
      && (t.loop.Sending? ==> t.loop.ue == s.loop.ue)
  {
  }

  lemma ConnStep(size: nat, s: State, a: Action, t: State, c: nat)
    requires Safe(s) && Enabled(size, s, a) && t == Next(size, s, a) && c < |s.conns| && !(a.Receive? && a.c == c)
    ensures c < |t.conns| && ConnStepped(s.conns[c], t.conns[c], SendsTo(size, s, a) == To(c), Taken(s, a))
  {
  }

  /** `run` finishes with an event without sending it to `k`. */
  lemma NotSent(log: seq<UserEvent>, k: Conn, ue: UserEvent)
    requires InOrder(log, k)
    ensures InOrder(log + [ue], k)
  {
    var mine := For(k.uid, log);
    ForSnoc(k.uid, log, ue);
    SubseqSnoc(k.accepted, mine, ue);
    assert mine + [] == mine;
  }

  lemma Sent(log: seq<UserEvent>, k: Conn, ue: UserEvent)
    requires InOrder(log, k) && ue.uid == k.uid
    ensures InOrder(log + [ue], Accept(k, ue))
  {
    ForSnoc(k.uid, log, ue);
    SubseqSnoc(k.accepted, For(k.uid, log), ue);
    assert k.received + k.buffer + [ue] == k.received + (k.buffer + [ue]);
  }

  /** On every run each client has received, in order and without repetition, part of the events
      that `run` took from the queue for its user; what is still in its channel follows. */
  lemma {:induction false} DeliveryOrder(size: nat, workerNum: nat, states: seq<State>, acts: seq<Action>, i: nat,
                                         c: nat)
    requires IsRun(size, workerNum, states, acts) && i < |states|
    ensures Ordered(states[i])
    ensures c < |states[i].conns| ==>
              var k := states[i].conns[c];
              IsSubseq(k.received + k.buffer, For(k.uid, Handled(states[i])))
    decreases i
  {
    if i > 0 {
      DeliveryOrder(size, workerNum, states, acts, i - 1, c);
      ChannelSafety(size, workerNum, states, acts, i - 1);
      OrderedStep(size, states[i - 1], acts[i - 1]);
    }
    if c < |states[i].conns| { assert InOrder(Handled(states[i]), states[i].conns[c]); }
  }

  // ---------- no event is lost or duplicated ----------

  /** How many of the events in `q` have property `p`. */
  function Count(p: UserEvent -> bool, q: seq<UserEvent>): nat
    decreases |q|
  {
    if q == [] then 0 else Count(p, q[..|q| - 1]) + One(p, q[|q| - 1])
  }

  function One(p: UserEvent -> bool, ue: UserEvent): nat {
    if p(ue) then 1 else 0
  }

  lemma CountSnoc(p: UserEvent -> bool, q: seq<UserEvent>, ue: UserEvent)
    ensures Count(p, q + [ue]) == Count(p, q) + One(p, ue)
  {
    assert (q + [ue])[..|q|] == q;
  }

  lemma {:induction false} CountWithout(p: UserEvent -> bool, q: seq<UserEvent>, i: nat)
    requires i < |q|
    ensures Count(p, q) == Count(p, Without(q, i)) + One(p, q[i])
    decreases |q|
  {
    var front, last := q[..|q| - 1], q[|q| - 1];
    if i == |q| - 1 {
      assert Without(q, i) == front;
    } else {
      CountWithout(p, front, i);
      assert Without(q, i) == Without(front, i) + [last];
      CountSnoc(p, Without(front, i), last);
    }
  }

  lemma CountHead(p: UserEvent -> bool, q: seq<UserEvent>)
    requires q != []
    ensures Count(p, q) == One(p, q[0]) + Count(p, q[1..])
  {
    CountWithout(p, q, 0);
    assert Without(q, 0) == q[1..];
  }

  function InChannels(p: UserEvent -> bool, conns: seq<Conn>): nat {
    if conns == [] then 0 else Count(p, conns[0].buffer) + InChannels(p, conns[1..])
  }

  lemma {:induction false} InChannelsUpdate(p: UserEvent -> bool, conns: seq<Conn>, c: nat, k: Conn)
    requires c < |conns|
    ensures InChannels(p, conns[c := k]) + Count(p, conns[c].buffer) == InChannels(p, conns) + Count(p, k.buffer)
    decreases |conns|
  {
    var t := conns[c := k];
    if c == 0 {
      assert t[1..] == conns[1..];
    } else {
      InChannelsUpdate(p, conns[1..], c - 1, k);
      assert t[1..] == conns[1..][c - 1 := k];
    }
  }

  lemma {:induction false} InChannelsSnoc(p: UserEvent -> bool, conns: seq<Conn>, k: Conn)
    ensures InChannels(p, conns + [k]) == InChannels(p, conns) + Count(p, k.buffer)
    decreases |conns|
  {
    var t := conns + [k];
    if conns == [] {
      assert t[1..] == [];
    } else {
      InChannelsSnoc(p, conns[1..], k);
      assert t[1..] == conns[1..] + [k];
    }
  }

  function Held(p: UserEvent -> bool, w: Worker): nat {
    if w.Pushing? then One(p, w.ue) else 0
  }

  function InWorkers(p: UserEvent -> bool, ws: seq<Worker>): nat {
    if ws == [] then 0 else Held(p, ws[0]) + InWorkers(p, ws[1..])
  }

  lemma {:induction false} InWorkersUpdate(p: UserEvent -> bool, ws: seq<Worker>, i: nat, w: Worker)
    requires i < |ws|
    ensures InWorkers(p, ws[i := w]) + Held(p, ws[i]) == InWorkers(p, ws) + Held(p, w)
    decreases |ws|
  {
    var t := ws[i := w];
    if i == 0 {
      assert t[1..] == ws[1..];
    } else {
      InWorkersUpdate(p, ws[1..], i - 1, w);
      assert t[1..] == ws[1..][i - 1 := w];
    }
  }

  lemma {:induction false} InWorkersFree(p: UserEvent -> bool, n: nat)
    ensures InWorkers(p, seq(n, _ => Free)) == 0
    decreases n
  {
    if n > 0 {
      InWorkersFree(p, n - 1);
      assert seq(n, _ => Free)[1..] == seq(n - 1, _ => Free);
    }
  }

  function InLoop(p: UserEvent -> bool, l: Loop): nat {
    if l.Sending? then One(p, l.ue) else 0
  }

  /** Everything on its way: blocked pushers, the pool, the queue, `run`, the client channels.  A
      channel of a handler that has left still counts; nobody will read it. */
  function UnderWay(p: UserEvent -> bool, s: State): nat {
    Count(p, s.submitting) + Count(p, s.tasks) + InWorkers(p, s.workers) + Count(p, s.broadcast) +
    InLoop(p, s.loop) + InChannels(p, s.conns)
  }

  /** Every event with property `p` that was pushed is delivered, failed, dropped because its user
      was offline, or under way, and in one of these places only. */
  predicate Conserved(p: UserEvent -> bool, s: State) {
    Count(p, s.history.pushed) ==
    Count(p, s.history.delivered) + Count(p, s.history.failed) + Count(p, s.history.offline) + UnderWay(p, s)
  }

  /** The published counters count these places. */
  predicate Counted(s: State) {
    && s.stats.total == |s.history.pushed| && s.stats.success == |s.history.delivered|
    && s.stats.failed == |s.history.failed|
  }

  lemma CountedStep(size: nat, s: State, a: Action)
    requires Counted(s) && Enabled(size, s, a)
    ensures Counted(Next(size, s, a))
  {
  }

  lemma ConservedStep(p: UserEvent -> bool, size: nat, s: State, a: Action)
    requires Conserved(p, s) && Enabled(size, s, a)
    ensures Conserved(p, Next(size, s, a))
  {
    var t := Next(size, s, a);
    if a.Connect? || a.Register? || a.Leave? || a.Unregister? || a.Receive? {
      ConservedByConn(p, size, s, a, t);
    } else if a.Push? || a.Submit? || a.Start? || a.WorkerSend? || a.WorkerTimeout? || a.WorkerGiveUp? {
      ConservedByPush(p, size, s, a, t);
    } else {
      ConservedByRun(p, size, s, a, t);
    }
  }

  lemma ConservedByConn(p: UserEvent -> bool, size: nat, s: State, a: Action, t: State)
    requires Conserved(p, s) && Enabled(size, s, a) && t == Next(size, s, a)
    requires a.Connect? || a.Register? || a.Leave? || a.Unregister? || a.Receive?
    ensures Conserved(p, t)
  {
    match a {
      case Connect(_) => ConnAdded(p, s, t, t.conns[|s.conns|]);
      case Register(c) => ConnChanged(p, s, t, c, t.conns[c]);
      case Leave(c) => ConnChanged(p, s, t, c, t.conns[c]);
      case Unregister(c) => ConnChanged(p, s, t, c, t.conns[c]);
      case Receive(c, written) => Received(p, s, t, c, t.conns[c], written);
    }
  }

  lemma ConservedByPush(p: UserEvent -> bool, size: nat, s: State, a: Action, t: State)
    requires Conserved(p, s) && Enabled(size, s, a) && t == Next(size, s, a)
    requires a.Push? || a.Submit? || a.Start? || a.WorkerSend? || a.WorkerTimeout? || a.WorkerGiveUp?
    ensures Conserved(p, t)
  {
    match a {
      case Push(ue) => Pushed(p, s, t, ue);
      case Submit(i) => Submitted(p, s, t, i);
      case Start(w) => Started(p, s, t, w);
      case WorkerSend(w) => WorkerSent(p, s, t, w);
      case WorkerTimeout(w) => WorkerWaits(p, s, t, w, t.workers[w]);
      case WorkerGiveUp(w) => WorkerFailed(p, s, t, w);
    }
  }

  lemma ConservedByRun(p: UserEvent -> bool, size: nat, s: State, a: Action, t: State)
    requires Conserved(p, s) && Enabled(size, s, a) && t == Next(size, s, a)
    requires a.Dequeue? || a.RunSend? || a.RunTimeout? || a.RunGiveUp? || a.Stop?
    ensures Conserved(p, t)
  {
    match a {
      case Dequeue => Dequeued(p, size, s, t);
      case RunSend => Accepted(p, s, t, s.loop.conn, s.loop.ue);
      case RunGiveUp => GaveUp(p, s, t);
      case RunTimeout => StillHeld(p, s, t);
      case Stop => StillHeld(p, s, t);
    }
  }

  /** Where the events are: what the counts of the properties are about. */
  datatype Places = Places(
    pushed: seq<UserEvent>, delivered: seq<UserEvent>, failed: seq<UserEvent>, offline: seq<UserEvent>,
    submitting: seq<UserEvent>, tasks: seq<UserEvent>, workers: seq<Worker>, broadcast: seq<UserEvent>,
    loop: Loop, conns: seq<Conn>)

  function PlacesOf(s: State): Places {
    Places(s.history.pushed, s.history.delivered, s.history.failed, s.history.offline,
           s.submitting, s.tasks, s.workers, s.broadcast, s.loop, s.conns)
  }

  lemma ConnAdded(p: UserEvent -> bool, s: State, t: State, k: Conn)
    requires Conserved(p, s) && k.buffer == []
    requires PlacesOf(t) == PlacesOf(s).(conns := s.conns + [k])
    ensures Conserved(p, t)
  {
    InChannelsSnoc(p, s.conns, k);
  }

  lemma ConnChanged(p: UserEvent -> bool, s: State, t: State, c: nat, k: Conn)
    requires Conserved(p, s) && c < |s.conns| && k.buffer == s.conns[c].buffer
    requires PlacesOf(t) == PlacesOf(s).(conns := s.conns[c := k])
    ensures Conserved(p, t)
  {
    InChannelsUpdate(p, s.conns, c, k);
  }

  lemma Received(p: UserEvent -> bool, s: State, t: State, c: nat, k: Conn, written: bool)
    requires Conserved(p, s) && c < |s.conns| && s.conns[c].buffer != [] && k.buffer == s.conns[c].buffer[1..]
    requires
      var conns, ue := s.conns[c := k], s.conns[c].buffer[0];
      PlacesOf(t) == if written then PlacesOf(s).(conns := conns, delivered := s.history.delivered + [ue])
                     else PlacesOf(s).(conns := conns, failed := s.history.failed + [ue])
    ensures Conserved(p, t)
  {
    var b, h := s.conns[c].buffer, s.history;
    InChannelsUpdate(p, s.conns, c, k);
    CountHead(p, b);
    if written { CountSnoc(p, h.delivered, b[0]); } else { CountSnoc(p, h.failed, b[0]); }
  }

  lemma Pushed(p: UserEvent -> bool, s: State, t: State, ue: UserEvent)
    requires Conserved(p, s)
    requires PlacesOf(t) == PlacesOf(s).(pushed := s.history.pushed + [ue], broadcast := s.broadcast + [ue]) ||
             PlacesOf(t) == PlacesOf(s).(pushed := s.history.pushed + [ue], submitting := s.submitting + [ue])
    ensures Conserved(p, t)
  {
    CountSnoc(p, s.history.pushed, ue);
    if t.broadcast == s.broadcast + [ue] { CountSnoc(p, s.broadcast, ue); } else { CountSnoc(p, s.submitting, ue); }
  }

  lemma Submitted(p: UserEvent -> bool, s: State, t: State, i: nat)
    requires Conserved(p, s) && i < |s.submitting|
    requires
      PlacesOf(t) ==
      PlacesOf(s).(submitting := Without(s.submitting, i), tasks := s.tasks + [s.submitting[i]])
    ensures Conserved(p, t)
  {
    CountWithout(p, s.submitting, i);
    CountSnoc(p, s.tasks, s.submitting[i]);
  }

  lemma Started(p: UserEvent -> bool, s: State, t: State, w: nat)
    requires Conserved(p, s) && w < |s.workers| && s.workers[w].Free? && s.tasks != []
    requires PlacesOf(t) == PlacesOf(s).(tasks := s.tasks[1..], workers := s.workers[w := Pushing(s.tasks[0], 0)])
    ensures Conserved(p, t)
  {
    InWorkersUpdate(p, s.workers, w, Pushing(s.tasks[0], 0));
    CountHead(p, s.tasks);
  }

  lemma WorkerSent(p: UserEvent -> bool, s: State, t: State, w: nat)
    requires Conserved(p, s) && w < |s.workers| && s.workers[w].Pushing?
    requires
      PlacesOf(t) ==
      PlacesOf(s).(broadcast := s.broadcast + [s.workers[w].ue], workers := s.workers[w := Free])
    ensures Conserved(p, t)
  {
    InWorkersUpdate(p, s.workers, w, Free);
    CountSnoc(p, s.broadcast, s.workers[w].ue);
  }

  lemma WorkerFailed(p: UserEvent -> bool, s: State, t: State, w: nat)
    requires Conserved(p, s) && w < |s.workers| && s.workers[w].Pushing?
    requires
      PlacesOf(t) ==
      PlacesOf(s).(failed := s.history.failed + [s.workers[w].ue], workers := s.workers[w := Free])
    ensures Conserved(p, t)
  {
    InWorkersUpdate(p, s.workers, w, Free);
    CountSnoc(p, s.history.failed, s.workers[w].ue);
  }

  lemma WorkerWaits(p: UserEvent -> bool, s: State, t: State, w: nat, x: Worker)
    requires Conserved(p, s) && w < |s.workers| && s.workers[w].Pushing? && x.Pushing? && x.ue == s.workers[w].ue
    requires PlacesOf(t) == PlacesOf(s).(workers := s.workers[w := x])
    ensures Conserved(p, t)
  {
    InWorkersUpdate(p, s.workers, w, x);
  }

  lemma Dequeued(p: UserEvent -> bool, size: nat, s: State, t: State)
    requires Conserved(p, s) && Enabled(size, s, Dequeue) && t == Next(size, s, Dequeue)
    ensures Conserved(p, t)
  {
    var ue := s.broadcast[0];
    var u := s.(broadcast := s.broadcast[1..], loop := Sending(0, ue, 0));
    CountHead(p, s.broadcast);
    assert Conserved(p, u);
    if ue.uid !in s.clients {
      CountSnoc(p, s.history.offline, ue);
    } else if |s.conns[s.clients[ue.uid]].buffer| < size {
      Accepted(p, u, t, s.clients[ue.uid], ue);
    }
  }

  lemma GaveUp(p: UserEvent -> bool, s: State, t: State)
    requires Conserved(p, s) && s.loop.Sending? && t.loop.AtSelect?
    requires PlacesOf(t) == PlacesOf(s).(failed := s.history.failed + [s.loop.ue], loop := t.loop)
    ensures Conserved(p, t)
  {
    CountSnoc(p, s.history.failed, s.loop.ue);
  }

  lemma StillHeld(p: UserEvent -> bool, s: State, t: State)
    requires Conserved(p, s) && PlacesOf(t) == PlacesOf(s).(loop := t.loop) && InLoop(p, t.loop) == InLoop(p, s.loop)
    ensures Conserved(p, t)
  {}

  /** `run` puts the event it holds into a channel. */
  lemma Accepted(p: UserEvent -> bool, s: State, t: State, c: nat, ue: UserEvent)
    requires Conserved(p, s) && c < |s.conns| && s.loop.Sending? && s.loop.ue == ue && t.loop.AtSelect?
    requires PlacesOf(t) == PlacesOf(s).(conns := s.conns[c := Accept(s.conns[c], ue)], loop := t.loop)
    ensures Conserved(p, t)
  {
    CountSnoc(p, s.conns[c].buffer, ue);
    InChannelsUpdate(p, s.conns, c, Accept(s.conns[c], ue));
  }

  /** On every run no event is lost or duplicated, counted by any property of events: by equality
      with one event, by user, or not distinguished at all. */
  lemma {:induction false} NothingLost(
      p: UserEvent -> bool, size: nat, workerNum: nat, states: seq<State>, acts: seq<Action>, i: nat)
    requires IsRun(size, workerNum, states, acts) && i < |states|
    ensures Conserved(p, states[i]) && Counted(states[i])
    decreases i
  {
    if i == 0 {
      InWorkersFree(p, workerNum);
    } else {
      NothingLost(p, size, workerNum, states, acts, i - 1);
      ConservedStep(p, size, states[i - 1], acts[i - 1]);
      CountedStep(size, states[i - 1], acts[i - 1]);
    }
  }

  predicate AnyEvent(ue: UserEvent) {
    true
  }

  lemma {:induction false} CountAll(q: seq<UserEvent>)
    ensures Count(AnyEvent, q) == |q|
    decreases |q|
  {
    if q != [] { CountAll(q[..|q| - 1]); }
  }

  /** On every run the published counters add up: pushes are successes, failures, drops and what
      is under way, so successes and failures never exceed the pushes. */
  lemma StatsAddUp(size: nat, workerNum: nat, states: seq<State>, acts: seq<Action>, i: nat)
    requires IsRun(size, workerNum, states, acts) && i < |states|
    ensures
      var s := states[i];
      s.stats.total == s.stats.success + s.stats.failed + |s.history.offline| + UnderWay(AnyEvent, s)
  {
    var h := states[i].history;
    NothingLost(AnyEvent, size, workerNum, states, acts, i);
    CountAll(h.pushed);
    CountAll(h.delivered);
    CountAll(h.failed);
    CountAll(h.offline);
  }

  // ---------- timeouts ----------

  function WorkerBudget(ws: seq<Worker>): nat {
    if ws == [] then 0 else OneBudget(ws[0]) + WorkerBudget(ws[1..])
  }

  function OneBudget(w: Worker): nat {
    if w.Pushing? && w.tries <= MAX_RETRY then 2 * MAX_RETRY - w.tries else 0
  }

  lemma {:induction false} WorkerBudgetUpdate(ws: seq<Worker>, i: nat, w: Worker)
    requires i < |ws|
    ensures WorkerBudget(ws[i := w]) + OneBudget(ws[i]) == WorkerBudget(ws) + OneBudget(w)
    decreases |ws|
  {
    var t := ws[i := w];
    if i == 0 {
      assert t[1..] == ws[1..];
    } else {
      WorkerBudgetUpdate(ws[1..], i - 1, w);
      assert t[1..] == ws[1..][i - 1 := w];
    }
  }

  lemma {:induction false} WorkerBudgetFree(n: nat)
    ensures WorkerBudget(seq(n, _ => Free)) == 0
    decreases n
  {
    if n > 0 {
      WorkerBudgetFree(n - 1);
      assert seq(n, _ => Free)[1..] == seq(n - 1, _ => Free);
    }
  }

  /** How many timeouts the events under way can still cause. */
  function Budget(s: State): nat {
    2 * MAX_RETRY * (|s.submitting| + |s.tasks|) + WorkerBudget(s.workers) + MAX_RETRY * |s.broadcast| +
    if s.loop.Sending? && s.loop.tries <= MAX_RETRY then MAX_RETRY - s.loop.tries else 0
  }

  predicate TriesBounded(s: State) {
    && (s.loop.Sending? ==> s.loop.tries <= MAX_RETRY)
    && forall w :: 0 <= w < |s.workers| && s.workers[w].Pushing? ==> s.workers[w].tries <= MAX_RETRY
  }

  predicate TimeoutsPaid(s: State) {
    TriesBounded(s) && s.stats.timeout + Budget(s) <= 2 * MAX_RETRY * s.stats.total
  }

  lemma TriesStep(size: nat, s: State, a: Action, t: State)
    requires TriesBounded(s) && Enabled(size, s, a) && t == Next(size, s, a)
    ensures TriesBounded(t)
  {}

  lemma TimeoutsPaidStep(size: nat, s: State, a: Action)
    requires TimeoutsPaid(s) && Enabled(size, s, a)
    ensures TimeoutsPaid(Next(size, s, a))
  {
    var t := Next(size, s, a);
    TriesStep(size, s, a, t);
    BudgetStep(size, s, a, t);
  }

  lemma BudgetStep(size: nat, s: State, a: Action, t: State)
    requires TimeoutsPaid(s) && Enabled(size, s, a) && t == Next(size, s, a)
    ensures t.stats.timeout + Budget(t) <= 2 * MAX_RETRY * t.stats.total
  {
    if a.Start? || a.WorkerSend? || a.WorkerTimeout? || a.WorkerGiveUp? {
      WorkerBudgetStep(size, s, a, t);
    }
  }

  lemma WorkerBudgetStep(size: nat, s: State, a: Action, t: State)
    requires TimeoutsPaid(s) && Enabled(size, s, a) && t == Next(size, s, a)
    requires a.Start? || a.WorkerSend? || a.WorkerTimeout? || a.WorkerGiveUp?
    ensures t.stats.timeout + Budget(t) <= 2 * MAX_RETRY * t.stats.total
  {
    WorkerBudgetUpdate(s.workers, a.w, t.workers[a.w]);
  }

  /** On every run no push times out more than twice the retry limit, once in the pool and once in
      `run`. */
  lemma {:induction false} TimeoutsBounded(size: nat, workerNum: nat, states: seq<State>, acts: seq<Action>, i: nat)
    requires IsRun(size, workerNum, states, acts) && i < |states|
    ensures TimeoutsPaid(states[i]) && states[i].stats.timeout <= 2 * MAX_RETRY * states[i].stats.total
    decreases i
  {
    if i == 0 {
      WorkerBudgetFree(workerNum);
    } else {
      TimeoutsBounded(size, workerNum, states, acts, i - 1);
      TimeoutsPaidStep(size, states[i - 1], acts[i - 1]);
    }
  }

  // ---------- nothing is given up early ----------

  function Times(a: Action, acts: seq<Action>): nat {
    if acts == [] then 0
    else Times(a, acts[..|acts| - 1]) + if acts[|acts| - 1] == a then 1 else 0
  }

  function GiveUps(acts: seq<Action>): nat {
    if acts == [] then 0
    else
      var a := acts[|acts| - 1];
      GiveUps(acts[..|acts| - 1]) + if a.WorkerGiveUp? || a.RunGiveUp? then 1 else 0
  }

  /** Timeouts of the events that workers and `run` are holding. */
  function OneTries(w: Worker): nat {
    if w.Pushing? then w.tries else 0
  }

  function WorkerTries(ws: seq<Worker>): nat {
    if ws == [] then 0 else OneTries(ws[0]) + WorkerTries(ws[1..])
  }

  function Tries(s: State): nat {
    WorkerTries(s.workers) + if s.loop.Sending? then s.loop.tries else 0
  }

  lemma {:induction false} WorkerTriesUpdate(ws: seq<Worker>, i: nat, w: Worker)
    requires i < |ws|
    ensures WorkerTries(ws[i := w]) + OneTries(ws[i]) == WorkerTries(ws) + OneTries(w)
    decreases |ws|
  {
    var t := ws[i := w];
    if i == 0 {
      assert t[1..] == ws[1..];
    } else {
      WorkerTriesUpdate(ws[1..], i - 1, w);
      assert t[1..] == ws[1..][i - 1 := w];
    }
  }

  lemma {:induction false} WorkerTriesFree(n: nat)
    ensures WorkerTries(seq(n, _ => Free)) == 0
    decreases n
  {
    if n > 0 {
      WorkerTriesFree(n - 1);
      assert seq(n, _ => Free)[1..] == seq(n - 1, _ => Free);
    }
  }

  lemma RetriedStep(size: nat, s: State, a: Action, t: State)
    requires Enabled(size, s, a) && t == Next(size, s, a)
    ensures t.stats.timeout + Tries(s) >= s.stats.timeout + Tries(t)
                                          + if a.WorkerGiveUp? || a.RunGiveUp? then MAX_RETRY else 0
  {
    if a.Start? || a.WorkerSend? || a.WorkerTimeout? || a.WorkerGiveUp? {
      WorkerTriesUpdate(s.workers, a.w, t.workers[a.w]);
    }
  }

  /** On every run each event given up, by a worker or by `run`, has cost the retry limit in timeouts. */
  lemma {:induction false} RetriedBeforeGivenUp(size: nat, workerNum: nat, states: seq<State>, acts: seq<Action>,
                                                i: nat)
    requires IsRun(size, workerNum, states, acts) && i < |states|
    ensures MAX_RETRY * GiveUps(acts[..i]) + Tries(states[i]) <= states[i].stats.timeout
    decreases i
  {
    if i == 0 {
      WorkerTriesFree(workerNum);
    } else {
      RetriedBeforeGivenUp(size, workerNum, states, acts, i - 1);
      RetriedStep(size, states[i - 1], acts[i - 1], states[i]);
      assert acts[..i][..i - 1] == acts[..i - 1];
    }
  }

  lemma TimesNext(a: Action, acts: seq<Action>, j: nat, i: nat)
    requires j < i <= |acts|
    ensures Times(a, acts[j..i]) == Times(a, acts[j..i - 1]) + if acts[i - 1] == a then 1 else 0
  {
    assert acts[j..i][..i - 1 - j] == acts[j..i - 1];
  }

  /** `run` has been sending the event to `c` since it took it in step `j`, one try for each timeout. */
  predicate SendingSince(s: State, acts: seq<Action>, j: nat, k: nat, c: nat, ue: UserEvent)
    requires j < k <= |acts|
  {
    s.loop == Sending(c, ue, Times(RunTimeout, acts[j + 1..k]))
  }

  /** `run` takes the event while the channel of its client is full. */
  predicate TookAt(size: nat, s: State, a: Action, c: nat, ue: UserEvent) {
    && a == Dequeue && s.broadcast != [] && s.broadcast[0] == ue
    && ue.uid in s.clients && s.clients[ue.uid] == c && c < |s.conns| && |s.conns[c].buffer| >= size
  }

  predicate RunTries(size: nat, states: seq<State>, acts: seq<Action>, j: nat, i: nat, c: nat, ue: UserEvent)
    requires j < i < |states| <= |acts| + 1
  {
    TookAt(size, states[j], acts[j], c, ue) && forall k :: j < k <= i ==> SendingSince(states[k], acts, j, k, c, ue)
  }

  /** What one step makes of the event that `run` is sending afterwards. */
  predicate SendStep(size: nat, s: State, a: Action, t: State) {
    t.loop.Sending? ==>
      if a.Dequeue? then TookAt(size, s, a, t.loop.conn, t.loop.ue) && t.loop.tries == 0
      else s.loop.Sending? && t.loop == if a.RunTimeout? then s.loop.(tries := s.loop.tries + 1) else s.loop
  }

  predicate SendSteps(size: nat, states: seq<State>, acts: seq<Action>) {
    && |states| == |acts| + 1 && !states[0].loop.Sending?
    && forall i :: 0 <= i < |acts| ==> SendStep(size, states[i], acts[i], states[i + 1])
  }

  lemma RunSendSteps(size: nat, workerNum: nat, states: seq<State>, acts: seq<Action>)
    requires IsRun(size, workerNum, states, acts)
    ensures SendSteps(size, states, acts)
  {
    forall i | 0 <= i < |acts|
      ensures SendStep(size, states[i], acts[i], states[i + 1])
    {
      assert Enabled(size, states[i], acts[i]);
    }
  }

  lemma {:induction false} RunTriesSince(size: nat, states: seq<State>, acts: seq<Action>, i: nat)
    returns (j: nat)
    requires SendSteps(size, states, acts) && i < |states| && states[i].loop.Sending?
    ensures j < i && RunTries(size, states, acts, j, i, states[i].loop.conn, states[i].loop.ue)
    decreases i
  {
    assert SendStep(size, states[i - 1], acts[i - 1], states[i - 1 + 1]);
    if acts[i - 1].Dequeue? {
      j := i - 1;
      assert acts[i..i] == [];
    } else {
      j := RunTriesSince(size, states, acts, i - 1);
      StillSending(states[i - 1], states[i], acts, j, i);
    }
  }

  lemma StillSending(s: State, t: State, acts: seq<Action>, j: nat, i: nat)
    requires j + 1 < i <= |acts| && s.loop.Sending?
    requires SendingSince(s, acts, j, i - 1, s.loop.conn, s.loop.ue)
    requires t.loop == if acts[i - 1].RunTimeout? then s.loop.(tries := s.loop.tries + 1) else s.loop
    ensures SendingSince(t, acts, j, i, t.loop.conn, t.loop.ue)
    ensures t.loop.conn == s.loop.conn && t.loop.ue == s.loop.ue
  {
    TimesNext(RunTimeout, acts, j + 1, i);
  }

  /** `run` holds the event, and can send it if there is room and fewer than the limit timed out. */
  predicate RunHolds(size: nat, s: State, c: nat, ue: UserEvent, timeouts: nat) {
    && s.loop.Sending? && s.loop.ue == ue
    && (Enabled(size, s, RunSend) <==> timeouts < MAX_RETRY && c < |s.conns| && |s.conns[c].buffer| < size)
  }

  lemma RunHoldsSince(size: nat, s: State, acts: seq<Action>, j: nat, k: nat, c: nat, ue: UserEvent)
    requires j < k <= |acts| && SendingSince(s, acts, j, k, c, ue)
    ensures RunHolds(size, s, c, ue, Times(RunTimeout, acts[j + 1..k]))
  {}

  lemma LimitReached(size: nat, workerNum: nat, states: seq<State>, acts: seq<Action>, i: nat)
    requires IsRun(size, workerNum, states, acts) && i < |acts|
    ensures acts[i].RunGiveUp? ==> states[i].loop.Sending? && states[i].loop.tries == MAX_RETRY
    ensures acts[i].WorkerGiveUp? ==>
              var w := acts[i].w;
              w < |states[i].workers| && states[i].workers[w].Pushing? && states[i].workers[w].tries == MAX_RETRY
  {
    assert Enabled(size, states[i], acts[i]);
    TimeoutsBounded(size, workerNum, states, acts, i);
  }

  /** When `run` gives an event up, the channel of its client was full when it took the event, and the
      retry limit has timed out since; until then it held the event, and could send it whenever the
      channel had room. */
  lemma RunGivesUpLate(size: nat, workerNum: nat, states: seq<State>, acts: seq<Action>, i: nat)
    returns (j: nat, c: nat, ue: UserEvent)
    requires IsRun(size, workerNum, states, acts) && i < |acts| && acts[i] == RunGiveUp
    ensures j < i && TookAt(size, states[j], acts[j], c, ue) && Times(RunTimeout, acts[j + 1..i]) == MAX_RETRY
    ensures forall k :: j < k <= i ==> RunHolds(size, states[k], c, ue, Times(RunTimeout, acts[j + 1..k]))
  {
    LimitReached(size, workerNum, states, acts, i);
    RunSendSteps(size, workerNum, states, acts);
    j := RunTriesSince(size, states, acts, i);
    c, ue := states[i].loop.conn, states[i].loop.ue;
    assert SendingSince(states[i], acts, j, i, c, ue);
    forall k | j < k <= i
      ensures RunHolds(size, states[k], c, ue, Times(RunTimeout, acts[j + 1..k]))
    {
      assert SendingSince(states[k], acts, j, k, c, ue);
      RunHoldsSince(size, states[k], acts, j, k, c, ue);
    }
  }

  /** Worker `w` has been pushing the event since it took it in step `j`. */
  predicate PushingSince(s: State, acts: seq<Action>, j: nat, k: nat, w: nat, ue: UserEvent)
    requires j < k <= |acts|
  {
    w < |s.workers| && s.workers[w] == Pushing(ue, Times(WorkerTimeout(w), acts[j + 1..k]))
  }

  predicate StartedAt(s: State, a: Action, w: nat, ue: UserEvent) {
    a == Start(w) && s.tasks != [] && s.tasks[0] == ue
  }

  predicate WorkerTriesOne(states: seq<State>, acts: seq<Action>, j: nat, i: nat, w: nat, ue: UserEvent)
    requires j < i < |states| <= |acts| + 1
  {
    StartedAt(states[j], acts[j], w, ue) && forall k :: j < k <= i ==> PushingSince(states[k], acts, j, k, w, ue)
  }

  /** What a step other than its start makes of what worker `w` is pushing. */
  predicate PushesOn(a: Action, w: nat, before: Worker, after: Worker) {
    && before.Pushing?
    && after == if a == WorkerTimeout(w) then before.(tries := before.tries + 1) else before
  }

  predicate PushStep(s: State, a: Action, t: State, w: nat) {
    w < |t.workers| && t.workers[w].Pushing? ==>
      if a == Start(w) then StartedAt(s, a, w, t.workers[w].ue) && t.workers[w].tries == 0
      else w < |s.workers| && PushesOn(a, w, s.workers[w], t.workers[w])
  }

  predicate PushSteps(states: seq<State>, acts: seq<Action>, w: nat) {
    && |states| == |acts| + 1 && !(w < |states[0].workers| && states[0].workers[w].Pushing?)
    && forall i :: 0 <= i < |acts| ==> PushStep(states[i], acts[i], states[i + 1], w)
  }

  lemma RunPushSteps(size: nat, workerNum: nat, states: seq<State>, acts: seq<Action>, w: nat)
    requires IsRun(size, workerNum, states, acts)
    ensures PushSteps(states, acts, w)
  {
    forall i | 0 <= i < |acts|
      ensures PushStep(states[i], acts[i], states[i + 1], w)
    {
      assert Enabled(size, states[i], acts[i]);
    }
  }

  lemma {:induction false} WorkerTriesSince(states: seq<State>, acts: seq<Action>, i: nat, w: nat) returns (j: nat)
    requires PushSteps(states, acts, w) && i < |states|
    requires w < |states[i].workers| && states[i].workers[w].Pushing?
    ensures j < i && WorkerTriesOne(states, acts, j, i, w, states[i].workers[w].ue)
    decreases i
  {
    assert PushStep(states[i - 1], acts[i - 1], states[i - 1 + 1], w);
    if acts[i - 1] == Start(w) {
      j := i - 1;
      assert acts[i..i] == [];
    } else {
      j := WorkerTriesSince(states, acts, i - 1, w);
      StillPushing(states[i - 1], states[i], acts, j, i, w);
    }
  }

  lemma StillPushing(s: State, t: State, acts: seq<Action>, j: nat, i: nat, w: nat)
    requires j + 1 < i <= |acts| && w < |s.workers| && w < |t.workers|
    requires PushesOn(acts[i - 1], w, s.workers[w], t.workers[w])
    requires PushingSince(s, acts, j, i - 1, w, s.workers[w].ue)
    ensures t.workers[w].Pushing? && t.workers[w].ue == s.workers[w].ue
    ensures PushingSince(t, acts, j, i, w, t.workers[w].ue)
  {
    TimesNext(WorkerTimeout(w), acts, j + 1, i);
  }

  predicate WorkerHolds(size: nat, s: State, w: nat, ue: UserEvent, timeouts: nat) {
    && w < |s.workers| && s.workers[w].Pushing? && s.workers[w].ue == ue
    && (Enabled(size, s, WorkerSend(w)) <==> timeouts < MAX_RETRY && |s.broadcast| < size)
  }

  lemma WorkerHoldsSince(size: nat, s: State, acts: seq<Action>, j: nat, k: nat, w: nat, ue: UserEvent)
    requires j < k <= |acts| && PushingSince(s, acts, j, k, w, ue)
    ensures WorkerHolds(size, s, w, ue, Times(WorkerTimeout(w), acts[j + 1..k]))
  {}

  /** The same for a worker of the pool and the queue of `run`. */
  lemma WorkerGivesUpLate(size: nat, workerNum: nat, states: seq<State>, acts: seq<Action>, i: nat, w: nat)
    returns (j: nat, ue: UserEvent)
    requires IsRun(size, workerNum, states, acts) && i < |acts| && acts[i] == WorkerGiveUp(w)
    ensures j < i && StartedAt(states[j], acts[j], w, ue) && Times(WorkerTimeout(w), acts[j + 1..i]) == MAX_RETRY
    ensures forall k :: j < k <= i ==> WorkerHolds(size, states[k], w, ue, Times(WorkerTimeout(w), acts[j + 1..k]))
  {
    LimitReached(size, workerNum, states, acts, i);
    RunPushSteps(size, workerNum, states, acts, w);
    j := WorkerTriesSince(states, acts, i, w);
    ue := states[i].workers[w].ue;
    assert PushingSince(states[i], acts, j, i, w, ue);
    forall k | j < k <= i
      ensures WorkerHolds(size, states[k], w, ue, Times(WorkerTimeout(w), acts[j + 1..k]))
    {
      assert PushingSince(states[k], acts, j, k, w, ue);
      WorkerHoldsSince(size, states[k], acts, j, k, w, ue);
    }
  }

  // ---------- who can be reached ----------

  /** Every connected client is the one the map holds for its user. */
  predicate AllReachable(s: State) {
    forall c :: 0 <= c < |s.conns| && s.conns[c].Registered() ==>
      s.conns[c].uid in s.clients && s.clients[s.conns[c].uid] == c
  }

  /** A registration while another connection of the same user has not unregistered yet. */
  predicate Overlaps(s: State, a: Action) {
    && a.Register? && a.c < |s.conns|
    && exists d :: 0 <= d < |s.conns| && d != a.c && s.conns[d].uid == s.conns[a.c].uid && s.conns[d].Registered()
  }

  lemma ReachableStep(size: nat, s: State, a: Action)
    requires Safe(s) && Enabled(size, s, a) && AllReachable(s)
    ensures AllReachable(Next(size, s, a)) <==> !Overlaps(s, a)
  {
    var t := Next(size, s, a);
    if Overlaps(s, a) {
      var d :| 0 <= d < |s.conns| && d != a.c && s.conns[d].uid == s.conns[a.c].uid && s.conns[d].Registered();
      assert t.conns[d].Registered() && t.clients[t.conns[d].uid] == a.c;
    } else {
      forall c | 0 <= c < |t.conns| && t.conns[c].Registered()
        ensures t.conns[c].uid in t.clients && t.clients[t.conns[c].uid] == c
      {
        if a.Unregister? { assert s.conns[a.c].Registered(); }
      }
    }
  }

  /** On a run every connected client stays reachable exactly if no user ever has two connections
      at once: the map has one entry per user, and whoever unregisters removes that entry. */
  lemma ReachableIffNoOverlap(size: nat, workerNum: nat, states: seq<State>, acts: seq<Action>)
    requires IsRun(size, workerNum, states, acts)
    ensures (forall i :: 0 <= i < |states| ==> AllReachable(states[i])) <==>
            (forall i :: 0 <= i < |acts| ==> !Overlaps(states[i], acts[i]))
  {
    if forall i :: 0 <= i < |states| ==> AllReachable(states[i]) {
      forall i | 0 <= i < |acts|
        ensures !Overlaps(states[i], acts[i])
      {
        ChannelSafety(size, workerNum, states, acts, i);
        ReachableStep(size, states[i], acts[i]);
        assert AllReachable(states[i + 1]);
      }
    }
    if forall i :: 0 <= i < |acts| ==> !Overlaps(states[i], acts[i]) {
      forall i | 0 <= i < |states|
        ensures AllReachable(states[i])
      {
        StaysReachable(size, workerNum, states, acts, i);
      }
    }
  }

  lemma {:induction false} StaysReachable(size: nat, workerNum: nat, states: seq<State>, acts: seq<Action>, i: nat)
    requires IsRun(size, workerNum, states, acts) && i < |states|
    requires forall j :: 0 <= j < |acts| ==> !Overlaps(states[j], acts[j])
    ensures AllReachable(states[i])
    decreases i
  {
    if i > 0 {
      StaysReachable(size, workerNum, states, acts, i - 1);
      ChannelSafety(size, workerNum, states, acts, i - 1);
      ReachableStep(size, states[i - 1], acts[i - 1]);
    }
  }

  lemma Extend(size: nat, workerNum: nat, states: seq<State>, acts: seq<Action>, a: Action)
    returns (states': seq<State>, acts': seq<Action>)
    requires IsRun(size, workerNum, states, acts) && Enabled(size, states[|acts|], a)
    ensures acts' == acts + [a] && states' == states + [Next(size, states[|acts|], a)]
    ensures IsRun(size, workerNum, states', acts')
  {
    states', acts' := states + [Next(size, states[|acts|], a)], acts + [a];
  }

  /** The harm such an overlap does: a user reconnects, then the old connection ends, and the new
      one, still served, can never be reached. */
  lemma ReconnectGoesDark(size: nat, uid: string) returns (states: seq<State>, acts: seq<Action>)
    requires uid != ""
    ensures IsRun(size, 1, states, acts)
    ensures acts == [Connect(uid), Register(0), Connect(uid), Register(1), Leave(0), Unregister(0)]
    ensures
      var s := states[6];
      |s.conns| == 2 && s.conns[1].phase.Serving? && s.conns[1].uid == uid && uid !in s.clients
  {
    states, acts := [Init(1)], [];
    states, acts := Extend(size, 1, states, acts, Connect(uid));
    states, acts := Extend(size, 1, states, acts, Register(0));
    states, acts := Extend(size, 1, states, acts, Connect(uid));
    states, acts := Extend(size, 1, states, acts, Register(1));
    states, acts := Extend(size, 1, states, acts, Leave(0));
    states, acts := Extend(size, 1, states, acts, Unregister(0));
  }

  // ---------- which way an event takes ----------

  /** What has gone into the queue of `run` in the first `i` steps, in order. */
  function Entered(size: nat, states: seq<State>, acts: seq<Action>, i: nat): seq<UserEvent>
    requires i <= |acts| < |states|
  {
    if i == 0 then [] else Entered(size, states, acts, i - 1) + Enters(size, states[i - 1], acts[i - 1])
  }

  function Enters(size: nat, s: State, a: Action): seq<UserEvent> {
    match a
    case Push(ue) => if |s.broadcast| < size then [ue] else []
    case WorkerSend(w) => if w < |s.workers| && s.workers[w].Pushing? then [s.workers[w].ue] else []
    case _ => []
  }

  lemma QueueFrame(size: nat, s: State, a: Action, t: State)
    requires Enabled(size, s, a) && t == Next(size, s, a)
    ensures
      if a.Dequeue?
      then s.broadcast != [] && t.broadcast == s.broadcast[1..]
           && t.history.dequeued == s.history.dequeued + [s.broadcast[0]] && Enters(size, s, a) == []
      else t.history.dequeued == s.history.dequeued && t.broadcast == s.broadcast + Enters(size, s, a)
  {
    assert s.broadcast + [] == s.broadcast;
  }

  lemma QueueStep(d: seq<UserEvent>, q: seq<UserEvent>, x: seq<UserEvent>)
    ensures q != [] ==> d + [q[0]] + q[1..] == d + q + []
    ensures d + (q + x) == d + q + x
  {
    if q != [] { assert q == [q[0]] + q[1..]; }
  }

  /** On every run events leave the queue of `run` in the order in which they came in. */
  lemma {:induction false} QueueIsFifo(size: nat, workerNum: nat, states: seq<State>, acts: seq<Action>, i: nat)
    requires IsRun(size, workerNum, states, acts) && i < |states|
    ensures states[i].history.dequeued + states[i].broadcast == Entered(size, states, acts, i)
    decreases i
  {
    if i > 0 {
      QueueIsFifo(size, workerNum, states, acts, i - 1);
      var s := states[i - 1];
      QueueFrame(size, s, acts[i - 1], states[i]);
      QueueStep(s.history.dequeued, s.broadcast, Enters(size, s, acts[i - 1]));
    }
  }

  /** What has gone into the channel of the pool and what workers have taken from it. */
  function IntoPool(states: seq<State>, acts: seq<Action>, i: nat): seq<UserEvent>
    requires i <= |acts| < |states|
  {
    if i == 0 then []
    else
      var s, a := states[i - 1], acts[i - 1];
      IntoPool(states, acts, i - 1) + if a.Submit? && a.i < |s.submitting| then [s.submitting[a.i]] else []
  }

  function OutOfPool(states: seq<State>, acts: seq<Action>, i: nat): seq<UserEvent>
    requires i <= |acts| < |states|
  {
    if i == 0 then []
    else
      var t, a := states[i], acts[i - 1];
      OutOfPool(states, acts, i - 1)
      + if a.Start? && a.w < |t.workers| && t.workers[a.w].Pushing? then [t.workers[a.w].ue] else []
  }

  lemma TasksFrame(size: nat, s: State, a: Action, t: State)
    requires Enabled(size, s, a) && t == Next(size, s, a)
    ensures a.Submit? ==> a.i < |s.submitting| && t.tasks == s.tasks + [s.submitting[a.i]]
    ensures a.Start? ==> s.tasks != [] && t.tasks == s.tasks[1..] && a.w < |t.workers|
                         && t.workers[a.w].Pushing? && t.workers[a.w].ue == s.tasks[0]
    ensures !a.Submit? && !a.Start? ==> t.tasks == s.tasks
  {}

  /** On every run the workers of the pool take the tasks in the order in which they were submitted. */
  lemma {:induction false} PoolIsFifo(size: nat, workerNum: nat, states: seq<State>, acts: seq<Action>, i: nat)
    requires IsRun(size, workerNum, states, acts) && i < |states|
    ensures OutOfPool(states, acts, i) + states[i].tasks == IntoPool(states, acts, i)
    decreases i
  {
    if i > 0 {
      var s, a := states[i - 1], acts[i - 1];
      PoolIsFifo(size, workerNum, states, acts, i - 1);
      TasksFrame(size, s, a, states[i]);
      var b := OutOfPool(states, acts, i - 1);
      if a.Submit? { QueueStep(b, s.tasks, [s.submitting[a.i]]); } else { QueueStep(b, s.tasks, []); }
      assert b + [] == b && b + s.tasks + [] == b + s.tasks;
    }
  }

  /** No channel holds more than its capacity. */
  predicate WithinCapacity(size: nat, s: State) {
    && |s.broadcast| <= size && |s.tasks| <= TASK_CAPACITY
    && forall c :: 0 <= c < |s.conns| ==> |s.conns[c].buffer| <= size
  }

  lemma {:induction false} CapacityKept(size: nat, workerNum: nat, states: seq<State>, acts: seq<Action>, i: nat)
    requires IsRun(size, workerNum, states, acts) && i < |states|
    ensures WithinCapacity(size, states[i])
    decreases i
  {
    if i > 0 {
      CapacityKept(size, workerNum, states, acts, i - 1);
      CapacityStep(size, states[i - 1], acts[i - 1], states[i]);
    }
  }

  lemma CapacityStep(size: nat, s: State, a: Action, t: State)
    requires WithinCapacity(size, s) && Enabled(size, s, a) && t == Next(size, s, a)
    ensures WithinCapacity(size, t)
  {}

  predicate PoolUnused(s: State) {
    s.submitting == [] && s.tasks == [] && forall w :: 0 <= w < |s.workers| ==> s.workers[w].Free?
  }

  /** As long as no push finds the queue full, the pool has nothing to do. */
  lemma {:induction false} PoolOnlyWhenFull(size: nat, workerNum: nat, states: seq<State>, acts: seq<Action>, i: nat)
    requires IsRun(size, workerNum, states, acts) && i < |states|
    requires forall j :: 0 <= j < i && acts[j].Push? ==> |states[j].broadcast| < size
    ensures PoolUnused(states[i])
    decreases i
  {
    if i > 0 {
      PoolOnlyWhenFull(size, workerNum, states, acts, i - 1);
      PoolStep(size, states[i - 1], acts[i - 1], states[i]);
    }
  }

  lemma PoolStep(size: nat, s: State, a: Action, t: State)
    requires PoolUnused(s) && Enabled(size, s, a) && t == Next(size, s, a) && (a.Push? ==> |s.broadcast| < size)
    ensures PoolUnused(t)
  {}

  /** Who gets an event that `run` takes, while every connected client is the one in the map: the
      connected client of its user, at once if its channel has room; without one it is dropped. */
  lemma WhoGetsIt(size: nat, workerNum: nat, states: seq<State>, acts: seq<Action>, i: nat)
    requires IsRun(size, workerNum, states, acts) && i < |acts| && acts[i] == Dequeue && AllReachable(states[i])
    ensures states[i].broadcast != []
    ensures
      var s, t, ue := states[i], states[i + 1], states[i].broadcast[0];
      && (forall c :: 0 <= c < |s.conns| && s.conns[c].Registered() && s.conns[c].uid == ue.uid ==>
            && t.history.offline == s.history.offline && |t.conns| == |s.conns|
            && if |s.conns[c].buffer| < size
               then t.loop.AtSelect? && t.conns[c].buffer == s.conns[c].buffer + [ue]
               else t.loop.Sending? && t.loop.conn == c && t.loop.ue == ue)
      && ((forall c :: 0 <= c < |s.conns| && s.conns[c].Registered() ==> s.conns[c].uid != ue.uid) ==>
            t.history.offline == s.history.offline + [ue] && t.conns == s.conns && t.loop.AtSelect?)
  {
    var s, a := states[i], acts[i];
    assert Enabled(size, s, a);
    ChannelSafety(size, workerNum, states, acts, i);
    if s.broadcast[0].uid in s.clients { assert MapHolds(s, s.broadcast[0].uid); }
  }

  /** Once its handler has ended, the channel of a client is closed; nobody waits on it for ever. */
  predicate EndedIsClosed(s: State) {
    forall c :: 0 <= c < |s.conns| && s.conns[c].phase.Gone? ==> !s.conns[c].open
  }

  lemma EndedStep(size: nat, s: State, a: Action, t: State)
    requires EndedIsClosed(s) && AllReachable(s) && Enabled(size, s, a) && t == Next(size, s, a)
    ensures EndedIsClosed(t)
  {
    if a.Unregister? { assert s.conns[a.c].Registered(); }
  }

  /** On runs on which no user has two connections at once the channel of every ended one is closed. */
  lemma {:induction false} ClosedInTheEnd(size: nat, workerNum: nat, states: seq<State>, acts: seq<Action>, i: nat)
    requires IsRun(size, workerNum, states, acts) && i < |states|
    requires forall j :: 0 <= j < |acts| ==> !Overlaps(states[j], acts[j])
    ensures EndedIsClosed(states[i])
    decreases i
  {
    if i > 0 {
      ClosedInTheEnd(size, workerNum, states, acts, i - 1);
      StaysReachable(size, workerNum, states, acts, i - 1);
      EndedStep(size, states[i - 1], acts[i - 1], states[i]);
    }
  }

  function Rank(p: Phase): nat {
    match p
    case Connecting => 0
    case Serving => 1
    case Leaving => 2
    case Gone => 3
  }

  predicate PhaseForward(s: State, t: State, c: nat) {
    c < |s.conns| ==> c < |t.conns| && Rank(s.conns[c].phase) <= Rank(t.conns[c].phase)
  }

  predicate PhasesForward(states: seq<State>, c: nat) {
    forall i :: 0 <= i < |states| - 1 ==> PhaseForward(states[i], states[i + 1], c)
  }

  lemma RunPhasesForward(size: nat, workerNum: nat, states: seq<State>, acts: seq<Action>, c: nat)
    requires IsRun(size, workerNum, states, acts)
    ensures PhasesForward(states, c)
  {
    forall i | 0 <= i < |states| - 1
      ensures PhaseForward(states[i], states[i + 1], c)
    {
      assert Enabled(size, states[i], acts[i]);
    }
  }

  lemma {:induction false} PhasesGoOn(states: seq<State>, i: nat, j: nat, c: nat)
    requires PhasesForward(states, c) && i <= j < |states|
    ensures PhaseForward(states[i], states[j], c)
    decreases j
  {
    if i < j {
      PhasesGoOn(states, i, j - 1, c);
      assert PhaseForward(states[j - 1], states[j - 1 + 1], c);
    }
  }

  /** A client to which an event could not be written is not written to again. */
  lemma NoWriteAfterFailure(size: nat, workerNum: nat, states: seq<State>, acts: seq<Action>, i: nat, j: nat, c: nat)
    requires IsRun(size, workerNum, states, acts) && i < j < |acts|
    requires acts[i] == Receive(c, false) && acts[j].Receive?
    ensures acts[j].c != c
  {
    assert Enabled(size, states[j], acts[j]);
    FailedLeaves(size, states[i], c, states[i + 1]);
    RunPhasesForward(size, workerNum, states, acts, c);
    PhasesGoOn(states, i + 1, j, c);
  }

  lemma FailedLeaves(size: nat, s: State, c: nat, t: State)
    requires Enabled(size, s, Receive(c, false)) && t == Next(size, s, Receive(c, false))
    ensures c < |t.conns| && Rank(t.conns[c].phase) > Rank(Serving)
  {}

  /** `run` has returned: it takes no event and no client any more. */
  predicate StandsStill(s: State, t: State) {
    s.loop.Returned? ==>
      t.loop.Returned? && t.history.dequeued == s.history.dequeued && t.clients == s.clients
      && t.history.offline == s.history.offline
  }

  predicate StillSteps(states: seq<State>) {
    forall i :: 0 <= i < |states| - 1 ==> StandsStill(states[i], states[i + 1])
  }

  lemma RunStillSteps(size: nat, workerNum: nat, states: seq<State>, acts: seq<Action>)
    requires IsRun(size, workerNum, states, acts)
    ensures StillSteps(states)
  {
    forall i | 0 <= i < |states| - 1
      ensures StandsStill(states[i], states[i + 1])
    {
      assert Enabled(size, states[i], acts[i]);
    }
  }

  lemma {:induction false} StillAfter(states: seq<State>, i: nat, j: nat)
    requires StillSteps(states) && i <= j < |states| && states[i].loop.Returned?
    ensures states[j].loop.Returned? && StandsStill(states[i], states[j])
    decreases j
  {
    if i < j {
      StillAfter(states, i, j - 1);
      assert StandsStill(states[j - 1], states[j - 1 + 1]);
    }
  }

  /** Once the context is cancelled `run` takes nothing more, neither events nor clients. */
  lemma NothingAfterStop(size: nat, workerNum: nat, states: seq<State>, acts: seq<Action>, i: nat, j: nat)
    requires IsRun(size, workerNum, states, acts) && i < j < |states| && acts[i] == Stop
    ensures states[j].history.dequeued == states[i].history.dequeued && states[j].clients == states[i].clients
  {
    assert states[i + 1] == Next(size, states[i], acts[i]);
    RunStillSteps(size, workerNum, states, acts);
    StillAfter(states, i + 1, j);
  }

  /** Nobody is served without a user id. */
  lemma {:induction false} EveryoneHasAName(size: nat, workerNum: nat, states: seq<State>, acts: seq<Action>, i: nat)
    requires IsRun(size, workerNum, states, acts) && i < |states|
    ensures forall c :: 0 <= c < |states[i].conns| ==> states[i].conns[c].uid != ""
    decreases i
  {
    if i > 0 {
      EveryoneHasAName(size, workerNum, states, acts, i - 1);
      NameStep(size, states[i - 1], acts[i - 1], states[i]);
    }
  }

  lemma NameStep(size: nat, s: State, a: Action, t: State)
    requires Enabled(size, s, a) && t == Next(size, s, a)
    requires forall c :: 0 <= c < |s.conns| ==> s.conns[c].uid != ""
    ensures forall c :: 0 <= c < |t.conns| ==> t.conns[c].uid != ""
  {}
}
