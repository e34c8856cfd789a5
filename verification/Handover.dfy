/** A client that reconnects to pkg/sse while events are pushed: `Serve` registers it and then
    replays what the store holds, the goroutine of `run` puts it into the client map, and `Push`
    saves each event before it looks the user up there.  A run is any interleaving of these steps. */
module Handover {
  import opened Replay
  import opened Wrappers

  /** Who reconnects: the type asked for, the log before the run and the place behind the last id. */
  datatype Client = Client(kind: string, log: seq<Event>, start: nat) {
    ghost predicate Valid() {
      DistinctIDs(log) && start <= |log|
    }
  }

  datatype Action =
    | Handshake          // run receives from h.register, and Serve goes on
    | PutInMap           // h.clients.Set
    | ReadLast           // the last read of resendEvents
    | Save(e: Event)     // Push: h.store.Save
    | LookUp(e: Event)   // Push: h.clients.Has, and pushOne if the user is there
    | Broadcast          // run takes an event from the queue

  /** `saved` are the events between `Save` and `LookUp`, `queue` those on their way to `run`,
      `sent` those it has handed to the client and `replayed` those that were read from the store. */
  datatype State = State(log: seq<Event>, saved: set<Event>, received: bool, mapped: bool,
                         replayed: Option<seq<Event>>, queue: seq<Event>, sent: seq<Event>)

  function Init(c: Client): State {
    State(c.log, {}, false, false, None, [], [])
  }

  ghost predicate Enabled(s: State, a: Action) {
    match a
    case Handshake => !s.received
    case PutInMap => s.received && !s.mapped
    case ReadLast => s.received && s.replayed.None?
    case Save(e) => DistinctIDs(s.log + [e])
    case LookUp(e) => e in s.saved
    case Broadcast => s.queue != []
  }

  /** `ReadLast` is what `Replay.ResendEvents` promises of all its reads together. */
  function Next(c: Client, s: State, a: Action): State
    requires c.start <= |s.log|
    requires a.Broadcast? ==> s.queue != []
  {
    match a
    case Handshake => s.(received := true)
    case PutInMap => s.(mapped := true)
    case ReadLast => s.(replayed := Some(OfKind(c.kind, s.log[c.start..])))
    case Save(e) => s.(log := s.log + [e], saved := s.saved + {e})
    case LookUp(e) => s.(saved := s.saved - {e}, queue := if s.mapped then s.queue + [e] else s.queue)
    case Broadcast => s.(queue := s.queue[1..], sent := s.sent + [s.queue[0]])
  }

  /** `s` is reached by the actions `acts`. */
  ghost predicate Reaches(c: Client, acts: seq<Action>, s: State)
    decreases |acts|
  {
    if acts == [] then s == Init(c)
    else
      var front, a := acts[..|acts| - 1], acts[|acts| - 1];
      exists r :: Reaches(c, front, r) && c.start <= |r.log| && Enabled(r, a) && s == Next(c, r, a)
  }

  /** `b` has happened, and `a` before it. */
  predicate Precedes(acts: seq<Action>, a: Action, b: Action)
    decreases |acts|
  {
    acts != [] &&
    var front := acts[..|acts| - 1];
    if acts[|acts| - 1] == b then a in front else Precedes(front, a, b)
  }

  /** How often the event is handed to the client, by the replay and by `run`. */
  function Copies(s: State, e: Event): nat {
    Replayed(s, e) + multiset(s.queue)[e] + multiset(s.sent)[e]
  }

  function One(b: bool): nat {
    if b then 1 else 0
  }

  /** What the state says about the actions that led to it. */
  ghost predicate Explains(c: Client, acts: seq<Action>, s: State, e: Event) {
    && c.log <= s.log && DistinctIDs(s.log)
    && (e in s.log <==> Save(e) in acts)
    && (s.mapped <==> PutInMap in acts) && (s.replayed.Some? <==> ReadLast in acts)
    && (e in s.saved ==> LookUp(e) !in acts) && (e in s.saved || LookUp(e) in acts ==> e in s.log)
  }

  function Replayed(s: State, e: Event): nat {
    if s.replayed.Some? then multiset(s.replayed.value)[e] else 0
  }

  ghost predicate Counts(acts: seq<Action>, s: State, e: Event) {
    && Replayed(s, e) == One(Precedes(acts, Save(e), ReadLast))
    && multiset(s.queue)[e] + multiset(s.sent)[e] == One(Precedes(acts, PutInMap, LookUp(e)))
  }

  lemma NewIsNew(log: seq<Event>, e: Event)
    ensures DistinctIDs(log + [e]) ==> e !in log
  {
    var more := log + [e];
    if e in log {
      var i :| 0 <= i < |log| && log[i] == e;
      assert more[i].id == more[|log|].id;
    }
  }

  lemma {:induction false} OfKindOnce(kind: string, log: seq<Event>, e: Event)
    requires DistinctIDs(log)
    ensures multiset(OfKind(kind, log))[e] == One(e in log && e.kind == kind)
    decreases |log|
  {
    if log != [] {
      assert log == [log[0]] + log[1..];
      OfKindOnce(kind, log[1..], e);
      assert log[0] !in log[1..];
    }
  }

  // ---------- what one step keeps ----------

  lemma {:induction false} PrecedesIn(acts: seq<Action>, a: Action, b: Action)
    requires Precedes(acts, a, b)
    ensures a in acts && b in acts
    decreases |acts|
  {
    var front, last := acts[..|acts| - 1], acts[|acts| - 1];
    if last != b { PrecedesIn(front, a, b); }
  }

  lemma PrecedesSnoc(acts: seq<Action>, last: Action, a: Action, b: Action)
    ensures Precedes(acts + [last], a, b) <==> if last == b then a in acts else Precedes(acts, a, b)
  {
    assert (acts + [last])[..|acts|] == acts;
  }

  lemma InPart(c: Client, log: seq<Event>, e: Event)
    requires c.Valid() && c.log <= log && DistinctIDs(log) && e !in c.log
    ensures e in log <==> e in log[c.start..]
    ensures DistinctIDs(log[c.start..])
  {
    if e in log {
      var i :| 0 <= i < |log| && log[i] == e;
      assert i >= |c.log|;
      assert log[c.start..][i - c.start] == e;
    }
  }

  lemma ReplayStep(c: Client, acts: seq<Action>, s: State, a: Action, t: State, e: Event)
    requires c.Valid() && e !in c.log && e.kind == c.kind && Explains(c, acts, s, e) && Counts(acts, s, e)
    requires Enabled(s, a) && t == Next(c, s, a)
    ensures Replayed(t, e) == One(Precedes(acts + [a], Save(e), ReadLast))
  {
    PrecedesSnoc(acts, a, Save(e), ReadLast);
    if a == ReadLast {
      InPart(c, s.log, e);
      OfKindOnce(c.kind, s.log[c.start..], e);
    }
  }

  lemma LiveStep(c: Client, acts: seq<Action>, s: State, a: Action, t: State, e: Event)
    requires c.Valid() && Explains(c, acts, s, e) && Counts(acts, s, e) && Enabled(s, a) && t == Next(c, s, a)
    ensures multiset(t.queue)[e] + multiset(t.sent)[e] == One(Precedes(acts + [a], PutInMap, LookUp(e)))
  {
    PrecedesSnoc(acts, a, PutInMap, LookUp(e));
    if a == LookUp(e) {
      if Precedes(acts, PutInMap, LookUp(e)) { PrecedesIn(acts, PutInMap, LookUp(e)); }
    } else if a == Broadcast {
      assert s.queue == [s.queue[0]] + s.queue[1..];
    }
  }

  lemma ExplainsStep(c: Client, acts: seq<Action>, s: State, a: Action, t: State, e: Event)
    requires c.Valid() && Explains(c, acts, s, e) && Enabled(s, a) && t == Next(c, s, a)
    ensures Explains(c, acts + [a], t, e)
  {
    NewIsNew(s.log, e);
    assert forall x: Action :: x in acts + [a] <==> x in acts || x == a;
  }

  lemma {:induction false} Explained(c: Client, acts: seq<Action>, s: State, e: Event)
    requires c.Valid() && Reaches(c, acts, s) && e !in c.log && e.kind == c.kind
    ensures Explains(c, acts, s, e) && Counts(acts, s, e)
    decreases |acts|
  {
    if acts != [] {
      var front, r := LastStep(c, acts, s);
      var a := acts[|acts| - 1];
      Explained(c, front, r, e);
      ReplayStep(c, front, r, a, s, e);
      LiveStep(c, front, r, a, s, e);
      ExplainsStep(c, front, r, a, s, e);
    }
  }

  lemma LastStep(c: Client, acts: seq<Action>, s: State) returns (front: seq<Action>, r: State)
    requires acts != [] && Reaches(c, acts, s)
    ensures front == acts[..|acts| - 1] && acts == front + [acts[|acts| - 1]] && Reaches(c, front, r)
    ensures c.start <= |r.log| && Enabled(r, acts[|acts| - 1]) && s == Next(c, r, acts[|acts| - 1])
  {
    front := acts[..|acts| - 1];
    var a := acts[|acts| - 1];
    r :| Reaches(c, front, r) && c.start <= |r.log| && Enabled(r, a) && s == Next(c, r, a);
  }

  /** On every run: the replay hands the event over if it was saved before the last read, and `run`
      does if the user was put into the map before it was looked up there. */
  lemma CopiesAre(c: Client, acts: seq<Action>, s: State, e: Event)
    requires c.Valid() && Reaches(c, acts, s) && e !in c.log && e.kind == c.kind
    ensures Copies(s, e) == One(Precedes(acts, Save(e), ReadLast)) + One(Precedes(acts, PutInMap, LookUp(e)))
  {
    Explained(c, acts, s, e);
  }

  /** The events looked up while the user is in the map, in order. */
  function Live(acts: seq<Action>): seq<Event>
    decreases |acts|
  {
    if acts == [] then []
    else
      var front, a := acts[..|acts| - 1], acts[|acts| - 1];
      Live(front) + if a.LookUp? && PutInMap in front then [a.e] else []
  }

  lemma LiveOrderStep(c: Client, r: State, a: Action, s: State)
    requires c.start <= |r.log| && Enabled(r, a) && s == Next(c, r, a)
    ensures s.sent + s.queue == r.sent + r.queue + if a.LookUp? && r.mapped then [a.e] else []
  {
    assert r.sent + r.queue + [] == r.sent + r.queue;
    if a.Broadcast? {
      assert r.queue == [r.queue[0]] + r.queue[1..];
      Assoc(r.sent, [r.queue[0]], r.queue[1..]);
    }
    if a.LookUp? { Assoc(r.sent, r.queue, [a.e]); }
  }

  lemma MappedIff(c: Client, r: State, a: Action, s: State)
    requires c.start <= |r.log| && Enabled(r, a) && s == Next(c, r, a)
    ensures s.mapped <==> r.mapped || a.PutInMap?
  {}

  /** On every run the client gets live events in the order in which its user was looked up for them. */
  lemma {:induction false} LiveInOrder(c: Client, acts: seq<Action>, s: State)
    requires Reaches(c, acts, s)
    ensures s.sent + s.queue == Live(acts) && (s.mapped <==> PutInMap in acts)
    decreases |acts|
  {
    if acts != [] {
      var front, r := LastStep(c, acts, s);
      var a := acts[|acts| - 1];
      LiveInOrder(c, front, r);
      LiveOrderStep(c, r, a, s);
      MappedIff(c, r, a, s);
      assert PutInMap in acts <==> PutInMap in front || a == PutInMap;
    }
  }

  // ---------- once, twice or never ----------

  /** The last read and the save of one event come one after the other. */
  lemma {:induction false} ReadOrSaveFirst(c: Client, acts: seq<Action>, s: State, e: Event)
    requires c.Valid() && Reaches(c, acts, s) && e !in c.log && e.kind == c.kind
    requires ReadLast in acts && Save(e) in acts
    ensures Precedes(acts, Save(e), ReadLast) <==> !Precedes(acts, ReadLast, Save(e))
    decreases |acts|
  {
    var front, r := LastStep(c, acts, s);
    var a := acts[|acts| - 1];
    Explained(c, front, r, e);
    PrecedesSnoc(front, a, Save(e), ReadLast);
    PrecedesSnoc(front, a, ReadLast, Save(e));
    if a == ReadLast {
      if Precedes(front, ReadLast, Save(e)) { PrecedesIn(front, ReadLast, Save(e)); }
    } else if a == Save(e) {
      NewIsNew(r.log, e);
      if Precedes(front, Save(e), ReadLast) { PrecedesIn(front, Save(e), ReadLast); }
    } else {
      ReadOrSaveFirst(c, front, r, e);
    }
  }

  lemma {:induction false} MapFirst(c: Client, acts: seq<Action>, s: State, e: Event)
    requires c.Valid() && Reaches(c, acts, s) && e !in c.log && e.kind == c.kind
    requires Precedes(acts, PutInMap, ReadLast) && LookUp(e) in acts
    ensures Precedes(acts, Save(e), ReadLast) || Precedes(acts, PutInMap, LookUp(e))
    decreases |acts|
  {
    var front, r := LastStep(c, acts, s);
    var a := acts[|acts| - 1];
    Explained(c, front, r, e);
    PrecedesSnoc(front, a, PutInMap, ReadLast);
    PrecedesSnoc(front, a, Save(e), ReadLast);
    PrecedesSnoc(front, a, PutInMap, LookUp(e));
    if a == LookUp(e) {
      PrecedesIn(front, PutInMap, ReadLast);
    } else if a != ReadLast {
      MapFirst(c, front, r, e);
    }
  }

  /** An event pushed while its user reconnects, once it has been saved and looked up and the replay
      has read the store for the last time: handed over twice exactly if it was saved before that
      read and the user was in the map before the look-up, never exactly if neither was, and so
      exactly once in the other cases. */
  lemma HandedOver(c: Client, acts: seq<Action>, s: State, e: Event)
    requires c.Valid() && Reaches(c, acts, s) && e !in c.log && e.kind == c.kind
    requires ReadLast in acts && LookUp(e) in acts
    ensures
      var replayed, live := !Precedes(acts, ReadLast, Save(e)), Precedes(acts, PutInMap, LookUp(e));
      && (Copies(s, e) == 1 <==> replayed != live)
      && (Copies(s, e) == 2 <==> replayed && live)
      && (Copies(s, e) == 0 <==> !replayed && !live)
    ensures Precedes(acts, PutInMap, ReadLast) ==> Copies(s, e) > 0
  {
    Explained(c, acts, s, e);
    ReadOrSaveFirst(c, acts, s, e);
    if Precedes(acts, PutInMap, ReadLast) { MapFirst(c, acts, s, e); }
  }

  lemma Extend(c: Client, acts: seq<Action>, s: State, a: Action) returns (acts': seq<Action>, s': State)
    requires Reaches(c, acts, s) && c.start <= |s.log| && Enabled(s, a)
    ensures acts' == acts + [a] && s' == Next(c, s, a) && Reaches(c, acts', s')
  {
    acts', s' := acts + [a], Next(c, s, a);
    assert acts'[..|acts|] == acts;
  }

  /** A lost event: the handler goes on and reads the store before `run` has put it into the map,
      and the event is saved and looked up in between. */
  lemma NeverHandedOver(c: Client, e: Event) returns (acts: seq<Action>, s: State)
    requires c.Valid() && DistinctIDs(c.log + [e]) && e.kind == c.kind
    ensures acts == [Handshake, ReadLast, Save(e), LookUp(e), PutInMap]
    ensures Reaches(c, acts, s) && e in s.log && s.mapped && s.queue == [] && Copies(s, e) == 0
  {
    acts, s := [], Init(c);
    acts, s := Extend(c, acts, s, Handshake);
    acts, s := Extend(c, acts, s, ReadLast);
    acts, s := Extend(c, acts, s, Save(e));
    acts, s := Extend(c, acts, s, LookUp(e));
    acts, s := Extend(c, acts, s, PutInMap);
    NotYetThere(c, e);
  }

  lemma NotYetThere(c: Client, e: Event)
    requires c.Valid() && DistinctIDs(c.log + [e])
    ensures e !in c.log && DistinctIDs(c.log[c.start..]) && multiset(OfKind(c.kind, c.log[c.start..]))[e] == 0
  {
    NewIsNew(c.log, e);
    OfKindOnce(c.kind, c.log[c.start..], e);
  }

  lemma SavedAndLookedUp(c: Client, e: Event) returns (acts: seq<Action>, s: State)
    requires c.Valid() && DistinctIDs(c.log + [e])
    ensures acts == [Handshake, PutInMap, Save(e), LookUp(e)]
    ensures Reaches(c, acts, s) && s == State(c.log + [e], {}, true, true, None, [e], [])
  {
    acts, s := [], Init(c);
    acts, s := Extend(c, acts, s, Handshake);
    acts, s := Extend(c, acts, s, PutInMap);
    acts, s := Extend(c, acts, s, Save(e));
    acts, s := Extend(c, acts, s, LookUp(e));
  }

  /** An event handed over twice: the user is in the map before the replay reads the event. */
  lemma TwiceHandedOver(c: Client, e: Event) returns (acts: seq<Action>, s: State)
    requires c.Valid() && DistinctIDs(c.log + [e]) && e.kind == c.kind
    ensures acts == [Handshake, PutInMap, Save(e), LookUp(e), ReadLast, Broadcast]
    ensures Reaches(c, acts, s) && s.queue == [] && s.sent == [e] && s.replayed.Some? && e in s.replayed.value
  {
    acts, s := SavedAndLookedUp(c, e);
    acts, s := Extend(c, acts, s, ReadLast);
    acts, s := Extend(c, acts, s, Broadcast);
    ThereAtOnce(c, e);
  }

  lemma ThereAtOnce(c: Client, e: Event)
    requires c.Valid() && DistinctIDs(c.log + [e]) && e.kind == c.kind
    ensures e in OfKind(c.kind, (c.log + [e])[c.start..])
  {
    var log := (c.log + [e])[c.start..];
    assert log[|c.log| - c.start] == e && DistinctIDs(log);
    OfKindOnce(c.kind, log, e);
  }
}
