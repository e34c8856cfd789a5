/** `Hub.resendEvents` of pkg/sse/hub.go: the paged replay of stored events to a client that has
    reconnected, over any store that keeps the contract of the `Store` interface. */
module Replay {
  import opened Wrappers

  datatype Event = Event(id: string, kind: string)

  /** The events of one type, in log order. */
  function OfKind(kind: string, log: seq<Event>): seq<Event> {
    if log == [] then []
    else (if log[0].kind == kind then [log[0]] else []) + OfKind(kind, log[1..])
  }

  predicate DistinctIDs(log: seq<Event>) {
    && (forall i :: 0 <= i < |log| ==> log[i].id != "")
    && (forall i, j :: 0 <= i < j < |log| ==> log[i].id != log[j].id)
  }

  /** The position behind the event with the given id; the start of the log for an unknown id. */
  function Behind(log: seq<Event>, id: string): (n: nat)
    ensures n <= |log|
    ensures n > 0 ==> log[n - 1].id == id
    ensures n == 0 ==> forall i :: 0 <= i < |log| ==> log[i].id != id
  {
    if log == [] then 0
    else if log[|log| - 1].id == id then |log|
    else Behind(log[..|log| - 1], id)
  }

  /** What a client that has seen everything up to `lastID` is still owed. */
  function Owed(log: seq<Event>, kind: string, lastID: string): seq<Event> {
    OfKind(kind, log[Behind(log, lastID)..])
  }

  /** The contract of `ListByLastID`: a first part of what is owed, at most a page of it, empty only
      when nothing is owed, and the id to go on from; no id means that this was all. */
  predicate IsPage(log: seq<Event>, kind: string, lastID: string, pageSize: nat, page: seq<Event>, next: string) {
    var owed := Owed(log, kind, lastID);
    && page <= owed && |page| <= pageSize && (page == [] ==> owed == [])
    && if next == "" then page == owed else page != [] && next == page[|page| - 1].id
  }

  /** A store that others append to while it is read.  `final` is the log as it will be when the
      last of them has finished; at any time the log is some beginning of it. */
  class Store {
    var log: seq<Event>
    const final: seq<Event>

    constructor (log: seq<Event>, final: seq<Event>)
      requires log <= final && DistinctIDs(final)
      ensures this.log == log && this.final == final && Valid()
    {
      this.log, this.final := log, final;
    }

    ghost predicate Valid()
      reads this
    {
      log <= final && DistinctIDs(final)
    }

    /** Any store: how far it has grown, how much it puts on a page, and whether it says on the last
        page that there is no more or leaves that to an empty one, is its own choice, and it may
        fail. */
    method ListByLastID(kind: string, lastID: string, pageSize: nat)
      returns (page: seq<Event>, next: string, failed: bool)
      requires pageSize > 0 && Valid()
      modifies this`log
      ensures Valid() && old(log) <= log
      ensures !failed ==> IsPage(log, kind, lastID, pageSize, page, next)
    {
      var m: nat :| |log| <= m <= |final|;
      log := final[..m];
      var owed := Owed(log, kind, lastID);
      failed := *;
      var n: nat :| n <= |owed| && n <= pageSize && (owed != [] ==> n > 0);
      page := owed[..n];
      var sayMore: bool := *;
      next := if n > 0 && (n < |owed| || sayMore) then page[n - 1].id else "";
      if n > 0 { HasID(log, kind, lastID, n); }
      PageOf(log, kind, lastID, pageSize, n, next);
    }
  }

  lemma HasID(log: seq<Event>, kind: string, lastID: string, n: nat)
    requires DistinctIDs(log) && 0 < n <= |Owed(log, kind, lastID)|
    ensures Owed(log, kind, lastID)[n - 1].id != ""
  {
    var start := Behind(log, lastID);
    var at := OfKindCut(kind, log[start..], n);
    assert log[start..][at] == log[start + at];
  }

  lemma PageOf(log: seq<Event>, kind: string, lastID: string, pageSize: nat, n: nat, next: string)
    requires DistinctIDs(log) && n <= |Owed(log, kind, lastID)| && n <= pageSize
    requires
      var owed := Owed(log, kind, lastID);
      (owed != [] ==> n > 0) && (if n > 0 && next != "" then next == owed[n - 1].id else n == |owed| && next == "")
    ensures IsPage(log, kind, lastID, pageSize, Owed(log, kind, lastID)[..n], next)
  {
  }

  /** The first `n` events of a type end at some place of the log. */
  lemma {:induction false} OfKindCut(kind: string, log: seq<Event>, n: nat) returns (at: nat)
    requires 0 < n <= |OfKind(kind, log)|
    ensures at < |log| && log[at] == OfKind(kind, log)[n - 1]
    ensures OfKind(kind, log[..at + 1]) == OfKind(kind, log)[..n]
    ensures OfKind(kind, log[at + 1..]) == OfKind(kind, log)[n..]
    decreases |log|
  {
    if log[0].kind == kind && n == 1 {
      at := 0;
      FirstCut(kind, log);
    } else {
      var m := if log[0].kind == kind then n - 1 else n;
      var i := OfKindCut(kind, log[1..], m);
      at := i + 1;
      LaterCut(kind, log, m, i);
    }
  }

  lemma FirstCut(kind: string, log: seq<Event>)
    requires log != [] && log[0].kind == kind
    ensures OfKind(kind, log)[0] == log[0] && OfKind(kind, log)[1..] == OfKind(kind, log[1..])
    ensures OfKind(kind, log[..1]) == OfKind(kind, log)[..1]
  {
    assert log[..1] == [log[0]] && OfKind(kind, log[..1][1..]) == [];
  }

  lemma LaterCut(kind: string, log: seq<Event>, m: nat, i: nat)
    requires log != [] && m <= |OfKind(kind, log[1..])| && i < |log[1..]|
    requires OfKind(kind, log[1..][..i + 1]) == OfKind(kind, log[1..])[..m]
    requires OfKind(kind, log[1..][i + 1..]) == OfKind(kind, log[1..])[m..]
    ensures
      var n := if log[0].kind == kind then m + 1 else m;
      && OfKind(kind, log[..i + 2]) == OfKind(kind, log)[..n]
      && OfKind(kind, log[i + 2..]) == OfKind(kind, log)[n..]
  {
    var own, t := if log[0].kind == kind then [log[0]] else [], log[1..];
    OfKindCons(kind, log, log[0], t);
    OfKindCons(kind, log[..i + 2], log[0], t[..i + 1]);
    CutTail(log, i);
    CutBehind(own, OfKind(kind, t), m);
  }

  lemma CutBehind(own: seq<Event>, rest: seq<Event>, m: nat)
    requires m <= |rest|
    ensures (own + rest)[..|own| + m] == own + rest[..m] && (own + rest)[|own| + m..] == rest[m..]
  {
  }

  lemma OfKindCons(kind: string, log: seq<Event>, e: Event, t: seq<Event>)
    requires log == [e] + t
    ensures OfKind(kind, log) == (if e.kind == kind then [e] else []) + OfKind(kind, t)
  {
    assert log[1..] == t;
  }

  lemma CutTail(log: seq<Event>, i: nat)
    requires i + 1 < |log|
    ensures log[1..][i + 1..] == log[i + 2..] && log[..i + 2][1..] == log[1..][..i + 1]
  {
  }

  lemma BehindIs(log: seq<Event>, i: nat)
    requires DistinctIDs(log) && i < |log|
    ensures Behind(log, log[i].id) == i + 1
  {
  }

  /** A known id stays where it is when the log grows. */
  lemma {:induction false} BehindStays(log: seq<Event>, more: seq<Event>, id: string)
    requires log <= more && DistinctIDs(more) && Behind(log, id) > 0
    ensures Behind(more, id) == Behind(log, id)
  {
    var n := Behind(log, id);
    assert more[n - 1] == log[n - 1];
    BehindIs(more, n - 1);
  }

  lemma {:induction false} OfKindAppend(kind: string, a: seq<Event>, b: seq<Event>)
    ensures OfKind(kind, a + b) == OfKind(kind, a) + OfKind(kind, b)
    decreases |a|
  {
    if a == [] {
      assert a + b == b;
    } else {
      assert (a + b)[1..] == a[1..] + b;
      OfKindAppend(kind, a[1..], b);
      Assoc(if a[0].kind == kind then [a[0]] else [], OfKind(kind, a[1..]), OfKind(kind, b));
    }
  }

  /** Going on from the last event of a page, exactly the rest is owed, also of a longer log. */
  lemma OwedAfterPage(log: seq<Event>, kind: string, lastID: string, n: nat)
    requires DistinctIDs(log) && 0 < n <= |Owed(log, kind, lastID)|
    ensures
      var owed := Owed(log, kind, lastID);
      var start, next := Behind(log, lastID), Behind(log, owed[n - 1].id);
      && start < next <= |log|
      && Owed(log, kind, owed[n - 1].id) == owed[n..]
      && OfKind(kind, log[start..next]) == owed[..n]
  {
    var to := CutFrom(kind, log, Behind(log, lastID), n);
    BehindIs(log, to - 1);
    assert Behind(log, Owed(log, kind, lastID)[n - 1].id) == to;
  }

  lemma CutFrom(kind: string, log: seq<Event>, start: nat, n: nat) returns (to: nat)
    requires start <= |log| && 0 < n <= |OfKind(kind, log[start..])|
    ensures start < to <= |log| && log[to - 1] == OfKind(kind, log[start..])[n - 1]
    ensures OfKind(kind, log[start..to]) == OfKind(kind, log[start..])[..n]
    ensures OfKind(kind, log[to..]) == OfKind(kind, log[start..])[n..]
  {
    var at := OfKindCut(kind, log[start..], n);
    to := start + at + 1;
    assert log[start..][at + 1..] == log[to..] && log[start..][..at + 1] == log[start..to];
  }

  /** Among events with different ids no event is sent twice. */
  lemma {:induction false} OfKindDistinct(kind: string, log: seq<Event>)
    requires DistinctIDs(log)
    ensures DistinctIDs(OfKind(kind, log))
    ensures forall e <- OfKind(kind, log) :: e in log
    decreases |log|
  {
    if log != [] {
      var t := OfKind(kind, log[1..]);
      OfKindDistinct(kind, log[1..]);
      forall e <- t
        ensures e.id != log[0].id
      {
        var i :| 0 <= i < |log[1..]| && log[1..][i] == e;
        assert e == log[i + 1];
      }
    }
  }

  /** The inner loop: every event of a page is handed to `sendEvent`, whatever became of the one
      before it.  `refused` collects those that could not be sent. */
  method SendPage(events: seq<Event>) returns (attempted: seq<Event>, refused: seq<Event>)
    ensures attempted == events && multiset(refused) <= multiset(events)
  {
    attempted, refused := [], [];
    for i := 0 to |events|
      invariant attempted == events[..i] && multiset(refused) <= multiset(attempted)
    {
      var ok: bool := *;
      if !ok {
        refused := refused + [events[i]];
      }
      attempted := attempted + [events[i]];
    }
  }

  /** One more page of what the log holds, when `attempted` is what stands before `at`. */
  lemma OnePage(log: seq<Event>, final: seq<Event>, kind: string, lastID: string, start: nat,
                attempted: seq<Event>, n: nat)
    requires log <= final && DistinctIDs(final) && 0 < n <= |Owed(log, kind, lastID)|
    requires start <= Behind(log, lastID) && attempted == OfKind(kind, final[start..Behind(log, lastID)])
    ensures
      var owed := Owed(log, kind, lastID);
      var to := Behind(log, owed[n - 1].id);
      Behind(log, lastID) < to <= |log| && attempted + owed[..n] == OfKind(kind, final[start..to])
  {
    var at := Behind(log, lastID);
    OwedAfterPage(log, kind, lastID, n);
    var to := Behind(log, Owed(log, kind, lastID)[n - 1].id);
    OfKindSlices(log, final, kind, start, at, to);
  }

  lemma OfKindSlices(log: seq<Event>, final: seq<Event>, kind: string, start: nat, at: nat, to: nat)
    requires log <= final && start <= at <= to <= |log|
    ensures OfKind(kind, final[start..to]) == OfKind(kind, final[start..at]) + OfKind(kind, log[at..to])
  {
    assert final[start..to] == final[start..at] + log[at..to];
    OfKindAppend(kind, final[start..at], log[at..to]);
  }

  lemma AllRead(log: seq<Event>, final: seq<Event>, kind: string, start: nat, at: nat)
    requires log <= final && start <= at <= |log|
    ensures OfKind(kind, log[start..]) == OfKind(kind, final[start..at]) + OfKind(kind, log[at..])
  {
    assert log[start..] == final[start..at] + log[at..];
    OfKindAppend(kind, final[start..at], log[at..]);
  }

  /** All that stands behind `start` and up to the id to go on from has been attempted. */
  ghost predicate Reached(log: seq<Event>, final: seq<Event>, kind: string, start: nat, lastID: string,
                          attempted: seq<Event>)
  {
    && log <= final && DistinctIDs(final)
    && start <= Behind(log, lastID) && attempted == OfKind(kind, final[start..Behind(log, lastID)])
  }

  lemma StillOwed(log: seq<Event>, final: seq<Event>, kind: string, start: nat, lastID: string,
                  attempted: seq<Event>)
    requires Reached(log, final, kind, start, lastID, attempted)
    ensures OfKind(kind, log[start..]) == attempted + Owed(log, kind, lastID)
  {
    AllRead(log, final, kind, start, Behind(log, lastID));
  }

  lemma PageReached(log: seq<Event>, final: seq<Event>, kind: string, start: nat, lastID: string,
                    attempted: seq<Event>, n: nat)
    requires Reached(log, final, kind, start, lastID, attempted) && 0 < n <= |Owed(log, kind, lastID)|
    ensures
      var owed := Owed(log, kind, lastID);
      && Reached(log, final, kind, start, owed[n - 1].id, attempted + owed[..n])
      && Behind(log, lastID) < Behind(log, owed[n - 1].id)
  {
    OnePage(log, final, kind, lastID, start, attempted, n);
  }

  lemma LastPage(log: seq<Event>, kind: string, lastID: string, page: seq<Event>, next: string)
    requires IsPage(log, kind, lastID, 100, page, next) && (page == [] || next == "")
    ensures page == Owed(log, kind, lastID)
  {
    assert page == Owed(log, kind, lastID)[..|page|];
  }

  lemma PageDone(log: seq<Event>, final: seq<Event>, kind: string, start: nat, lastID: string,
                 attempted: seq<Event>, page: seq<Event>, next: string)
    requires Reached(log, final, kind, start, lastID, attempted)
    requires IsPage(log, kind, lastID, 100, page, next)
    ensures
      var all := OfKind(kind, log[start..]);
      && attempted <= all && (page == [] || next == "" ==> attempted + page == all)
      && (next != "" ==>
            Reached(log, final, kind, start, next, attempted + page) && Behind(log, lastID) < Behind(log, next))
  {
    StillOwed(log, final, kind, start, lastID, attempted);
    if page == [] || next == "" { LastPage(log, kind, lastID, page, next); }
    if next != "" {
      assert page == Owed(log, kind, lastID)[..|page|];
      PageReached(log, final, kind, start, lastID, attempted, |page|);
    }
  }

  lemma ReachedLater(log: seq<Event>, more: seq<Event>, final: seq<Event>, kind: string, start: nat,
                     lastID: string, attempted: seq<Event>)
    requires Reached(log, final, kind, start, lastID, attempted) && log <= more <= final && Behind(log, lastID) > 0
    ensures Reached(more, final, kind, start, lastID, attempted) && Behind(more, lastID) == Behind(log, lastID)
  {
    BehindStays(log, more, lastID);
  }

  lemma ReachedFirst(log: seq<Event>, final: seq<Event>, kind: string, lastID: string)
    requires log <= final && DistinctIDs(final)
    ensures Reached(log, final, kind, Behind(log, lastID), lastID, [])
  {
    var at := Behind(log, lastID);
    assert final[at..at] == [];
  }

  lemma SoFar(log: seq<Event>, final: seq<Event>, kind: string, start: nat, lastID: string, attempted: seq<Event>)
    requires Reached(log, final, kind, start, lastID, attempted)
    ensures attempted <= OfKind(kind, log[start..])
  {
    AllRead(log, final, kind, start, Behind(log, lastID));
  }

  lemma Refused(refused: seq<Event>, attempted: seq<Event>, unsent: seq<Event>, page: seq<Event>)
    requires multiset(refused) <= multiset(attempted) && multiset(unsent) <= multiset(page)
    ensures multiset(refused + unsent) <= multiset(attempted + page)
  {
  }

  /** `resendEvents`: once each and in order, exactly the events of the type that the log holds
      behind the given id when it is read for the last time.  The id is looked up in `first`, the
      log at the first read.  A store that fails cuts this short. */
  method ResendEvents(store: Store, eventType: string, lastEventID0: string)
    returns (attempted: seq<Event>, refused: seq<Event>, failed: bool, ghost first: seq<Event>)
    requires store.Valid()
    modifies store`log
    ensures store.Valid() && old(store.log) <= first <= store.log
    ensures
      var owed := OfKind(eventType, store.log[Behind(first, lastEventID0)..]);
      if failed then attempted <= owed else attempted == owed
    ensures multiset(refused) <= multiset(attempted)
  {
    var lastEventID := lastEventID0;
    attempted, refused := [], [];
    first := store.log;
    ghost var begun := false;
    while true
      invariant store.Valid() && old(store.log) <= first <= store.log
      invariant !begun ==> attempted == [] && lastEventID == lastEventID0 && first == store.log
      invariant begun ==> Behind(store.log, lastEventID) > 0
      invariant begun ==>
        Reached(store.log, store.final, eventType, Behind(first, lastEventID0), lastEventID, attempted)
      invariant multiset(refused) <= multiset(attempted)
      decreases if begun then |store.final| - Behind(store.log, lastEventID) else |store.final| + 1
    {
      ghost var before := store.log;
      var events, nextID, err := store.ListByLastID(eventType, lastEventID, 100);
      if begun {
        ReachedLater(before, store.log, store.final, eventType, Behind(first, lastEventID0), lastEventID, attempted);
      } else {
        first, begun := store.log, true;
        ReachedFirst(first, store.final, eventType, lastEventID0);
      }
      ghost var start := Behind(first, lastEventID0);
      SoFar(store.log, store.final, eventType, start, lastEventID, attempted);
      if err {
        return attempted, refused, true, first;
      }
      PageDone(store.log, store.final, eventType, start, lastEventID, attempted, events, nextID);
      if |events| == 0 {
        return attempted, refused, false, first;
      }
      var sent, unsent := SendPage(events);
      Refused(refused, attempted, unsent, sent);
      attempted, refused := attempted + sent, refused + unsent;
      lastEventID := nextID;
      if nextID == "" {
        return attempted, refused, false, first;
      }
    }
  }

  /** A client with an id that the store knew gets what is owed to it of the last log, and nobody
      gets an event twice. */
  lemma OwedAtLast(first: seq<Event>, log: seq<Event>, kind: string, id: string)
    requires first <= log && DistinctIDs(log)
    ensures Behind(first, id) > 0 ==> Owed(log, kind, id) == OfKind(kind, log[Behind(first, id)..])
    ensures DistinctIDs(OfKind(kind, log[Behind(first, id)..]))
  {
    if Behind(first, id) > 0 { BehindStays(first, log, id); }
    OfKindDistinct(kind, log[Behind(first, id)..]);
  }
}
