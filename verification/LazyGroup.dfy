/** The lazy container of pkg/container/group.  `Get` looks under a read lock, and looks again under
    the write lock before it builds; `Reset` takes the write lock twice.  Threads interleave at
    these critical sections. */
module LazyGroup {
  import opened Wrappers

  /** A built object: by which constructor, and as the how-manyth of all. */
  datatype Obj = Obj(ctor: nat, serial: nat)

  /** What the lock protects, and the number of constructor calls so far. */
  datatype Shared = Shared(ctor: nat, vals: map<string, Obj>, built: nat)

  datatype Op = Get(key: string) | Set(ctor: nat) | Clear

  // ---------- the container as one would like to think of it ----------

  function After(s: Shared, op: Op): Shared {
    match op
    case Get(k) => if k in s.vals then s else Shared(s.ctor, s.vals[k := Obj(s.ctor, s.built)], s.built + 1)
    case Set(c) => s.(ctor := c)
    case Clear => s.(vals := map[])
  }

  function Result(s: Shared, op: Op): Option<Obj> {
    if op.Get? then Some(After(s, op).vals[op.key]) else None
  }

  function Replay(s: Shared, ops: seq<Op>): Shared {
    if ops == [] then s else After(Replay(s, ops[..|ops| - 1]), ops[|ops| - 1])
  }

  // ---------- the critical sections ----------

  class Group {
    var ctor: nat
    var vals: map<string, Obj>
    var built: nat

    ghost function View(): Shared
      reads this
    {
      Shared(ctor, vals, built)
    }

    /** `NewGroup` with a function that is not nil. */
    constructor (fn: nat)
      ensures View() == Shared(fn, map[], 0)
    {
      ctor, vals, built := fn, map[], 0;
    }

    method Lookup(key: string) returns (v: Option<Obj>)
      ensures v == if key in vals then Some(vals[key]) else None
    {
      if key in vals {
        return Some(vals[key]);
      }
      return None;
    }

    method LookupOrBuild(key: string) returns (v: Obj)
      modifies this
      ensures View() == After(old(View()), Op.Get(key))
      ensures Some(v) == Result(old(View()), Op.Get(key))
    {
      if key in vals {
        return vals[key];
      }
      v := Obj(ctor, built);
      built := built + 1;
      vals := vals[key := v];
    }

    /** Without interference the fast path is not to be seen. */
    method Get(key: string) returns (v: Obj)
      modifies this
      ensures View() == After(old(View()), Op.Get(key))
      ensures Some(v) == Result(old(View()), Op.Get(key))
    {
      var found := Lookup(key);
      if found.Some? {
        return found.value;
      }
      v := LookupOrBuild(key);
    }

    method SetNew(fn: nat)
      modifies this
      ensures View() == After(old(View()), Op.Set(fn))
    {
      ctor := fn;
    }

    method Clear()
      modifies this
      ensures View() == After(old(View()), Op.Clear)
    {
      vals := map[];
    }

    /** A nil function panics before anything is touched. */
    method Reset(fn: Option<nat>) returns (panicked: bool)
      modifies this
      ensures panicked == fn.None?
      ensures View() == if panicked then old(View()) else After(After(old(View()), Op.Set(fn.value)), Op.Clear)
    {
      if fn.None? {
        return true;
      }
      SetNew(fn.value);
      Clear();
      return false;
    }
  }

  // ---------- threads ----------

  /** Where a thread is: outside, past a failed look with the read lock, or between the two
      critical sections of `Reset`. */
  datatype Pc = Idle | Missed(key: string) | Swapped

  /** A finished operation: of which thread, and what it returned. */
  datatype Event = Event(t: nat, op: Op, result: Option<Obj>)

  datatype State = State(shared: Shared, pcs: map<nat, Pc>, trace: seq<Event>)

  /** One critical section of thread `t`.  `Wipe` is `Clear`, on its own or as the end of a
      `Reset`. */
  datatype Step = Look(t: nat, key: string) | Build(t: nat) | Swap(t: nat, ctor: nat) | Wipe(t: nat)

  function PcOf(s: State, t: nat): Pc {
    if t in s.pcs then s.pcs[t] else Idle
  }

  predicate Enabled(s: State, step: Step) {
    match step
    case Look(t, _) => PcOf(s, t).Idle?
    case Build(t) => PcOf(s, t).Missed?
    case Swap(t, _) => PcOf(s, t).Idle?
    case Wipe(t) => PcOf(s, t).Idle? || PcOf(s, t).Swapped?
  }

  function Do(s: State, op: Op, t: nat, pc: Pc): State {
    State(After(s.shared, op), s.pcs[t := pc], s.trace + [Event(t, op, Result(s.shared, op))])
  }

  function Next(s: State, step: Step): State
    requires Enabled(s, step)
  {
    match step
    case Look(t, k) =>
      if k in s.shared.vals
      then State(s.shared, s.pcs, s.trace + [Event(t, Get(k), Some(s.shared.vals[k]))])
      else s.(pcs := s.pcs[t := Missed(k)])
    case Build(t) => Do(s, Get(PcOf(s, t).key), t, Idle)
    case Swap(t, c) => Do(s, Set(c), t, Swapped)
    case Wipe(t) => Do(s, Clear, t, Idle)
  }

  function Init(c: nat): State {
    State(Shared(c, map[], 0), map[], [])
  }

  ghost predicate IsRun(c: nat, steps: seq<Step>)
    decreases |steps|, 0
  {
    steps == [] ||
    (var front := steps[..|steps| - 1]; IsRun(c, front) && Enabled(Exec(c, front), steps[|steps| - 1]))
  }

  ghost function Exec(c: nat, steps: seq<Step>): State
    requires IsRun(c, steps)
    decreases |steps|, 1
  {
    if steps == [] then Init(c) else Next(Exec(c, steps[..|steps| - 1]), steps[|steps| - 1])
  }

  lemma OneMore(c: nat, steps: seq<Step>, step: Step)
    requires IsRun(c, steps) && Enabled(Exec(c, steps), step)
    ensures IsRun(c, steps + [step]) && Exec(c, steps + [step]) == Next(Exec(c, steps), step)
  {
    assert (steps + [step])[..|steps|] == steps;
  }

  // ---------- every run looks like operations one after another ----------

  function Ops(trace: seq<Event>): (ops: seq<Op>)
    ensures |ops| == |trace| && forall i :: 0 <= i < |trace| ==> ops[i] == trace[i].op
  {
    seq(|trace|, i requires 0 <= i < |trace| => trace[i].op)
  }

  /** The container just before event `i`, had the events been whole operations in this order. */
  function Before(c: nat, trace: seq<Event>, i: nat): Shared
    requires i <= |trace|
  {
    Replay(Init(c).shared, Ops(trace)[..i])
  }

  ghost predicate Sequential(c: nat, trace: seq<Event>) {
    forall i :: 0 <= i < |trace| ==> trace[i].result == Result(Before(c, trace, i), trace[i].op)
  }

  lemma BeforeStep(c: nat, trace: seq<Event>, i: nat)
    requires i < |trace|
    ensures Before(c, trace, i + 1) == After(Before(c, trace, i), trace[i].op)
  {
    var ops := Ops(trace);
    assert ops[..i + 1][..i] == ops[..i];
  }

  lemma BeforePrefix(c: nat, trace: seq<Event>, e: Event, i: nat)
    requires i <= |trace|
    ensures Before(c, trace + [e], i) == Before(c, trace, i)
  {
    assert Ops(trace + [e])[..i] == Ops(trace)[..i];
  }

  lemma Extend(c: nat, trace: seq<Event>, e: Event)
    requires Sequential(c, trace) && e.result == Result(Before(c, trace, |trace|), e.op)
    ensures Sequential(c, trace + [e])
    ensures Before(c, trace + [e], |trace| + 1) == After(Before(c, trace, |trace|), e.op)
  {
    var longer := trace + [e];
    forall i | 0 <= i < |longer|
      ensures longer[i].result == Result(Before(c, longer, i), longer[i].op)
    {
      BeforePrefix(c, trace, e, i);
    }
    BeforeStep(c, longer, |trace|);
    BeforePrefix(c, trace, e, |trace|);
  }

  /** Whatever the threads do, every `Get` returns what it would return if all operations had run
      one at a time in the order of their last critical sections. */
  lemma {:induction false} Linearizable(c: nat, steps: seq<Step>)
    requires IsRun(c, steps)
    ensures
      var s := Exec(c, steps);
      && Sequential(c, s.trace)
      && s.shared == Before(c, s.trace, |s.trace|)
    decreases |steps|
  {
    if steps != [] {
      var front := steps[..|steps| - 1];
      Linearizable(c, front);
      LinearStep(c, Exec(c, front), steps[|steps| - 1]);
    } else {
      assert Ops([])[..0] == [];
    }
  }

  /** A step changes nothing that is shared, or is the last critical section of one operation. */
  lemma StepIsOperation(p: State, step: Step)
    requires Enabled(p, step)
    ensures
      var s := Next(p, step);
      || (s.trace == p.trace && s.shared == p.shared)
      || (|s.trace| == |p.trace| + 1
          && var e := s.trace[|p.trace|];
             && s.trace == p.trace + [e] && e.result == Result(p.shared, e.op)
             && s.shared == After(p.shared, e.op))
  {}

  lemma LinearStep(c: nat, p: State, step: Step)
    requires Enabled(p, step) && Sequential(c, p.trace) && p.shared == Before(c, p.trace, |p.trace|)
    ensures
      var s := Next(p, step);
      Sequential(c, s.trace) && s.shared == Before(c, s.trace, |s.trace|)
  {
    var s := Next(p, step);
    StepIsOperation(p, step);
    if |s.trace| > |p.trace| {
      Extend(c, p.trace, s.trace[|p.trace|]);
    }
  }

  // ---------- what that means for callers ----------

  ghost predicate NoClear(trace: seq<Event>, i: nat, j: nat)
    requires j <= |trace|
  {
    forall m :: i <= m < j ==> !trace[m].op.Clear?
  }

  /** The constructor was run for event `i`. */
  ghost predicate Built(c: nat, trace: seq<Event>, i: nat)
    requires i < |trace|
  {
    trace[i].op.Get? && trace[i].op.key !in Before(c, trace, i).vals
  }

  lemma {:induction false} Stays(c: nat, trace: seq<Event>, i: nat, j: nat, k: string)
    requires i <= j <= |trace| && k in Before(c, trace, i).vals && NoClear(trace, i, j)
    ensures k in Before(c, trace, j).vals && Before(c, trace, j).vals[k] == Before(c, trace, i).vals[k]
    decreases j
  {
    if i < j {
      Stays(c, trace, i, j - 1, k);
      BeforeStep(c, trace, j - 1);
    }
  }

  /** Between two clears all `Get`s of a key return one object, and only the first of them can have
      run the constructor. */
  lemma OnceBetweenClears(c: nat, steps: seq<Step>, i: nat, j: nat)
    requires IsRun(c, steps)
    requires
      var trace := Exec(c, steps).trace;
      i < j < |trace| && trace[i].op.Get? && trace[j].op == trace[i].op && NoClear(trace, i, j)
    ensures
      var trace := Exec(c, steps).trace;
      trace[j].result == trace[i].result && !Built(c, trace, j)
  {
    Linearizable(c, steps);
    var trace := Exec(c, steps).trace;
    BeforeStep(c, trace, i);
    Stays(c, trace, i + 1, j, trace[i].op.key);
  }

  /** Every cached object is unlike the others and older than the next one to be built. */
  ghost predicate Distinct(s: Shared) {
    && (forall k <- s.vals :: s.vals[k].serial < s.built)
    && (forall k <- s.vals, l <- s.vals :: k != l ==> s.vals[k] != s.vals[l])
  }

  lemma DistinctStep(s: Shared, op: Op)
    requires Distinct(s)
    ensures Distinct(After(s, op))
  {
  }

  /** The constructor in force after the first `i` events was set by one of them from `from` on. */
  ghost predicate SetSince(trace: seq<Event>, from: nat, i: nat, ctor: nat)
    requires i <= |trace|
  {
    exists p :: from <= p < i && trace[p].op == Set(ctor)
  }

  lemma {:induction false} CurrentSince(c: nat, trace: seq<Event>, from: nat, i: nat)
    requires from < i <= |trace| && trace[from].op.Set?
    ensures SetSince(trace, from, i, Before(c, trace, i).ctor)
    decreases i
  {
    BeforeStep(c, trace, i - 1);
    if from < i - 1 {
      CurrentSince(c, trace, from, i - 1);
    }
    assert trace[i - 1].op.Set? ==> trace[i - 1].op == Set(Before(c, trace, i).ctor);
  }

  lemma {:induction false} CachedSince(c: nat, trace: seq<Event>, from: nat, clear: nat, i: nat, k: string)
    requires from < clear < i <= |trace| && trace[from].op.Set? && trace[clear].op.Clear?
    requires k in Before(c, trace, i).vals
    ensures SetSince(trace, from, i, Before(c, trace, i).vals[k].ctor)
    decreases i
  {
    CurrentSince(c, trace, from, i - 1);
    KeyStep(c, trace, i - 1, k);
    if clear < i - 1 && k in Before(c, trace, i - 1).vals {
      CachedSince(c, trace, from, clear, i - 1, k);
    }
  }

  /** An object that is cached behind event `i` was so before it, or is by the constructor in force. */
  lemma KeyStep(c: nat, trace: seq<Event>, i: nat, k: string)
    requires i < |trace| && k in Before(c, trace, i + 1).vals
    ensures
      var was, now := Before(c, trace, i), Before(c, trace, i + 1);
      && !trace[i].op.Clear?
      && (if k in was.vals then now.vals[k] == was.vals[k] else now.vals[k].ctor == was.ctor)
  {
    BeforeStep(c, trace, i);
  }

  /** Once the second half of a `Reset` is done, no `Get` returns an object of a constructor that
      was set before that `Reset`. */
  lemma NeverOlderThanReset(c: nat, steps: seq<Step>, from: nat, clear: nat, i: nat)
    requires IsRun(c, steps)
    requires
      var trace := Exec(c, steps).trace;
      && from < clear < i < |trace|
      && trace[from].op.Set? && trace[clear].op.Clear? && trace[i].op.Get?
    ensures
      var trace := Exec(c, steps).trace;
      trace[i].result.Some? && SetSince(trace, from, i, trace[i].result.value.ctor)
  {
    Linearizable(c, steps);
    GetSince(c, Exec(c, steps).trace, from, clear, i);
  }

  lemma GetSince(c: nat, trace: seq<Event>, from: nat, clear: nat, i: nat)
    requires Sequential(c, trace) && from < clear < i < |trace|
    requires trace[from].op.Set? && trace[clear].op.Clear? && trace[i].op.Get?
    ensures trace[i].result.Some? && SetSince(trace, from, i, trace[i].result.value.ctor)
  {
    var k := trace[i].op.key;
    CurrentSince(c, trace, from, i);
    if k in Before(c, trace, i).vals {
      CachedSince(c, trace, from, clear, i, k);
    }
  }

  ghost predicate Resetting(s: State) {
    exists t :: t in s.pcs && s.pcs[t].Swapped?
  }

  /** While no thread is between the halves of a `Reset`, everything cached is the work of the
      constructor in force; and cached objects are never shared between keys. */
  lemma {:induction false} CachedIsCurrent(c: nat, steps: seq<Step>)
    requires IsRun(c, steps)
    ensures
      var s := Exec(c, steps);
      && Distinct(s.shared)
      && (!Resetting(s) ==> forall k <- s.shared.vals :: s.shared.vals[k].ctor == s.shared.ctor)
    decreases |steps|
  {
    if steps != [] {
      var front, step := steps[..|steps| - 1], steps[|steps| - 1];
      CachedIsCurrent(c, front);
      var p, s := Exec(c, front), Exec(c, steps);
      if !step.Look? {
        DistinctStep(p.shared, s.trace[|p.trace|].op);
      }
      if Resetting(p) && !step.Wipe? {
        var t :| t in p.pcs && p.pcs[t].Swapped?;
        assert s.pcs[t].Swapped?;
      }
      if step.Swap? {
        assert s.pcs[step.t].Swapped?;
      }
    }
  }

  // ---------- stale objects, exactly ----------

  /** The `Get` of the key that filled the cache: the first one behind the last clear. */
  ghost predicate FirstGet(trace: seq<Event>, f: nat, k: string) {
    && f < |trace| && trace[f].op == Get(k) && NoClear(trace, f, |trace|)
    && forall j :: 0 <= j < f && trace[j].op == Get(k) ==> !NoClear(trace, j, f)
  }

  /** Event `h` is the first half of a `Reset` that set the constructor in force; the second half is
      still to come. */
  ghost predicate HalfReset(s: State, h: nat) {
    LastSet(s.trace, h) && PcOf(s, s.trace[h].t).Swapped?
  }

  ghost predicate LastSet(trace: seq<Event>, h: nat) {
    h < |trace| && trace[h].op.Set? && forall j :: h < j < |trace| ==> !trace[j].op.Set?
  }

  lemma LastSetUnique(trace: seq<Event>, g: nat, h: nat)
    requires LastSet(trace, g) && LastSet(trace, h)
    ensures g == h
  {
  }

  /** The step finishes a `Get` of `k`. */
  predicate Returns(s: State, step: Step, k: string) {
    Enabled(s, step) &&
    match step
    case Look(_, key) => key == k && k in s.shared.vals
    case Build(t) => PcOf(s, t).key == k
    case _ => false
  }

  /** After the first half of a `Reset` its thread does nothing but the second half. */
  lemma {:induction false} SwappedUntilWiped(c: nat, steps: seq<Step>, h: nat)
    requires IsRun(c, steps)
    requires
      var trace := Exec(c, steps).trace;
      h < |trace| && trace[h].op.Set? && NoClear(trace, h, |trace|)
    ensures var s := Exec(c, steps); PcOf(s, s.trace[h].t).Swapped?
    decreases |steps|
  {
    var front, step := steps[..|steps| - 1], steps[|steps| - 1];
    var p, s := Exec(c, front), Exec(c, steps);
    if h < |p.trace| {
      assert forall m :: h <= m < |p.trace| ==> p.trace[m] == s.trace[m];
      SwappedUntilWiped(c, front, h);
      if |p.trace| < |s.trace| { assert !s.trace[|p.trace|].op.Clear?; }
    }
  }

  /** Nothing is cached for a key, or its first `Get` since the last clear cached what it built. */
  lemma {:induction false} CachedByFirst(c: nat, trace: seq<Event>, n: nat, k: string) returns (f: nat)
    requires n <= |trace|
    ensures
      var s := Before(c, trace, n);
      k in s.vals ==> FirstGet(trace[..n], f, k) && s.vals[k].ctor == Before(c, trace, f).ctor
    decreases n
  {
    f := 0;
    if n > 0 {
      BeforeStep(c, trace, n - 1);
      var e := trace[n - 1];
      var old_ := Before(c, trace, n - 1);
      f := CachedByFirst(c, trace, n - 1, k);
      if !e.op.Clear? && k in Before(c, trace, n).vals {
        if k in old_.vals {
          FirstStays(trace, n, f, k);
        } else {
          f := n - 1;
          NoneBefore(c, trace, n - 1, k);
        }
      }
    }
  }

  lemma FirstStays(trace: seq<Event>, n: nat, f: nat, k: string)
    requires 0 < n <= |trace| && FirstGet(trace[..n - 1], f, k) && !trace[n - 1].op.Clear?
    ensures FirstGet(trace[..n], f, k)
  {
    var p, q := trace[..n - 1], trace[..n];
    assert forall m :: 0 <= m < n - 1 ==> p[m] == q[m];
    forall j | 0 <= j < f && q[j].op == Get(k)
      ensures !NoClear(q, j, f)
    {
      assert !NoClear(p, j, f);
    }
  }

  /** A key that is not cached has not been got since the last clear. */
  lemma NoneBefore(c: nat, trace: seq<Event>, n: nat, k: string)
    requires n < |trace| && k !in Before(c, trace, n).vals && trace[n].op == Get(k)
    ensures FirstGet(trace[..n + 1], n, k)
  {
    var q := trace[..n + 1];
    forall j | 0 <= j < n && q[j].op == Get(k)
      ensures !NoClear(q, j, n)
    {
      if NoClear(q, j, n) {
        assert forall m :: j <= m < n ==> trace[m] == q[m];
        BeforeStep(c, trace, j);
        Stays(c, trace, j + 1, n, k);
      }
    }
  }

  lemma FirstIsUnique(trace: seq<Event>, f: nat, g: nat, k: string)
    requires FirstGet(trace, f, k) && FirstGet(trace, g, k)
    ensures f == g
  {
    NoClearPart(trace, f, g);
    NoClearPart(trace, g, f);
  }

  lemma NoClearPart(trace: seq<Event>, i: nat, j: nat)
    requires j <= |trace|
    ensures NoClear(trace, i, |trace|) ==> NoClear(trace, i, j)
  {
  }

  /** The constructor in force was there at `f`, or a later event, not followed by another change,
      set it. */
  lemma {:induction false} SetBy(c: nat, trace: seq<Event>, f: nat, n: nat) returns (h: nat)
    requires f <= n <= |trace|
    ensures
      if h < n
      then f <= h && trace[h].op == Set(Before(c, trace, n).ctor) && forall j :: h < j < n ==> !trace[j].op.Set?
      else Before(c, trace, n).ctor == Before(c, trace, f).ctor && forall j :: f <= j < n ==> !trace[j].op.Set?
    decreases n
  {
    if n == f {
      h := n;
    } else {
      BeforeStep(c, trace, n - 1);
      if trace[n - 1].op.Set? {
        h := n - 1;
      } else {
        h := SetBy(c, trace, f, n - 1);
        if h == n - 1 { h := n; }
      }
    }
  }

  /** A `Reset` that is still halfway, its thread has yet to clear, changed the constructor since
      the first `Get` of the key. */
  ghost predicate Overtaken(c: nat, s: State, k: string) {
    exists f: nat, h: nat ::
      FirstGet(s.trace, f, k) && f < h && HalfReset(s, h) && s.trace[h].op.ctor != Before(c, s.trace, f).ctor
  }

  /** The object a `Get` returns is by another constructor than the one in force exactly if such a
      `Reset` has overtaken it. */
  lemma StaleIffHalfReset(c: nat, steps: seq<Step>, step: Step, k: string)
    requires IsRun(c, steps) && Returns(Exec(c, steps), step, k)
    ensures
      var s := Exec(c, steps);
      var t := Next(s, step);
      && |t.trace| == |s.trace| + 1 && t.trace[|s.trace|].result.Some?
      && (t.trace[|s.trace|].result.value.ctor != s.shared.ctor <==> Overtaken(c, s, k))
  {
    var s := Exec(c, steps);
    Linearizable(c, steps);
    if k in s.shared.vals {
      StaleCached(c, steps, k);
    } else if Overtaken(c, s, k) {
      OvertakenIsCached(c, s, k);
    }
  }

  lemma OvertakenIsCached(c: nat, s: State, k: string)
    requires Overtaken(c, s, k)
    ensures k in Before(c, s.trace, |s.trace|).vals
  {
    var f: nat, h: nat :|
      FirstGet(s.trace, f, k) && f < h && HalfReset(s, h) && s.trace[h].op.ctor != Before(c, s.trace, f).ctor;
    BeforeStep(c, s.trace, f);
    Stays(c, s.trace, f + 1, |s.trace|, k);
  }

  lemma StaleCached(c: nat, steps: seq<Step>, k: string)
    requires IsRun(c, steps) && k in Exec(c, steps).shared.vals
    requires Exec(c, steps).shared == Before(c, Exec(c, steps).trace, |Exec(c, steps).trace|)
    ensures var s := Exec(c, steps); s.shared.vals[k].ctor != s.shared.ctor <==> Overtaken(c, s, k)
  {
    var s := Exec(c, steps);
    var n := |s.trace|;
    var f := CachedByFirst(c, s.trace, n, k);
    assert s.trace[..n] == s.trace;
    var h := SetBy(c, s.trace, f, n);
    if h < n {
      assert forall m :: h <= m < n ==> !s.trace[m].op.Clear?;
      SwappedUntilWiped(c, steps, h);
      assert HalfReset(s, h) && f < h;
    }
    forall f': nat, h': nat | FirstGet(s.trace, f', k) && f' < h' && HalfReset(s, h')
      ensures f' == f && h' == h
    {
      FirstIsUnique(s.trace, f, f', k);
      if h < n { LastSetUnique(s.trace, h, h'); }
    }
  }

  /** Between the halves of a `Reset`, `Get` can return an object of the replaced constructor. */
  lemma StaleGet() returns (steps: seq<Step>)
    ensures IsRun(1, steps)
    ensures
      var s := Exec(1, steps);
      && s.shared.ctor == 2
      && |s.trace| == 3 && s.trace[2] == Event(0, Get("k"), Some(Obj(1, 0)))
  {
    var o := Obj(1, 0);
    var built, set_ := Event(0, Get("k"), Some(o)), Event(1, Set(2), None);
    var s1 := State(Shared(1, map[], 0), map[0 := Missed("k")], []);
    var s2 := State(Shared(1, map["k" := o], 1), map[0 := Idle], [built]);
    var s3 := State(Shared(2, map["k" := o], 1), map[0 := Idle, 1 := Swapped], [built, set_]);
    steps := RunOf(1, [], Init(1), Look(0, "k"), s1);
    steps := RunOf(1, steps, s1, Build(0), s2);
    assert [built] + [set_] == [built, set_];
    steps := RunOf(1, steps, s2, Swap(1, 2), s3);
    steps := RunOf(1, steps, s3, Look(0, "k"), State(s3.shared, s3.pcs, s3.trace + [built]));
  }

  lemma RunOf(c: nat, steps: seq<Step>, s: State, step: Step, t: State) returns (longer: seq<Step>)
    requires IsRun(c, steps) && Exec(c, steps) == s && Enabled(s, step) && Next(s, step) == t
    ensures IsRun(c, longer) && Exec(c, longer) == t
  {
    OneMore(c, steps, step);
    longer := steps + [step];
  }
}
