/** The resource alarm of pkg/stat: a window of three samples, and a pause between alarms. */
module AlarmWindow {
  import opened Wrappers

  type Uint64 = x: int | 0 <= x < 0x1_0000_0000_0000_0000

  datatype Sample = Sample(cores: int, memTotal: Uint64, cpuUsage: real, rss: Uint64)

  /** One call of `check`: the sample, and what the two clock readings in it show.  The second one
      is taken only if an alarm is raised. */
  datatype Call = Call(sample: Sample, now: real, stamp: real)

  datatype Limits = Limits(cpu: real, memory: real, interval: real)

  // ---------- when usage is too high ----------

  function Sum(a: Uint64, b: Uint64, c: Uint64): Uint64 {
    (a + b + c) % 0x1_0000_0000_0000_0000
  }

  predicate HighCPU(w: seq<Sample>, l: Limits)
    requires |w| == 3
  {
    w[0].cores != 0 && (w[0].cpuUsage + w[1].cpuUsage + w[2].cpuUsage) / 3.0 >= l.cpu * 100.0
  }

  predicate HighMemory(w: seq<Sample>, l: Limits)
    requires |w| == 3
  {
    && w[0].memTotal != 0
    && (Sum(w[0].rss, w[1].rss, w[2].rss) / 3) as real / w[0].memTotal as real >= l.memory
  }

  predicate High(w: seq<Sample>, l: Limits) {
    |w| == 3 && (HighCPU(w, l) || HighMemory(w, l))
  }

  lemma Share(x: real, t: real, m: real)
    requires t > 0.0
    ensures x / t >= m <==> x >= m * t
  {
    if x / t >= m { assert x == (x / t) * t >= m * t; }
    if x >= m * t { assert x / t >= (m * t) / t == m; }
  }

  /** Both conditions without an average: three usages that add up to 300 times the processor limit,
      or memory whose third, rounded down, is at least the limit of the whole; neither of a machine
      that shows no cores or no memory.  `rss` is the sum of the three, as 64 bits hold it. */
  lemma HighIff(a: Sample, b: Sample, c: Sample, l: Limits, rss: int)
    requires 0 <= rss < 0x1_0000_0000_0000_0000
    requires (a.rss + b.rss + c.rss - rss) % 0x1_0000_0000_0000_0000 == 0
    ensures
      High([a, b, c], l) <==>
      || (a.cores != 0 && a.cpuUsage + b.cpuUsage + c.cpuUsage >= 300.0 * l.cpu)
      || (a.memTotal != 0 && (rss / 3) as real >= l.memory * a.memTotal as real)
  {
    var w := [a, b, c];
    CPUIff(w, l);
    MemoryIff(w, l, rss);
  }

  lemma CPUIff(w: seq<Sample>, l: Limits)
    requires |w| == 3
    ensures HighCPU(w, l) <==>
            w[0].cores != 0 && w[0].cpuUsage + w[1].cpuUsage + w[2].cpuUsage >= 300.0 * l.cpu
  {
    Third(w[0].cpuUsage + w[1].cpuUsage + w[2].cpuUsage, l.cpu);
  }

  lemma MemoryIff(w: seq<Sample>, l: Limits, rss: int)
    requires |w| == 3 && 0 <= rss < 0x1_0000_0000_0000_0000
    requires (w[0].rss + w[1].rss + w[2].rss - rss) % 0x1_0000_0000_0000_0000 == 0
    ensures HighMemory(w, l) <==> w[0].memTotal != 0 && (rss / 3) as real >= l.memory * w[0].memTotal as real
  {
    SumIs(w[0].rss, w[1].rss, w[2].rss, rss);
    if w[0].memTotal != 0 { Share((rss / 3) as real, w[0].memTotal as real, l.memory); }
  }

  lemma Third(x: real, m: real)
    ensures x / 3.0 >= m * 100.0 <==> x >= 300.0 * m
  {}

  lemma SumIs(a: Uint64, b: Uint64, c: Uint64, rss: int)
    requires 0 <= rss < 0x1_0000_0000_0000_0000
    requires (a + b + c - rss) % 0x1_0000_0000_0000_0000 == 0
    ensures Sum(a, b, c) == rss
  {}

  // ---------- one call ----------

  datatype State = State(window: seq<Sample>, alarmAt: Option<real>)

  function Push(w: seq<Sample>, s: Sample): seq<Sample> {
    [s] + if |w| > 2 then w[..2] else w
  }

  predicate Fires(st: State, c: Call, l: Limits) {
    High(Push(st.window, c.sample), l) && (st.alarmAt.Some? ==> c.now - st.alarmAt.value >= l.interval)
  }

  function After(st: State, c: Call, l: Limits): State {
    State(Push(st.window, c.sample), if Fires(st, c, l) then Some(c.stamp) else st.alarmAt)
  }

  class StatGroup {
    const data: array<Option<Sample>>
    var alarmAt: Option<real>

    constructor ()
      ensures Valid() && Show() == State([], None) && fresh(data)
    {
      data := new Option<Sample>[3](i => None);
      alarmAt := None;
    }

    ghost predicate Valid()
      reads this, data
    {
      && data.Length == 3
      && (data[1].Some? ==> data[0].Some?) && (data[2].Some? ==> data[1].Some?)
    }

    ghost function Show(): State
      requires Valid()
      reads this, data
    {
      State(
        if data[0].None? then []
        else if data[1].None? then [data[0].value]
        else if data[2].None? then [data[0].value, data[1].value]
        else [data[0].value, data[1].value, data[2].value],
        alarmAt)
    }

    method Check(c: Call, l: Limits) returns (fired: bool)
      requires Valid()
      modifies this, data
      ensures Valid() && Show() == After(old(Show()), c, l)
      ensures fired == Fires(old(Show()), c, l)
    {
      if data[0].None? {
        data[0] := Some(c.sample);
        return false;
      } else if data[1].None? {
        data[1] := data[0];
        data[0] := Some(c.sample);
        return false;
      }
      data[2] := data[1];
      data[1] := data[0];
      data[0] := Some(c.sample);
      var w := [data[0].value, data[1].value, data[2].value];
      assert w == Push(old(Show().window), c.sample);
      if HighCPU(w, l) || HighMemory(w, l) {
        if alarmAt.None? {
          alarmAt := Some(c.stamp);
          return true;
        }
        if c.now - alarmAt.value >= l.interval {
          alarmAt := Some(c.stamp);
          return true;
        }
      }
      return false;
    }
  }

  // ---------- runs ----------

  function Run(calls: seq<Call>, l: Limits): State {
    if calls == [] then State([], None)
    else After(Run(calls[..|calls| - 1], l), calls[|calls| - 1], l)
  }

  predicate FiredAt(calls: seq<Call>, l: Limits, i: nat)
    requires i < |calls|
  {
    Fires(Run(calls[..i], l), calls[i], l)
  }

  /** The clock does not run backwards, within a call or from one to the next. */
  ghost predicate Monotone(calls: seq<Call>) {
    && (forall i :: 0 <= i < |calls| ==> calls[i].now <= calls[i].stamp)
    && (forall i, j :: 0 <= i < j < |calls| ==> calls[i].stamp <= calls[j].now)
  }

  /** The last samples, newest first. */
  function Latest(calls: seq<Call>): seq<Sample> {
    var n := |calls|;
    if n == 0 then []
    else if n == 1 then [calls[0].sample]
    else if n == 2 then [calls[1].sample, calls[0].sample]
    else [calls[n - 1].sample, calls[n - 2].sample, calls[n - 3].sample]
  }

  lemma {:induction false} WindowIsLatest(calls: seq<Call>, l: Limits)
    ensures Run(calls, l).window == Latest(calls)
    decreases |calls|
  {
    if calls != [] {
      WindowIsLatest(calls[..|calls| - 1], l);
    }
  }

  lemma FiredBefore(calls: seq<Call>, l: Limits, n: nat, i: nat)
    requires i < n <= |calls|
    ensures FiredAt(calls[..n], l, i) <==> FiredAt(calls, l, i)
  {
    assert calls[..n][..i] == calls[..i];
  }

  predicate LastAlarm(calls: seq<Call>, l: Limits, i: nat) {
    i < |calls| && FiredAt(calls, l, i) && forall j :: i < j < |calls| ==> !FiredAt(calls, l, j)
  }

  predicate NoAlarm(calls: seq<Call>, l: Limits) {
    forall j :: 0 <= j < |calls| ==> !FiredAt(calls, l, j)
  }

  /** The time kept is that of the latest alarm. */
  lemma {:induction false} KeptTime(calls: seq<Call>, l: Limits) returns (i: nat)
    ensures
      var at := Run(calls, l).alarmAt;
      if at.None? then NoAlarm(calls, l) else LastAlarm(calls, l, i) && at.value == calls[i].stamp
    decreases |calls|
  {
    i := 0;
    if calls != [] {
      var n := |calls| - 1;
      i := KeptTime(calls[..n], l);
      FiredStep(calls, l, n);
      if FiredAt(calls, l, n) {
        i := n;
      } else if Run(calls, l).alarmAt.Some? {
        StillLast(calls, l, n, i);
      } else {
        StillNone(calls, l, n);
      }
    }
  }

  lemma FiredStep(calls: seq<Call>, l: Limits, n: nat)
    requires n + 1 == |calls|
    ensures Run(calls, l).alarmAt == if FiredAt(calls, l, n) then Some(calls[n].stamp) else Run(calls[..n], l).alarmAt
  {}

  lemma StillLast(calls: seq<Call>, l: Limits, n: nat, i: nat)
    requires n + 1 == |calls| && LastAlarm(calls[..n], l, i) && !FiredAt(calls, l, n)
    ensures LastAlarm(calls, l, i)
  {
    FiredBefore(calls, l, n, i);
    forall j | i < j < n
      ensures !FiredAt(calls, l, j)
    {
      FiredBefore(calls, l, n, j);
    }
  }

  lemma StillNone(calls: seq<Call>, l: Limits, n: nat)
    requires n + 1 == |calls| && NoAlarm(calls[..n], l) && !FiredAt(calls, l, n)
    ensures NoAlarm(calls, l)
  {
    forall j | 0 <= j < n
      ensures !FiredAt(calls, l, j)
    {
      FiredBefore(calls, l, n, j);
    }
  }

  /** An alarm is raised exactly if three samples have come, their average is too high, and every
      earlier alarm is the interval ago. */
  lemma FiresIff(calls: seq<Call>, l: Limits, i: nat)
    requires i < |calls| && Monotone(calls)
    ensures
      FiredAt(calls, l, i) <==>
      && i >= 2 && High(Latest(calls[..i + 1]), l)
      && forall k :: 0 <= k < i && FiredAt(calls, l, k) ==> calls[i].now - calls[k].stamp >= l.interval
  {
    WindowIsLatest(calls[..i], l);
    assert Push(Latest(calls[..i]), calls[i].sample) == Latest(calls[..i + 1]) by {
      assert calls[..i + 1][..i] == calls[..i];
    }
    LatestIsFirst(calls, l, i);
  }

  lemma LatestIsFirst(calls: seq<Call>, l: Limits, i: nat)
    requires i < |calls| && Monotone(calls)
    ensures
      var at := Run(calls[..i], l).alarmAt;
      (at.Some? ==> calls[i].now - at.value >= l.interval)
      <==> forall k :: 0 <= k < i && FiredAt(calls, l, k) ==> calls[i].now - calls[k].stamp >= l.interval
  {
    var m := KeptTime(calls[..i], l);
    forall k | 0 <= k < i
      ensures FiredAt(calls[..i], l, k) <==> FiredAt(calls, l, k)
    {
      FiredBefore(calls, l, i, k);
    }
    if Run(calls[..i], l).alarmAt.Some? {
      assert FiredAt(calls, l, m);
      forall k | 0 <= k < i && FiredAt(calls, l, k)
        ensures calls[k].stamp <= calls[m].stamp
      {
        assert k <= m && calls[m].now <= calls[m].stamp;
      }
    }
  }

  /** Two alarms are at least the interval apart. */
  lemma AlarmsApart(calls: seq<Call>, l: Limits, i: nat, j: nat)
    requires i < j < |calls| && Monotone(calls) && FiredAt(calls, l, i) && FiredAt(calls, l, j)
    ensures calls[j].stamp - calls[i].stamp >= l.interval
  {
    FiresIff(calls, l, j);
  }
}
