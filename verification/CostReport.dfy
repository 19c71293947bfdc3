/**
 The cost report (packages/control-plane/src/routes/reports.ts:336-435): instances are chosen by a three-way filter and
 their lifetimes clipped to the window. Times are in milliseconds; amounts are exact, before rounding.
 */
module CostReport {
  import opened Prelude

  datatype Instance = Instance(templateId: string, isPrewarm: bool, createdAt: int, terminatedAt: Option<int>)

  const HOUR: real := 3600000.0

  /** Created in the window, terminated in it, or spanning all of it. */
  predicate Chosen(i: Instance, from: int, to: int) {
    && !i.isPrewarm
    && (|| from <= i.createdAt < to
        || (i.terminatedAt.Some? && from <= i.terminatedAt.value < to)
        || (i.createdAt < from && (i.terminatedAt.None? || i.terminatedAt.value >= to)))
  }

  function End(i: Instance, now: int): int {
    i.terminatedAt.GetOr(now)
  }

  function Clipped(i: Instance, from: int, to: int, now: int): int {
    Max(0, Min(End(i, now), to) - Max(i.createdAt, from))
  }

  /** Alive in the millisecond starting at `t`. */
  predicate AliveAt(i: Instance, t: int, now: int) {
    i.createdAt <= t < End(i, now)
  }

  /** Milliseconds of the window in which the instance was alive, counted one by one. */
  function AliveTime(i: Instance, from: int, to: int, now: int): nat
    decreases if from < to then to - from else 0
  {
    if from >= to then 0 else (if AliveAt(i, to - 1, now) then 1 else 0) + AliveTime(i, from, to - 1, now)
  }

  /** Clipping measures exactly the time alive in the window. */
  lemma {:induction false} ClippedIsAliveTime(i: Instance, from: int, to: int, now: int)
    ensures Clipped(i, from, to, now) == AliveTime(i, from, to, now)
    decreases if from < to then to - from else 0
  {
    if from < to { ClippedIsAliveTime(i, from, to - 1, now); }
  }

  /** The filter drops no instance that has any time in the window, whatever the window. */
  lemma FilterLosesNothing(i: Instance, from: int, to: int, now: int)
    requires !i.isPrewarm && !Chosen(i, from, to)
    ensures Clipped(i, from, to, now) == 0
  {
  }

  /** Adjacent windows add up. */
  lemma WindowsAdd(i: Instance, a: int, b: int, c: int, now: int)
    requires a <= b <= c
    ensures Clipped(i, a, c, now) == Clipped(i, a, b, now) + Clipped(i, b, c, now)
  {
  }

  /** Time alive in the window, over all claimed instances of a template. */
  function TotalTime(instances: seq<Instance>, t: string, from: int, to: int, now: int): nat {
    if instances == [] then 0 else
      var n := |instances| - 1;
      TotalTime(instances[..n], t, from, to, now)
      + if instances[n].templateId == t && !instances[n].isPrewarm then AliveTime(instances[n], from, to, now) else 0
  }

  function ChosenCount(instances: seq<Instance>, t: string, from: int, to: int): nat {
    if instances == [] then 0 else
      var n := |instances| - 1;
      ChosenCount(instances[..n], t, from, to) + if instances[n].templateId == t && Chosen(instances[n], from, to) then 1 else 0
  }

  lemma {:induction false} TotalTimeAdds(instances: seq<Instance>, t: string, a: int, b: int, c: int, now: int)
    requires a <= b <= c
    ensures TotalTime(instances, t, a, c, now) == TotalTime(instances, t, a, b, now) + TotalTime(instances, t, b, c, now)
  {
    if instances != [] {
      var n := |instances| - 1;
      TotalTimeAdds(instances[..n], t, a, b, c, now);
      var i := instances[n];
      ClippedIsAliveTime(i, a, b, now);
      ClippedIsAliveTime(i, b, c, now);
      ClippedIsAliveTime(i, a, c, now);
      WindowsAdd(i, a, b, c, now);
    }
  }

  function Cost(ms: nat, rate: real): real {
    ms as real / HOUR * rate
  }

  /** The unrounded cost of a template over adjacent windows adds up. */
  lemma CostAdds(instances: seq<Instance>, t: string, a: int, b: int, c: int, now: int, rate: real)
    requires a <= b <= c
    ensures Cost(TotalTime(instances, t, a, c, now), rate) ==
            Cost(TotalTime(instances, t, a, b, now), rate) + Cost(TotalTime(instances, t, b, c, now), rate)
  {
    TotalTimeAdds(instances, t, a, b, c, now);
    CostSum(TotalTime(instances, t, a, b, now), TotalTime(instances, t, b, c, now), rate);
  }

  lemma CostSum(x: nat, y: nat, rate: real)
    ensures Cost(x + y, rate) == Cost(x, rate) + Cost(y, rate)
  {
    assert (x + y) as real / HOUR == x as real / HOUR + y as real / HOUR;
  }

  datatype Line = Line(ms: nat, instances: nat, cost: real)

  /**
   The loop over the chosen instances, one line per template of the tenant. Each line is the true time of all claimed
   instances of the template, and that time at the template's rate.
   */
  method CostRows(rates: map<string, real>, instances: seq<Instance>, from: int, to: int, now: int)
    returns (rows: map<string, Line>)
    ensures rows.Keys == rates.Keys
    ensures forall t :: t in rows ==>
              rows[t] == Line(TotalTime(instances, t, from, to, now), ChosenCount(instances, t, from, to),
                              Cost(TotalTime(instances, t, from, to, now), rates[t]))
  {
    hide Clipped, Chosen, Cost, AliveTime;
    rows := map t | t in rates :: Line(0, 0, 0.0);
    forall t | t in rates ensures Cost(0, rates[t]) == 0.0 { CostZero(rates[t]); }
    for k := 0 to |instances|
      invariant rows.Keys == rates.Keys
      invariant forall t :: t in rows ==>
                  rows[t] == Line(TotalTime(instances[..k], t, from, to, now), ChosenCount(instances[..k], t, from, to),
                                  Cost(TotalTime(instances[..k], t, from, to, now), rates[t]))
    {
      assert instances[..k + 1][..k] == instances[..k];
      var i := instances[k];
      ClippedIsAliveTime(i, from, to, now);
      if !Chosen(i, from, to) {
        SkippedAddsNothing(i, from, to, now);
        continue;
      }
      NotPrewarm(i, from, to);
      if i.templateId !in rows { continue; }
      var row := rows[i.templateId];
      var ms := Clipped(i, from, to, now);
      CostSum(row.ms, ms, rates[i.templateId]);
      rows := rows[i.templateId := Line(row.ms + ms, row.instances + 1, row.cost + Cost(ms, rates[i.templateId]))];
    }
    assert instances[..|instances|] == instances;
  }

  lemma CostZero(rate: real)
    ensures Cost(0, rate) == 0.0
  {
  }

  lemma SkippedAddsNothing(i: Instance, from: int, to: int, now: int)
    requires !Chosen(i, from, to)
    ensures i.isPrewarm || Clipped(i, from, to, now) == 0
  {
    if !i.isPrewarm { FilterLosesNothing(i, from, to, now); }
  }

  lemma NotPrewarm(i: Instance, from: int, to: int)
    requires Chosen(i, from, to)
    ensures !i.isPrewarm
  {
  }

  // ---------- the lines, in the fields of the instances ----------

  /** An instance counts from its creation to its end, or to now while it has none, as far as that lies in the window. */
  lemma InstanceAdds(instances: seq<Instance>, i: Instance, t: string, from: int, to: int, now: int)
    requires from <= to
    ensures TotalTime(instances + [i], t, from, to, now) == TotalTime(instances, t, from, to, now) +
            if i.templateId != t || i.isPrewarm then 0 else
              var end := if i.terminatedAt.Some? then i.terminatedAt.value else now;
              var first := if i.createdAt < from then from else i.createdAt;
              var last := if end < to then end else to;
              if first < last then last - first else 0
  {
    assert (instances + [i])[..|instances|] == instances;
    ClippedIsAliveTime(i, from, to, now);
  }

  /** It is listed when its lifetime touches the window: begun before the window closed, and not over when it opened. */
  lemma InstanceListed(instances: seq<Instance>, i: Instance, t: string, from: int, to: int)
    requires from <= to && (i.terminatedAt.Some? ==> i.createdAt <= i.terminatedAt.value)
    ensures ChosenCount(instances + [i], t, from, to) == ChosenCount(instances, t, from, to) +
            if i.templateId == t && !i.isPrewarm && i.createdAt < to && (i.terminatedAt.None? || i.terminatedAt.value >= from)
            then 1 else 0
  {
    assert (instances + [i])[..|instances|] == instances;
  }

  lemma NoInstances(t: string, from: int, to: int, now: int)
    ensures TotalTime([], t, from, to, now) == 0 && ChosenCount([], t, from, to) == 0
  {
  }

  /** One hour costs the rate, and twice the time twice as much. */
  lemma HourCostsRate(hours: nat, rate: real)
    ensures Cost(hours * 3600000, rate) == hours as real * rate
  {
    assert (hours * 3600000) as real / 3600000.0 == hours as real;
  }
}
