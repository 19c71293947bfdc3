/**
 What the replayed compute time means, and how it behaves when a report window is cut in two
 (packages/control-plane/src/routes/reports.ts:139-159 and 669-704).
 */
module ReplayMeaning {
  import opened Prelude
  import opened UsageReplay

  // ---------- millisecond by millisecond ----------

  /** How many events have happened by time `t`. */
  function UpTo(evs: seq<Event>, t: int): (n: nat)
    ensures n <= |evs|
  {
    if evs == [] then 0
    else if evs[|evs| - 1].at <= t then |evs|
    else UpTo(evs[..|evs| - 1], t)
  }

  /** A millisecond counts when the latest event is a start and the next one is a stop or absent. */
  predicate Counted(evs: seq<Event>, t: int) {
    var n := UpTo(evs, t);
    n > 0 && IsStart(evs[n - 1].kind) && (n == |evs| || !IsStart(evs[n].kind))
  }

  function Count(evs: seq<Event>, lo: int, hi: int): (c: nat)
    ensures lo <= hi ==> c <= hi - lo
    decreases hi - lo
  {
    if hi <= lo then 0 else Count(evs, lo, hi - 1) + if Counted(evs, hi - 1) then 1 else 0
  }

  lemma {:induction false} CountSplit(evs: seq<Event>, a: int, b: int, c: int)
    requires a <= b <= c
    ensures Count(evs, a, c) == Count(evs, a, b) + Count(evs, b, c)
    decreases c - b
  {
    if b < c {
      CountSplit(evs, a, b, c - 1);
    }
  }

  lemma {:induction false} CountSame(evs: seq<Event>, other: seq<Event>, lo: int, hi: int)
    requires forall t :: lo <= t < hi ==> Counted(evs, t) == Counted(other, t)
    ensures Count(evs, lo, hi) == Count(other, lo, hi)
    decreases hi - lo
  {
    if lo < hi {
      CountSame(evs, other, lo, hi - 1);
      assert Counted(evs, hi - 1) == Counted(other, hi - 1);
    }
  }

  lemma {:induction false} CountConstant(evs: seq<Event>, lo: int, hi: int, all: bool)
    requires lo <= hi && forall t :: lo <= t < hi ==> Counted(evs, t) == all
    ensures Count(evs, lo, hi) == if all then hi - lo else 0
    decreases hi - lo
  {
    if lo < hi {
      CountConstant(evs, lo, hi - 1, all);
      assert Counted(evs, hi - 1) == all;
    }
  }

  /** An open meter is open since the very last event. */
  lemma OpenIsLast(evs: seq<Event>)
    requires Fold(evs).open.Some?
    ensures evs != [] && Fold(evs).open.value == evs[|evs| - 1] && IsStart(evs[|evs| - 1].kind)
  {
  }

  lemma {:induction false} AllCounted(evs: seq<Event>, t: int)
    requires evs != [] && evs[|evs| - 1].at <= t
    ensures Counted(evs, t) == IsStart(evs[|evs| - 1].kind)
  {
  }

  /** Adding an event at or after `t + 1` changes whether `t` counts only while the previous last event is in force. */
  lemma CountedSnoc(front: seq<Event>, e: Event, t: int)
    requires t < e.at
    ensures Counted(front + [e], t) ==
            (Counted(front, t) && (UpTo(front, t) < |front| || !IsStart(e.kind)))
  {
    assert (front + [e])[..|front|] == front;
  }

  lemma {:induction false} UpToPast(evs: seq<Event>, t: int)
    requires Sorted(evs) && evs != [] && t < evs[|evs| - 1].at
    ensures UpTo(evs, t) < |evs|
  {
  }

  /** From the last event on, every millisecond counts or none does. */
  lemma CountTail(evs: seq<Event>, hi: int)
    requires evs != [] && evs[|evs| - 1].at <= hi
    ensures var e := evs[|evs| - 1]; Count(evs, e.at, hi) == if IsStart(e.kind) then hi - e.at else 0
  {
    var e := evs[|evs| - 1];
    forall t | e.at <= t < hi
      ensures Counted(evs, t) == IsStart(e.kind)
    {
      AllCounted(evs, t);
    }
    CountConstant(evs, e.at, hi, IsStart(e.kind));
  }

  lemma StopKeepsCount(front: seq<Event>, e: Event, lo: int)
    requires !IsStart(e.kind)
    ensures Count(front + [e], lo, e.at) == Count(front, lo, e.at)
  {
    forall t | lo <= t < e.at
      ensures Counted(front + [e], t) == Counted(front, t)
    {
      CountedSnoc(front, e, t);
    }
    CountSame(front + [e], front, lo, e.at);
  }

  ghost predicate Within(evs: seq<Event>, lo: int, hi: int) {
    Sorted(evs) && forall i :: 0 <= i < |evs| ==> lo <= evs[i].at <= hi
  }

  /** The replay of an instance's own events is the number of milliseconds that count. */
  lemma {:induction false} ReplayCountsMilliseconds(evs: seq<Event>, lo: int, hi: int)
    requires lo <= hi && Within(evs, lo, hi)
    ensures ReplayOne(evs, hi) == Count(evs, lo, hi)
    decreases |evs|, 1
  {
    if evs == [] {
      CountConstant(evs, lo, hi, false);
    } else {
      var front, e := evs[..|evs| - 1], evs[|evs| - 1];
      assert evs == front + [e];
      assert Within(front, lo, e.at);
      CountSplit(evs, lo, e.at, hi);
      CountTail(evs, hi);
      FoldSnoc(front, e);
      if IsStart(e.kind) {
        RestartDropsOpen(front, e, lo);
      } else {
        StopKeepsCount(front, e, lo);
        ReplayCountsMilliseconds(front, lo, e.at);
      }
    }
  }

  /** A start that follows a start drops the time since the earlier one. */
  lemma {:induction false} RestartDropsOpen(front: seq<Event>, e: Event, lo: int)
    requires IsStart(e.kind) && lo <= e.at && Within(front, lo, e.at)
    ensures Count(front + [e], lo, e.at) == Fold(front).total
    decreases |front| + 1, 0
  {
    var evs := front + [e];
    if front == [] {
      forall t | lo <= t < e.at
        ensures !Counted(evs, t)
      {
        CountedSnoc(front, e, t);
      }
      CountConstant(evs, lo, e.at, false);
    } else {
      var mid := front[|front| - 1].at;
      CountSplit(evs, lo, mid, e.at);
      forall t | lo <= t < e.at
        ensures Counted(evs, t) == (t < mid && Counted(front, t))
      {
        CountedSnoc(front, e, t);
        if t < mid {
          UpToPast(front, t);
        }
      }
      CountConstant(evs, mid, e.at, false);
      CountSame(evs, front, lo, mid);
      ReplayCountsMilliseconds(front, lo, mid);
      if Fold(front).open.Some? {
        OpenIsLast(front);
      }
    }
  }

  // ---------- report windows ----------

  /** The events a report over [from, to) reads. */
  function Window(evs: seq<Event>, from: int, to: int): seq<Event> {
    if evs == [] then [] else
      var e := evs[|evs| - 1];
      Window(evs[..|evs| - 1], from, to) + if from <= e.at < to then [e] else []
  }

  ghost function HoursIn(evs: seq<Event>, from: int, to: int): int {
    Replay(Window(evs, from, to), to)
  }

  lemma {:induction false} WindowBounds(evs: seq<Event>, from: int, to: int)
    ensures forall e :: e in Window(evs, from, to) <==> e in evs && from <= e.at < to
  {
    if evs != [] {
      WindowBounds(evs[..|evs| - 1], from, to);
      assert forall e :: e in evs <==> e in evs[..|evs| - 1] || e == evs[|evs| - 1];
    }
  }

  lemma {:induction false} WindowCut(evs: seq<Event>, a: int, b: int, c: int)
    requires Sorted(evs) && a <= b <= c
    ensures Window(evs, a, c) == Window(evs, a, b) + Window(evs, b, c)
  {
    if evs != [] {
      var front, e := evs[..|evs| - 1], evs[|evs| - 1];
      WindowCut(front, a, b, c);
      if a <= e.at < b {
        WindowEmpty(front, b, c, e.at);
      }
    }
  }

  lemma {:induction false} WindowEmpty(evs: seq<Event>, from: int, to: int, latest: int)
    requires latest < from && forall e :: e in evs ==> e.at <= latest
    ensures Window(evs, from, to) == []
  {
    if evs != [] {
      assert evs[|evs| - 1] in evs;
      WindowEmpty(evs[..|evs| - 1], from, to, latest);
    }
  }

  // ---------- cutting a window in two ----------

  function FoldFrom(m: Meter, evs: seq<Event>): Meter
    decreases |evs|
  {
    if evs == [] then m else FoldFrom(StepOne(m, evs[0]), evs[1..])
  }

  lemma {:induction false} FoldAppend(p: seq<Event>, q: seq<Event>)
    ensures Fold(p + q) == FoldFrom(Fold(p), q)
    decreases |q|
  {
    if q == [] {
      assert p + q == p;
    } else {
      assert p + q == (p + [q[0]]) + q[1..];
      FoldAppend(p + [q[0]], q[1..]);
      FoldSnoc(p, q[0]);
    }
  }

  /** Time already on the meter is carried along unchanged. */
  lemma {:induction false} FoldShift(m: Meter, d: int, evs: seq<Event>)
    ensures FoldFrom(m.(total := m.total + d), evs) == var r := FoldFrom(m, evs); r.(total := r.total + d)
    decreases |evs|
  {
    if evs != [] {
      FoldShift(StepOne(m, evs[0]), d, evs[1..]);
    }
  }

  function FirstStop(evs: seq<Event>, c: int): int {
    if evs == [] then c else if !IsStart(evs[0].kind) then evs[0].at else FirstStop(evs[1..], c)
  }

  /** Time an instance open at the cut runs on in the second window, which that window cannot see. */
  function Carry(p: seq<Event>, q: seq<Event>, b: int, c: int): int {
    if Fold(p).open.Some? then FirstStop(q, c) - b else 0
  }

  /** Open at the cut, and started again before any stop. */
  predicate StartsTwice(p: seq<Event>, q: seq<Event>) {
    Fold(p).open.Some? && q != [] && IsStart(q[0].kind)
  }

  lemma {:induction false} FirstStopBounds(q: seq<Event>, b: int, c: int)
    requires b <= c && forall e :: e in q ==> b <= e.at <= c
    ensures b <= FirstStop(q, c) <= c
  {
    if q != [] {
      assert q[0] in q;
      FirstStopBounds(q[1..], b, c);
    }
  }

  function Final(m: Meter, to: int): int {
    m.total + OpenPart(m, to)
  }

  /** Going on from a meter, against starting afresh. */
  lemma Resume(m: Meter, q: seq<Event>, c: int)
    requires q != []
    ensures var z := Meter(None, 0);
            Final(FoldFrom(m, q), c) == Final(FoldFrom(z, q), c) + StepOne(m, q[0]).total
  {
    var z := Meter(None, 0);
    var d := StepOne(m, q[0]).total;
    assert StepOne(m, q[0]) == StepOne(z, q[0]).(total := StepOne(z, q[0]).total + d);
    FoldShift(StepOne(z, q[0]), d, q[1..]);
  }

  lemma CutOne(p: seq<Event>, q: seq<Event>, b: int, c: int)
    requires b <= c && (p != [] ==> p[|p| - 1].at < b) && (q != [] ==> b <= q[0].at)
    requires b <= FirstStop(q, c)
    ensures var parts := ReplayOne(p, b) + ReplayOne(q, c) + Carry(p, q, b, c);
            && (StartsTwice(p, q) ==> ReplayOne(p + q, c) < parts)
            && (!StartsTwice(p, q) ==> ReplayOne(p + q, c) == parts)
  {
    FoldAppend(p, q);
    FoldAppend([], q);
    assert [] + q == q;
    if Fold(p).open.Some? {
      OpenIsLast(p);
    }
    if q != [] {
      Resume(Fold(p), q, c);
    }
  }

  /** Per instance: the carry over a cut between the streams `l` and `r`. */
  ghost function CarryTime(l: seq<Event>, r: seq<Event>, b: int, c: int): string -> int {
    id => Carry(Own(l, id), Own(r, id), b, c)
  }

  /** Per instance: the two parts and the carry. */
  ghost function PartsTime(l: seq<Event>, r: seq<Event>, b: int, c: int): string -> int {
    id => ReplayOne(Own(l, id), b) + ReplayOne(Own(r, id), c) + Carry(Own(l, id), Own(r, id), b, c)
  }

  lemma {:induction false} OwnSubset(evs: seq<Event>, id: string)
    ensures forall i :: 0 <= i < |Own(evs, id)| ==> Own(evs, id)[i] in evs
  {
    if evs != [] {
      OwnSubset(evs[..|evs| - 1], id);
    }
  }

  lemma {:induction false} OwnAppend(p: seq<Event>, q: seq<Event>, id: string)
    ensures Own(p + q, id) == Own(p, id) + Own(q, id)
    decreases |q|
  {
    if q == [] {
      assert p + q == p;
    } else {
      var n := |q| - 1;
      assert (p + q)[..|p + q| - 1] == p + q[..n];
      OwnAppend(p, q[..n], id);
    }
  }

  lemma CutOwn(l: seq<Event>, r: seq<Event>, b: int, c: int, id: string)
    requires b <= c && (forall e :: e in l ==> e.at < b) && forall e :: e in r ==> b <= e.at <= c
    ensures var p, q := Own(l, id), Own(r, id);
            && (p != [] ==> p[|p| - 1].at < b) && (q != [] ==> b <= q[0].at) && b <= FirstStop(q, c)
  {
    OwnSubset(l, id);
    OwnSubset(r, id);
    FirstStopBounds(Own(r, id), b, c);
  }

  lemma {:induction false} CutInstance(l: seq<Event>, r: seq<Event>, b: int, c: int, id: string)
    requires b <= c && (forall e :: e in l ==> e.at < b) && forall e :: e in r ==> b <= e.at <= c
    ensures ReplayTime(l + r, c)(id) <= PartsTime(l, r, b, c)(id)
    ensures ReplayTime(l + r, c)(id) == PartsTime(l, r, b, c)(id) <==> !StartsTwice(Own(l, id), Own(r, id))
  {
    hide Own, Fold, StepOne, FirstStop, StartsTwice;
    OwnAppend(l, r, id);
    CutOwn(l, r, b, c, id);
    var p, q := Own(l, id), Own(r, id);
    CutOne(p, q, b, c);
    assert ReplayTime(l + r, c)(id) == ReplayOne(p + q, c);
    assert PartsTime(l, r, b, c)(id) == ReplayOne(p, b) + ReplayOne(q, c) + Carry(p, q, b, c);
  }

  lemma {:induction false} OwnNone(evs: seq<Event>, id: string, to: int)
    requires id !in Ids(evs)
    ensures Own(evs, id) == [] && ReplayTime(evs, to)(id) == 0
  {
    if evs != [] {
      assert evs[|evs| - 1] in evs;
      OwnNone(evs[..|evs| - 1], id, to);
    }
  }

  lemma ReplayWiden(evs: seq<Event>, ids: set<string>, to: int)
    requires Ids(evs) <= ids
    ensures Replay(evs, to) == SumOver(ids, ReplayTime(evs, to))
  {
    forall id | id in ids && id !in Ids(evs)
      ensures ReplayTime(evs, to)(id) == 0
    {
      OwnNone(evs, id, to);
    }
    SumWiden(Ids(evs), ids, ReplayTime(evs, to));
  }

  lemma {:induction false} PartsAddUp(l: seq<Event>, r: seq<Event>, b: int, c: int, ids: set<string>)
    requires Ids(l) <= ids && Ids(r) <= ids
    ensures SumOver(ids, PartsTime(l, r, b, c)) == Replay(l, b) + Replay(r, c) + SumOver(ids, CarryTime(l, r, b, c))
  {
    ReplayWiden(l, ids, b);
    ReplayWiden(r, ids, c);
    var both := (id: string) => ReplayTime(l, b)(id) + ReplayTime(r, c)(id);
    SumAdd(ids, ReplayTime(l, b), ReplayTime(r, c), both);
    SumAdd(ids, both, CarryTime(l, r, b, c), PartsTime(l, r, b, c));
  }

  /** The window-split law. The whole window never reports more than its two parts plus the time that instances open at
      the cut run on to their first later stop (or the window's end), and it reports exactly that unless some instance
      open at the cut has a start as its next event. */
  lemma {:induction false} WindowSplit(evs: seq<Event>, a: int, b: int, c: int)
    requires Sorted(evs) && a <= b <= c
    ensures var l, r, ids := Window(evs, a, b), Window(evs, b, c), Ids(Window(evs, a, c));
            var parts := HoursIn(evs, a, b) + HoursIn(evs, b, c) + SumOver(ids, CarryTime(l, r, b, c));
            && HoursIn(evs, a, c) <= parts
            && (HoursIn(evs, a, c) == parts <==> forall id :: id in ids ==> !StartsTwice(Own(l, id), Own(r, id)))
  {
    WindowCut(evs, a, b, c);
    WindowBounds(evs, a, b);
    WindowBounds(evs, b, c);
    var l, r, ids := Window(evs, a, b), Window(evs, b, c), Ids(Window(evs, a, c));
    PartsAddUp(l, r, b, c, ids);
    forall id
      ensures ReplayTime(l + r, c)(id) <= PartsTime(l, r, b, c)(id)
      ensures ReplayTime(l + r, c)(id) == PartsTime(l, r, b, c)(id) <==> !StartsTwice(Own(l, id), Own(r, id))
    {
      CutInstance(l, r, b, c, id);
    }
    SumDominated(ids, ReplayTime(l + r, c), PartsTime(l, r, b, c));
  }

  /** No instance starts twice without a stop in between. */
  ghost predicate Alternating(evs: seq<Event>) {
    forall id, i :: 0 < i < |Own(evs, id)| && IsStart(Own(evs, id)[i].kind) ==> !IsStart(Own(evs, id)[i - 1].kind)
  }

  /** Streams in which starts and stops alternate split exactly, wherever they are cut. */
  lemma {:induction false} AlternatingSplits(evs: seq<Event>, a: int, b: int, c: int)
    requires Sorted(evs) && a <= b <= c && Alternating(Window(evs, a, c))
    ensures var l, r, ids := Window(evs, a, b), Window(evs, b, c), Ids(Window(evs, a, c));
            HoursIn(evs, a, c) == HoursIn(evs, a, b) + HoursIn(evs, b, c) + SumOver(ids, CarryTime(l, r, b, c))
  {
    WindowSplit(evs, a, b, c);
    WindowCut(evs, a, b, c);
    var l, r := Window(evs, a, b), Window(evs, b, c);
    forall id
      ensures !StartsTwice(Own(l, id), Own(r, id))
    {
      OwnAppend(l, r, id);
      var p, q := Own(l, id), Own(r, id);
      if Fold(p).open.Some? && q != [] {
        OpenIsLast(p);
        assert Own(l + r, id)[|p|] == q[0] && Own(l + r, id)[|p| - 1] == p[|p| - 1];
      }
    }
  }

  // ---------- what one interval adds, in the fields of its events ----------

  lemma OneMore(own: seq<Event>, e: Event, t: string)
    ensures Fold(own + [e]) == StepOne(Fold(own), e)
    ensures Credited(own + [e], t) == Credited(own, t) + Share(Fold(own).open, e, t)
  {
    assert (own + [e])[..|own|] == own;
  }

  /** A start and the stop after it add the time between them, to the start's template, or the stop's if it has none. */
  lemma IntervalAdds(own: seq<Event>, start: Event, stop: Event, t: string, to: int)
    requires start.kind in {InstanceReady, InstanceResumed} && stop.kind in {InstancePaused, InstanceTerminated}
    ensures var time := if stop.at > start.at then stop.at - start.at else 0;
            var owner := if start.tmpl.Some? then start.tmpl else stop.tmpl;
            && ReplayOne(own + [start, stop], to) == Fold(own).total + time
            && CreditOne(own + [start, stop], t, to) == Credited(own, t) + if owner == Some(t) then time else 0
  {
    assert own + [start, stop] == own + [start] + [stop];
    OneMore(own + [start], stop, t);
    OneMore(own, start, t);
  }

  /** A start without a stop runs to the end of the window, for its own template only. */
  lemma OpenIntervalAdds(own: seq<Event>, start: Event, t: string, to: int)
    requires start.kind in {InstanceReady, InstanceResumed}
    ensures var time := if to > start.at then to - start.at else 0;
            && ReplayOne(own + [start], to) == Fold(own).total + time
            && CreditOne(own + [start], t, to) == Credited(own, t) + if start.tmpl == Some(t) then time else 0
  {
    OneMore(own, start, t);
  }

  /** A stop that closes nothing adds nothing. */
  lemma StrayStopAdds(own: seq<Event>, stop: Event, t: string, to: int)
    requires stop.kind in {InstancePaused, InstanceTerminated}
    requires own == [] || own[|own| - 1].kind in {InstancePaused, InstanceTerminated}
    ensures ReplayOne(own + [stop], to) == Fold(own).total == ReplayOne(own, to)
    ensures CreditOne(own + [stop], t, to) == Credited(own, t) == CreditOne(own, t, to)
  {
    OneMore(own, stop, t);
    if Fold(own).open.Some? { OpenIsLast(own); }
  }

  /** The report on a stream with one more instance, which ran once: the other lines stay, and its template gets the time. */
  lemma {:induction false} OneRunAdds(evs: seq<Event>, start: Event, stop: Event, t: string, to: int)
    requires start.kind in {InstanceReady, InstanceResumed} && stop.kind in {InstancePaused, InstanceTerminated}
    requires start.inst == stop.inst && forall e :: e in evs ==> e.inst != start.inst
    ensures var all := evs + [start, stop];
            var time := if stop.at > start.at then stop.at - start.at else 0;
            var owner := if start.tmpl.Some? then start.tmpl else stop.tmpl;
            && Replay(all, to) == Replay(evs, to) + time
            && SumOver(Ids(all), CreditAll(all, t, to)) ==
               SumOver(Ids(evs), CreditAll(evs, t, to)) + if owner == Some(t) then time else 0
  {
    hide Own, ReplayOne, CreditOne, Fold, Credited, IsStart;
    var all, x := evs + [start, stop], start.inst;
    assert Ids(all) == Ids(evs) + {x} by { IdsMore(evs, start, stop); }
    OwnAppend(evs, [start, stop], x);
    OwnPair(start, stop, x);
    OwnNothing(evs, x);
    assert [] + [start, stop] == [start, stop];
    NothingYet(t);
    IntervalAdds([], start, stop, t, to);
    forall id | id != x ensures Own(all, id) == Own(evs, id) {
      OwnAppend(evs, [start, stop], id);
      OwnPair(start, stop, id);
      assert Own(evs, id) + [] == Own(evs, id);
    }
    assert Ids(all) - {x} == Ids(evs);
    SumSplit(Ids(all), ReplayTime(all, to), x);
    SumCongruent(Ids(evs), ReplayTime(all, to), ReplayTime(evs, to));
    SumSplit(Ids(all), CreditAll(all, t, to), x);
    SumCongruent(Ids(evs), CreditAll(all, t, to), CreditAll(evs, t, to));
  }

  lemma NothingYet(t: string)
    ensures Fold([]).total == 0 && Credited([], t) == 0
  {
  }

  lemma IdsMore(evs: seq<Event>, start: Event, stop: Event)
    requires start.inst == stop.inst
    ensures Ids(evs + [start, stop]) == Ids(evs) + {start.inst}
  {
    var all := evs + [start, stop];
    assert start in all;
    forall id ensures id in Ids(all) <==> id in Ids(evs) + {start.inst} {
      if id in Ids(evs) {
        var e :| e in evs && e.inst == id;
        assert e in all;
      }
    }
  }

  lemma OwnPair(start: Event, stop: Event, id: string)
    requires start.inst == stop.inst
    ensures Own([start, stop], id) == if start.inst == id then [start, stop] else []
  {
    assert [start, stop][..1] == [start] && [start][..0] == [];
    assert Own([start], id) == if start.inst == id then [start] else [];
  }

  lemma {:induction false} OwnNothing(evs: seq<Event>, id: string)
    requires forall e :: e in evs ==> e.inst != id
    ensures Own(evs, id) == []
  {
    if evs != [] { OwnNothing(evs[..|evs| - 1], id); }
  }
}
