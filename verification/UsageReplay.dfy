/**
 Compute time replayed from the usage-event stream (packages/control-plane/src/routes/reports.ts), in milliseconds
 before any rounding. Events are given in the order of the query (ascending `occurredAt`).
 */
module UsageReplay {
  import opened Prelude

  datatype Kind = InstanceReady | InstancePaused | InstanceResumed | InstanceTerminated

  datatype Event = Event(inst: string, tmpl: Option<string>, kind: Kind, at: int)

  predicate IsStart(k: Kind) {
    k == InstanceReady || k == InstanceResumed
  }

  ghost predicate Sorted(evs: seq<Event>) {
    forall i, j :: 0 <= i < j < |evs| ==> evs[i].at <= evs[j].at
  }

  // ---------- replay of one instance's own events ----------

  /** The start an instance is open since, if it is, and the closed time so far. */
  datatype Meter = Meter(open: Option<Event>, total: int)

  function StepOne(m: Meter, e: Event): Meter {
    if IsStart(e.kind) then Meter(Some(e), m.total)
    else match m.open
      case Some(start) => Meter(None, m.total + Max(0, e.at - start.at))
      case None => m
  }

  function Fold(evs: seq<Event>): Meter {
    if evs == [] then Meter(None, 0) else StepOne(Fold(evs[..|evs| - 1]), evs[|evs| - 1])
  }

  function OpenPart(m: Meter, to: int): int {
    if m.open.Some? then Max(0, to - m.open.value.at) else 0
  }

  function ReplayOne(evs: seq<Event>, to: int): int {
    Fold(evs).total + OpenPart(Fold(evs), to)
  }

  /** The events of one instance, in order. */
  function Own(evs: seq<Event>, id: string): seq<Event> {
    if evs == [] then [] else
      Own(evs[..|evs| - 1], id) + if evs[|evs| - 1].inst == id then [evs[|evs| - 1]] else []
  }

  function Ids(evs: seq<Event>): set<string> {
    set e | e in evs :: e.inst
  }

  lemma OwnSnoc(evs: seq<Event>, i: nat, id: string)
    requires i < |evs|
    ensures Own(evs[..i + 1], id) == Own(evs[..i], id) + if evs[i].inst == id then [evs[i]] else []
  {
    assert evs[..i + 1][..i] == evs[..i];
  }

  lemma FoldSnoc(evs: seq<Event>, e: Event)
    ensures Fold(evs + [e]) == StepOne(Fold(evs), e)
  {
    assert (evs + [e])[..|evs|] == evs;
  }

  lemma FoldOwnSnoc(evs: seq<Event>, i: nat, id: string)
    requires i < |evs|
    ensures Fold(Own(evs[..i + 1], id)) ==
            if evs[i].inst == id then StepOne(Fold(Own(evs[..i], id)), evs[i]) else Fold(Own(evs[..i], id))
  {
    hide Own, Fold, StepOne;
    OwnSnoc(evs, i, id);
    FoldSnoc(Own(evs[..i], id), evs[i]);
    assert Own(evs[..i], id) + [] == Own(evs[..i], id);
  }

  // ---------- sums over instances ----------

  ghost function ClosedTime(evs: seq<Event>): string -> int {
    id => Fold(Own(evs, id)).total
  }

  ghost function ReplayTime(evs: seq<Event>, to: int): string -> int {
    id => ReplayOne(Own(evs, id), to)
  }

  /** The meaning of a replay: every instance's own events replayed by themselves, and added up. */
  ghost function Replay(evs: seq<Event>, to: int): int {
    SumOver(Ids(evs), ReplayTime(evs, to))
  }

  lemma {:induction false} SumZero(ids: set<string>, f: string -> int)
    requires forall id :: id in ids ==> f(id) == 0
    ensures SumOver(ids, f) == 0
    decreases |ids|
  {
    if ids != {} {
      var x :| x in ids;
      SumSplit(ids, f, x);
      SumZero(ids - {x}, f);
    }
  }

  function Entry<V>(m: map<string, V>, id: string): Option<V> {
    if id in m then Some(m[id]) else None
  }

  /** The pass's map of open starts agrees with every instance's own replay. */
  ghost predicate OpenMatches(evs: seq<Event>, open: map<string, Event>) {
    forall id :: Entry(open, id) == Fold(Own(evs, id)).open
  }

  function OpenAfter(open: map<string, Event>, ev: Event): map<string, Event> {
    if IsStart(ev.kind) then open[ev.inst := ev]
    else if ev.inst in open then open - {ev.inst} else open
  }

  lemma OpenStep(evs: seq<Event>, i: nat, open: map<string, Event>)
    requires i < |evs| && OpenMatches(evs[..i], open)
    ensures OpenMatches(evs[..i + 1], OpenAfter(open, evs[i]))
  {
    forall id
      ensures Entry(OpenAfter(open, evs[i]), id) == Fold(Own(evs[..i + 1], id)).open
    {
      FoldOwnSnoc(evs, i, id);
      assert Entry(open, id) == Fold(Own(evs[..i], id)).open;
    }
  }

  /** Time an event closes, given what is open. */
  function Closes(open: map<string, Event>, ev: Event): int {
    if !IsStart(ev.kind) && ev.inst in open then Max(0, ev.at - open[ev.inst].at) else 0
  }

  /** One event changes the closed time of its own instance only. */
  lemma {:induction false} TotalSnoc(evs: seq<Event>, i: nat, ids: set<string>)
    requires i < |evs| && evs[i].inst in ids
    ensures var m := Fold(Own(evs[..i], evs[i].inst));
            SumOver(ids, ClosedTime(evs[..i + 1])) ==
            SumOver(ids, ClosedTime(evs[..i])) + StepOne(m, evs[i]).total - m.total
  {
    forall id | id in ids
      ensures ClosedTime(evs[..i + 1])(id) ==
              if evs[i].inst == id then StepOne(Fold(Own(evs[..i], id)), evs[i]).total else ClosedTime(evs[..i])(id)
    {
      FoldOwnSnoc(evs, i, id);
    }
    SumUpdate(ids, ClosedTime(evs[..i]), ClosedTime(evs[..i + 1]), evs[i].inst);
  }

  lemma {:induction false} ClosedStep(evs: seq<Event>, i: nat, open: map<string, Event>, ids: set<string>)
    requires i < |evs| && evs[i].inst in ids && OpenMatches(evs[..i], open)
    ensures SumOver(ids, ClosedTime(evs[..i + 1])) == SumOver(ids, ClosedTime(evs[..i])) + Closes(open, evs[i])
  {
    assert Entry(open, evs[i].inst) == Fold(Own(evs[..i], evs[i].inst)).open;
    TotalSnoc(evs, i, ids);
  }

  ghost function OpenTime(open: map<string, Event>, to: int): string -> int {
    id => if id in open then Max(0, to - open[id].at) else 0
  }

  lemma OpenTimeAt(evs: seq<Event>, open: map<string, Event>, to: int, id: string)
    requires OpenMatches(evs, open)
    ensures ReplayTime(evs, to)(id) == ClosedTime(evs)(id) + OpenTime(open, to)(id)
  {
    hide Own, Fold;
    assert Entry(open, id) == Fold(Own(evs, id)).open;
  }

  lemma {:induction false} ClosedPlusOpen(evs: seq<Event>, open: map<string, Event>, to: int)
    requires forall id :: ReplayTime(evs, to)(id) == ClosedTime(evs)(id) + OpenTime(open, to)(id)
    requires open.Keys <= Ids(evs)
    ensures SumOver(Ids(evs), ClosedTime(evs)) + SumOver(open.Keys, OpenTime(open, to)) == Replay(evs, to)
  {
    SumWiden(open.Keys, Ids(evs), OpenTime(open, to));
    SumAdd(Ids(evs), ClosedTime(evs), OpenTime(open, to), ReplayTime(evs, to));
  }

  lemma {:induction false} ScanAddsUp(evs: seq<Event>, open: map<string, Event>, to: int)
    requires OpenMatches(evs, open) && open.Keys <= Ids(evs)
    ensures SumOver(Ids(evs), ClosedTime(evs)) + SumOver(open.Keys, OpenTime(open, to)) == Replay(evs, to)
  {
    hide Own, Fold;
    forall id
      ensures ReplayTime(evs, to)(id) == ClosedTime(evs)(id) + OpenTime(open, to)(id)
    {
      OpenTimeAt(evs, open, to, id);
    }
    ClosedPlusOpen(evs, open, to);
  }

  // ---------- the overview report's single pass ----------

  /** Instances still open count up to the end of the window, in whatever order the map yields them. */
  method CountOpen(open: map<string, Event>, to: int) returns (ms: int)
    ensures ms == SumOver(open.Keys, OpenTime(open, to))
  {
    ms := 0;
    var left := open.Keys;
    while left != {}
      invariant left <= open.Keys
      invariant ms + SumOver(left, OpenTime(open, to)) == SumOver(open.Keys, OpenTime(open, to))
      decreases |left|
    {
      var id :| id in left;
      SumSplit(left, OpenTime(open, to), id);
      ms := ms + Max(0, to - open[id].at);
      left := left - {id};
    }
  }

  /** One pass with a map of open starts, then the instances still open: equal to the sum of the separate replays. */
  method ReplayOverview(evs: seq<Event>, to: int) returns (ms: int)
    ensures ms == Replay(evs, to)
  {
    hide Own, Fold, OpenMatches, ClosedTime, OpenTime;
    ghost var ids := Ids(evs);
    ms := 0;
    var openByInstance: map<string, Event> := map[];
    TalliedStart(evs, ids);
    for i := 0 to |evs|
      invariant OpenMatches(evs[..i], openByInstance)
      invariant openByInstance.Keys <= ids
      invariant ms == SumOver(ids, ClosedTime(evs[..i]))
    {
      var ev := evs[i];
      ClosedStep(evs, i, openByInstance, ids);
      OpenStep(evs, i, openByInstance);
      if IsStart(ev.kind) {
        openByInstance := openByInstance[ev.inst := ev];
      } else if ev.inst in openByInstance {
        ms := ms + Max(0, ev.at - openByInstance[ev.inst].at);
        openByInstance := openByInstance - {ev.inst};
      }
    }
    assert evs[..|evs|] == evs;
    ScanAddsUp(evs, openByInstance, to);
    var tail := CountOpen(openByInstance, to);
    ms := ms + tail;
  }

  // ---------- the pax-days report: hours per template ----------

  /** An id that counts as present: neither null nor the empty string. */
  predicate Truthy(t: Option<string>) {
    t.Some? && t.value != ""
  }

  /** The template an interval is credited to: that of its start, or of its stop when the start has none. */
  function CreditTo(start: Event, stop: Event): Option<string> {
    if start.tmpl.Some? then start.tmpl else stop.tmpl
  }

  /** Closed time of one instance credited to template `t`. */
  function Credited(evs: seq<Event>, t: string): int {
    if evs == [] then 0 else
      var front, e := evs[..|evs| - 1], evs[|evs| - 1];
      var open := Fold(front).open;
      Credited(front, t)
      + Share(open, e, t)
  }

  ghost function CreditTime(evs: seq<Event>, t: string): string -> int {
    id => Credited(Own(evs, id), t)
  }

  ghost function OpenCredit(open: map<string, Event>, t: string, to: int): string -> int {
    id => if id in open && open[id].tmpl == Some(t) then Max(0, to - open[id].at) else 0
  }

  /** What the report owes template `t`: every instance's intervals credited to it, open ones up to `to`. */
  function CreditOne(evs: seq<Event>, t: string, to: int): int {
    Credited(evs, t) + if Fold(evs).open.Some? && Fold(evs).open.value.tmpl == Some(t) then OpenPart(Fold(evs), to) else 0
  }

  ghost function CreditAll(evs: seq<Event>, t: string, to: int): string -> int {
    id => CreditOne(Own(evs, id), t, to)
  }

  /** The share of template `t` in the time an event closes. */
  function Share(start: Option<Event>, e: Event, t: string): int {
    if !IsStart(e.kind) && start.Some? && CreditTo(start.value, e) == Some(t) then Max(0, e.at - start.value.at) else 0
  }

  lemma CreditedSnoc(evs: seq<Event>, i: nat, id: string, t: string)
    requires i < |evs|
    ensures Credited(Own(evs[..i + 1], id), t) == Credited(Own(evs[..i], id), t) +
            if id == evs[i].inst then Share(Fold(Own(evs[..i], id)).open, evs[i], t) else 0
  {
    OwnSnoc(evs, i, id);
    var own := Own(evs[..i], id);
    assert (own + [evs[i]])[..|own|] == own;
    assert own + [] == own;
  }

  lemma {:induction false} CreditedStep(evs: seq<Event>, i: nat, ids: set<string>, start: Option<Event>, t: string)
    requires i < |evs| && evs[i].inst in ids && start == Fold(Own(evs[..i], evs[i].inst)).open
    ensures SumOver(ids, CreditTime(evs[..i + 1], t)) == SumOver(ids, CreditTime(evs[..i], t)) + Share(start, evs[i], t)
  {
    forall id | id in ids
      ensures CreditTime(evs[..i + 1], t)(id) ==
              CreditTime(evs[..i], t)(id) + if id == evs[i].inst then Share(start, evs[i], t) else 0
    {
      CreditedSnoc(evs, i, id, t);
    }
    SumUpdate(ids, CreditTime(evs[..i], t), CreditTime(evs[..i + 1], t), evs[i].inst);
  }

  lemma {:induction false} CreditAddsUp(evs: seq<Event>, open: map<string, Event>, t: string, to: int)
    requires OpenMatches(evs, open) && open.Keys <= Ids(evs)
    ensures SumOver(Ids(evs), CreditTime(evs, t)) + SumOver(open.Keys, OpenCredit(open, t, to))
            == SumOver(Ids(evs), CreditAll(evs, t, to))
  {
    hide Own, Fold, Credited;
    forall id
      ensures CreditAll(evs, t, to)(id) == CreditTime(evs, t)(id) + OpenCredit(open, t, to)(id)
    {
      assert Entry(open, id) == Fold(Own(evs, id)).open;
    }
    SumWiden(open.Keys, Ids(evs), OpenCredit(open, t, to));
    SumAdd(Ids(evs), CreditTime(evs, t), OpenCredit(open, t, to), CreditAll(evs, t, to));
  }

  function HoursOf(m: map<string, int>, t: string): int {
    if t in m then m[t] else 0
  }

  ghost function Hours(m: map<string, int>): string -> int {
    t => HoursOf(m, t)
  }

  ghost function HoursTotal(m: map<string, int>): int {
    SumOver(m.Keys, Hours(m))
  }

  lemma HoursTotalAdd(m: map<string, int>, t: string, h: int)
    ensures HoursTotal(m[t := HoursOf(m, t) + h]) == HoursTotal(m) + h
  {
    var m' := m[t := HoursOf(m, t) + h];
    SumWiden(m.Keys, m'.Keys, Hours(m));
    SumUpdate(m'.Keys, Hours(m), Hours(m'), t);
  }

  ghost predicate AllTruthy(evs: seq<Event>) {
    forall e :: e in evs ==> Truthy(e.tmpl)
  }

  /** Adding `h` to a template, if there is one. */
  function Plus(m: map<string, int>, t: Option<string>, h: int): map<string, int> {
    if Truthy(t) then m[t.value := HoursOf(m, t.value) + h] else m
  }

  lemma PlusAdds(m: map<string, int>, t: Option<string>, h: int)
    ensures forall u :: u != "" ==> HoursOf(Plus(m, t, h), u) == HoursOf(m, u) + if t == Some(u) then h else 0
    ensures HoursOf(Plus(m, t, h), "") == HoursOf(m, "")
    ensures Truthy(t) ==> HoursTotal(Plus(m, t, h)) == HoursTotal(m) + h
  {
    if Truthy(t) {
      HoursTotalAdd(m, t.value, h);
    }
  }

  /** `m` is `m0` plus what the open instances outside `left` are owed. */
  ghost predicate Credits(m0: map<string, int>, m: map<string, int>, open: map<string, Event>, left: set<string>, to: int) {
    && (forall t :: t != "" ==> HoursOf(m, t) + SumOver(left, OpenCredit(open, t, to))
                                == HoursOf(m0, t) + SumOver(open.Keys, OpenCredit(open, t, to)))
    && HoursOf(m, "") == HoursOf(m0, "")
    && ((forall id :: id in open ==> Truthy(open[id].tmpl)) ==>
          HoursTotal(m) + SumOver(left, OpenTime(open, to)) == HoursTotal(m0) + SumOver(open.Keys, OpenTime(open, to)))
  }

  lemma CreditsStart(m: map<string, int>, open: map<string, Event>, to: int)
    ensures Credits(m, m, open, open.Keys, to)
  {
  }

  lemma CreditLeft(left: set<string>, open: map<string, Event>, t: string, to: int, id: string)
    requires id in left && id in open
    ensures SumOver(left, OpenCredit(open, t, to)) == SumOver(left - {id}, OpenCredit(open, t, to)) +
            if open[id].tmpl == Some(t) then Max(0, to - open[id].at) else 0
  {
    SumSplit(left, OpenCredit(open, t, to), id);
  }

  lemma CreditsStep(m0: map<string, int>, m: map<string, int>, open: map<string, Event>, left: set<string>, to: int, id: string)
    requires Credits(m0, m, open, left, to) && id in left && id in open
    ensures Credits(m0, Plus(m, open[id].tmpl, Max(0, to - open[id].at)), open, left - {id}, to)
  {
    hide Plus, HoursOf, HoursTotal, OpenCredit;
    PlusAdds(m, open[id].tmpl, Max(0, to - open[id].at));
    forall t
      ensures SumOver(left, OpenCredit(open, t, to)) == SumOver(left - {id}, OpenCredit(open, t, to)) +
              if open[id].tmpl == Some(t) then Max(0, to - open[id].at) else 0
    {
      CreditLeft(left, open, t, to, id);
    }
    SumSplit(left, OpenTime(open, to), id);
  }

  method CreditOpen(m0: map<string, int>, open: map<string, Event>, to: int) returns (m: map<string, int>)
    ensures Credits(m0, m, open, {}, to)
  {
    hide Credits, Plus, OpenCredit, OpenTime;
    m := m0;
    var left := open.Keys;
    CreditsStart(m0, open, to);
    while left != {}
      invariant left <= open.Keys && Credits(m0, m, open, left, to)
      decreases |left|
    {
      var id :| id in left;
      CreditsStep(m0, m, open, left, to, id);
      m := Plus(m, open[id].tmpl, Max(0, to - open[id].at));
      left := left - {id};
    }
  }

  /** The credit of one template after a prefix of the stream. */
  ghost predicate TallyOf(evs: seq<Event>, m: map<string, int>, ids: set<string>, t: string) {
    HoursOf(m, t) == SumOver(ids, CreditTime(evs, t))
  }

  ghost predicate Tallied(evs: seq<Event>, m: map<string, int>, ids: set<string>) {
    HoursOf(m, "") == 0 && forall t :: t != "" ==> TallyOf(evs, m, ids, t)
  }

  /** What one event does to the totals. */
  function TallyAfter(m: map<string, int>, open: map<string, Event>, ev: Event): map<string, int> {
    if !IsStart(ev.kind) && ev.inst in open
    then Plus(m, CreditTo(open[ev.inst], ev), Max(0, ev.at - open[ev.inst].at)) else m
  }

  lemma TallyAfterAdds(m: map<string, int>, open: map<string, Event>, ev: Event)
    ensures forall t :: t != "" ==> HoursOf(TallyAfter(m, open, ev), t) == HoursOf(m, t) + Share(Entry(open, ev.inst), ev, t)
    ensures HoursOf(TallyAfter(m, open, ev), "") == HoursOf(m, "")
    ensures IsStart(ev.kind) || ev.inst !in open || Truthy(CreditTo(open[ev.inst], ev)) ==>
              HoursTotal(TallyAfter(m, open, ev)) == HoursTotal(m) + Closes(open, ev)
  {
    if !IsStart(ev.kind) && ev.inst in open {
      PlusAdds(m, CreditTo(open[ev.inst], ev), Max(0, ev.at - open[ev.inst].at));
    }
  }

  lemma {:induction false} TallyStepAt(evs: seq<Event>, i: nat, m: map<string, int>, open: map<string, Event>, ids: set<string>, t: string)
    requires i < |evs| && evs[i].inst in ids && t != "" && TallyOf(evs[..i], m, ids, t)
    requires Entry(open, evs[i].inst) == Fold(Own(evs[..i], evs[i].inst)).open
    ensures TallyOf(evs[..i + 1], TallyAfter(m, open, evs[i]), ids, t)
  {
    CreditedStep(evs, i, ids, Entry(open, evs[i].inst), t);
    TallyAfterAdds(m, open, evs[i]);
  }

  lemma TallyStep(evs: seq<Event>, i: nat, m: map<string, int>, open: map<string, Event>, ids: set<string>)
    requires i < |evs| && evs[i].inst in ids && Tallied(evs[..i], m, ids) && OpenMatches(evs[..i], open)
    ensures Tallied(evs[..i + 1], TallyAfter(m, open, evs[i]), ids)
  {
    assert Entry(open, evs[i].inst) == Fold(Own(evs[..i], evs[i].inst)).open;
    var upTo, after := evs[..i + 1], TallyAfter(m, open, evs[i]);
    forall t
      ensures t != "" ==> TallyOf(upTo, after, ids, t)
    {
      if t != "" {
        TallyStepAt(evs, i, m, open, ids, t);
      }
    }
    TallyAfterAdds(m, open, evs[i]);
  }

  lemma {:induction false} TotalStep(evs: seq<Event>, i: nat, m: map<string, int>, open: map<string, Event>, ids: set<string>)
    requires i < |evs| && evs[i].inst in ids && OpenMatches(evs[..i], open)
    requires Truthy(evs[i].tmpl) && forall id :: id in open ==> Truthy(open[id].tmpl)
    requires HoursTotal(m) == SumOver(ids, ClosedTime(evs[..i]))
    ensures HoursTotal(TallyAfter(m, open, evs[i])) == SumOver(ids, ClosedTime(evs[..i + 1]))
  {
    TallyAfterAdds(m, open, evs[i]);
    ClosedStep(evs, i, open, ids);
  }

  lemma TalliedStart(evs: seq<Event>, ids: set<string>)
    ensures OpenMatches(evs[..0], map[]) && Tallied(evs[..0], map[], ids)
    ensures HoursTotal(map[]) == SumOver(ids, ClosedTime(evs[..0])) == 0
  {
    forall t
      ensures TallyOf([], map[], ids, t)
    {
      SumZero(ids, CreditTime([], t));
    }
    SumZero(ids, ClosedTime([]));
    assert evs[..0] == [];
  }

  lemma {:induction false} TallyAddsUp(evs: seq<Event>, m0: map<string, int>, m: map<string, int>, open: map<string, Event>, to: int, t: string)
    requires Tallied(evs, m0, Ids(evs)) && OpenMatches(evs, open) && open.Keys <= Ids(evs)
    requires Credits(m0, m, open, {}, to) && t != ""
    ensures HoursOf(m, t) == SumOver(Ids(evs), CreditAll(evs, t, to))
  {
    assert TallyOf(evs, m0, Ids(evs), t);
    CreditAddsUp(evs, open, t, to);
  }

  lemma {:induction false} TotalAddsUp(evs: seq<Event>, m0: map<string, int>, m: map<string, int>, open: map<string, Event>, to: int)
    requires OpenMatches(evs, open) && open.Keys <= Ids(evs)
    requires forall id :: id in open ==> Truthy(open[id].tmpl)
    requires Credits(m0, m, open, {}, to) && HoursTotal(m0) == SumOver(Ids(evs), ClosedTime(evs))
    ensures HoursTotal(m) == Replay(evs, to)
  {
    ScanAddsUp(evs, open, to);
  }

  /** The pass over the stream: open starts, and the totals of closed intervals per template. */
  method Tally(evs: seq<Event>) returns (m: map<string, int>, open: map<string, Event>)
    ensures OpenMatches(evs, open) && open.Keys <= Ids(evs) && forall id :: id in open ==> open[id] in evs
    ensures Tallied(evs, m, Ids(evs))
    ensures AllTruthy(evs) ==> HoursTotal(m) == SumOver(Ids(evs), ClosedTime(evs))
  {
    hide Own, Fold, Credited, OpenMatches, Tallied, HoursTotal, ClosedTime;
    ghost var ids := Ids(evs);
    m, open := map[], map[];
    TalliedStart(evs, ids);
    for i := 0 to |evs|
      invariant OpenMatches(evs[..i], open) && open.Keys <= ids
      invariant forall id :: id in open ==> open[id] in evs
      invariant Tallied(evs[..i], m, ids)
      invariant AllTruthy(evs) ==> HoursTotal(m) == SumOver(ids, ClosedTime(evs[..i]))
    {
      var ev := evs[i];
      TallyStep(evs, i, m, open, ids);
      if AllTruthy(evs) {
        TotalStep(evs, i, m, open, ids);
      }
      OpenStep(evs, i, open);
      var credited := m;
      if !IsStart(ev.kind) && ev.inst in open {
        credited := Plus(m, CreditTo(open[ev.inst], ev), Max(0, ev.at - open[ev.inst].at));
      }
      assert credited == TallyAfter(m, open, ev);
      m := credited;
      if IsStart(ev.kind) {
        open := open[ev.inst := ev];
      } else if ev.inst in open {
        open := open - {ev.inst};
      }
    }
    assert evs[..|evs|] == evs;
  }

  /** Each template is credited exactly the intervals that belong to it; when every event carries a template
      the template totals add up to the overview total. */
  method ReplayByTemplate(evs: seq<Event>, to: int) returns (hoursByTemplate: map<string, int>)
    ensures forall t :: t != "" ==> HoursOf(hoursByTemplate, t) == SumOver(Ids(evs), CreditAll(evs, t, to))
    ensures HoursOf(hoursByTemplate, "") == 0
    ensures AllTruthy(evs) ==> HoursTotal(hoursByTemplate) == Replay(evs, to)
  {
    var m0, openByInstance := Tally(evs);
    hoursByTemplate := CreditOpen(m0, openByInstance, to);
    forall t | t != ""
      ensures HoursOf(hoursByTemplate, t) == SumOver(Ids(evs), CreditAll(evs, t, to))
    {
      TallyAddsUp(evs, m0, hoursByTemplate, openByInstance, to, t);
    }
    if AllTruthy(evs) {
      TotalAddsUp(evs, m0, hoursByTemplate, openByInstance, to);
    }
  }
}
