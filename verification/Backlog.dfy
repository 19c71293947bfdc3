/**
 Progress of the reaper over its ticks (packages/control-plane/src/reaper.ts:55-136). Each phase takes `BATCH` due rows in
 no particular order, so rows that stay due however often they are taken can crowd out the others.
 */
module Backlog {
  import opened Prelude
  import opened Lifecycle
  import opened Reaper

  /** The clock, the limits and the rows whose operation throws, while the backlog is worked off. */
  datatype Setting = Setting(now: int, idle: nat, hard: nat, down: set<string>)

  function Waiting(rule: Rule, s: State, c: Setting): set<string> {
    DueIds(rule, s.rows, c.now, c.idle, c.hard)
  }

  /** Taking the row leaves it due: its operation throws, or suspends nothing because the row has no container. */
  predicate Stuck(rule: Rule, s: State, c: Setting, id: string) {
    id in c.down || (rule == Inactivity && id in s.rows && !s.rows[id].hasRuntime)
  }

  function Blocked(rule: Rule, s: State, c: Setting): set<string> {
    set id | id in Waiting(rule, s, c) && Stuck(rule, s, c, id)
  }

  function Backlogged(rule: Rule, s: State, c: Setting): set<string> {
    Waiting(rule, s, c) - Blocked(rule, s, c)
  }

  ghost predicate SweepStep(rule: Rule, s: State, t: State, c: Setting) {
    exists acts :: Swept(rule, s, acts, c.now, c.idle, c.hard, c.down) && t == ApplyAll(s, c.now, acts)
  }

  /** What the remedy of a rule does to whether a row is due. */
  lemma RemedyEndsDue(rule: Rule, r: Row, c: Setting)
    requires Due(rule, r, c.now, c.idle, c.hard)
    ensures Due(rule, RowAfter(rule, r, c.now), c.now, c.idle, c.hard) <==> rule == Inactivity && !r.hasRuntime
    ensures RowAfter(rule, r, c.now).hasRuntime == r.hasRuntime
    ensures rule == Inactivity && !r.hasRuntime ==> RowAfter(rule, r, c.now) == r
  {
  }

  lemma SweepRows(rule: Rule, s: State, t: State, c: Setting) returns (seen: set<string>)
    requires SweepStep(rule, s, t, c)
    ensures seen <= Waiting(rule, s, c) && |seen| == Min(BATCH, |Waiting(rule, s, c)|)
    ensures t.rows.Keys == s.rows.Keys
    ensures forall id :: id in s.rows ==>
              t.rows[id] == if id in seen && id !in c.down then RowAfter(rule, s.rows[id], c.now) else s.rows[id]
  {
    hide DueIds, Due, RowAfter, Acted, ApplyAll, Remedies;
    var acts :| Swept(rule, s, acts, c.now, c.idle, c.hard, c.down) && t == ApplyAll(s, c.now, acts);
    var taken: set<string> :| Examined(DueIds(rule, s.rows, c.now, c.idle, c.hard), taken, acts, c.down);
    seen := taken;
    RemediesOnRows(rule, s, c.now, acts);
  }

  /** A sweep of a rule takes rows off its backlog and leaves the blocked ones. */
  lemma SweepTakes(rule: Rule, s: State, t: State, c: Setting) returns (seen: set<string>)
    requires SweepStep(rule, s, t, c)
    ensures seen <= Waiting(rule, s, c) && |seen| == Min(BATCH, |Waiting(rule, s, c)|)
    ensures Backlogged(rule, t, c) == Backlogged(rule, s, c) - seen && Blocked(rule, t, c) == Blocked(rule, s, c)
  {
    hide Due, RowAfter, SweepStep;
    seen := SweepRows(rule, s, t, c);
    forall id | id in s.rows && Due(rule, s.rows[id], c.now, c.idle, c.hard)
      ensures Due(rule, RowAfter(rule, s.rows[id], c.now), c.now, c.idle, c.hard) <==> rule == Inactivity && !s.rows[id].hasRuntime
      ensures RowAfter(rule, s.rows[id], c.now).hasRuntime == s.rows[id].hasRuntime
    {
      RemedyEndsDue(rule, s.rows[id], c);
    }
  }

  /** With fewer than `BATCH` blocked rows a sweep takes at least one row off a backlog that is not empty. */
  lemma SweepProgress(rule: Rule, s: State, t: State, c: Setting)
    requires SweepStep(rule, s, t, c) && |Blocked(rule, s, c)| < BATCH
    ensures |Blocked(rule, t, c)| < BATCH
    ensures |Backlogged(rule, t, c)| <= Max(0, |Backlogged(rule, s, c)| - 1)
  {
    hide SweepStep, Waiting, Stuck;
    var seen := SweepTakes(rule, s, t, c);
    var due, blocked, backlog := Waiting(rule, s, c), Blocked(rule, s, c), Backlogged(rule, s, c);
    SubsetSize(backlog - seen, backlog);
    if backlog != {} {
      HitsBacklog(due, blocked, seen);
      var hit :| hit in seen * backlog;
      SubsetSize(backlog - seen, backlog - {hit});
    }
  }

  /** More rows are taken than are blocked, so one of them is not. */
  lemma HitsBacklog(due: set<string>, blocked: set<string>, seen: set<string>)
    requires blocked <= due && seen <= due && |blocked| < BATCH && |seen| == Min(BATCH, |due|) && due - blocked != {}
    ensures seen * (due - blocked) != {}
  {
    var stuck, free := seen * blocked, seen * (due - blocked);
    assert seen == stuck + free && stuck * free == {};
    assert |seen| == |stuck| + |free|;
    SubsetSize(stuck, blocked);
    assert due == blocked + (due - blocked);
    assert |due| == |blocked| + |due - blocked|;
  }

  /** A sweep of another rule can only help. */
  lemma OtherSweep(rule: Rule, other: Rule, s: State, t: State, c: Setting)
    requires SweepStep(other, s, t, c) && other != rule
    ensures Backlogged(rule, t, c) <= Backlogged(rule, s, c) && Blocked(rule, t, c) <= Blocked(rule, s, c)
  {
    hide Due, RowAfter, SweepStep, Swept;
    var seen := SweepRows(other, s, t, c);
    forall id | id in s.rows && Due(other, s.rows[id], c.now, c.idle, c.hard)
      ensures RowAfter(other, s.rows[id], c.now).hasRuntime == s.rows[id].hasRuntime
      ensures Due(rule, RowAfter(other, s.rows[id], c.now), c.now, c.idle, c.hard) ==>
                Due(rule, s.rows[id], c.now, c.idle, c.hard)
    {
      RemedyEndsDue(other, s.rows[id], c);
      if Due(rule, RowAfter(other, s.rows[id], c.now), c.now, c.idle, c.hard) {
        RemedyMakesNoneDue(other, rule, s.rows[id], c.now, c.idle, c.hard);
      }
    }
  }

  /** Successive sweeps, of the three rules in any order; ticks repeat expiry, inactivity, hard inactivity. */
  ghost predicate Sweeps(states: seq<State>, rules: seq<Rule>, c: Setting) {
    |states| == |rules| + 1 && forall k :: 0 <= k < |rules| ==> SweepStep(rules[k], states[k], states[k + 1], c)
  }

  function Rounds(rules: seq<Rule>, rule: Rule): nat {
    if rules == [] then 0 else (if rules[0] == rule then 1 else 0) + Rounds(rules[1..], rule)
  }

  /** Fewer than `BATCH` blocked rows: every round of the rule shrinks its backlog until it is gone. */
  lemma {:induction false} BacklogShrinks(rule: Rule, states: seq<State>, rules: seq<Rule>, c: Setting)
    requires Sweeps(states, rules, c) && |Blocked(rule, states[0], c)| < BATCH
    ensures |Backlogged(rule, states[|rules|], c)| <= Max(0, |Backlogged(rule, states[0], c)| - Rounds(rules, rule))
    decreases |rules|
  {
    hide SweepStep, Blocked, Backlogged;
    if rules != [] {
      var s, t := states[0], states[1];
      if rules[0] == rule {
        SweepProgress(rule, s, t, c);
      } else {
        OtherSweep(rule, rules[0], s, t, c);
        SubsetSize(Backlogged(rule, t, c), Backlogged(rule, s, c));
        SubsetSize(Blocked(rule, t, c), Blocked(rule, s, c));
      }
      BacklogShrinks(rule, states[1..], rules[1..], c);
    }
  }

  // ---------- when it does not drain ----------

  lemma {:induction false} SubsetOfSize(s: set<string>, n: nat) returns (t: set<string>)
    requires n <= |s|
    ensures t <= s && |t| == n
    decreases |s|
  {
    if n == |s| {
      t := s;
    } else {
      var x :| x in s;
      t := SubsetOfSize(s - {x}, n);
    }
  }

  lemma {:induction false} ActsFor(rule: Rule, seen: set<string>, down: set<string>) returns (acts: seq<Action>)
    ensures Remedies(rule, acts) && ActedOnce(seen, acts, down)
    decreases |seen|
  {
    hide Remedies, ActedOnce, Remedy;
    if seen == {} {
      acts := [];
      StartActed(rule, down);
    } else {
      var id :| id in seen;
      var front := ActsFor(rule, seen - {id}, down);
      TakeOne(rule, seen - {id}, front, down, id);
      RemediesSnoc(rule, front, id);
      acts := if id in down then front else front + [Remedy(rule, id)];
      assert seen - {id} + {id} == seen;
    }
  }

  /** `BATCH` blocked rows can fill the query, and then a sweep changes no row. */
  lemma SweepStalls(rule: Rule, s: State, c: Setting) returns (t: State)
    requires |Blocked(rule, s, c)| >= BATCH
    ensures SweepStep(rule, s, t, c) && t.rows == s.rows
  {
    hide Due, RowAfter, Acted;
    SubsetSize(Blocked(rule, s, c), Waiting(rule, s, c));
    var seen := SubsetOfSize(Blocked(rule, s, c), BATCH);
    var acts := ActsFor(rule, seen, c.down);
    SweptIs(rule, s, acts, c.now, c.idle, c.hard, c.down, seen);
    t := ApplyAll(s, c.now, acts);
    RemediesOnRows(rule, s, c.now, acts);
    forall id | id in s.rows ensures t.rows[id] == s.rows[id] {
      if Acted(acts, id) { RemedyEndsDue(rule, s.rows[id], c); }
    }
  }

  lemma {:induction false} StallsForever(rule: Rule, s: State, c: Setting, n: nat) returns (states: seq<State>)
    requires |Blocked(rule, s, c)| >= BATCH
    ensures Sweeps(states, seq(n, (_: nat) => rule), c) && states[0] == s && states[n].rows == s.rows
    decreases n
  {
    hide SweepStep;
    if n == 0 {
      states := [s];
    } else {
      var t := SweepStalls(rule, s, c);
      assert Blocked(rule, t, c) == Blocked(rule, s, c);
      var rest := StallsForever(rule, t, c, n - 1);
      states := [s] + rest;
      forall k | 0 <= k < n ensures SweepStep(rule, states[k], states[k + 1], c) {
        if k > 0 { assert SweepStep(seq(n - 1, (_: nat) => rule)[k - 1], rest[k - 1], rest[k], c); }
      }
    }
  }

  lemma {:induction false} RoundsOfOne(rules: seq<Rule>, rule: Rule)
    requires forall k :: 0 <= k < |rules| ==> rules[k] == rule
    ensures Rounds(rules, rule) == |rules|
  {
    if rules != [] { RoundsOfOne(rules[1..], rule); }
  }

  /**
   A backlog is sure to be worked off, in as many rounds as it has rows, if and only if it is empty or fewer than `BATCH`
   of the due rows are blocked.
   */
  lemma DrainsIff(rule: Rule, s: State, c: Setting, n: nat)
    requires n >= |Backlogged(rule, s, c)|
    ensures (forall states :: Sweeps(states, seq(n, (_: nat) => rule), c) && states[0] == s ==>
               Backlogged(rule, states[n], c) == {})
            <==> Backlogged(rule, s, c) == {} || |Blocked(rule, s, c)| < BATCH
  {
    hide SweepStep;
    var rules: seq<Rule> := seq(n, (_: nat) => rule);
    RoundsOfOne(rules, rule);
    forall states | Sweeps(states, rules, c) && states[0] == s
      ensures Backlogged(rule, s, c) == {} || |Blocked(rule, s, c)| < BATCH ==> Backlogged(rule, states[n], c) == {}
    {
      if |Blocked(rule, s, c)| < BATCH {
        BacklogShrinks(rule, states, rules, c);
      } else if Backlogged(rule, s, c) == {} {
        StaysEmpty(rule, states, rules, c);
      }
    }
    if |Blocked(rule, s, c)| >= BATCH {
      var states := StallsForever(rule, s, c, n);
      assert Backlogged(rule, states[n], c) == Backlogged(rule, s, c);
    }
  }

  lemma {:induction false} StaysEmpty(rule: Rule, states: seq<State>, rules: seq<Rule>, c: Setting)
    requires Sweeps(states, rules, c) && Backlogged(rule, states[0], c) == {}
    ensures Backlogged(rule, states[|rules|], c) == {}
    decreases |rules|
  {
    hide SweepStep, Backlogged;
    if rules != [] {
      if rules[0] == rule {
        var seen := SweepTakes(rule, states[0], states[1], c);
      } else {
        OtherSweep(rule, rules[0], states[0], states[1], c);
      }
      assert Backlogged(rule, states[1], c) == {};
      StaysEmpty(rule, states[1..], rules[1..], c);
    }
  }
}
