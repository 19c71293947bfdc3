/**
 Redeems that overlap (packages/control-plane/src/routes/redeem.ts:66-148). A redeem reads its launch row, awaits an
 instance, and only then writes the row and emits its event; any other redeem or operation may run in between.
 */
module OverlappingRedeems {
  import opened Prelude
  import opened LaunchTokens

  /** `Landed`: written, or given up because no instance could be had. */
  datatype Phase = InFlight | Landed(ok: bool)

  /** `seen`: the row as the check read it. `rivals`: the flights then under way that saw the same generation unredeemed. */
  datatype Flight = Flight(token: Token, seen: Launch, rivals: set<nat>, phase: Phase)

  datatype State = State(store: Store, flights: seq<Flight>)

  datatype Step =
    | Do(op: Op)                                     // any operation but a redeem
    | Check(token: Token, now: nat)                  // a redeem passes the gate
    | Land(f: nat, live: bool, acquired: Option<string>, now: nat)

  /** The flight is of that generation and saw it unredeemed. */
  predicate Saw(f: Flight, id: string, jti: string) {
    f.token.sub == id && f.token.jti == jti && f.seen.redeemedAt.None?
  }

  predicate Succeeds(f: Flight, live: bool, acquired: Option<string>) {
    (f.seen.instanceId.Some? && live) || acquired.Some?
  }

  ghost predicate Enabled(s: State, step: Step) {
    match step
    case Do(op) => !op.Redeem? && FreshOp(s.store, op)
    case Check(token, now) => Gate(s.store, token, now).Admitted?
    case Land(f, _, _, _) => f < |s.flights| && s.flights[f].phase.InFlight? && s.flights[f].token.sub in s.store.launches
  }

  function Rivals(s: State, token: Token): set<nat> {
    set i: nat | i < |s.flights| && s.flights[i].phase.InFlight? && Saw(s.flights[i], token.sub, token.jti)
  }

  ghost function Next(s: State, step: Step): State
    requires Enabled(s, step)
  {
    match step
    case Do(op) => s.(store := Apply(s.store, op))
    case Check(token, _) =>
      s.(flights := s.flights + [Flight(token, s.store.launches[token.sub], Rivals(s, token), InFlight)])
    case Land(i, live, acquired, now) =>
      var f := s.flights[i];
      State(Settle(s.store, f.token, f.seen, live, acquired, now),
            s.flights[i := f.(phase := Landed(Succeeds(f, live, acquired)))])
  }

  ghost predicate History(states: seq<State>, steps: seq<Step>) {
    && |states| == |steps| + 1 && states[0] == State(EMPTY, [])
    && forall n :: 0 <= n < |steps| ==> Enabled(states[n], steps[n]) && states[n + 1] == Next(states[n], steps[n])
  }

  /** The flight has billed the generation. */
  predicate Billing(f: Flight, id: string, jti: string) {
    Saw(f, id, jti) && f.phase == Landed(true)
  }

  function Billings(flights: seq<Flight>, id: string, jti: string): nat {
    if flights == [] then 0 else
      var n := |flights| - 1;
      Billings(flights[..n], id, jti) + if Billing(flights[n], id, jti) then 1 else 0
  }

  // ---------- what every step keeps ----------

  ghost predicate Counted(billed: seq<(string, string)>, flights: seq<Flight>) {
    forall id, jti :: multiset(billed)[(id, jti)] == Billings(flights, id, jti)
  }

  ghost predicate Known(s: State) {
    && (forall id :: id in s.store.launches && s.store.launches[id].tokenJti.Some? ==>
          Used(s.store, s.store.launches[id].tokenJti.value))
    && (forall i :: 0 <= i < |s.flights| ==> s.flights[i].token.sub in s.store.launches && Used(s.store, s.flights[i].token.jti))
  }

  /** A generation that a flight saw redeemed, or has redeemed, stays redeemed while it is the current one. */
  ghost predicate Stamped(s: State) {
    forall i :: 0 <= i < |s.flights| ==> StampedBy(s.store, s.flights[i])
  }

  predicate StampedBy(s: Store, f: Flight) {
    (f.token.sub in s.launches && s.launches[f.token.sub].tokenJti == Some(f.token.jti)
     && (f.seen.redeemedAt.Some? || f.phase == Landed(true))) ==> s.launches[f.token.sub].redeemedAt.Some?
  }

  predicate SameGeneration(f: Flight, g: Flight) {
    Saw(f, f.token.sub, f.token.jti) && Saw(g, f.token.sub, f.token.jti)
  }

  /** Of two flights that saw a generation unredeemed, the earlier was under way at the check of the later, or gave up. */
  predicate Rivalled(flights: seq<Flight>, i: nat, j: nat)
    requires i < j < |flights|
  {
    SameGeneration(flights[i], flights[j]) ==> i in flights[j].rivals || flights[i].phase == Landed(false)
  }

  /** Rivals are earlier flights of the same generation. */
  predicate RealRivals(flights: seq<Flight>, j: nat)
    requires j < |flights|
  {
    forall i :: i in flights[j].rivals ==> i < j && Saw(flights[i], flights[j].token.sub, flights[j].token.jti)
  }

  ghost predicate Rivalry(flights: seq<Flight>) {
    && (forall i: nat, j: nat :: i < j < |flights| ==> Rivalled(flights, i, j))
    && (forall j: nat :: j < |flights| ==> RealRivals(flights, j))
  }

  ghost predicate Inv(s: State) {
    Counted(s.store.billed, s.flights) && Known(s) && Stamped(s) && Rivalry(s.flights)
  }

  lemma {:induction false} BillingsUpdate(flights: seq<Flight>, i: nat, f: Flight, id: string, jti: string)
    requires i < |flights|
    ensures Billings(flights[i := f], id, jti) ==
            Billings(flights, id, jti) + (if Billing(f, id, jti) then 1 else 0) - (if Billing(flights[i], id, jti) then 1 else 0)
  {
    var n := |flights| - 1;
    if i == n {
      assert flights[i := f][..n] == flights[..n];
    } else {
      assert flights[i := f][..n] == flights[..n][i := f];
      BillingsUpdate(flights[..n], i, f, id, jti);
    }
  }

  /** No operation but a redeem bills, forgets a launch or a jti, or clears a redemption without changing the jti. */
  lemma DoKeepsRows(s: Store, op: Op, id: string)
    requires !op.Redeem? && FreshOp(s, op) && id in s.launches
    ensures id in Apply(s, op).launches && Apply(s, op).billed == s.billed
    ensures var r, r' := s.launches[id], Apply(s, op).launches[id];
            (r'.tokenJti == r.tokenJti && r'.redeemedAt == r.redeemedAt)
            || r'.tokenJti.None? || (r'.redeemedAt.None? && !Used(s, r'.tokenJti.value))
  {
    hide Exp;
  }

  lemma DoKnown(s: Store, op: Op, id: string)
    requires !op.Redeem? && FreshOp(s, op)
    requires forall i :: i in s.launches && s.launches[i].tokenJti.Some? ==> Used(s, s.launches[i].tokenJti.value)
    requires id in Apply(s, op).launches && Apply(s, op).launches[id].tokenJti.Some?
    ensures Used(Apply(s, op), Apply(s, op).launches[id].tokenJti.value)
  {
    hide Exp, Used;
    if op.Create? || (op.Regenerate? && Owned(s, op.tenant, op.id)) { NewTokenUsed(s, op); }
    if id in s.launches && s.launches[id].tokenJti.Some? { UsedGrows(s, op, s.launches[id].tokenJti.value); }
  }

  lemma DoKeeps(s: State, op: Op)
    requires Inv(s) && Enabled(s, Do(op))
    ensures Inv(Next(s, Do(op)))
  {
    hide Apply, FreshOp, Counted, Rivalry, Saw, Used;
    var t := Next(s, Do(op));
    forall id | id in t.store.launches && t.store.launches[id].tokenJti.Some?
      ensures Used(t.store, t.store.launches[id].tokenJti.value)
    {
      DoKnown(s.store, op, id);
    }
    forall i | 0 <= i < |s.flights|
      ensures StampedBy(t.store, s.flights[i])
      ensures s.flights[i].token.sub in t.store.launches && Used(t.store, s.flights[i].token.jti)
    {
      DoKeepsRows(s.store, op, s.flights[i].token.sub);
      UsedGrows(s.store, op, s.flights[i].token.jti);
      assert StampedBy(s.store, s.flights[i]);
    }
    DoBillsNothing(s.store, op);
  }

  lemma DoBillsNothing(s: Store, op: Op)
    requires !op.Redeem?
    ensures Apply(s, op).billed == s.billed
  {
    hide Exp;
  }

  lemma {:induction false} BillingsSnoc(flights: seq<Flight>, f: Flight, id: string, jti: string)
    ensures Billings(flights + [f], id, jti) == Billings(flights, id, jti) + if Billing(f, id, jti) then 1 else 0
  {
    assert (flights + [f])[..|flights|] == flights;
  }

  lemma CheckKeeps(s: State, token: Token, now: nat)
    requires Inv(s) && Enabled(s, Check(token, now))
    ensures Inv(Next(s, Check(token, now)))
  {
    hide Used, Billings, Rivalry, Gate;
    var t := Next(s, Check(token, now));
    Admits(s.store, token, now);
    forall id: string, jti: string ensures Billings(t.flights, id, jti) == Billings(s.flights, id, jti) {
      BillingsSnoc(s.flights, t.flights[|s.flights|], id, jti);
    }
    forall i | 0 <= i < |t.flights| ensures StampedBy(t.store, t.flights[i]) {
      if i < |s.flights| { assert StampedBy(s.store, s.flights[i]); }
    }
    CheckRivalry(s, token, now);
  }

  lemma CheckRivalry(s: State, token: Token, now: nat)
    requires Inv(s) && Enabled(s, Check(token, now))
    ensures Rivalry(Next(s, Check(token, now)).flights)
  {
    hide Used, Counted, Known;
    Admits(s.store, token, now);
    var n := |s.flights|;
    var fs := Next(s, Check(token, now)).flights;
    forall i: nat, j: nat | i < j < |fs| ensures Rivalled(fs, i, j) {
      if j < n {
        assert Rivalled(s.flights, i, j);
      } else {
        assert StampedBy(s.store, s.flights[i]);
      }
    }
    forall j: nat | j < |fs| ensures RealRivals(fs, j) {
      if j < n { assert RealRivals(s.flights, j); }
    }
  }

  /** What a landing writes to the row and to the events. */
  lemma SettleWrites(s: Store, f: Flight, live: bool, acquired: Option<string>, now: nat)
    requires f.token.sub in s.launches
    ensures var t := Settle(s, f.token, f.seen, live, acquired, now);
            && t.launches.Keys == s.launches.Keys && t.issued == s.issued
            && (forall id :: id in s.launches ==> t.launches[id].tokenJti == s.launches[id].tokenJti)
            && (forall id :: id in s.launches && id != f.token.sub ==> t.launches[id] == s.launches[id])
            && (s.launches[f.token.sub].redeemedAt.Some? ==> t.launches[f.token.sub].redeemedAt.Some?)
            && (Succeeds(f, live, acquired) ==>
                  t.launches[f.token.sub].redeemedAt.Some? || (f.seen.redeemedAt.Some? && f.seen.instanceId.Some? && live))
            && (var row, row', reuse := s.launches[f.token.sub], t.launches[f.token.sub], f.seen.instanceId.Some? && live;
                && (!Succeeds(f, live, acquired) ==> row' == row)
                && (Succeeds(f, live, acquired) ==> row'.instanceId == if reuse then row.instanceId else acquired)
                && (Succeeds(f, live, acquired) && !(reuse && f.seen.redeemedAt.Some?) ==>
                      row'.redeemedAt == Some(f.seen.redeemedAt.GetOr(now)))
                && (reuse && f.seen.redeemedAt.Some? ==> row'.redeemedAt == row.redeemedAt)
                && row'.expiresAt == row.expiresAt && row'.tenant == row.tenant && row'.batch == row.batch)
            && t.billed == s.billed + if Succeeds(f, live, acquired) && f.seen.redeemedAt.None?
                                      then [(f.token.sub, f.token.jti)] else []
  {
  }

  lemma LandKeeps(s: State, i: nat, live: bool, acquired: Option<string>, now: nat)
    requires Inv(s) && Enabled(s, Land(i, live, acquired, now))
    ensures Inv(Next(s, Land(i, live, acquired, now)))
  {
    hide Settle, Counted, Rivalry;
    var f := s.flights[i];
    var t := Next(s, Land(i, live, acquired, now));
    SettleWrites(s.store, f, live, acquired, now);
    LandCounts(s, t, i, live, acquired);
    forall k | 0 <= k < |t.flights| ensures StampedBy(t.store, t.flights[k]) {
      assert StampedBy(s.store, s.flights[k]);
    }
    LandRivalry(s.flights, i, Succeeds(f, live, acquired));
  }

  lemma LandCounts(s: State, t: State, i: nat, live: bool, acquired: Option<string>)
    requires i < |s.flights| && s.flights[i].phase.InFlight? && Counted(s.store.billed, s.flights)
    requires t.flights == s.flights[i := s.flights[i].(phase := Landed(Succeeds(s.flights[i], live, acquired)))]
    requires t.store.billed == s.store.billed + if Succeeds(s.flights[i], live, acquired) && s.flights[i].seen.redeemedAt.None?
                                                then [(s.flights[i].token.sub, s.flights[i].token.jti)] else []
    ensures Counted(t.store.billed, t.flights)
  {
    hide Billings, Succeeds;
    forall id: string, jti: string ensures multiset(t.store.billed)[(id, jti)] == Billings(t.flights, id, jti) {
      BillingsUpdate(s.flights, i, t.flights[i], id, jti);
    }
  }

  lemma LandRivalry(flights: seq<Flight>, k: nat, ok: bool)
    requires k < |flights| && flights[k].phase.InFlight? && Rivalry(flights)
    ensures Rivalry(flights[k := flights[k].(phase := Landed(ok))])
  {
    var fs := flights[k := flights[k].(phase := Landed(ok))];
    forall i: nat, j: nat | i < j < |fs| ensures Rivalled(fs, i, j) {
      assert Rivalled(flights, i, j);
    }
    forall j: nat | j < |fs| ensures RealRivals(fs, j) {
      assert RealRivals(flights, j);
    }
  }

  lemma StepKeeps(s: State, step: Step)
    requires Inv(s) && Enabled(s, step)
    ensures Inv(Next(s, step))
  {
    hide Inv, Enabled, Next;
    match step
    case Do(op) => DoKeeps(s, op);
    case Check(token, now) => CheckKeeps(s, token, now);
    case Land(i, live, acquired, now) => LandKeeps(s, i, live, acquired, now);
  }

  lemma {:induction false} HistoryKeeps(states: seq<State>, steps: seq<Step>, n: nat)
    requires History(states, steps) && n < |states|
    ensures Inv(states[n])
  {
    hide Enabled, Next;
    if n > 0 {
      HistoryKeeps(states, steps, n - 1);
      StepKeeps(states[n - 1], steps[n - 1]);
    }
  }

  // ---------- how often a generation is billed ----------

  /** At every point of every history: a generation has as many events as landed flights that saw it unredeemed. */
  lemma EventsAreLandings(states: seq<State>, steps: seq<Step>, n: nat, id: string, jti: string)
    requires History(states, steps) && n < |states|
    ensures multiset(states[n].store.billed)[(id, jti)] == Billings(states[n].flights, id, jti)
  {
    HistoryKeeps(states, steps, n);
  }

  /** Two flights of a generation that both bill it, the later one checked while the earlier was still under way. */
  ghost predicate DoubleLanding(flights: seq<Flight>, id: string, jti: string) {
    exists i, j :: 0 <= i < j < |flights| && Billing(flights[i], id, jti) && Billing(flights[j], id, jti) && i in flights[j].rivals
  }

  lemma {:induction false} SomeBilling(flights: seq<Flight>, id: string, jti: string)
    ensures Billings(flights, id, jti) >= 1 <==> exists i :: 0 <= i < |flights| && Billing(flights[i], id, jti)
  {
    hide Billing;
    if flights != [] { SomeBilling(flights[..|flights| - 1], id, jti); }
  }

  lemma {:induction false} TwoBillings(flights: seq<Flight>, id: string, jti: string)
    ensures Billings(flights, id, jti) >= 2 <==>
            exists i, j :: 0 <= i < j < |flights| && Billing(flights[i], id, jti) && Billing(flights[j], id, jti)
  {
    hide Billing;
    if flights != [] {
      var n := |flights| - 1;
      TwoBillings(flights[..n], id, jti);
      SomeBilling(flights[..n], id, jti);
    }
  }

  /**
   A generation is billed at most once, throughout any history, if and only if no two flights that both get an instance
   saw it unredeemed with the one checked while the other was under way.
   */
  lemma BilledOnceIff(states: seq<State>, steps: seq<Step>, n: nat, id: string, jti: string)
    requires History(states, steps) && n < |states|
    ensures multiset(states[n].store.billed)[(id, jti)] <= 1 <==> !DoubleLanding(states[n].flights, id, jti)
  {
    HistoryKeeps(states, steps, n);
    var s := states[n];
    TwoBillings(s.flights, id, jti);
    forall i, j | 0 <= i < j < |s.flights| && Billing(s.flights[i], id, jti) && Billing(s.flights[j], id, jti)
      ensures i in s.flights[j].rivals
    {
      assert Rivalled(s.flights, i, j);
    }
  }

  /** When every redeem gets its instance: if and only if none is checked while a rival is still to land. */
  lemma BilledOnceIffNoRivals(states: seq<State>, steps: seq<Step>, n: nat, id: string, jti: string)
    requires History(states, steps) && n < |states|
    requires forall f :: f in states[n].flights ==> f.phase == Landed(true)
    ensures multiset(states[n].store.billed)[(id, jti)] <= 1
            <==> forall f :: f in states[n].flights && Saw(f, id, jti) ==> f.rivals == {}
  {
    hide History, Counted, Known, Stamped;
    HistoryKeeps(states, steps, n);
    BilledOnceIff(states, steps, n, id, jti);
    NoRivalsIff(states[n].flights, id, jti);
  }

  lemma NoRivalsIff(flights: seq<Flight>, id: string, jti: string)
    requires Rivalry(flights) && forall f :: f in flights ==> f.phase == Landed(true)
    ensures DoubleLanding(flights, id, jti) <==> exists f :: f in flights && Saw(f, id, jti) && f.rivals != {}
  {
    if f :| f in flights && Saw(f, id, jti) && f.rivals != {} {
      var j: nat :| j < |flights| && flights[j] == f;
      var i :| i in f.rivals;
      assert RealRivals(flights, j);
      assert flights[i] in flights && Billing(flights[i], id, jti) && Billing(flights[j], id, jti);
    }
  }

  /** Whatever becomes of the flights: a generation none of whose flights had a rival at its check is billed at most once. */
  lemma NoRivalsBilledOnce(states: seq<State>, steps: seq<Step>, n: nat, id: string, jti: string)
    requires History(states, steps) && n < |states|
    requires forall f :: f in states[n].flights && Saw(f, id, jti) ==> f.rivals == {}
    ensures multiset(states[n].store.billed)[(id, jti)] <= 1
  {
    hide History;
    BilledOnceIff(states, steps, n, id, jti);
    var flights := states[n].flights;
    forall i, j | 0 <= i < j < |flights| && Billing(flights[i], id, jti) && Billing(flights[j], id, jti)
      ensures i !in flights[j].rivals
    {
      assert flights[j] in flights;
    }
  }

  /** A check that lands at once is the atomic redeem. */
  lemma CheckAndLandIsRedeem(s: State, token: Token, live: bool, acquired: Option<string>, now: nat)
    requires Enabled(s, Check(token, now))
    ensures var t := Next(s, Check(token, now));
            && Enabled(t, Land(|s.flights|, live, acquired, now))
            && Next(t, Land(|s.flights|, live, acquired, now)).store == Apply(s.store, Redeem(token, live, acquired, now))
  {
    hide Settle;
    Admits(s.store, token, now);
  }

  /** Events are never taken back, so what holds of the count at the end held throughout. */
  lemma BilledGrows(s: State, step: Step, g: (string, string))
    requires Enabled(s, step)
    ensures multiset(s.store.billed)[g] <= multiset(Next(s, step).store.billed)[g]
  {
    hide Apply, Settle, FreshOp, Gate;
    match step
    case Do(op) => DoBillsNothing(s.store, op);
    case Check(_, _) =>
    case Land(i, live, acquired, now) => SettleWrites(s.store, s.flights[i], live, acquired, now);
  }

  lemma {:induction false} BilledGrowsOver(states: seq<State>, steps: seq<Step>, m: nat, n: nat, g: (string, string))
    requires History(states, steps) && m <= n < |states|
    ensures multiset(states[m].store.billed)[g] <= multiset(states[n].store.billed)[g]
    decreases n - m
  {
    hide Enabled, Next;
    if m < n {
      BilledGrows(states[n - 1], steps[n - 1], g);
      BilledGrowsOver(states, steps, m, n - 1, g);
    }
  }

  /** Two redeems of an unredeemed launch that are both checked before either lands bill it twice. */
  lemma TwoChecksBillTwice(s: State, token: Token, x: string, now: nat)
    requires Inv(s) && Gate(s.store, token, now).Admitted? && s.store.launches[token.sub].redeemedAt.None?
    ensures var n, check := |s.flights|, Check(token, now);
            && Enabled(s, check) && Enabled(Next(s, check), check)
            && var t := Next(Next(s, check), check);
               && Enabled(t, Land(n, false, Some(x), now))
               && var u := Next(t, Land(n, false, Some(x), now));
                  && Enabled(u, Land(n + 1, false, Some(x), now))
                  && Next(u, Land(n + 1, false, Some(x), now)).store.billed ==
                     s.store.billed + [(token.sub, token.jti)] + [(token.sub, token.jti)]
  {
    hide Gate, Settle, Inv;
    Admits(s.store, token, now);
    var n, check := |s.flights|, Check(token, now);
    var t := Next(Next(s, check), check);
    SettleWrites(t.store, t.flights[n], false, Some(x), now);
    var u := Next(t, Land(n, false, Some(x), now));
    SettleWrites(u.store, u.flights[n + 1], false, Some(x), now);
  }

  /** A rival that gets no instance does no harm: the overlap alone is not what bills twice. */
  lemma RivalThatGivesUp(s: State, token: Token, x: string, now: nat)
    requires Inv(s) && Gate(s.store, token, now).Admitted? && s.store.launches[token.sub].redeemedAt.None?
    ensures var n, check := |s.flights|, Check(token, now);
            && Enabled(s, check) && Enabled(Next(s, check), check)
            && var t := Next(Next(s, check), check);
               && n in t.flights[n + 1].rivals && Enabled(t, Land(n, false, None, now))
               && var u := Next(t, Land(n, false, None, now));
                  && Enabled(u, Land(n + 1, false, Some(x), now))
                  && Next(u, Land(n + 1, false, Some(x), now)).store.billed == s.store.billed + [(token.sub, token.jti)]
  {
    hide Gate, Settle, Inv;
    Admits(s.store, token, now);
    var n, check := |s.flights|, Check(token, now);
    var t := Next(Next(s, check), check);
    SettleWrites(t.store, t.flights[n], false, None, now);
    var u := Next(t, Land(n, false, None, now));
    SettleWrites(u.store, u.flights[n + 1], false, Some(x), now);
  }

  // ---------- generations that are never billed ----------

  /** The landing stamps the row of a generation other than the one it redeems, which was still unredeemed. */
  ghost predicate Stray(s: State, step: Step) {
    step.Land? && step.f < |s.flights| &&
    var f := s.flights[step.f];
    f.token.sub in s.store.launches &&
    var row := s.store.launches[f.token.sub];
    && Succeeds(f, step.live, step.acquired)
    && !(f.seen.redeemedAt.Some? && f.seen.instanceId.Some? && step.live)
    && row.redeemedAt.None? && row.tokenJti.Some? && row.tokenJti != Some(f.token.jti)
  }

  /** An unredeemed current generation has no event. */
  lemma UnredeemedUnbilled(s: State, id: string, jti: string)
    requires Inv(s) && id in s.store.launches && s.store.launches[id].tokenJti == Some(jti)
    requires s.store.launches[id].redeemedAt.None?
    ensures (id, jti) !in s.store.billed
  {
    hide Rivalry, Known, Billings;
    SomeBilling(s.flights, id, jti);
    assert multiset(s.store.billed)[(id, jti)] == Billings(s.flights, id, jti);
    forall i | 0 <= i < |s.flights| ensures !Billing(s.flights[i], id, jti) {
      assert StampedBy(s.store, s.flights[i]);
    }
  }

  /** What stamps a row without billing its generation is exactly a stray landing. */
  lemma StepKeepsPaidIff(s: State, step: Step)
    requires Inv(s) && Paid(s.store) && Enabled(s, step)
    ensures Paid(Next(s, step).store) <==> !Stray(s, step)
  {
    hide Inv, Apply, Settle, FreshOp, Gate;
    match step
    case Do(op) => OpKeepsPaid(s.store, op);
    case Check(_, _) =>
    case Land(i, live, acquired, now) => LandKeepsPaidIff(s, i, live, acquired, now);
  }

  lemma LandKeepsPaidIff(s: State, i: nat, live: bool, acquired: Option<string>, now: nat)
    requires Inv(s) && Paid(s.store) && Enabled(s, Land(i, live, acquired, now))
    ensures Paid(Next(s, Land(i, live, acquired, now)).store) <==> !Stray(s, Land(i, live, acquired, now))
  {
    hide Counted, Known, Rivalry, Billings;
    var f := s.flights[i];
    var id := f.token.sub;
    var row := s.store.launches[id];
    var t := Next(s, Land(i, live, acquired, now)).store;
    SettleWrites(s.store, f, live, acquired, now);
    assert StampedBy(s.store, f);
    forall k | k in t.launches && k != id && t.launches[k].redeemedAt.Some? && t.launches[k].tokenJti.Some?
      ensures (k, t.launches[k].tokenJti.value) in t.billed
    {
      assert (k, s.store.launches[k].tokenJti.value) in s.store.billed;
    }
    if row.tokenJti.Some? {
      var jti := row.tokenJti.value;
      if row.redeemedAt.None? { UnredeemedUnbilled(s, id, jti); }
      assert (id, jti) in t.billed <==> (id, jti) in s.store.billed
                                        || (Succeeds(f, live, acquired) && f.seen.redeemedAt.None? && jti == f.token.jti);
    }
  }

  /** Throughout a history every redeemed generation has been billed, if and only if no landing in it is stray. */
  lemma PaidThroughoutIff(states: seq<State>, steps: seq<Step>)
    requires History(states, steps)
    ensures (forall n :: 0 <= n < |states| ==> Paid(states[n].store))
            <==> forall n :: 0 <= n < |steps| ==> !Stray(states[n], steps[n])
  {
    hide Enabled, Next, Stray, Inv, Paid;
    forall n: nat | n < |states| ensures Inv(states[n]) { HistoryKeeps(states, steps, n); }
    if forall n :: 0 <= n < |states| ==> Paid(states[n].store) {
      forall n | 0 <= n < |steps| ensures !Stray(states[n], steps[n]) {
        assert Paid(states[n + 1].store);
        StepKeepsPaidIff(states[n], steps[n]);
      }
    }
    if forall n :: 0 <= n < |steps| ==> !Stray(states[n], steps[n]) {
      forall n: nat | n < |states| ensures Paid(states[n].store) { PaidUpTo(states, steps, n); }
    }
  }

  lemma {:induction false} PaidUpTo(states: seq<State>, steps: seq<Step>, n: nat)
    requires History(states, steps) && n < |states|
    requires forall k :: 0 <= k < |steps| ==> !Stray(states[k], steps[k])
    ensures Paid(states[n].store)
  {
    hide Enabled, Next, Stray, Inv, Paid;
    if n == 0 {
      EmptyPaid();
    } else {
      PaidUpTo(states, steps, n - 1);
      HistoryKeeps(states, steps, n - 1);
      StepKeepsPaidIff(states[n - 1], steps[n - 1]);
    }
  }

  lemma EmptyPaid()
    ensures Paid(EMPTY)
  {
  }

  /** A generation without an event that no redeem can bill any more. */
  ghost predicate Lost(s: State, id: string, jti: string) {
    && Used(s.store, jti) && id in s.store.launches && (id, jti) !in s.store.billed
    && (s.store.launches[id].tokenJti == Some(jti) ==> s.store.launches[id].redeemedAt.Some?)
    && forall f :: f in s.flights && Saw(f, id, jti) ==> !f.phase.InFlight?
  }

  lemma StaysLost(s: State, step: Step, id: string, jti: string)
    requires Lost(s, id, jti) && Enabled(s, step)
    ensures Lost(Next(s, step), id, jti)
  {
    hide Apply, Settle, FreshOp, Gate, Used;
    match step
    case Do(op) =>
      DoKeepsRows(s.store, op, id);
      UsedGrows(s.store, op, jti);
    case Check(token, now) => Admits(s.store, token, now);
    case Land(i, live, acquired, now) =>
      assert s.flights[i] in s.flights;
      SettleWrites(s.store, s.flights[i], live, acquired, now);
      SameUsed(s.store, Next(s, step).store, jti);
  }

  lemma SameUsed(s: Store, t: Store, jti: string)
    requires s.issued == t.issued
    ensures Used(s, jti) == Used(t, jti)
  {
  }

  /** It is never billed, however the history goes on. */
  lemma {:induction false} LostForGood(states: seq<State>, steps: seq<Step>, m: nat, n: nat, id: string, jti: string)
    requires History(states, steps) && m <= n < |states| && Lost(states[m], id, jti)
    ensures (id, jti) !in states[n].store.billed && Lost(states[n], id, jti)
    decreases n - m
  {
    hide Enabled, Next;
    if m < n {
      LostForGood(states, steps, m, n - 1, id, jti);
      StaysLost(states[n - 1], steps[n - 1], id, jti);
    }
  }

  /** A regenerate while a redeem of the old URL is under way: that redeem uses up the new generation unbilled. */
  lemma RegenerateMeetsRedeem(s: State, i: nat, jti: string, x: string, now: nat)
    requires Inv(s) && i < |s.flights| && s.flights[i].phase.InFlight?
    requires forall t :: t in s.store.issued ==> t.jti != jti
    ensures s.flights[i].token.sub in s.store.launches
    ensures var id := s.flights[i].token.sub;
            var regenerate := Do(Regenerate(s.store.launches[id].tenant, id, jti, None, now));
            && Enabled(s, regenerate)
            && var t := Next(s, regenerate);
               && Enabled(t, Land(i, false, Some(x), now)) && Stray(t, Land(i, false, Some(x), now))
               && Lost(Next(t, Land(i, false, Some(x), now)), id, jti)
  {
    hide Settle, Counted, Rivalry, Stamped;
    var f := s.flights[i];
    var id := f.token.sub;
    var regenerate := Regenerate(s.store.launches[id].tenant, id, jti, None, now);
    var t := Next(s, Do(regenerate));
    DoBillsNothing(s.store, regenerate);
    NewTokenUsed(s.store, regenerate);
    StepKeeps(s, Do(regenerate));
    UnredeemedUnbilled(t, id, jti);
    SettleWrites(t.store, f, false, Some(x), now);
    SameUsed(t.store, Next(t, Land(i, false, Some(x), now)).store, jti);
    forall g | g in s.flights ensures g.token.jti != jti {
      var k :| 0 <= k < |s.flights| && s.flights[k] == g;
      assert Used(s.store, s.flights[k].token.jti);
    }
  }
}
