/**
 The bounded worker pool of a batch prepare (packages/control-plane/src/routes/batches.ts:599-647). Workers share a queue
 and four counters and interleave at their awaits; what a worker does between two awaits is one step.
 */
module PreparePool {
  import opened Prelude

  datatype Instance = Instance(status: Status, runtimeId: Option<string>)

  datatype Attached = Live | PausedWithRuntime | Other

  /** A launch with the instance its row showed when the batch was read. */
  datatype Seat = Seat(launchId: string, instance: Option<Instance>) {
    function Attached(): Attached {
      if instance.None? then Other
      else if instance.value.status in {Ready, Idle, Provisioning, Pending} then Live
      else if instance.value.status == Paused && instance.value.runtimeId.GetOr("") != "" then PausedWithRuntime
      else Other
    }
  }

  datatype Outcome = Prepared | Resumed | Skipped | Broken

  /** `Looping`: about to test the queue. `Resuming`, `Acquiring`, `Attaching`: waiting inside an await. */
  datatype Worker =
    | Looping
    | Resuming(seat: Seat)
    | Acquiring(seat: Seat)
    | Attaching(seat: Seat)
    | Returned

  /** `taken` and `log` record the seats shifted off the queue, and each seat's outcome, in order. */
  datatype Pool = Pool(queue: seq<Seat>, workers: seq<Worker>, prepared: nat, resumed: nat, skipped: nat, failed: nat,
                       taken: seq<Seat>, log: seq<(Seat, Outcome)>)

  datatype Step = Take(w: nat) | Return(w: nat) | Acquired(w: nat) | Settle(w: nat, ok: bool)

  function Start(launches: seq<Seat>, concurrency: nat): Pool {
    Pool(launches, seq(Min(concurrency, |launches|), (_: nat) => Looping), 0, 0, 0, 0, [], [])
  }

  predicate Waiting(k: Worker) {
    k.Resuming? || k.Acquiring? || k.Attaching?
  }

  predicate Enabled(p: Pool, step: Step) {
    step.w < |p.workers| &&
    var k := p.workers[step.w];
    match step
    case Take(_) => k.Looping? && p.queue != []
    case Return(_) => k.Looping? && p.queue == []
    case Acquired(_) => k.Acquiring?
    case Settle(_, ok) => Waiting(k) && (ok ==> !k.Acquiring?)
  }

  function Count(p: Pool, o: Outcome): Pool {
    match o
    case Prepared => p.(prepared := p.prepared + 1)
    case Resumed => p.(resumed := p.resumed + 1)
    case Skipped => p.(skipped := p.skipped + 1)
    case Broken => p.(failed := p.failed + 1)
  }

  function Record(p: Pool, seat: Seat, o: Outcome): Pool {
    Count(p, o).(log := p.log + [(seat, o)])
  }

  function Next(p: Pool, step: Step): Pool
    requires Enabled(p, step)
  {
    var w := step.w;
    match step
    case Take(_) =>
      var seat := p.queue[0];
      var q := p.(queue := p.queue[1..], taken := p.taken + [seat]);
      (match seat.Attached()
       case Live => Record(q, seat, Skipped)
       case PausedWithRuntime => q.(workers := p.workers[w := Resuming(seat)])
       case Other => q.(workers := p.workers[w := Acquiring(seat)]))
    case Return(_) => p.(workers := p.workers[w := Returned])
    case Acquired(_) => p.(workers := p.workers[w := Attaching(p.workers[w].seat)])
    case Settle(_, ok) =>
      var seat := p.workers[w].seat;
      var o := if !ok then Broken else if p.workers[w].Resuming? then Resumed else Prepared;
      Record(p, seat, o).(workers := p.workers[w := Looping])
  }

  function Run(p: Pool, steps: seq<Step>): Option<Pool>
    decreases |steps|
  {
    if steps == [] then Some(p)
    else if !Enabled(p, steps[0]) then None
    else Run(Next(p, steps[0]), steps[1..])
  }

  // ---------- what the pool keeps ----------

  function Held(k: Worker): multiset<Seat> {
    if Waiting(k) then multiset{k.seat} else multiset{}
  }

  /** The seats that workers are waiting on. */
  function InFlight(workers: seq<Worker>): multiset<Seat> {
    if workers == [] then multiset{} else Held(workers[0]) + InFlight(workers[1..])
  }

  function Seats(log: seq<(Seat, Outcome)>): multiset<Seat> {
    if log == [] then multiset{} else
      var n := |log| - 1;
      Seats(log[..n]) + multiset{log[n].0}
  }

  function Tally(log: seq<(Seat, Outcome)>, o: Outcome): nat {
    if log == [] then 0 else
      var n := |log| - 1;
      Tally(log[..n], o) + if log[n].1 == o then 1 else 0
  }

  /** Live seats are skipped, paused ones resumed, others prepared, unless something failed on the way. */
  predicate Fitting(seat: Seat, o: Outcome) {
    match seat.Attached()
    case Live => o.Skipped?
    case PausedWithRuntime => o.Resumed? || o.Broken?
    case Other => o.Prepared? || o.Broken?
  }

  predicate Right(k: Worker) {
    match k
    case Resuming(seat) => seat.Attached().PausedWithRuntime?
    case Acquiring(seat) => seat.Attached().Other?
    case Attaching(seat) => seat.Attached().Other?
    case _ => true
  }

  ghost predicate Inv(p: Pool, launches: seq<Seat>, concurrency: nat) {
    && |p.workers| == Min(concurrency, |launches|)
    && p.taken + p.queue == launches
    && multiset(p.taken) == InFlight(p.workers) + Seats(p.log)
    && p.prepared == Tally(p.log, Prepared) && p.resumed == Tally(p.log, Resumed)
    && p.skipped == Tally(p.log, Skipped) && p.failed == Tally(p.log, Broken)
    && (forall e :: e in p.log ==> Fitting(e.0, e.1))
    && (forall k :: k in p.workers ==> Right(k) && (k.Returned? ==> p.queue == []))
  }

  lemma Regroup(a: multiset<Seat>, b: multiset<Seat>, c: multiset<Seat>)
    ensures a + b + c == a + (b + c)
    ensures a + b == b + a
    ensures a + multiset{} == a
  {
  }

  lemma {:induction false} InFlightUpdate(workers: seq<Worker>, w: nat, k: Worker)
    requires w < |workers|
    ensures InFlight(workers[w := k]) + Held(workers[w]) == InFlight(workers) + Held(k)
    ensures forall x :: x in workers[w := k] ==> x == k || x in workers
  {
    hide Held;
    if w == 0 {
      assert workers[w := k][1..] == workers[1..];
    } else {
      assert workers[w := k][1..] == workers[1..][w - 1 := k];
      InFlightUpdate(workers[1..], w - 1, k);
      var h, r, r' := Held(workers[0]), InFlight(workers[1..]), InFlight(workers[1..][w - 1 := k]);
      Regroup(h, r', Held(workers[w]));
      Regroup(h, r, Held(k));
    }
  }

  lemma LogSnoc(log: seq<(Seat, Outcome)>, seat: Seat, o: Outcome)
    ensures Seats(log + [(seat, o)]) == Seats(log) + multiset{seat}
    ensures forall x: Outcome :: Tally(log + [(seat, o)], x) == Tally(log, x) + if x == o then 1 else 0
  {
    assert (log + [(seat, o)])[..|log|] == log;
  }

  /** Moving one worker keeps what is said of each worker. */
  lemma MoveKeeps(p: Pool, t: Pool, w: nat, k: Worker)
    requires w < |p.workers| && t.workers == p.workers[w := k] && Right(k)
    requires forall x :: x in p.workers ==> Right(x) && (x.Returned? ==> p.queue == [])
    requires p.queue == [] ==> t.queue == []
    requires k.Returned? ==> t.queue == []
    ensures forall x :: x in t.workers ==> Right(x) && (x.Returned? ==> t.queue == [])
    ensures InFlight(t.workers) + Held(p.workers[w]) == InFlight(p.workers) + Held(k)
    ensures Right(p.workers[w])
  {
    hide Right, InFlight, Held;
    assert p.workers[w] in p.workers;
    InFlightUpdate(p.workers, w, k);
  }

  /** The books after a seat has left the queue, gone in flight, or been settled. */
  lemma Balance(taken: multiset<Seat>, flying: multiset<Seat>, flying': multiset<Seat>, done: multiset<Seat>, seat: Seat)
    requires taken == flying + done
    ensures taken + multiset{seat} == flying + (done + multiset{seat})
    ensures flying' == flying + multiset{seat} ==> taken + multiset{seat} == flying' + done
    ensures flying == flying' + multiset{seat} ==> taken == flying' + (done + multiset{seat})
  {
  }

  lemma TakeSkipKeeps(p: Pool, w: nat, launches: seq<Seat>, concurrency: nat)
    requires Inv(p, launches, concurrency) && Enabled(p, Take(w)) && p.queue[0].Attached().Live?
    ensures Inv(Next(p, Take(w)), launches, concurrency)
  {
    hide InFlight, Seats, Tally, Right;
    var seat := p.queue[0];
    assert p.taken + [seat] + p.queue[1..] == p.taken + p.queue;
    assert multiset(p.taken + [seat]) == multiset(p.taken) + multiset{seat};
    LogSnoc(p.log, seat, Skipped);
    Balance(multiset(p.taken), InFlight(p.workers), InFlight(p.workers), Seats(p.log), seat);
  }

  lemma TakeBusyKeeps(p: Pool, w: nat, launches: seq<Seat>, concurrency: nat)
    requires Inv(p, launches, concurrency) && Enabled(p, Take(w)) && !p.queue[0].Attached().Live?
    ensures Inv(Next(p, Take(w)), launches, concurrency)
  {
    hide InFlight, Seats, Tally;
    var seat := p.queue[0];
    var t := Next(p, Take(w));
    assert p.taken + [seat] + p.queue[1..] == p.taken + p.queue;
    assert multiset(p.taken + [seat]) == multiset(p.taken) + multiset{seat};
    MoveKeeps(p, t, w, if seat.Attached().Other? then Acquiring(seat) else Resuming(seat));
    Regroup(InFlight(t.workers), multiset{}, multiset{});
    Balance(multiset(p.taken), InFlight(p.workers), InFlight(t.workers), Seats(p.log), seat);
  }

  lemma SettleKeeps(p: Pool, w: nat, ok: bool, launches: seq<Seat>, concurrency: nat)
    requires Inv(p, launches, concurrency) && Enabled(p, Settle(w, ok))
    ensures Inv(Next(p, Settle(w, ok)), launches, concurrency)
  {
    hide InFlight, Seats, Tally;
    var t := Next(p, Settle(w, ok));
    var seat := p.workers[w].seat;
    MoveKeeps(p, t, w, Looping);
    LogSnoc(p.log, seat, if !ok then Broken else if p.workers[w].Resuming? then Resumed else Prepared);
    Regroup(InFlight(p.workers), multiset{}, multiset{});
    Balance(multiset(p.taken), InFlight(p.workers), InFlight(t.workers), Seats(p.log), seat);
  }

  lemma SwapKeeps(p: Pool, step: Step, k: Worker, launches: seq<Seat>, concurrency: nat)
    requires Inv(p, launches, concurrency) && Enabled(p, step) && (step.Return? || step.Acquired?)
    requires k == Next(p, step).workers[step.w]
    ensures Inv(Next(p, step), launches, concurrency)
  {
    hide InFlight, Seats, Tally;
    var t := Next(p, step);
    assert p.workers[step.w] in p.workers;
    MoveKeeps(p, t, step.w, k);
    Same(InFlight(t.workers), InFlight(p.workers), Held(k));
  }

  lemma Same(a: multiset<Seat>, b: multiset<Seat>, c: multiset<Seat>)
    requires a + c == b + c
    ensures a == b
  {
    assert (a + c) - c == a && (b + c) - c == b;
  }

  lemma StepKeeps(p: Pool, step: Step, launches: seq<Seat>, concurrency: nat)
    requires Inv(p, launches, concurrency) && Enabled(p, step)
    ensures Inv(Next(p, step), launches, concurrency)
  {
    hide InFlight, Seats, Tally;
    match step
    case Take(w) =>
      if p.queue[0].Attached().Live? {
        TakeSkipKeeps(p, w, launches, concurrency);
      } else {
        TakeBusyKeeps(p, w, launches, concurrency);
      }
    case Settle(w, ok) => SettleKeeps(p, w, ok, launches, concurrency);
    case Return(w) => SwapKeeps(p, step, Returned, launches, concurrency);
    case Acquired(w) => SwapKeeps(p, step, Attaching(p.workers[w].seat), launches, concurrency);
  }

  lemma StartKeeps(launches: seq<Seat>, concurrency: nat)
    ensures Inv(Start(launches, concurrency), launches, concurrency)
  {
    LoopingInFlight(Start(launches, concurrency).workers);
    assert [] + launches == launches;
  }

  lemma {:induction false} LoopingInFlight(workers: seq<Worker>)
    requires forall k :: k in workers ==> k.Looping?
    ensures InFlight(workers) == multiset{}
  {
    if workers != [] {
      assert workers[0] in workers;
      LoopingInFlight(workers[1..]);
    }
  }

  lemma {:induction false} RunKeeps(p: Pool, steps: seq<Step>, launches: seq<Seat>, concurrency: nat)
    requires Inv(p, launches, concurrency) && Run(p, steps).Some?
    ensures Inv(Run(p, steps).value, launches, concurrency)
    decreases |steps|
  {
    hide Inv, Next, Enabled;
    if steps != [] {
      StepKeeps(p, steps[0], launches, concurrency);
      RunKeeps(Next(p, steps[0]), steps[1..], launches, concurrency);
    }
  }

  lemma {:induction false} InFlightBound(workers: seq<Worker>)
    ensures |InFlight(workers)| <= |workers|
  {
    if workers != [] { InFlightBound(workers[1..]); }
  }

  lemma {:induction false} TallyAll(log: seq<(Seat, Outcome)>)
    ensures Tally(log, Prepared) + Tally(log, Resumed) + Tally(log, Skipped) + Tally(log, Broken) == |log| == |Seats(log)|
  {
    if log != [] { TallyAll(log[..|log| - 1]); }
  }

  /** At every point of every interleaving: seats leave the queue once and in order, and none is lost or counted twice. */
  lemma NothingLost(launches: seq<Seat>, concurrency: nat, steps: seq<Step>, p: Pool)
    requires Run(Start(launches, concurrency), steps) == Some(p)
    ensures p.taken + p.queue == launches
    ensures multiset(launches) == multiset(p.queue) + InFlight(p.workers) + Seats(p.log)
    ensures |InFlight(p.workers)| <= Min(concurrency, |launches|)
    ensures |p.queue| + |InFlight(p.workers)| + p.prepared + p.resumed + p.skipped + p.failed == |launches|
    ensures forall e :: e in p.log ==> Fitting(e.0, e.1)
  {
    hide Run, InFlight, Seats, Tally;
    StartKeeps(launches, concurrency);
    RunKeeps(Start(launches, concurrency), steps, launches, concurrency);
    InFlightBound(p.workers);
    TallyAll(p.log);
    assert multiset(p.taken + p.queue) == multiset(p.taken) + multiset(p.queue);
    assert |multiset(p.taken)| == |p.taken|;
  }

  /** When every worker has returned, each seat has exactly one outcome and the four counters add up to the total. */
  lemma CompletionCounts(launches: seq<Seat>, concurrency: nat, steps: seq<Step>, p: Pool)
    requires concurrency >= 1 && Run(Start(launches, concurrency), steps) == Some(p)
    requires forall k :: k in p.workers ==> k.Returned?
    ensures p.prepared + p.resumed + p.skipped + p.failed == |launches|
    ensures Seats(p.log) == multiset(launches)
    ensures p.taken == launches
  {
    hide Run, InFlight, Seats, Tally;
    NothingLost(launches, concurrency, steps, p);
    StartKeeps(launches, concurrency);
    RunKeeps(Start(launches, concurrency), steps, launches, concurrency);
    ReturnedInFlight(p.workers);
    if launches != [] { assert p.workers[0] in p.workers; }
    assert p.queue == [];
    assert p.taken + [] == p.taken;
  }

  lemma {:induction false} ReturnedInFlight(workers: seq<Worker>)
    requires forall k :: k in workers ==> k.Returned?
    ensures InFlight(workers) == multiset{}
  {
    if workers != [] {
      assert workers[0] in workers;
      ReturnedInFlight(workers[1..]);
    }
  }

  // ---------- the answer, in the fields of the launches ----------

  /** Launches whose instance is ready, idle, or on its way there. */
  function AlreadyUp(launches: seq<Seat>): nat {
    if launches == [] then 0 else
      var l := launches[0];
      (if l.instance.Some? && l.instance.value.status in {Ready, Idle, Provisioning, Pending} then 1 else 0)
      + AlreadyUp(launches[1..])
  }

  /** Launches whose instance is paused and still has its container. */
  function Resumable(launches: seq<Seat>): nat {
    if launches == [] then 0 else
      var l := launches[0];
      (if l.instance.Some? && l.instance.value.status == Paused && l.instance.value.runtimeId.Some?
          && l.instance.value.runtimeId.value != "" then 1 else 0)
      + Resumable(launches[1..])
  }

  lemma {:induction false} DropOne(launches: seq<Seat>, i: nat)
    requires i < |launches|
    ensures var rest := launches[..i] + launches[i + 1..];
            && AlreadyUp(launches) == AlreadyUp(rest) + AlreadyUp([launches[i]])
            && Resumable(launches) == Resumable(rest) + Resumable([launches[i]])
  {
    var rest := launches[..i] + launches[i + 1..];
    if i == 0 {
      assert rest == launches[1..];
    } else {
      assert rest[0] == launches[0] && rest[1..] == launches[1..][..i - 1] + launches[1..][i..];
      DropOne(launches[1..], i - 1);
    }
  }

  /** The counters of a finished log depend on the launches only, up to the ones that failed. */
  lemma {:induction false} LogCounts(log: seq<(Seat, Outcome)>, launches: seq<Seat>)
    requires Seats(log) == multiset(launches) && forall e :: e in log ==> Fitting(e.0, e.1)
    ensures Tally(log, Skipped) == AlreadyUp(launches)
    ensures Tally(log, Resumed) <= Resumable(launches) <= Tally(log, Resumed) + Tally(log, Broken)
    decreases |log|
  {
    hide AlreadyUp, Resumable, Fitting, Seats, Tally;
    if log == [] {
      NoneYet(launches);
    } else {
      var front, seat := log[..|log| - 1], log[|log| - 1].0;
      LastEntry(log);
      var rest := Without(launches, seat);
      LogCounts(front, rest);
      FittingCounts(seat, log[|log| - 1].1);
    }
  }

  lemma LastEntry(log: seq<(Seat, Outcome)>)
    requires log != [] && forall e :: e in log ==> Fitting(e.0, e.1)
    ensures var front, e := log[..|log| - 1], log[|log| - 1];
            && e.0 in Seats(log) && Seats(front) == Seats(log) - multiset{e.0}
            && Fitting(e.0, e.1) && (forall d :: d in front ==> Fitting(d.0, d.1))
            && forall o: Outcome :: Tally(log, o) == Tally(front, o) + if e.1 == o then 1 else 0
  {
    hide Fitting;
  }

  lemma NoneYet(launches: seq<Seat>)
    requires Seats([]) == multiset(launches)
    ensures AlreadyUp(launches) == Resumable(launches) == Tally([], Skipped) == Tally([], Resumed) == Tally([], Broken) == 0
  {
    assert |multiset(launches)| == |launches|;
  }

  lemma Without(launches: seq<Seat>, seat: Seat) returns (rest: seq<Seat>)
    requires seat in multiset(launches)
    ensures multiset(rest) == multiset(launches) - multiset{seat}
    ensures AlreadyUp(launches) == AlreadyUp(rest) + AlreadyUp([seat])
    ensures Resumable(launches) == Resumable(rest) + Resumable([seat])
  {
    hide AlreadyUp, Resumable;
    var i: nat :| i < |launches| && launches[i] == seat;
    rest := launches[..i] + launches[i + 1..];
    assert launches == launches[..i] + [seat] + launches[i + 1..];
    assert multiset(launches) == multiset(rest) + multiset{seat};
    DropOne(launches, i);
  }

  lemma FittingCounts(seat: Seat, o: Outcome)
    requires Fitting(seat, o)
    ensures AlreadyUp([seat]) == if o.Skipped? then 1 else 0
    ensures Resumable([seat]) == 1 ==> o.Resumed? || o.Broken?
    ensures Resumable([seat]) == 0 ==> !o.Resumed?
    ensures Resumable([seat]) <= 1
  {
    assert AlreadyUp([seat][1..]) == Resumable([seat][1..]) == 0;
  }

  /** Exactly the launches that are up already are skipped, and with no failure exactly the paused ones are resumed. */
  lemma PrepareAnswers(launches: seq<Seat>, concurrency: nat, steps: seq<Step>, p: Pool)
    requires concurrency >= 1 && Run(Start(launches, concurrency), steps) == Some(p)
    requires forall k :: k in p.workers ==> k.Returned?
    ensures p.skipped == AlreadyUp(launches)
    ensures p.resumed <= Resumable(launches) <= p.resumed + p.failed
    ensures p.prepared + p.resumed + p.failed == |launches| - AlreadyUp(launches)
  {
    hide Run, Seats, Tally, InFlight, Fitting, Right;
    CompletionCounts(launches, concurrency, steps, p);
    NothingLost(launches, concurrency, steps, p);
    StartKeeps(launches, concurrency);
    RunKeeps(Start(launches, concurrency), steps, launches, concurrency);
    LogCounts(p.log, launches);
  }

  // ---------- the pool always finishes ----------

  function Rank(k: Worker): nat {
    match k
    case Looping => 1
    case Resuming(_) => 2
    case Acquiring(_) => 3
    case Attaching(_) => 2
    case Returned => 0
  }

  function Ranks(workers: seq<Worker>): nat {
    if workers == [] then 0 else Rank(workers[0]) + Ranks(workers[1..])
  }

  /** Steps that are left at most. */
  function Work(p: Pool): nat {
    3 * |p.queue| + Ranks(p.workers)
  }

  lemma {:induction false} RanksUpdate(workers: seq<Worker>, w: nat, k: Worker)
    requires w < |workers|
    ensures Ranks(workers[w := k]) == Ranks(workers) - Rank(workers[w]) + Rank(k)
  {
    if w == 0 {
      assert workers[w := k][1..] == workers[1..];
    } else {
      assert workers[w := k][1..] == workers[1..][w - 1 := k];
      RanksUpdate(workers[1..], w - 1, k);
    }
  }

  lemma StepWorks(p: Pool, step: Step)
    requires Enabled(p, step)
    ensures Work(Next(p, step)) < Work(p)
  {
    hide Ranks;
    RanksUpdate(p.workers, step.w, Next(p, step).workers[step.w]);
    assert Next(p, step).workers == p.workers[step.w := Next(p, step).workers[step.w]];
  }

  /** Every interleaving is bounded, and only stops being extendable when all the workers have returned. */
  lemma {:induction false} PoolFinishes(p: Pool, steps: seq<Step>)
    requires Run(p, steps).Some?
    ensures |steps| <= Work(p)
    ensures var q := Run(p, steps).value;
            (forall k :: k in q.workers ==> k.Returned?) || exists step :: Enabled(q, step)
    decreases |steps|
  {
    hide Next, Work;
    if steps != [] {
      StepWorks(p, steps[0]);
      PoolFinishes(Next(p, steps[0]), steps[1..]);
    } else if k :| k in p.workers && !k.Returned? {
      var w: nat :| w < |p.workers| && p.workers[w] == k;
      assert Enabled(p, if Waiting(k) then Settle(w, false) else if p.queue == [] then Return(w) else Take(w));
    }
  }

  // ---------- the shared variables as the workers update them ----------

  class Preparation {
    var queue: seq<Seat>
    var workers: seq<Worker>
    var prepared: nat
    var resumed: nat
    var skipped: nat
    var failed: nat
    ghost var taken: seq<Seat>
    ghost var log: seq<(Seat, Outcome)>

    constructor (launches: seq<Seat>, concurrency: nat)
      ensures Value() == Start(launches, concurrency)
      ensures Inv(Value(), launches, concurrency)
    {
      queue := launches;
      workers := seq(Min(concurrency, |launches|), (_: nat) => Looping);
      prepared, resumed, skipped, failed, taken, log := 0, 0, 0, 0, [], [];
      StartKeeps(launches, concurrency);
    }

    ghost function Value(): Pool
      reads this
    {
      Pool(queue, workers, prepared, resumed, skipped, failed, taken, log)
    }

    /** From the loop test to the first await, to the next loop test, or to the return of the worker. */
    method Loop(w: nat)
      requires w < |workers| && workers[w].Looping?
      modifies this
      ensures Value() == Next(old(Value()), if old(queue) == [] then Return(w) else Take(w))
    {
      if |queue| == 0 {
        workers := workers[w := Returned];
        return;
      }
      var l := queue[0];
      queue := queue[1..];
      taken := taken + [l];
      if l.instance.Some? && l.instance.value.status in {Ready, Idle, Provisioning, Pending} {
        skipped := skipped + 1;
        log := log + [(l, Skipped)];
        return;
      }
      if l.instance.Some? && l.instance.value.status == Paused && l.instance.value.runtimeId.GetOr("") != "" {
        workers := workers[w := Resuming(l)];
        return;
      }
      workers := workers[w := Acquiring(l)];
    }

    method AcquireReturned(w: nat)
      requires w < |workers| && workers[w].Acquiring?
      modifies this
      ensures Value() == Next(old(Value()), Acquired(w))
    {
      workers := workers[w := Attaching(workers[w].seat)];
    }

    /** The end of the try block, or its catch. */
    method AwaitSettled(w: nat, ok: bool)
      requires w < |workers| && Waiting(workers[w]) && (ok ==> !workers[w].Acquiring?)
      modifies this
      ensures Value() == Next(old(Value()), Settle(w, ok))
    {
      var l := workers[w];
      ghost var o := if !ok then Broken else if l.Resuming? then Resumed else Prepared;
      if !ok {
        failed := failed + 1;
      } else if l.Resuming? {
        resumed := resumed + 1;
      } else {
        prepared := prepared + 1;
      }
      log := log + [(l.seat, o)];
      workers := workers[w := Looping];
    }
  }
}
