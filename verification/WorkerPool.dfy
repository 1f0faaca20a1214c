/** The worker pool of the benches (nb-flux-bench.ts, nb-a3-bench.ts). */
module WorkerPool {
  import opened Wrappers

  /** What a session returned, for the task it was given. */
  datatype Outcome = Outcome(task: string, error: Option<string>)

  datatype Worker = Idle | InFlight(index: nat) | Stopped

  datatype Pool = Pool(next: nat, done: nat, limitHit: bool, results: seq<Option<Outcome>>, workers: seq<Worker>)

  /** What one worker does to the shared variables between two awaits, or less; steps interleave freely. */
  datatype Step = Claim(worker: nat) | Finish(worker: nat, outcome: Outcome) | Stop(worker: nat)

  function Start(tasks: seq<string>, concurrency: nat): Pool {
    Pool(0, 0, false, seq(|tasks|, _ => None), seq(concurrency, _ => Idle))
  }

  predicate MayClaim(tasks: seq<string>, p: Pool) { p.next < |tasks| && !p.limitHit }

  predicate Enabled(tasks: seq<string>, p: Pool, s: Step) {
    && s.worker < |p.workers|
    && match s
       case Claim(w) => p.workers[w].Idle? && MayClaim(tasks, p)
       case Stop(w) => p.workers[w].Idle? && !MayClaim(tasks, p)
       case Finish(w, o) => p.workers[w].InFlight? && p.workers[w].index < |tasks| == |p.results|
                            && o.task == tasks[p.workers[w].index]
  }

  function Apply(tasks: seq<string>, p: Pool, s: Step): Pool
    requires Enabled(tasks, p, s)
  {
    match s
    case Claim(w) => p.(next := p.next + 1, workers := p.workers[w := InFlight(p.next)])
    case Stop(w) => p.(workers := p.workers[w := Stopped])
    case Finish(w, o) =>
      p.(limitHit := p.limitHit || o.error == Some("account_limit"),
         results := p.results[p.workers[w].index := Some(o)],
         done := p.done + 1,
         workers := p.workers[w := Idle])
  }

  // ----- counting

  lemma {:induction false} CountUpdate<T>(xs: seq<T>, p: T -> bool, i: nat, x: T)
    requires i < |xs|
    ensures Count(xs[i := x], p) == Count(xs, p) - (if p(xs[i]) then 1 else 0) + (if p(x) then 1 else 0)
  {
    if i == 0 {
      assert xs[0 := x][1..] == xs[1..];
    } else {
      CountUpdate(xs[1..], p, i - 1, x);
      assert xs[i := x][1..] == xs[1..][i - 1 := x];
    }
  }

  lemma {:induction false} CountNone<T>(xs: seq<T>, p: T -> bool)
    requires forall i :: 0 <= i < |xs| ==> !p(xs[i])
    ensures Count(xs, p) == 0
  {
    if xs != [] { CountNone(xs[1..], p); }
  }

  /** If all are counted, the count is the length. */
  lemma {:induction false} CountBelowLength<T>(xs: seq<T>, p: T -> bool, i: nat)
    requires i < |xs| && !p(xs[i])
    ensures Count(xs, p) < |xs|
  {
    if i > 0 { CountBelowLength(xs[1..], p, i - 1); }
  }

  function Flying(p: Pool): nat { Count(p.workers, (w: Worker) => w.InFlight?) }

  function Filled(p: Pool): nat { Count(p.results, (r: Option<Outcome>) => r.Some?) }

  // ----- the invariant

  /** Results lie in their own slots, below the cursor. */
  ghost predicate Slots(tasks: seq<string>, p: Pool) {
    && |p.results| == |tasks| && p.next <= |tasks|
    && (forall i :: p.next <= i < |tasks| ==> p.results[i].None?)
    && (forall i :: 0 <= i < |tasks| && p.results[i].Some? ==> p.results[i].value.task == tasks[i])
  }

  ghost predicate Carried(p: Pool, i: nat) { exists w :: 0 <= w < |p.workers| && p.workers[w] == InFlight(i) }

  /** A claimed task is stored, or in flight with exactly one worker. */
  ghost predicate OneCarrier(p: Pool) {
    && p.next <= |p.results|
    && (forall w :: 0 <= w < |p.workers| && p.workers[w].InFlight? ==>
          p.workers[w].index < p.next && p.results[p.workers[w].index].None?)
    && (forall v, w :: 0 <= v < w < |p.workers| && p.workers[v].InFlight? && p.workers[w].InFlight? ==>
          p.workers[v].index != p.workers[w].index)
    && (forall i: nat :: i < p.next && p.results[i].None? ==> Carried(p, i))
  }

  ghost predicate Counters(p: Pool) { p.done == Filled(p) && p.done + Flying(p) == p.next }

  predicate Refused(r: Option<Outcome>) { r.Some? && r.value.error == Some("account_limit") }

  /** The flag tells whether some stored result is a credit refusal; whoever raised it is not in flight. */
  ghost predicate Flag(p: Pool) {
    && (p.limitHit <==> exists i :: 0 <= i < |p.results| && Refused(p.results[i]))
    && (p.limitHit ==> exists w :: 0 <= w < |p.workers| && !p.workers[w].InFlight?)
  }

  ghost predicate StopsInTime(tasks: seq<string>, p: Pool) {
    forall w :: 0 <= w < |p.workers| && p.workers[w].Stopped? ==> !MayClaim(tasks, p)
  }

  ghost predicate Inv(tasks: seq<string>, p: Pool) {
    Slots(tasks, p) && OneCarrier(p) && Counters(p) && Flag(p) && StopsInTime(tasks, p)
  }

  lemma {:induction false} StartInv(tasks: seq<string>, concurrency: nat)
    ensures Inv(tasks, Start(tasks, concurrency))
  {
    var p := Start(tasks, concurrency);
    CountNone(p.workers, (w: Worker) => w.InFlight?);
    CountNone(p.results, (r: Option<Outcome>) => r.Some?);
  }

  lemma {:induction false} StepKeepsSlots(tasks: seq<string>, p: Pool, s: Step)
    requires Slots(tasks, p) && OneCarrier(p) && Enabled(tasks, p, s)
    ensures Slots(tasks, Apply(tasks, p, s))
    ensures StopsInTime(tasks, p) ==> StopsInTime(tasks, Apply(tasks, p, s))
  {}

  lemma {:induction false} StepKeepsOneCarrier(tasks: seq<string>, p: Pool, s: Step)
    requires Slots(tasks, p) && OneCarrier(p) && Enabled(tasks, p, s)
    ensures OneCarrier(Apply(tasks, p, s))
  {
    hide Carried;
    var q := Apply(tasks, p, s);
    forall i: nat | i < q.next && q.results[i].None? ensures Carried(q, i) { StillCarried(tasks, p, s, i); }
  }

  lemma {:induction false} StillCarried(tasks: seq<string>, p: Pool, s: Step, i: nat)
    requires OneCarrier(p) && Enabled(tasks, p, s) && i < Apply(tasks, p, s).next && p.next < |p.results| + 1
    requires i < |p.results| && Apply(tasks, p, s).results[i].None?
    ensures Carried(Apply(tasks, p, s), i)
  {
    var q := Apply(tasks, p, s);
    if i == p.next {
      assert q.workers[s.worker] == InFlight(i);
    } else {
      assert p.results[i].None?;
      var v :| 0 <= v < |p.workers| && p.workers[v] == InFlight(i);
      assert q.workers[v] == InFlight(i);
    }
  }

  lemma {:induction false} StepKeepsCounters(tasks: seq<string>, p: Pool, s: Step)
    requires OneCarrier(p) && Counters(p) && Enabled(tasks, p, s)
    ensures Counters(Apply(tasks, p, s))
  {
    var q := Apply(tasks, p, s);
    CountUpdate(p.workers, (w: Worker) => w.InFlight?, s.worker, q.workers[s.worker]);
    if s.Finish? {
      CountUpdate(p.results, (r: Option<Outcome>) => r.Some?, p.workers[s.worker].index, Some(s.outcome));
    }
  }

  lemma {:induction false} StepKeepsFlag(tasks: seq<string>, p: Pool, s: Step)
    requires OneCarrier(p) && Flag(p) && Enabled(tasks, p, s)
    ensures Flag(Apply(tasks, p, s))
  {
    hide Refused;
    var q := Apply(tasks, p, s);
    if s.Finish? {
      var k := p.workers[s.worker].index;
      assert !q.workers[s.worker].InFlight?;
      RefusedIs(s.outcome);
      assert q.results[k] == Some(s.outcome);
      if i :| 0 <= i < |p.results| && Refused(p.results[i]) {
        assert q.results[i] == p.results[i];
      }
      if i :| 0 <= i < |q.results| && Refused(q.results[i]) {
        assert i == k || q.results[i] == p.results[i];
      }
    } else if s.Stop? {
      assert !q.workers[s.worker].InFlight?;
    }
  }

  lemma {:induction false} RefusedIs(o: Outcome)
    ensures Refused(Some(o)) <==> o.error == Some("account_limit")
    ensures !Refused(None)
  {}

  lemma {:induction false} StepKeepsInv(tasks: seq<string>, p: Pool, s: Step)
    requires Inv(tasks, p) && Enabled(tasks, p, s)
    ensures Inv(tasks, Apply(tasks, p, s))
  {
    StepKeepsSlots(tasks, p, s);
    StepKeepsOneCarrier(tasks, p, s);
    StepKeepsCounters(tasks, p, s);
    StepKeepsFlag(tasks, p, s);
  }

  // ----- whole runs

  /** The state after `steps`, or nothing if one of them was not enabled when its turn came. */
  function Run(tasks: seq<string>, p: Pool, steps: seq<Step>): Option<Pool>
    decreases |steps|
  {
    if steps == [] then Some(p)
    else if Enabled(tasks, p, steps[0]) then Run(tasks, Apply(tasks, p, steps[0]), steps[1..])
    else None
  }

  lemma {:induction false} RunKeepsInv(tasks: seq<string>, p: Pool, steps: seq<Step>)
    requires Inv(tasks, p) && Run(tasks, p, steps).Some?
    ensures Inv(tasks, Run(tasks, p, steps).value)
    ensures |Run(tasks, p, steps).value.workers| == |p.workers|
    decreases |steps|
  {
    hide Inv;
    if steps != [] {
      StepKeepsInv(tasks, p, steps[0]);
      RunKeepsInv(tasks, Apply(tasks, p, steps[0]), steps[1..]);
    }
  }

  /** Every interleaving of the workers keeps the invariant. */
  lemma {:induction false} EveryRunKeepsInv(tasks: seq<string>, concurrency: nat, steps: seq<Step>)
    requires Run(tasks, Start(tasks, concurrency), steps).Some?
    ensures Inv(tasks, Run(tasks, Start(tasks, concurrency), steps).value)
    ensures |Run(tasks, Start(tasks, concurrency), steps).value.workers| == concurrency
  {
    StartInv(tasks, concurrency);
    RunKeepsInv(tasks, Start(tasks, concurrency), steps);
  }

  /** A stored result is never replaced, and the cursor only moves on. */
  lemma {:induction false} ResultsAreFinal(tasks: seq<string>, p: Pool, steps: seq<Step>, i: nat)
    requires Inv(tasks, p) && Run(tasks, p, steps).Some? && i < |tasks|
    ensures var q := Run(tasks, p, steps).value;
            |q.results| == |tasks| && p.next <= q.next && (p.results[i].Some? ==> q.results[i] == p.results[i])
    decreases |steps|
  {
    if steps != [] {
      StepKeepsInv(tasks, p, steps[0]);
      ResultsAreFinal(tasks, Apply(tasks, p, steps[0]), steps[1..], i);
    }
  }

  predicate Claims(p: Pool, s: Step, i: nat) { s.Claim? && p.next == i }

  /** How often task `i` is claimed along a run. */
  function TimesClaimed(tasks: seq<string>, p: Pool, steps: seq<Step>, i: nat): nat
    requires Run(tasks, p, steps).Some?
    decreases |steps|
  {
    if steps == [] then 0
    else (if Claims(p, steps[0], i) then 1 else 0) + TimesClaimed(tasks, Apply(tasks, p, steps[0]), steps[1..], i)
  }

  /** Along any run, exactly the tasks the cursor passes are claimed, each of them once. */
  lemma {:induction false} ClaimedOnce(tasks: seq<string>, p: Pool, steps: seq<Step>, i: nat)
    requires Inv(tasks, p) && Run(tasks, p, steps).Some?
    ensures p.next <= Run(tasks, p, steps).value.next
    ensures TimesClaimed(tasks, p, steps, i) == if p.next <= i < Run(tasks, p, steps).value.next then 1 else 0
    decreases |steps|
  {
    hide Inv;
    if steps != [] {
      StepKeepsInv(tasks, p, steps[0]);
      ClaimedOnce(tasks, Apply(tasks, p, steps[0]), steps[1..], i);
    }
  }

  // ----- the flag

  lemma {:induction false} FlagFreezesCursor(tasks: seq<string>, p: Pool, steps: seq<Step>)
    requires p.limitHit && Run(tasks, p, steps).Some?
    ensures Run(tasks, p, steps).value.limitHit && Run(tasks, p, steps).value.next == p.next
    decreases |steps|
  {
    if steps != [] { FlagFreezesCursor(tasks, Apply(tasks, p, steps[0]), steps[1..]); }
  }

  /** Once the flag is set, no task starts, and at most one less than there are workers still finish. */
  lemma {:induction false} FewFinishAfterFlag(tasks: seq<string>, p: Pool, steps: seq<Step>)
    requires Inv(tasks, p) && p.limitHit && Run(tasks, p, steps).Some?
    ensures var q := Run(tasks, p, steps).value;
            q.next == p.next && p.done <= q.done <= p.done + |p.workers| - 1
  {
    var q := Run(tasks, p, steps).value;
    RunKeepsInv(tasks, p, steps);
    FlagFreezesCursor(tasks, p, steps);
    var w :| 0 <= w < |p.workers| && !p.workers[w].InFlight?;
    CountBelowLength(p.workers, (w: Worker) => w.InFlight?, w);
    DoneGrows(tasks, p, steps);
  }

  lemma {:induction false} DoneGrows(tasks: seq<string>, p: Pool, steps: seq<Step>)
    requires Run(tasks, p, steps).Some?
    ensures p.done <= Run(tasks, p, steps).value.done
    decreases |steps|
  {
    if steps != [] { DoneGrows(tasks, Apply(tasks, p, steps[0]), steps[1..]); }
  }

  // ----- the end

  ghost predicate AllStopped(p: Pool) { forall w :: 0 <= w < |p.workers| ==> p.workers[w].Stopped? }

  /** `results.filter(Boolean)`. */
  function Kept(results: seq<Option<Outcome>>): seq<Outcome> {
    if results == [] then []
    else (if results[0].Some? then [results[0].value] else []) + Kept(results[1..])
  }

  lemma {:induction false} KeptPrefix(results: seq<Option<Outcome>>, n: nat)
    requires n <= |results|
    requires (forall i :: 0 <= i < n ==> results[i].Some?) && (forall i :: n <= i < |results| ==> results[i].None?)
    ensures |Kept(results)| == n && forall i :: 0 <= i < n ==> Kept(results)[i] == results[i].value
  {
    if results != [] { KeptPrefix(results[1..], if n == 0 then 0 else n - 1); }
  }

  /**
   * When all workers have stopped, the file holds the results of a prefix of the
   * tasks, in order: all of them, unless some session hit the credit limit.
   */
  lemma {:induction false} FinalResults(tasks: seq<string>, p: Pool)
    requires Inv(tasks, p) && AllStopped(p) && p.workers != []
    ensures |Kept(p.results)| == p.next == p.done
    ensures forall i :: 0 <= i < p.next ==> Kept(p.results)[i].task == tasks[i]
    ensures p.next < |tasks| ==> exists i :: 0 <= i < p.next && Kept(p.results)[i].error == Some("account_limit")
  {
    assert p.workers[0].Stopped?;
    CountNone(p.workers, (w: Worker) => w.InFlight?);
    KeptPrefix(p.results, p.next);
  }

  // ----- termination

  function Weight(ws: seq<Worker>): nat {
    if ws == [] then 0
    else (match ws[0] case Idle => 1 case InFlight(_) => 2 case Stopped => 0) + Weight(ws[1..])
  }

  function Measure(tasks: seq<string>, p: Pool): int { 2 * (|tasks| - p.next) + Weight(p.workers) }

  lemma {:induction false} WeightUpdate(ws: seq<Worker>, i: nat, w: Worker)
    requires i < |ws|
    ensures Weight(ws[i := w]) == Weight(ws) - Weight([ws[i]]) + Weight([w])
  {
    if i == 0 {
      assert ws[0 := w][1..] == ws[1..];
    } else {
      WeightUpdate(ws[1..], i - 1, w);
      assert ws[i := w][1..] == ws[1..][i - 1 := w];
    }
  }

  lemma {:induction false} StepDecreases(tasks: seq<string>, p: Pool, s: Step)
    requires Enabled(tasks, p, s)
    ensures Measure(tasks, Apply(tasks, p, s)) == Measure(tasks, p) - 1
  {
    var q := Apply(tasks, p, s);
    WeightUpdate(p.workers, s.worker, q.workers[s.worker]);
  }

  lemma {:induction false} WeightOfStart(n: nat)
    ensures Weight(seq(n, _ => Idle)) == n
  {
    if n > 0 {
      WeightOfStart(n - 1);
      assert seq(n, _ => Idle)[1..] == seq(n - 1, _ => Idle);
    }
  }

  /** No run is longer than two steps a task and one a worker. */
  lemma {:induction false} RunsAreShort(tasks: seq<string>, concurrency: nat, steps: seq<Step>)
    requires Run(tasks, Start(tasks, concurrency), steps).Some?
    ensures |steps| <= 2 * |tasks| + concurrency
  {
    StartInv(tasks, concurrency);
    WeightOfStart(concurrency);
    assert Start(tasks, concurrency).workers == seq(concurrency, _ => Idle);
    RunMeasure(tasks, Start(tasks, concurrency), steps);
  }

  lemma {:induction false} RunMeasure(tasks: seq<string>, p: Pool, steps: seq<Step>)
    requires Inv(tasks, p) && Run(tasks, p, steps).Some?
    ensures |steps| <= Measure(tasks, p)
    decreases |steps|
  {
    if steps != [] {
      StepDecreases(tasks, p, steps[0]);
      StepKeepsInv(tasks, p, steps[0]);
      RunMeasure(tasks, Apply(tasks, p, steps[0]), steps[1..]);
    }
  }

  /** No interleaving gets stuck: until all workers have stopped, one of them can go on. */
  lemma {:induction false} NoDeadlock(tasks: seq<string>, p: Pool) returns (s: Step)
    requires Inv(tasks, p) && !AllStopped(p)
    ensures Enabled(tasks, p, s)
  {
    var w :| 0 <= w < |p.workers| && !p.workers[w].Stopped?;
    s := if p.workers[w].InFlight? then Finish(w, Outcome(tasks[p.workers[w].index], None))
         else if MayClaim(tasks, p) then Claim(w) else Stop(w);
  }

  /** The pool under an arbitrary scheduler, with arbitrary session outcomes. */
  method RunPool(tasks: seq<string>, concurrency: nat) returns (p: Pool, ghost steps: seq<Step>)
    ensures Run(tasks, Start(tasks, concurrency), steps) == Some(p) && Inv(tasks, p) && AllStopped(p)
    ensures |p.workers| == concurrency
  {
    hide Inv;
    p, steps := Start(tasks, concurrency), [];
    StartInv(tasks, concurrency);
    while exists w :: 0 <= w < |p.workers| && !p.workers[w].Stopped?
      invariant |p.workers| == concurrency
      invariant Inv(tasks, p) && Run(tasks, Start(tasks, concurrency), steps) == Some(p)
      decreases Measure(tasks, p)
    {
      var w :| 0 <= w < |p.workers| && !p.workers[w].Stopped?;
      var error: Option<string> := *;
      InFlightInRange(tasks, p);
      var s := if p.workers[w].InFlight? then Finish(w, Outcome(tasks[p.workers[w].index], error))
               else if MayClaim(tasks, p) then Claim(w) else Stop(w);
      StepDecreases(tasks, p, s);
      StepKeepsInv(tasks, p, s);
      RunSnoc(tasks, Start(tasks, concurrency), steps, s);
      MeasureIsNat(tasks, p);
      p, steps := Apply(tasks, p, s), steps + [s];
    }
  }

  lemma {:induction false} InFlightInRange(tasks: seq<string>, p: Pool)
    requires Inv(tasks, p)
    ensures |tasks| == |p.results|
    ensures forall w :: 0 <= w < |p.workers| && p.workers[w].InFlight? ==> p.workers[w].index < |tasks|
  {}

  lemma {:induction false} MeasureIsNat(tasks: seq<string>, p: Pool)
    requires Inv(tasks, p)
    ensures Measure(tasks, p) >= 0
  {}

  lemma {:induction false} RunSnoc(tasks: seq<string>, p: Pool, steps: seq<Step>, s: Step)
    requires Run(tasks, p, steps).Some? && Enabled(tasks, Run(tasks, p, steps).value, s)
    ensures Run(tasks, p, steps + [s]) == Some(Apply(tasks, Run(tasks, p, steps).value, s))
    decreases |steps|
  {
    if steps == [] {
      assert steps + [s] == [s] && [s][1..] == [];
    } else {
      RunSnoc(tasks, Apply(tasks, p, steps[0]), steps[1..], s);
      assert (steps + [s])[1..] == steps[1..] + [s];
    }
  }
}
