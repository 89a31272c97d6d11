/**
 * The step loop of `train()`: for each step from the restored global step up
 * to `maxSteps - 1` the driver runs one optimisation step, then writes
 * summaries, logs, and checkpoints (and evaluates on the test split)
 * according to a modular schedule, and aborts on the first NaN loss.
 *
 * The loss is abstracted to an oracle `lossIsNaN(step)`. The schedule is
 * given once as a recursive reference (`Schedule`) and once as the loop the
 * driver runs (`Train`); the lemmas state what the schedule does.
 */
module StepSchedule {

  const SummaryEvery: int := 100
  const LogEvery: int := 10
  const CheckpointEvery: int := 1000

  // Python's `%` floors and Dafny's is Euclidean, but `step % n == 0` means
  // divisibility under either convention, whatever the sign of `step`.

  predicate SummaryDue(step: int, maxSteps: int) { step % SummaryEvery == 0 || step == maxSteps - 1 }
  predicate LogDue(step: int, maxSteps: int) { step % LogEvery == 0 || step == maxSteps - 1 }
  predicate CheckpointDue(step: int, maxSteps: int) { step % CheckpointEvery == 0 || step == maxSteps - 1 }

  /**
   * One observable action of the loop. `counter` is the value of the global
   * step variable when the action happens; the checkpoint file is tagged with
   * the loop variable `step` but holds the counter.
   */
  datatype Action =
    | Trained(step: int, counter: int)
    | Summarised(step: int)
    | Logged(step: int)
    | Saved(step: int, counter: int)
    | Tested(step: int)

  datatype Outcome = Completed | Diverged(step: int)

  /** What a step does before the NaN check: train, and write summaries when due. */
  function StepHead(step: int, maxSteps: int): seq<Action>
  {
    [Trained(step, step + 1)] + (if SummaryDue(step, maxSteps) then [Summarised(step)] else [])
  }

  /** What a step does after a passed NaN check: log, checkpoint and test when due. */
  function StepTail(step: int, maxSteps: int, hasTestData: bool): seq<Action>
  {
    (if LogDue(step, maxSteps) then [Logged(step)] else [])
    + (if CheckpointDue(step, maxSteps)
       then [Saved(step, step + 1)] + (if hasTestData then [Tested(step)] else [])
       else [])
  }

  /** The actions of one step whose loss is NaN or not, in the order the loop performs them. */
  function StepActions(step: int, maxSteps: int, hasTestData: bool, nan: bool): seq<Action>
  {
    StepHead(step, maxSteps) + (if nan then [] else StepTail(step, maxSteps, hasTestData))
  }

  /**
   * Reference trace of the loop started at `step`: empty iff no step is
   * left, otherwise at least one and at most five actions per step.
   */
  function Schedule(step: int, maxSteps: int, hasTestData: bool, lossIsNaN: int -> bool): (r: seq<Action>)
    ensures step >= maxSteps ==> |r| == 0
    ensures step < maxSteps ==> 1 <= |r| <= 5 * (maxSteps - step)
    decreases maxSteps - step
  {
    if step >= maxSteps then []
    else
      StepActions(step, maxSteps, hasTestData, lossIsNaN(step))
      + (if lossIsNaN(step) then [] else Schedule(step + 1, maxSteps, hasTestData, lossIsNaN))
  }

  /** How the loop started at `step` ends: at the first NaN step, or after the last step. */
  function Halt(step: int, maxSteps: int, lossIsNaN: int -> bool): (r: Outcome)
    ensures r == Completed <==> forall t :: step <= t < maxSteps ==> !lossIsNaN(t)
    ensures r.Diverged? ==>
      && step <= r.step < maxSteps
      && lossIsNaN(r.step)
      && forall t :: step <= t < r.step ==> !lossIsNaN(t)
    decreases maxSteps - step
  {
    if step >= maxSteps then Completed
    else if lossIsNaN(step) then Diverged(step)
    else Halt(step + 1, maxSteps, lossIsNaN)
  }

  /** Step `s` is reached by the loop started at `start`: it is in range and no earlier step diverged. */
  ghost predicate Reached(start: int, maxSteps: int, lossIsNaN: int -> bool, s: int)
  {
    start <= s < maxSteps && forall t :: start <= t < s ==> !lossIsNaN(t)
  }

  /** The kinds of action the loop performs at a step. */
  datatype Kind = Optimise | Summary | Log | Checkpoint | Test

  /** The action of kind `k` at step `s`, with the counter the step leaves behind. */
  function ActionOf(k: Kind, s: int): Action
  {
    match k
    case Optimise => Trained(s, s + 1)
    case Summary => Summarised(s)
    case Log => Logged(s)
    case Checkpoint => Saved(s, s + 1)
    case Test => Tested(s)
  }

  predicate Performs(trace: seq<Action>, k: Kind, s: int) { ActionOf(k, s) in trace }

  /** Whether a reached step `s` whose loss is `nan` performs an action of kind `k`. */
  predicate Due(k: Kind, s: int, maxSteps: int, hasTestData: bool, nan: bool)
  {
    match k
    case Optimise => true
    case Summary => SummaryDue(s, maxSteps)
    case Log => !nan && LogDue(s, maxSteps)
    case Checkpoint => !nan && CheckpointDue(s, maxSteps)
    case Test => hasTestData && !nan && CheckpointDue(s, maxSteps)
  }

  /** Every training and checkpoint action carries the counter one past its step. */
  predicate CountersInStep(trace: seq<Action>)
  {
    forall a :: a in trace && (a.Trained? || a.Saved?) ==> a.counter == a.step + 1
  }

  /** The first half of a loop step: the optimisation step that left `counter`, then the summary when due. */
  method TrainAndSummarise(step: int, maxSteps: int, counter: int) returns (head: seq<Action>)
    requires counter == step + 1
    ensures head == StepHead(step, maxSteps)
  {
    head := [Trained(step, counter)];
    if SummaryDue(step, maxSteps) {
      head := head + [Summarised(step)];
    }
  }

  /** The second half of a loop step, after the NaN check: log, then checkpoint and test when due. */
  method LogAndCheckpoint(step: int, maxSteps: int, hasTestData: bool, counter: int) returns (tail: seq<Action>)
    requires counter == step + 1
    ensures tail == StepTail(step, maxSteps, hasTestData)
  {
    tail := [];
    if LogDue(step, maxSteps) {
      tail := [Logged(step)];
    }
    if CheckpointDue(step, maxSteps) {
      var save := [Saved(step, counter)];
      if hasTestData {
        save := save + [Tested(step)];
      }
      tail := tail + save;
    }
  }

  /**
   * The driver's loop. The loop variable and the global step counter are kept
   * apart, as in the driver: the counter is advanced by the optimisation step
   * and recorded in checkpoints.
   */
  method Train(start: int, maxSteps: int, hasTestData: bool, lossIsNaN: int -> bool)
    returns (trace: seq<Action>, outcome: Outcome, globalStep: int)
    ensures trace == Schedule(start, maxSteps, hasTestData, lossIsNaN)
    ensures outcome == Halt(start, maxSteps, lossIsNaN)
    ensures outcome == Completed ==> globalStep == (if start < maxSteps then maxSteps else start)
    ensures outcome.Diverged? ==> globalStep == outcome.step + 1
  {
    var step := start;
    var counter := start;
    trace := [];
    while step < maxSteps
      invariant start <= step
      invariant start < maxSteps ==> step <= maxSteps
      invariant start >= maxSteps ==> step == start
      invariant counter == step
      invariant trace + Schedule(step, maxSteps, hasTestData, lossIsNaN) == Schedule(start, maxSteps, hasTestData, lossIsNaN)
      invariant forall t :: start <= t < step ==> !lossIsNaN(t)
      decreases maxSteps - step
    {
      // one optimisation step advances the global counter
      counter := counter + 1;
      var head := TrainAndSummarise(step, maxSteps, counter);
      if lossIsNaN(step) {
        ScheduleStopsAt(start, step, maxSteps, hasTestData, lossIsNaN, trace);
        HaltAfterPrefix(start, maxSteps, lossIsNaN, step);
        trace := trace + head;
        outcome := Diverged(step);
        globalStep := counter;
        return;
      }
      var tail := LogAndCheckpoint(step, maxSteps, hasTestData, counter);
      ScheduleContinues(start, step, maxSteps, hasTestData, lossIsNaN, trace);
      trace := trace + (head + tail);
      step := step + 1;
    }
    HaltAfterPrefix(start, maxSteps, lossIsNaN, step);
    outcome := Completed;
    globalStep := counter;
  }

  /** One step of the reference trace: the head alone on a NaN loss, otherwise head, tail and the rest. */
  lemma ScheduleUnfold(step: int, maxSteps: int, hasTestData: bool, lossIsNaN: int -> bool)
    requires step < maxSteps
    ensures lossIsNaN(step) ==> Schedule(step, maxSteps, hasTestData, lossIsNaN) == StepHead(step, maxSteps)
    ensures !lossIsNaN(step) ==>
      Schedule(step, maxSteps, hasTestData, lossIsNaN)
      == (StepHead(step, maxSteps) + StepTail(step, maxSteps, hasTestData)) + Schedule(step + 1, maxSteps, hasTestData, lossIsNaN)
  {
  }

  /** The loop's trace after a NaN step: its prefix, then the step's head, completes the reference trace. */
  lemma ScheduleStopsAt(start: int, step: int, maxSteps: int, hasTestData: bool, lossIsNaN: int -> bool, trace: seq<Action>)
    requires step < maxSteps && lossIsNaN(step)
    requires trace + Schedule(step, maxSteps, hasTestData, lossIsNaN) == Schedule(start, maxSteps, hasTestData, lossIsNaN)
    ensures trace + StepHead(step, maxSteps) == Schedule(start, maxSteps, hasTestData, lossIsNaN)
  {
    ScheduleUnfold(step, maxSteps, hasTestData, lossIsNaN);
  }

  /** The loop's trace after a step without NaN still leads into the reference trace from the next step. */
  lemma ScheduleContinues(start: int, step: int, maxSteps: int, hasTestData: bool, lossIsNaN: int -> bool, trace: seq<Action>)
    requires step < maxSteps && !lossIsNaN(step)
    requires trace + Schedule(step, maxSteps, hasTestData, lossIsNaN) == Schedule(start, maxSteps, hasTestData, lossIsNaN)
    ensures (trace + (StepHead(step, maxSteps) + StepTail(step, maxSteps, hasTestData))) + Schedule(step + 1, maxSteps, hasTestData, lossIsNaN)
      == Schedule(start, maxSteps, hasTestData, lossIsNaN)
  {
    ScheduleUnfold(step, maxSteps, hasTestData, lossIsNaN);
    AppendAssoc(trace, StepHead(step, maxSteps) + StepTail(step, maxSteps, hasTestData), Schedule(step + 1, maxSteps, hasTestData, lossIsNaN));
  }

  lemma AppendAssoc(a: seq<Action>, b: seq<Action>, c: seq<Action>)
    ensures (a + b) + c == a + (b + c)
  {
  }

  lemma ReachedStep(start: int, maxSteps: int, lossIsNaN: int -> bool, s: int)
    requires start < maxSteps
    ensures Reached(start, maxSteps, lossIsNaN, s) <==>
      s == start || (!lossIsNaN(start) && Reached(start + 1, maxSteps, lossIsNaN, s))
  {
    if s != start && Reached(start, maxSteps, lossIsNaN, s) {
      assert !lossIsNaN(start);
    }
  }

  /** The actions of a single step are the due actions of that step and of no other. */
  lemma StepActionsPerform(step: int, maxSteps: int, hasTestData: bool, nan: bool, k: Kind, s: int)
    ensures Performs(StepActions(step, maxSteps, hasTestData, nan), k, s) <==>
      s == step && Due(k, s, maxSteps, hasTestData, nan)
  {
    var head := StepHead(step, maxSteps);
    var tail := StepTail(step, maxSteps, hasTestData);
    assert StepActions(step, maxSteps, hasTestData, nan) == head + (if nan then [] else tail);
    assert forall a :: a in head ==> a.step == step;
    assert forall a :: a in tail ==> a.step == step;
  }

  /**
   * Which actions the loop started at `start` performs: a step reached by the
   * loop is trained; it writes summaries iff its step is a multiple of 100 or
   * the last; it logs iff its loss is not NaN and its step is a multiple of 10
   * or the last; it checkpoints iff its loss is not NaN and its step is a
   * multiple of 1000 or the last; it runs the test pass iff it checkpoints and
   * test data exists. No other action occurs.
   */
  lemma {:induction false} ScheduleActions(start: int, maxSteps: int, hasTestData: bool, lossIsNaN: int -> bool)
    ensures forall k, s :: Performs(Schedule(start, maxSteps, hasTestData, lossIsNaN), k, s) <==>
      Reached(start, maxSteps, lossIsNaN, s) && Due(k, s, maxSteps, hasTestData, lossIsNaN(s))
    decreases maxSteps - start
  {
    var trace := Schedule(start, maxSteps, hasTestData, lossIsNaN);
    if start < maxSteps {
      var here := StepActions(start, maxSteps, hasTestData, lossIsNaN(start));
      var rest := if lossIsNaN(start) then [] else Schedule(start + 1, maxSteps, hasTestData, lossIsNaN);
      assert trace == here + rest;
      ScheduleActions(start + 1, maxSteps, hasTestData, lossIsNaN);
      forall k, s
        ensures Performs(trace, k, s) <==>
          Reached(start, maxSteps, lossIsNaN, s) && Due(k, s, maxSteps, hasTestData, lossIsNaN(s))
      {
        ReachedStep(start, maxSteps, lossIsNaN, s);
        StepActionsPerform(start, maxSteps, hasTestData, lossIsNaN(start), k, s);
        assert Performs(trace, k, s) <==> Performs(here, k, s) || Performs(rest, k, s);
        if s == start && Performs(rest, k, s) {
          assert !lossIsNaN(start);
          assert Reached(start + 1, maxSteps, lossIsNaN, s);
        }
      }
    }
  }

  /** Every action of the loop started at `start` belongs to a step in `[start, maxSteps)`. */
  lemma {:induction false} ScheduleSteps(start: int, maxSteps: int, hasTestData: bool, lossIsNaN: int -> bool)
    ensures forall a :: a in Schedule(start, maxSteps, hasTestData, lossIsNaN) ==> start <= a.step < maxSteps
    decreases maxSteps - start
  {
    if start < maxSteps {
      var here := StepActions(start, maxSteps, hasTestData, lossIsNaN(start));
      assert forall a :: a in StepHead(start, maxSteps) ==> a.step == start;
      assert forall a :: a in StepTail(start, maxSteps, hasTestData) ==> a.step == start;
      ScheduleSteps(start + 1, maxSteps, hasTestData, lossIsNaN);
    }
  }

  /** Every action of the trace is one the loop performs at its own step, so it carries the counter one past its step. */
  lemma {:induction false} ScheduleCounters(start: int, maxSteps: int, hasTestData: bool, lossIsNaN: int -> bool)
    ensures forall a :: a in Schedule(start, maxSteps, hasTestData, lossIsNaN) ==>
      exists k :: a == ActionOf(k, a.step)
    decreases maxSteps - start
  {
    if start < maxSteps {
      StepActionsAreActionsOf(start, maxSteps, hasTestData, lossIsNaN(start));
      ScheduleCounters(start + 1, maxSteps, hasTestData, lossIsNaN);
    }
  }

  lemma StepActionsAreActionsOf(step: int, maxSteps: int, hasTestData: bool, nan: bool)
    ensures forall a :: a in StepActions(step, maxSteps, hasTestData, nan) ==> exists k :: a == ActionOf(k, a.step)
  {
    forall a | a in StepActions(step, maxSteps, hasTestData, nan)
      ensures exists k :: a == ActionOf(k, a.step)
    {
      match a
      case Trained(_, _) => assert a == ActionOf(Optimise, a.step);
      case Summarised(_) => assert a == ActionOf(Summary, a.step);
      case Logged(_) => assert a == ActionOf(Log, a.step);
      case Saved(_, _) => assert a == ActionOf(Checkpoint, a.step);
      case Tested(_) => assert a == ActionOf(Test, a.step);
    }
  }

  /** Position of an action within its step: train, summary, log, checkpoint, test. */
  function Rank(a: Action): nat
  {
    match a
    case Trained(_, _) => 0
    case Summarised(_) => 1
    case Logged(_) => 2
    case Saved(_, _) => 3
    case Tested(_) => 4
  }

  /** `a` comes strictly before `b`: an earlier step, or the same step and an earlier position in it. */
  predicate Precedes(a: Action, b: Action)
  {
    a.step < b.step || (a.step == b.step && Rank(a) < Rank(b))
  }

  /**
   * Steps are visited in order and each step does its actions at most once,
   * in the loop's order: every action strictly precedes all later ones.
   */
  predicate Ordered(trace: seq<Action>)
  {
    forall i, j :: 0 <= i < j < |trace| ==> Precedes(trace[i], trace[j])
  }

  /** The actions of one step all carry that step and come in strictly increasing position. */
  lemma StepActionsShape(step: int, maxSteps: int, hasTestData: bool, nan: bool)
    ensures var here := StepActions(step, maxSteps, hasTestData, nan);
      && 0 < |here|
      && (forall k :: 0 <= k < |here| ==> here[k].step == step)
      && (forall k, l :: 0 <= k < l < |here| ==> Rank(here[k]) < Rank(here[l]))
  {
  }

  lemma OrderedAppend(here: seq<Action>, rest: seq<Action>, step: int)
    requires forall k :: 0 <= k < |here| ==> here[k].step == step
    requires forall k, l :: 0 <= k < l < |here| ==> Rank(here[k]) < Rank(here[l])
    requires forall a :: a in rest ==> a.step > step
    requires Ordered(rest)
    ensures Ordered(here + rest)
  {
    var trace := here + rest;
    forall i, j | 0 <= i < j < |trace|
      ensures Precedes(trace[i], trace[j])
    {
      if j < |here| {
        assert trace[i] == here[i] && trace[j] == here[j];
      } else if i < |here| {
        assert trace[i] == here[i];
        assert trace[j] == rest[j - |here|];
        assert rest[j - |here|] in rest;
      } else {
        assert trace[i] == rest[i - |here|] && trace[j] == rest[j - |here|];
      }
    }
  }

  /**
   * The trace is strictly ordered by step and by position within a step; in
   * particular steps never decrease and training steps strictly increase.
   */
  lemma {:induction false} ScheduleOrdered(start: int, maxSteps: int, hasTestData: bool, lossIsNaN: int -> bool)
    ensures Ordered(Schedule(start, maxSteps, hasTestData, lossIsNaN))
    ensures var trace := Schedule(start, maxSteps, hasTestData, lossIsNaN);
      && (forall i, j :: 0 <= i < j < |trace| ==> trace[i].step <= trace[j].step)
      && (forall i, j :: 0 <= i < j < |trace| && trace[i].Trained? && trace[j].Trained? ==> trace[i].step < trace[j].step)
    decreases maxSteps - start
  {
    if start < maxSteps {
      var here := StepActions(start, maxSteps, hasTestData, lossIsNaN(start));
      var rest := if lossIsNaN(start) then [] else Schedule(start + 1, maxSteps, hasTestData, lossIsNaN);
      assert Schedule(start, maxSteps, hasTestData, lossIsNaN) == here + rest;
      StepActionsShape(start, maxSteps, hasTestData, lossIsNaN(start));
      ScheduleOrdered(start + 1, maxSteps, hasTestData, lossIsNaN);
      ScheduleSteps(start + 1, maxSteps, hasTestData, lossIsNaN);
      OrderedAppend(here, rest, start);
    }
  }

  /** When no step diverges and the range is non-empty, the final step summarises, logs and checkpoints. */
  lemma FinalStepActs(start: int, maxSteps: int, hasTestData: bool, lossIsNaN: int -> bool)
    requires start < maxSteps
    requires Halt(start, maxSteps, lossIsNaN) == Completed
    ensures var trace := Schedule(start, maxSteps, hasTestData, lossIsNaN);
      && Performs(trace, Summary, maxSteps - 1)
      && Performs(trace, Log, maxSteps - 1)
      && Performs(trace, Checkpoint, maxSteps - 1)
      && (hasTestData <==> Performs(trace, Test, maxSteps - 1))
  {
    ScheduleActions(start, maxSteps, hasTestData, lossIsNaN);
    assert Reached(start, maxSteps, lossIsNaN, maxSteps - 1);
  }

  /**
   * On divergence at step `k`: step `k` was trained (and summarised if due)
   * but neither logged, checkpointed nor tested; nothing happens after it;
   * and every checkpoint step before it has been saved.
   */
  lemma DivergenceKeepsEarlierCheckpoints(start: int, maxSteps: int, hasTestData: bool, lossIsNaN: int -> bool)
    requires Halt(start, maxSteps, lossIsNaN).Diverged?
    ensures var k := Halt(start, maxSteps, lossIsNaN).step;
      var trace := Schedule(start, maxSteps, hasTestData, lossIsNaN);
      && Performs(trace, Optimise, k)
      && (SummaryDue(k, maxSteps) ==> Performs(trace, Summary, k))
      && !Performs(trace, Log, k) && !Performs(trace, Checkpoint, k) && !Performs(trace, Test, k)
      && (forall a :: a in trace ==> a.step <= k)
      && (forall c :: start <= c < k && CheckpointDue(c, maxSteps) ==> Performs(trace, Checkpoint, c))
  {
    var k := Halt(start, maxSteps, lossIsNaN).step;
    var trace := Schedule(start, maxSteps, hasTestData, lossIsNaN);
    ScheduleActions(start, maxSteps, hasTestData, lossIsNaN);
    ScheduleCounters(start, maxSteps, hasTestData, lossIsNaN);
    assert Reached(start, maxSteps, lossIsNaN, k);
    forall c | start <= c < k && CheckpointDue(c, maxSteps)
      ensures Performs(trace, Checkpoint, c)
    {
      assert Reached(start, maxSteps, lossIsNaN, c);
    }
    forall a | a in trace
      ensures a.step <= k
    {
      var kind :| a == ActionOf(kind, a.step);
      assert Performs(trace, kind, a.step);
    }
  }

  predicate IsSuffix(tail: seq<Action>, whole: seq<Action>)
  {
    |tail| <= |whole| && whole[|whole| - |tail|..] == tail
  }

  /**
   * Resuming is consistent with the uninterrupted run: the checkpoint saved
   * at step `s` holds counter `s + 1`, and the run restarted from that
   * counter performs exactly the remaining actions of the uninterrupted run
   * and ends the same way.
   */
  lemma ResumeFromCheckpoint(start: int, maxSteps: int, hasTestData: bool, lossIsNaN: int -> bool, s: int)
    requires Performs(Schedule(start, maxSteps, hasTestData, lossIsNaN), Checkpoint, s)
    ensures IsSuffix(Schedule(s + 1, maxSteps, hasTestData, lossIsNaN), Schedule(start, maxSteps, hasTestData, lossIsNaN))
    ensures Halt(s + 1, maxSteps, lossIsNaN) == Halt(start, maxSteps, lossIsNaN)
  {
    ScheduleActions(start, maxSteps, hasTestData, lossIsNaN);
    assert Reached(start, maxSteps, lossIsNaN, s) && !lossIsNaN(s);
    ResumeSuffix(start, maxSteps, hasTestData, lossIsNaN, s + 1);
    HaltAfterPrefix(start, maxSteps, lossIsNaN, s + 1);
  }

  /** A run that passes `[start, resume)` without divergence ends the way the run started at `resume` does. */
  lemma {:induction false} HaltAfterPrefix(start: int, maxSteps: int, lossIsNaN: int -> bool, resume: int)
    requires start <= resume
    requires start < maxSteps ==> resume <= maxSteps
    requires forall t :: start <= t < resume ==> !lossIsNaN(t)
    ensures Halt(resume, maxSteps, lossIsNaN) == Halt(start, maxSteps, lossIsNaN)
    decreases resume - start
  {
    if start < resume {
      HaltAfterPrefix(start + 1, maxSteps, lossIsNaN, resume);
    }
  }

  /** A run that passes `[start, resume)` without divergence ends with exactly the trace of the run started at `resume`. */
  lemma {:induction false} ResumeSuffix(start: int, maxSteps: int, hasTestData: bool, lossIsNaN: int -> bool, resume: int)
    requires start <= resume <= maxSteps
    requires forall t :: start <= t < resume ==> !lossIsNaN(t)
    ensures IsSuffix(Schedule(resume, maxSteps, hasTestData, lossIsNaN), Schedule(start, maxSteps, hasTestData, lossIsNaN))
    decreases resume - start
  {
    if start < resume {
      ResumeSuffix(start + 1, maxSteps, hasTestData, lossIsNaN, resume);
      ScheduleUnfold(start, maxSteps, hasTestData, lossIsNaN);
      var mid := Schedule(start + 1, maxSteps, hasTestData, lossIsNaN);
      var here := StepHead(start, maxSteps) + StepTail(start, maxSteps, hasTestData);
      SuffixExtend(Schedule(resume, maxSteps, hasTestData, lossIsNaN), mid, here);
    }
  }

  lemma SuffixExtend(tail: seq<Action>, whole: seq<Action>, front: seq<Action>)
    requires IsSuffix(tail, whole)
    ensures IsSuffix(tail, front + whole)
  {
    assert (front + whole)[|front + whole| - |tail|..] == whole[|whole| - |tail|..];
  }

  /**
   * A 10000-step run whose loss first becomes NaN at step 5000 stops there
   * with the checkpoint of step 4000 saved and none for step 5000.
   */
  lemma DivergenceAtStep5000(hasTestData: bool, lossIsNaN: int -> bool)
    requires forall t :: 0 <= t < 5000 ==> !lossIsNaN(t)
    requires lossIsNaN(5000)
    ensures Halt(0, 10000, lossIsNaN) == Diverged(5000)
    ensures Performs(Schedule(0, 10000, hasTestData, lossIsNaN), Checkpoint, 4000)
    ensures !Performs(Schedule(0, 10000, hasTestData, lossIsNaN), Checkpoint, 5000)
  {
    HaltAfterPrefix(0, 10000, lossIsNaN, 5000);
    DivergenceKeepsEarlierCheckpoints(0, 10000, hasTestData, lossIsNaN);
  }
}
