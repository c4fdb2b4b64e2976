/** saveImages: files are launched in order under a semaphore of four slots, an error stops the
    launching, and the results are collected by index. Each goroutine takes two steps after its
    launch: the processing ends and frees the slot, then the error group sees its error. */
module ImageScheduler {
  import opened Common

  const MaxConcurrent := 4

  /** What processing each file comes to: its path, or an error. */
  type Outcomes = seq<Result<string, string>>

  datatype Phase = Waiting | Running | Returned | Reported

  datatype State = State(
    next: nat,
    stopped: bool,
    phases: seq<Phase>,
    slots: nat,
    firstError: Option<string>,
    paths: seq<string>)

  datatype Step = Launch | Break | Finish(i: nat) | Report(i: nat)

  function Start(files: Outcomes): State {
    State(0, false, seq(|files|, i => Waiting), 0, None, seq(|files|, i => ""))
  }

  /** The group's context is cancelled by the first reported error. */
  predicate Cancelled(s: State) {
    s.firstError.Some?
  }

  predicate Queueing(files: Outcomes, s: State) {
    !s.stopped && s.next < |files|
  }

  predicate Enabled(files: Outcomes, s: State, step: Step) {
    match step
    case Launch => Queueing(files, s) && s.slots < MaxConcurrent
    case Break => Queueing(files, s) && Cancelled(s)
    case Finish(i) => i < |s.phases| && s.phases[i].Running?
    case Report(i) => i < |s.phases| && s.phases[i].Returned?
  }

  /** `|files|` phases and paths: what Start sets up and every step keeps. */
  predicate Sized(files: Outcomes, s: State) {
    |s.phases| == |s.paths| == |files| && s.next <= |files|
  }

  function Do(files: Outcomes, s: State, step: Step): State
    requires Sized(files, s) && Enabled(files, s, step)
  {
    match step
    case Launch => s.(next := s.next + 1, phases := s.phases[s.next := Running], slots := s.slots + 1)
    case Break => s.(stopped := true)
    case Finish(i) =>
      s.(phases := s.phases[i := Returned], slots := if s.slots > 0 then s.slots - 1 else 0,
         paths := if files[i].Ok? then s.paths[i := files[i].value] else s.paths)
    case Report(i) =>
      s.(phases := s.phases[i := Reported],
         firstError := if files[i].Err? && s.firstError.None? then Some(files[i].error) else s.firstError)
  }

  /** The launching is over and every launched goroutine has reported: Wait returns. */
  predicate Final(files: Outcomes, s: State) {
    !Queueing(files, s) && forall i :: 0 <= i < |s.phases| ==> s.phases[i].Waiting? || s.phases[i].Reported?
  }

  function Answer(s: State): Result<seq<string>, string> {
    match s.firstError
    case Some(e) => Err(e)
    case None => Ok(s.paths)
  }

  predicate IsRun(files: Outcomes, s: State, steps: seq<Step>)
    requires Sized(files, s)
    decreases |steps|
  {
    steps != [] ==>
      && Enabled(files, s, steps[0]) && Sized(files, Do(files, s, steps[0]))
      && IsRun(files, Do(files, s, steps[0]), steps[1..])
  }

  function After(files: Outcomes, s: State, steps: seq<Step>): State
    requires Sized(files, s) && IsRun(files, s, steps)
    decreases |steps|
  {
    if steps == [] then s else After(files, Do(files, s, steps[0]), steps[1..])
  }

  // ----- The invariant -----

  function RunningCount(phases: seq<Phase>): nat {
    if phases == [] then 0
    else RunningCount(phases[..|phases| - 1]) + (if phases[|phases| - 1].Running? then 1 else 0)
  }

  ghost predicate Inv(files: Outcomes, s: State) {
    && Sized(files, s)
    && s.slots == RunningCount(s.phases) <= MaxConcurrent
    && (forall i :: 0 <= i < |files| ==> (s.phases[i].Waiting? <==> i >= s.next))
    && (forall i :: 0 <= i < |files| && (s.phases[i].Returned? || s.phases[i].Reported?) && files[i].Ok? ==>
          s.paths[i] == files[i].value)
    && (forall i :: 0 <= i < |files| && s.phases[i].Reported? && files[i].Err? ==> s.firstError.Some?)
    && (s.firstError.Some? ==> exists i :: 0 <= i < |files| && files[i] == Err(s.firstError.value))
    && (s.stopped ==> s.firstError.Some?)
  }

  lemma {:induction false} CountAfterChange(phases: seq<Phase>, i: nat, p: Phase)
    requires i < |phases|
    ensures RunningCount(phases[i := p]) ==
            RunningCount(phases) + (if p.Running? then 1 else 0) - (if phases[i].Running? then 1 else 0)
  {
    var n := |phases| - 1;
    if i < n {
      assert phases[i := p][..n] == phases[..n][i := p];
      CountAfterChange(phases[..n], i, p);
    } else {
      assert phases[i := p][..n] == phases[..n];
    }
  }

  lemma {:induction false} NoneRunning(phases: seq<Phase>)
    ensures RunningCount(phases) == 0 <==> forall i :: 0 <= i < |phases| ==> !phases[i].Running?
  {
    if phases != [] { NoneRunning(phases[..|phases| - 1]); }
  }

  lemma InvStart(files: Outcomes)
    ensures Inv(files, Start(files))
  {
    NoneRunning(Start(files).phases);
  }

  lemma InvStep(files: Outcomes, s: State, step: Step)
    requires Inv(files, s) && Enabled(files, s, step)
    ensures Inv(files, Do(files, s, step))
  {
    match step
    case Launch => CountAfterChange(s.phases, s.next, Running);
    case Break =>
    case Finish(i) => CountAfterChange(s.phases, i, Returned);
    case Report(i) =>
      CountAfterChange(s.phases, i, Reported);
      if files[i].Err? { assert files[i] == Err(files[i].error); }
  }

  // ----- Termination -----

  function Weight(p: Phase): nat {
    match p
    case Waiting => 3
    case Running => 2
    case Returned => 1
    case Reported => 0
  }

  function TotalWeight(phases: seq<Phase>): nat {
    if phases == [] then 0 else TotalWeight(phases[..|phases| - 1]) + Weight(phases[|phases| - 1])
  }

  function Measure(s: State): nat {
    TotalWeight(s.phases) + if s.stopped then 0 else 1
  }

  lemma {:induction false} WeightAfterChange(phases: seq<Phase>, i: nat, p: Phase)
    requires i < |phases|
    ensures TotalWeight(phases[i := p]) == TotalWeight(phases) + Weight(p) - Weight(phases[i])
  {
    var n := |phases| - 1;
    if i < n {
      assert phases[i := p][..n] == phases[..n][i := p];
      WeightAfterChange(phases[..n], i, p);
    } else {
      assert phases[i := p][..n] == phases[..n];
    }
  }

  lemma StepDecreases(files: Outcomes, s: State, step: Step)
    requires Inv(files, s) && Enabled(files, s, step)
    ensures Measure(Do(files, s, step)) < Measure(s)
  {
    match step
    case Launch => WeightAfterChange(s.phases, s.next, Running);
    case Break =>
    case Finish(i) => WeightAfterChange(s.phases, i, Returned);
    case Report(i) => WeightAfterChange(s.phases, i, Reported);
  }

  lemma {:induction false} StartWeight(n: nat)
    ensures TotalWeight(seq(n, i => Waiting)) == 3 * n
  {
    if n > 0 {
      var phases := seq(n, i => Waiting);
      assert phases[..n - 1] == seq(n - 1, i => Waiting);
      StartWeight(n - 1);
    }
  }

  /** A state where nothing can happen is one where Wait returns: no schedule deadlocks. */
  lemma NeverStuck(files: Outcomes, s: State)
    requires Inv(files, s)
    ensures Final(files, s) <==> forall step :: !Enabled(files, s, step)
  {
    if forall step :: !Enabled(files, s, step) {
      forall i | 0 <= i < |s.phases| ensures s.phases[i].Waiting? || s.phases[i].Reported? {
        assert !Enabled(files, s, Finish(i)) && !Enabled(files, s, Report(i));
      }
      NoneRunning(s.phases);
      assert !Enabled(files, s, Launch);
    }
  }

  /** At most four images are in process in every reachable state. */
  lemma {:induction false} InvRun(files: Outcomes, s: State, steps: seq<Step>)
    requires Inv(files, s) && IsRun(files, s, steps)
    ensures Inv(files, After(files, s, steps))
    ensures |steps| + Measure(After(files, s, steps)) <= Measure(s)
    decreases |steps|
  {
    if steps != [] {
      InvStep(files, s, steps[0]);
      StepDecreases(files, s, steps[0]);
      InvRun(files, Do(files, s, steps[0]), steps[1..]);
    }
  }

  /** The next file is launched exactly while fewer than four images are in process. */
  ghost predicate LaunchesNext(files: Outcomes, s: State) {
    Enabled(files, s, Launch) <==> !s.stopped && s.next < |files| && RunningCount(s.phases) < 4
  }

  lemma FourSlots(files: Outcomes, s: State)
    requires Inv(files, s)
    ensures Enabled(files, s, Launch) <==> !s.stopped && s.next < |files| && RunningCount(s.phases) < 4
  {
  }

  /** Every schedule keeps at most four images in process, has at most 3n + 1 steps, and can
      always go on until Wait returns. */
  lemma EverySchedule(files: Outcomes, steps: seq<Step>)
    requires IsRun(files, Start(files), steps)
    ensures var s := After(files, Start(files), steps);
            && RunningCount(s.phases) <= 4
            && LaunchesNext(files, s)
            && |steps| <= 3 * |files| + 1
            && (Final(files, s) <==> forall step :: !Enabled(files, s, step))
  {
    InvStart(files);
    InvRun(files, Start(files), steps);
    StartWeight(|files|);
    FourSlots(files, After(files, Start(files), steps));
    NeverStuck(files, After(files, Start(files), steps));
  }

  /** When Wait returns, the answer is the paths of all files, each in its place, if every file
      could be processed, and otherwise the error of one that could not. */
  lemma AnswerIsRight(files: Outcomes, steps: seq<Step>)
    requires IsRun(files, Start(files), steps) && Final(files, After(files, Start(files), steps))
    ensures var answer := Answer(After(files, Start(files), steps));
            && (answer.Ok? <==> forall i :: 0 <= i < |files| ==> files[i].Ok?)
            && (answer.Ok? ==>
              |answer.value| == |files| && forall i :: 0 <= i < |files| ==> answer.value[i] == files[i].value)
            && (answer.Err? ==> exists i :: 0 <= i < |files| && files[i] == Err(answer.error))
  {
    InvStart(files);
    InvRun(files, Start(files), steps);
    var s := After(files, Start(files), steps);
    if s.firstError.None? {
      assert s.next == |files|;
      forall i | 0 <= i < |files| ensures files[i].Ok? && s.paths[i] == files[i].value {
        assert s.phases[i].Reported?;
      }
    }
  }
}
