/**
 * One command over several devices: up to 32 worker threads take selector
 * indices from an atomic ticket counter, and the first failure in selector order
 * is the exit code. Every interleaving of the threads is a run.
 */
module DeviceBatch {
  import opened Common

  const MAXIMUM_WORKERS := 32
  const NOT_RUN := 4

  datatype Phase = Ready | Running(index: nat) | Done

  datatype Claim = Claim(worker: nat, index: nat)

  datatype State = State(
    next: nat,                  // the ticket counter
    workers: seq<Phase>,        // the threads started so far
    results: seq<int>,
    claims: seq<Claim>,         // runs in the order they were started
    outcomes: map<nat, int>,    // exit codes of the finished runs
    returned: Option<int>)

  function WorkerCount(selectors: seq<string>): nat {
    Min(|selectors|, MAXIMUM_WORKERS)
  }

  function Initial(selectors: seq<string>): State {
    State(0, [], seq(|selectors|, _ => NOT_RUN), [], map[], None)
  }

  datatype Step =
    | Spawn
    | Take(worker: nat)               // fetch_add, and leave when the ticket is past the end
    | Finish(worker: nat, code: int)  // the command returns any exit code
    | Join                            // all threads have ended; choose the exit code

  predicate Enabled(selectors: seq<string>, s: State, step: Step) {
    && s.returned.None?
    && match step
       case Spawn => |s.workers| < WorkerCount(selectors)
       case Take(w) => w < |s.workers| && s.workers[w] == Ready
       case Finish(w, _) => w < |s.workers| && s.workers[w].Running? && s.workers[w].index < |s.results|
       case Join => |s.workers| == WorkerCount(selectors) && forall w :: 0 <= w < |s.workers| ==> s.workers[w] == Done
  }

  function Apply(selectors: seq<string>, s: State, step: Step): State
    requires Enabled(selectors, s, step)
  {
    match step
    case Spawn => s.(workers := s.workers + [Ready])
    case Take(w) =>
      var index := s.next;
      if index >= |selectors| then s.(next := index + 1, workers := s.workers[w := Done])
      else s.(next := index + 1, workers := s.workers[w := Running(index)], claims := s.claims + [Claim(w, index)])
    case Finish(w, code) =>
      var index := s.workers[w].index;
      s.(workers := s.workers[w := Ready], results := s.results[index := code], outcomes := s.outcomes[index := code])
    case Join => s.(returned := Some(FirstFailure(s.results)))
  }

  predicate IsRun(selectors: seq<string>, states: seq<State>, steps: seq<Step>) {
    && |states| == |steps| + 1
    && states[0] == Initial(selectors)
    && forall i :: 0 <= i < |steps| ==>
         Enabled(selectors, states[i], steps[i]) && states[i + 1] == Apply(selectors, states[i], steps[i])
  }

  /** The exit code: the first result that is not zero. */
  function FirstFailure(results: seq<int>): int {
    if results == [] then 0 else if results[0] != 0 then results[0] else FirstFailure(results[1..])
  }

  lemma {:induction false} FirstFailureAt(results: seq<int>, i: nat)
    requires i <= |results| && forall k :: 0 <= k < i ==> results[k] == 0
    ensures FirstFailure(results) == FirstFailure(results[i..])
    decreases i
  {
    if i > 0 {
      FirstFailureAt(results[1..], i - 1);
      assert results[1..][i - 1..] == results[i..];
    } else {
      assert results[0..] == results;
    }
  }

  /** Zero exactly when every device succeeded; otherwise the failure no earlier device precedes. */
  method ExitCode(results: seq<int>) returns (code: int)
    ensures code == FirstFailure(results)
    ensures code == 0 <==> forall k :: 0 <= k < |results| ==> results[k] == 0
    ensures code != 0 ==> exists i :: 0 <= i < |results| && results[i] == code && forall k :: 0 <= k < i ==> results[k] == 0
  {
    for i := 0 to |results|
      invariant forall k :: 0 <= k < i ==> results[k] == 0
    {
      if results[i] != 0 {
        FirstFailureAt(results, i);
        return results[i];
      }
    }
    FirstFailureAt(results, |results|);
    return 0;
  }

  // ----- The invariant

  /** Tickets below the end that have been handed out. */
  function Claimed(selectors: seq<string>, s: State): nat {
    Min(s.next, |selectors|)
  }

  predicate InFlight(s: State, w: nat, index: nat) {
    w < |s.workers| && s.workers[w] == Running(index)
  }

  /** The i-th run started is the run of index i. */
  predicate ClaimsInOrder(selectors: seq<string>, s: State) {
    && |s.claims| == Claimed(selectors, s)
    && forall i :: 0 <= i < |s.claims| ==> s.claims[i].index == i && s.claims[i].worker < |s.workers|
  }

  /** A claimed index is either in flight on the one worker that claimed it, or finished. */
  ghost predicate ClaimsAccounted(selectors: seq<string>, s: State) {
    && (forall w: nat, i: nat :: InFlight(s, w, i) ==> i < |s.claims| && s.claims[i].worker == w && i !in s.outcomes)
    && (forall i :: 0 <= i < |s.claims| ==> i in s.outcomes || InFlight(s, s.claims[i].worker, i))
    && (forall i :: i in s.outcomes ==> i < |s.claims|)
  }

  predicate ResultsMatch(selectors: seq<string>, s: State) {
    && |s.results| == |selectors|
    && forall i :: 0 <= i < |selectors| ==> s.results[i] == if i in s.outcomes then s.outcomes[i] else NOT_RUN
  }

  predicate WorkersMatch(selectors: seq<string>, s: State) {
    && |s.workers| <= WorkerCount(selectors)
    && (forall w :: 0 <= w < |s.workers| && s.workers[w] == Done ==> s.next >= |selectors|)
    && (s.returned.Some? ==> |s.workers| == WorkerCount(selectors) && forall w :: 0 <= w < |s.workers| ==> s.workers[w] == Done)
    && (s.returned.Some? ==> s.returned == Some(FirstFailure(s.results)))
  }

  ghost predicate Inv(selectors: seq<string>, s: State) {
    && ClaimsInOrder(selectors, s) && ClaimsAccounted(selectors, s)
    && ResultsMatch(selectors, s) && WorkersMatch(selectors, s)
  }

  lemma TakeKeepsInvariant(selectors: seq<string>, s: State, w: nat)
    requires Inv(selectors, s) && Enabled(selectors, s, Take(w))
    ensures Inv(selectors, Apply(selectors, s, Take(w)))
  {
    var s' := Apply(selectors, s, Take(w));
    forall v: nat, i: nat | InFlight(s', v, i)
      ensures i < |s'.claims| && s'.claims[i].worker == v && i !in s'.outcomes
    {
      if v != w { assert InFlight(s, v, i); }
    }
    forall i | 0 <= i < |s'.claims| ensures i in s'.outcomes || InFlight(s', s'.claims[i].worker, i) {
      if i < |s.claims| { assert i in s.outcomes || InFlight(s, s.claims[i].worker, i); }
    }
  }

  lemma FinishKeepsInvariant(selectors: seq<string>, s: State, w: nat, code: int)
    requires Inv(selectors, s) && Enabled(selectors, s, Finish(w, code))
    ensures Inv(selectors, Apply(selectors, s, Finish(w, code)))
  {
    var s' := Apply(selectors, s, Finish(w, code));
    var index := s.workers[w].index;
    assert InFlight(s, w, index);
    forall v: nat, i: nat | InFlight(s', v, i)
      ensures i < |s'.claims| && s'.claims[i].worker == v && i !in s'.outcomes
    {
      assert InFlight(s, v, i);
    }
    forall i | 0 <= i < |s'.claims| ensures i in s'.outcomes || InFlight(s', s'.claims[i].worker, i) {
      assert i in s.outcomes || InFlight(s, s.claims[i].worker, i);
    }
  }

  lemma StepKeepsInvariant(selectors: seq<string>, s: State, step: Step)
    requires Inv(selectors, s) && Enabled(selectors, s, step)
    ensures Inv(selectors, Apply(selectors, s, step))
  {
    if step.Take? {
      TakeKeepsInvariant(selectors, s, step.worker);
    } else if step.Finish? {
      FinishKeepsInvariant(selectors, s, step.worker, step.code);
    } else {
      var s' := Apply(selectors, s, step);
      assert forall w: nat, i: nat :: InFlight(s', w, i) <==> InFlight(s, w, i);
    }
  }

  lemma {:induction false} RunKeepsInvariant(selectors: seq<string>, states: seq<State>, steps: seq<Step>, i: nat)
    requires IsRun(selectors, states, steps) && i < |states|
    ensures Inv(selectors, states[i])
  {
    if i > 0 {
      RunKeepsInvariant(selectors, states, steps, i - 1);
      StepKeepsInvariant(selectors, states[i - 1], steps[i - 1]);
    }
  }

  // ----- What follows for every run

  /**
   * At every moment: no more than 32 workers, every index claimed at most once and in order, and two workers
   * never run the same index, nor the same selector when the selectors are different.
   */
  lemma NoSelectorRunsTwice(selectors: seq<string>, states: seq<State>, steps: seq<Step>, i: nat)
    requires IsRun(selectors, states, steps) && i < |states|
    ensures |states[i].workers| <= MAXIMUM_WORKERS
    ensures forall k :: 0 <= k < |states[i].claims| ==> states[i].claims[k].index == k < |selectors|
    ensures forall v: nat, w: nat, a: nat, b: nat :: v != w && InFlight(states[i], v, a) && InFlight(states[i], w, b) ==>
              a < |selectors| && b < |selectors| && a != b && (Distinct(selectors) ==> selectors[a] != selectors[b])
  {
    RunKeepsInvariant(selectors, states, steps, i);
  }

  /** When the batch returns, every selector has been run exactly once and its code decides the exit code. */
  lemma BatchResult(selectors: seq<string>, states: seq<State>, steps: seq<Step>)
    requires IsRun(selectors, states, steps) && states[|steps|].returned.Some?
    ensures |states[|steps|].claims| == |selectors|
    ensures forall k :: 0 <= k < |selectors| ==> states[|steps|].claims[k].index == k
    ensures forall i :: 0 <= i < |selectors| ==> i in states[|steps|].outcomes
    ensures states[|steps|].results == seq(|selectors|, i requires 0 <= i < |selectors| => states[|steps|].outcomes[i])
    ensures states[|steps|].returned == Some(FirstFailure(states[|steps|].results))
    ensures |states[|steps|].workers| == if |selectors| < 32 then |selectors| else 32
  {
    var s := states[|steps|];
    RunKeepsInvariant(selectors, states, steps, |steps|);
    if selectors != [] {
      assert s.workers[0] == Done;
    }
    forall i | 0 <= i < |selectors| ensures i in s.outcomes {
      assert !InFlight(s, s.claims[i].worker, i);
    }
  }

  lemma {:induction false} OutcomeStays(selectors: seq<string>, states: seq<State>, steps: seq<Step>, i: nat, j: nat,
                                        index: nat)
    requires IsRun(selectors, states, steps) && i <= j < |states| && index in states[i].outcomes
    ensures index in states[j].outcomes && states[j].outcomes[index] == states[i].outcomes[index]
    decreases j
  {
    if i < j {
      OutcomeStays(selectors, states, steps, i, j - 1, index);
      RunKeepsInvariant(selectors, states, steps, j - 1);
      var s, step := states[j - 1], steps[j - 1];
      if step.Finish? { assert InFlight(s, step.worker, s.workers[step.worker].index); }
    }
  }

  /** Each result is the code with which the command of that selector returned. */
  lemma CodeBecomesResult(selectors: seq<string>, states: seq<State>, steps: seq<Step>, i: nat)
    requires IsRun(selectors, states, steps) && i < |steps| && steps[i].Finish?
    ensures steps[i].worker < |states[i].workers| && states[i].workers[steps[i].worker].Running?
    ensures var index := states[i].workers[steps[i].worker].index;
            index < |selectors| == |states[|steps|].results| && states[|steps|].results[index] == steps[i].code
  {
    var index := states[i].workers[steps[i].worker].index;
    RunKeepsInvariant(selectors, states, steps, i);
    assert InFlight(states[i], steps[i].worker, index);
    OutcomeStays(selectors, states, steps, i + 1, |steps|, index);
    RunKeepsInvariant(selectors, states, steps, |steps|);
  }

  /** The exit code depends only on what each device's command returned, not on the schedule. */
  lemma ScheduleDoesNotMatter(selectors: seq<string>, states: seq<State>, steps: seq<Step>,
                              states': seq<State>, steps': seq<Step>)
    requires IsRun(selectors, states, steps) && states[|steps|].returned.Some?
    requires IsRun(selectors, states', steps') && states'[|steps'|].returned.Some?
    requires states[|steps|].outcomes == states'[|steps'|].outcomes
    ensures states[|steps|].returned == states'[|steps'|].returned
  {
    BatchResult(selectors, states, steps);
    BatchResult(selectors, states', steps');
    assert states[|steps|].results == states'[|steps'|].results;
  }

  // ----- Every run ends

  function PhaseWork(p: Phase): nat {
    match p case Ready => 1 case Running(_) => 2 case Done => 0
  }

  function WorkersWork(workers: seq<Phase>): nat {
    if workers == [] then 0 else PhaseWork(workers[|workers| - 1]) + WorkersWork(workers[..|workers| - 1])
  }

  lemma {:induction false} WorkUpdate(workers: seq<Phase>, w: nat, p: Phase)
    requires w < |workers|
    ensures WorkersWork(workers[w := p]) == WorkersWork(workers) - PhaseWork(workers[w]) + PhaseWork(p)
  {
    var last := |workers| - 1;
    if w < last {
      WorkUpdate(workers[..last], w, p);
      assert workers[w := p][..last] == workers[..last][w := p];
    } else {
      assert workers[w := p][..last] == workers[..last];
    }
  }

  /** Steps still to come. */
  function Remaining(selectors: seq<string>, s: State): int {
    2 * (|selectors| - Claimed(selectors, s)) + WorkersWork(s.workers)
    + 2 * (WorkerCount(selectors) - |s.workers|) + if s.returned.None? then 1 else 0
  }

  lemma TakeMakesProgress(selectors: seq<string>, s: State, w: nat)
    requires Enabled(selectors, s, Take(w))
    ensures Remaining(selectors, Apply(selectors, s, Take(w))) == Remaining(selectors, s) - 1
  {
    var s' := Apply(selectors, s, Take(w));
    WorkUpdate(s.workers, w, s'.workers[w]);
    assert s'.workers == s.workers[w := s'.workers[w]];
  }

  lemma StepMakesProgress(selectors: seq<string>, s: State, step: Step)
    requires Enabled(selectors, s, step)
    ensures Remaining(selectors, Apply(selectors, s, step)) == Remaining(selectors, s) - 1
  {
    if step.Spawn? {
      assert (s.workers + [Ready])[..|s.workers|] == s.workers;
    } else if step.Take? {
      TakeMakesProgress(selectors, s, step.worker);
    } else if step.Finish? {
      WorkUpdate(s.workers, step.worker, Ready);
    }
  }

  /** Until the batch has returned some step is possible. */
  lemma NeverBlocked(selectors: seq<string>, s: State) returns (step: Step)
    requires Inv(selectors, s) && s.returned.None?
    ensures Enabled(selectors, s, step)
  {
    if |s.workers| < WorkerCount(selectors) {
      step := Spawn;
    } else if w :| 0 <= w < |s.workers| && s.workers[w] == Ready {
      step := Take(w);
    } else if w :| 0 <= w < |s.workers| && s.workers[w].Running? {
      assert InFlight(s, w, s.workers[w].index);
      step := Finish(w, 0);
    } else {
      step := Join;
    }
  }

  /** No schedule is longer than one start, one claim and one end per worker plus two steps per device. */
  lemma {:induction false} RunLength(selectors: seq<string>, states: seq<State>, steps: seq<Step>, i: nat)
    requires IsRun(selectors, states, steps) && i <= |steps|
    ensures i + Remaining(selectors, states[i]) == 2 * |selectors| + 2 * WorkerCount(selectors) + 1
    ensures Remaining(selectors, states[i]) >= 0
  {
    RunKeepsInvariant(selectors, states, steps, i);
    if i > 0 {
      RunKeepsInvariant(selectors, states, steps, i - 1);
      RunLength(selectors, states, steps, i - 1);
      StepMakesProgress(selectors, states[i - 1], steps[i - 1]);
    }
  }
}
