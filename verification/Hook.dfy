/** `src/daemon/hook.rs`: the single-slot, coalescing, retrying runner of the post-arrival command. */
module Hooks {
  import opened Common

  datatype Config = Config(enabled: bool, retries: nat)

  // ---------- the two critical sections, and one run ----------

  class Hook {
    var running: bool
    var pending: bool

    constructor ()
      ensures !running && !pending
    {
      running, pending := false, false;
    }

    /** The locked part of `trigger`; `spawn` tells the caller to start the loop. */
    method LockedTrigger() returns (spawn: bool)
      modifies this
      ensures spawn <==> !old(running)
      ensures running && (pending <==> old(pending) || old(running))
      ensures forall c: Config, s: State :: c.enabled && s.running == old(running) && s.pending == old(pending) ==>
                var t := Next(c, s, Trigger);
                t.running == running && t.pending == pending && t.tasks == s.tasks + if spawn then [Spawning] else []
    {
      if running {
        if !pending {
          pending := true;
        }
        return false;
      }
      running := true;
      spawn := true;
    }

    /** The locked part of `run_loop`; `again` tells the loop to run once more. */
    method LockedDecide() returns (again: bool)
      modifies this
      ensures again <==> old(pending)
      ensures !pending && (running <==> old(running) && again)
      ensures forall c: Config, s: State, i ::
                Enabled(s, Decide(i)) && s.running == old(running) && s.pending == old(pending) ==>
                var t := Next(c, s, Decide(i));
                t.running == running && t.pending == pending && (again <==> |t.tasks| == |s.tasks|)
    {
      if pending {
        pending := false;
        again := true;
      } else {
        running := false;
        again := false;
      }
    }
  }

  /** Attempts of one run so far: every attempt but the last failed, and there are not too many. */
  ghost predicate RunPrefix(retries: nat, attempts: seq<bool>) {
    |attempts| <= retries + 1 && forall k :: 0 <= k < |attempts| - 1 ==> !attempts[k]
  }

  /** The run is over: it ended on a success or used up its retries. */
  ghost predicate RunOver(retries: nat, attempts: seq<bool>) {
    RunPrefix(retries, attempts) && attempts != [] && (attempts[|attempts| - 1] || |attempts| == retries + 1)
  }

  /** `run_with_retries`; `command` is how the k-th attempt ends. */
  method RunWithRetries(retries: nat, command: nat -> bool) returns (attempts: seq<bool>)
    ensures RunOver(retries, attempts)
    ensures forall k :: 0 <= k < |attempts| ==> attempts[k] == command(k)
  {
    attempts := [];
    var attempt: nat := 0;
    while true
      invariant attempt == |attempts| <= retries
      invariant forall k :: 0 <= k < |attempts| ==> !attempts[k] && !command(k)
      decreases retries - attempt
    {
      var ok := command(attempt);
      attempts := attempts + [ok];
      if ok {
        return;
      }
      if attempt >= retries {
        return;
      }
      attempt := attempt + 1;
    }
  }

  // ---------- the protocol, step by step ----------

  /** A loop task: handed to the runtime, about to run, in an attempt of a run, or about to lock. */
  datatype Task = Spawning | Starting | Attempting(run: nat, attempt: nat) | Deciding

  /** `running` and `pending` are the state under the mutex; the rest is history. `now` counts
      steps, and `runs` logs the attempts of every run started. */
  datatype State = State(
    running: bool, pending: bool, tasks: seq<Task>,
    now: nat, triggers: nat, lastTrigger: nat, runs: seq<seq<bool>>, lastStart: nat)

  const INITIAL := State(false, false, [], 0, 0, 0, [], 0)

  datatype Step = Trigger | Spawn(task: nat) | Start(task: nat) | Attempt(task: nat, ok: bool) | Decide(task: nat)

  predicate Enabled(s: State, step: Step) {
    match step
    case Trigger => true
    case Spawn(i) => i < |s.tasks| && s.tasks[i].Spawning?
    case Start(i) => i < |s.tasks| && s.tasks[i].Starting?
    case Attempt(i, _) => i < |s.tasks| && s.tasks[i].Attempting? && s.tasks[i].run < |s.runs|
    case Decide(i) => i < |s.tasks| && s.tasks[i].Deciding?
  }

  function Next(c: Config, s: State, step: Step): State
    requires Enabled(s, step)
  {
    var t := s.(now := s.now + 1);
    match step
    case Trigger =>
      if !c.enabled then t
      else if s.running then t.(pending := true, triggers := s.triggers + 1, lastTrigger := s.now)
      else t.(running := true, tasks := s.tasks + [Spawning], triggers := s.triggers + 1, lastTrigger := s.now)
    case Spawn(i) => t.(tasks := s.tasks[i := Starting])
    case Start(i) => t.(tasks := s.tasks[i := Attempting(|s.runs|, 0)], runs := s.runs + [[]], lastStart := s.now)
    case Attempt(i, ok) =>
      var run, attempt := s.tasks[i].run, s.tasks[i].attempt;
      t.(runs := s.runs[run := s.runs[run] + [ok]],
         tasks := s.tasks[i := if ok || attempt >= c.retries then Deciding else Attempting(run, attempt + 1)])
    case Decide(i) =>
      if s.pending then t.(pending := false, tasks := s.tasks[i := Starting])
      else t.(running := false, tasks := s.tasks[..i] + s.tasks[i + 1..])
  }

  /** `s` is reached from the initial state by `steps`, in that interleaving. */
  ghost predicate Reached(c: Config, steps: seq<Step>, s: State)
    decreases |steps|
  {
    if steps == [] then s == INITIAL
    else
      var n := |steps| - 1;
      exists before :: Reached(c, steps[..n], before) && Enabled(before, steps[n]) && s == Next(c, before, steps[n])
  }

  ghost predicate BeforeStart(s: State) {
    |s.tasks| == 1 && (s.tasks[0].Spawning? || s.tasks[0].Starting?)
  }

  /** A trigger has come since the last run started. */
  ghost predicate Owed(s: State) {
    s.triggers > 0 && (s.runs == [] || s.lastStart < s.lastTrigger)
  }

  ghost predicate Invariant(c: Config, s: State) {
    && |s.tasks| <= 1
    && (s.running <==> |s.tasks| == 1)
    && (s.pending ==> s.running)
    && |s.runs| + (if s.pending then 1 else 0) + (if BeforeStart(s) then 1 else 0) <= s.triggers
    && (s.triggers > 0 ==> s.lastTrigger < s.now)
    && (s.runs != [] ==> s.lastStart < s.now)
    && (Owed(s) ==> s.pending || BeforeStart(s))
    && (forall r :: 0 <= r < |s.runs| - 1 ==> RunOver(c.retries, s.runs[r]))
    && (|s.tasks| == 1 && s.tasks[0].Attempting? ==>
          var task := s.tasks[0];
          && s.runs != [] && task.run == |s.runs| - 1
          && |s.runs[task.run]| == task.attempt <= c.retries
          && forall k :: 0 <= k < task.attempt ==> !s.runs[task.run][k])
    && (!(|s.tasks| == 1 && s.tasks[0].Attempting?) && s.runs != [] ==> RunOver(c.retries, s.runs[|s.runs| - 1]))
  }

  lemma StepKeepsInvariant(c: Config, s: State, step: Step)
    requires Invariant(c, s) && Enabled(s, step)
    ensures Invariant(c, Next(c, s, step))
  {
  }

  lemma {:induction false} ReachedKeepsInvariant(c: Config, steps: seq<Step>, s: State)
    requires Reached(c, steps, s)
    ensures Invariant(c, s)
  {
    if steps == [] {
    } else {
      var n := |steps| - 1;
      var before :| Reached(c, steps[..n], before) && Enabled(before, steps[n]) && s == Next(c, before, steps[n]);
      ReachedKeepsInvariant(c, steps[..n], before);
      StepKeepsInvariant(c, before, steps[n]);
    }
  }

  ghost predicate InFlight(s: State, i: nat) {
    i < |s.tasks| && s.tasks[i].Attempting?
  }

  /** What every interleaving of triggers with the loop keeps: one run at a time, no more runs
      than triggers, at most `retries + 1` attempts in each, and no trigger left behind. */
  lemma EveryInterleavingIsSafe(c: Config, steps: seq<Step>, s: State)
    requires Reached(c, steps, s)
    ensures forall i, j :: InFlight(s, i) && InFlight(s, j) ==> i == j
    ensures |s.tasks| <= 1 && (s.pending ==> s.running)
    ensures |s.runs| <= s.triggers
    ensures forall r :: 0 <= r < |s.runs| ==> RunPrefix(c.retries, s.runs[r])
    ensures !s.running && s.triggers > 0 ==> s.runs != [] && s.lastStart > s.lastTrigger
  {
    ReachedKeepsInvariant(c, steps, s);
    StartsAreNotTriggers(c, steps, s);
  }

  /** A step is a trigger or a start, never both, so the two times differ. */
  lemma {:induction false} StartsAreNotTriggers(c: Config, steps: seq<Step>, s: State)
    requires Reached(c, steps, s)
    ensures s.triggers > 0 && s.runs != [] ==> s.lastStart != s.lastTrigger
  {
    if steps == [] {
    } else {
      var n := |steps| - 1;
      var before :| Reached(c, steps[..n], before) && Enabled(before, steps[n]) && s == Next(c, before, steps[n]);
      StartsAreNotTriggers(c, steps[..n], before);
      ReachedKeepsInvariant(c, steps[..n], before);
      StepKeepsApart(c, before, steps[n]);
    }
  }

  lemma StepKeepsApart(c: Config, s: State, step: Step)
    requires Invariant(c, s) && Enabled(s, step)
    requires s.triggers > 0 && s.runs != [] ==> s.lastStart != s.lastTrigger
    ensures var t := Next(c, s, step); t.triggers > 0 && t.runs != [] ==> t.lastStart != t.lastTrigger
  {
  }

  // ---------- the loop settles ----------

  /** Steps left, triggers aside, before the hook is idle. */
  ghost function Rank(c: Config, s: State): int {
    (if s.pending then c.retries + 3 else 0)
    + (if |s.tasks| == 0 then 0
       else match s.tasks[0]
         case Spawning => c.retries + 4
         case Starting => c.retries + 3
         case Attempting(_, attempt) => c.retries + 2 - attempt
         case Deciding => 1)
  }

  /** What the one loop task does next, `ends` saying how an attempt made at a given time ends. */
  ghost function LoopStep(s: State, ends: nat -> bool): Step
    requires s.tasks != []
  {
    match s.tasks[0]
    case Spawning => Spawn(0)
    case Starting => Start(0)
    case Attempting(_, _) => Attempt(0, ends(s.now))
    case Deciding => Decide(0)
  }

  /** The loop is never stuck, and each of its steps brings idleness closer. */
  lemma LoopStepLowersRank(c: Config, s: State, ends: nat -> bool)
    requires Invariant(c, s) && s.tasks != []
    ensures var step := LoopStep(s, ends);
            && Enabled(s, step) && !step.Trigger?
            && 0 <= Rank(c, Next(c, s, step)) < Rank(c, s)
            && Next(c, s, step).triggers == s.triggers && Next(c, s, step).lastTrigger == s.lastTrigger
  {
  }

  lemma LoopAdvances(c: Config, steps: seq<Step>, s: State, ends: nat -> bool) returns (step: Step, next: State)
    requires Reached(c, steps, s) && s.tasks != []
    ensures Reached(c, steps + [step], next) && !step.Trigger?
    ensures 0 <= Rank(c, next) < Rank(c, s)
    ensures next.triggers == s.triggers && next.lastTrigger == s.lastTrigger
  {
    ReachedKeepsInvariant(c, steps, s);
    step := LoopStep(s, ends);
    LoopStepLowersRank(c, s, ends);
    next := Next(c, s, step);
    assert (steps + [step])[..|steps|] == steps;
  }

  /** However its attempts end, a hook left alone reaches idle, within `Rank` steps, and by then
      the last trigger has been followed by a run. */
  lemma {:induction false} SettlesToIdle(c: Config, steps: seq<Step>, s: State, ends: nat -> bool)
    returns (all: seq<Step>, idle: State)
    requires Reached(c, steps, s)
    ensures steps <= all && Reached(c, all, idle) && !idle.running && idle.tasks == []
    ensures forall k :: |steps| <= k < |all| ==> !all[k].Trigger?
    ensures |all| - |steps| <= Rank(c, s)
    ensures idle.triggers == s.triggers && idle.lastTrigger == s.lastTrigger
    ensures idle.triggers > 0 ==> idle.runs != [] && idle.lastStart > idle.lastTrigger
    decreases Rank(c, s)
  {
    if s.tasks == [] {
      ReachedKeepsInvariant(c, steps, s);
      EveryInterleavingIsSafe(c, steps, s);
      all, idle := steps, s;
    } else {
      var step, next := LoopAdvances(c, steps, s, ends);
      all, idle := SettlesToIdle(c, steps + [step], next, ends);
      assert all[|steps|] == step;
    }
  }

  /** A disabled hook never starts anything. */
  lemma {:induction false} DisabledHookStaysIdle(c: Config, steps: seq<Step>, s: State)
    requires Reached(c, steps, s) && !c.enabled
    ensures s.tasks == [] && s.runs == [] && !s.running
  {
    if steps == [] {
    } else {
      var n := |steps| - 1;
      var before :| Reached(c, steps[..n], before) && Enabled(before, steps[n]) && s == Next(c, before, steps[n]);
      DisabledHookStaysIdle(c, steps[..n], before);
    }
  }
}
