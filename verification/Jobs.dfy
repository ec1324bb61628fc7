/** Jobs, their runs and the workloads behind them (internal/platform/job/sweep.go and service.go). */
module Jobs {
  import opened Basics
  import opened Newest

  const MAX_FIRE_PER_PASS := 4

  datatype RunState = Pending | Running | Succeeded | Failed

  /** `inst` is the workload the run names; none for the empty id. */
  datatype Run = Run(id: string, inst: Option<string>, attempt: nat, state: RunState) {
    predicate Active() { state in {Pending, Running} }
  }

  /** `runs` in (started_at, id) order; `pruned` are the runs deleted before them, read by no call. */
  datatype Job = Job(retries: nat, keep: nat, every: nat, paused: bool, nextAt: Option<int>, runs: seq<Run>,
    pruned: seq<Run>)

  /** `live`: workloads created and not yet asked to be deleted. `used`: every id handed out so far. */
  datatype World = World(jobs: map<string, Job>, live: set<string>, used: set<string>)

  /**
   What one step does: the job's new rows, the workload it asks to go, the one it makes, and the ids
   it uses up; `ok` unless the step ends in an error.
   */
  datatype Effect = Effect(job: Job, asked: Option<string>, made: Option<string>, spent: set<string>, ok: bool)

  /** How an attempt to make a workload goes; `Unreadable` when the job's sealed settings cannot be opened. */
  datatype Made = Created(run: string, inst: string) | Refused(run: string) | Unreadable

  /** What the workload says of itself; `Gone` when asking fails. */
  datatype Answer = Gone | StillPending | Up | Over(state: string, exitCode: Option<int>)

  // ----- single steps on a job's rows -----

  /** The place of the first active run, or the length if none is. */
  function FirstActive(runs: seq<Run>): (i: nat)
    ensures i <= |runs| && (i < |runs| ==> runs[i].Active())
    ensures forall k | 0 <= k < i :: !runs[k].Active()
  {
    FirstWhere(runs, (r: Run) => r.Active(), 0)
  }

  predicate Idle(job: Job) {
    FirstActive(job.runs) == |job.runs|
  }

  function RunStarted(job: Job, attempt: nat, made: Made): Effect {
    match made
    case Unreadable => Effect(job, None, None, {}, false)
    case Refused(run) => Effect(job.(runs := job.runs + [Run(run, None, attempt, Failed)]), None, None, {run}, true)
    case Created(run, inst) =>
      Effect(job.(runs := job.runs + [Run(run, Some(inst), attempt, Pending)]), None, Some(inst), {run, inst}, true)
  }

  function RunSet(job: Job, i: nat, run: Run): Job
    requires i < |job.runs|
  {
    job.(runs := job.runs[i := run])
  }

  /** The workload is asked to go, and the run stops naming it. */
  function RunEnded(job: Job, i: nat, state: RunState): Effect
    requires i < |job.runs|
  {
    var run := job.runs[i];
    Effect(RunSet(job, i, run.(state := state, inst := None)), run.inst, None, {}, true)
  }

  predicate Success(answer: Answer) {
    answer.Over? && answer.state == "stopped" && answer.exitCode == Some(0)
  }

  function Retried(job: Job, i: nat, made: Made): Effect
    requires i < |job.runs|
  {
    var ended := RunEnded(job, i, Failed);
    RunStarted(ended.job, job.runs[i].attempt + 1, made).(asked := ended.asked)
  }

  function Advanced(job: Job, answer: Answer, made: Made): Effect {
    var i := FirstActive(job.runs);
    if i == |job.runs| || job.runs[i].inst.None? then Effect(job, None, None, {}, true)
    else if answer.Gone? then RunEnded(job, i, Failed)
    else if answer.StillPending? then Effect(job, None, None, {}, true)
    else if answer.Up? then Effect(RunSet(job, i, job.runs[i].(state := Running)), None, None, {}, true)
    else if Success(answer) then RunEnded(job, i, Succeeded)
    else if job.runs[i].attempt <= job.retries then Retried(job, i, made)
    else RunEnded(job, i, Failed)
  }

  function SettledOf(runs: seq<Run>): (settled: seq<Run>)
    ensures |settled| <= |runs|
  {
    if runs == [] then []
    else SettledOf(runs[..|runs| - 1]) + if runs[|runs| - 1].Active() then [] else [runs[|runs| - 1]]
  }

  /** How many of the oldest settled runs, as they were before the pass, go. */
  function Surplus(before: Job): (n: nat)
    ensures n <= |before.runs|
  {
    var settled := |SettledOf(before.runs)|;
    if settled <= before.keep then 0 else settled - before.keep
  }

  function Pruned(job: Job, n: nat): Job
    requires n <= |job.runs|
  {
    job.(runs := job.runs[n..], pruned := job.pruned + job.runs[..n])
  }

  lemma AdvanceOnlyAdds(job: Job, answer: Answer, made: Made)
    ensures |job.runs| <= |Advanced(job, answer, made).job.runs| <= |job.runs| + 1
  {
  }

  /** Advance, then prune by what was settled before; an error skips the pruning. */
  function Swept(job: Job, answer: Answer, made: Made): Effect {
    var e := Advanced(job, answer, made);
    AdvanceOnlyAdds(job, answer, made);
    if e.ok then e.(job := Pruned(e.job, Surplus(job))) else e
  }

  function Triggered(job: Job, made: Made): Effect {
    if Idle(job) then RunStarted(job, 1, made) else Effect(job, None, None, {}, false)
  }

  predicate Due(job: Job, now: int) {
    !job.paused && job.every > 0 && job.nextAt.Some? && job.nextAt.value <= now
  }

  function Fired(job: Job, now: int, made: Made): Effect {
    var moved := job.(nextAt := Some(now + job.every));
    if Idle(job) then RunStarted(moved, 1, made) else Effect(moved, None, None, {}, true)
  }

  function InstancesOf(runs: seq<Run>): set<string> {
    set i | 0 <= i < |runs| && runs[i].inst.Some? :: runs[i].inst.value
  }

  // ----- what every step keeps of one job -----

  function All(job: Job): seq<Run> {
    job.pruned + job.runs
  }

  /** A first attempt, or the attempt after one that failed. */
  ghost predicate Follows(prev: Run, next: Run) {
    next.attempt == 1 || (prev.state == Failed && next.attempt == prev.attempt + 1)
  }

  /** What holds of all runs a job ever had, in order. */
  ghost predicate Chained(all: seq<Run>, retries: nat) {
    && (forall i | 0 <= i < |all| - 1 :: !all[i].Active())
    && (forall i | 0 <= i < |all| :: all[i].Active() <==> all[i].inst.Some?)
    && (forall i | 0 <= i < |all| :: 1 <= all[i].attempt <= retries + 1)
    && (all != [] ==> all[0].attempt == 1)
    && (forall i, j | 0 <= i < j < |all| && j == i + 1 :: Follows(all[i], all[j]))
  }

  ghost predicate JobInv(job: Job) {
    Chained(All(job), job.retries) && forall i | 0 <= i < |job.pruned| :: !job.pruned[i].Active()
  }

  /** The workload the job's last run names while it is active. */
  function Named(job: Job): Option<string> {
    if job.runs == [] then None else job.runs[|job.runs| - 1].inst
  }

  function OptionSet<T>(o: Option<T>): set<T> {
    if o.Some? then {o.value} else {}
  }

  lemma RunsInAll(job: Job, i: nat)
    requires i < |job.runs|
    ensures All(job)[|job.pruned| + i] == job.runs[i]
  {
  }

  lemma IdleIff(job: Job)
    requires JobInv(job)
    ensures Idle(job) <==> Named(job).None?
    ensures !Idle(job) ==> FirstActive(job.runs) == |job.runs| - 1
    ensures InstancesOf(job.runs) == OptionSet(Named(job))
  {
    var all, n := All(job), |job.pruned|;
    assert forall i | 0 <= i < |job.runs| :: job.runs[i] == all[n + i];
  }

  lemma AppendKeepsChain(all: seq<Run>, run: Run, retries: nat)
    requires Chained(all, retries) && (all != [] ==> !all[|all| - 1].Active()) && (run.Active() <==> run.inst.Some?)
    requires run.attempt == 1 || (all != [] && Follows(all[|all| - 1], run) && run.attempt <= retries + 1)
    ensures Chained(all + [run], retries)
  {
    var now := all + [run];
    assert now[|all|] == run && forall i | 0 <= i < |all| :: now[i] == all[i];
  }

  lemma LastSetKeepsChain(all: seq<Run>, run: Run, retries: nat)
    requires Chained(all, retries) && all != [] && run.attempt == all[|all| - 1].attempt
      && (run.Active() <==> run.inst.Some?)
    ensures Chained(all[|all| - 1 := run], retries)
  {
    var now := all[|all| - 1 := run];
    forall i, j | 0 <= i < j < |now| && j == i + 1 ensures Follows(now[i], now[j]) {
      assert Follows(all[i], all[j]);
    }
  }

  lemma AppendKeepsJobInv(job: Job, run: Run)
    requires JobInv(job) && Idle(job) && (run.Active() <==> run.inst.Some?)
    requires run.attempt == 1
      || (job.runs != [] && Follows(job.runs[|job.runs| - 1], run) && run.attempt <= job.retries + 1)
    ensures JobInv(job.(runs := job.runs + [run]))
  {
    if job.runs != [] {
      RunsInAll(job, |job.runs| - 1);
    }
    AppendKeepsChain(All(job), run, job.retries);
    assert All(job.(runs := job.runs + [run])) == All(job) + [run];
  }

  lemma LastSetKeepsJobInv(job: Job, run: Run)
    requires JobInv(job) && job.runs != [] && (run.Active() <==> run.inst.Some?)
    requires run.attempt == job.runs[|job.runs| - 1].attempt
    ensures JobInv(job.(runs := job.runs[|job.runs| - 1 := run]))
  {
    RunsInAll(job, |job.runs| - 1);
    LastSetKeepsChain(All(job), run, job.retries);
    assert All(job.(runs := job.runs[|job.runs| - 1 := run])) == All(job)[|All(job)| - 1 := run];
  }

  lemma PruneKeepsJobInv(job: Job, n: nat)
    requires JobInv(job) && n <= |job.runs| && forall i | 0 <= i < n :: !job.runs[i].Active()
    ensures JobInv(job.(runs := job.runs[n..], pruned := job.pruned + job.runs[..n]))
    ensures Named(job.(runs := job.runs[n..])) == Named(job)
  {
    assert (job.pruned + job.runs[..n]) + job.runs[n..] == job.pruned + job.runs;
    if n == |job.runs| && n > 0 {
      RunsInAll(job, n - 1);
    }
  }

  /** What the job names changes by what is asked to go and what is made, and in no other way. */
  ghost predicate Tidy(job: Job, e: Effect) {
    && (e.asked.Some? ==> e.asked == Named(job))
    && (e.made.Some? ==> e.made.value in e.spent && e.asked == Named(job))
    && Named(e.job) == if e.made.Some? then e.made else if e.asked.Some? then None else Named(job)
  }

  /** Ids handed out are new. */
  ghost predicate Fresh(used: set<string>, made: Made) {
    match made
    case Unreadable => true
    case Refused(run) => run !in used
    case Created(run, inst) => run !in used && inst !in used && run != inst
  }

  lemma StartKeepsJobInv(job: Job, attempt: nat, made: Made)
    requires JobInv(job) && Idle(job)
    requires attempt == 1 || (
      job.runs != [] && job.runs[|job.runs| - 1].state == Failed
        && attempt == job.runs[|job.runs| - 1].attempt + 1 <= job.retries + 1)
    ensures JobInv(RunStarted(job, attempt, made).job) && Tidy(job, RunStarted(job, attempt, made))
  {
    IdleIff(job);
    match made
    case Unreadable =>
    case Refused(run) => AppendKeepsJobInv(job, Run(run, None, attempt, Failed));
    case Created(run, inst) => AppendKeepsJobInv(job, Run(run, Some(inst), attempt, Pending));
  }

  lemma EndKeepsJobInv(job: Job, state: RunState)
    requires JobInv(job) && job.runs != [] && !Idle(job) && state in {Succeeded, Failed}
    ensures
      var e := RunEnded(job, |job.runs| - 1, state);
      JobInv(e.job) && Tidy(job, e) && Idle(e.job) && Named(job).Some?
  {
    var i := |job.runs| - 1;
    IdleIff(job);
    LastSetKeepsJobInv(job, job.runs[i].(state := state, inst := None));
    IdleIff(RunEnded(job, i, state).job);
  }

  lemma UpKeepsJobInv(job: Job)
    requires JobInv(job) && job.runs != [] && !Idle(job)
    ensures
      var now := RunSet(job, |job.runs| - 1, job.runs[|job.runs| - 1].(state := Running));
      JobInv(now) && Named(now) == Named(job)
  {
    IdleIff(job);
    RunsInAll(job, |job.runs| - 1);
    LastSetKeepsJobInv(job, job.runs[|job.runs| - 1].(state := Running));
  }

  lemma RetryKeepsJobInv(job: Job, made: Made)
    requires JobInv(job) && job.runs != [] && !Idle(job) && job.runs[|job.runs| - 1].attempt <= job.retries
    ensures
      var e := Retried(job, |job.runs| - 1, made);
      JobInv(e.job) && Tidy(job, e)
  {
    EndKeepsJobInv(job, Failed);
    StartKeepsJobInv(RunEnded(job, |job.runs| - 1, Failed).job, job.runs[|job.runs| - 1].attempt + 1, made);
  }

  lemma AdvanceKeepsJobInv(job: Job, answer: Answer, made: Made)
    requires JobInv(job)
    ensures JobInv(Advanced(job, answer, made).job) && Tidy(job, Advanced(job, answer, made))
  {
    IdleIff(job);
    if !Idle(job) {
      if answer.Up? {
        UpKeepsJobInv(job);
      } else if Success(answer) {
        EndKeepsJobInv(job, Succeeded);
      } else if answer.Gone? || job.runs[|job.runs| - 1].attempt > job.retries {
        EndKeepsJobInv(job, Failed);
      } else {
        RetryKeepsJobInv(job, made);
      }
    }
  }

  lemma {:induction false} AllSettled(runs: seq<Run>)
    requires forall i | 0 <= i < |runs| :: !runs[i].Active()
    ensures SettledOf(runs) == runs
    decreases |runs|
  {
    if runs != [] {
      AllSettled(runs[..|runs| - 1]);
      assert runs == runs[..|runs| - 1] + [runs[|runs| - 1]];
    }
  }

  /** With only the last run possibly active, the settled ones are the leading runs. */
  lemma SettledLead(job: Job)
    requires JobInv(job)
    ensures SettledOf(job.runs) == if Idle(job) then job.runs else job.runs[..|job.runs| - 1]
    ensures forall i | 0 <= i < |SettledOf(job.runs)| :: !job.runs[i].Active()
  {
    IdleIff(job);
    AllSettled(if Idle(job) then job.runs else job.runs[..|job.runs| - 1]);
  }

  /** Only the active run may change, and at most one is added. */
  lemma AdvanceTouchesActive(job: Job, answer: Answer, made: Made, i: nat)
    requires i < |job.runs| && i != FirstActive(job.runs)
    ensures
      var now := Advanced(job, answer, made).job;
      |job.runs| <= |now.runs| && now.runs[i] == job.runs[i]
  {
  }

  lemma AdvanceTouchesRunsOnly(job: Job, answer: Answer, made: Made)
    ensures Advanced(job, answer, made).job == job.(runs := Advanced(job, answer, made).job.runs)
  {
  }

  /** An advance leaves the runs that were settled before as they were. */
  lemma AdvanceKeepsSettled(job: Job, answer: Answer, made: Made)
    requires JobInv(job)
    ensures SettledOf(job.runs) <= Advanced(job, answer, made).job.runs
  {
    IdleIff(job);
    SettledLead(job);
    var now, settled := Advanced(job, answer, made).job, SettledOf(job.runs);
    AdvanceOnlyAdds(job, answer, made);
    forall i | 0 <= i < |settled| ensures now.runs[i] == settled[i] {
      AdvanceTouchesActive(job, answer, made, i);
    }
  }

  lemma SweepKeepsJobInv(job: Job, answer: Answer, made: Made)
    requires JobInv(job)
    ensures JobInv(Swept(job, answer, made).job) && Tidy(job, Swept(job, answer, made))
  {
    AdvanceKeepsJobInv(job, answer, made);
    SurplusIsSettled(job, answer, made);
    PruneKeepsJobInv(Advanced(job, answer, made).job, Surplus(job));
  }

  lemma SurplusIsSettled(job: Job, answer: Answer, made: Made)
    requires JobInv(job)
    ensures
      var now := Advanced(job, answer, made).job;
      && Surplus(job) <= |now.runs|
      && forall i | 0 <= i < Surplus(job) :: !now.runs[i].Active()
  {
    SettledLead(job);
    AdvanceKeepsSettled(job, answer, made);
    var now, settled := Advanced(job, answer, made).job, SettledOf(job.runs);
    assert forall i | 0 <= i < |settled| :: now.runs[i] == settled[i];
  }

  /** Settings other than the runs may change freely. */
  lemma SettingsKeepJobInv(job: Job, paused: bool, nextAt: Option<int>)
    requires JobInv(job)
    ensures JobInv(job.(paused := paused)) && JobInv(job.(nextAt := nextAt))
  {
    assert All(job.(paused := paused)) == All(job) == All(job.(nextAt := nextAt));
  }

  lemma FireKeepsJobInv(job: Job, now: int, made: Made)
    requires JobInv(job)
    ensures JobInv(Fired(job, now, made).job) && Tidy(job, Fired(job, now, made))
  {
    var moved := job.(nextAt := Some(now + job.every));
    assert JobInv(moved) by {
      SettingsKeepJobInv(job, job.paused, moved.nextAt);
    }
    assert Named(moved) == Named(job) && moved.runs == job.runs;
    if Idle(job) {
      var e := RunStarted(moved, 1, made);
      assert JobInv(e.job) && Tidy(moved, e) by {
        StartKeepsJobInv(moved, 1, made);
      }
      assert Fired(job, now, made) == e;
    } else {
      assert Fired(job, now, made) == Effect(moved, None, None, {}, true);
    }
  }

  /** The row of a run begun at this attempt: pending with its workload, or failed at once without one. */
  function NewRuns(attempt: nat, made: Made): seq<Run> {
    match made
    case Unreadable => []
    case Refused(run) => [Run(run, None, attempt, Failed)]
    case Created(run, inst) => [Run(run, Some(inst), attempt, Pending)]
  }

  /**
   What a look at the active run's workload leads to: success only on a stop with exit code zero,
   going on only while the workload is pending or up, and a new attempt exactly after a failure
   that is reported, with retries left and settings that can be read.
   */
  lemma AdvanceSettlesIff(job: Job, answer: Answer, made: Made)
    requires JobInv(job) && !Idle(job)
    ensures
      var i, now := |job.runs| - 1, Advanced(job, answer, made).job;
      && 0 <= i < |now.runs|
      && (now.runs[i].state == Succeeded <==> Success(answer))
      && (now.runs[i].Active() <==> answer.StillPending? || answer.Up?)
      && (|now.runs| == |job.runs| + 1
        <==> answer.Over? && !Success(answer) && job.runs[i].attempt <= job.retries && !made.Unreadable?)
      && (|now.runs| == |job.runs| + 1 ==> now.runs[i + 1].attempt == job.runs[i].attempt + 1)
      && (now.runs[i].inst.None? <==> !now.runs[i].Active())
  {
    IdleIff(job);
    RunsInAll(job, |job.runs| - 1);
  }

  /** The rows of earlier runs stand, the active run keeps its id and attempt, and a retry is one new run. */
  lemma AdvanceTouchesLast(job: Job, answer: Answer, made: Made)
    requires JobInv(job) && !Idle(job)
    ensures
      var i, now := |job.runs| - 1, Advanced(job, answer, made).job;
      && 0 <= i < |now.runs| && now.runs[..i] == job.runs[..i]
      && now.runs[i].id == job.runs[i].id && now.runs[i].attempt == job.runs[i].attempt
      && (now.runs[i].state == Running <==> answer.Up? || (answer.StillPending? && job.runs[i].state == Running))
      && (|now.runs| == |job.runs| + 1 ==> now.runs[i + 1..] == NewRuns(job.runs[i].attempt + 1, made))
  {
    IdleIff(job);
    RunsInAll(job, |job.runs| - 1);
  }

  /** The workload of the active run is asked to go exactly if the run ends, and one is made exactly for a retry. */
  lemma AdvanceAsksIff(job: Job, answer: Answer, made: Made)
    requires JobInv(job) && !Idle(job)
    ensures
      var e := Advanced(job, answer, made);
      && e.asked == (if answer.StillPending? || answer.Up? then None else job.runs[|job.runs| - 1].inst)
      && (e.made.Some? <==> |e.job.runs| == |job.runs| + 1 && made.Created?)
      && (e.made.Some? ==> e.made == e.job.runs[|job.runs|].inst)
  {
    IdleIff(job);
    RunsInAll(job, |job.runs| - 1);
  }

  /** A pass that meets no error prunes the oldest settled runs and leaves few. */
  lemma SweepPrunesOldest(job: Job, answer: Answer, made: Made)
    requires JobInv(job) && Swept(job, answer, made).ok
    ensures
      var now := Swept(job, answer, made).job;
      && |now.runs| <= job.keep + 2
      && now.pruned == job.pruned + SettledOf(job.runs)[..Surplus(job)]
      && |SettledOf(job.runs)| - Surplus(job) <= job.keep
  {
    SettledLead(job);
    AdvanceKeepsSettled(job, answer, made);
    AdvanceOnlyAdds(job, answer, made);
    AdvanceTouchesRunsOnly(job, answer, made);
    var now, n := Advanced(job, answer, made).job, Surplus(job);
    assert now.runs[..n] == SettledOf(job.runs)[..n];
  }

  // ----- all jobs together -----

  function Put(w: World, id: string, e: Effect): World
    requires id in w.jobs
  {
    World(w.jobs[id := e.job], w.live - OptionSet(e.asked) + OptionSet(e.made), w.used + e.spent)
  }

  /** The workloads the runs name are asked to go, then all rows go; a failure leaves everything. */
  function Removed(w: World, id: string, deleted: bool): World
    requires id in w.jobs
  {
    var named := InstancesOf(w.jobs[id].runs);
    if !deleted && named != {} then w else w.(jobs := w.jobs - {id}, live := w.live - named)
  }

  ghost predicate Holds(jobs: map<string, Job>, id: string, inst: string) {
    id in jobs && Named(jobs[id]) == Some(inst)
  }

  /** Each of `live` is held by exactly one job, and nothing else is held. */
  ghost predicate NamesExactly(jobs: map<string, Job>, live: set<string>) {
    && (forall id, inst | Holds(jobs, id, inst) :: inst in live)
    && (forall inst | inst in live :: exists id :: Holds(jobs, id, inst))
    && (forall a, b, inst | Holds(jobs, a, inst) && Holds(jobs, b, inst) :: a == b)
  }

  ghost predicate JobsInv(jobs: map<string, Job>) {
    forall id | id in jobs :: JobInv(jobs[id])
  }

  ghost predicate Inv(w: World) {
    JobsInv(w.jobs) && NamesExactly(w.jobs, w.live) && w.live <= w.used
  }

  lemma PutKeepsNames(jobs: map<string, Job>, id: string, e: Effect, live: set<string>)
    requires NamesExactly(jobs, live) && id in jobs && Tidy(jobs[id], e)
    requires e.made.Some? ==> e.made.value !in live
    ensures NamesExactly(jobs[id := e.job], live - OptionSet(e.asked) + OptionSet(e.made))
  {
    var after, now := jobs[id := e.job], live - OptionSet(e.asked) + OptionSet(e.made);
    forall a, inst
      ensures Holds(after, a, inst) <==> if a == id then Named(e.job) == Some(inst) else Holds(jobs, a, inst)
    {
    }
    forall inst | inst in now ensures exists a :: Holds(after, a, inst) {
      if e.made == Some(inst) {
        assert Holds(after, id, inst);
      } else {
        var a :| Holds(jobs, a, inst);
        assert Holds(after, a, inst);
      }
    }
    forall a, inst | Holds(after, a, inst) ensures inst in now {
      if a != id {
        assert Holds(jobs, a, inst);
        assert !Holds(jobs, id, inst);
      } else if Named(e.job) == Named(jobs[id]) {
        assert Holds(jobs, id, inst);
      }
    }
    forall a, b, inst | Holds(after, a, inst) && Holds(after, b, inst) ensures a == b {
      if e.made != Some(inst) {
        assert Holds(jobs, a, inst) && Holds(jobs, b, inst);
      }
    }
  }

  lemma PutKeepsInv(w: World, id: string, e: Effect)
    requires Inv(w) && id in w.jobs && JobInv(e.job) && Tidy(w.jobs[id], e) && e.spent !! w.used
    ensures Inv(Put(w, id, e))
  {
    PutKeepsNames(w.jobs, id, e, w.live);
  }

  lemma CreateKeepsInv(w: World, id: string, job: Job)
    requires Inv(w) && id !in w.jobs && job.runs == [] && job.pruned == []
    ensures Inv(w.(jobs := w.jobs[id := job]))
  {
    assert All(job) == [] && JobInv(job);
    SameHolders(w.jobs, w.jobs[id := job], id, w.live, w.live);
  }

  lemma RemoveKeepsInv(w: World, id: string, deleted: bool)
    requires Inv(w) && id in w.jobs
    ensures Inv(Removed(w, id, deleted))
  {
    IdleIff(w.jobs[id]);
    SameHolders(w.jobs, w.jobs - {id}, id, w.live, w.live - InstancesOf(w.jobs[id].runs));
  }

  /** All jobs but one stand; that one holds nothing in the end. */
  lemma SameHolders(jobs: map<string, Job>, now: map<string, Job>, id: string, live: set<string>, left: set<string>)
    requires NamesExactly(jobs, live)
    requires forall a | a != id :: Lookup(now, a) == Lookup(jobs, a)
    requires id in now ==> Named(now[id]).None?
    requires left == live - if id in jobs then OptionSet(Named(jobs[id])) else {}
    ensures NamesExactly(now, left)
  {
    forall a, inst ensures Holds(now, a, inst) <==> a != id && Holds(jobs, a, inst) {
      assert a != id ==> Lookup(now, a) == Lookup(jobs, a);
    }
    forall inst ensures inst in left <==> inst in live && !Holds(jobs, id, inst) {
    }
    forall inst | inst in left ensures exists a :: Holds(now, a, inst) {
      var a :| Holds(jobs, a, inst);
      assert Holds(now, a, inst);
    }
  }

  // ----- whole runs -----

  datatype Step =
    | Create(id: string, retries: nat, keep: nat, every: nat, at: int)
    | Trigger(id: string, made: Made)
    | Pause(id: string, paused: bool)
    | Sweep(id: string, answer: Answer, made: Made)
    | Fire(id: string, now: int, made: Made)
    | Remove(id: string, deleted: bool)

  function Stepped(w: World, st: Step): World {
    if st.Create? then
      if st.id in w.jobs then w
      else
        var nextAt := if st.every > 0 then Some(st.at + st.every) else None;
        w.(jobs := w.jobs[st.id := Job(st.retries, st.keep, st.every, false, nextAt, [], [])])
    else if st.id !in w.jobs then w
    else
      var job := w.jobs[st.id];
      match st
      case Trigger(id, made) => Put(w, id, Triggered(job, made))
      case Pause(id, paused) => Put(w, id, Effect(job.(paused := paused), None, None, {}, true))
      case Sweep(id, answer, made) => Put(w, id, Swept(job, answer, made))
      case Fire(id, now, made) => if Due(job, now) then Put(w, id, Fired(job, now, made)) else w
      case Remove(id, deleted) => Removed(w, id, deleted)
  }

  ghost predicate Possible(w: World, st: Step) {
    match st
    case Trigger(_, made) => Fresh(w.used, made)
    case Sweep(_, _, made) => Fresh(w.used, made)
    case Fire(_, _, made) => Fresh(w.used, made)
    case _ => true
  }

  lemma TriggerKeepsJobInv(job: Job, made: Made)
    requires JobInv(job)
    ensures JobInv(Triggered(job, made).job) && Tidy(job, Triggered(job, made))
  {
    if Idle(job) {
      StartKeepsJobInv(job, 1, made);
    }
  }

  lemma TriggerKeepsInv(w: World, id: string, made: Made)
    requires Inv(w) && id in w.jobs && Fresh(w.used, made)
    ensures Inv(Put(w, id, Triggered(w.jobs[id], made)))
  {
    TriggerKeepsJobInv(w.jobs[id], made);
    PutKeepsInv(w, id, Triggered(w.jobs[id], made));
  }

  lemma PauseKeepsInv(w: World, id: string, paused: bool)
    requires Inv(w) && id in w.jobs
    ensures Inv(Put(w, id, Effect(w.jobs[id].(paused := paused), None, None, {}, true)))
  {
    SettingsKeepJobInv(w.jobs[id], paused, None);
    PutKeepsInv(w, id, Effect(w.jobs[id].(paused := paused), None, None, {}, true));
  }

  lemma SweepSpends(job: Job, answer: Answer, made: Made)
    ensures Swept(job, answer, made).spent <= RunStarted(job, 1, made).spent
  {
  }

  lemma SweepKeepsInv(w: World, id: string, answer: Answer, made: Made)
    requires Inv(w) && id in w.jobs && Fresh(w.used, made)
    ensures Inv(Put(w, id, Swept(w.jobs[id], answer, made)))
  {
    SweepKeepsJobInv(w.jobs[id], answer, made);
    SweepSpends(w.jobs[id], answer, made);
    PutKeepsInv(w, id, Swept(w.jobs[id], answer, made));
  }

  lemma FireKeepsInv(w: World, id: string, now: int, made: Made)
    requires Inv(w) && id in w.jobs && Fresh(w.used, made)
    ensures Inv(Put(w, id, Fired(w.jobs[id], now, made)))
  {
    FireKeepsJobInv(w.jobs[id], now, made);
    PutKeepsInv(w, id, Fired(w.jobs[id], now, made));
  }

  lemma StepKeepsInv(w: World, st: Step)
    requires Inv(w) && Possible(w, st)
    ensures Inv(Stepped(w, st))
  {
    if st.Create? {
      if st.id !in w.jobs {
        CreateKeepsInv(w, st.id, Stepped(w, st).jobs[st.id]);
      }
    } else if st.id in w.jobs {
      match st
      case Trigger(id, made) => TriggerKeepsInv(w, id, made);
      case Pause(id, paused) => PauseKeepsInv(w, id, paused);
      case Sweep(id, answer, made) => SweepKeepsInv(w, id, answer, made);
      case Fire(id, now, made) => FireKeepsInv(w, id, now, made);
      case Remove(id, deleted) => RemoveKeepsInv(w, id, deleted);
    }
  }

  function RunSteps(w: World, steps: seq<Step>): World
    decreases |steps|
  {
    if steps == [] then w else Stepped(RunSteps(w, steps[..|steps| - 1]), steps[|steps| - 1])
  }

  const Empty := World(map[], {}, {})

  ghost predicate AllPossible(w: World, steps: seq<Step>)
    decreases |steps|
  {
    steps == [] || (AllPossible(w, steps[..|steps| - 1])
      && Possible(RunSteps(w, steps[..|steps| - 1]), steps[|steps| - 1]))
  }

  lemma {:induction false} RunKeepsInv(w: World, steps: seq<Step>)
    requires Inv(w) && AllPossible(w, steps)
    ensures Inv(RunSteps(w, steps))
    decreases |steps|
  {
    if steps != [] {
      RunKeepsInv(w, steps[..|steps| - 1]);
      StepKeepsInv(RunSteps(w, steps[..|steps| - 1]), steps[|steps| - 1]);
    }
  }

  lemma OnlyLastActive(job: Job, i: nat)
    requires JobInv(job) && i < |job.runs| && job.runs[i].Active()
    ensures i == |job.runs| - 1
  {
    RunsInAll(job, i);
  }

  lemma ChainGoesBack(all: seq<Run>, retries: nat, i: nat, back: nat)
    requires Chained(all, retries) && i < |all| && back < all[i].attempt
    ensures back <= i && all[i - back].attempt == all[i].attempt - back && (back > 0 ==> all[i - back].state == Failed)
    decreases back
  {
    if back > 0 {
      ChainGoesBack(all, retries, i, back - 1);
      var j := i - (back - 1);
      assert j > 0;
      assert Follows(all[j - 1], all[j]);
    }
  }

  /** In every reachable state a job has at most one active run, and it is its newest. */
  lemma AtMostOneActive(steps: seq<Step>, id: string, i: nat)
    requires AllPossible(Empty, steps) && id in RunSteps(Empty, steps).jobs
      && i < |RunSteps(Empty, steps).jobs[id].runs|
    requires RunSteps(Empty, steps).jobs[id].runs[i].Active()
    ensures i == |RunSteps(Empty, steps).jobs[id].runs| - 1
  {
    RunKeepsInv(Empty, steps);
    OnlyLastActive(RunSteps(Empty, steps).jobs[id], i);
  }

  /**
   In every reachable state, attempt n of a run stands at the end of n - 1 failed attempts 1, 2, ...
   of the same job, counting the runs pruned since; and n is at most one more than the retries.
   */
  lemma AttemptsChain(steps: seq<Step>, id: string, i: nat, back: nat)
    requires AllPossible(Empty, steps) && id in RunSteps(Empty, steps).jobs
    requires i < |All(RunSteps(Empty, steps).jobs[id])| && back < All(RunSteps(Empty, steps).jobs[id])[i].attempt
    ensures
      var job := RunSteps(Empty, steps).jobs[id];
      var all := All(job);
      && all[i].attempt <= job.retries + 1
      && back <= i && all[i - back].attempt == all[i].attempt - back
      && (back > 0 ==> all[i - back].state == Failed)
  {
    RunKeepsInv(Empty, steps);
    var job := RunSteps(Empty, steps).jobs[id];
    assert JobInv(job);
    ChainGoesBack(All(job), job.retries, i, back);
  }

  /** A run of the job is active and names the workload. */
  ghost predicate NamedByActive(job: Job, inst: string) {
    exists i :: 0 <= i < |job.runs| && job.runs[i].Active() && job.runs[i].inst == Some(inst)
  }

  lemma NamedByActiveIff(job: Job, inst: string)
    requires JobInv(job)
    ensures NamedByActive(job, inst) <==> Named(job) == Some(inst)
  {
    IdleIff(job);
    if Named(job) == Some(inst) {
      RunsInAll(job, |job.runs| - 1);
      assert job.runs[|job.runs| - 1].Active();
    }
    if NamedByActive(job, inst) {
      var i :| 0 <= i < |job.runs| && job.runs[i].Active() && job.runs[i].inst == Some(inst);
      RunsInAll(job, i);
    }
  }

  /** Workloads created and not yet asked to go are exactly those that active runs name. */
  lemma LiveAreNamed(steps: seq<Step>, inst: string)
    requires AllPossible(Empty, steps)
    ensures
      var w := RunSteps(Empty, steps);
      inst in w.live <==> exists id :: id in w.jobs && NamedByActive(w.jobs[id], inst)
  {
    RunKeepsInv(Empty, steps);
    var w := RunSteps(Empty, steps);
    forall id | id in w.jobs ensures NamedByActive(w.jobs[id], inst) <==> Holds(w.jobs, id, inst) {
      NamedByActiveIff(w.jobs[id], inst);
    }
    assert inst in w.live ==> exists id :: Holds(w.jobs, id, inst);
  }

  lemma {:induction false} PossiblePrefix(w: World, steps: seq<Step>, k: nat)
    requires AllPossible(w, steps) && k < |steps|
    ensures AllPossible(w, steps[..k]) && Possible(RunSteps(w, steps[..k]), steps[k])
    ensures RunSteps(w, steps[..k + 1]) == Stepped(RunSteps(w, steps[..k]), steps[k])
    decreases |steps|
  {
    assert steps[..k + 1][..k] == steps[..k];
    if k < |steps| - 1 {
      var earlier := steps[..|steps| - 1];
      PossiblePrefix(w, earlier, k);
      assert earlier[..k] == steps[..k];
    }
  }

  // ----- scheduled runs -----

  ghost predicate FiresAt(w: World, steps: seq<Step>, k: nat, id: string)
    requires k < |steps|
  {
    && steps[k].Fire? && steps[k].id == id
    && id in RunSteps(w, steps[..k]).jobs && Due(RunSteps(w, steps[..k]).jobs[id], steps[k].now)
  }

  lemma SweepKeepsSettings(job: Job, answer: Answer, made: Made)
    ensures Swept(job, answer, made).job.every == job.every && Swept(job, answer, made).job.nextAt == job.nextAt
  {
    AdvanceTouchesRunsOnly(job, answer, made);
  }

  /** The job is still there, with its interval, and not due before `at`. */
  ghost predicate NotBefore(w: World, id: string, every: nat, at: int) {
    id in w.jobs && w.jobs[id].every == every && w.jobs[id].nextAt.Some? && w.jobs[id].nextAt.value >= at
  }

  lemma StepKeepsNext(w: World, st: Step, id: string, every: nat, at: int)
    requires NotBefore(w, id, every, at) && !(st.Remove? && st.id == id)
    ensures NotBefore(Stepped(w, st), id, every, at)
  {
    if st.Sweep? && st.id == id {
      SweepKeepsSettings(w.jobs[id], st.answer, st.made);
    }
  }

  lemma {:induction false} NextStands(w: World, steps: seq<Step>, id: string, i: nat, k: nat)
    requires i < k <= |steps| && FiresAt(w, steps, i, id)
    requires forall m | i < m < k :: !(steps[m].Remove? && steps[m].id == id)
    ensures
      var every := RunSteps(w, steps[..i]).jobs[id].every;
      NotBefore(RunSteps(w, steps[..k]), id, every, steps[i].now + every)
  {
    assert steps[..k][..k - 1] == steps[..k - 1];
    if k > i + 1 {
      NextStands(w, steps, id, i, k - 1);
      var every := RunSteps(w, steps[..i]).jobs[id].every;
      StepKeepsNext(RunSteps(w, steps[..k - 1]), steps[k - 1], id, every, steps[i].now + every);
    }
  }

  /** Two scheduled firings of a job that is not removed in between are at least its interval apart. */
  lemma FiringsAreSpaced(w: World, steps: seq<Step>, id: string, i: nat, j: nat)
    requires i < j < |steps| && FiresAt(w, steps, i, id) && FiresAt(w, steps, j, id)
    requires forall m | i < m < j :: !(steps[m].Remove? && steps[m].id == id)
    ensures steps[j].now - steps[i].now >= RunSteps(w, steps[..i]).jobs[id].every
  {
    NextStands(w, steps, id, i, j);
  }

  /** A job's first firing is no sooner than its interval after it is created. */
  lemma FirstFiringWaits(w: World, steps: seq<Step>, id: string, i: nat, j: nat)
    requires i < j < |steps| && steps[i].Create? && steps[i].id == id && id !in RunSteps(w, steps[..i]).jobs
    requires FiresAt(w, steps, j, id)
    requires forall m | i < m < j :: !(steps[m].Remove? && steps[m].id == id)
    ensures steps[i].every > 0 && steps[j].now - steps[i].at >= steps[i].every
  {
    CreatedWaits(w, steps, id, i, j);
  }

  ghost predicate NeverUnlessScheduled(w: World, id: string, every: nat, at: int) {
    if every > 0 then NotBefore(w, id, every, at) else id in w.jobs && w.jobs[id].every == 0
  }

  lemma {:induction false} CreatedWaits(w: World, steps: seq<Step>, id: string, i: nat, k: nat)
    requires i < k <= |steps| && steps[i].Create? && steps[i].id == id && id !in RunSteps(w, steps[..i]).jobs
    requires forall m | i < m < k :: !(steps[m].Remove? && steps[m].id == id)
    ensures NeverUnlessScheduled(RunSteps(w, steps[..k]), id, steps[i].every, steps[i].at + steps[i].every)
  {
    assert steps[..k][..k - 1] == steps[..k - 1];
    if k > i + 1 {
      CreatedWaits(w, steps, id, i, k - 1);
      var before := RunSteps(w, steps[..k - 1]);
      if steps[i].every > 0 {
        StepKeepsNext(before, steps[k - 1], id, steps[i].every, steps[i].at + steps[i].every);
      } else {
        UnscheduledStays(before, steps[k - 1], id);
      }
    }
  }

  lemma UnscheduledStays(w: World, st: Step, id: string)
    requires id in w.jobs && w.jobs[id].every == 0 && !(st.Remove? && st.id == id)
    ensures id in Stepped(w, st).jobs && Stepped(w, st).jobs[id].every == 0
  {
    if st.Sweep? && st.id == id {
      SweepKeepsSettings(w.jobs[id], st.answer, st.made);
    }
  }

  lemma PausedStays(w: World, st: Step, id: string)
    requires id in w.jobs && w.jobs[id].paused && !(st.Remove? && st.id == id) && st != Pause(id, false)
    ensures id in Stepped(w, st).jobs && Stepped(w, st).jobs[id].paused
  {
    if st.Sweep? && st.id == id {
      AdvanceTouchesRunsOnly(w.jobs[id], st.answer, st.made);
    }
  }

  /** A paused job never fires until it is resumed, or removed and made anew. */
  lemma {:induction false} PausedNeverFires(w: World, steps: seq<Step>, id: string, i: nat, k: nat)
    requires i < k < |steps| && steps[i] == Pause(id, true) && id in RunSteps(w, steps[..i]).jobs
    requires forall m | i < m < k :: !(steps[m].Remove? && steps[m].id == id) && steps[m] != Pause(id, false)
    ensures !FiresAt(w, steps, k, id)
    ensures id in RunSteps(w, steps[..k]).jobs && RunSteps(w, steps[..k]).jobs[id].paused
  {
    assert steps[..k][..k - 1] == steps[..k - 1];
    if k > i + 1 {
      PausedNeverFires(w, steps, id, i, k - 1);
      PausedStays(RunSteps(w, steps[..k - 1]), steps[k - 1], id);
    }
  }

  // ----- what a firing, a trigger and a removal come to -----

  /** The job and its workload change as one new run does, and no other job does. */
  ghost predicate OneMoreRun(w: World, now: World, id: string, attempt: nat, made: Made)
    requires id in w.jobs
  {
    && id in now.jobs && now.jobs[id].runs == w.jobs[id].runs + NewRuns(attempt, made)
    && now.jobs[id].pruned == w.jobs[id].pruned
    && now.live == w.live + (if made.Created? then {made.inst} else {})
    && forall other | other != id :: Lookup(now.jobs, other) == Lookup(w.jobs, other)
  }

  ghost predicate NoneActive(job: Job) {
    forall r | r in job.runs :: !r.Active()
  }

  lemma NoneActiveIff(job: Job)
    ensures NoneActive(job) <==> Idle(job)
  {
    if Idle(job) {
      assert forall i | 0 <= i < |job.runs| :: !job.runs[i].Active();
    }
    if !Idle(job) {
      assert job.runs[FirstActive(job.runs)] in job.runs;
    }
  }

  /**
   A look at a job's schedule moves its next time by the interval exactly if the job is due, is not
   paused and has an interval; and then exactly one run, a first attempt, is begun if none is active.
   In all other cases no run is begun.
   */
  lemma FireStartsOneIff(w: World, id: string, at: int, made: Made)
    requires id in w.jobs
    ensures
      var now, job := Stepped(w, Fire(id, at, made)), w.jobs[id];
      if job.paused || job.every == 0 || job.nextAt.None? || at < job.nextAt.value then now == w
      else
        && id in now.jobs && now.jobs[id].nextAt == Some(at + job.every)
        && if NoneActive(job) then OneMoreRun(w, now, id, 1, made)
           else now == w.(jobs := w.jobs[id := job.(nextAt := Some(at + job.every))])
  {
    NoneActiveIff(w.jobs[id]);
  }

  /** A trigger begins one run, a first attempt, exactly if none is active. */
  lemma TriggerStartsOneIff(w: World, id: string, made: Made)
    requires id in w.jobs
    ensures
      var now := Stepped(w, Trigger(id, made));
      if NoneActive(w.jobs[id]) then OneMoreRun(w, now, id, 1, made) else now == w
  {
    NoneActiveIff(w.jobs[id]);
    assert w.jobs[id := w.jobs[id]] == w.jobs;
  }

  /**
   In every reachable state a removal takes the job exactly if its workload, if it has one, can be asked
   to go; exactly that workload goes with it, and a removal that fails changes nothing.
   */
  lemma RemovalIff(steps: seq<Step>, id: string, deleted: bool)
    requires AllPossible(Empty, steps) && id in RunSteps(Empty, steps).jobs
    ensures
      var w := RunSteps(Empty, steps);
      var now := Stepped(w, Remove(id, deleted));
      if deleted || NoneActive(w.jobs[id]) then
        && now.jobs == w.jobs - {id}
        && forall inst :: inst in now.live <==> inst in w.live && !NamedByActive(w.jobs[id], inst)
      else now == w
  {
    RunKeepsInv(Empty, steps);
    RemovedIff(RunSteps(Empty, steps), id, deleted);
  }

  lemma RemovedIff(w: World, id: string, deleted: bool)
    requires Inv(w) && id in w.jobs
    ensures
      var now := Removed(w, id, deleted);
      if deleted || NoneActive(w.jobs[id]) then
        && now.jobs == w.jobs - {id}
        && forall inst :: inst in now.live <==> inst in w.live && !NamedByActive(w.jobs[id], inst)
      else now == w
  {
    var job := w.jobs[id];
    NoneActiveIff(job);
    assert InstancesOf(job.runs) == OptionSet(Named(job)) && (Idle(job) <==> Named(job).None?) by {
      IdleIff(job);
    }
    forall inst ensures NamedByActive(job, inst) <==> inst in OptionSet(Named(job)) {
      NamedByActiveIff(job, inst);
    }
  }

  // ----- the service -----

  class Service {
    var jobs: map<string, Job>
    var live: set<string>
    var used: set<string>

    constructor ()
      ensures State() == Empty
    {
      jobs, live, used := map[], {}, {};
    }

    function State(): World
      reads this
    {
      World(jobs, live, used)
    }

    method StartRun(id: string, attempt: nat, made: Made) returns (ok: bool)
      requires id in jobs
      modifies this
      ensures State() == Put(old(State()), id, RunStarted(old(jobs)[id], attempt, made))
      ensures ok == !made.Unreadable?
    {
      var job := jobs[id];
      match made
      case Unreadable =>
        assert jobs == jobs[id := job];
        ok := false;
      case Refused(run) =>
        used := used + {run};
        jobs := jobs[id := job.(runs := job.runs + [Run(run, None, attempt, Failed)])];
        ok := true;
      case Created(run, inst) =>
        live, used := live + {inst}, used + {run, inst};
        jobs := jobs[id := job.(runs := job.runs + [Run(run, Some(inst), attempt, Pending)])];
        ok := true;
    }

    method Finish(id: string, i: nat, state: RunState)
      requires id in jobs && i < |jobs[id].runs|
      modifies this
      ensures State() == Put(old(State()), id, RunEnded(old(jobs)[id], i, state))
    {
      var job := jobs[id];
      if job.runs[i].inst.Some? {
        live := live - {job.runs[i].inst.value};
      }
      jobs := jobs[id := RunSet(job, i, job.runs[i].(state := state, inst := None))];
    }

    method Advance(id: string, answer: Answer, made: Made) returns (ok: bool)
      requires id in jobs
      modifies this
      ensures State() == Put(old(State()), id, Advanced(old(jobs)[id], answer, made))
      ensures ok == Advanced(old(jobs)[id], answer, made).ok
    {
      var job := jobs[id];
      assert jobs == jobs[id := job];
      ok := true;
      var i := FirstActive(job.runs);
      if i == |job.runs| || job.runs[i].inst.None? {
        return;
      }
      match answer
      case Gone => Finish(id, i, Failed);
      case StillPending =>
      case Up => jobs := jobs[id := RunSet(job, i, job.runs[i].(state := Running))];
      case Over(_, _) =>
        if Success(answer) {
          Finish(id, i, Succeeded);
        } else {
          Finish(id, i, Failed);
          if job.runs[i].attempt <= job.retries {
            ok := StartRun(id, job.runs[i].attempt + 1, made);
          }
        }
    }

    /** The id is the table's primary key, so at most one row goes. */
    method DeleteRun(id: string, run: string)
      requires id in jobs && jobs[id].runs != [] && jobs[id].runs[0].id == run
      modifies this`jobs
      ensures jobs == old(jobs)[id := Pruned(old(jobs)[id], 1)]
    {
      var job := jobs[id];
      var i := PlaceOf(job.runs, (r: Run) => r.id, run);
      jobs := jobs[id := job.(runs := job.runs[..i] + job.runs[i + 1..], pruned := job.pruned + [job.runs[i]])];
      assert job.runs[..0] + job.runs[1..] == job.runs[1..] && job.runs[..1] == [job.runs[0]];
    }

    /** Of the runs settled in `before` all but the newest `keep` go. */
    method Retain(id: string, before: Job)
      requires id in jobs && SettledOf(before.runs) <= jobs[id].runs
      modifies this`jobs
      ensures jobs == old(jobs)[id := Pruned(old(jobs)[id], Surplus(before))]
    {
      var settled := [];
      for i := 0 to |before.runs|
        invariant settled == SettledOf(before.runs[..i])
      {
        assert before.runs[..i + 1][..i] == before.runs[..i];
        if !before.runs[i].Active() {
          settled := settled + [before.runs[i]];
        }
      }
      assert before.runs[..|before.runs|] == before.runs;
      PrunedNothing(jobs[id]);
      assert jobs == jobs[id := jobs[id]];
      if |settled| <= before.keep {
        return;
      }
      ghost var was := jobs[id];
      for k := 0 to |settled| - before.keep
        invariant id in jobs && k <= |was.runs| && jobs == old(jobs)[id := Pruned(was, k)]
      {
        assert was.runs[k..][0] == was.runs[k] == settled[k];
        PrunedOneMore(was, k);
        DeleteRun(id, settled[k].id);
      }
    }

    method SweepJob(id: string, answer: Answer, made: Made)
      requires id in jobs && SettledOf(jobs[id].runs) <= Advanced(jobs[id], answer, made).job.runs
      modifies this
      ensures State() == Put(old(State()), id, Swept(old(jobs)[id], answer, made))
    {
      var job := jobs[id];
      var ok := Advance(id, answer, made);
      ghost var advanced := jobs[id];
      if ok {
        Retain(id, job);
        SetTwice(old(jobs), id, advanced, Pruned(advanced, Surplus(job)));
      }
    }

    method FireJob(id: string, now: int, made: Made) returns (started: bool)
      requires id in jobs && Due(jobs[id], now)
      modifies this
      ensures State() == Put(old(State()), id, Fired(old(jobs)[id], now, made))
      ensures started ==> Idle(old(jobs)[id])
    {
      var job := jobs[id];
      jobs := jobs[id := job.(nextAt := Some(now + job.every))];
      started := false;
      if FirstActive(job.runs) == |job.runs| {
        started := StartRun(id, 1, made);
      }
    }

    /**
     One pass: `visits` are all jobs, each with what its workload says; `due` is what the query for
     due jobs returns afterwards, oldest first and at most four.
     */
    method SweepAll(visits: seq<Step>, due: seq<Step>) returns (fired: nat)
      requires forall i | 0 <= i < |visits| :: visits[i].Sweep?
      requires forall i | 0 <= i < |due| :: due[i].Fire?
      requires |due| <= MAX_FIRE_PER_PASS
      requires Inv(State()) && AllPossible(State(), visits + due)
      modifies this
      ensures State() == RunSteps(old(State()), visits + due) && Inv(State())
      ensures fired <= MAX_FIRE_PER_PASS
    {
      var steps := visits + due;
      ghost var start := State();
      fired := 0;
      for k := 0 to |steps|
        invariant State() == RunSteps(start, steps[..k]) && Inv(State())
        invariant fired <= if k <= |visits| then 0 else k - |visits|
      {
        PossiblePrefix(start, steps, k);
        ghost var before := State();
        var started := Visit(steps[k]);
        fired := fired + if started then 1 else 0;
        assert Inv(State()) by {
          StepKeepsInv(before, steps[k]);
        }
      }
      assert steps[..|steps|] == steps;
    }

    /** One job's turn in the pass. */
    method Visit(step: Step) returns (started: bool)
      requires (step.Sweep? || step.Fire?) && JobsInv(jobs)
      modifies this
      ensures State() == Stepped(old(State()), step)
      ensures started ==> step.Fire?
    {
      started := false;
      if step.id in jobs {
        match step
        case Sweep(id, answer, made) =>
          AdvanceKeepsSettled(jobs[id], answer, made);
          SweepJob(id, answer, made);
        case Fire(id, now, made) =>
          if Due(jobs[id], now) {
            started := FireJob(id, now, made);
          }
      }
    }

    method Trigger(id: string, made: Made) returns (ok: bool)
      requires id in jobs
      modifies this
      ensures State() == Put(old(State()), id, Triggered(old(jobs)[id], made))
      ensures ok == Triggered(old(jobs)[id], made).ok
    {
      assert jobs == jobs[id := jobs[id]];
      if FirstActive(jobs[id].runs) < |jobs[id].runs| {
        return false;
      }
      ok := StartRun(id, 1, made);
    }

    /** Every workload a run names is asked to go before any row does. */
    method Remove(id: string, deletes: string -> bool) returns (ok: bool)
      requires id in jobs && JobInv(jobs[id])
      modifies this
      ensures ok <==> forall inst | inst in InstancesOf(old(jobs)[id].runs) :: deletes(inst)
      ensures State() == Removed(old(State()), id, ok)
    {
      var job := jobs[id];
      IdleIff(job);
      var asked := {};
      for i := 0 to |job.runs|
        invariant State() == old(State()) && asked == InstancesOf(job.runs[..i]) && forall inst | inst in asked ::
          deletes(inst)
      {
        var run := job.runs[i];
        InstancesOneMore(job.runs, i);
        if run.inst.Some? {
          if !deletes(run.inst.value) {
            assert run.inst.value in InstancesOf(job.runs);
            assert State() == Removed(old(State()), id, false);
            return false;
          }
          asked := asked + {run.inst.value};
        }
      }
      assert job.runs[..|job.runs|] == job.runs;
      assert asked == InstancesOf(job.runs);
      jobs, live := jobs - {id}, live - asked;
      ok := true;
      assert State() == Removed(old(State()), id, true);
    }
  }

  lemma SetTwice(jobs: map<string, Job>, id: string, a: Job, b: Job)
    ensures jobs[id := a][id := b] == jobs[id := b]
  {
  }

  lemma PrunedNothing(job: Job)
    ensures Pruned(job, 0) == job
  {
    assert job.runs[0..] == job.runs && job.pruned + job.runs[..0] == job.pruned;
  }

  lemma PrunedOneMore(job: Job, k: nat)
    requires k < |job.runs|
    ensures Pruned(Pruned(job, k), 1) == Pruned(job, k + 1)
  {
    assert job.runs[k..][1..] == job.runs[k + 1..] && job.runs[k..][..1] == [job.runs[k]];
    assert job.pruned + job.runs[..k] + [job.runs[k]] == job.pruned + job.runs[..k + 1];
  }

  lemma InstancesOneMore(runs: seq<Run>, i: nat)
    requires i < |runs|
    ensures InstancesOf(runs[..i + 1]) == InstancesOf(runs[..i]) + OptionSet(runs[i].inst)
  {
    assert forall k | 0 <= k < i :: runs[..i + 1][k] == runs[..i][k];
    assert runs[..i + 1][i] == runs[i];
  }
}
