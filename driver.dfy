/**
 * The driver's decisions: task-count hints applied only when positive, the
 * parameter load run next, and the job submitted only when the load did not
 * report failure.  The load itself and the job's execution are outside the
 * model; only their results enter, as `load` and `jobSucceeds`.
 */
module Driver {
  import opened Options

  /** The settings the driver reads from the job configuration. */
  datatype JobConfig = JobConfig(parametersFolder: string, mapHint: Option<int>, reduceHint: Option<int>)

  /** The task counts configured on the job. */
  datatype TaskCounts = TaskCounts(mapTasks: int, reduceTasks: int)

  /** How `run` ends: by returning an exit code, or by the job's failure propagating out. */
  datatype Status = Returned(code: int) | JobFailed

  datatype RunResult = RunResult(tasks: TaskCounts, submitted: bool, status: Status)

  /** The value a configuration key falls back to when unset. */
  const Unset: int := -1

  /** An integer configuration value, or `dflt` when the key is unset. */
  function GetInt(v: Option<int>, dflt: int): (r: int)
    ensures v.None? ==> r == dflt
    ensures v.Some? ==> r == v.value
  {
    match v
    case Some(n) => n
    case None => dflt
  }

  /** A hint replaces the current task count only when it is positive. */
  function ApplyHint(current: int, hint: int): (r: int)
    ensures hint > 0 ==> r == hint
    ensures hint <= 0 ==> r == current
  {
    if hint > 0 then hint else current
  }

  /**
   * The driver: hints first, then the parameter load on the configured folder;
   * a load result of 1 ends the run with 1 before submission, anything else
   * submits the job, which either completes (0) or fails.
   */
  function Run(cfg: JobConfig, defaults: TaskCounts, load: string -> int, jobSucceeds: bool): (r: RunResult)
    ensures r.submitted <==> load(cfg.parametersFolder) != 1
    ensures !r.submitted ==> r.status == Returned(1)
    ensures r.status == Returned(0) <==> r.submitted && jobSucceeds
    ensures r.status == JobFailed <==> r.submitted && !jobSucceeds
    ensures r.tasks.mapTasks == ApplyHint(defaults.mapTasks, GetInt(cfg.mapHint, Unset))
    ensures r.tasks.reduceTasks == ApplyHint(defaults.reduceTasks, GetInt(cfg.reduceHint, Unset))
  {
    var tasks := TaskCounts(ApplyHint(defaults.mapTasks, GetInt(cfg.mapHint, Unset)),
                            ApplyHint(defaults.reduceTasks, GetInt(cfg.reduceHint, Unset)));
    if load(cfg.parametersFolder) == 1 then RunResult(tasks, false, Returned(1))
    else RunResult(tasks, true, if jobSucceeds then Returned(0) else JobFailed)
  }

  /** An absent or non-positive hint leaves the default task count; a positive one replaces it. */
  lemma HintsAppliedOnlyWhenPositive(cfg: JobConfig, defaults: TaskCounts, load: string -> int, jobSucceeds: bool)
    ensures var r := Run(cfg, defaults, load, jobSucceeds);
      && (cfg.mapHint.None? || cfg.mapHint.value <= 0 ==> r.tasks.mapTasks == defaults.mapTasks)
      && (cfg.mapHint.Some? && cfg.mapHint.value > 0 ==> r.tasks.mapTasks == cfg.mapHint.value)
      && (cfg.reduceHint.None? || cfg.reduceHint.value <= 0 ==> r.tasks.reduceTasks == defaults.reduceTasks)
      && (cfg.reduceHint.Some? && cfg.reduceHint.value > 0 ==> r.tasks.reduceTasks == cfg.reduceHint.value)
  {
  }

  /** The hints are applied before the load, so they do not depend on its outcome or the job's. */
  lemma HintsIndependentOfLoad(cfg: JobConfig, defaults: TaskCounts, load1: string -> int, load2: string -> int, ok1: bool, ok2: bool)
    ensures Run(cfg, defaults, load1, ok1).tasks == Run(cfg, defaults, load2, ok2).tasks
  {
  }
}
