/** `run_tasks` in renconstruct.py: each task in run order is constructed with
    its name and the config, then the hook for the stage runs if the class has
    one; the first failure ends the run (`sys.exit(1)`). */
module Scheduler {
  import opened Wrappers
  import opened Files
  import opened Config
  import opened Registry

  datatype RunOutcome =
    | Completed
    | InitFailed(task: string)
    | HookFailed(task: string, stage: string)

  datatype StageResult = StageResult(outcome: RunOutcome, files: FileMap)

  /** The hook `stage` selects: `pre_build` for "pre-build", `post_build` for
      "post-build", and none for any other stage name. */
  function HookOf(cls: TaskClass, stage: string): (h: Option<Hook>)
    ensures stage != "pre-build" && stage != "post-build" ==> h == None
  {
    if stage == "pre-build" then cls.preBuild
    else if stage == "post-build" then cls.postBuild
    else None
  }

  /** The run of one stage over `tasks`, starting from `files`. */
  function RunStage(config: map<string, Value>, tasks: seq<Runnable>, stage: string, files: FileMap): StageResult
  {
    if tasks == [] then StageResult(Completed, files)
    else
      var t := tasks[0];
      if !t.cls.construct(t.name, config) then StageResult(InitFailed(t.name), files)
      else
        match HookOf(t.cls, stage)
        case None => RunStage(config, tasks[1..], stage, files)
        case Some(hook) =>
          var run := hook(t.name, config, files);
          if run.error.Some? then StageResult(HookFailed(t.name, stage), run.files)
          else RunStage(config, tasks[1..], stage, run.files)
  }

  method RunTasks(fs: FileSystem, config: map<string, Value>, tasks: seq<Runnable>, stage: string)
    returns (outcome: RunOutcome)
    modifies fs
    ensures StageResult(outcome, fs.files) == RunStage(config, tasks, stage, old(fs.files))
  {
    var i := 0;
    while i < |tasks|
      invariant 0 <= i <= |tasks|
      invariant RunStage(config, tasks, stage, old(fs.files)) == RunStage(config, tasks[i..], stage, fs.files)
    {
      var t := tasks[i];
      assert tasks[i..][0] == t && tasks[i..][1..] == tasks[i + 1..];
      if !t.cls.construct(t.name, config) {
        return InitFailed(t.name);
      }
      match HookOf(t.cls, stage) {
        case None =>
        case Some(hook) =>
          var run := hook(t.name, config, fs.files);
          fs.files := run.files;
          if run.error.Some? {
            return HookFailed(t.name, stage);
          }
      }
      i := i + 1;
    }
    return Completed;
  }

  /** Once a task fails, no later task is constructed or run: appending
      tasks to the run list does not change the result. */
  lemma {:induction false} NothingRunsAfterFailure(config: map<string, Value>, tasks: seq<Runnable>, more: seq<Runnable>, stage: string, files: FileMap)
    requires RunStage(config, tasks, stage, files).outcome != Completed
    ensures RunStage(config, tasks + more, stage, files) == RunStage(config, tasks, stage, files)
  {
    var t := tasks[0];
    assert (tasks + more)[0] == t && (tasks + more)[1..] == tasks[1..] + more;
    if t.cls.construct(t.name, config) {
      match HookOf(t.cls, stage) {
        case None => NothingRunsAfterFailure(config, tasks[1..], more, stage, files);
        case Some(hook) =>
          var run := hook(t.name, config, files);
          if run.error.None? {
            NothingRunsAfterFailure(config, tasks[1..], more, stage, run.files);
          }
      }
    }
  }

  /** A completed run is a sequential composition: running `tasks` then
      `more` is running `more` on the files `tasks` left behind. */
  lemma {:induction false} CompletedRunsCompose(config: map<string, Value>, tasks: seq<Runnable>, more: seq<Runnable>, stage: string, files: FileMap)
    requires RunStage(config, tasks, stage, files).outcome == Completed
    ensures RunStage(config, tasks + more, stage, files)
      == RunStage(config, more, stage, RunStage(config, tasks, stage, files).files)
  {
    if tasks == [] {
      assert tasks + more == more;
    } else {
      var t := tasks[0];
      assert (tasks + more)[0] == t && (tasks + more)[1..] == tasks[1..] + more;
      match HookOf(t.cls, stage) {
        case None => CompletedRunsCompose(config, tasks[1..], more, stage, files);
        case Some(hook) =>
          var run := hook(t.name, config, files);
          CompletedRunsCompose(config, tasks[1..], more, stage, run.files);
      }
    }
  }

  predicate ConstructsWithoutHook(config: map<string, Value>, t: Runnable, stage: string)
  {
    t.cls.construct(t.name, config) && HookOf(t.cls, stage).None?
  }

  /** Tasks that construct and have no hook for the stage leave the files as
      they were; for an unknown stage name that is every task that constructs. */
  lemma {:induction false} HooklessTasksChangeNothing(config: map<string, Value>, tasks: seq<Runnable>, stage: string, files: FileMap)
    requires forall k :: 0 <= k < |tasks| ==> ConstructsWithoutHook(config, tasks[k], stage)
    ensures RunStage(config, tasks, stage, files) == StageResult(Completed, files)
  {
    if tasks != [] {
      assert ConstructsWithoutHook(config, tasks[0], stage);
      forall k | 0 <= k < |tasks[1..]| ensures ConstructsWithoutHook(config, tasks[1..][k], stage) {
        assert tasks[1..][k] == tasks[k + 1];
      }
      HooklessTasksChangeNothing(config, tasks[1..], stage, files);
    }
  }

  /** A failure is reported against the failing task's name, and a hook
      failure against the stage that was running. */
  lemma {:induction false} FailureNamesARunnableTask(config: map<string, Value>, tasks: seq<Runnable>, stage: string, files: FileMap)
    ensures match RunStage(config, tasks, stage, files).outcome
      case Completed => true
      case InitFailed(n) => exists k :: 0 <= k < |tasks| && tasks[k].name == n && !tasks[k].cls.construct(n, config)
      case HookFailed(n, s) => s == stage && exists k :: 0 <= k < |tasks| && tasks[k].name == n && HookOf(tasks[k].cls, stage).Some?
  {
    if tasks != [] {
      var t := tasks[0];
      FailureNamesARunnableTask(config, tasks[1..], stage, files);
      if t.cls.construct(t.name, config) {
        match HookOf(t.cls, stage) {
          case None =>
            match RunStage(config, tasks[1..], stage, files).outcome {
              case Completed =>
              case InitFailed(n) =>
                var k :| 0 <= k < |tasks[1..]| && tasks[1..][k].name == n && !tasks[1..][k].cls.construct(n, config);
                assert tasks[k + 1] == tasks[1..][k];
              case HookFailed(n, s) =>
                var k :| 0 <= k < |tasks[1..]| && tasks[1..][k].name == n && HookOf(tasks[1..][k].cls, stage).Some?;
                assert tasks[k + 1] == tasks[1..][k];
            }
          case Some(hook) =>
            var run := hook(t.name, config, files);
            if run.error.None? {
              FailureNamesARunnableTask(config, tasks[1..], stage, run.files);
              match RunStage(config, tasks[1..], stage, run.files).outcome {
                case Completed =>
                case InitFailed(n) =>
                  var k :| 0 <= k < |tasks[1..]| && tasks[1..][k].name == n && !tasks[1..][k].cls.construct(n, config);
                  assert tasks[k + 1] == tasks[1..][k];
                case HookFailed(n, s) =>
                  var k :| 0 <= k < |tasks[1..]| && tasks[1..][k].name == n && HookOf(tasks[1..][k].cls, stage).Some?;
                  assert tasks[k + 1] == tasks[1..][k];
              }
            }
        }
      }
    }
  }
}
