/** Task discovery results, enablement, validation, affected-file conflicts and
    priority order: `scan_tasks` in renconstruct.py. A discovered plugin class is
    a `TaskClass` value listing what the class defines; reflection over plugin
    files is not modelled. */
module Registry {
  import opened Wrappers
  import opened Files
  import opened Config
  import opened TaskName

  /** What a stage hook leaves behind: the file system as it stands when the
      hook returns or raises, and the exception it raised, if any. */
  datatype HookRun = HookRun(files: FileMap, error: Option<string>)

  /** A stage hook gets the task's name, the whole config and the files. */
  type Hook = (string, map<string, Value>, FileMap) -> HookRun

  /** What a plugin class defines: its name, the optional class attributes
      `PRIORITY` and `AFFECTED_FILES`, the optional static `validate_config`,
      whether its constructor succeeds, and its optional stage hooks. */
  datatype TaskClass = TaskClass(
    className: string,
    priority: Option<int>,
    affectedFiles: Option<seq<string>>,
    validate: Option<Value -> Result<Value, string>>,
    construct: (string, map<string, Value>) -> bool,
    preBuild: Option<Hook>,
    postBuild: Option<Hook>)

  /** One entry of the insertion-ordered `available_tasks` dictionary. */
  datatype NamedTask = NamedTask(name: string, cls: TaskClass)

  /** One entry of `new_tasks`: the task's boolean flag from `tasks.<name>`. */
  datatype Flagged = Flagged(name: string, enabled: bool, cls: TaskClass)

  /** One element of the returned run list: `(name, task_class, priority)`. */
  datatype Runnable = Runnable(name: string, cls: TaskClass, priority: int)

  datatype ScanError =
    | TasksSectionNotAMapping
    | NonBooleanFlag(task: string, value: Value)
    | ValidationFailed(task: string, message: string)
    | DuplicateAffectedFile(task: string, file: string)

  datatype ScanResult = ScanResult(
    runnable: seq<Runnable>,
    affected: seq<string>,
    config: map<string, Value>)

  // ---------------------------------------------------------------------
  // available_tasks: a dictionary keyed by derived name, in insertion order

  function IndexOfName(d: seq<NamedTask>, name: string): (i: int)
    ensures -1 <= i < |d|
    ensures i >= 0 ==> d[i].name == name
    ensures i < 0 ==> forall k :: 0 <= k < |d| ==> d[k].name != name
  {
    if d == [] then -1
    else if d[|d| - 1].name == name then |d| - 1
    else IndexOfName(d[..|d| - 1], name)
  }

  /** `available_tasks[name] = cls`: a new key is appended, an existing key
      keeps its position and gets the new class. */
  function DictPut(d: seq<NamedTask>, name: string, cls: TaskClass): seq<NamedTask>
  {
    var i := IndexOfName(d, name);
    if i < 0 then d + [NamedTask(name, cls)] else d[i := NamedTask(name, cls)]
  }

  /** The discovered classes whose name ends in "Task", keyed by derived name. */
  function Available(classes: seq<TaskClass>): seq<NamedTask>
  {
    if classes == [] then []
    else
      var prev := Available(classes[..|classes| - 1]);
      var c := classes[|classes| - 1];
      match DeriveName(c.className)
      case None => prev
      case Some(name) => DictPut(prev, name, c)
  }

  // ---------------------------------------------------------------------
  // new_tasks: every available task's flag must be a boolean

  /** `config["tasks"].get(name, False)`. */
  function FlagValue(section: map<string, Value>, name: string): Value
  {
    if name in section then section[name] else VBool(false)
  }

  function CheckFlags(avail: seq<NamedTask>, section: map<string, Value>): Result<seq<Flagged>, ScanError>
  {
    if avail == [] then Success([])
    else
      var prev :- CheckFlags(avail[..|avail| - 1], section);
      var t := avail[|avail| - 1];
      var v := FlagValue(section, t.name);
      if v.VBool? then Success(prev + [Flagged(t.name, v.b, t.cls)])
      else Failure(NonBooleanFlag(t.name, v))
  }

  // ---------------------------------------------------------------------
  // runnable_tasks and affected_files

  function PriorityOf(cls: TaskClass): int
  {
    match cls.priority
    case None => 0
    case Some(p) => p
  }

  function AffectedOf(cls: TaskClass): seq<string>
  {
    match cls.affectedFiles
    case None => []
    case Some(files) => files
  }

  /** Appends `files` to `acc`, failing at the first file already present. */
  function AddAffected(acc: seq<string>, task: string, files: seq<string>): Result<seq<string>, ScanError>
  {
    if files == [] then Success(acc)
    else
      var prev :- AddAffected(acc, task, files[..|files| - 1]);
      var file := files[|files| - 1];
      if file in prev then Failure(DuplicateAffectedFile(task, file))
      else Success(prev + [file])
  }

  /** `config.get(name, {})` handed to the validation hook, and its result
      stored back as `config[name]`. */
  function ValidateSection(config: map<string, Value>, f: Flagged): Result<map<string, Value>, ScanError>
  {
    match f.cls.validate
    case None => Success(config)
    case Some(validate) =>
      var section := if f.name in config then config[f.name] else VMap(map[]);
      match validate(section)
      case Failure(message) => Failure(ValidationFailed(f.name, message))
      case Success(v) => Success(config[f.name := v])
  }

  function EnableOne(acc: ScanResult, f: Flagged): Result<ScanResult, ScanError>
  {
    if !f.enabled then Success(acc)
    else
      var config :- ValidateSection(acc.config, f);
      var affected :- AddAffected(acc.affected, f.name, AffectedOf(f.cls));
      Success(ScanResult(acc.runnable + [Runnable(f.name, f.cls, PriorityOf(f.cls))], affected, config))
  }

  function EnableAll(flagged: seq<Flagged>, config: map<string, Value>): Result<ScanResult, ScanError>
  {
    if flagged == [] then Success(ScanResult([], [], config))
    else
      var acc :- EnableAll(flagged[..|flagged| - 1], config);
      EnableOne(acc, flagged[|flagged| - 1])
  }

  // ---------------------------------------------------------------------
  // sorted(runnable_tasks, key=priority, reverse=True): a stable sort

  predicate SortedByPriority(xs: seq<Runnable>)
  {
    forall i, j :: 0 <= i < j < |xs| ==> xs[i].priority >= xs[j].priority
  }

  /** The elements of `xs` whose priority is `p`, in order. */
  function WithPriority(xs: seq<Runnable>, p: int): seq<Runnable>
  {
    if xs == [] then []
    else (if xs[0].priority == p then [xs[0]] else []) + WithPriority(xs[1..], p)
  }

  function InsertByPriority(x: Runnable, ys: seq<Runnable>): (r: seq<Runnable>)
    requires SortedByPriority(ys)
    ensures SortedByPriority(r)
    ensures |r| == |ys| + 1
    ensures r[0] == x || (ys != [] && r[0] == ys[0])
    ensures forall p :: WithPriority(r, p) == (if x.priority == p then [x] else []) + WithPriority(ys, p)
  {
    if ys == [] || ys[0].priority <= x.priority then [x] + ys
    else [ys[0]] + InsertByPriority(x, ys[1..])
  }

  /** Sorting keeps every priority class in its original order, so equal
      priorities run in discovery order. */
  function SortByPriority(xs: seq<Runnable>): (r: seq<Runnable>)
    ensures SortedByPriority(r)
    ensures |r| == |xs|
    ensures forall p :: WithPriority(r, p) == WithPriority(xs, p)
  {
    if xs == [] then [] else InsertByPriority(xs[0], SortByPriority(xs[1..]))
  }

  // ---------------------------------------------------------------------
  // the whole of scan_tasks after discovery

  function Scan(classes: seq<TaskClass>, config: map<string, Value>): Result<ScanResult, ScanError>
  {
    if "tasks" !in config || !config["tasks"].VMap? then Failure(TasksSectionNotAMapping)
    else
      var flagged :- CheckFlags(Available(classes), config["tasks"].m);
      var acc :- EnableAll(flagged, config);
      Success(ScanResult(SortByPriority(acc.runnable), acc.affected, acc.config))
  }

  // ---------------------------------------------------------------------
  // a failure in a prefix is the failure of the whole fold

  lemma {:induction false} CheckFlagsPrefixFailure(avail: seq<NamedTask>, section: map<string, Value>, n: nat)
    requires n <= |avail|
    requires CheckFlags(avail[..n], section).Failure?
    ensures CheckFlags(avail, section) == CheckFlags(avail[..n], section)
    decreases |avail| - n
  {
    if n < |avail| {
      assert avail[..|avail| - 1][..n] == avail[..n];
      CheckFlagsPrefixFailure(avail[..|avail| - 1], section, n);
    } else {
      assert avail[..n] == avail;
    }
  }

  lemma {:induction false} AddAffectedPrefixFailure(acc: seq<string>, task: string, files: seq<string>, n: nat)
    requires n <= |files|
    requires AddAffected(acc, task, files[..n]).Failure?
    ensures AddAffected(acc, task, files) == AddAffected(acc, task, files[..n])
    decreases |files| - n
  {
    if n < |files| {
      assert files[..|files| - 1][..n] == files[..n];
      AddAffectedPrefixFailure(acc, task, files[..|files| - 1], n);
    } else {
      assert files[..n] == files;
    }
  }

  lemma {:induction false} EnableAllPrefixFailure(flagged: seq<Flagged>, config: map<string, Value>, n: nat)
    requires n <= |flagged|
    requires EnableAll(flagged[..n], config).Failure?
    ensures EnableAll(flagged, config) == EnableAll(flagged[..n], config)
    decreases |flagged| - n
  {
    if n < |flagged| {
      assert flagged[..|flagged| - 1][..n] == flagged[..n];
      EnableAllPrefixFailure(flagged[..|flagged| - 1], config, n);
    } else {
      assert flagged[..n] == flagged;
    }
  }

  /** The loop that fills `available_tasks`. */
  method CollectAvailable(classes: seq<TaskClass>) returns (available: seq<NamedTask>)
    ensures available == Available(classes)
  {
    available := [];
    var i := 0;
    while i < |classes|
      invariant 0 <= i <= |classes|
      invariant available == Available(classes[..i])
    {
      var c := classes[i];
      assert classes[..i + 1][..i] == classes[..i];
      match DeriveName(c.className) {
        case Some(name) => available := DictPut(available, name, c);
        case None =>
      }
      i := i + 1;
    }
    assert classes[..i] == classes;
  }

  /** The loop that fills `new_tasks`, exiting at the first non-boolean flag. */
  method CollectFlags(available: seq<NamedTask>, section: map<string, Value>) returns (r: Result<seq<Flagged>, ScanError>)
    ensures r == CheckFlags(available, section)
  {
    var newTasks: seq<Flagged> := [];
    var i := 0;
    while i < |available|
      invariant 0 <= i <= |available|
      invariant CheckFlags(available[..i], section) == Success(newTasks)
    {
      var t := available[i];
      assert available[..i + 1][..i] == available[..i];
      var v := FlagValue(section, t.name);
      if !v.VBool? {
        CheckFlagsPrefixFailure(available, section, i + 1);
        return Failure(NonBooleanFlag(t.name, v));
      }
      newTasks := newTasks + [Flagged(t.name, v.b, t.cls)];
      i := i + 1;
    }
    assert available[..i] == available;
    r := Success(newTasks);
  }

  /** The inner loop over one task's `AFFECTED_FILES`. */
  method AppendAffected(acc: seq<string>, task: string, files: seq<string>) returns (r: Result<seq<string>, ScanError>)
    ensures r == AddAffected(acc, task, files)
  {
    var affected := acc;
    var j := 0;
    while j < |files|
      invariant 0 <= j <= |files|
      invariant AddAffected(acc, task, files[..j]) == Success(affected)
    {
      assert files[..j + 1][..j] == files[..j];
      if files[j] in affected {
        AddAffectedPrefixFailure(acc, task, files, j + 1);
        return Failure(DuplicateAffectedFile(task, files[j]));
      }
      affected := affected + [files[j]];
      j := j + 1;
    }
    assert files[..j] == files;
    r := Success(affected);
  }

  /** The loop over `new_tasks` that validates sections and collects the
      runnable tasks and their affected files. */
  method EnableTasks(newTasks: seq<Flagged>, config: map<string, Value>) returns (r: Result<ScanResult, ScanError>)
    ensures r == EnableAll(newTasks, config)
  {
    var acc := ScanResult([], [], config);
    var i := 0;
    while i < |newTasks|
      invariant 0 <= i <= |newTasks|
      invariant EnableAll(newTasks[..i], config) == Success(acc)
    {
      var f := newTasks[i];
      assert newTasks[..i + 1][..i] == newTasks[..i];
      if f.enabled {
        var cfg := acc.config;
        match f.cls.validate {
          case Some(validate) =>
            var section := if f.name in cfg then cfg[f.name] else VMap(map[]);
            var validated := validate(section);
            if validated.Failure? {
              EnableAllPrefixFailure(newTasks, config, i + 1);
              return Failure(ValidationFailed(f.name, validated.error));
            }
            cfg := cfg[f.name := validated.value];
          case None =>
        }
        var affected := AppendAffected(acc.affected, f.name, AffectedOf(f.cls));
        if affected.Failure? {
          EnableAllPrefixFailure(newTasks, config, i + 1);
          return Failure(affected.error);
        }
        acc := ScanResult(acc.runnable + [Runnable(f.name, f.cls, PriorityOf(f.cls))], affected.value, cfg);
      }
      i := i + 1;
    }
    assert newTasks[..i] == newTasks;
    r := Success(acc);
  }

  /** `scan_tasks` after discovery: the three loops, then the stable sort. */
  method ScanTasks(classes: seq<TaskClass>, config: map<string, Value>) returns (r: Result<ScanResult, ScanError>)
    ensures r == Scan(classes, config)
  {
    var available := CollectAvailable(classes);
    if "tasks" !in config || !config["tasks"].VMap? {
      return Failure(TasksSectionNotAMapping);
    }
    var flagged := CollectFlags(available, config["tasks"].m);
    if flagged.Failure? {
      return Failure(flagged.error);
    }
    var acc := EnableTasks(flagged.value, config);
    if acc.Failure? {
      return Failure(acc.error);
    }
    r := Success(ScanResult(SortByPriority(acc.value.runnable), acc.value.affected, acc.value.config));
  }
}
