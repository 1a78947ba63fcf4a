/** What `scan_tasks` promises, proved about the `Scan` specification. */
module RegistryProperties {
  import opened Wrappers
  import opened Config
  import opened TaskName
  import opened Registry

  // ---------------------------------------------------------------------
  // available_tasks

  /** Index of the last discovered class whose derived name is `name`, or -1. */
  function LastNamed(classes: seq<TaskClass>, name: string): (j: int)
    ensures -1 <= j < |classes|
    ensures j >= 0 ==> DeriveName(classes[j].className) == Some(name)
  {
    if classes == [] then -1
    else if DeriveName(classes[|classes| - 1].className) == Some(name) then |classes| - 1
    else LastNamed(classes[..|classes| - 1], name)
  }

  predicate DistinctNames(d: seq<NamedTask>)
  {
    forall i, j :: 0 <= i < j < |d| ==> d[i].name != d[j].name
  }

  lemma DictPutOther(d: seq<NamedTask>, name: string, cls: TaskClass, other: string)
    requires other != name
    ensures IndexOfName(DictPut(d, name, cls), other) == IndexOfName(d, other)
  {
    var i := IndexOfName(d, name);
    if i < 0 {
      assert (d + [NamedTask(name, cls)])[..|d|] == d;
    } else {
      DictPutOtherReplace(d, i, NamedTask(name, cls), other);
    }
  }

  lemma {:induction false} DictPutOtherReplace(d: seq<NamedTask>, i: int, e: NamedTask, other: string)
    requires 0 <= i < |d| && d[i].name == e.name && other != e.name
    ensures IndexOfName(d[i := e], other) == IndexOfName(d, other)
  {
    if d != [] {
      var last := |d| - 1;
      if i < last {
        assert d[i := e][..last] == d[..last][i := e];
        DictPutOtherReplace(d[..last], i, e, other);
      } else {
        assert d[i := e][..last] == d[..last];
      }
    }
  }

  lemma DictPutSame(d: seq<NamedTask>, name: string, cls: TaskClass)
    requires DistinctNames(d)
    ensures IndexOfName(DictPut(d, name, cls), name) >= 0
    ensures DictPut(d, name, cls)[IndexOfName(DictPut(d, name, cls), name)].cls == cls
  {
    var i := IndexOfName(d, name);
    var d' := DictPut(d, name, cls);
    if i < 0 {
      assert d'[|d'| - 1].name == name;
    } else {
      assert d'[i].name == name;
    }
  }

  lemma DictPutKeepsDistinct(d: seq<NamedTask>, name: string, cls: TaskClass)
    requires DistinctNames(d)
    ensures DistinctNames(DictPut(d, name, cls))
  {
  }

  /** Task names are unique, and each name holds the LAST discovered class
      with that derived name; a name is present iff some class derives it. */
  lemma {:induction false} AvailableLastClassWins(classes: seq<TaskClass>, name: string)
    ensures DistinctNames(Available(classes))
    ensures IndexOfName(Available(classes), name) >= 0 <==> LastNamed(classes, name) >= 0
    ensures IndexOfName(Available(classes), name) >= 0 ==>
      Available(classes)[IndexOfName(Available(classes), name)].cls == classes[LastNamed(classes, name)]
  {
    if classes != [] {
      var init := classes[..|classes| - 1];
      var c := classes[|classes| - 1];
      AvailableLastClassWins(init, name);
      match DeriveName(c.className) {
        case None =>
        case Some(m) =>
          DictPutKeepsDistinct(Available(init), m, c);
          if m == name {
            DictPutSame(Available(init), m, c);
          } else {
            DictPutOther(Available(init), m, c, name);
          }
      }
    }
  }

  // ---------------------------------------------------------------------
  // flags

  /** The tasks whose flag is exactly `True`, in dictionary order, with their
      priority (0 when the class defines none). */
  function EnabledTasks(avail: seq<NamedTask>, section: map<string, Value>): seq<Runnable>
  {
    if avail == [] then []
    else
      var t := avail[|avail| - 1];
      EnabledTasks(avail[..|avail| - 1], section)
        + (if FlagValue(section, t.name) == VBool(true) then [Runnable(t.name, t.cls, PriorityOf(t.cls))] else [])
  }

  function EnabledRunnables(flagged: seq<Flagged>): seq<Runnable>
  {
    if flagged == [] then []
    else
      var f := flagged[|flagged| - 1];
      EnabledRunnables(flagged[..|flagged| - 1])
        + (if f.enabled then [Runnable(f.name, f.cls, PriorityOf(f.cls))] else [])
  }

  predicate AllFlagsBoolean(avail: seq<NamedTask>, section: map<string, Value>)
  {
    forall k :: 0 <= k < |avail| ==> FlagValue(section, avail[k].name).VBool?
  }

  /** The flag check succeeds exactly when every available task's flag is a
      boolean or absent. */
  lemma {:induction false} FlagsSucceedIffBoolean(avail: seq<NamedTask>, section: map<string, Value>)
    ensures CheckFlags(avail, section).Success? <==> AllFlagsBoolean(avail, section)
  {
    if avail != [] {
      var init := avail[..|avail| - 1];
      var last := FlagValue(section, avail[|avail| - 1].name);
      FlagsSucceedIffBoolean(init, section);
      if AllFlagsBoolean(avail, section) {
        forall k | 0 <= k < |init| ensures FlagValue(section, init[k].name).VBool? {
          assert init[k] == avail[k];
        }
      } else if AllFlagsBoolean(init, section) && last.VBool? {
        forall k | 0 <= k < |avail| ensures FlagValue(section, avail[k].name).VBool? {
          if k < |init| { assert init[k] == avail[k]; }
        }
      }
    }
  }

  /** On success the flagged list follows the available tasks one for one. */
  lemma {:induction false} FlagsFollowAvailable(avail: seq<NamedTask>, section: map<string, Value>)
    requires CheckFlags(avail, section).Success?
    ensures var fl := CheckFlags(avail, section).value;
      && |fl| == |avail|
      && (forall k :: 0 <= k < |avail| ==> fl[k].name == avail[k].name)
  {
    if avail != [] {
      var init := avail[..|avail| - 1];
      var t := avail[|avail| - 1];
      FlagsFollowAvailable(init, section);
      var prev := CheckFlags(init, section).value;
      var fl := prev + [Flagged(t.name, FlagValue(section, t.name).b, t.cls)];
      assert CheckFlags(avail, section) == Success(fl);
      forall k | 0 <= k < |avail| ensures fl[k].name == avail[k].name {
        if k < |init| {
          assert fl[k] == prev[k];
          assert avail[k] == init[k];
        }
      }
    }
  }

  /** On success the enabled tasks are exactly those flagged `True`. */
  lemma {:induction false} FlagsEnableTrueOnly(avail: seq<NamedTask>, section: map<string, Value>)
    requires CheckFlags(avail, section).Success?
    ensures EnabledRunnables(CheckFlags(avail, section).value) == EnabledTasks(avail, section)
  {
    if avail != [] {
      var init := avail[..|avail| - 1];
      var t := avail[|avail| - 1];
      var v := FlagValue(section, t.name);
      FlagsEnableTrueOnly(init, section);
      var prev := CheckFlags(init, section).value;
      var fl := prev + [Flagged(t.name, v.b, t.cls)];
      assert CheckFlags(avail, section) == Success(fl);
      assert fl[..|fl| - 1] == prev;
    }
  }

  /** Both of the above. */
  lemma FlagsOnSuccess(avail: seq<NamedTask>, section: map<string, Value>)
    requires CheckFlags(avail, section).Success?
    ensures var fl := CheckFlags(avail, section).value;
      && |fl| == |avail|
      && (forall k :: 0 <= k < |avail| ==> fl[k].name == avail[k].name)
      && EnabledRunnables(fl) == EnabledTasks(avail, section)
  {
    FlagsFollowAvailable(avail, section);
    FlagsEnableTrueOnly(avail, section);
  }

  /** The first available task whose flag is not a boolean aborts the scan,
      and the error names that task and value. */
  lemma FirstNonBooleanFlagAborts(avail: seq<NamedTask>, section: map<string, Value>, k: nat)
    requires k < |avail|
    requires !FlagValue(section, avail[k].name).VBool?
    requires AllFlagsBoolean(avail[..k], section)
    ensures CheckFlags(avail, section) == Failure(NonBooleanFlag(avail[k].name, FlagValue(section, avail[k].name)))
  {
    FlagsSucceedIffBoolean(avail[..k], section);
    assert avail[..k + 1][..k] == avail[..k];
    CheckFlagsPrefixFailure(avail, section, k + 1);
  }

  // ---------------------------------------------------------------------
  // affected files

  predicate NoDuplicates(s: seq<string>)
  {
    forall i, j :: 0 <= i < j < |s| ==> s[i] != s[j]
  }

  function ConcatAffected(rs: seq<Runnable>): seq<string>
  {
    if rs == [] then [] else ConcatAffected(rs[..|rs| - 1]) + AffectedOf(rs[|rs| - 1].cls)
  }

  /** Adding a task's files succeeds exactly when no file repeats, and then
      appends them in order. */
  lemma {:induction false} AddAffectedMeaning(acc: seq<string>, task: string, files: seq<string>)
    requires NoDuplicates(acc)
    ensures AddAffected(acc, task, files).Success? <==> NoDuplicates(acc + files)
    ensures AddAffected(acc, task, files).Success? ==> AddAffected(acc, task, files).value == acc + files
  {
    if files != [] {
      var init := files[..|files| - 1];
      var file := files[|files| - 1];
      AddAffectedMeaning(acc, task, init);
      assert acc + files == (acc + init) + [file];
      if AddAffected(acc, task, init).Success? {
        if file in acc + init {
          var i :| 0 <= i < |acc + init| && (acc + init)[i] == file;
          assert (acc + files)[i] == (acc + files)[|acc + files| - 1];
        }
      } else {
        assert !NoDuplicates(acc + init);
        var i, j :| 0 <= i < j < |acc + init| && (acc + init)[i] == (acc + init)[j];
        assert (acc + files)[i] == (acc + files)[j];
      }
    }
  }

  /** Enabling keeps exactly the enabled tasks, in order, and the affected
      list is their files concatenated, with no path twice. */
  lemma {:induction false} EnableAllMeaning(flagged: seq<Flagged>, config: map<string, Value>)
    ensures EnableAll(flagged, config).Success? ==>
      var acc := EnableAll(flagged, config).value;
      && acc.runnable == EnabledRunnables(flagged)
      && acc.affected == ConcatAffected(EnabledRunnables(flagged))
      && NoDuplicates(acc.affected)
  {
    if flagged != [] && EnableAll(flagged, config).Success? {
      var init := flagged[..|flagged| - 1];
      var f := flagged[|flagged| - 1];
      EnableAllMeaning(init, config);
      var acc := EnableAll(init, config).value;
      if f.enabled {
        AddAffectedMeaning(acc.affected, f.name, AffectedOf(f.cls));
        var rs := EnabledRunnables(flagged);
        assert rs[..|rs| - 1] == EnabledRunnables(init);
      }
    }
  }

  // ---------------------------------------------------------------------
  // the whole scan

  /** A successful scan runs exactly the tasks flagged `True`, sorted by
      non-increasing priority with ties in discovery order, and returns their
      affected files concatenated without repetition. */
  lemma ScanRunsEnabledTasksInPriorityOrder(classes: seq<TaskClass>, config: map<string, Value>)
    requires Scan(classes, config).Success?
    ensures "tasks" in config && config["tasks"].VMap?
    ensures var res := Scan(classes, config).value;
      var enabled := EnabledTasks(Available(classes), config["tasks"].m);
      && SortedByPriority(res.runnable)
      && (forall p :: WithPriority(res.runnable, p) == WithPriority(enabled, p))
      && res.affected == ConcatAffected(enabled)
      && NoDuplicates(res.affected)
  {
    var section := config["tasks"].m;
    FlagsOnSuccess(Available(classes), section);
    var fl := CheckFlags(Available(classes), section).value;
    EnableAllMeaning(fl, config);
  }

  /** Any repeated affected path among the enabled tasks aborts the scan. */
  lemma RepeatedAffectedFileAborts(classes: seq<TaskClass>, config: map<string, Value>)
    requires "tasks" in config && config["tasks"].VMap?
    requires !NoDuplicates(ConcatAffected(EnabledTasks(Available(classes), config["tasks"].m)))
    ensures Scan(classes, config).Failure?
  {
    if Scan(classes, config).Success? {
      ScanRunsEnabledTasksInPriorityOrder(classes, config);
    }
  }

  /** The scan aborts on flags exactly as the flag check does: the first
      non-boolean flag in dictionary order is the one reported. */
  lemma ScanRejectsFirstNonBooleanFlag(classes: seq<TaskClass>, config: map<string, Value>, k: nat)
    requires "tasks" in config && config["tasks"].VMap?
    requires k < |Available(classes)|
    requires !FlagValue(config["tasks"].m, Available(classes)[k].name).VBool?
    requires AllFlagsBoolean(Available(classes)[..k], config["tasks"].m)
    ensures Scan(classes, config)
      == Failure(NonBooleanFlag(Available(classes)[k].name, FlagValue(config["tasks"].m, Available(classes)[k].name)))
  {
    FirstNonBooleanFlagAborts(Available(classes), config["tasks"].m, k);
  }

  // ---------------------------------------------------------------------
  // validated configuration sections

  predicate DistinctRunNames(rs: seq<Runnable>)
  {
    forall i, j :: 0 <= i < j < |rs| ==> rs[i].name != rs[j].name
  }

  function SectionOf(config: map<string, Value>, name: string): Value
  {
    if name in config then config[name] else VMap(map[])
  }

  /** The validation hook of the enabled task named `key`, if it has one. */
  function ValidatorFor(rs: seq<Runnable>, key: string): Option<Value -> Result<Value, string>>
  {
    if rs == [] then None
    else
      var r := rs[|rs| - 1];
      if r.name == key && r.cls.validate.Some? then r.cls.validate else ValidatorFor(rs[..|rs| - 1], key)
  }

  lemma {:induction false} ValidatorForAbsent(rs: seq<Runnable>, key: string)
    requires forall k :: 0 <= k < |rs| ==> rs[k].name != key
    ensures ValidatorFor(rs, key) == None
  {
    if rs != [] {
      ValidatorForAbsent(rs[..|rs| - 1], key);
    }
  }

  lemma {:induction false} EnabledTasksNamesFrom(avail: seq<NamedTask>, section: map<string, Value>, n: string)
    requires forall k :: 0 <= k < |avail| ==> avail[k].name != n
    ensures forall k :: 0 <= k < |EnabledTasks(avail, section)| ==> EnabledTasks(avail, section)[k].name != n
  {
    if avail != [] {
      var init := avail[..|avail| - 1];
      forall k | 0 <= k < |init| ensures init[k].name != n {
        assert init[k] == avail[k];
      }
      EnabledTasksNamesFrom(init, section, n);
      var t := avail[|avail| - 1];
      var e := EnabledTasks(avail, section);
      var ei := EnabledTasks(init, section);
      assert e == ei + (if FlagValue(section, t.name) == VBool(true) then [Runnable(t.name, t.cls, PriorityOf(t.cls))] else []);
      assert t.name != n;
      forall k | 0 <= k < |e| ensures e[k].name != n {
        if k < |ei| {
          assert e[k] == ei[k];
          assert ei[k].name != n;
        } else {
          assert e[k].name == t.name;
        }
      }
    }
  }

  lemma {:induction false} EnabledTasksDistinct(avail: seq<NamedTask>, section: map<string, Value>)
    requires DistinctNames(avail)
    ensures DistinctRunNames(EnabledTasks(avail, section))
  {
    if avail != [] {
      var init := avail[..|avail| - 1];
      var t := avail[|avail| - 1];
      forall i, j | 0 <= i < j < |init| ensures init[i].name != init[j].name {
        assert init[i] == avail[i] && init[j] == avail[j];
      }
      forall k | 0 <= k < |init| ensures init[k].name != t.name {
        assert init[k] == avail[k];
      }
      EnabledTasksDistinct(init, section);
      EnabledTasksNamesFrom(init, section, t.name);
      var e := EnabledTasks(avail, section);
      var ei := EnabledTasks(init, section);
      assert e == ei + (if FlagValue(section, t.name) == VBool(true) then [Runnable(t.name, t.cls, PriorityOf(t.cls))] else []);
      forall i, j | 0 <= i < j < |e| ensures e[i].name != e[j].name {
        assert e[i] == ei[i];
        if j < |ei| {
          assert e[j] == ei[j];
        } else {
          assert e[j].name == t.name;
          assert ei[i].name != t.name;
        }
      }
    }
  }

  /** Each enabled task's `validate_config` receives the section stored under
      its name in the ORIGINAL configuration (an empty mapping when absent),
      and its result replaces that section; every other key is untouched. */
  lemma {:induction false} EnableAllStoresValidated(flagged: seq<Flagged>, config: map<string, Value>, key: string)
    requires EnableAll(flagged, config).Success?
    requires DistinctRunNames(EnabledRunnables(flagged))
    ensures var out := EnableAll(flagged, config).value.config;
      match ValidatorFor(EnabledRunnables(flagged), key)
      case None => (key in out <==> key in config) && (key in config ==> out[key] == config[key])
      case Some(validate) => key in out && validate(SectionOf(config, key)) == Success(out[key])
  {
    if flagged != [] {
      var init := flagged[..|flagged| - 1];
      var f := flagged[|flagged| - 1];
      var rs := EnabledRunnables(flagged);
      var rsInit := EnabledRunnables(init);
      var acc := EnableAll(init, config).value;
      var out := EnableAll(flagged, config).value.config;
      if !f.enabled {
        assert rs == rsInit;
        assert out == acc.config;
        EnableAllStoresValidated(init, config, key);
      } else {
        assert rs == rsInit + [Runnable(f.name, f.cls, PriorityOf(f.cls))];
        assert DistinctRunNames(rsInit) by {
          forall i, j | 0 <= i < j < |rsInit| ensures rsInit[i].name != rsInit[j].name {
            assert rs[i] == rsInit[i] && rs[j] == rsInit[j];
          }
        }
        EnableAllStoresValidated(init, config, key);
        assert out == ValidateSection(acc.config, f).value;
        match f.cls.validate {
          case None =>
            assert ValidatorFor(rs, key) == ValidatorFor(rsInit, key);
          case Some(validate) =>
            if f.name == key {
              forall k | 0 <= k < |rsInit| ensures rsInit[k].name != key {
                assert rs[k] == rsInit[k];
                assert rs[|rs| - 1].name == key;
              }
              ValidatorForAbsent(rsInit, key);
              assert SectionOf(acc.config, key) == SectionOf(config, key);
              assert ValidatorFor(rs, key) == Some(validate);
            } else {
              assert ValidatorFor(rs, key) == ValidatorFor(rsInit, key);
            }
        }
      }
    }
  }

  /** A successful scan stores each enabled task's validated section under the
      task's name, computed from the section it was given. */
  lemma ScanStoresValidatedSections(classes: seq<TaskClass>, config: map<string, Value>, key: string)
    requires Scan(classes, config).Success?
    ensures "tasks" in config && config["tasks"].VMap?
    ensures var out := Scan(classes, config).value.config;
      match ValidatorFor(EnabledTasks(Available(classes), config["tasks"].m), key)
      case None => (key in out <==> key in config) && (key in config ==> out[key] == config[key])
      case Some(validate) => key in out && validate(SectionOf(config, key)) == Success(out[key])
  {
    var section := config["tasks"].m;
    AvailableLastClassWins(classes, key);
    FlagsOnSuccess(Available(classes), section);
    EnabledTasksDistinct(Available(classes), section);
    var fl := CheckFlags(Available(classes), section).value;
    EnableAllStoresValidated(fl, config, key);
  }
}
