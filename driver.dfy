/** The driver around the task pipeline in renconstruct.py: the defaults
    `validate_config` fills into the loaded configuration, and the
    unique-prefix command lookup of the command-line group. */
module Driver {
  import opened Wrappers
  import opened Config
  import opened Paths

  // ---------------------------------------------------------------------
  // validate_config

  /** The section `name` as `validate_config` finds it: absent or `None`
      reads as an empty mapping, a non-mapping has no `.get` and is `None`
      here. */
  function Given(config: map<string, Value>, name: string): Option<map<string, Value>>
  {
    if MissingOrNone(config, name) then Some(map[])
    else if config[name].VMap? then Some(config[name].m)
    else None
  }

  /** `if d.get(key, None) is None: d[key] = v`. */
  function Fill(d: map<string, Value>, key: string, v: Value): map<string, Value>
  {
    if MissingOrNone(d, key) then d[key := v] else d
  }

  /** `after` holds `key`, with `v` where `before` had it missing or `None`
      and the old value otherwise. */
  predicate Defaulted(before: map<string, Value>, after: map<string, Value>, key: string, v: Value)
  {
    key in after && after[key] == (if MissingOrNone(before, key) then v else before[key])
  }

  /** `after` adds exactly `added` to the keys of `before` and keeps the
      value of every other key. */
  predicate KeepsOthers(before: map<string, Value>, after: map<string, Value>, added: set<string>)
  {
    && after.Keys == before.Keys + added
    && forall k :: k in before && k !in added ==> after[k] == before[k]
  }

  /** The build section after `validate_config`: `pc`, `mac` and `android`
      default to True. */
  predicate BuildDefaults(before: map<string, Value>, after: map<string, Value>)
  {
    && KeepsOthers(before, after, {"pc", "mac", "android"})
    && Defaulted(before, after, "pc", VBool(true))
    && Defaulted(before, after, "mac", VBool(true))
    && Defaulted(before, after, "android", VBool(true))
  }

  /** The renutil section after `validate_config`: `version` defaults to
      "latest" and `registry` to None. */
  predicate RenutilDefaults(before: map<string, Value>, after: map<string, Value>)
  {
    && KeepsOthers(before, after, {"version", "registry"})
    && Defaulted(before, after, "version", VStr("latest"))
    && Defaulted(before, after, "registry", VNone)
  }

  /** The tasks section after `validate_config`: `path` defaults to None,
      and a given path is user-expanded. */
  predicate TasksDefaults(before: map<string, Value>, after: map<string, Value>, expandUser: string -> string)
  {
    && KeepsOthers(before, after, {"path"})
    && after["path"] ==
      (if MissingOrNone(before, "path") then VNone
       else if before["path"].VStr? then VStr(expandUser(before["path"].s))
       else before["path"])
  }

  function BuildSection(config: map<string, Value>): (r: Result<map<string, Value>, string>)
    ensures r.Success? <==> Given(config, "build").Some?
    ensures r.Success? ==> BuildDefaults(Given(config, "build").value, r.value)
  {
    var b := if MissingOrNone(config, "build")
      then VMap(map["pc" := VBool(true), "mac" := VBool(true), "android" := VBool(true)])
      else config["build"];
    if !b.VMap? then Failure("AttributeError: 'build' has no attribute 'get'")
    else Success(Fill(Fill(Fill(b.m, "pc", VBool(true)), "mac", VBool(true)), "android", VBool(true)))
  }

  function RenutilSection(config: map<string, Value>): (r: Result<map<string, Value>, string>)
    ensures r.Success? <==> Given(config, "renutil").Some?
    ensures r.Success? ==> RenutilDefaults(Given(config, "renutil").value, r.value)
  {
    var u := if MissingOrNone(config, "renutil") then VMap(map["version" := VStr("latest")]) else config["renutil"];
    if !u.VMap? then Failure("AttributeError: 'renutil' has no attribute 'get'")
    else Success(Fill(Fill(u.m, "version", VStr("latest")), "registry", VNone))
  }

  function TasksSection(config: map<string, Value>, expandUser: string -> string): (r: Result<map<string, Value>, string>)
    ensures r.Success? <==>
      Given(config, "tasks").Some? &&
      (MissingOrNone(Given(config, "tasks").value, "path") || Given(config, "tasks").value["path"].VStr?)
    ensures r.Success? ==> TasksDefaults(Given(config, "tasks").value, r.value, expandUser)
  {
    var t := if MissingOrNone(config, "tasks") then VMap(map["path" := VNone]) else config["tasks"];
    if !t.VMap? then Failure("AttributeError: 'tasks' has no attribute 'get'")
    else
      var filled := Fill(t.m, "path", VNone);
      if filled["path"] == VNone then Success(filled)
      else if filled["path"].VStr? then Success(filled["path" := VStr(expandUser(filled["path"].s))])
      else Failure("TypeError: expected str, bytes or os.PathLike object")
  }

  /** `validate_config(config)`, with `os.path.expanduser` as a parameter.
      Every section is a mapping afterwards, every missing or `None` default
      is filled, no other value changes except that a task path is
      user-expanded; a section that is not a mapping raises, and so does,
      in this model, a task path that is not a string (a bytes path is not
      modelled and is refused here). */
  function ValidateConfig(config: map<string, Value>, expandUser: string -> string): (r: Result<map<string, Value>, string>)
    ensures r.Success? <==>
      && Given(config, "build").Some? && Given(config, "renutil").Some? && Given(config, "tasks").Some?
      && (MissingOrNone(Given(config, "tasks").value, "path") || Given(config, "tasks").value["path"].VStr?)
    ensures r.Success? ==>
      && KeepsOthers(config, r.value, {"build", "renutil", "tasks"})
      && r.value["build"].VMap? && r.value["renutil"].VMap? && r.value["tasks"].VMap?
      && BuildDefaults(Given(config, "build").value, r.value["build"].m)
      && RenutilDefaults(Given(config, "renutil").value, r.value["renutil"].m)
      && TasksDefaults(Given(config, "tasks").value, r.value["tasks"].m, expandUser)
  {
    var build :- BuildSection(config);
    var renutil :- RenutilSection(config);
    var tasks :- TasksSection(config, expandUser);
    StoreSections(config, build, renutil, tasks);
    Success(WithSections(config, build, renutil, tasks))
  }

  /** `config` with its three sections replaced. */
  function WithSections(config: map<string, Value>, build: map<string, Value>, renutil: map<string, Value>, tasks: map<string, Value>): map<string, Value>
  {
    config["build" := VMap(build)]["renutil" := VMap(renutil)]["tasks" := VMap(tasks)]
  }

  lemma StoreSections(config: map<string, Value>, build: map<string, Value>, renutil: map<string, Value>, tasks: map<string, Value>)
    ensures var r := WithSections(config, build, renutil, tasks);
      && KeepsOthers(config, r, {"build", "renutil", "tasks"})
      && r["build"] == VMap(build) && r["renutil"] == VMap(renutil) && r["tasks"] == VMap(tasks)
  {
  }

  /** Storing the sections a configuration already holds changes nothing. */
  lemma StoreSameSections(config: map<string, Value>)
    requires "build" in config && config["build"].VMap?
    requires "renutil" in config && config["renutil"].VMap?
    requires "tasks" in config && config["tasks"].VMap?
    ensures WithSections(config, config["build"].m, config["renutil"].m, config["tasks"].m) == config
  {
    var r := WithSections(config, config["build"].m, config["renutil"].m, config["tasks"].m);
    StoreSections(config, config["build"].m, config["renutil"].m, config["tasks"].m);
    assert r.Keys == config.Keys;
  }

  /** The configuration `validate_config` makes of an empty file. */
  const DefaultConfig: map<string, Value> := map[
    "build" := VMap(map["pc" := VBool(true), "mac" := VBool(true), "android" := VBool(true)]),
    "renutil" := VMap(map["version" := VStr("latest"), "registry" := VNone]),
    "tasks" := VMap(map["path" := VNone])]

  lemma EmptyConfigGetsDefaults(expandUser: string -> string)
    ensures ValidateConfig(map[], expandUser) == Success(DefaultConfig)
  {
    EmptyBuild();
    EmptyRenutil();
    EmptyTasks(expandUser);
    assert WithSections(map[], DefaultConfig["build"].m, DefaultConfig["renutil"].m, DefaultConfig["tasks"].m) == DefaultConfig;
  }

  lemma EmptyBuild()
    ensures BuildSection(map[]) == Success(DefaultConfig["build"].m)
  {
    var b := DefaultConfig["build"].m;
    assert Fill(b, "pc", VBool(true)) == b;
    assert Fill(b, "mac", VBool(true)) == b;
    assert Fill(b, "android", VBool(true)) == b;
  }

  lemma EmptyRenutil()
    ensures RenutilSection(map[]) == Success(DefaultConfig["renutil"].m)
  {
    var v := map["version" := VStr("latest")];
    assert Fill(v, "version", VStr("latest")) == v;
    assert Fill(v, "registry", VNone) == DefaultConfig["renutil"].m;
  }

  lemma EmptyTasks(expandUser: string -> string)
    ensures TasksSection(map[], expandUser) == Success(DefaultConfig["tasks"].m)
  {
    var t := DefaultConfig["tasks"].m;
    assert Fill(t, "path", VNone) == t;
  }

  lemma BuildIdempotent(config: map<string, Value>, again: map<string, Value>)
    requires BuildSection(config).Success?
    requires "build" in again && again["build"] == VMap(BuildSection(config).value)
    ensures BuildSection(again) == BuildSection(config)
  {
    var b := BuildSection(config).value;
    var b2 := BuildSection(again).value;
    assert b2.Keys == b.Keys;
    assert b2 == b;
  }

  lemma RenutilIdempotent(config: map<string, Value>, again: map<string, Value>)
    requires RenutilSection(config).Success?
    requires "renutil" in again && again["renutil"] == VMap(RenutilSection(config).value)
    ensures RenutilSection(again) == RenutilSection(config)
  {
    var u := RenutilSection(config).value;
    var u2 := RenutilSection(again).value;
    assert u2.Keys == u.Keys;
    assert u2 == u;
  }

  lemma TasksIdempotent(config: map<string, Value>, again: map<string, Value>, expandUser: string -> string)
    requires forall s :: expandUser(expandUser(s)) == expandUser(s)
    requires TasksSection(config, expandUser).Success?
    requires "tasks" in again && again["tasks"] == VMap(TasksSection(config, expandUser).value)
    ensures TasksSection(again, expandUser) == TasksSection(config, expandUser)
  {
    var t := TasksSection(config, expandUser).value;
    var t2 := TasksSection(again, expandUser).value;
    assert t2.Keys == t.Keys;
    assert t2 == t;
  }

  /** Running `validate_config` on its own result changes nothing when
      user expansion is idempotent. */
  lemma ValidateConfigIdempotent(config: map<string, Value>, expandUser: string -> string)
    requires forall s :: expandUser(expandUser(s)) == expandUser(s)
    requires ValidateConfig(config, expandUser).Success?
    ensures ValidateConfig(ValidateConfig(config, expandUser).value, expandUser) == ValidateConfig(config, expandUser)
  {
    var r := ValidateConfig(config, expandUser).value;
    var b := BuildSection(config).value;
    var u := RenutilSection(config).value;
    var t := TasksSection(config, expandUser).value;
    assert r == WithSections(config, b, u, t);
    StoreSections(config, b, u, t);
    BuildIdempotent(config, r);
    RenutilIdempotent(config, r);
    TasksIdempotent(config, r, expandUser);
    assert ValidateConfig(r, expandUser) == Success(WithSections(r, b, u, t));
    StoreSameSections(r);
  }

  // ---------------------------------------------------------------------
  // AliasedGroup.get_command

  datatype CommandLookup =
    | Found(command: string)
    | NoMatch
    | TooMany(matches: seq<string>)

  /** The commands, in listing order, whose name starts with `prefix`. */
  function Matching(commands: seq<string>, prefix: string): (ms: seq<string>)
    ensures forall c :: c in ms <==> c in commands && StartsWith(c, prefix)
    ensures |ms| <= |commands|
  {
    if commands == [] then []
    else
      var init := Matching(commands[..|commands| - 1], prefix);
      var last := commands[|commands| - 1];
      assert commands == commands[..|commands| - 1] + [last];
      if StartsWith(last, prefix) then init + [last] else init
  }

  /** `AliasedGroup.get_command(ctx, name)` over the group's command names
      in listing order: an exact name wins, else a unique prefix match;
      several matches fail the invocation. */
  function GetCommand(commands: seq<string>, name: string): (r: CommandLookup)
    ensures name in commands ==> r == Found(name)
    ensures r.Found? ==> r.command in commands && StartsWith(r.command, name)
    ensures r.Found? && r.command != name ==>
      name !in commands && forall c :: c in commands && StartsWith(c, name) ==> c == r.command
    ensures r.NoMatch? <==> forall c :: c in commands ==> !StartsWith(c, name)
    ensures r.TooMany? ==>
      && name !in commands
      && |r.matches| >= 2
      && forall c :: c in r.matches <==> c in commands && StartsWith(c, name)
  {
    if name in commands then Found(name)
    else
      var ms := Matching(commands, name);
      if ms == [] then NoMatch
      else
        assert ms[0] in ms;
        if |ms| == 1 then Found(ms[0])
        else TooMany(ms)
  }

  /** Command names are distinct, as the keys of the group's dictionary. */
  predicate Distinct(names: seq<string>)
  {
    forall i, j :: 0 <= i < j < |names| ==> names[i] != names[j]
  }

  /** A unique prefix resolves to its command, whatever the other commands. */
  lemma UniquePrefixResolves(commands: seq<string>, name: string, command: string)
    requires Distinct(commands)
    requires command in commands && StartsWith(command, name)
    requires forall c :: c in commands && StartsWith(c, name) ==> c == command
    ensures GetCommand(commands, name) == Found(command)
  {
    if name !in commands {
      var ms := Matching(commands, name);
      MatchingDistinct(commands, name);
      DistinctCard(ms);
      assert (set c | c in ms) == {command};
    }
  }

  lemma {:induction false} MatchingDistinct(commands: seq<string>, prefix: string)
    requires Distinct(commands)
    ensures Distinct(Matching(commands, prefix))
  {
    if commands != [] {
      var init := commands[..|commands| - 1];
      var last := commands[|commands| - 1];
      MatchingDistinct(init, prefix);
      assert last !in init;
      assert last !in Matching(init, prefix);
    }
  }

  lemma {:induction false} DistinctCard(s: seq<string>)
    requires Distinct(s)
    ensures |set c | c in s| == |s|
  {
    if s != [] {
      var init := s[..|s| - 1];
      var last := s[|s| - 1];
      DistinctCard(init);
      assert (set c | c in s) == (set c | c in init) + {last};
      assert last !in init;
    }
  }
}
