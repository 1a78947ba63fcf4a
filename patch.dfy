/** `PatchTask` in tasks/patch.py: validate the patch directory, then patch
    files of the Ren'Py installation with diff-match-patch patches, keeping a
    `.original` backup of each target and rolling the batch back when any
    patch fails. The diff-match-patch parser and applier are parameters. */
module Patch {
  import opened Wrappers
  import opened Files
  import opened Config
  import opened Paths

  /** Runs before every other task. */
  const Priority: int := 1000

  const BackupSuffix: string := ".original"

  // ---------------------------------------------------------------------
  // validate_config

  /** `PatchTask.validate_config(section)`. `resolve` stands for
      `os.path.abspath(os.path.expanduser(...))` and `isDir` for
      `os.path.isdir`. A section that is not a mapping has no `get`. A path
      that is neither a string nor bytes is refused by `expanduser`; a bytes
      path is not modelled and is refused here too. */
  function ValidatePatchConfig(section: Value, resolve: string -> string, isDir: string -> bool): (r: Result<Value, string>)
    ensures r.Success? <==>
      && section.VMap? && "path" in section.m && section.m["path"].VStr?
      && isDir(resolve(section.m["path"].s))
    ensures r.Success? ==>
      && r.value.VMap?
      && r.value.m.Keys == section.m.Keys
      && r.value.m["path"] == VStr(resolve(section.m["path"].s))
      && (forall k :: k in section.m && k != "path" ==> r.value.m[k] == section.m[k])
  {
    if !section.VMap? then Failure("'section' has no attribute 'get'")
    else if MissingOrNone(section.m, "path") then Failure("Field 'path' missing")
    else if !section.m["path"].VStr? then Failure("expected str for 'path'")
    else
      var path := resolve(section.m["path"].s);
      if !isDir(path) then Failure("Directory does not exist")
      else Success(VMap(section.m["path" := VStr(path)]))
  }

  // ---------------------------------------------------------------------
  // locations

  /** The file under the Ren'Py installation a patch applies to. */
  function Target(root: string, rel: string): string
  {
    Join(root, rel)
  }

  function Backup(root: string, rel: string): string
  {
    Target(root, rel) + BackupSuffix
  }

  function PatchFile(patchDir: string, rel: string): string
  {
    Join(patchDir, rel)
  }

  /** `patch_fromText` and `patch_apply`: `None` when they raise. The
      per-hunk success flags `patch_apply` also returns are ignored. */
  datatype Differ<!P> = Differ(parse: seq<byte> -> Option<P>, apply: (P, seq<byte>) -> Option<seq<byte>>)

  /** The content a patch applies to: the backup when there is one,
      otherwise the target itself. */
  function Pristine(files: FileMap, root: string, rel: string): Option<seq<byte>>
  {
    if Backup(root, rel) in files then Some(files[Backup(root, rel)])
    else if Target(root, rel) in files then Some(files[Target(root, rel)])
    else None
  }

  /** After restoring from, or creating, the backup: both hold `base`. */
  function Restored(files: FileMap, root: string, rel: string, base: seq<byte>): FileMap
  {
    files[Backup(root, rel) := base][Target(root, rel) := base]
  }

  // ---------------------------------------------------------------------
  // pre_build as written

  /** The state of the patch loop: the files, the patch files recorded as
      errors, and the path of a `FileNotFoundError` that escaped, if any. */
  datatype Batch = Batch(files: FileMap, errors: set<string>, crash: Option<string>)

  /** One iteration of the patch loop. A patch file that does not parse, or
      a patch that cannot be applied, is recorded and skipped; a missing
      target without a backup makes `copyfile` raise. */
  function PatchOne<P>(d: Differ<P>, patchDir: string, root: string, files: FileMap, errors: set<string>, rel: string): (b: Batch)
    ensures b.errors == errors || b.errors == errors + {PatchFile(patchDir, rel)}
  {
    var pf := PatchFile(patchDir, rel);
    if pf !in files then Batch(files, errors, Some(pf))
    else match d.parse(files[pf])
      case None => Batch(files, errors + {pf}, None)
      case Some(patches) =>
        match Pristine(files, root, rel)
        case None => Batch(files, errors, Some(Target(root, rel)))
        case Some(base) =>
          var restored := Restored(files, root, rel, base);
          match d.apply(patches, base)
          case None => Batch(restored, errors + {pf}, None)
          case Some(text) => Batch(restored[Target(root, rel) := text], errors, None)
  }

  /** The patch loop over the first `|rels|` patch files; it stops at the
      first exception that escapes. */
  function PatchLoop<P>(d: Differ<P>, patchDir: string, root: string, files: FileMap, rels: seq<string>): Batch
  {
    if rels == [] then Batch(files, {}, None)
    else
      var b := PatchLoop(d, patchDir, root, files, rels[..|rels| - 1]);
      if b.crash.Some? then b
      else PatchOne(d, patchDir, root, b.files, b.errors, rels[|rels| - 1])
  }

  /** One iteration of the rollback loop as written: `os.remove(target)`,
      then `os.rename(backup, target)`, each raising when its file is missing. */
  function UndoOne(files: FileMap, root: string, rel: string): (r: (FileMap, Option<string>))
    ensures Target(root, rel) !in files ==> r == (files, Some(Target(root, rel)))
    ensures r.1.None? <==>
      Target(root, rel) in files && Backup(root, rel) in files && Backup(root, rel) != Target(root, rel)
    ensures r.1.None? ==>
      && Backup(root, rel) !in r.0
      && Target(root, rel) in r.0 && r.0[Target(root, rel)] == files[Backup(root, rel)]
  {
    var t := Target(root, rel);
    var b := Backup(root, rel);
    if t !in files then (files, Some(t))
    else
      var removed := files - {t};
      if b !in removed then (removed, Some(b))
      else ((removed - {b})[t := removed[b]], None)
  }

  function UndoLoop(files: FileMap, root: string, rels: seq<string>): (FileMap, Option<string>)
  {
    if rels == [] then (files, None)
    else
      var r := UndoLoop(files, root, rels[..|rels| - 1]);
      if r.1.Some? then r
      else UndoOne(r.0, root, rels[|rels| - 1])
  }

  datatype PatchFailure =
    | FileMissing(path: string)          // a `FileNotFoundError` escapes
    | RolledBack(errors: set<string>)    // "Some errors occured while patching Ren'Py, rolled back all changes"

  datatype PreBuildResult = PreBuildResult(files: FileMap, failure: Option<PatchFailure>)

  /** `PatchTask.pre_build` as written, for the patch files `rels` (relative
      to the patch directory) that the glob found. */
  function PreBuildAsWritten<P>(d: Differ<P>, patchDir: string, root: string, files: FileMap, rels: seq<string>): PreBuildResult
  {
    var b := PatchLoop(d, patchDir, root, files, rels);
    if b.crash.Some? then PreBuildResult(b.files, Some(FileMissing(b.crash.value)))
    else if b.errors == {} then PreBuildResult(b.files, None)
    else
      var u := UndoLoop(b.files, root, rels);
      if u.1.Some? then PreBuildResult(u.0, Some(FileMissing(u.1.value)))
      else PreBuildResult(u.0, Some(RolledBack(b.errors)))
  }

  lemma {:induction false} PatchLoopPrefixCrash<P>(d: Differ<P>, patchDir: string, root: string, files: FileMap, rels: seq<string>, n: nat)
    requires n <= |rels|
    requires PatchLoop(d, patchDir, root, files, rels[..n]).crash.Some?
    ensures PatchLoop(d, patchDir, root, files, rels) == PatchLoop(d, patchDir, root, files, rels[..n])
  {
    if n < |rels| {
      assert rels[..|rels| - 1][..n] == rels[..n];
      PatchLoopPrefixCrash(d, patchDir, root, files, rels[..|rels| - 1], n);
    } else {
      assert rels[..n] == rels;
    }
  }

  lemma {:induction false} UndoLoopPrefixCrash(files: FileMap, root: string, rels: seq<string>, n: nat)
    requires n <= |rels|
    requires UndoLoop(files, root, rels[..n]).1.Some?
    ensures UndoLoop(files, root, rels) == UndoLoop(files, root, rels[..n])
  {
    if n < |rels| {
      assert rels[..|rels| - 1][..n] == rels[..n];
      UndoLoopPrefixCrash(files, root, rels[..|rels| - 1], n);
    } else {
      assert rels[..n] == rels;
    }
  }

  /** One iteration of the patch loop on the file system. */
  method PatchStep<P>(fs: FileSystem, d: Differ<P>, patchDir: string, root: string, errors: set<string>, rel: string)
    returns (newErrors: set<string>, crash: Option<string>)
    modifies fs
    ensures Batch(fs.files, newErrors, crash) == PatchOne(d, patchDir, root, old(fs.files), errors, rel)
  {
    var pf := PatchFile(patchDir, rel);
    var target := Target(root, rel);
    var backup := Backup(root, rel);
    newErrors, crash := errors, None;
    if pf !in fs.files {
      return errors, Some(pf);
    }
    var patches := d.parse(fs.files[pf]);
    if patches.None? {
      return errors + {pf}, None;
    }
    ghost var before := fs.files;
    if backup in fs.files {
      if target in fs.files {
        var _ := fs.Remove(target);
      }
      var _ := fs.CopyFile(backup, target);
      assert fs.files == Restored(before, root, rel, before[backup]);
    } else {
      var copied := fs.CopyFile(target, backup);
      if !copied {
        return errors, Some(target);
      }
      assert fs.files == Restored(before, root, rel, before[target]);
    }
    var patched := d.apply(patches.value, fs.files[target]);
    if patched.None? {
      return errors + {pf}, None;
    }
    fs.WriteFile(target, patched.value);
  }

  /** The rollback loop as written. */
  method Undo(fs: FileSystem, root: string, rels: seq<string>) returns (crash: Option<string>)
    modifies fs
    ensures (fs.files, crash) == UndoLoop(old(fs.files), root, rels)
  {
    ghost var start := fs.files;
    for i := 0 to |rels|
      invariant UndoLoop(start, root, rels[..i]) == (fs.files, None)
    {
      assert rels[..i + 1][..i] == rels[..i];
      var target := Target(root, rels[i]);
      var backup := Backup(root, rels[i]);
      ghost var before := fs.files;
      var removed := fs.Remove(target);
      if !removed {
        assert fs.files == before;
        UndoLoopPrefixCrash(start, root, rels, i + 1);
        return Some(target);
      }
      var renamed := fs.Rename(backup, target);
      if !renamed {
        UndoLoopPrefixCrash(start, root, rels, i + 1);
        return Some(backup);
      }
    }
    assert rels[..|rels|] == rels;
    crash := None;
  }

  /** `PatchTask.pre_build` as written. */
  method PreBuild<P>(fs: FileSystem, d: Differ<P>, patchDir: string, root: string, rels: seq<string>)
    returns (failure: Option<PatchFailure>)
    modifies fs
    ensures PreBuildResult(fs.files, failure) == PreBuildAsWritten(d, patchDir, root, old(fs.files), rels)
  {
    ghost var start := fs.files;
    var errors: set<string> := {};
    for i := 0 to |rels|
      invariant PatchLoop(d, patchDir, root, start, rels[..i]) == Batch(fs.files, errors, None)
    {
      assert rels[..i + 1][..i] == rels[..i];
      var crash;
      errors, crash := PatchStep(fs, d, patchDir, root, errors, rels[i]);
      if crash.Some? {
        PatchLoopPrefixCrash(d, patchDir, root, start, rels, i + 1);
        return Some(FileMissing(crash.value));
      }
    }
    assert rels[..|rels|] == rels;
    if errors != {} {
      var crash := Undo(fs, root, rels);
      failure := if crash.Some? then Some(FileMissing(crash.value)) else Some(RolledBack(errors));
    } else {
      failure := None;
    }
  }

  // ---------------------------------------------------------------------
  // pre_build with an all-or-nothing rollback

  /** One iteration of the patch loop in which a missing patch file or
      target is recorded as an error instead of escaping; `true` marks an
      error. The files are changed exactly as in `PatchOne`. */
  function PatchOneFixed<P>(d: Differ<P>, patchDir: string, root: string, files: FileMap, rel: string): (FileMap, bool)
  {
    var pf := PatchFile(patchDir, rel);
    if pf !in files then (files, true)
    else match d.parse(files[pf])
      case None => (files, true)
      case Some(patches) =>
        match Pristine(files, root, rel)
        case None => (files, true)
        case Some(base) =>
          var restored := Restored(files, root, rel, base);
          match d.apply(patches, base)
          case None => (restored, true)
          case Some(text) => (restored[Target(root, rel) := text], false)
  }

  function PatchLoopFixed<P>(d: Differ<P>, patchDir: string, root: string, files: FileMap, rels: seq<string>): (FileMap, set<string>)
  {
    if rels == [] then (files, {})
    else
      var b := PatchLoopFixed(d, patchDir, root, files, rels[..|rels| - 1]);
      var rel := rels[|rels| - 1];
      var step := PatchOneFixed(d, patchDir, root, b.0, rel);
      (step.0, if step.1 then b.1 + {PatchFile(patchDir, rel)} else b.1)
  }

  /** Undo one target: move its backup back into place when there is one.
      A target without a backup was never written. */
  function RestoreOne(files: FileMap, root: string, rel: string): FileMap
  {
    var t := Target(root, rel);
    var b := Backup(root, rel);
    if b in files then (files - {b})[t := files[b]] else files
  }

  function RestoreLoop(files: FileMap, root: string, rels: seq<string>): FileMap
  {
    if rels == [] then files
    else RestoreOne(RestoreLoop(files, root, rels[..|rels| - 1]), root, rels[|rels| - 1])
  }

  /** `pre_build` with every failure rolled back. */
  function PreBuildFixed<P>(d: Differ<P>, patchDir: string, root: string, files: FileMap, rels: seq<string>): PreBuildResult
  {
    var b := PatchLoopFixed(d, patchDir, root, files, rels);
    if b.1 == {} then PreBuildResult(b.0, None)
    else PreBuildResult(RestoreLoop(b.0, root, rels), Some(RolledBack(b.1)))
  }

  method PatchStepFixed<P>(fs: FileSystem, d: Differ<P>, patchDir: string, root: string, rel: string)
    returns (failed: bool)
    modifies fs
    ensures (fs.files, failed) == PatchOneFixed(d, patchDir, root, old(fs.files), rel)
  {
    var pf := PatchFile(patchDir, rel);
    var target := Target(root, rel);
    var backup := Backup(root, rel);
    if pf !in fs.files {
      return true;
    }
    var patches := d.parse(fs.files[pf]);
    if patches.None? {
      return true;
    }
    ghost var before := fs.files;
    if backup in fs.files {
      if target in fs.files {
        var _ := fs.Remove(target);
      }
      var _ := fs.CopyFile(backup, target);
      assert fs.files == Restored(before, root, rel, before[backup]);
    } else {
      if target !in fs.files {
        return true;
      }
      var _ := fs.CopyFile(target, backup);
      assert fs.files == Restored(before, root, rel, before[target]);
    }
    var patched := d.apply(patches.value, fs.files[target]);
    if patched.None? {
      return true;
    }
    fs.WriteFile(target, patched.value);
    failed := false;
  }

  method Restore(fs: FileSystem, root: string, rels: seq<string>)
    modifies fs
    ensures fs.files == RestoreLoop(old(fs.files), root, rels)
  {
    ghost var start := fs.files;
    for i := 0 to |rels|
      invariant fs.files == RestoreLoop(start, root, rels[..i])
    {
      assert rels[..i + 1][..i] == rels[..i];
      var backup := Backup(root, rels[i]);
      if backup in fs.files {
        var _ := fs.Rename(backup, Target(root, rels[i]));
      }
    }
    assert rels[..|rels|] == rels;
  }

  /** `pre_build` with the all-or-nothing rollback. */
  method PreBuildAllOrNothing<P>(fs: FileSystem, d: Differ<P>, patchDir: string, root: string, rels: seq<string>)
    returns (failure: Option<PatchFailure>)
    modifies fs
    ensures PreBuildResult(fs.files, failure) == PreBuildFixed(d, patchDir, root, old(fs.files), rels)
  {
    ghost var start := fs.files;
    var errors: set<string> := {};
    for i := 0 to |rels|
      invariant PatchLoopFixed(d, patchDir, root, start, rels[..i]) == (fs.files, errors)
    {
      assert rels[..i + 1][..i] == rels[..i];
      var failed := PatchStepFixed(fs, d, patchDir, root, rels[i]);
      if failed {
        errors := errors + {PatchFile(patchDir, rels[i])};
      }
    }
    assert rels[..|rels|] == rels;
    if errors != {} {
      Restore(fs, root, rels);
      failure := Some(RolledBack(errors));
    } else {
      failure := None;
    }
  }
}
