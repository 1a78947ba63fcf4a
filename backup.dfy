/** The backup loop of the `cli` command in renconstruct.py: before the
    pre-build stage every affected file under the Ren'Py installation gets a
    sibling `<name>.original` copy, or is restored from it when it exists. */
module Backup {
  import opened Files
  import opened Paths

  /** `os.path.join(config["renutil"]["path"], file)`. */
  function FullPath(root: string, file: string): string
  {
    Join(root, file)
  }

  /** One iteration: a missing file is skipped (with a warning); an existing
      backup is copied over the file; otherwise the file is copied to the
      backup. */
  function BackupStep(files: FileMap, root: string, file: string): (r: FileMap)
    ensures FullPath(root, file) !in files ==> r == files
    ensures FullPath(root, file) in files ==>
      && FullPath(root, file) in r && SiblingBackup(FullPath(root, file)) in r
      && r[FullPath(root, file)] == r[SiblingBackup(FullPath(root, file))]
    ensures SiblingBackup(FullPath(root, file)) in files ==>
      r[SiblingBackup(FullPath(root, file))] == files[SiblingBackup(FullPath(root, file))]
  {
    var full := FullPath(root, file);
    if full !in files then files
    else
      var backup := SiblingBackup(full);
      if backup in files then files[full := files[backup]]
      else files[backup := files[full]]
  }

  function BackupAll(files: FileMap, root: string, affected: seq<string>): FileMap
  {
    if affected == [] then files
    else BackupStep(BackupAll(files, root, affected[..|affected| - 1]), root, affected[|affected| - 1])
  }

  method BackupAffectedFiles(fs: FileSystem, root: string, affected: seq<string>)
    modifies fs
    ensures fs.files == BackupAll(old(fs.files), root, affected)
  {
    for i := 0 to |affected|
      invariant fs.files == BackupAll(old(fs.files), root, affected[..i])
    {
      assert affected[..i + 1][..i] == affected[..i];
      var full := FullPath(root, affected[i]);
      if full !in fs.files {
        continue;
      }
      var backup := SiblingBackup(full);
      if backup in fs.files {
        var _ := fs.CopyFile(backup, full);
        continue;
      }
      var _ := fs.CopyFile(full, backup);
    }
    assert affected[..|affected|] == affected;
  }

  /** The affected paths and their backups are pairwise different, so the
      iterations touch disjoint files. */
  predicate Disjoint(root: string, affected: seq<string>)
  {
    forall i, j :: 0 <= i < |affected| && 0 <= j < |affected| ==>
      && FullPath(root, affected[i]) != SiblingBackup(FullPath(root, affected[j]))
      && (i != j ==> FullPath(root, affected[i]) != FullPath(root, affected[j]))
      && (i != j ==> SiblingBackup(FullPath(root, affected[i])) != SiblingBackup(FullPath(root, affected[j])))
  }

  /** The contents a file is brought back to: its backup if one exists,
      otherwise the file as found. */
  function Pristine(files: FileMap, full: string): seq<byte>
    requires full in files
  {
    if SiblingBackup(full) in files then files[SiblingBackup(full)] else files[full]
  }

  lemma DisjointPrefix(root: string, affected: seq<string>)
    requires affected != [] && Disjoint(root, affected)
    ensures Disjoint(root, affected[..|affected| - 1])
  {
    var init := affected[..|affected| - 1];
    forall i, j | 0 <= i < |init| && 0 <= j < |init|
      ensures FullPath(root, init[i]) != SiblingBackup(FullPath(root, init[j]))
      ensures i != j ==> FullPath(root, init[i]) != FullPath(root, init[j])
      ensures i != j ==> SiblingBackup(FullPath(root, init[i])) != SiblingBackup(FullPath(root, init[j]))
    {
      assert init[i] == affected[i] && init[j] == affected[j];
    }
  }

  /** A path that is neither an affected file nor a backup is left alone. */
  lemma {:induction false} BackupTouchesOnlyPairs(files: FileMap, root: string, affected: seq<string>, path: string)
    requires forall i :: 0 <= i < |affected| ==>
      path != FullPath(root, affected[i]) && path != SiblingBackup(FullPath(root, affected[i]))
    ensures var r := BackupAll(files, root, affected);
      (path in r <==> path in files) && (path in files ==> r[path] == files[path])
  {
    if affected != [] {
      var init := affected[..|affected| - 1];
      forall i | 0 <= i < |init|
        ensures path != FullPath(root, init[i]) && path != SiblingBackup(FullPath(root, init[i]))
      {
        assert init[i] == affected[i];
      }
      BackupTouchesOnlyPairs(files, root, init, path);
      assert path != FullPath(root, affected[|affected| - 1]);
      assert path != SiblingBackup(FullPath(root, affected[|affected| - 1]));
    }
  }

  /** What the loop leaves at one affected path `full`, given the files it
      started from: the file and its backup both hold the pristine contents,
      or, when the file was missing, the file stays missing and the backup is
      untouched. */
  predicate Settled(files: FileMap, r: FileMap, full: string)
  {
    var backup := SiblingBackup(full);
    if full in files then
      full in r && backup in r && r[full] == Pristine(files, full) && r[backup] == Pristine(files, full)
    else
      full !in r && (backup in r <==> backup in files) && (backup in files ==> r[backup] == files[backup])
  }

  lemma StepElsewhere(files: FileMap, prev: FileMap, root: string, file: string, full: string)
    requires Settled(files, prev, full)
    requires var other := FullPath(root, file);
      other != full && other != SiblingBackup(full)
      && SiblingBackup(other) != full && SiblingBackup(other) != SiblingBackup(full)
    ensures Settled(files, BackupStep(prev, root, file), full)
  {
  }

  lemma StepHere(files: FileMap, prev: FileMap, root: string, file: string)
    requires var full := FullPath(root, file);
      full != SiblingBackup(full)
      && (full in prev <==> full in files) && (full in files ==> prev[full] == files[full])
      && (SiblingBackup(full) in prev <==> SiblingBackup(full) in files)
      && (SiblingBackup(full) in files ==> prev[SiblingBackup(full)] == files[SiblingBackup(full)])
    ensures Settled(files, BackupStep(prev, root, file), FullPath(root, file))
  {
  }

  /** Neither the last affected file nor its backup is a path an earlier
      iteration touches, and the two differ. */
  predicate LastApart(root: string, affected: seq<string>)
    requires affected != []
  {
    var full := FullPath(root, affected[|affected| - 1]);
    && full != SiblingBackup(full)
    && forall i :: 0 <= i < |affected| - 1 ==>
      && full != FullPath(root, affected[i])
      && full != SiblingBackup(FullPath(root, affected[i]))
      && SiblingBackup(full) != FullPath(root, affected[i])
      && SiblingBackup(full) != SiblingBackup(FullPath(root, affected[i]))
  }

  lemma LastIsApart(root: string, affected: seq<string>)
    requires affected != [] && Disjoint(root, affected)
    ensures LastApart(root, affected)
  {
  }

  lemma BackupOutcomeLast(files: FileMap, root: string, affected: seq<string>)
    requires affected != [] && LastApart(root, affected)
    ensures Settled(files, BackupAll(files, root, affected), FullPath(root, affected[|affected| - 1]))
  {
    var n := |affected| - 1;
    var init := affected[..n];
    var full := FullPath(root, affected[n]);
    var prev := BackupAll(files, root, init);
    forall i | 0 <= i < |init|
      ensures full != FullPath(root, init[i]) && full != SiblingBackup(FullPath(root, init[i]))
      ensures SiblingBackup(full) != FullPath(root, init[i])
      ensures SiblingBackup(full) != SiblingBackup(FullPath(root, init[i]))
    {
      assert init[i] == affected[i];
    }
    BackupTouchesOnlyPairs(files, root, init, full);
    BackupTouchesOnlyPairs(files, root, init, SiblingBackup(full));
    StepHere(files, prev, root, affected[n]);
  }

  /** After the loop every affected file is settled. */
  lemma {:induction false} BackupOutcome(files: FileMap, root: string, affected: seq<string>, k: nat)
    requires Disjoint(root, affected)
    requires k < |affected|
    ensures Settled(files, BackupAll(files, root, affected), FullPath(root, affected[k]))
  {
    var n := |affected| - 1;
    if k < n {
      var init := affected[..n];
      DisjointPrefix(root, affected);
      assert init[k] == affected[k];
      BackupOutcome(files, root, init, k);
      StepElsewhere(files, BackupAll(files, root, init), root, affected[n], FullPath(root, affected[k]));
    } else {
      LastIsApart(root, affected);
      BackupOutcomeLast(files, root, affected);
    }
  }

  /** Whatever the build did to an affected file, the next run of the loop
      brings it back to the contents the first run settled on, as long as the
      backup it made is still there. */
  lemma SecondRunRestores(files: FileMap, later: FileMap, root: string, affected: seq<string>, k: nat)
    requires Disjoint(root, affected)
    requires k < |affected|
    requires FullPath(root, affected[k]) in files
    requires FullPath(root, affected[k]) in later
    requires var backup := SiblingBackup(FullPath(root, affected[k]));
      backup in later && backup in BackupAll(files, root, affected)
      && later[backup] == BackupAll(files, root, affected)[backup]
    ensures var full := FullPath(root, affected[k]);
      full in BackupAll(later, root, affected) && full in BackupAll(files, root, affected)
      && BackupAll(later, root, affected)[full] == BackupAll(files, root, affected)[full]
  {
    BackupOutcome(files, root, affected, k);
    BackupOutcome(later, root, affected, k);
  }

  /** Running the loop twice is running it once. */
  lemma BackupIdempotent(files: FileMap, root: string, affected: seq<string>)
    requires Disjoint(root, affected)
    ensures BackupAll(BackupAll(files, root, affected), root, affected) == BackupAll(files, root, affected)
  {
    var r := BackupAll(files, root, affected);
    var rr := BackupAll(r, root, affected);
    forall path | path in rr || path in r
      ensures path in rr && path in r && rr[path] == r[path]
    {
      if i :| 0 <= i < |affected| && (path == FullPath(root, affected[i]) || path == SiblingBackup(FullPath(root, affected[i]))) {
        BackupOutcome(files, root, affected, i);
        BackupOutcome(r, root, affected, i);
      } else {
        BackupTouchesOnlyPairs(r, root, affected, path);
      }
    }
  }
}
