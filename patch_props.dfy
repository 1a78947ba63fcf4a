/** What `PatchTask.pre_build` promises: every target patched against its
    pristine content, or the whole batch rolled back. */
module PatchProperties {
  import opened Wrappers
  import opened Files
  import opened Paths
  import opened Patch

  /** `f` and `g` agree on path `x`. */
  predicate Same(f: FileMap, g: FileMap, x: string)
  {
    (x in f <==> x in g) && (x in f ==> f[x] == g[x])
  }

  /** The batch's patch files, targets and backups do not collide. */
  predicate Separate(patchDir: string, root: string, rels: seq<string>)
  {
    forall i, j :: 0 <= i < |rels| && 0 <= j < |rels| ==>
      && (i != j ==>
            && Target(root, rels[i]) != Target(root, rels[j])
            && Target(root, rels[i]) != Backup(root, rels[j])
            && Backup(root, rels[i]) != Backup(root, rels[j]))
      && PatchFile(patchDir, rels[i]) != Target(root, rels[j])
      && PatchFile(patchDir, rels[i]) != Backup(root, rels[j])
  }

  /** `x` is none of the batch's targets and backups. */
  predicate Outside(root: string, rels: seq<string>, x: string)
  {
    forall i :: 0 <= i < |rels| ==> x != Target(root, rels[i]) && x != Backup(root, rels[i])
  }

  lemma SeparatePrefix(patchDir: string, root: string, rels: seq<string>, n: nat)
    requires n <= |rels| && Separate(patchDir, root, rels)
    ensures Separate(patchDir, root, rels[..n])
  {
    assert forall i :: 0 <= i < n ==> rels[..n][i] == rels[i];
  }

  lemma BackupIsNotTarget(root: string, rel: string)
    ensures Backup(root, rel) != Target(root, rel)
  {
    assert |Backup(root, rel)| == |Target(root, rel)| + |BackupSuffix|;
  }

  // ---------------------------------------------------------------------
  // one patch file at a time

  /** The patch loop's step touches only its target and backup. */
  lemma StepFrame<P>(d: Differ<P>, patchDir: string, root: string, files: FileMap, rel: string, x: string)
    requires x != Target(root, rel) && x != Backup(root, rel)
    ensures Same(PatchOneFixed(d, patchDir, root, files, rel).0, files, x)
  {
  }

  /** What the step does depends only on its patch file, target and backup. */
  lemma StepLocal<P>(d: Differ<P>, patchDir: string, root: string, f: FileMap, g: FileMap, rel: string)
    requires Same(f, g, PatchFile(patchDir, rel)) && Same(f, g, Target(root, rel)) && Same(f, g, Backup(root, rel))
    ensures PatchOneFixed(d, patchDir, root, f, rel).1 == PatchOneFixed(d, patchDir, root, g, rel).1
    ensures Same(PatchOneFixed(d, patchDir, root, f, rel).0, PatchOneFixed(d, patchDir, root, g, rel).0, Target(root, rel))
    ensures Same(PatchOneFixed(d, patchDir, root, f, rel).0, PatchOneFixed(d, patchDir, root, g, rel).0, Backup(root, rel))
  {
    BackupIsNotTarget(root, rel);
    assert Pristine(f, root, rel) == Pristine(g, root, rel);
  }

  lemma RestoreFrame(files: FileMap, root: string, rel: string, x: string)
    requires x != Target(root, rel) && x != Backup(root, rel)
    ensures Same(RestoreOne(files, root, rel), files, x)
  {
  }

  lemma RestoreLocal(f: FileMap, g: FileMap, root: string, rel: string)
    requires Same(f, g, Target(root, rel)) && Same(f, g, Backup(root, rel))
    ensures Same(RestoreOne(f, root, rel), RestoreOne(g, root, rel), Target(root, rel))
    ensures Same(RestoreOne(f, root, rel), RestoreOne(g, root, rel), Backup(root, rel))
  {
    BackupIsNotTarget(root, rel);
  }

  /** The patched text of one target, when its patch file parses and its
      patch applies to the pristine content. */
  function Patched<P>(d: Differ<P>, patchDir: string, root: string, files: FileMap, rel: string): Option<seq<byte>>
  {
    var pf := PatchFile(patchDir, rel);
    if pf !in files then None
    else match d.parse(files[pf])
      case None => None
      case Some(patches) =>
        match Pristine(files, root, rel)
        case None => None
        case Some(base) => d.apply(patches, base)
  }

  /** The target holds the patched text and the backup the pristine content. */
  predicate Installed<P>(after: FileMap, d: Differ<P>, patchDir: string, root: string, before: FileMap, rel: string)
  {
    && Patched(d, patchDir, root, before, rel).Some?
    && Pristine(before, root, rel).Some?
    && Target(root, rel) in after && after[Target(root, rel)] == Patched(d, patchDir, root, before, rel).value
    && Backup(root, rel) in after && after[Backup(root, rel)] == Pristine(before, root, rel).value
  }

  /** The target holds its pristine content again and no backup is left. */
  predicate RestoredTo(after: FileMap, before: FileMap, root: string, rel: string)
  {
    && (Target(root, rel) in after <==> Pristine(before, root, rel).Some?)
    && (Target(root, rel) in after ==> after[Target(root, rel)] == Pristine(before, root, rel).value)
    && Backup(root, rel) !in after
  }

  lemma StepSucceeds<P>(d: Differ<P>, patchDir: string, root: string, files: FileMap, rel: string)
    ensures !PatchOneFixed(d, patchDir, root, files, rel).1 <==> Patched(d, patchDir, root, files, rel).Some?
    ensures !PatchOneFixed(d, patchDir, root, files, rel).1 ==>
      Installed(PatchOneFixed(d, patchDir, root, files, rel).0, d, patchDir, root, files, rel)
  {
    BackupIsNotTarget(root, rel);
  }

  lemma StepThenRestore<P>(d: Differ<P>, patchDir: string, root: string, files: FileMap, rel: string)
    ensures RestoredTo(RestoreOne(PatchOneFixed(d, patchDir, root, files, rel).0, root, rel), files, root, rel)
  {
    BackupIsNotTarget(root, rel);
  }

  // ---------------------------------------------------------------------
  // the loops, target by target

  /** The patch loop leaves every path outside the batch alone. */
  lemma {:induction false} LoopFrame<P>(d: Differ<P>, patchDir: string, root: string, files: FileMap, rels: seq<string>)
    ensures forall x :: Outside(root, rels, x) ==> Same(PatchLoopFixed(d, patchDir, root, files, rels).0, files, x)
  {
    if rels != [] {
      var n := |rels| - 1;
      var init := rels[..n];
      var rel := rels[n];
      LoopFrame(d, patchDir, root, files, init);
      var prev := PatchLoopFixed(d, patchDir, root, files, init);
      var out := PatchLoopFixed(d, patchDir, root, files, rels);
      assert out.0 == PatchOneFixed(d, patchDir, root, prev.0, rel).0;
      forall x | Outside(root, rels, x) ensures Same(out.0, files, x) {
        assert Outside(root, init, x) by {
          forall i | 0 <= i < n ensures x != Target(root, init[i]) && x != Backup(root, init[i]) {
            assert init[i] == rels[i];
          }
        }
        assert x != Target(root, rels[n]) && x != Backup(root, rels[n]);
        StepFrame(d, patchDir, root, prev.0, rel, x);
      }
    }
  }

  lemma {:induction false} LoopPointwise<P>(d: Differ<P>, patchDir: string, root: string, files: FileMap, rels: seq<string>)
    requires Separate(patchDir, root, rels)
    ensures forall i :: 0 <= i < |rels| ==>
      && Same(PatchLoopFixed(d, patchDir, root, files, rels).0, PatchOneFixed(d, patchDir, root, files, rels[i]).0, Target(root, rels[i]))
      && Same(PatchLoopFixed(d, patchDir, root, files, rels).0, PatchOneFixed(d, patchDir, root, files, rels[i]).0, Backup(root, rels[i]))
    ensures PatchLoopFixed(d, patchDir, root, files, rels).1 == {} <==>
      forall i :: 0 <= i < |rels| ==> !PatchOneFixed(d, patchDir, root, files, rels[i]).1
  {
    LoopTargets(d, patchDir, root, files, rels);
    LoopErrors(d, patchDir, root, files, rels);
  }

  /** The last iteration of the loop sees its own paths as they were. */
  lemma LastStepLocal<P>(d: Differ<P>, patchDir: string, root: string, files: FileMap, rels: seq<string>)
    requires rels != [] && Separate(patchDir, root, rels)
    ensures var prev := PatchLoopFixed(d, patchDir, root, files, rels[..|rels| - 1]).0;
      var rel := rels[|rels| - 1];
      && PatchOneFixed(d, patchDir, root, prev, rel).1 == PatchOneFixed(d, patchDir, root, files, rel).1
      && Same(PatchOneFixed(d, patchDir, root, prev, rel).0, PatchOneFixed(d, patchDir, root, files, rel).0, Target(root, rel))
      && Same(PatchOneFixed(d, patchDir, root, prev, rel).0, PatchOneFixed(d, patchDir, root, files, rel).0, Backup(root, rel))
  {
    var n := |rels| - 1;
    var init := rels[..n];
    var rel := rels[n];
    LoopFrame(d, patchDir, root, files, init);
    assert forall i :: 0 <= i < n ==> init[i] == rels[i];
    assert Outside(root, init, PatchFile(patchDir, rel));
    assert Outside(root, init, Target(root, rel));
    assert Outside(root, init, Backup(root, rel));
    StepLocal(d, patchDir, root, PatchLoopFixed(d, patchDir, root, files, init).0, files, rel);
  }

  lemma {:induction false} LoopTargets<P>(d: Differ<P>, patchDir: string, root: string, files: FileMap, rels: seq<string>)
    requires Separate(patchDir, root, rels)
    ensures forall i :: 0 <= i < |rels| ==>
      && Same(PatchLoopFixed(d, patchDir, root, files, rels).0, PatchOneFixed(d, patchDir, root, files, rels[i]).0, Target(root, rels[i]))
      && Same(PatchLoopFixed(d, patchDir, root, files, rels).0, PatchOneFixed(d, patchDir, root, files, rels[i]).0, Backup(root, rels[i]))
  {
    if rels != [] {
      var n := |rels| - 1;
      var init := rels[..n];
      var rel := rels[n];
      SeparatePrefix(patchDir, root, rels, n);
      LoopTargets(d, patchDir, root, files, init);
      LastStepLocal(d, patchDir, root, files, rels);
      var prev := PatchLoopFixed(d, patchDir, root, files, init);
      var out := PatchLoopFixed(d, patchDir, root, files, rels);
      assert out.0 == PatchOneFixed(d, patchDir, root, prev.0, rel).0;
      forall i | 0 <= i < |rels|
        ensures Same(out.0, PatchOneFixed(d, patchDir, root, files, rels[i]).0, Target(root, rels[i]))
        ensures Same(out.0, PatchOneFixed(d, patchDir, root, files, rels[i]).0, Backup(root, rels[i]))
      {
        if i < n {
          assert init[i] == rels[i];
          StepFrame(d, patchDir, root, prev.0, rel, Target(root, rels[i]));
          StepFrame(d, patchDir, root, prev.0, rel, Backup(root, rels[i]));
        }
      }
    }
  }

  /** No iteration of the loop, run on the original files, fails. */
  predicate AllSucceed<P>(d: Differ<P>, patchDir: string, root: string, files: FileMap, rels: seq<string>)
  {
    forall i :: 0 <= i < |rels| ==> !PatchOneFixed(d, patchDir, root, files, rels[i]).1
  }

  lemma AllSucceedSnoc<P>(d: Differ<P>, patchDir: string, root: string, files: FileMap, rels: seq<string>)
    requires rels != []
    ensures AllSucceed(d, patchDir, root, files, rels) <==>
      AllSucceed(d, patchDir, root, files, rels[..|rels| - 1]) && !PatchOneFixed(d, patchDir, root, files, rels[|rels| - 1]).1
  {
    var init := rels[..|rels| - 1];
    assert forall i :: 0 <= i < |init| ==> init[i] == rels[i];
  }

  lemma {:induction false} LoopErrors<P>(d: Differ<P>, patchDir: string, root: string, files: FileMap, rels: seq<string>)
    requires Separate(patchDir, root, rels)
    ensures PatchLoopFixed(d, patchDir, root, files, rels).1 == {} <==> AllSucceed(d, patchDir, root, files, rels)
  {
    if rels != [] {
      var n := |rels| - 1;
      var init := rels[..n];
      var rel := rels[n];
      SeparatePrefix(patchDir, root, rels, n);
      LoopErrors(d, patchDir, root, files, init);
      LastStepLocal(d, patchDir, root, files, rels);
      AllSucceedSnoc(d, patchDir, root, files, rels);
      var prev := PatchLoopFixed(d, patchDir, root, files, init);
      var failed := PatchOneFixed(d, patchDir, root, prev.0, rel).1;
      assert PatchLoopFixed(d, patchDir, root, files, rels).1 == if failed then prev.1 + {PatchFile(patchDir, rel)} else prev.1;
      assert PatchFile(patchDir, rel) in prev.1 + {PatchFile(patchDir, rel)};
    }
  }

  lemma {:induction false} RestorePointwise(patchDir: string, root: string, files: FileMap, rels: seq<string>)
    requires Separate(patchDir, root, rels)
    ensures forall i :: 0 <= i < |rels| ==>
      && Same(RestoreLoop(files, root, rels), RestoreOne(files, root, rels[i]), Target(root, rels[i]))
      && Same(RestoreLoop(files, root, rels), RestoreOne(files, root, rels[i]), Backup(root, rels[i]))
    ensures forall x :: Outside(root, rels, x) ==> Same(RestoreLoop(files, root, rels), files, x)
  {
    if rels != [] {
      var n := |rels| - 1;
      var init := rels[..n];
      var rel := rels[n];
      SeparatePrefix(patchDir, root, rels, n);
      RestorePointwise(patchDir, root, files, init);
      var prev := RestoreLoop(files, root, init);
      var out := RestoreLoop(files, root, rels);
      assert out == RestoreOne(prev, root, rel);
      assert forall i :: 0 <= i < n ==> init[i] == rels[i];
      assert Outside(root, init, Target(root, rel));
      assert Outside(root, init, Backup(root, rel));
      RestoreLocal(prev, files, root, rel);
      forall i | 0 <= i < |rels|
        ensures Same(out, RestoreOne(files, root, rels[i]), Target(root, rels[i]))
        ensures Same(out, RestoreOne(files, root, rels[i]), Backup(root, rels[i]))
      {
        if i < n {
          RestoreFrame(prev, root, rel, Target(root, rels[i]));
          RestoreFrame(prev, root, rel, Backup(root, rels[i]));
        }
      }
      forall x | Outside(root, rels, x) ensures Same(out, files, x) {
        assert Outside(root, init, x);
        RestoreFrame(prev, root, rel, x);
      }
    }
  }

  // ---------------------------------------------------------------------
  // all or nothing

  /** The batch succeeds exactly when every patch file parses and applies. */
  lemma PreBuildSucceedsIffAllApply<P>(d: Differ<P>, patchDir: string, root: string, files: FileMap, rels: seq<string>)
    requires Separate(patchDir, root, rels)
    ensures PreBuildFixed(d, patchDir, root, files, rels).failure.None? <==>
      forall i :: 0 <= i < |rels| ==> Patched(d, patchDir, root, files, rels[i]).Some?
  {
    LoopPointwise(d, patchDir, root, files, rels);
    LoopFrame(d, patchDir, root, files, rels);
    forall i | 0 <= i < |rels|
      ensures !PatchOneFixed(d, patchDir, root, files, rels[i]).1 <==> Patched(d, patchDir, root, files, rels[i]).Some?
    {
      StepSucceeds(d, patchDir, root, files, rels[i]);
    }
  }

  /** After a successful batch every target holds its patch applied to its
      pristine content, and every backup holds that pristine content. */
  lemma PreBuildSuccessInstallsEveryPatch<P>(d: Differ<P>, patchDir: string, root: string, files: FileMap, rels: seq<string>)
    requires Separate(patchDir, root, rels)
    requires PreBuildFixed(d, patchDir, root, files, rels).failure.None?
    ensures forall i :: 0 <= i < |rels| ==>
      Installed(PreBuildFixed(d, patchDir, root, files, rels).files, d, patchDir, root, files, rels[i])
  {
    LoopPointwise(d, patchDir, root, files, rels);
    LoopFrame(d, patchDir, root, files, rels);
    var out := PreBuildFixed(d, patchDir, root, files, rels).files;
    forall i | 0 <= i < |rels| ensures Installed(out, d, patchDir, root, files, rels[i]) {
      StepSucceeds(d, patchDir, root, files, rels[i]);
    }
  }

  /** After a failed batch every target holds its pristine content again,
      whichever patch failed and however far the loop got, and no backup is
      left behind. */
  lemma PreBuildFailureRestoresEveryTarget<P>(d: Differ<P>, patchDir: string, root: string, files: FileMap, rels: seq<string>)
    requires Separate(patchDir, root, rels)
    requires PreBuildFixed(d, patchDir, root, files, rels).failure.Some?
    ensures forall i :: 0 <= i < |rels| ==> RestoredTo(PreBuildFixed(d, patchDir, root, files, rels).files, files, root, rels[i])
  {
    LoopPointwise(d, patchDir, root, files, rels);
    LoopFrame(d, patchDir, root, files, rels);
    var mid := PatchLoopFixed(d, patchDir, root, files, rels).0;
    RestorePointwise(patchDir, root, mid, rels);
    var out := PreBuildFixed(d, patchDir, root, files, rels).files;
    assert out == RestoreLoop(mid, root, rels);
    forall i | 0 <= i < |rels| ensures RestoredTo(out, files, root, rels[i]) {
      var rel := rels[i];
      var one := PatchOneFixed(d, patchDir, root, files, rel).0;
      RestoreLocal(mid, one, root, rel);
      StepThenRestore(d, patchDir, root, files, rel);
    }
  }

  /** Nothing but the batch's targets and backups changes, whatever the
      outcome. */
  lemma PreBuildTouchesOnlyTheBatch<P>(d: Differ<P>, patchDir: string, root: string, files: FileMap, rels: seq<string>, x: string)
    requires Separate(patchDir, root, rels)
    requires Outside(root, rels, x)
    ensures Same(PreBuildFixed(d, patchDir, root, files, rels).files, files, x)
  {
    LoopPointwise(d, patchDir, root, files, rels);
    LoopFrame(d, patchDir, root, files, rels);
    RestorePointwise(patchDir, root, PatchLoopFixed(d, patchDir, root, files, rels).0, rels);
  }

  // ---------------------------------------------------------------------
  // the source as written

  lemma {:induction false} LoopsAgreeWithoutCrash<P>(d: Differ<P>, patchDir: string, root: string, files: FileMap, rels: seq<string>)
    requires PatchLoop(d, patchDir, root, files, rels).crash.None?
    ensures PatchLoop(d, patchDir, root, files, rels).files == PatchLoopFixed(d, patchDir, root, files, rels).0
    ensures PatchLoop(d, patchDir, root, files, rels).errors == PatchLoopFixed(d, patchDir, root, files, rels).1
  {
    if rels != [] {
      LoopsAgreeWithoutCrash(d, patchDir, root, files, rels[..|rels| - 1]);
    }
  }

  lemma {:induction false} UndoAgreesWithoutCrash(files: FileMap, root: string, rels: seq<string>)
    requires UndoLoop(files, root, rels).1.None?
    ensures UndoLoop(files, root, rels).0 == RestoreLoop(files, root, rels)
  {
    if rels != [] {
      var prev := UndoLoop(files, root, rels[..|rels| - 1]);
      UndoAgreesWithoutCrash(files, root, rels[..|rels| - 1]);
      var rel := rels[|rels| - 1];
      var t := Target(root, rel);
      var b := Backup(root, rel);
      BackupIsNotTarget(root, rel);
      assert (prev.0 - {t} - {b})[t := prev.0[b]] == (prev.0 - {b})[t := prev.0[b]];
    }
  }

  /** As written, `pre_build` does what the all-or-nothing version does on
      every run in which no `FileNotFoundError` escapes. */
  lemma AsWrittenAgreesUnlessFileMissing<P>(d: Differ<P>, patchDir: string, root: string, files: FileMap, rels: seq<string>)
    requires !(PreBuildAsWritten(d, patchDir, root, files, rels).failure.Some?
               && PreBuildAsWritten(d, patchDir, root, files, rels).failure.value.FileMissing?)
    ensures PreBuildAsWritten(d, patchDir, root, files, rels) == PreBuildFixed(d, patchDir, root, files, rels)
  {
    LoopsAgreeWithoutCrash(d, patchDir, root, files, rels);
    var b := PatchLoop(d, patchDir, root, files, rels);
    if b.errors != {} {
      UndoAgreesWithoutCrash(b.files, root, rels);
    }
  }

  /** As written, a patch file that fails to parse on the first run (so its
      target has no backup yet) makes the rollback delete the untouched
      target and then fail on the missing backup: the file is lost. */
  lemma FirstRunParseFailureDeletesTarget<P>(d: Differ<P>, patchDir: string, root: string, files: FileMap, rel: string)
    requires PatchFile(patchDir, rel) in files && d.parse(files[PatchFile(patchDir, rel)]).None?
    requires Target(root, rel) in files && Backup(root, rel) !in files
    ensures Target(root, rel) !in PreBuildAsWritten(d, patchDir, root, files, [rel]).files
    ensures PreBuildAsWritten(d, patchDir, root, files, [rel]).failure == Some(FileMissing(Backup(root, rel)))
    ensures PreBuildFixed(d, patchDir, root, files, [rel]) == PreBuildResult(files, Some(RolledBack({PatchFile(patchDir, rel)})))
  {
    var pf := PatchFile(patchDir, rel);
    assert [rel][..0] == [];
    BackupIsNotTarget(root, rel);
    assert PatchLoop(d, patchDir, root, files, [rel]) == Batch(files, {pf}, None);
    assert UndoLoop(files, root, [rel]) == (files - {Target(root, rel)}, Some(Backup(root, rel)));
    assert PatchLoopFixed(d, patchDir, root, files, [rel]) == (files, {pf});
    assert RestoreLoop(files, root, [rel]) == files;
  }

  lemma JoinRelative(a: string, b: string)
    requires a != [] && a[|a| - 1] != '/' && b != [] && b[0] != '/'
    ensures Join(a, b) == a + "/" + b
  {
    NotRooted(b);
  }

  /** As written, a target that does not exist (and has no backup) makes
      `copyfile` raise in the middle of the batch, and whatever the earlier
      patch files wrote stays in place: nothing is rolled back. */
  lemma MissingTargetSkipsRollback<P>(d: Differ<P>, patchDir: string, root: string, files: FileMap,
                                     done: seq<string>, rel: string, rest: seq<string>)
    requires PatchLoop(d, patchDir, root, files, done).crash.None?
    requires var mid := PatchLoop(d, patchDir, root, files, done).files;
      && PatchFile(patchDir, rel) in mid && d.parse(mid[PatchFile(patchDir, rel)]).Some?
      && Pristine(mid, root, rel).None?
    ensures PreBuildAsWritten(d, patchDir, root, files, done + [rel] + rest)
      == PreBuildResult(PatchLoop(d, patchDir, root, files, done).files, Some(FileMissing(Target(root, rel))))
  {
    var rels := done + [rel] + rest;
    assert rels[..|done| + 1] == done + [rel];
    assert (done + [rel])[..|done|] == done;
    PatchLoopPrefixCrash(d, patchDir, root, files, rels, |done| + 1);
  }
}
