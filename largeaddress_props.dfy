/** What `post_build` promises, proved about its specification. */
module LargeAddressProperties {
  import opened Wrappers
  import opened Files
  import opened Paths
  import opened PeHeader
  import opened ZipUpdate
  import opened ZipUpdateProperties
  import opened LargeAddress

  /** Every staged entry holds the patched contents of the member it names. */
  predicate StagedArePatched(members: seq<ZipEntry>, replace: map<string, Staged>)
  {
    forall k :: k in replace ==>
      ReadMember(members, k).Success? && replace[k] == Buffer(LaaPatched(ReadMember(members, k).value), false)
  }

  /** A step without error has read the member and accepted its header. */
  lemma PatchMemberReads(members: seq<ZipEntry>, replace: map<string, Staged>, files: FileMap, member: string, local: string)
    requires PatchMember(members, replace, files, member, local).error.None?
    ensures ReadMember(members, member).Success?
    ensures LaaOutcome(ReadMember(members, member).value).Success?
  {
    match ReadMember(members, member) {
      case Failure(_) =>
      case Success(data) =>
        assert LaaOutcome(data).Success?;
    }
  }

  /** A step without error stages exactly the patched copy when the flag
      was clear, and nothing when it was set. */
  lemma PatchMemberStages(members: seq<ZipEntry>, replace: map<string, Staged>, files: FileMap, member: string, local: string)
    requires member !in replace
    requires ReadMember(members, member).Success? && LaaOutcome(ReadMember(members, member).value).Success?
    requires PatchMember(members, replace, files, member, local).error.None?
    ensures var data := ReadMember(members, member).value;
      PatchMember(members, replace, files, member, local).replace ==
        if LaaOutcome(data).value then replace else replace[member := Buffer(LaaPatched(data), false)]
  {
    var data := ReadMember(members, member).value;
    if !LaaOutcome(data).value {
      var patchedFiles := files[local := LaaPatched(data)];
      assert local in patchedFiles && patchedFiles[local] == LaaPatched(data);
      assert [] + LaaPatched(data) == LaaPatched(data);
    }
  }

  /** A successful step reads the member, patches it, stages the patched
      copy exactly when the flag was clear, and removes the local copy. */
  lemma PatchMemberSucceeds(members: seq<ZipEntry>, replace: map<string, Staged>, files: FileMap, member: string, local: string)
    requires member !in replace
    requires PatchMember(members, replace, files, member, local).error.None?
    ensures ReadMember(members, member).Success?
    ensures var data := ReadMember(members, member).value;
      var st := PatchMember(members, replace, files, member, local);
      && LaaOutcome(data).Success?
      && st.replace == (if LaaOutcome(data).value then replace else replace[member := Buffer(LaaPatched(data), false)])
      && st.files == files - {local}
  {
    PatchMemberReads(members, replace, files, member, local);
    PatchMemberStages(members, replace, files, member, local);
    PatchMemberKeepsFiles(members, replace, files, member, local);
  }

  lemma PatchMemberKeepsBuffersOpen(members: seq<ZipEntry>, replace: map<string, Staged>, files: FileMap, member: string, local: string)
    requires NoClosedBuffers(replace)
    ensures NoClosedBuffers(PatchMember(members, replace, files, member, local).replace)
  {
  }

  lemma PatchAllKeepsBuffersOpen(members: seq<ZipEntry>, files: FileMap)
    ensures NoClosedBuffers(PatchAll(members, files).replace)
  {
    var names := Names(members);
    var root := CommonPrefix(names);
    match LastTopLevelExe(names) {
      case None =>
      case Some(mainExe) =>
        var sub := SubExeProto(root, mainExe);
        var pythonw := PythonwProto(root);
        if sub in names && pythonw in names {
          var s1 := PatchMember(members, map[], files, mainExe, MainLocal);
          PatchMemberKeepsBuffersOpen(members, map[], files, mainExe, MainLocal);
          var s2 := PatchMember(members, s1.replace, s1.files, sub, SubLocal);
          PatchMemberKeepsBuffersOpen(members, s1.replace, s1.files, sub, SubLocal);
          PatchMemberKeepsBuffersOpen(members, s2.replace, s2.files, pythonw, PythonwLocal);
        }
    }
  }

  /** Whatever the body did, leaving the `with` block rebuilds the archive
      with everything staged so far; in particular a failure on a later
      executable does not undo the patch staged for an earlier one. */
  lemma PostBuildCommitsStaged(pcArchives: seq<string>, members: seq<ZipEntry>, files: FileMap)
    requires pcArchives != []
    requires UniqueNames(members) && AllIntact(members)
    ensures var out := PostBuildEffect(true, pcArchives, members, files);
      var body := PatchAll(members, files);
      && out.error == body.error
      && out.members == Expected(members, body.replace)
      && out.files == body.files
  {
    PatchAllKeepsBuffersOpen(members, files);
    ExitCommitsStagedChanges(members, PatchAll(members, files).replace);
  }

  /** When an executable cannot be located nothing is staged or patched:
      the archive and the local files are left as they were. */
  lemma MissingExecutableChangesNothing(pcArchives: seq<string>, members: seq<ZipEntry>, files: FileMap)
    requires pcArchives != []
    requires var names := Names(members);
      match LastTopLevelExe(names)
      case None => true
      case Some(mainExe) =>
        SubExeProto(CommonPrefix(names), mainExe) !in names || PythonwProto(CommonPrefix(names)) !in names
    ensures var out := PostBuildEffect(true, pcArchives, members, files);
      && out.error.Some?
      && (out.error.value == MainExeUndefined || out.error.value == ExecutableMissing)
      && out.members == members && out.files == files
  {
  }

  /** The members without a deletion are rewritten one for one. */
  function Rewritten(e: ZipEntry, replace: map<string, Staged>): ZipEntry
  {
    if e.name in replace && replace[e.name].Buffer? then ZipEntry(e.name, e.info, replace[e.name].data, true) else e
  }

  predicate NoDeletions(replace: map<string, Staged>)
  {
    forall k :: k in replace ==> replace[k].Buffer?
  }

  lemma {:induction false} ExpectedPointwise(items: seq<ZipEntry>, replace: map<string, Staged>)
    requires NoDeletions(replace)
    ensures |Expected(items, replace)| == |items|
    ensures forall i :: 0 <= i < |items| ==> Expected(items, replace)[i] == Rewritten(items[i], replace)
  {
    if items != [] {
      var init := items[..|items| - 1];
      ExpectedPointwise(init, replace);
      forall i | 0 <= i < |items| ensures Expected(items, replace)[i] == Rewritten(items[i], replace) {
        if i < |init| {
          assert items[i] == init[i];
        }
      }
    }
  }

  /** Reading a member of the rebuilt archive gives its staged contents, or
      its old contents when nothing was staged for it. */
  lemma ReadRebuilt(members: seq<ZipEntry>, replace: map<string, Staged>, k: nat)
    requires UniqueNames(members) && AllIntact(members) && NoDeletions(replace)
    requires k < |members|
    ensures var t := members[k].name;
      ReadMember(Expected(members, replace), t)
        == if t in replace then Success(replace[t].data) else Success(members[k].data)
  {
    ExpectedPointwise(members, replace);
    var out := Expected(members, replace);
    assert UniqueNames(out) by {
      forall i, j | 0 <= i < j < |out| ensures out[i].name != out[j].name {
        assert out[i].name == members[i].name && out[j].name == members[j].name;
      }
    }
    assert AllIntact(out) by {
      forall i | 0 <= i < |out| ensures out[i].intact {
        assert out[i] == Rewritten(members[i], replace);
      }
    }
    ReadUniqueMember(out, k);
  }

  lemma MemberIndex(members: seq<ZipEntry>, t: string) returns (k: nat)
    requires t in Names(members)
    ensures k < |members| && members[k].name == t
  {
    var i :| 0 <= i < |Names(members)| && Names(members)[i] == t;
    k := i;
  }

  /** One successful step keeps the staged entries patched and without
      deletions, and either stages the member or finds its flag already set. */
  lemma PatchStep(members: seq<ZipEntry>, replace: map<string, Staged>, files: FileMap, member: string, local: string)
    requires member !in replace
    requires StagedArePatched(members, replace) && NoDeletions(replace)
    requires PatchMember(members, replace, files, member, local).error.None?
    ensures var st := PatchMember(members, replace, files, member, local);
      && ReadMember(members, member).Success?
      && LaaOutcome(ReadMember(members, member).value).Success?
      && StagedArePatched(members, st.replace) && NoDeletions(st.replace)
      && replace.Keys <= st.replace.Keys <= replace.Keys + {member}
      && (member in st.replace || LaaOutcome(ReadMember(members, member).value) == Success(true))
      && st.files == files - {local}
  {
    PatchMemberSucceeds(members, replace, files, member, local);
  }

  /** A member either staged with its patched contents, or whose flag was
      already set, reads back from the rebuilt archive as its patched self. */
  lemma ReadPatched(members: seq<ZipEntry>, replace: map<string, Staged>, t: string)
    requires UniqueNames(members) && AllIntact(members)
    requires StagedArePatched(members, replace) && NoDeletions(replace)
    requires t in Names(members)
    requires t !in replace ==> LaaOutcome(ReadMember(members, t).value) == Success(true)
    ensures ReadMember(members, t).Success?
    ensures ReadMember(Expected(members, replace), t) == Success(LaaPatched(ReadMember(members, t).value))
  {
    var k := MemberIndex(members, t);
    ReadUniqueMember(members, k);
    ReadRebuilt(members, replace, k);
    PatchTouchesOnlyTheFlag(members[k].data);
  }

  /** Whether `t` reads back patched from an archive rebuilt with `replace`:
      it is staged, or its flag was already set. */
  predicate PatchedOrSet(members: seq<ZipEntry>, replace: map<string, Staged>, t: string)
  {
    && ReadMember(members, t).Success?
    && LaaOutcome(ReadMember(members, t).value).Success?
    && (t !in replace ==> LaaOutcome(ReadMember(members, t).value) == Success(true))
  }

  /** What one successful step does to the staged entries, when it starts
      from patched entries that do not include its member. */
  predicate StepKeeps(members: seq<ZipEntry>, before: map<string, Staged>, after: map<string, Staged>, member: string)
  {
    member !in before && StagedArePatched(members, before) && NoDeletions(before) ==>
      && StagedArePatched(members, after) && NoDeletions(after)
      && before.Keys <= after.Keys <= before.Keys + {member}
      && PatchedOrSet(members, after, member)
  }

  /** The three steps of a successful body, each summarised. */
  lemma StepsOfPatchAll(members: seq<ZipEntry>, files: FileMap)
    returns (mainExe: string, sub: string, pythonw: string, r1: map<string, Staged>, r2: map<string, Staged>)
    requires PatchAll(members, files).error == None
    ensures LastTopLevelExe(Names(members)) == Some(mainExe)
    ensures sub == SubExeProto(CommonPrefix(Names(members)), mainExe) && sub in Names(members)
    ensures pythonw == PythonwProto(CommonPrefix(Names(members))) && pythonw in Names(members)
    ensures StepKeeps(members, map[], r1, mainExe)
    ensures StepKeeps(members, r1, r2, sub)
    ensures StepKeeps(members, r2, PatchAll(members, files).replace, pythonw)
  {
    var s1, s2;
    mainExe, sub, pythonw, s1, s2 := UnfoldPatchAll(members, files);
    r1, r2 := s1.replace, s2.replace;
    PatchStep(members, map[], files, mainExe, MainLocal);
    if sub !in r1 && StagedArePatched(members, r1) && NoDeletions(r1) {
      PatchStep(members, r1, s1.files, sub, SubLocal);
    }
    if pythonw !in r2 && StagedArePatched(members, r2) && NoDeletions(r2) {
      PatchStep(members, r2, s2.files, pythonw, PythonwLocal);
    }
  }

  /** A successful body leaves each of the three executables staged or
      already flagged. */
  lemma PatchAllSucceeds(members: seq<ZipEntry>, files: FileMap)
    requires PatchAll(members, files).error == None
    requires LastTopLevelExe(Names(members)).Some? ==> Basename(LastTopLevelExe(Names(members)).value) != "pythonw.exe"
    ensures LastTopLevelExe(Names(members)).Some?
    ensures StagedArePatched(members, PatchAll(members, files).replace) && NoDeletions(PatchAll(members, files).replace)
    ensures var m := LastTopLevelExe(Names(members)).value;
      var root := CommonPrefix(Names(members));
      var r := PatchAll(members, files).replace;
      && PatchedOrSet(members, r, m) && PatchedOrSet(members, r, SubExeProto(root, m)) && PatchedOrSet(members, r, PythonwProto(root))
      && m in Names(members) && SubExeProto(root, m) in Names(members) && PythonwProto(root) in Names(members)
  {
    var mainExe, sub, pythonw, r1, r2 := StepsOfPatchAll(members, files);
    DistinctExecutables(Names(members), mainExe);
    var r3 := PatchAll(members, files).replace;
    ThreeSteps(members, mainExe, sub, pythonw, r1, r2, r3);
  }

  /** Three steps on distinct members, from nothing staged. */
  lemma ThreeSteps(members: seq<ZipEntry>, a: string, b: string, c: string,
                   r1: map<string, Staged>, r2: map<string, Staged>, r3: map<string, Staged>)
    requires a != b && a != c && b != c
    requires StepKeeps(members, map[], r1, a) && StepKeeps(members, r1, r2, b) && StepKeeps(members, r2, r3, c)
    ensures StagedArePatched(members, r3) && NoDeletions(r3)
    ensures PatchedOrSet(members, r3, a) && PatchedOrSet(members, r3, b) && PatchedOrSet(members, r3, c)
  {
    assert StagedArePatched(members, map[]);
    assert b !in r1;
    assert c !in r2;
  }

  /** A successful body removes the three local copies and nothing else. */
  lemma PatchAllRemovesCopies(members: seq<ZipEntry>, files: FileMap)
    requires PatchAll(members, files).error == None
    ensures PatchAll(members, files).files == files - {MainLocal, SubLocal, PythonwLocal}
  {
    var mainExe, sub, pythonw, s1, s2 := UnfoldPatchAll(members, files);
    PatchMemberSucceeds(members, map[], files, mainExe, MainLocal);
    PatchMemberKeepsFiles(members, s1.replace, s1.files, sub, SubLocal);
    PatchMemberKeepsFiles(members, s2.replace, s2.files, pythonw, PythonwLocal);
    RemoveThree(files, MainLocal, SubLocal, PythonwLocal);
  }

  /** A successful step removes its local copy and nothing else, whatever
      was staged before. */
  lemma PatchMemberKeepsFiles(members: seq<ZipEntry>, replace: map<string, Staged>, files: FileMap, member: string, local: string)
    requires PatchMember(members, replace, files, member, local).error.None?
    ensures PatchMember(members, replace, files, member, local).files == files - {local}
  {
    var data := ReadMember(members, member).value;
    assert files[local := LaaPatched(data)] - {local} == files - {local};
  }

  lemma RemoveThree(files: FileMap, a: string, b: string, c: string)
    ensures files - {a} - {b} - {c} == files - {a, b, c}
  {
  }

  /** The three steps of a successful body. */
  lemma UnfoldPatchAll(members: seq<ZipEntry>, files: FileMap)
    returns (mainExe: string, sub: string, pythonw: string, s1: Staging, s2: Staging)
    requires PatchAll(members, files).error == None
    ensures LastTopLevelExe(Names(members)) == Some(mainExe)
    ensures sub == SubExeProto(CommonPrefix(Names(members)), mainExe) && sub in Names(members)
    ensures pythonw == PythonwProto(CommonPrefix(Names(members))) && pythonw in Names(members)
    ensures s1 == PatchMember(members, map[], files, mainExe, MainLocal) && s1.error == None
    ensures s2 == PatchMember(members, s1.replace, s1.files, sub, SubLocal) && s2.error == None
    ensures PatchAll(members, files) == PatchMember(members, s2.replace, s2.files, pythonw, PythonwLocal)
  {
    var names := Names(members);
    var root := CommonPrefix(names);
    mainExe := LastTopLevelExe(names).value;
    sub := SubExeProto(root, mainExe);
    pythonw := PythonwProto(root);
    s1 := PatchMember(members, map[], files, mainExe, MainLocal);
    s2 := PatchMember(members, s1.replace, s1.files, sub, SubLocal);
  }

  /** `t` held an executable whose header was accepted, and `after` holds
      the patched version of it. */
  predicate PatchedInto(before: seq<ZipEntry>, after: seq<ZipEntry>, t: string)
  {
    && ReadMember(before, t).Success?
    && LaaOutcome(ReadMember(before, t).value).Success?
    && ReadMember(after, t) == Success(LaaPatched(ReadMember(before, t).value))
  }

  /** A successful run leaves the launcher, its copy under lib/windows-i686
      and pythonw.exe in the archive as the patched versions of what they
      held, so the flag is now set in each one that has a well-placed header,
      and removes the three local copies. This needs the launcher not to be
      called "pythonw.exe": otherwise its copy under lib/windows-i686 is
      pythonw.exe itself, and that member is staged twice. */
  lemma PostBuildPatchesEveryExecutable(pcArchives: seq<string>, members: seq<ZipEntry>, files: FileMap)
    requires pcArchives != []
    requires UniqueNames(members) && AllIntact(members)
    requires PostBuildEffect(true, pcArchives, members, files).error == None
    requires LastTopLevelExe(Names(members)).Some? ==> Basename(LastTopLevelExe(Names(members)).value) != "pythonw.exe"
    ensures LastTopLevelExe(Names(members)).Some?
    ensures var m := LastTopLevelExe(Names(members)).value;
      var root := CommonPrefix(Names(members));
      var out := PostBuildEffect(true, pcArchives, members, files).members;
      && PatchedInto(members, out, m)
      && PatchedInto(members, out, SubExeProto(root, m))
      && PatchedInto(members, out, PythonwProto(root))
    ensures PostBuildEffect(true, pcArchives, members, files).files == files - {MainLocal, SubLocal, PythonwLocal}
  {
    PostBuildCommitsStaged(pcArchives, members, files);
    PatchAllSucceeds(members, files);
    PatchAllRemovesCopies(members, files);
    var r := PatchAll(members, files).replace;
    var m := LastTopLevelExe(Names(members)).value;
    var root := CommonPrefix(Names(members));
    ReadPatched(members, r, m);
    ReadPatched(members, r, SubExeProto(root, m));
    ReadPatched(members, r, PythonwProto(root));
  }

  /** Both paths under `lib/windows-i686` hold at least two '/', and they
      differ unless the base name is "pythonw.exe". */
  lemma DeepPaths(r: string, b: string)
    ensures var dir := r + "/" + "lib/windows-i686" + "/";
      && SlashCount(dir + b) >= 2
      && SlashCount(dir + "pythonw.exe") >= 2
      && (b != "pythonw.exe" ==> dir + b != dir + "pythonw.exe")
  {
    var dir := r + "/" + "lib/windows-i686" + "/";
    assert SlashCount("/") == 1;
    SlashCountAppend(r, "/");
    SlashCountAppend(r + "/", "lib/windows-i686");
    SlashCountAppend(r + "/" + "lib/windows-i686", "/");
    SlashCountAppend(dir, b);
    SlashCountAppend(dir, "pythonw.exe");
    assert (dir + b)[|dir|..] == b;
    assert (dir + "pythonw.exe")[|dir|..] == "pythonw.exe";
  }

  /** The launcher sits one level deep and the other two at least two, so
      only those two can coincide, and only when the launcher is called
      "pythonw.exe". */
  lemma DistinctExecutables(names: seq<string>, mainExe: string)
    requires SlashCount(mainExe) == 1
    requires Basename(mainExe) != "pythonw.exe"
    ensures var root := CommonPrefix(names);
      && mainExe != SubExeProto(root, mainExe)
      && mainExe != PythonwProto(root)
      && SubExeProto(root, mainExe) != PythonwProto(root)
  {
    var r := StripTrailingSlashes(CommonPrefix(names));
    DeepPaths(r, Basename(mainExe));
    assert r + "/" + "lib/windows-i686/pythonw.exe" == r + "/" + "lib/windows-i686" + "/" + "pythonw.exe";
  }

  lemma {:induction false} SlashCountAppend(a: string, b: string)
    ensures SlashCount(a + b) == SlashCount(a) + SlashCount(b)
  {
    if b != [] {
      assert (a + b)[..|a + b| - 1] == a + b[..|b| - 1];
      SlashCountAppend(a, b[..|b| - 1]);
    } else {
      assert a + b == a;
    }
  }
}
