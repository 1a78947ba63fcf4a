/** `SetExtendedMemoryLimitTask.post_build` in tasks/largeaddress.py: inside
    the Windows archive of the build, find the launcher, its copy under
    `lib/windows-i686` and `pythonw.exe`, set the large-address-aware flag of
    each one through a local copy, and stage the patched copies back into the
    archive, which is rebuilt when the `with` block exits. */
module LargeAddress {
  import opened Wrappers
  import opened Files
  import opened Config
  import opened Paths
  import opened PeHeader
  import opened ZipUpdate

  const MainLocal: string := "main.exe"
  const SubLocal: string := "main_sub.exe"
  const PythonwLocal: string := "pythonw.exe"

  datatype PostBuildError =
    | NoPcArchive                 // `glob(...)[0]` on an empty list
    | MainExeUndefined            // `os.path.basename(None)`
    | ExecutableMissing           // `sys.exit(1)` after "Could not find executable to patch!"
    | ZipFailed(zipError: ZipError)
    | PeFailed(peError: PeError)

  /** `self.active = config["build"]["pc"]`, taken when the task is
      constructed; `None` when the lookup raises. */
  function Active(config: map<string, Value>): (r: Option<bool>)
    ensures r.Some? <==> "build" in config && config["build"].VMap? && "pc" in config["build"].m
  {
    match Lookup2(config, "build", "pc")
    case None => None
    case Some(v) => Some(Truthy(v))
  }

  // ---------------------------------------------------------------------
  // locating the executables

  /** A member directly inside the archive's top directory with extension
      ".exe": `len(file.split("/")) == 2 and os.path.splitext(file)[1] == ".exe"`. */
  predicate IsTopLevelExe(name: string)
  {
    SlashCount(name) == 1 && Extension(name) == ".exe"
  }

  /** The last top-level executable in `names`, as the loop keeps overwriting
      `main_exe`. */
  function LastTopLevelExe(names: seq<string>): (r: Option<string>)
    ensures r.Some? ==> r.value in names && IsTopLevelExe(r.value)
    ensures r.None? ==> forall i :: 0 <= i < |names| ==> !IsTopLevelExe(names[i])
  {
    if names == [] then None
    else if IsTopLevelExe(names[|names| - 1]) then Some(names[|names| - 1])
    else
      var r := LastTopLevelExe(names[..|names| - 1]);
      assert forall i :: 0 <= i < |names| - 1 ==> names[i] == names[..|names| - 1][i];
      r
  }

  function PythonwProto(root: string): string
  {
    StripTrailingSlashes(root) + "/" + "lib/windows-i686/pythonw.exe"
  }

  function SubExeProto(root: string, mainExe: string): string
  {
    StripTrailingSlashes(root) + "/" + "lib/windows-i686" + "/" + Basename(mainExe)
  }

  function FindName(names: seq<string>, target: string): Option<string>
  {
    if target in names then Some(target) else None
  }

  /** The first loop over `f.namelist()`. */
  method FindExecutables(names: seq<string>) returns (mainExe: Option<string>, pythonwExe: Option<string>)
    ensures mainExe == LastTopLevelExe(names)
    ensures pythonwExe == FindName(names, PythonwProto(CommonPrefix(names)))
  {
    var proto := PythonwProto(CommonPrefix(names));
    mainExe, pythonwExe := None, None;
    for i := 0 to |names|
      invariant mainExe == LastTopLevelExe(names[..i])
      invariant pythonwExe == FindName(names[..i], proto)
    {
      assert names[..i + 1][..i] == names[..i];
      assert names[..i + 1] == names[..i] + [names[i]];
      if IsTopLevelExe(names[i]) {
        mainExe := Some(names[i]);
      }
      if names[i] == proto {
        pythonwExe := Some(names[i]);
      }
    }
    assert names[..|names|] == names;
  }

  /** The second loop over `f.namelist()`. */
  method FindSubExe(names: seq<string>, proto: string) returns (subExe: Option<string>)
    ensures subExe == FindName(names, proto)
  {
    subExe := None;
    for i := 0 to |names|
      invariant subExe == FindName(names[..i], proto)
    {
      assert names[..i + 1] == names[..i] + [names[i]];
      if names[i] == proto {
        subExe := Some(names[i]);
      }
    }
    assert names[..|names|] == names;
  }

  // ---------------------------------------------------------------------
  // patching one executable

  /** What the `with` block has done so far: the staged replacements, the
      local files, and the exception that ended it, if any. */
  datatype Staging = Staging(replace: map<string, Staged>, files: FileMap, error: Option<PostBuildError>)

  /** Copy `member` out to `local`, patch the copy, stage it back unless the
      flag was already set, and delete the copy. A member that cannot be read
      leaves an empty local file behind; a rejected header leaves the copy. */
  function PatchMember(members: seq<ZipEntry>, replace: map<string, Staged>, files: FileMap, member: string, local: string): Staging
  {
    match ReadMember(members, member)
    case Failure(e) => Staging(replace, files[local := []], Some(ZipFailed(e)))
    case Success(data) =>
      var patchedFiles := files[local := LaaPatched(data)];
      match LaaOutcome(data)
      case Failure(e) => Staging(replace, patchedFiles, Some(PeFailed(e)))
      case Success(alreadySet) =>
        if alreadySet then Staging(replace, patchedFiles - {local}, None)
        else
          var staged := StageLocal(replace, patchedFiles, local, member);
          if staged.1.Some? then Staging(staged.0, patchedFiles, Some(ZipFailed(staged.1.value)))
          else Staging(staged.0, patchedFiles - {local}, None)
  }

  /** The body of the `with` block, on a freshly opened archive. */
  function PatchAll(members: seq<ZipEntry>, files: FileMap): Staging
  {
    var names := Names(members);
    var root := CommonPrefix(names);
    match LastTopLevelExe(names)
    case None => Staging(map[], files, Some(MainExeUndefined))
    case Some(mainExe) =>
      var sub := SubExeProto(root, mainExe);
      var pythonw := PythonwProto(root);
      if sub !in names || pythonw !in names then Staging(map[], files, Some(ExecutableMissing))
      else
        var s1 := PatchMember(members, map[], files, mainExe, MainLocal);
        if s1.error.Some? then s1
        else
          var s2 := PatchMember(members, s1.replace, s1.files, sub, SubLocal);
          if s2.error.Some? then s2
          else PatchMember(members, s2.replace, s2.files, pythonw, PythonwLocal)
  }

  datatype PostBuildOutcome = PostBuildOutcome(error: Option<PostBuildError>, members: seq<ZipEntry>, files: FileMap)

  /** The whole hook. `members` are the members of the first archive the
      glob for "*-pc.zip" returns; `__exit__` runs whether or not the body
      raised, and an exception from it replaces the body's. */
  function PostBuildEffect(active: bool, pcArchives: seq<string>, members: seq<ZipEntry>, files: FileMap): PostBuildOutcome
  {
    if !active then PostBuildOutcome(None, members, files)
    else if pcArchives == [] then PostBuildOutcome(Some(NoPcArchive), members, files)
    else
      var body := PatchAll(members, files);
      var exit := ExitEffect(members, body.replace);
      PostBuildOutcome(if exit.2.Some? then Some(ZipFailed(exit.2.value)) else body.error, exit.0, body.files)
  }

  /** Write `data` to `local`, then open it "rb+" and patch it in place. */
  method CopyOutAndPatch(fs: FileSystem, data: seq<byte>, local: string) returns (outcome: Result<bool, PeError>)
    modifies fs
    ensures outcome == LaaOutcome(data)
    ensures fs.files == old(fs.files)[local := LaaPatched(data)]
  {
    fs.WriteFile(local, data);
    var image := new byte[|data|](i requires 0 <= i < |data| => data[i]);
    assert image[..] == data;
    outcome := SetLargeAddressAware(image);
    fs.WriteFile(local, image[..]);
  }

  /** One of the three `with f.open(...)` / `set_large_address_aware` /
      `f.write` / `os.remove` sequences. A member name is never empty here,
      so `arcname or filename` is the member. */
  method PatchMemberInPlace(zip: UpdateableZip, fs: FileSystem, member: string, local: string) returns (err: Option<PostBuildError>)
    requires zip.allowUpdates && member in Names(zip.entries) && member != []
    modifies zip, fs
    ensures Staging(zip.replace, fs.files, err) == PatchMember(old(zip.entries), old(zip.replace), old(fs.files), member, local)
    ensures zip.entries == old(zip.entries) && zip.allowUpdates && zip.isOpen == old(zip.isOpen)
  {
    var data := ReadMember(zip.entries, member);
    if data.Failure? {
      fs.WriteFile(local, []);
      return Some(ZipFailed(data.error));
    }
    var alreadySet := CopyOutAndPatch(fs, data.value, local);
    if alreadySet.Failure? {
      return Some(PeFailed(alreadySet.error));
    }
    if !alreadySet.value {
      ghost var before := zip.replace;
      var written := zip.Write(fs.files, local, Some(member), EntryInfo(0, 0));
      assert zip.replace == StageLocal(before, fs.files, local, member).0;
      if written.Failure? {
        return Some(ZipFailed(written.error));
      }
    }
    var _ := fs.Remove(local);
    err := None;
  }

  /** The body of the `with` block. */
  method PatchExecutables(zip: UpdateableZip, fs: FileSystem) returns (err: Option<PostBuildError>)
    requires zip.allowUpdates && zip.replace == map[]
    modifies zip, fs
    ensures Staging(zip.replace, fs.files, err) == PatchAll(old(zip.entries), old(fs.files))
    ensures zip.entries == old(zip.entries) && zip.isOpen == old(zip.isOpen)
  {
    var names := zip.NameList();
    var root := CommonPrefix(names);
    var mainExe, pythonwExe := FindExecutables(names);
    if mainExe.None? {
      return Some(MainExeUndefined);
    }
    var subExe := FindSubExe(names, SubExeProto(root, mainExe.value));
    if subExe.None? || pythonwExe.None? {
      return Some(ExecutableMissing);
    }
    err := PatchMemberInPlace(zip, fs, mainExe.value, MainLocal);
    if err.Some? {
      return;
    }
    err := PatchMemberInPlace(zip, fs, subExe.value, SubLocal);
    if err.Some? {
      return;
    }
    err := PatchMemberInPlace(zip, fs, pythonwExe.value, PythonwLocal);
  }

  method PostBuild(active: bool, pcArchives: seq<string>, members: seq<ZipEntry>, fs: FileSystem)
    returns (err: Option<PostBuildError>, newMembers: seq<ZipEntry>)
    modifies fs
    ensures PostBuildOutcome(err, newMembers, fs.files) == PostBuildEffect(active, pcArchives, members, old(fs.files))
  {
    if !active {
      return None, members;
    }
    if |pcArchives| == 0 {
      return Some(NoPcArchive), members;
    }
    var zip := new UpdateableZip(members);
    zip.Enter();
    var bodyErr := PatchExecutables(zip, fs);
    var exitErr := zip.Exit();
    err := if exitErr.Some? then Some(ZipFailed(exitErr.value)) else bodyErr;
    newMembers := zip.entries;
  }
}
