# renconstruct, modelled in Dafny

renconstruct builds a Ren'Py game for several platforms. A YAML configuration
turns plugin tasks on. The driver:
- discovers the tasks;
- derives a snake-case name for each;
- checks that every task flag is a boolean;
- lets each enabled task validate its own configuration section;
- rejects affected files that two tasks both declare;
- orders the tasks by priority;
- backs up or restores the files the tasks declare they modify;
- runs each task's `pre_build` hook before the build and its `post_build`
  hook after it.

This project models that driver core and three of its tasks:

- **Driver (`renconstruct.py`).**
  - `validate_config`, which fills configuration defaults.
  - `scan_tasks`, modelled after discovery.
  - `run_tasks`.
  - The backup loop of `cli`.
  - The unique-prefix command lookup `AliasedGroup.get_command`.
- **Patch task (`tasks/patch.py`).** Diff patches are applied to files of the
  Ren'Py installation, backed up as `<file>.original`. If any patch fails,
  the whole batch is rolled back.
- **Keystore task (`tasks/keystore.py`).** A base64-encoded Android keystore is
  taken from the configuration or from `RC_KEYSTORE` and written over
  `rapt/android.keystore`.
- **Large-address task (`tasks/largeaddress.py`).**
  - `UpdateableZipFile`: a zip archive whose members can be rewritten or
    deleted inside a `with` block. The archive is rebuilt on exit.
  - `set_large_address_aware`: sets the IMAGE_FILE_LARGE_ADDRESS_AWARE bit in
    the PE header of a Windows executable, in place.
  - `post_build`: patches the launcher, its copy under `lib/windows-i686` and
    `pythonw.exe` inside the Windows archive.

**Form of the model.**
- The file system is a class `Files.FileSystem` with one mutable `files` map
  from path to bytes. Each `os`/`shutil` call is one method on it.
- Code that loops or changes files becomes a method. Each such method is
  proved equal to a specification function over the old state:
  - `Registry.ScanTasks` equals `Registry.Scan`;
  - `Scheduler.RunTasks` equals `Scheduler.RunStage`;
  - `Backup.BackupAffectedFiles` equals `Backup.BackupAll`;
  - `Patch.PreBuild` equals `Patch.PreBuildAsWritten`;
  - `LargeAddress.PostBuild` equals `LargeAddress.PostBuildEffect`;
  - `PeHeader.SetLargeAddressAware` on an `array<byte>`;
  - the methods of the class `ZipUpdate.UpdateableZip`.
- The properties are lemmas about those functions.
- Straight-line configuration code is modelled as functions returning a
  `Result`: `validate_config` of the driver and of each task, and the command
  lookup.

A raised exception, and a `sys.exit(1)` after an error, both become an error
value. The files a hook had already changed when it raised are kept
(`Registry.HookRun`).

Details of the code that the model keeps:
- The backup loop also restores a file from an existing backup
  (renconstruct.py:380-384), besides making a backup where none exists.
- A path repeated within one task's own `AFFECTED_FILES` also aborts the scan.
- The keystore task's `pre_build` always reads the section
  `overwrite_keystore`, whatever name the task runs under.

## Model

| member | source | states |
|---|---|---|
| Driver.BuildSection | renconstruct/renconstruct.py:246-252 | the build section is accepted iff it is absent, None or a mapping; `pc`, `mac` and `android` become True where missing or None, and every other value is kept |
| Driver.RenutilSection | renconstruct/renconstruct.py:254-259 | the renutil section is accepted iff it is absent, None or a mapping; `version` defaults to "latest" and `registry` to None, and nothing else changes |
| Driver.TasksSection | renconstruct/renconstruct.py:261-267 | the tasks section is accepted iff it is absent, None or a mapping whose path is missing, None or a string (a bytes path is refused, see "## Left out"); the path defaults to None, a given path is user-expanded, and the other keys are kept |
| Driver.ValidateConfig | renconstruct/renconstruct.py:245-269 | succeeds exactly when all three sections are accepted (so a bytes task path is refused, see "## Left out"); then every other top-level key is kept, and each section is a mapping with its defaults filled in and no non-None value overwritten, except that the task path is user-expanded |
| Driver.EmptyConfigGetsDefaults | renconstruct/renconstruct.py:245-269 | an empty configuration becomes exactly the default configuration |
| Driver.ValidateConfigIdempotent | renconstruct/renconstruct.py:245-269 | if user expansion is idempotent, validating an already validated configuration changes nothing |
| Driver.BuildIdempotent | renconstruct/renconstruct.py:246-252 | re-filling a filled build section returns it unchanged |
| Driver.RenutilIdempotent | renconstruct/renconstruct.py:254-259 | re-filling a filled renutil section returns it unchanged |
| Driver.TasksIdempotent | renconstruct/renconstruct.py:261-267 | re-filling a filled tasks section returns it unchanged when expansion is idempotent |
| Driver.Matching | renconstruct/renconstruct.py:78 | the matches are exactly the listed commands that start with the typed name |
| Driver.GetCommand | renconstruct/renconstruct.py:73-85 | an exact name wins; otherwise the lookup gives no match iff no command starts with the name, the one command when exactly one starts with it, and a failure listing all matches when there are at least two |
| Driver.UniquePrefixResolves | renconstruct/renconstruct.py:73-85 | among distinct command names, a prefix shared by exactly one command resolves to that command |
| Driver.MatchingDistinct | renconstruct/renconstruct.py:78 | the matches of distinct command names are distinct |
| Driver.DistinctCard | renconstruct/renconstruct.py:78 | a list of distinct names has as many elements as its set of names |
| TaskName.SplitBeforeUpper | renconstruct/renconstruct.py:174 | the split of a non-empty name ends in a non-empty piece, and the empty name splits into one empty piece |
| TaskName.NonEmptySplitIsEmptyIff | renconstruct/renconstruct.py:174 | after empty pieces are dropped, nothing is left exactly when the name was empty |
| TaskName.PipelineIsSnakeCase | renconstruct/renconstruct.py:173-175 | the split, filter, lower and join pipeline equals the snake-case reference: lower-case every letter, and put '_' before each upper-case letter except the first character |
| TaskName.DeriveNameOfTask | renconstruct/renconstruct.py:172-175 | a class called `<stem>Task` runs under the snake-case form of `<stem>` |
| TaskName.DeriveName | renconstruct/renconstruct.py:172-175 | a class whose name ends in "Task" runs under the snake case of the rest of its name; any other class is not a task |
| Registry.IndexOfName | renconstruct/renconstruct.py:176 | the dictionary lookup finds an entry with that name, or reports that there is none |
| Registry.InsertByPriority | renconstruct/renconstruct.py:242 | inserting into a list sorted by descending priority keeps it sorted; the element goes before the others of its priority |
| Registry.SortByPriority | renconstruct/renconstruct.py:242 | the result is sorted by non-increasing priority and has the same length; each priority class keeps its original order (a stable sort, `reverse=True`) |
| Registry.CollectAvailable | renconstruct/renconstruct.py:171-176 | the loop that fills `available_tasks` computes `Available` |
| Registry.CollectFlags | renconstruct/renconstruct.py:195-205 | the flag loop computes `CheckFlags`, including the exit at the first non-boolean flag |
| Registry.AppendAffected | renconstruct/renconstruct.py:227-239 | the affected-file loop computes `AddAffected`, including the exit at the first repeated file |
| Registry.EnableTasks | renconstruct/renconstruct.py:210-240 | the enabling loop computes `EnableAll` |
| Registry.ScanTasks | renconstruct/renconstruct.py:171-242 | `scan_tasks` after discovery computes `Scan` |
| Registry.CheckFlagsPrefixFailure | renconstruct/renconstruct.py:196-202 | a flag failure in a prefix is the failure of the whole flag check |
| Registry.AddAffectedPrefixFailure | renconstruct/renconstruct.py:232-238 | a repeated file in a prefix is the failure of the whole list |
| Registry.EnableAllPrefixFailure | renconstruct/renconstruct.py:217-238 | a failure while enabling a prefix is the failure of the whole scan |
| Registry.FlagValue | renconstruct/renconstruct.py:197 | the flag of a task is its value in the tasks section, or False when the section has no entry for it |
| Registry.ValidateSection | renconstruct/renconstruct.py:217-225 | a task without a validation hook leaves the configuration alone; otherwise the hook gets the task's section, or an empty mapping when there is none, and its result is stored under the task's name, or its failure aborts the scan with the task's name |
| Registry.EnableOne | renconstruct/renconstruct.py:216-240 | a disabled task changes nothing; an enabled one is validated, its affected files are appended unless one is already listed, and it joins the runnable tasks with its priority, 0 when it declares none |
| RegistryProperties.DictPutOther | renconstruct/renconstruct.py:176 | storing a class under one name does not move any other name |
| RegistryProperties.DictPutSame | renconstruct/renconstruct.py:176 | after storing a class under a name, that name holds that class |
| RegistryProperties.DictPutKeepsDistinct | renconstruct/renconstruct.py:176 | the dictionary keeps its names distinct |
| RegistryProperties.AvailableLastClassWins | renconstruct/renconstruct.py:171-176 | names are distinct; a name is available iff some class derives it; it holds the last class that derives it |
| RegistryProperties.FlagsSucceedIffBoolean | renconstruct/renconstruct.py:196-202 | the flag check succeeds iff every available task's flag is a boolean or absent |
| RegistryProperties.FlagsOnSuccess | renconstruct/renconstruct.py:195-216 | on success the flagged list follows the available tasks one for one, and the enabled tasks are exactly those whose flag is True |
| RegistryProperties.FlagsFollowAvailable | renconstruct/renconstruct.py:195-205 | on success the flagged list has one entry per available task, with the same name in the same place |
| RegistryProperties.FlagsEnableTrueOnly | renconstruct/renconstruct.py:195-216 | on success the enabled tasks, with their priorities, are exactly the available tasks whose flag is True, in order |
| RegistryProperties.FirstNonBooleanFlagAborts | renconstruct/renconstruct.py:196-202 | the first task whose flag is not a boolean aborts the check, and the error names that task and value |
| RegistryProperties.AddAffectedMeaning | renconstruct/renconstruct.py:227-239 | adding a task's files succeeds iff the concatenation has no repeated path, and then appends them in order |
| RegistryProperties.EnableAllMeaning | renconstruct/renconstruct.py:210-240 | on success the run list is exactly the enabled tasks in order, with their priority (0 by default); the affected list is their files concatenated, with no repetition |
| RegistryProperties.ScanRunsEnabledTasksInPriorityOrder | renconstruct/renconstruct.py:207-242 | a successful scan runs exactly the tasks flagged True, sorted by non-increasing priority with ties in discovery order, and returns their affected files without repetition |
| RegistryProperties.RepeatedAffectedFileAborts | renconstruct/renconstruct.py:227-239 | any path repeated among the enabled tasks' affected files aborts the scan |
| RegistryProperties.ScanRejectsFirstNonBooleanFlag | renconstruct/renconstruct.py:196-202 | the scan reports the first non-boolean flag in dictionary order |
| RegistryProperties.ValidatorForAbsent | renconstruct/renconstruct.py:217-220 | a name that no enabled task has gets no validation hook |
| RegistryProperties.EnabledTasksNamesFrom | renconstruct/renconstruct.py:210-240 | every enabled task's name is an available task's name |
| RegistryProperties.EnabledTasksDistinct | renconstruct/renconstruct.py:210-240 | enabled tasks have distinct names |
| RegistryProperties.EnableAllStoresValidated | renconstruct/renconstruct.py:217-225 | each enabled task's hook receives its section from the original configuration (an empty mapping when absent); the result replaces that section, and every other key is untouched |
| RegistryProperties.ScanStoresValidatedSections | renconstruct/renconstruct.py:217-225 | the same for a whole successful scan |
| Scheduler.HookOf | renconstruct/renconstruct.py:96-101 | only "pre-build" and "post-build" select a hook |
| Scheduler.RunTasks | renconstruct/renconstruct.py:88-109 | the loop computes `RunStage`: each task is constructed in order and its stage hook run, and the run stops at the first failure |
| Scheduler.NothingRunsAfterFailure | renconstruct/renconstruct.py:88-109 | after a failure no later task is constructed or run: appending tasks changes nothing |
| Scheduler.CompletedRunsCompose | renconstruct/renconstruct.py:90-109 | a completed run followed by more tasks is the same as running the more tasks on the files it left behind |
| Scheduler.HooklessTasksChangeNothing | renconstruct/renconstruct.py:96-101 | tasks that construct and have no hook for the stage are skipped and leave the files alone |
| Scheduler.FailureNamesARunnableTask | renconstruct/renconstruct.py:92-109 | a constructor failure names a listed task whose constructor fails; a hook failure names a listed task with a hook for the running stage |
| Backup.BackupAffectedFiles | renconstruct/renconstruct.py:369-387 | the loop computes `BackupAll`, step by step |
| Backup.DisjointPrefix | renconstruct/renconstruct.py:373-387 | pairwise-distinct files and backups stay so on a prefix |
| Backup.BackupTouchesOnlyPairs | renconstruct/renconstruct.py:373-387 | a path that is neither an affected file nor its backup is left alone |
| Backup.StepElsewhere | renconstruct/renconstruct.py:373-387 | a step for another file keeps a settled file settled |
| Backup.StepHere | renconstruct/renconstruct.py:373-387 | after its own step a file is settled: a missing file is skipped; otherwise the file and its backup both hold the backup's contents if it existed, else the file's |
| Backup.LastIsApart | renconstruct/renconstruct.py:373-387 | the last file and its backup are not touched by earlier iterations |
| Backup.BackupOutcomeLast | renconstruct/renconstruct.py:373-387 | the last affected file is settled after the loop |
| Backup.BackupOutcome | renconstruct/renconstruct.py:369-387 | every existing affected file ends byte-identical to its `.original` sibling; an existing backup is never overwritten; a missing file is skipped |
| Backup.SecondRunRestores | renconstruct/renconstruct.py:380-384 | whatever the build did to a file, the next run brings it back from the untouched backup |
| Backup.BackupIdempotent | renconstruct/renconstruct.py:369-387 | running the loop twice is running it once |
| Backup.BackupStep | renconstruct/renconstruct.py:373-387 | a missing file is skipped and nothing changes; otherwise the file and its backup hold the same bytes afterwards, and an existing backup is never overwritten |
| Paths.JoinJoin | renconstruct/tasks/keystore.py:37-39 | joining a relative directory and then a relative name equals joining the two as one '/'-separated relative path |
| Paths.JoinDirnameBasename | renconstruct/renconstruct.py:379-382 | when the last '/' of the path does not follow another '/', joining the directory with the base name plus a suffix appends the suffix to the path (for "a//b" the source gives "a/b" plus the suffix) |
| Paths.SiblingBackupIsSuffixed | renconstruct/renconstruct.py:379-382 | when the last '/' of the path does not follow another '/', the backup of a path is the path with ".original" appended |
| Paths.Extension | renconstruct/tasks/largeaddress.py:166 | `splitext` gives either nothing or a suffix of the path that starts with '.' |
| Paths.CommonPrefixIsLongest | renconstruct/tasks/largeaddress.py:160 | `commonprefix` is a prefix of every name, and every prefix shared by all names is a prefix of it |
| Paths.CommonPrefix2IsLongest | renconstruct/tasks/largeaddress.py:160 | the common prefix of two names is the longest shared prefix |
| Paths.Basename | renconstruct/renconstruct.py:380 | `os.path.basename`: the part of the path after its last '/' |
| Paths.Dirname | renconstruct/renconstruct.py:379 | `os.path.dirname`: the part up to the last '/', without trailing slashes unless it consists of slashes only |
| Paths.Join | renconstruct/renconstruct.py:374 | `os.path.join` of two parts: an absolute second part replaces the first; otherwise one '/' separates them unless the first is empty or already ends in '/' |
| Paths.CommonPrefix | renconstruct/tasks/largeaddress.py:160 | `os.path.commonprefix`: a prefix of every name, and the longest one (`Paths.CommonPrefixIsLongest`) |
| PeHeader.UnpackInt32 | renconstruct/tasks/largeaddress.py:128 | struct "i" yields a signed 32-bit value |
| PeHeader.UnpackInt16 | renconstruct/tasks/largeaddress.py:139 | struct "h" yields a signed 16-bit value |
| PeHeader.SetFlag | renconstruct/tasks/largeaddress.py:145 | `bits \| 0x20` stays a signed 16-bit value and has the flag set |
| PeHeader.FlagClearBelowMax | renconstruct/tasks/largeaddress.py:141-145 | with the flag clear, adding 0x20 stays in range and sets it |
| PeHeader.CharacteristicsAt | renconstruct/tasks/largeaddress.py:121-138 | an accepted header places the Characteristics word inside the file |
| PeHeader.SetLargeAddressAware | renconstruct/tasks/largeaddress.py:114-151 | the in-place patch on the byte array returns `LaaOutcome` and leaves `LaaPatched` of the old contents |
| PeHeader.Int16RoundTrip | renconstruct/tasks/largeaddress.py:139-145 | packing and unpacking a 16-bit word are inverse |
| PeHeader.SetFlagOnBytes | renconstruct/tasks/largeaddress.py:141-146 | the flag is bit 5 of the low byte; setting it adds 32 to the low byte and keeps the high byte |
| PeHeader.ErrorsChangeNothing | renconstruct/tasks/largeaddress.py:121-134 | a missing MZ or PE signature leaves the file untouched |
| PeHeader.PatchTouchesOnlyTheFlag | renconstruct/tasks/largeaddress.py:137-147 | the patch keeps the length; it only adds 32 to the low byte of the Characteristics word, and only when the bit was clear |
| PeHeader.PatchIdempotent | renconstruct/tasks/largeaddress.py:141-147 | patching twice is patching once, and the second call reports the bit as already set |
| PeHeader.HasFlag | renconstruct/tasks/largeaddress.py:141 | the IMAGE_FILE_LARGE_ADDRESS_AWARE bit (0x20) of the characteristics word is set |
| PeHeader.PackInt16 | renconstruct/tasks/largeaddress.py:145 | `struct.pack("h", v)`: the two's-complement word, low byte first |
| ZipUpdate.Names | renconstruct/tasks/largeaddress.py:30 | `namelist()` lists the members' names in order |
| ZipUpdate.LastNamed | renconstruct/tasks/largeaddress.py:96 | reading a name finds the last member of that name, or none exists |
| ZipUpdate.CloseAll | renconstruct/tasks/largeaddress.py:66-69 | closing the temporary files keeps the staged names |
| ZipUpdate.RebuildPrefixFailure | renconstruct/tasks/largeaddress.py:85-97 | an exception in the copy loop ends the rebuild |
| ZipUpdate.UpdateableZip.constructor | renconstruct/tasks/largeaddress.py:18-23 | a new archive object stages nothing and does not allow updates |
| ZipUpdate.UpdateableZip.Enter | renconstruct/tasks/largeaddress.py:53-55 | entering the block allows updates and changes nothing else |
| ZipUpdate.UpdateableZip.WriteStr | renconstruct/tasks/largeaddress.py:25-38 | inside the block a write to an existing name is staged; otherwise it is appended to the archive |
| ZipUpdate.UpdateableZip.Write | renconstruct/tasks/largeaddress.py:40-51 | the same for a local file, with `arcname or filename`; the buffer is registered before the file is opened |
| ZipUpdate.UpdateableZip.RemoveFile | renconstruct/tasks/largeaddress.py:71-72 | the name is marked for deletion unconditionally |
| ZipUpdate.UpdateableZip.RebuildZip | renconstruct/tasks/largeaddress.py:74-100 | the copy loop computes `Rebuild`; an exception leaves the archive as it was |
| ZipUpdate.UpdateableZip.Exit | renconstruct/tasks/largeaddress.py:57-64 | leaving the block gives `ExitEffect` and stops staging |
| ZipUpdate.StageBytes | renconstruct/tasks/largeaddress.py:30-34 | staging succeeds exactly when the name has no temporary file yet or an open one; the bytes are then appended to that file, which stays open, and no other staged name is lost |
| ZipUpdate.StageLocal | renconstruct/tasks/largeaddress.py:41-47 | the temporary file is registered before the local file is opened, so a missing local file raises after registration; a closed temporary file only raises when there are bytes to copy |
| ZipUpdate.AppendMember | renconstruct/tasks/largeaddress.py:36-38 | appending to a closed archive raises; otherwise the new member is added at the end, intact |
| ZipUpdate.RebuildItem | renconstruct/tasks/largeaddress.py:85-97 | one member of the rebuild: a deletion marker drops it, a staged file replaces its data (a closed one raises), and otherwise its old data is read, which raises for a damaged member; a staged entry is consumed either way |
| ZipUpdateProperties.ReadUniqueMember | renconstruct/tasks/largeaddress.py:96 | in an archive with unique, intact members, reading a member gives its data |
| ZipUpdateProperties.RebuildPrefixIsExpected | renconstruct/tasks/largeaddress.py:85-97 | each prefix of the copy loop writes `Expected` and consumes what it met |
| ZipUpdateProperties.RebuildIsExpected | renconstruct/tasks/largeaddress.py:74-100 | the rebuild drops deleted members, gives staged members their new contents under their old `ZipInfo`, keeps the rest, and consumes every staged member |
| ZipUpdateProperties.ExpectedWithoutStaging | renconstruct/tasks/largeaddress.py:85-97 | members with nothing staged survive unchanged and in order |
| ZipUpdateProperties.ExitCommitsStagedChanges | renconstruct/tasks/largeaddress.py:57-64 | leaving the block commits every staged change; only staged non-members remain, closed |
| ZipUpdateProperties.StagingAppends | renconstruct/tasks/largeaddress.py:30-34 | two writes to the same member stage the concatenation |
| ZipUpdateProperties.WriteAfterRemoveFails | renconstruct/tasks/largeaddress.py:30-34 | writing a member after `remove_file` fails and keeps the marker |
| ZipUpdateProperties.DuplicateMemberKeepsOldContents | renconstruct/tasks/largeaddress.py:85-97 | with two members of one name, the staged contents replace only the first copy, and reading the name still gives the old data |
| LargeAddress.Active | renconstruct/tasks/largeaddress.py:109-112 | the task is active as `build.pc` says; construction fails when it is missing |
| LargeAddress.LastTopLevelExe | renconstruct/tasks/largeaddress.py:165-167 | the launcher is the last top-level `.exe`; when there is none, no name is one |
| LargeAddress.FindExecutables | renconstruct/tasks/largeaddress.py:164-169 | the first name loop finds the last top-level executable and `pythonw.exe` under the common root |
| LargeAddress.FindSubExe | renconstruct/tasks/largeaddress.py:170-175 | the second loop finds the launcher's copy under `lib/windows-i686` |
| LargeAddress.CopyOutAndPatch | renconstruct/tasks/largeaddress.py:187-190 | the local copy holds the patched bytes, and the result says whether the bit was set |
| LargeAddress.PatchMemberInPlace | renconstruct/tasks/largeaddress.py:187-198 | one copy-out, patch, write-back and remove sequence computes `PatchMember` |
| LargeAddress.PatchExecutables | renconstruct/tasks/largeaddress.py:164-224 | the body of the block computes `PatchAll` |
| LargeAddress.PostBuild | renconstruct/tasks/largeaddress.py:153-224 | the hook computes `PostBuildEffect`, with the exit of the block running even when the body raised |
| LargeAddress.IsTopLevelExe | renconstruct/tasks/largeaddress.py:166 | a name with exactly one '/' and the extension ".exe" |
| LargeAddress.FindName | renconstruct/tasks/largeaddress.py:168-169 | the expected name when the archive lists it, else nothing |
| LargeAddressProperties.PatchMemberSucceeds | renconstruct/tasks/largeaddress.py:187-198 | a successful step stages the patched copy exactly when the flag was clear, and removes the local copy |
| LargeAddressProperties.PatchMemberKeepsBuffersOpen | renconstruct/tasks/largeaddress.py:187-198 | a step never leaves a closed buffer staged |
| LargeAddressProperties.PatchAllKeepsBuffersOpen | renconstruct/tasks/largeaddress.py:187-224 | nor does the whole body |
| LargeAddressProperties.PostBuildCommitsStaged | renconstruct/tasks/largeaddress.py:159-224 | whatever the body did, the archive is rebuilt with everything staged so far, so a later failure does not undo an earlier patch |
| LargeAddressProperties.MissingExecutableChangesNothing | renconstruct/tasks/largeaddress.py:177-185 | when an executable is not found the hook fails, and the archive and local files are unchanged |
| LargeAddressProperties.ExpectedPointwise | renconstruct/tasks/largeaddress.py:85-97 | without deletions the rebuilt archive rewrites the members one for one |
| LargeAddressProperties.ReadRebuilt | renconstruct/tasks/largeaddress.py:85-97 | a rebuilt member reads as its staged contents, or as its old contents |
| LargeAddressProperties.MemberIndex | renconstruct/tasks/largeaddress.py:165 | a listed name is the name of some member |
| LargeAddressProperties.PatchStep | renconstruct/tasks/largeaddress.py:187-198 | one successful step keeps the staged entries patched and adds no deletion; it adds at most its member, staged or already flagged |
| LargeAddressProperties.ReadPatched | renconstruct/tasks/largeaddress.py:187-198 | a staged or already flagged member reads back as its patched self |
| LargeAddressProperties.StepsOfPatchAll | renconstruct/tasks/largeaddress.py:164-224 | a successful body is the three steps in order |
| LargeAddressProperties.PatchAllSucceeds | renconstruct/tasks/largeaddress.py:164-224 | a successful body leaves each of the three executables staged or already flagged |
| LargeAddressProperties.ThreeSteps | renconstruct/tasks/largeaddress.py:187-224 | three steps on distinct members compose |
| LargeAddressProperties.PatchAllRemovesCopies | renconstruct/tasks/largeaddress.py:198-224 | a successful body removes the three local copies and nothing else |
| LargeAddressProperties.PatchMemberKeepsFiles | renconstruct/tasks/largeaddress.py:187-198 | a successful step removes only its local copy |
| LargeAddressProperties.UnfoldPatchAll | renconstruct/tasks/largeaddress.py:164-224 | the body is the three steps when nothing fails |
| LargeAddressProperties.PostBuildPatchesEveryExecutable | renconstruct/tasks/largeaddress.py:153-224 | after a successful run the launcher, its copy and `pythonw.exe` hold the patched versions of what they held, and the local copies are gone |
| LargeAddressProperties.DeepPaths | renconstruct/tasks/largeaddress.py:161-172 | both paths under `lib/windows-i686` are at least two levels deep, and they differ unless the base name is "pythonw.exe" |
| LargeAddressProperties.DistinctExecutables | renconstruct/tasks/largeaddress.py:161-175 | the three executables are distinct unless the launcher is called "pythonw.exe" |
| LargeAddressProperties.SlashCountAppend | renconstruct/tasks/largeaddress.py:166 | the slash count of a concatenation is the sum of the counts |
| Patch.ValidatePatchConfig | renconstruct/tasks/patch.py:23-32 | succeeds iff the section is a mapping whose path is present, a string (a bytes path is refused, see "## Left out"), and resolves to a directory; it then stores the resolved path and keeps the other keys |
| Patch.PatchOne | renconstruct/tasks/patch.py:44-81 | one iteration either keeps the errors or adds this patch file |
| Patch.PatchLoopPrefixCrash | renconstruct/tasks/patch.py:43-81 | an escaping exception in a prefix ends the loop |
| Patch.UndoLoopPrefixCrash | renconstruct/tasks/patch.py:84-91 | the same for the rollback loop |
| Patch.PatchStep | renconstruct/tasks/patch.py:44-81 | one iteration on the file system computes `PatchOne` |
| Patch.Undo | renconstruct/tasks/patch.py:84-91 | the rollback loop computes `UndoLoop` |
| Patch.PreBuild | renconstruct/tasks/patch.py:34-94 | `pre_build` as written computes `PreBuildAsWritten` |
| Patch.PatchStepFixed | renconstruct/tasks/patch.py:44-81 | the corrected iteration computes `PatchOneFixed` |
| Patch.Restore | renconstruct/tasks/patch.py:84-91 | the corrected rollback computes `RestoreLoop` |
| Patch.PreBuildAllOrNothing | renconstruct/tasks/patch.py:34-94 | the corrected `pre_build` computes `PreBuildFixed` |
| Patch.PatchLoop | renconstruct/tasks/patch.py:43-81 | the patch files are processed in order; a patch that does not parse or apply is recorded as an error and the loop goes on; a missing patch file, or a missing target without a backup, raises and stops the loop |
| Patch.UndoOne | renconstruct/tasks/patch.py:88-91 | removing a missing target raises and changes nothing; the step succeeds exactly when the target and a distinct backup both exist, and then the backup is gone and the target holds the backup's bytes |
| Patch.RestoreOne | renconstruct/tasks/patch.py:83-93 | the corrected rollback of one target (see "## Findings"): its backup, when there is one, is moved back over it; a target without a backup was never written |
| PatchProperties.SeparatePrefix | renconstruct/tasks/patch.py:43-91 | separated paths stay separated on a prefix of the batch |
| PatchProperties.BackupIsNotTarget | renconstruct/tasks/patch.py:57 | a backup path is never its own target |
| PatchProperties.StepFrame | renconstruct/tasks/patch.py:44-81 | an iteration touches only its target and backup |
| PatchProperties.StepLocal | renconstruct/tasks/patch.py:44-81 | what an iteration does depends only on its patch file, target and backup |
| PatchProperties.RestoreFrame | renconstruct/tasks/patch.py:84-91 | a rollback step touches only its target and backup |
| PatchProperties.RestoreLocal | renconstruct/tasks/patch.py:84-91 | a rollback step depends only on its target and backup |
| PatchProperties.StepSucceeds | renconstruct/tasks/patch.py:59-81 | an iteration whose patch parses and applies installs the patched text over the pristine content, which the backup keeps |
| PatchProperties.StepThenRestore | renconstruct/tasks/patch.py:59-91 | an iteration followed by its rollback step brings the target back to its pristine content |
| PatchProperties.LoopPointwise | renconstruct/tasks/patch.py:43-81 | for separated paths, the whole (corrected) loop leaves each target and backup as its own iteration would on the original files, and records no error iff no iteration does |
| PatchProperties.LoopFrame | renconstruct/tasks/patch.py:43-81 | the (corrected) loop leaves every path that is not one of the batch's targets or backups as it was |
| PatchProperties.LoopTargets | renconstruct/tasks/patch.py:43-81 | for separated paths, each target and backup ends as its own iteration would leave it on the original files |
| PatchProperties.LoopErrors | renconstruct/tasks/patch.py:43-81 | for separated paths, the loop records no failed patch iff no iteration on the original files fails |
| PatchProperties.RestorePointwise | renconstruct/tasks/patch.py:84-91 | the rollback leaves each target and backup as its own step would on the original files, and every other path alone |
| PatchProperties.PreBuildSucceedsIffAllApply | renconstruct/tasks/patch.py:41-94 | the batch succeeds iff every patch file parses and applies |
| PatchProperties.PreBuildSuccessInstallsEveryPatch | renconstruct/tasks/patch.py:43-81 | after a successful batch each target holds its patch applied to its pristine content, and its backup holds that content |
| PatchProperties.PreBuildFailureRestoresEveryTarget | renconstruct/tasks/patch.py:83-94 | after a failed batch every target holds its pristine content again, and no backup is left |
| PatchProperties.PreBuildTouchesOnlyTheBatch | renconstruct/tasks/patch.py:43-94 | nothing but the batch's targets and backups changes |
| PatchProperties.LoopsAgreeWithoutCrash | renconstruct/tasks/patch.py:43-81 | when no exception escapes, the loop as written leaves the same files and errors as the corrected loop |
| PatchProperties.UndoAgreesWithoutCrash | renconstruct/tasks/patch.py:84-91 | when no remove or rename raises, the rollback as written is the corrected rollback |
| PatchProperties.AsWrittenAgreesUnlessFileMissing | renconstruct/tasks/patch.py:34-94 | `pre_build` as written does what the all-or-nothing version does on every run where no missing file escapes |
| PatchProperties.FirstRunParseFailureDeletesTarget | renconstruct/tasks/patch.py:47-91 | as written, a patch that fails to parse on the first run makes the rollback delete its untouched target |
| PatchProperties.JoinRelative | renconstruct/tasks/patch.py:55-56 | joining a base with a relative path puts a '/' between them when needed |
| PatchProperties.MissingTargetSkipsRollback | renconstruct/tasks/patch.py:63-67 | as written, a missing target makes `copyfile` raise mid-batch, and earlier patches stay applied |
| Keystore.Chosen | renconstruct/tasks/keystore.py:25 | the config key wins when present, even when None; otherwise `RC_KEYSTORE`; the value is None iff neither is given |
| Keystore.AsciiBytes | renconstruct/tasks/keystore.py:31 | an ASCII string becomes the bytes of its characters |
| Keystore.B64Decode | renconstruct/tasks/keystore.py:31 | bytes decode iff the decoder accepts them; a value that is neither string nor bytes is rejected |
| Keystore.ValidateKeystoreConfig | renconstruct/tasks/keystore.py:23-33 | succeeds iff the section is a mapping and the chosen value decodes; it then stores the decoded bytes under `keystore` and keeps the other keys |
| Keystore.ConfigKeyWins | renconstruct/tasks/keystore.py:25-29 | with the key present the environment plays no part, and a None key fails |
| Keystore.EnvironmentFallback | renconstruct/tasks/keystore.py:25-31 | without the key, `RC_KEYSTORE` is decoded; with neither, validation fails |
| Keystore.KeystorePreBuild | renconstruct/tasks/keystore.py:35-41 | succeeds iff the installation path is a string and the keystore is bytes, and then writes those bytes over the keystore file; an error after the path is known leaves the keystore file empty and every other file unchanged; an error before it changes nothing |
| Keystore.PreBuild | renconstruct/tasks/keystore.py:35-41 | the hook on the file system computes `KeystorePreBuild` |
| Keystore.KeystoreFileIsAffected | renconstruct/tasks/keystore.py:17-39 | the file the hook writes is its declared affected file, located as the driver's backup loop locates it |
| Keystore.PreBuildWritesDecodedKeystore | renconstruct/tasks/keystore.py:23-41 | for any configuration with a string installation path, with or without an `overwrite_keystore` section (the key or `RC_KEYSTORE`), once validation succeeds and its result is stored under the task's name, the hook writes exactly the decoded keystore to the affected file |
| Keystore.KeystorePath | renconstruct/tasks/keystore.py:37-39 | the keystore lives at `rapt/android.keystore` under the Ren'Py installation |
| Keystore.GivenSection | renconstruct/renconstruct.py:219 | the section handed to `validate_config`: the configured one, or an empty mapping when there is none |

## Left out

- Plugin discovery is not modelled: importing every file under the task directories and reflecting over their classes. The discovered classes are a list of `Registry.TaskClass` values, in discovery order.
- Logging, colours, GitHub Actions grouping, and the `renutil`/`renotize` subprocesses are not modelled. Neither are the Ren'Py builds, the version lookup, or the `click` option parsing. They are I/O with no state the core keeps.
- The clean and notarize tasks are outside the modelled core.
- Directories are not modelled. A write into a missing directory, `makedirs`, and `mkdtemp`/`rmtree` have no counterpart; files are a map from path to bytes.
- Text is not modelled. Text-mode I/O is modelled as bytes. `str.lower` acts only on ASCII letters (`TaskName.LowerChar`).
- External helpers are parameters, not models:
  - `glob` becomes the list of patch files it returns;
  - `os.path.relpath` becomes the relative paths;
  - `os.path.expanduser`/`abspath` become the `expandUser`/`resolve` parameters;
  - `os.path.isdir` becomes `isDir`;
  - `diff_match_patch` becomes `Patch.Differ`;
  - the base64 decoder of section 4 of RFC 4648 becomes `decode`.
- Patch.Differ: the per-hunk success flags of `patch_apply` are ignored, as the source ignores them.
- Zip members are name, metadata and bytes. Compression, CRCs (only an intact flag) and ZIP64 are not modelled. A rebuild that fails leaves the archive as it was, because the temporary archive is only moved into place at the end.
- `set_large_address_aware` never reaches its final `f.close()`; unclosed file handles are not modelled.
- LargeAddressProperties.PostBuildPatchesEveryExecutable requires that the launcher is not called "pythonw.exe". Otherwise its copy under `lib/windows-i686` is `pythonw.exe` itself and is staged twice (`LargeAddressProperties.DistinctExecutables`). The lemma also requires archives whose members have unique names and are intact.
- PeHeader.PatchIdempotent requires the PE header to start after the 64-byte DOS header. Otherwise the patched word could overlap the header pointer.
- ZipUpdateProperties.RebuildIsExpected and ZipUpdateProperties.ExitCommitsStagedChanges require unique, intact members and no closed temporary file. `ZipUpdateProperties.DuplicateMemberKeepsOldContents` shows what happens with duplicates.
- Backup.BackupOutcome, Backup.SecondRunRestores and Backup.BackupIdempotent require the affected files and their backups to be pairwise different paths.
- PatchProperties.PreBuildSuccessInstallsEveryPatch, PatchProperties.PreBuildFailureRestoresEveryTarget and PatchProperties.PreBuildTouchesOnlyTheBatch require that the batch's patch files, targets and backups do not collide (`PatchProperties.Separate`).
- Driver.UniquePrefixResolves requires distinct command names. They are the keys of click's command dictionary.
- Driver.TasksSection and Driver.ValidateConfig refuse a bytes task path (a YAML `!!binary` value), which `os.path.expanduser` accepts; only string paths are modelled. The source would accept it, and a `b""` path would then skip the task directory.
- Patch.ValidatePatchConfig refuses a bytes patch path for the same reason. The source accepts it and only fails later, at the `os.path.join` in `pre_build`, after the backup loop has run.
- ZipUpdate.UpdateableZip.Write: when it appends a new member, the model stores the archive name as given. `ZipFile.write` would normalise it (`os.path.normpath`, leading '/' removed); `post_build` only writes names the archive already lists, so it never takes this branch.
- Driver.ValidateConfigIdempotent requires user expansion to be idempotent, which `os.path.expanduser` is for any home directory that does not itself start with '~'.

## Findings

| source | as written | input that shows it | evidently intended | confidence | as-written member | corrected member |
|---|---|---|---|---|---|---|
| renconstruct/tasks/patch.py:47-53, 83-91 | a patch file that fails to parse is recorded before its target is backed up; the rollback then removes every target and renames its backup | a first run (no `.original` yet) whose only patch file does not parse: the target is deleted, the rename raises on the missing backup, and the pristine file is lost | roll back only the targets that have a backup, restoring each from it | not executed | PatchProperties.FirstRunParseFailureDeletesTarget | PatchProperties.PreBuildFailureRestoresEveryTarget |
| renconstruct/tasks/patch.py:63-67 | a target that does not exist and has no backup makes `copyfile` raise inside the loop, outside the `try` | a batch whose second patch file names a missing target: the first target stays patched and no rollback runs | record the missing target as an error so that the whole batch is rolled back | not executed | PatchProperties.MissingTargetSkipsRollback | Patch.PreBuildAllOrNothing |
