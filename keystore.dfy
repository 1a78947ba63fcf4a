/** `OverwriteKeystoreTask` in tasks/keystore.py: take a base64-encoded
    Android keystore from the configuration or the `RC_KEYSTORE` environment
    variable, and write it over the keystore of the Ren'Py installation
    before the build. The base64 decoder (section 4 of RFC 4648) is a
    parameter. */
module Keystore {
  import opened Wrappers
  import opened Files
  import opened Config
  import opened Paths
  import opened Backup
  import opened Registry

  const Priority: int := 0

  /** The one file the task declares it modifies, relative to the Ren'Py
      installation. */
  const KeystoreFile: string := "rapt/android.keystore"

  const AffectedFiles: seq<string> := [KeystoreFile]

  /** `pre_build` reads its own section under this name, whatever name the
      task runs under. */
  const SectionName: string := "overwrite_keystore"

  /** `config.get("keystore", os.environ.get("RC_KEYSTORE"))`: the key wins
      whenever it is present, even when it holds `None`. */
  function Chosen(section: map<string, Value>, env: Option<string>): (v: Value)
    ensures "keystore" in section ==> v == section["keystore"]
    ensures "keystore" !in section ==> (v == VNone <==> env.None?)
  {
    if "keystore" in section then section["keystore"]
    else if env.Some? then VStr(env.value)
    else VNone
  }

  predicate IsAscii(s: string)
  {
    forall i :: 0 <= i < |s| ==> s[i] as int < 128
  }

  function AsciiBytes(s: string): (b: seq<byte>)
    requires IsAscii(s)
    ensures |b| == |s| && forall i :: 0 <= i < |s| ==> b[i] == s[i] as int
  {
    seq(|s|, i requires 0 <= i < |s| => s[i] as int)
  }

  /** `base64.b64decode(v)`: a string must be ASCII and is decoded as its
      bytes; bytes are decoded as they are; anything else is a `TypeError`.
      `decode` is `None` where the decoder raises `binascii.Error`. */
  function B64Decode(v: Value, decode: seq<byte> -> Option<seq<byte>>): (r: Result<seq<byte>, string>)
    ensures v.VBytes? ==> (r.Success? <==> decode(v.bytes).Some?)
    ensures !v.VStr? && !v.VBytes? ==> r.Failure?
  {
    match v
    case VStr(s) =>
      if !IsAscii(s) then Failure("string argument should contain only ASCII characters")
      else if decode(AsciiBytes(s)).None? then Failure("Incorrect padding")
      else Success(decode(AsciiBytes(s)).value)
    case VBytes(b) =>
      if decode(b).None? then Failure("Incorrect padding")
      else Success(decode(b).value)
    case _ => Failure("argument should be a bytes-like object or ASCII string")
  }

  /** `OverwriteKeystoreTask.validate_config(section)`, with `env` the value
      of `RC_KEYSTORE`. */
  function ValidateKeystoreConfig(section: Value, env: Option<string>, decode: seq<byte> -> Option<seq<byte>>): (r: Result<Value, string>)
    ensures r.Success? <==> section.VMap? && B64Decode(Chosen(section.m, env), decode).Success?
    ensures r.Success? ==>
      && r.value.VMap?
      && r.value.m.Keys == section.m.Keys + {"keystore"}
      && r.value.m["keystore"] == VBytes(B64Decode(Chosen(section.m, env), decode).value)
      && (forall k :: k in section.m && k != "keystore" ==> r.value.m[k] == section.m[k])
  {
    if !section.VMap? then Failure("AttributeError: 'section' has no attribute 'get'")
    else
      var value := Chosen(section.m, env);
      if value == VNone then Failure("no keystore was specified: set the 'keystore' option or RC_KEYSTORE")
      else
        var bytes :- B64Decode(value, decode);
        Success(VMap(section.m["keystore" := VBytes(bytes)]))
  }

  /** With the key present the environment plays no part, even when the key
      holds `None`. */
  lemma ConfigKeyWins(section: map<string, Value>, env1: Option<string>, env2: Option<string>, decode: seq<byte> -> Option<seq<byte>>)
    requires "keystore" in section
    ensures ValidateKeystoreConfig(VMap(section), env1, decode) == ValidateKeystoreConfig(VMap(section), env2, decode)
    ensures section["keystore"] == VNone ==> ValidateKeystoreConfig(VMap(section), env1, decode).Failure?
  {
  }

  /** Without the key the environment variable is decoded, and with neither
      there is no keystore and validation fails. */
  lemma EnvironmentFallback(section: map<string, Value>, env: Option<string>, decode: seq<byte> -> Option<seq<byte>>)
    requires "keystore" !in section
    ensures env.None? ==> ValidateKeystoreConfig(VMap(section), env, decode).Failure?
    ensures env.Some? && IsAscii(env.value) && decode(AsciiBytes(env.value)).Some? ==>
      ValidateKeystoreConfig(VMap(section), env, decode) == Success(VMap(section["keystore" := VBytes(decode(AsciiBytes(env.value)).value)]))
  {
  }

  /** `os.path.join(config["renutil"]["path"], "rapt", "android.keystore")`. */
  function KeystorePath(root: string): string
  {
    Join(Join(root, "rapt"), "android.keystore")
  }

  /** `OverwriteKeystoreTask.pre_build` as a stage hook. Opening the file for
      writing truncates it before the bytes to write are looked up, so a
      missing or non-bytes keystore leaves the file empty. */
  function KeystorePreBuild(name: string, config: map<string, Value>, files: FileMap): (r: HookRun)
    ensures r.error.None? <==>
      Lookup2(config, "renutil", "path").Some? && Lookup2(config, "renutil", "path").value.VStr?
      && Lookup2(config, SectionName, "keystore").Some? && Lookup2(config, SectionName, "keystore").value.VBytes?
    ensures r.error.None? ==>
      r.files == files[KeystorePath(Lookup2(config, "renutil", "path").value.s) := Lookup2(config, SectionName, "keystore").value.bytes]
    ensures Lookup2(config, "renutil", "path").Some? && Lookup2(config, "renutil", "path").value.VStr? ==>
      r.files.Keys == files.Keys + {KeystorePath(Lookup2(config, "renutil", "path").value.s)}
    ensures !(Lookup2(config, "renutil", "path").Some? && Lookup2(config, "renutil", "path").value.VStr?) ==>
      r.files == files
    ensures Lookup2(config, "renutil", "path").Some? && Lookup2(config, "renutil", "path").value.VStr? && r.error.Some? ==>
      r.files == files[KeystorePath(Lookup2(config, "renutil", "path").value.s) := []]
  {
    match Lookup2(config, "renutil", "path")
    case None => HookRun(files, Some("KeyError: renutil.path"))
    case Some(root) =>
      if !root.VStr? then HookRun(files, Some("TypeError: renutil.path"))
      else
        var path := KeystorePath(root.s);
        var truncated := files[path := []];
        match Lookup2(config, SectionName, "keystore")
        case None => HookRun(truncated, Some("KeyError: overwrite_keystore.keystore"))
        case Some(v) =>
          if !v.VBytes? then HookRun(truncated, Some("TypeError: a bytes-like object is required"))
          else HookRun(truncated[path := v.bytes], None)
  }

  /** `pre_build` on the file system. */
  method PreBuild(fs: FileSystem, name: string, config: map<string, Value>) returns (err: Option<string>)
    modifies fs
    ensures HookRun(fs.files, err) == KeystorePreBuild(name, config, old(fs.files))
  {
    var root := Lookup2(config, "renutil", "path");
    if root.None? {
      return Some("KeyError: renutil.path");
    }
    if !root.value.VStr? {
      return Some("TypeError: renutil.path");
    }
    var path := KeystorePath(root.value.s);
    fs.WriteFile(path, []);
    var keystore := Lookup2(config, SectionName, "keystore");
    if keystore.None? {
      return Some("KeyError: overwrite_keystore.keystore");
    }
    if !keystore.value.VBytes? {
      return Some("TypeError: a bytes-like object is required");
    }
    fs.WriteFile(path, keystore.value.bytes);
    err := None;
  }

  /** The file `pre_build` writes is the declared affected file as the driver
      locates it, so the driver's backup covers it. */
  lemma KeystoreFileIsAffected(root: string)
    ensures KeystorePath(root) == FullPath(root, AffectedFiles[0])
  {
    JoinJoin(root, "rapt", "android.keystore");
    assert "rapt" + "/" + "android.keystore" == KeystoreFile;
  }

  /** The section `validate_config` receives: the configured one, or an
      empty mapping when the configuration has none. */
  function GivenSection(config: map<string, Value>): Value
  {
    if SectionName in config then config[SectionName] else VMap(map[])
  }

  /** After a successful validation, stored back under the task's name,
      `pre_build` writes exactly the decoded keystore to the affected file. */
  lemma PreBuildWritesDecodedKeystore(config: map<string, Value>, root: string, files: FileMap,
                                       env: Option<string>, decode: seq<byte> -> Option<seq<byte>>)
    requires "renutil" in config && config["renutil"].VMap? && "path" in config["renutil"].m
    requires config["renutil"].m["path"] == VStr(root)
    requires ValidateKeystoreConfig(GivenSection(config), env, decode).Success?
    ensures var validated := config[SectionName := ValidateKeystoreConfig(GivenSection(config), env, decode).value];
      var r := KeystorePreBuild(SectionName, validated, files);
      && r.error.None?
      && r.files == files[FullPath(root, KeystoreFile) := B64Decode(Chosen(GivenSection(config).m, env), decode).value]
  {
    KeystoreFileIsAffected(root);
  }
}
