/** `UpdateableZipFile` in tasks/largeaddress.py: a zip archive opened for
    appending whose existing members can be replaced or removed inside a
    `with` block; the replacements are staged in temporary files and the
    archive is rebuilt when the block exits. */
module ZipUpdate {
  import opened Wrappers
  import opened Files

  /** What a member's `ZipInfo` carries besides its name: kept verbatim when
      the archive is rebuilt. */
  datatype EntryInfo = EntryInfo(dateTime: int, compressType: int)

  /** A member of the archive; `intact` is false when its stored CRC does not
      match its data, so reading it raises `BadZipFile`. */
  datatype ZipEntry = ZipEntry(name: string, info: EntryInfo, data: seq<byte>, intact: bool)

  /** A value of `_replace`: a temporary file holding the new contents, or the
      marker left by `remove_file`. */
  datatype Staged = Buffer(data: seq<byte>, closed: bool) | DeleteMarker

  datatype ZipError =
    | ArchiveClosed(name: string)      // writing to a closed `ZipFile`
    | MissingLocalFile(path: string)   // `open`/`os.stat` of a missing file
    | WriteToDeleted(name: string)     // `DeleteMarker` has no `write`
    | BufferClosed(name: string)       // I/O on a closed temporary file
    | NoSuchMember(name: string)       // `KeyError` from `read`
    | BadCrc(name: string)             // `BadZipFile` from `read`

  function Names(entries: seq<ZipEntry>): (r: seq<string>)
    ensures |r| == |entries|
    ensures forall i :: 0 <= i < |entries| ==> r[i] == entries[i].name
  {
    if entries == [] then [] else Names(entries[..|entries| - 1]) + [entries[|entries| - 1].name]
  }

  /** The member `read(name)` returns: the last one with that name. */
  function LastNamed(entries: seq<ZipEntry>, name: string): (i: int)
    ensures -1 <= i < |entries|
    ensures i >= 0 ==> entries[i].name == name
    ensures i < 0 ==> name !in Names(entries)
  {
    if entries == [] then -1
    else if entries[|entries| - 1].name == name then |entries| - 1
    else
      var i := LastNamed(entries[..|entries| - 1], name);
      assert Names(entries) == Names(entries[..|entries| - 1]) + [entries[|entries| - 1].name];
      i
  }

  /** `ZipFile.read(name)`. */
  function ReadMember(entries: seq<ZipEntry>, name: string): Result<seq<byte>, ZipError>
  {
    var i := LastNamed(entries, name);
    if i < 0 then Failure(NoSuchMember(name))
    else if !entries[i].intact then Failure(BadCrc(name))
    else Success(entries[i].data)
  }

  // ---------------------------------------------------------------------
  // staging

  /** `temp_file = self._replace[name] = self._replace.get(name, TemporaryFile())`
      followed by `temp_file.write(bytes)`. */
  function StageBytes(replace: map<string, Staged>, name: string, bytes: seq<byte>): (r: Result<map<string, Staged>, ZipError>)
    ensures r.Success? <==> name !in replace || (replace[name].Buffer? && !replace[name].closed)
    ensures r.Success? ==> r.value.Keys == replace.Keys + {name} && r.value[name].Buffer? && !r.value[name].closed
  {
    if name !in replace then Success(replace[name := Buffer(bytes, false)])
    else
      match replace[name]
      case DeleteMarker => Failure(WriteToDeleted(name))
      case Buffer(data, closed) =>
        if closed then Failure(BufferClosed(name)) else Success(replace[name := Buffer(data + bytes, false)])
  }

  /** The staging path of `write(filename, arcname)`: the temporary file is
      registered before `filename` is opened, and `shutil.copyfileobj` only
      touches a closed temporary file when there is something to copy. */
  function StageLocal(replace: map<string, Staged>, local: FileMap, filename: string, arc: string): (map<string, Staged>, Option<ZipError>)
  {
    var staged := if arc in replace then replace else replace[arc := Buffer([], false)];
    if filename !in local then (staged, Some(MissingLocalFile(filename)))
    else
      match staged[arc]
      case DeleteMarker => (staged, Some(WriteToDeleted(arc)))
      case Buffer(data, closed) =>
        if closed && local[filename] != [] then (staged, Some(BufferClosed(arc)))
        else (staged[arc := Buffer(data + local[filename], closed)], None)
  }

  /** The archive's own `writestr`/`write`: append a new member. */
  function AppendMember(isOpen: bool, entries: seq<ZipEntry>, name: string, info: EntryInfo, bytes: seq<byte>): Result<seq<ZipEntry>, ZipError>
  {
    if !isOpen then Failure(ArchiveClosed(name)) else Success(entries + [ZipEntry(name, info, bytes, true)])
  }

  /** `_close_all_temp_files`. */
  function CloseAll(replace: map<string, Staged>): (r: map<string, Staged>)
    ensures r.Keys == replace.Keys
  {
    map k | k in replace :: if replace[k].Buffer? then Buffer(replace[k].data, true) else replace[k]
  }

  // ---------------------------------------------------------------------
  // _rebuild_zip

  /** The new archive written so far, what is left of `_replace`, and the
      exception that stopped the loop, if any. */
  datatype RebuildState = RebuildState(written: seq<ZipEntry>, pending: map<string, Staged>, error: Option<ZipError>)

  /** One iteration of the rebuild loop, for the member `item`. */
  function RebuildItem(archive: seq<ZipEntry>, st: RebuildState, item: ZipEntry): RebuildState
  {
    if st.error.Some? then st
    else if item.name in st.pending then
      match st.pending[item.name]
      case DeleteMarker => RebuildState(st.written, st.pending - {item.name}, None)
      case Buffer(data, closed) =>
        if closed then RebuildState(st.written, st.pending - {item.name}, Some(BufferClosed(item.name)))
        else RebuildState(st.written + [ZipEntry(item.name, item.info, data, true)], st.pending - {item.name}, None)
    else
      match ReadMember(archive, item.name)
      case Failure(e) => RebuildState(st.written, st.pending, Some(e))
      case Success(data) => RebuildState(st.written + [ZipEntry(item.name, item.info, data, true)], st.pending, None)
  }

  /** The rebuild loop over the first members `items` of `archive`. */
  function RebuildPrefix(archive: seq<ZipEntry>, items: seq<ZipEntry>, replace: map<string, Staged>): RebuildState
  {
    if items == [] then RebuildState([], replace, None)
    else RebuildItem(archive, RebuildPrefix(archive, items[..|items| - 1], replace), items[|items| - 1])
  }

  function Rebuild(archive: seq<ZipEntry>, replace: map<string, Staged>): RebuildState
  {
    RebuildPrefix(archive, archive, replace)
  }

  lemma {:induction false} RebuildPrefixFailure(archive: seq<ZipEntry>, items: seq<ZipEntry>, replace: map<string, Staged>, n: nat)
    requires n <= |items|
    requires RebuildPrefix(archive, items[..n], replace).error.Some?
    ensures RebuildPrefix(archive, items, replace) == RebuildPrefix(archive, items[..n], replace)
    decreases |items| - n
  {
    if n < |items| {
      assert items[..|items| - 1][..n] == items[..n];
      RebuildPrefixFailure(archive, items[..|items| - 1], replace, n);
    } else {
      assert items[..n] == items;
    }
  }

  /** `__exit__`: the archive's members, `_replace`, and the exception raised. */
  function ExitEffect(entries: seq<ZipEntry>, replace: map<string, Staged>): (seq<ZipEntry>, map<string, Staged>, Option<ZipError>)
  {
    if |replace| == 0 then (entries, replace, None)
    else
      var st := Rebuild(entries, replace);
      (if st.error.None? then st.written else entries, CloseAll(st.pending), st.error)
  }

  class UpdateableZip {
    /** The members of the archive file, in order. */
    var entries: seq<ZipEntry>
    var replace: map<string, Staged>
    var allowUpdates: bool
    /** False once the underlying `ZipFile` has been closed. */
    var isOpen: bool

    /** `UpdateableZipFile(file, "a")` on an archive holding `existing`. */
    constructor (existing: seq<ZipEntry>)
      ensures entries == existing && replace == map[] && !allowUpdates && isOpen
    {
      entries := existing;
      replace := map[];
      allowUpdates := false;
      isOpen := true;
    }

    function NameList(): seq<string>
      reads this
    {
      Names(entries)
    }

    method Enter()
      modifies this
      ensures allowUpdates
      ensures entries == old(entries) && replace == old(replace) && isOpen == old(isOpen)
    {
      allowUpdates := true;
    }

    /** `writestr(name, bytes)`; `info` is the `ZipInfo` a new member gets. */
    method WriteStr(name: string, bytes: seq<byte>, info: EntryInfo) returns (r: Result<(), ZipError>)
      modifies this
      ensures allowUpdates == old(allowUpdates) && isOpen == old(isOpen)
      ensures old(allowUpdates) && name in Names(old(entries)) ==>
        entries == old(entries)
        && match StageBytes(old(replace), name, bytes)
           case Success(m) => replace == m && r == Success(())
           case Failure(e) => replace == old(replace) && r == Failure(e)
      ensures !(old(allowUpdates) && name in Names(old(entries))) ==>
        replace == old(replace)
        && match AppendMember(old(isOpen), old(entries), name, info, bytes)
           case Success(es) => entries == es && r == Success(())
           case Failure(e) => entries == old(entries) && r == Failure(e)
    {
      if allowUpdates && name in Names(entries) {
        var staged := StageBytes(replace, name, bytes);
        if staged.Failure? {
          return Failure(staged.error);
        }
        replace := staged.value;
        return Success(());
      }
      var appended := AppendMember(isOpen, entries, name, info, bytes);
      if appended.Failure? {
        return Failure(appended.error);
      }
      entries := appended.value;
      r := Success(());
    }

    /** `write(filename, arcname)` reading `filename` from `local`; an empty or
        absent `arcname` falls back to `filename`. On the staging path the
        temporary file is registered before the local file is opened, and a
        closed one only fails once there is something to copy. */
    method Write(local: FileMap, filename: string, arcname: Option<string>, info: EntryInfo) returns (r: Result<(), ZipError>)
      modifies this
      ensures allowUpdates == old(allowUpdates) && isOpen == old(isOpen)
      ensures var arc := if arcname.None? || arcname.value == [] then filename else arcname.value;
        if old(allowUpdates) && arc in Names(old(entries)) then
          && entries == old(entries)
          && replace == StageLocal(old(replace), local, filename, arc).0
          && r == match StageLocal(old(replace), local, filename, arc).1
                  case None => Success(())
                  case Some(e) => Failure(e)
        else
          replace == old(replace)
          && if !old(isOpen) then entries == old(entries) && r == Failure(ArchiveClosed(arc))
             else if filename !in local then entries == old(entries) && r == Failure(MissingLocalFile(filename))
             else entries == old(entries) + [ZipEntry(arc, info, local[filename], true)] && r == Success(())
    {
      var arc := if arcname.None? || arcname.value == [] then filename else arcname.value;
      if allowUpdates && arc in Names(entries) {
        if arc !in replace {
          replace := replace[arc := Buffer([], false)];
        }
        if filename !in local {
          return Failure(MissingLocalFile(filename));
        }
        match replace[arc] {
          case DeleteMarker =>
            return Failure(WriteToDeleted(arc));
          case Buffer(data, closed) =>
            if closed && local[filename] != [] {
              return Failure(BufferClosed(arc));
            }
            replace := replace[arc := Buffer(data + local[filename], closed)];
            return Success(());
        }
      }
      if !isOpen {
        return Failure(ArchiveClosed(arc));
      }
      if filename !in local {
        return Failure(MissingLocalFile(filename));
      }
      entries := entries + [ZipEntry(arc, info, local[filename], true)];
      r := Success(());
    }

    /** `remove_file(path)`: marks the member for deletion, whatever state the
        archive is in. */
    method RemoveFile(path: string)
      modifies this
      ensures replace == old(replace)[path := DeleteMarker]
      ensures entries == old(entries) && allowUpdates == old(allowUpdates) && isOpen == old(isOpen)
    {
      replace := replace[path := DeleteMarker];
    }

    /** `_rebuild_zip`: copy every member to a new archive, substituting
        staged contents and dropping deleted members, then move the new
        archive over the old one. An exception leaves the archive as it was. */
    method RebuildZip() returns (err: Option<ZipError>)
      modifies this
      ensures var st := Rebuild(old(entries), old(replace));
        && err == st.error
        && replace == st.pending
        && entries == (if st.error.None? then st.written else old(entries))
      ensures allowUpdates == old(allowUpdates) && isOpen == old(isOpen)
    {
      var archive := entries;
      var written: seq<ZipEntry> := [];
      var i := 0;
      while i < |archive|
        invariant 0 <= i <= |archive|
        invariant entries == archive == old(entries)
        invariant allowUpdates == old(allowUpdates) && isOpen == old(isOpen)
        invariant RebuildPrefix(archive, archive[..i], old(replace)) == RebuildState(written, replace, None)
      {
        var item := archive[i];
        assert archive[..i + 1][..i] == archive[..i];
        assert RebuildPrefix(archive, archive[..i + 1], old(replace)) == RebuildItem(archive, RebuildState(written, replace, None), item);
        if item.name in replace {
          match replace[item.name] {
            case DeleteMarker =>
              replace := replace - {item.name};
            case Buffer(data, closed) =>
              replace := replace - {item.name};
              if closed {
                RebuildPrefixFailure(archive, archive, old(replace), i + 1);
                return Some(BufferClosed(item.name));
              }
              written := written + [ZipEntry(item.name, item.info, data, true)];
          }
        } else {
          var data := ReadMember(archive, item.name);
          if data.Failure? {
            RebuildPrefixFailure(archive, archive, old(replace), i + 1);
            return Some(data.error);
          }
          written := written + [ZipEntry(item.name, item.info, data.value, true)];
        }
        i := i + 1;
      }
      assert archive[..i] == archive;
      entries := written;
      err := None;
    }

    /** `__exit__`: close the archive, rebuild it if anything was staged, and
        in every case close the temporary files and stop staging. */
    method Exit() returns (err: Option<ZipError>)
      modifies this
      ensures (entries, replace, err) == ExitEffect(old(entries), old(replace))
      ensures !allowUpdates && !isOpen
    {
      isOpen := false;
      err := None;
      if |replace| > 0 {
        err := RebuildZip();
      }
      replace := CloseAll(replace);
      allowUpdates := false;
    }
  }
}
