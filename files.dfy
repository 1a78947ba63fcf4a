/** The file system the tasks mutate, as a map from path to contents.
    Directories are not represented: a path is a file when it is a key. */
module Files {

  type byte = x: int | 0 <= x < 256

  type FileMap = map<string, seq<byte>>

  /** The file system as one mutable object; each method is one `os` or
      `shutil` call and reports whether the call succeeded (a missing source
      raises `FileNotFoundError` in the source). */
  class FileSystem {
    var files: FileMap

    constructor (initial: FileMap)
      ensures files == initial
    {
      files := initial;
    }

    /** `shutil.copyfile(src, dst)`. */
    method CopyFile(src: string, dst: string) returns (ok: bool)
      modifies this
      ensures ok <==> src in old(files)
      ensures files == if ok then old(files)[dst := old(files)[src]] else old(files)
    {
      ok := src in files;
      if ok {
        files := files[dst := files[src]];
      }
    }

    /** `os.remove(path)`. */
    method Remove(path: string) returns (ok: bool)
      modifies this
      ensures ok <==> path in old(files)
      ensures files == old(files) - {path}
    {
      ok := path in files;
      files := files - {path};
    }

    /** `os.rename(src, dst)`: replaces `dst` on POSIX systems. */
    method Rename(src: string, dst: string) returns (ok: bool)
      modifies this
      ensures ok <==> src in old(files)
      ensures files == if ok then (old(files) - {src})[dst := old(files)[src]] else old(files)
    {
      ok := src in files;
      if ok {
        var data := files[src];
        files := (files - {src})[dst := data];
      }
    }

    /** `open(path, "w").write(data)`: creates or truncates the file. */
    method WriteFile(path: string, data: seq<byte>)
      modifies this
      ensures files == old(files)[path := data]
    {
      files := files[path := data];
    }
  }
}
