/**
 * The part of the local file system the audio store touches: which paths
 * exist, and the three operations applied to them (create, remove, rename).
 */
module FileSystem {
  import opened Wrappers
  import opened Errors

  /** Display text of the `std::io::Error` for a missing file. */
  const NOT_FOUND: string := "No such file or directory (os error 2)"

  class Disk {
    /** The paths of the files that exist. */
    var files: set<string>

    constructor (initial: set<string>)
      ensures files == initial
    {
      files := initial;
    }

    /** A file written at `path` by an outside process. */
    method Create(path: string)
      modifies this
      ensures files == old(files) + {path}
    {
      files := files + {path};
    }

    /** `std::fs::remove_file`: fails, changing nothing, when the file is absent. */
    method Remove(path: string) returns (r: Errors.Result<()>)
      modifies this
      ensures r.Ok? <==> path in old(files)
      ensures r.Ok? ==> r == Ok(())
      ensures r.Err? ==> r.error == IO(NOT_FOUND)
      ensures files == old(files) - {path}
    {
      if path in files {
        files := files - {path};
        r := Ok(());
      } else {
        r := Err(IO(NOT_FOUND));
      }
    }

    /** `std::fs::rename`: moves `source` over `target`; fails when `source` is absent. */
    method Rename(source: string, target: string) returns (r: Errors.Result<()>)
      modifies this
      ensures r.Ok? <==> source in old(files)
      ensures r.Ok? ==> r == Ok(()) && files == old(files) - {source} + {target}
      ensures r.Err? ==> r.error == IO(NOT_FOUND) && files == old(files)
    {
      if source in files {
        files := files - {source} + {target};
        r := Ok(());
      } else {
        r := Err(IO(NOT_FOUND));
      }
    }
  }
}
