/**
 * The filesystem as the engine sees it through File.Exists,
 * File.GetLastWriteTime, File.Delete, File.WriteAllText and Directory.Exists.
 */
module FileSystems {
  import opened Common

  class FileSystem {
    /** The files that exist, with their last write times and text. */
    var files: map<Path, FileEntry>
    /** The directories that exist. */
    const directories: set<Path>
    /** What File.GetLastWriteTime reports for a path that does not exist (a library convention). */
    const missingTime: Time
    /** Paths File.WriteAllText cannot write. */
    const readOnly: set<Path>

    constructor (files: map<Path, FileEntry>, directories: set<Path>, missingTime: Time, readOnly: set<Path>)
      ensures this.files == files && this.directories == directories
      ensures this.missingTime == missingTime && this.readOnly == readOnly
    {
      this.files := files;
      this.directories := directories;
      this.missingTime := missingTime;
      this.readOnly := readOnly;
    }

    /** File.Exists. */
    predicate Exists(p: Path)
      reads this
    {
      p in files
    }

    /** File.GetLastWriteTime. */
    function LastWriteTime(p: Path): Time
      reads this
    {
      if p in files then files[p].mtime else missingTime
    }

    /** File.Delete. */
    method Delete(p: Path)
      modifies this
      ensures files == old(files) - {p}
    {
      files := files - {p};
    }

    /** File.WriteAllText at time `now`; `ok` is false where the write throws. */
    method WriteAllText(p: Path, text: string, now: Time) returns (ok: bool)
      modifies this
      ensures ok == (p !in readOnly)
      ensures files == if ok then old(files)[p := FileEntry(now, text)] else old(files)
    {
      ok := p !in readOnly;
      if ok {
        files := files[p := FileEntry(now, text)];
      }
    }
  }
}
