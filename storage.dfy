/** The FAT volume mounted at /sdcard, seen as a map from absolute path to
    file contents. Both the HTTP handlers and the CSV writer work on it. */
module Storage {

  class Volume {
    var files: map<string, string>

    constructor (initial: map<string, string>)
      ensures files == initial
    {
      files := initial;
    }

    /** `remove(path)`: succeeds (returns 0 in C) exactly when the file exists. */
    method Remove(path: string) returns (removed: bool)
      modifies this
      ensures removed == (path in old(files))
      ensures files == old(files) - {path}
    {
      removed := path in files;
      files := files - {path};
    }
  }
}
