/** The part of the file system that the LoRA cache and the settings store
    touch: regular files with their bytes, and directories. */
module FileSystem {
  import opened Bytes

  class Disk {
    var files: map<string, seq<byte>>
    var dirs: set<string>

    /** A path is never both a file and a directory. */
    predicate Valid()
      reads this
    {
      files.Keys !! dirs
    }

    /** `os.path.exists`: true of files and directories alike. */
    predicate Exists(path: string)
      reads this
    {
      path in files || path in dirs
    }

    constructor (files: map<string, seq<byte>>, dirs: set<string>)
      requires files.Keys !! dirs
      ensures Valid() && this.files == files && this.dirs == dirs
    {
      this.files := files;
      this.dirs := dirs;
    }
  }
}
