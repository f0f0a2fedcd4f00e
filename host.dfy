/**
  The operating-system services the backup script relies on: POSIX path joining
  and a filesystem reduced to the set of regular files that currently exist.
 */
module Host {

  /** os.path.join for two POSIX path components. */
  function Join(dir: string, name: string): (path: string)
    ensures name != [] && name[0] == '/' ==> path == name
    ensures |name| <= |path| && path[|path| - |name|..] == name
  {
    if name != [] && name[0] == '/' then name
    else if dir == [] || dir[|dir| - 1] == '/' then dir + name
    else dir + "/" + name
  }

  /** The filesystem as seen by the script: the paths of the regular files that exist. */
  class FileSystem {
    var paths: set<string>

    constructor (existing: set<string>)
      ensures paths == existing
    {
      paths := existing;
    }

    /**
      os.path.isfile; the model tracks regular files only, so os.path.exists
      (used by cleanup) answers the same question.
     */
    method IsFile(path: string) returns (b: bool)
      ensures b <==> path in paths
    {
      b := path in paths;
    }

    /** open(path, 'w+').close(): creates an empty file, touching nothing else. */
    method CreateEmpty(path: string)
      modifies this
      ensures paths == old(paths) + {path}
    {
      paths := paths + {path};
    }

    /** os.remove: the file must exist (os.remove raises otherwise); removes exactly that path. */
    method Remove(path: string)
      requires path in paths
      modifies this
      ensures paths == old(paths) - {path}
    {
      paths := paths - {path};
    }
  }
}
