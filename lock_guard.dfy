/**
  The lock-file protocol that keeps two backup runs apart: check_lock creates
  the marker file unless it is already there, cleanup removes it if present,
  and the SIGINT handler runs cleanup and exits.
 */
module LockGuard {
  import opened Host

  /** Exit status of sys.exit(2) when the lock file already exists. */
  const LockedExitStatus := 2

  /** Exit status of sys.exit(2) in the SIGINT handler. */
  const InterruptedExitStatus := 2

  datatype LockResult =
    | Acquired       // the marker did not exist and has been created
    | AlreadyLocked  // the marker existed; the run ends with sys.exit(LockedExitStatus)

  /**
    check_lock. As written, the `else:` of the source follows `sys.exit(2)` and does
    not parse; this models the evident intent: exit if the marker exists, create it
    otherwise. The check and the creation are two separate steps in the source, and
    no other process is modelled between them.
   */
  method CheckLock(fs: FileSystem, lockFile: string) returns (r: LockResult)
    modifies fs
    ensures r == AlreadyLocked <==> lockFile in old(fs.paths)
    ensures r == AlreadyLocked ==> fs.paths == old(fs.paths)
    ensures r == Acquired ==> fs.paths == old(fs.paths) + {lockFile}
  {
    var present := fs.IsFile(lockFile);
    if present {
      r := AlreadyLocked;
    } else {
      fs.CreateEmpty(lockFile);
      r := Acquired;
    }
  }

  /** cleanup: removes the marker when it exists and nothing else; harmless when it is absent. */
  method Cleanup(fs: FileSystem, lockFile: string)
    modifies fs
    ensures lockFile !in fs.paths
    ensures fs.paths == old(fs.paths) - {lockFile}
  {
    var present := fs.IsFile(lockFile);
    if present {
      fs.Remove(lockFile);
    }
  }

  /** sigint_handler: cleanup, then sys.exit(2). */
  method SigintHandler(fs: FileSystem, lockFile: string) returns (status: int)
    modifies fs
    ensures status == InterruptedExitStatus
    ensures lockFile !in fs.paths
    ensures fs.paths == old(fs.paths) - {lockFile}
  {
    Cleanup(fs, lockFile);
    status := InterruptedExitStatus;
  }

  /**
    The lock's life cycle as a client sees it: a first check_lock acquires, a
    second one (another run) is refused while the marker is held, cleanup may
    run twice without harm, after which the lock can be acquired again; the
    filesystem ends as it began.
   */
  method LockLifecycle(fs: FileSystem, lockFile: string)
    returns (first: LockResult, second: LockResult, third: LockResult)
    requires lockFile !in fs.paths
    modifies fs
    ensures first == Acquired && second == AlreadyLocked && third == Acquired
    ensures fs.paths == old(fs.paths)
  {
    first := CheckLock(fs, lockFile);
    second := CheckLock(fs, lockFile);
    Cleanup(fs, lockFile);
    Cleanup(fs, lockFile);
    third := CheckLock(fs, lockFile);
    Cleanup(fs, lockFile);
  }
}
