/**
  The main block of the backup script: take the lock, scan the backup folder,
  encrypt what is pending, release the lock.
 */
module RunController {
  import opened Wrappers
  import opened Host
  import opened LockGuard
  import opened Scanner
  import opened Encryption

  /** What the command-line options supply to the main block. */
  datatype Config = Config(backupFolder: string, recipient: string, lockFile: string, dryRun: bool)

  datatype RunEnd =
    | Done                                       // reached the end of the main block
    | Locked                                     // check_lock found the marker: sys.exit(2)
    | ListingFailed                              // os.listdir raised out of create_gpg_list
    | EncryptFailed(command: string, status: int)  // check_call raised out of encrypt_files
    | Interrupted                                // sigint_handler ran: cleanup, then sys.exit(2)

  /** The process exit status of each ending; an uncaught exception ends Python with status 1. */
  function ExitStatus(end: RunEnd): int
  {
    match end
    case Done => 0
    case Locked => LockedExitStatus
    case ListingFailed => 1
    case EncryptFailed(_, _) => 1
    case Interrupted => InterruptedExitStatus
  }

  /**
    The files create_gpg_list returns when the backup folder lists `names`: the
    scan runs after check_lock, so the lock file exists by then.
   */
  function ScannedPending(cfg: Config, names: seq<string>, paths: set<string>): seq<string>
  {
    Pending(FileList(cfg.backupFolder, names, paths + {cfg.lockFile}))
  }

  /**
    The main block: check_lock, create_gpg_list, encrypt_files, cleanup.
    `listing` is what os.listdir returns for the backup folder when the scan
    runs (None when it raises) and `shell` gives the exit status of a command.
    `logged` are the commands logged, `executed` those handed to the shell.
    An exception from the scan or from check_call skips cleanup, so the lock
    file stays behind on those paths.
   */
  method Run(fs: FileSystem, cfg: Config, listing: Option<seq<string>>, shell: string -> int)
    returns (end: RunEnd, logged: seq<string>, executed: seq<string>)
    modifies fs
    ensures end == Locked <==> cfg.lockFile in old(fs.paths)
    ensures end == Locked ==> fs.paths == old(fs.paths)
    ensures end == Locked || end == ListingFailed ==> logged == [] && executed == []
    ensures end == ListingFailed <==> cfg.lockFile !in old(fs.paths) && listing.None?
    ensures end == Done ==> fs.paths == old(fs.paths) && cfg.lockFile !in fs.paths
    ensures end.ListingFailed? || end.EncryptFailed? ==> fs.paths == old(fs.paths) + {cfg.lockFile}
    ensures end != Interrupted
    ensures ExitStatus(end) == 2 <==> end == Locked
    ensures executed == if cfg.dryRun then [] else logged
    ensures cfg.lockFile !in old(fs.paths) && listing.Some? ==>
              var files := ScannedPending(cfg, listing.value, old(fs.paths));
              |logged| <= |files| &&
              (forall i :: 0 <= i < |logged| ==> logged[i] == GpgCommand(cfg.recipient, files[i])) &&
              (end == Done ==> |logged| == |files|) &&
              (end == Done <==>
                 cfg.dryRun || forall i :: 0 <= i < |files| ==> shell(GpgCommand(cfg.recipient, files[i])) == 0)
    ensures end.EncryptFailed? ==>
              !cfg.dryRun && executed != [] &&
              end.command == executed[|executed| - 1] &&
              end.status == shell(end.command) && end.status != 0 &&
              forall i :: 0 <= i < |executed| - 1 ==> shell(executed[i]) == 0
  {
    logged, executed := [], [];
    var lock := CheckLock(fs, cfg.lockFile);
    if lock == AlreadyLocked {
      return Locked, logged, executed;
    }
    // SIGINT from here on runs LockGuard.SigintHandler.
    var filesToEncrypt := CreateGpgList(fs, cfg.backupFolder, listing);
    if filesToEncrypt.None? {
      return ListingFailed, logged, executed;
    }
    var encryptEnd;
    logged, executed, encryptEnd := EncryptFiles(filesToEncrypt.value, cfg.recipient, cfg.dryRun, shell);
    if encryptEnd.CheckCallFailed? {
      return EncryptFailed(encryptEnd.command, encryptEnd.status), logged, executed;
    }
    Cleanup(fs, cfg.lockFile);
    end := Done;
  }

  /**
    An interrupted run: after check_lock has created the lock file, SIGINT may
    arrive at any point of the scan or the encryption, none of which changes
    the modelled file set (the `.gpg` artifacts gpg writes are outside the
    model); the handler removes the lock file, so the modelled file set is as
    before the run, and the process exits with status 2.
   */
  method InterruptedRun(fs: FileSystem, cfg: Config) returns (end: RunEnd)
    modifies fs
    ensures end == Locked <==> cfg.lockFile in old(fs.paths)
    ensures end != Locked ==> end == Interrupted
    ensures ExitStatus(end) == 2
    ensures fs.paths == old(fs.paths)
    ensures end == Interrupted ==> cfg.lockFile !in fs.paths
  {
    var lock := CheckLock(fs, cfg.lockFile);
    if lock == AlreadyLocked {
      return Locked;
    }
    var status := SigintHandler(fs, cfg.lockFile);
    end := Interrupted;
  }
}
