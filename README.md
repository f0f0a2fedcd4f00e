# zfsnap_backup in Dafny

A model of `zfsnap_backup.py`. The script encrypts the snapshot files in a backup folder that have no `.gpg` artifact beside them yet. A lock file keeps two runs from overlapping.

Modules, one per part of the script:

- `Host` (host.dfy): `os.path.join`, and the filesystem. The filesystem is a class whose one field is the set of regular files that exist. `os.path.isfile`, `open(..., 'w+')` and `os.remove` become its methods.
- `LockGuard` (lock_guard.dfy): `check_lock`, `cleanup` and `sigint_handler`, as methods that change the filesystem.
- `Scanner` (scanner.dfy): `create_gpg_list`. Its loops are methods proved equal to the filter functions `GpgFiles`, `Unencrypted` and `Pending`. The lemmas relate `Pending` to a reference predicate, `NeedsEncryption`.
- `MountList` (mount_list.dfy): `get_mount_list` and Python's `str.strip()`.
- `Encryption` (encryption.dfy): `encrypt_files`. The shell is an oracle from command line to exit status.
- `RunController` (run_controller.dfy): the main block, run lock → scan → encrypt → cleanup, and the ending of a run interrupted by SIGINT.
- `Wrappers` and `Sequences`: `Option`, and the subsequence predicate used to state order.

Python exceptions are explicit results. `None` means `os.listdir` or `open` raised. `CheckCallFailed` means `subprocess.check_call` raised. `sys.exit(n)` becomes an ending that carries `n`. An uncaught exception ends the process with status 1, and the `cleanup()` call at the end of the main block is skipped.

## The source as written, and where the model follows its intent

- Line 27: the `else:` follows `sys.exit(2)`, not an `if`, so the file does not parse. `LockGuard.CheckLock` models the evident intent: exit with status 2 if the lock file exists, create it otherwise.
- `re` and `signal` are used at lines 45, 53 and 117 but never imported. The model treats them as imported.
- The model follows the code as written, including these behaviours:
  - Blank lines of the mount file are kept as `""`. Only lines whose stripped form starts with `#` are dropped.
  - `encrypt_files` stops at the first command that exits non-zero. It does not go on with the next file.
  - A failed `gpg` call or an unlistable backup folder leaves the lock file in place, because `cleanup()` is then skipped.
  - The lock is taken before the backup folder is listed. If the lock path is spelled exactly as `os.path.join(folder, name)` for a listed name, the lock file is listed and encrypted like any other file. `Run` states this by scanning `old(fs.paths) + {lockFile}`. Paths are compared as strings (see "## Left out").

## Model

| member | source | states |
|---|---|---|
| `Host.Join` | zfsnap_backup.py:39 | `os.path.join`: an absolute name replaces the folder, and the joined path always ends with the name |
| `Host.FileSystem.IsFile` | zfsnap_backup.py:22 | answers whether the path is an existing file |
| `Host.FileSystem.CreateEmpty` | zfsnap_backup.py:28 | creating the lock file adds exactly that path |
| `Host.FileSystem.Remove` | zfsnap_backup.py:33 | the path must exist; removing it takes away exactly that path |
| `LockGuard.CheckLock` | zfsnap_backup.py:21-28 | refuses (exit 2) exactly when the lock file exists, and then changes nothing; otherwise adds exactly the lock file |
| `LockGuard.Cleanup` | zfsnap_backup.py:31-33 | afterwards the lock file is absent and no other path is gone; a no-op when it was already absent |
| `LockGuard.SigintHandler` | zfsnap_backup.py:100-102 | performs cleanup (lock absent, nothing else removed) and exits with status 2 |
| `LockGuard.LockLifecycle` | zfsnap_backup.py:21-33 | a second check_lock is refused while the lock is held; cleanup twice is harmless; the lock can then be taken again; the filesystem ends as it began |
| `Scanner.IsGpg` | zfsnap_backup.py:45 | the test `re.search('\.gpg$', f)`, read as "ends with `.gpg`" (also used at line 53); definition only, no contract |
| `Scanner.ArtifactIsGpg` | zfsnap_backup.py:53-55 | the artifact name `f + ".gpg"` is itself classified as an artifact |
| `Scanner.FileList` | zfsnap_backup.py:39 | `file_list` never has more entries than the folder has names |
| `Scanner.FileListMembership` | zfsnap_backup.py:39 | a path is in `file_list` if and only if it is an existing file and the join of the folder with some listed name |
| `Scanner.GpgFilesMembership` | zfsnap_backup.py:44-46 | `gpg_list` holds exactly the listed files ending in `.gpg` |
| `Scanner.UnencryptedMembership` | zfsnap_backup.py:52-68 | the second loop appends exactly the files that are not artifacts and whose artifact is not in `gpg_list` |
| `Scanner.PendingMembership` | zfsnap_backup.py:44-68 | a file is pending if and only if it is listed, is not an artifact, and its artifact is not listed |
| `Scanner.PendingExcludesEncrypted` | zfsnap_backup.py:52-58 | no pending file ends in `.gpg`, and none has its `.gpg` artifact in the listing |
| `Scanner.PendingIsFilteredListing` | zfsnap_backup.py:52-68 | the pending list is a subsequence of the listing (listing order) holding every occurrence of each file that needs encrypting and no other file |
| `Scanner.RescanAfterEncryption` | zfsnap_backup.py:44-68 | rescanning a listing extended with the artifact of every pending file finds nothing pending |
| `Scanner.SnapshotScenario` | zfsnap_backup.py:36-74 | `[d/snap1, d/snap1.gpg, d/snap2]` leaves `[d/snap2]` to encrypt |
| `Scanner.SelectPending` | zfsnap_backup.py:44-68 | the two loops over `file_list` return exactly `Pending(file_list)` |
| `Scanner.CreateGpgList` | zfsnap_backup.py:36-74 | fails when the folder cannot be listed; otherwise returns `Pending` of the regular files of the listing |
| `MountList.IsSpace` | zfsnap_backup.py:92-93 | the characters Python's `str.isspace` accepts, which `strip()` removes; definition only, no contract |
| `MountList.Strip` | zfsnap_backup.py:92-93 | `line.strip()`: leading whitespace trimmed, then trailing; its properties are the three lemmas below |
| `MountList.TrimLeftDropsLeadingSpace` | zfsnap_backup.py:92-93 | stripping the left end drops exactly the longest all-whitespace prefix |
| `MountList.TrimRightDropsTrailingSpace` | zfsnap_backup.py:92-93 | stripping the right end drops exactly the longest all-whitespace suffix |
| `MountList.StripIdempotent` | zfsnap_backup.py:92-93 | a stripped line has no whitespace at either end, so stripping again changes nothing |
| `MountList.MountEntries` | zfsnap_backup.py:91-93 | never more entries than lines |
| `MountList.MountEntriesAreClean` | zfsnap_backup.py:91-93 | every entry is stripped and does not start with `#` |
| `MountList.MountEntriesAreFilteredLines` | zfsnap_backup.py:91-93 | the entries are the stripped lines, in file order, with exactly the `#` lines removed |
| `MountList.BlankLineKept` | zfsnap_backup.py:91-93 | `["# comment\n", "/mnt/pool/a\n", "\n"]` gives `["/mnt/pool/a", ""]` |
| `MountList.GetMountList` | zfsnap_backup.py:87-97 | exits with status 2 when the file cannot be opened; otherwise returns the entries of its lines |
| `Encryption.GpgCommand` | zfsnap_backup.py:81 | the command string `gpg --encrypt -r <recipient> "<f>"`; definition only, `CommandDeterminesFile` states what it guarantees |
| `Encryption.CommandDeterminesFile` | zfsnap_backup.py:81 | for a fixed recipient, equal command lines name equal files |
| `Encryption.EncryptFiles` | zfsnap_backup.py:77-84 | logs exactly one command per processed file, in input order; in dry-run mode executes nothing and processes every file; in live mode executes each logged command, and stops at the first non-zero status, which it reports; it finishes exactly when dry-run is set or every command returns 0 |
| `RunController.ExitStatus` | zfsnap_backup.py:26 | the exit status of each ending: 0 for a completed run; 2 for the lock already held (line 26) or SIGINT (line 102); 1 for an exception raised out of the main block (`os.listdir` at line 39, `check_call` at line 84), which Python turns into status 1; definition only, used by `Run` and `InterruptedRun` |
| `RunController.Run` | zfsnap_backup.py:116-123 | exits with status 2 exactly when the lock is held, and then changes nothing; a completed run (exit 0) leaves the modelled file set as before (the `.gpg` artifacts gpg writes are outside the model); a held lock or a failed listing logs and executes no gpg command; a failed listing or gpg call leaves exactly the lock file behind; the logged commands are those of the pending files, in order, and the executed ones are the logged ones unless dry-run; with the lock free and the folder listed, the run completes exactly when dry-run is set or every pending file's command returns 0; a gpg failure carries the last executed command and its non-zero status, every earlier one having returned 0 |
| `RunController.InterruptedRun` | zfsnap_backup.py:100-102 | SIGINT after the lock is taken leaves the modelled file set as before the run (the `.gpg` artifacts gpg writes are outside the model) and exits with status 2 |

## Left out

- Argument parsing (lines 4-12) is left out. The backup folder, recipient, lock path and dry-run flag are fields of `RunController.Config`. `args.dryrun` has no `add_argument`, so dry-run is a plain boolean. A missing `--recipient` is not modelled: `"gpg --encrypt -r " + None` raises `TypeError` at line 81 on the first pending file, before anything is logged, so the run exits with status 1 and leaves the lock file behind.
- Logging configuration, debug output and `print` (lines 23-25, 40-43, 48-51, 57, 70-73, 95, 106-115, 123) are left out: they do not change any result. `EncryptFiles` returns the logged command strings themselves, not `str()` of the one-element list.
- The real operating system is left out:
  - `os.listdir` order is an input.
  - The filesystem holds regular files only, so `os.path.isfile` (line 22) and `os.path.exists` (line 32) answer alike. A directory at the lock path is not modelled.
  - Permission errors from `open` and `os.remove` are not modelled.
  - Paths are not normalised: the filesystem compares them as strings. `/tmp//x` and `/tmp/x`, a relative and an absolute spelling, or a symbolic link and its target are different paths in the model, though they name one file.
  - The time between the existence check (line 22) and the creation (line 28), when another process could create the lock, is not modelled.
- Running gpg through the shell (line 84) is an oracle from command line to exit status. It is the same status for the same command. Its side effect, the `.gpg` file, is outside the filesystem model, and `RescanAfterEncryption` states the rescan on the extended listing instead. Shell quoting is not analysed: a file name containing `"` breaks the command.
- Signal registration and asynchronous delivery (line 117) are concurrency and are left out. Only the handler's effect is modelled. A SIGINT arriving before line 117 raises `KeyboardInterrupt` and leaves the lock; this is not modelled.
- The commented-out modification-time check (lines 60-67) and the `time`/`timedelta` imports are dead code and are left out.
- `\.gpg$` (lines 45, 53) is a plain suffix test. Python's `$` also matches before a final newline in a name; that case is not modelled.
- `MountList.GetMountList`: a decoding error while reading the file (not an `IOError`) is not modelled. Lines arrive already split, each with its line ending.
- `RunController.Run`: the model does not claim that the lock is released on every path. Only a completed run and an interrupted run release it.
