/**
  encrypt_files: for each pending file, in order, build the gpg command line,
  log it, and (unless in dry-run mode) run it through the shell; a non-zero exit
  status makes subprocess.check_call raise, which ends the loop.
 */
module Encryption {

  /** The command string built for `file`; it is plain concatenation, with no escaping. */
  function GpgCommand(recipient: string, file: string): string
  {
    "gpg --encrypt -r " + recipient + " \"" + file + "\""
  }

  /** For a fixed recipient, the command line names its file: different files give different commands. */
  lemma CommandDeterminesFile(recipient: string, file1: string, file2: string)
    requires GpgCommand(recipient, file1) == GpgCommand(recipient, file2)
    ensures file1 == file2
  {
    var prefix := "gpg --encrypt -r " + recipient + " \"";
    var c := GpgCommand(recipient, file1);
    assert c == prefix + file1 + "\"";
    assert c == prefix + file2 + "\"";
    assert |file1| == |file2|;
    assert c[|prefix|..|prefix| + |file1|] == file1;
    assert c[|prefix|..|prefix| + |file2|] == file2;
  }

  datatype EncryptEnd =
    | AllIssued                                   // the loop ran over every file
    | CheckCallFailed(command: string, status: int)  // check_call raised CalledProcessError

  /**
    encrypt_files. `shell` stands for the shell running a command line and gives
    its exit status. `logged` are the commands passed to logging.info, `executed`
    those handed to the shell.
   */
  method EncryptFiles(files: seq<string>, recipient: string, dryRun: bool, shell: string -> int)
    returns (logged: seq<string>, executed: seq<string>, end: EncryptEnd)
    ensures |logged| <= |files|
    ensures forall i :: 0 <= i < |logged| ==> logged[i] == GpgCommand(recipient, files[i])
    ensures executed == if dryRun then [] else logged
    ensures forall i :: 0 <= i < |executed| - 1 ==> shell(executed[i]) == 0
    ensures end == AllIssued <==> |logged| == |files| && forall c :: c in executed ==> shell(c) == 0
    ensures end == AllIssued <==>
              dryRun || forall i :: 0 <= i < |files| ==> shell(GpgCommand(recipient, files[i])) == 0
    ensures end.CheckCallFailed? ==>
              executed != [] && end.command == executed[|executed| - 1] &&
              end.status == shell(end.command) && end.status != 0
  {
    logged, executed := [], [];
    var i := 0;
    while i < |files|
      invariant 0 <= i <= |files| && |logged| == i
      invariant forall k :: 0 <= k < i ==> logged[k] == GpgCommand(recipient, files[k])
      invariant executed == if dryRun then [] else logged
      invariant forall c :: c in executed ==> shell(c) == 0
      invariant !dryRun ==> forall k :: 0 <= k < i ==> shell(GpgCommand(recipient, files[k])) == 0
    {
      var gpgCmd := GpgCommand(recipient, files[i]);
      logged := logged + [gpgCmd];
      if !dryRun {
        executed := executed + [gpgCmd];
        var status := shell(gpgCmd);
        if status != 0 {
          return logged, executed, CheckCallFailed(gpgCmd, status);
        }
      }
      i := i + 1;
    }
    end := AllIssued;
  }
}
