/**
  create_gpg_list: from the regular files directly inside the backup folder,
  select the plaintext files that have no encrypted artifact `<file>.gpg` beside
  them, in listing order.
 */
module Scanner {
  import opened Wrappers
  import opened Sequences
  import opened Host

  /** The suffix gpg gives the encrypted artifact of a file. */
  const GpgSuffix := ".gpg"

  /** The test `re.search('\.gpg$', f)`, read as a plain suffix test. */
  predicate IsGpg(f: string)
  {
    |f| >= |GpgSuffix| && f[|f| - |GpgSuffix|..] == GpgSuffix
  }

  /** The name of the artifact gpg writes for `f` is itself classified as an artifact. */
  lemma ArtifactIsGpg(f: string)
    ensures IsGpg(f + GpgSuffix)
  {
  }

  /** The listed names joined to the folder, in listing order. */
  function JoinedPaths(folder: string, names: seq<string>): seq<string>
  {
    seq(|names|, i requires 0 <= i < |names| => Join(folder, names[i]))
  }

  /** The candidates that are existing regular files, in order. */
  function ExistingFiles(candidates: seq<string>, paths: set<string>): (files: seq<string>)
    ensures |files| <= |candidates|
  {
    if candidates == [] then []
    else
      var path := candidates[|candidates| - 1];
      ExistingFiles(candidates[..|candidates| - 1], paths) + if path in paths then [path] else []
  }

  /**
    The comprehension that builds `file_list`: the joined path of every listed
    name that is a regular file, in listing order.
   */
  function FileList(folder: string, names: seq<string>, paths: set<string>): (files: seq<string>)
    ensures |files| <= |names|
  {
    ExistingFiles(JoinedPaths(folder, names), paths)
  }

  lemma {:induction false} ExistingFilesMembership(candidates: seq<string>, paths: set<string>, f: string)
    ensures f in ExistingFiles(candidates, paths) <==> f in candidates && f in paths
    decreases |candidates|
  {
    if candidates != [] {
      var init := candidates[..|candidates| - 1];
      ExistingFilesMembership(init, paths, f);
      assert candidates == init + [candidates[|candidates| - 1]];
    }
  }

  /** `file_list` holds exactly the joined paths of the listed names that are existing files. */
  lemma FileListMembership(folder: string, names: seq<string>, paths: set<string>, f: string)
    ensures f in FileList(folder, names, paths) <==>
            f in paths && exists i :: 0 <= i < |names| && Join(folder, names[i]) == f
  {
    var joined := JoinedPaths(folder, names);
    ExistingFilesMembership(joined, paths, f);
    if f in joined {
      var i :| 0 <= i < |joined| && joined[i] == f;
      assert Join(folder, names[i]) == f;
    }
    if exists i :: 0 <= i < |names| && Join(folder, names[i]) == f {
      var i :| 0 <= i < |names| && Join(folder, names[i]) == f;
      assert joined[i] == f;
    }
  }

  /** What the first loop collects into `gpg_list`: the artifacts among `files`, in order. */
  function GpgFiles(files: seq<string>): seq<string>
  {
    if files == [] then []
    else
      var f := files[|files| - 1];
      GpgFiles(files[..|files| - 1]) + if IsGpg(f) then [f] else []
  }

  /** `gpg_list` holds exactly the listed files ending in `.gpg`. */
  lemma {:induction false} GpgFilesMembership(files: seq<string>, f: string)
    ensures f in GpgFiles(files) <==> f in files && IsGpg(f)
    decreases |files|
  {
    if files != [] {
      var init := files[..|files| - 1];
      GpgFilesMembership(init, f);
      assert files == init + [files[|files| - 1]];
    }
  }

  /**
    What the second loop appends to `files_to_encrypt`, given the collected
    `gpgList`: every file that is not an artifact and whose artifact is not in `gpgList`.
   */
  function Unencrypted(files: seq<string>, gpgList: seq<string>): seq<string>
  {
    if files == [] then []
    else
      var f := files[|files| - 1];
      Unencrypted(files[..|files| - 1], gpgList) + if !IsGpg(f) && f + GpgSuffix !in gpgList then [f] else []
  }

  lemma {:induction false} UnencryptedMembership(files: seq<string>, gpgList: seq<string>, f: string)
    ensures f in Unencrypted(files, gpgList) <==> f in files && !IsGpg(f) && f + GpgSuffix !in gpgList
    decreases |files|
  {
    if files != [] {
      var init := files[..|files| - 1];
      UnencryptedMembership(init, gpgList, f);
      assert files == init + [files[|files| - 1]];
    }
  }

  /** The result of create_gpg_list for the file list `files`. */
  function Pending(files: seq<string>): seq<string>
  {
    Unencrypted(files, GpgFiles(files))
  }

  /** Reference definition: `f` still needs encrypting when it is no artifact and has no artifact in `files`. */
  predicate NeedsEncryption(files: seq<string>, f: string)
  {
    !IsGpg(f) && f + GpgSuffix !in files
  }

  /** Membership: exactly the listed files that need encrypting are pending. */
  lemma PendingMembership(files: seq<string>, f: string)
    ensures f in Pending(files) <==> f in files && NeedsEncryption(files, f)
  {
    ArtifactIsGpg(f);
    UnencryptedMembership(files, GpgFiles(files), f);
    GpgFilesMembership(files, f + GpgSuffix);
  }

  /** No pending file is an artifact, and none has its artifact in the listing. */
  lemma PendingExcludesEncrypted(files: seq<string>)
    ensures forall f :: f in Pending(files) ==> !IsGpg(f)
    ensures forall f :: f in Pending(files) ==> f + GpgSuffix !in files
  {
    forall f | f in Pending(files)
      ensures !IsGpg(f) && f + GpgSuffix !in files
    {
      PendingMembership(files, f);
    }
  }

  lemma {:induction false} UnencryptedIsSubsequence(files: seq<string>, gpgList: seq<string>)
    ensures IsSubsequence(Unencrypted(files, gpgList), files)
    decreases |files|
  {
    if files != [] {
      var init, f := files[..|files| - 1], files[|files| - 1];
      var pending := Unencrypted(files, gpgList);
      UnencryptedIsSubsequence(init, gpgList);
      if !IsGpg(f) && f + GpgSuffix !in gpgList {
        assert pending[|pending| - 1] == f && pending[..|pending| - 1] == Unencrypted(init, gpgList);
      } else {
        assert pending == Unencrypted(init, gpgList);
      }
    }
  }

  lemma {:induction false} UnencryptedCount(files: seq<string>, gpgList: seq<string>, f: string)
    ensures multiset(Unencrypted(files, gpgList))[f] ==
            if !IsGpg(f) && f + GpgSuffix !in gpgList then multiset(files)[f] else 0
    decreases |files|
  {
    if files != [] {
      var init, last := files[..|files| - 1], files[|files| - 1];
      UnencryptedCount(init, gpgList, f);
      assert files == init + [last];
    }
  }

  /**
    Order and multiplicity: the pending list is a subsequence of the listing
    that keeps every occurrence of a file needing encryption and nothing else,
    so it is exactly the listing filtered by NeedsEncryption, in listing order.
   */
  lemma PendingIsFilteredListing(files: seq<string>)
    ensures IsSubsequence(Pending(files), files)
    ensures forall f :: multiset(Pending(files))[f] == if NeedsEncryption(files, f) then multiset(files)[f] else 0
  {
    UnencryptedIsSubsequence(files, GpgFiles(files));
    forall f
      ensures multiset(Pending(files))[f] == if NeedsEncryption(files, f) then multiset(files)[f] else 0
    {
      UnencryptedCount(files, GpgFiles(files), f);
      ArtifactIsGpg(f);
      GpgFilesMembership(files, f + GpgSuffix);
    }
  }

  /** The artifact names gpg produces for `pending`, one per file, in order. */
  function ArtifactsOf(pending: seq<string>): seq<string>
  {
    seq(|pending|, i requires 0 <= i < |pending| => pending[i] + GpgSuffix)
  }

  /**
    Rescanning is idempotent once the artifacts exist: a listing extended with
    the artifact of every pending file has nothing left to encrypt.
   */
  lemma RescanAfterEncryption(files: seq<string>)
    ensures Pending(files + ArtifactsOf(Pending(files))) == []
  {
    var pending := Pending(files);
    var artifacts := ArtifactsOf(pending);
    var after := files + artifacts;
    forall f | f in after
      ensures !NeedsEncryption(after, f)
    {
      if f in artifacts {
        var i :| 0 <= i < |artifacts| && artifacts[i] == f;
        ArtifactIsGpg(pending[i]);
      } else if !IsGpg(f) && f + GpgSuffix !in files {
        PendingMembership(files, f);
        var i :| 0 <= i < |pending| && pending[i] == f;
        assert artifacts[i] == f + GpgSuffix;
      }
    }
    if Pending(after) != [] {
      var g := Pending(after)[0];
      PendingMembership(after, g);
      assert false;
    }
  }

  /** The listing `[d/snap1, d/snap1.gpg, d/snap2]` leaves `[d/snap2]` to encrypt. */
  lemma SnapshotScenario()
    ensures Pending(["d/snap1", "d/snap1.gpg", "d/snap2"]) == ["d/snap2"]
  {
    var files := ["d/snap1", "d/snap1.gpg", "d/snap2"];
    var one, two := ["d/snap1"], ["d/snap1", "d/snap1.gpg"];
    assert "d/snap1.gpg"[7..] == GpgSuffix;
    assert !IsGpg("d/snap1") && IsGpg("d/snap1.gpg") && !IsGpg("d/snap2");
    assert files[..2] == two && two[..1] == one && one[..0] == [];
    assert GpgFiles(one) == [];
    assert GpgFiles(two) == ["d/snap1.gpg"];
    assert GpgFiles(files) == ["d/snap1.gpg"];
    var gpgList := ["d/snap1.gpg"];
    assert "d/snap1" + GpgSuffix == gpgList[0];
    assert "d/snap2" + GpgSuffix !in gpgList;
    assert Unencrypted(one, gpgList) == [];
    assert Unencrypted(two, gpgList) == [];
  }

  /**
    create_gpg_list. `listing` is what os.listdir returns for the folder, `None`
    when it raises (the exception leaves create_gpg_list). The regular files of
    the listing are then classified by SelectPending.
   */
  method CreateGpgList(fs: FileSystem, targetFolder: string, listing: Option<seq<string>>)
    returns (filesToEncrypt: Option<seq<string>>)
    ensures listing.None? ==> filesToEncrypt.None?
    ensures listing.Some? ==> filesToEncrypt == Some(Pending(FileList(targetFolder, listing.value, fs.paths)))
  {
    if listing.None? {
      return None;
    }
    var fileList := FileList(targetFolder, listing.value, fs.paths);
    var pending := SelectPending(fileList);
    filesToEncrypt := Some(pending);
  }

  /**
    The two loops of create_gpg_list over `file_list`: the first collects the
    artifacts into `gpg_list`, the second appends to `files_to_encrypt` every file
    that is no artifact and whose artifact is not in `gpg_list`.
   */
  method SelectPending(fileList: seq<string>) returns (filesToEncrypt: seq<string>)
    ensures filesToEncrypt == Pending(fileList)
  {
    var gpgList := [];
    var i := 0;
    while i < |fileList|
      invariant 0 <= i <= |fileList|
      invariant gpgList == GpgFiles(fileList[..i])
    {
      var f := fileList[i];
      assert fileList[..i + 1][..i] == fileList[..i];
      if IsGpg(f) {
        gpgList := gpgList + [f];
      }
      i := i + 1;
    }
    assert fileList[..|fileList|] == fileList;

    filesToEncrypt := [];
    i := 0;
    while i < |fileList|
      invariant 0 <= i <= |fileList|
      invariant filesToEncrypt == Unencrypted(fileList[..i], gpgList)
    {
      var f := fileList[i];
      assert fileList[..i + 1][..i] == fileList[..i];
      if IsGpg(f) {
        // an artifact itself: skipped
      } else if f + GpgSuffix in gpgList {
        // its artifact already exists: skipped
      } else {
        filesToEncrypt := filesToEncrypt + [f];
      }
      i := i + 1;
    }
  }
}
