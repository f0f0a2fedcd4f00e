/**
  get_mount_list: read the mount file line by line and keep, stripped, every
  line that does not start with `#` once stripped. Blank lines are kept as "".
 */
module MountList {
  import opened Wrappers
  import opened Sequences

  /** Exit status of sys.exit(2) when the mount file cannot be opened. */
  const UnreadableExitStatus := 2

  /** The characters Python's str.isspace accepts, which str.strip() removes. */
  predicate IsSpace(c: char)
  {
    ('\U{9}' <= c <= '\U{D}') || ('\U{1C}' <= c <= '\U{20}') ||
    c == '\U{85}' || c == '\U{A0}' || c == '\U{1680}' ||
    ('\U{2000}' <= c <= '\U{200A}') || c == '\U{2028}' || c == '\U{2029}' ||
    c == '\U{202F}' || c == '\U{205F}' || c == '\U{3000}'
  }

  /** Removes leading whitespace. */
  function TrimLeft(s: string): string
  {
    if s != [] && IsSpace(s[0]) then TrimLeft(s[1..]) else s
  }

  /** Removes trailing whitespace. */
  function TrimRight(s: string): string
  {
    if s != [] && IsSpace(s[|s| - 1]) then TrimRight(s[..|s| - 1]) else s
  }

  /** str.strip() with no argument. */
  function Strip(s: string): string
  {
    TrimRight(TrimLeft(s))
  }

  /** TrimLeft drops the longest prefix made of whitespace only, and nothing else. */
  lemma {:induction false} TrimLeftDropsLeadingSpace(s: string)
    ensures var r := TrimLeft(s);
      |r| <= |s| && r == s[|s| - |r|..] && (r == [] || !IsSpace(r[0])) &&
      forall k :: 0 <= k < |s| - |r| ==> IsSpace(s[k])
    decreases |s|
  {
    if s != [] && IsSpace(s[0]) {
      TrimLeftDropsLeadingSpace(s[1..]);
    }
  }

  /** TrimRight drops the longest suffix made of whitespace only, and nothing else. */
  lemma {:induction false} TrimRightDropsTrailingSpace(s: string)
    ensures var r := TrimRight(s);
      |r| <= |s| && r == s[..|r|] && (r == [] || !IsSpace(r[|r| - 1])) &&
      forall k :: |r| <= k < |s| ==> IsSpace(s[k])
    decreases |s|
  {
    if s != [] && IsSpace(s[|s| - 1]) {
      TrimRightDropsTrailingSpace(s[..|s| - 1]);
    }
  }

  /** A stripped string has no whitespace at either end, so stripping it again changes nothing. */
  lemma StripIdempotent(s: string)
    ensures var r := Strip(s); r == [] || (!IsSpace(r[0]) && !IsSpace(r[|r| - 1]))
    ensures Strip(Strip(s)) == Strip(s)
  {
    var l := TrimLeft(s);
    var r := TrimRight(l);
    TrimLeftDropsLeadingSpace(s);
    TrimRightDropsTrailingSpace(l);
    if r != [] {
      assert r[0] == l[0];
    }
  }

  /** `line.strip().startswith('#')`, applied to the stripped line. */
  predicate IsComment(entry: string)
  {
    |entry| > 0 && entry[0] == '#'
  }

  /** Every line, stripped, in file order. */
  function StrippedLines(lines: seq<string>): seq<string>
  {
    seq(|lines|, i requires 0 <= i < |lines| => Strip(lines[i]))
  }

  /** The stripped lines that are not comments, in order. */
  function NonComments(stripped: seq<string>): (kept: seq<string>)
    ensures |kept| <= |stripped|
  {
    if stripped == [] then []
    else
      var entry := stripped[|stripped| - 1];
      NonComments(stripped[..|stripped| - 1]) + if IsComment(entry) then [] else [entry]
  }

  /** The list get_mount_list builds from the lines of the mount file. */
  function MountEntries(lines: seq<string>): (entries: seq<string>)
    ensures |entries| <= |lines|
  {
    NonComments(StrippedLines(lines))
  }

  lemma {:induction false} NonCommentsMembership(stripped: seq<string>, e: string)
    ensures e in NonComments(stripped) <==> e in stripped && !IsComment(e)
    decreases |stripped|
  {
    if stripped != [] {
      var init := stripped[..|stripped| - 1];
      NonCommentsMembership(init, e);
      assert stripped == init + [stripped[|stripped| - 1]];
    }
  }

  lemma {:induction false} NonCommentsIsSubsequence(stripped: seq<string>)
    ensures IsSubsequence(NonComments(stripped), stripped)
    decreases |stripped|
  {
    if stripped != [] {
      var init, entry := stripped[..|stripped| - 1], stripped[|stripped| - 1];
      var kept := NonComments(stripped);
      NonCommentsIsSubsequence(init);
      if IsComment(entry) {
        assert kept == NonComments(init);
      } else {
        assert kept[|kept| - 1] == entry && kept[..|kept| - 1] == NonComments(init);
      }
    }
  }

  lemma {:induction false} NonCommentsCount(stripped: seq<string>, e: string)
    ensures multiset(NonComments(stripped))[e] == if IsComment(e) then 0 else multiset(stripped)[e]
    decreases |stripped|
  {
    if stripped != [] {
      var init, entry := stripped[..|stripped| - 1], stripped[|stripped| - 1];
      NonCommentsCount(init, e);
      assert stripped == init + [entry];
    }
  }

  /** Every entry is stripped and is not a comment. */
  lemma MountEntriesAreClean(lines: seq<string>)
    ensures forall e :: e in MountEntries(lines) ==> !IsComment(e) && Strip(e) == e
  {
    var stripped := StrippedLines(lines);
    forall e | e in MountEntries(lines)
      ensures !IsComment(e) && Strip(e) == e
    {
      NonCommentsMembership(stripped, e);
      var i :| 0 <= i < |stripped| && stripped[i] == e;
      StripIdempotent(lines[i]);
    }
  }

  /**
    Order and multiplicity: the entries are the stripped lines with the comment
    lines deleted and nothing else, in file order (blank lines stay, as "").
   */
  lemma MountEntriesAreFilteredLines(lines: seq<string>)
    ensures IsSubsequence(MountEntries(lines), StrippedLines(lines))
    ensures forall e :: multiset(MountEntries(lines))[e] == if IsComment(e) then 0 else multiset(StrippedLines(lines))[e]
  {
    NonCommentsIsSubsequence(StrippedLines(lines));
    forall e
      ensures multiset(MountEntries(lines))[e] == if IsComment(e) then 0 else multiset(StrippedLines(lines))[e]
    {
      NonCommentsCount(StrippedLines(lines), e);
    }
  }

  /** A comment, a mount point and a blank line: the comment goes, the blank line stays as "". */
  lemma BlankLineKept()
    ensures MountEntries(["# comment\n", "/mnt/pool/a\n", "\n"]) == ["/mnt/pool/a", ""]
  {
    var lines := ["# comment\n", "/mnt/pool/a\n", "\n"];
    assert TrimLeft("# comment\n") == "# comment\n";
    assert "# comment\n"[..9] == "# comment";
    assert Strip("# comment\n") == "# comment";
    assert TrimLeft("/mnt/pool/a\n") == "/mnt/pool/a\n";
    assert "/mnt/pool/a\n"[..11] == "/mnt/pool/a";
    assert Strip("/mnt/pool/a\n") == "/mnt/pool/a";
    assert "\n"[1..] == "";
    assert Strip("\n") == "";
    var stripped := ["# comment", "/mnt/pool/a", ""];
    assert StrippedLines(lines) == stripped;
    assert stripped[..2][..1] == ["# comment"];
    assert NonComments(["# comment"]) == [];
    assert NonComments(stripped[..2]) == ["/mnt/pool/a"];
  }

  datatype MountList =
    | Mounts(entries: seq<string>)  // the mount points, in file order
    | Exited(status: int)           // the file could not be opened: sys.exit(status)

  /**
    get_mount_list. `mountFile` holds the lines of the file as Python iterates
    them (each with its line ending), or `None` when open() raises IOError.
   */
  method GetMountList(mountFile: Option<seq<string>>) returns (r: MountList)
    ensures mountFile.None? ==> r == Exited(UnreadableExitStatus)
    ensures mountFile.Some? ==> r == Mounts(MountEntries(mountFile.value))
  {
    if mountFile.None? {
      return Exited(UnreadableExitStatus);
    }
    var lines := mountFile.value;
    ghost var stripped := StrippedLines(lines);
    var mountList := [];
    var i := 0;
    while i < |lines|
      invariant 0 <= i <= |lines|
      invariant mountList == NonComments(stripped[..i])
    {
      assert stripped[..i + 1][..i] == stripped[..i];
      var entry := Strip(lines[i]);
      if !IsComment(entry) {
        mountList := mountList + [entry];
      }
      i := i + 1;
    }
    assert stripped[..|lines|] == stripped;
    r := Mounts(mountList);
  }
}
