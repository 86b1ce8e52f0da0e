/** The inner directory name of an archive: given explicitly, or derived
    from the file name by FILE_PAT (labreadb.py line 34), which Python's
    re.match anchors at the start of the name but not at its end. */
module Naming {
  import opened TarModel

  /** What FILE_PAT needs right after group 1: a dot and one of "tar", "tgz",
      "tbz", "tb2".  The longer alternatives ".tar.gz", ".tar.bz2" and
      ".tbz2" begin with one of these, so they decide nothing about where
      group 1 ends, and anything may follow the extension.  Written letter by
      letter: ".t" then "ar", "gz", "bz" or "b2". */
  predicate ExtensionAt(f: string, i: nat)
  {
    && i + 4 <= |f| && f[i] == '.' && f[i + 1] == 't'
    && ((f[i + 2] == 'a' && f[i + 3] == 'r')
        || (f[i + 2] == 'g' && f[i + 3] == 'z')
        || (f[i + 2] == 'b' && (f[i + 3] == 'z' || f[i + 3] == '2')))
  }

  /** Group 1, `(.+)`, can be f[..i]: one or more characters, none of them a
      newline (Python's `.` does not match one), followed by an extension. */
  predicate IsSplit(f: string, i: int)
  {
    1 <= i <= |f| && '\n' !in f[..i] && ExtensionAt(f, i)
  }

  /** The greedy `(.+)` backtracks from the longest candidate downwards: the
      largest split at or below i. */
  function LongestSplit(f: string, i: nat): (r: Option<nat>)
    requires i <= |f|
    ensures r.Some? ==> r.value <= i && IsSplit(f, r.value)
    ensures forall j :: (if r.Some? then r.value else 0) < j <= i ==> !IsSplit(f, j)
    decreases i
  {
    if i == 0 then None
    else if '\n' !in f[..i] && ExtensionAt(f, i) then Some(i)
    else LongestSplit(f, i - 1)
  }

  /** m.group(1) of FILE_PAT.match(f), or None when there is no match. */
  function FileDirName(f: string): (r: Option<string>)
    ensures r.Some? <==> exists i :: IsSplit(f, i)
    ensures r.Some? ==> IsSplit(f, |r.value|) && r.value == f[..|r.value|]
    ensures r.Some? ==> forall j :: |r.value| < j <= |f| ==> !IsSplit(f, j)
  {
    match LongestSplit(f, |f|)
    case None => None
    case Some(i) => Some(f[..i])
  }

  /** The dir_name logic of TarDb.__init__: a non-empty dir_name is used as
      it is; a missing or empty one (both are false in Python) is derived,
      and the assert fails when FILE_PAT does not match. */
  function ResolveDirName(fileName: string, dirName: Option<string>): (r: Result<string>)
    ensures dirName.Some? && dirName.value != "" ==> r == Ok(dirName.value)
    ensures (dirName.None? || dirName.value == "") ==>
      (r.Ok? <==> exists i :: IsSplit(fileName, i)) &&
      (r.Ok? ==> FileDirName(fileName) == Some(r.value)) &&
      (r.Err? ==> r.error == NoArchiveExtension)
  {
    if dirName.Some? && dirName.value != "" then Ok(dirName.value)
    else match FileDirName(fileName)
      case None => Err(NoArchiveExtension)
      case Some(d) => Ok(d)
  }

  /** The converse of FileDirName's contract: a split with no longer split
      after it is the derived name. */
  lemma FileDirNameIs(f: string, i: nat)
    requires IsSplit(f, i)
    requires forall j :: i < j <= |f| ==> !IsSplit(f, j)
    ensures FileDirName(f) == Some(f[..i])
  {
    var r := FileDirName(f);
    assert r.Some?;
    assert |r.value| >= i;
  }

  /** Group 1 runs up to the LAST extension that starts a suffix. */
  lemma GreedyExample()
    ensures FileDirName("a.tar.tgz") == Some("a.tar")
  {
    var f := "a.tar.tgz";
    assert forall j :: 5 < j <= |f| ==> !ExtensionAt(f, j);
    FileDirNameIs(f, 5);
    assert f[..5] == "a.tar";
  }

  /** The compound extension ".tar.gz" is stripped whole. */
  lemma CompoundExample()
    ensures FileDirName("foo.tar.gz") == Some("foo")
  {
    var f := "foo.tar.gz";
    assert forall j :: 3 < j <= |f| ==> !ExtensionAt(f, j);
    FileDirNameIs(f, 3);
    assert f[..3] == "foo";
  }

  /** The match is not anchored at the end: text appended to a name that
      matches never removes the match, and, group 1 being greedy, the
      derived name can only grow, keeping the old one as its prefix. */
  lemma UnanchoredEnd(f: string, rest: string)
    requires FileDirName(f).Some?
    ensures FileDirName(f + rest).Some?
    ensures |FileDirName(f).value| <= |FileDirName(f + rest).value|
    ensures FileDirName(f + rest).value[..|FileDirName(f).value|] == FileDirName(f).value
  {
    var i := |FileDirName(f).value|;
    var g := f + rest;
    assert g[..i] == f[..i];
    assert IsSplit(g, i);
  }

  /** Group 1 cannot cross a newline: the extension after one is out of
      reach, and the last extension before it decides. */
  lemma NewlineExample()
    ensures FileDirName("a.tar\nb.tar") == Some("a")
  {
    var f := "a.tar\nb.tar";
    assert f[5] == '\n';
    assert forall j :: 5 < j <= |f| ==> f[5] in f[..j];
    assert forall j :: 1 < j <= 5 ==> !ExtensionAt(f, j);
    FileDirNameIs(f, 1);
    assert f[..1] == "a";
  }

  /** A directory part of the file name stays in the derived name. */
  lemma NestedExample()
    ensures FileDirName("data/foo.tbz2") == Some("data/foo")
  {
    var f := "data/foo.tbz2";
    assert forall j :: 8 < j <= |f| ==> !ExtensionAt(f, j);
    FileDirNameIs(f, 8);
    assert f[..8] == "data/foo";
  }

  /** No match: an empty group 1, no extension, or a newline before it. */
  lemma NoMatchExample()
    ensures FileDirName(".tar") == None
    ensures FileDirName("foo.zip") == None
    ensures FileDirName("x\ny.tar") == None
  {
    assert forall j :: 1 <= j <= 4 ==> !ExtensionAt(".tar", j);
    assert forall j :: 1 <= j <= 7 ==> !ExtensionAt("foo.zip", j);
    var f := "x\ny.tar";
    assert !IsSplit(f, 1);
    forall i | 2 <= i <= |f| ensures !IsSplit(f, i) {
      assert f[..i][1] == '\n';
    }
  }
}
