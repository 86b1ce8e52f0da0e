/** TarDbReader: a forward cursor over an archive's members that yields a
    (key, value) pair for each regular file and skips everything else. */
module Reader {
  import opened TarModel
  import opened Strings
  import opened Naming

  /** The key of a member: the text after its first '/', or the whole name
      when it has none. */
  function SplitKey(name: string): (key: string)
    ensures '/' !in name ==> key == name
    ensures '/' in name ==>
      exists i :: 0 <= i < |name| && name[i] == '/' && '/' !in name[..i] && key == name[i + 1..]
  {
    var i := Find(name, '/');
    if i < 0 then name else name[i + 1..]
  }

  /** The pair next() returns for a regular member. */
  function Yield(m: Member): Pair
  {
    (SplitKey(m.info.name), m.content)
  }

  /** The whole stream a reader yields over members ms, in storage order. */
  function Pairs(ms: seq<Member>): seq<Pair>
  {
    if ms == [] then []
    else (if ms[0].IsFile() then [Yield(ms[0])] else []) + Pairs(ms[1..])
  }

  lemma PairsAt(ms: seq<Member>, i: nat)
    requires i < |ms|
    ensures Pairs(ms[i..]) == (if ms[i].IsFile() then [Yield(ms[i])] else []) + Pairs(ms[i + 1..])
  {
    assert ms[i..][1..] == ms[i + 1..];
  }

  /** The stream of two archives' members laid end to end. */
  lemma {:induction false} PairsAppend(a: seq<Member>, b: seq<Member>)
    ensures Pairs(a + b) == Pairs(a) + Pairs(b)
  {
    if a == [] {
      assert a + b == b;
    } else {
      assert (a + b)[0] == a[0];
      assert (a + b)[1..] == a[1..] + b;
      PairsAppend(a[1..], b);
    }
  }

  /** A member that is not a regular file, wherever it stands, adds nothing
      to the stream: directory markers never surface as pairs. */
  lemma SkipsNonFile(a: seq<Member>, m: Member, b: seq<Member>)
    requires !m.IsFile()
    ensures Pairs(a + [m] + b) == Pairs(a + b)
  {
    PairsAppend(a + [m], b);
    PairsAppend(a, [m]);
    PairsAppend(a, b);
  }

  /** A regular member yields exactly its own pair, between the pairs of the
      members before and after it. */
  lemma YieldsFile(a: seq<Member>, m: Member, b: seq<Member>)
    requires m.IsFile()
    ensures Pairs(a + [m] + b) == Pairs(a) + [Yield(m)] + Pairs(b)
  {
    PairsAppend(a + [m], b);
    PairsAppend(a, [m]);
  }

  /** Every pair in the stream comes from a regular member. */
  lemma {:induction false} PairsFromFiles(ms: seq<Member>)
    ensures forall p :: p in Pairs(ms) ==> exists i :: 0 <= i < |ms| && ms[i].IsFile() && p == Yield(ms[i])
  {
    if ms != [] {
      PairsFromFiles(ms[1..]);
      forall p | p in Pairs(ms) ensures exists i :: 0 <= i < |ms| && ms[i].IsFile() && p == Yield(ms[i]) {
        if ms[0].IsFile() && p == Yield(ms[0]) {
        } else {
          assert p in Pairs(ms[1..]);
          var i :| 0 <= i < |ms[1..]| && ms[1..][i].IsFile() && p == Yield(ms[1..][i]);
          assert ms[i + 1] == ms[1..][i];
        }
      }
    }
  }

  /** The key split recovers the key from dir_name + "/" + key exactly when
      dir_name has no '/'; otherwise the key comes back with the rest of
      dir_name in front of it. */
  lemma SplitKeyOfPath(dirName: string, key: string)
    ensures SplitKey(dirName + "/" + key) == key <==> '/' !in dirName
  {
    var name := dirName + "/" + key;
    var i := Find(name, '/');
    assert name[|dirName|] == '/';
    assert forall k :: 0 <= k < |dirName| ==> name[k] == dirName[k];
    assert forall k :: 0 <= k < i ==> name[..i][k] == name[k];
    assert i <= |dirName|;
    if '/' !in dirName {
      assert i == |dirName|;
      assert name[i + 1..] == key;
    } else {
      assert i < |dirName|;
      assert |name[i + 1..]| > |key|;
    }
  }

  /** What TarDbReader's constructor checks: the path is a file
      (os.path.isfile), then FILE_PAT derives a dir_name from it.  A reader
      opens exactly the existing files whose name has a split; it then reads
      the members stored there.  A missing file is reported before a name
      without a tar extension. */
  function ReaderStart(fs: FileSystem, fileName: string): (r: Result<seq<Member>>)
    ensures r.Ok? <==> fileName in fs && exists i :: IsSplit(fileName, i)
    ensures r.Ok? ==> r.value == fs[fileName]
    ensures r.Err? ==> r.error == (if fileName in fs then NoArchiveExtension else NotAFile)
  {
    if fileName !in fs then Err(NotAFile)
    else if FileDirName(fileName).None? then Err(NoArchiveExtension)
    else Ok(fs[fileName])
  }

  class TarDbReader {
    const fileName: string
    const dirName: string
    /** The archive as the codec reads it, and the codec's cursor. */
    const members: seq<Member>
    var pos: nat

    ghost predicate Valid()
      reads this
    {
      pos <= |members|
    }

    /** The pairs still to come. */
    ghost function Remaining(): seq<Pair>
      reads this
      requires Valid()
    {
      Pairs(members[pos..])
    }

    constructor (fileName: string, dirName: string, members: seq<Member>)
      ensures this.fileName == fileName && this.dirName == dirName && this.members == members
      ensures pos == 0 && Valid()
      ensures Remaining() == Pairs(members)
    {
      this.fileName := fileName;
      this.dirName := dirName;
      this.members := members;
      pos := 0;
    }

    /** next(): skip members that are not regular files, then return the
        next file's key and content; None when the archive is exhausted
        (StopIteration). */
    method Next() returns (r: Option<Pair>)
      requires Valid()
      modifies this
      ensures Valid()
      ensures old(Remaining()) == [] ==> r == None && pos == |members|
      ensures old(Remaining()) != [] ==> r == Some(old(Remaining())[0]) && Remaining() == old(Remaining())[1..]
    {
      while pos < |members| && !members[pos].IsFile()
        invariant pos <= |members|
        invariant Pairs(members[pos..]) == old(Remaining())
        decreases |members| - pos
      {
        PairsAt(members, pos);
        pos := pos + 1;
      }
      if pos == |members| {
        r := None;
      } else {
        var ti := members[pos];
        PairsAt(members, pos);
        pos := pos + 1;
        var i := Find(ti.info.name, '/');
        var key := if i < 0 then ti.info.name else ti.info.name[i + 1..];
        r := Some((key, ti.content));
      }
    }

    /** Iterating the reader until it is exhausted, as the loaders do. */
    method ReadAll() returns (ps: seq<Pair>)
      requires Valid()
      modifies this
      ensures Valid()
      ensures ps == old(Remaining()) && Remaining() == []
    {
      ps := [];
      var p := Next();
      while p.Some?
        invariant Valid()
        invariant ps + (if p.Some? then [p.value] else []) + Remaining() == old(Remaining())
        invariant p.None? ==> Remaining() == []
        decreases |Remaining()| + (if p.Some? then 1 else 0)
      {
        ps := ps + [p.value];
        p := Next();
      }
    }
  }

  /** Construct a TarDbReader, with the constructor's assertion failures as
      errors. */
  method OpenReader(fs: FileSystem, fileName: string) returns (r: Result<TarDbReader>)
    ensures ReaderStart(fs, fileName).Err? ==> r.Err? && r.error == ReaderStart(fs, fileName).error
    ensures ReaderStart(fs, fileName).Ok? ==>
      && r.Ok? && fresh(r.value) && r.value.Valid() && r.value.fileName == fileName
      && r.value.members == ReaderStart(fs, fileName).value
      && r.value.Remaining() == Pairs(ReaderStart(fs, fileName).value)
  {
    if fileName !in fs {
      return Err(NotAFile);
    }
    var d := FileDirName(fileName);
    if d.None? {
      return Err(NoArchiveExtension);
    }
    var tr := new TarDbReader(fileName, d.value, fs[fileName]);
    return Ok(tr);
  }
}
