/** What a reader yields from an archive a writer produced. */
module RoundTrip {
  import opened TarModel
  import opened Naming
  import opened Writer
  import opened Reader

  /** The members of a run of puts read back as that run's pairs, in order
      and with repeated keys kept, provided dir_name has no '/'. */
  lemma {:induction false} ReadEncoded(dirName: string, pairs: seq<Pair>)
    requires '/' !in dirName
    ensures Pairs(Encode(dirName, pairs)) == pairs
  {
    if pairs != [] {
      var ms := Encode(dirName, pairs);
      assert ms[1..] == Encode(dirName, pairs[1..]);
      ReadEncoded(dirName, pairs[1..]);
      SplitKeyOfPath(dirName, pairs[0].0);
      assert pairs == [pairs[0]] + pairs[1..];
    }
  }

  /** With a '/' in dir_name (a name derived from "data/foo.tar", say) the
      round trip fails for every non-empty run of puts. */
  lemma RoundTripNeedsFlatDir(dirName: string, pairs: seq<Pair>)
    ensures Pairs(Encode(dirName, pairs)) == pairs <==> ('/' !in dirName || pairs == [])
  {
    if '/' !in dirName {
      ReadEncoded(dirName, pairs);
    } else if pairs != [] {
      var ms := Encode(dirName, pairs);
      assert ms == [ms[0]] + ms[1..];
      SplitKeyOfPath(dirName, pairs[0].0);
      assert Pairs(ms)[0] == Yield(ms[0]) != pairs[0];
    }
  }

  /** An archive that starts with its directory marker reads back as the
      pairs put after it. */
  lemma MarkedRoundTrip(dirName: string, pairs: seq<Pair>)
    requires '/' !in dirName
    ensures Pairs([DirMarker(dirName)] + Encode(dirName, pairs)) == pairs
  {
    PairsAppend([DirMarker(dirName)], Encode(dirName, pairs));
    ReadEncoded(dirName, pairs);
  }

  /** A new archive (absent file, or mode 'w') reads back as exactly the
      pairs put into it: the directory marker yields nothing. */
  lemma FreshRoundTrip(fs: FileSystem, fileName: string, mode: string, dirName: Option<string>,
                       pairs: seq<Pair>)
    requires WriterStart(fs, fileName, mode, dirName).Ok?
    requires IsNewFile(fs, fileName, mode)
    requires '/' !in WriterStart(fs, fileName, mode, dirName).value.dirName
    ensures var s := WriterStart(fs, fileName, mode, dirName).value;
      Pairs(s.members + Encode(s.dirName, pairs)) == pairs
  {
    var s := WriterStart(fs, fileName, mode, dirName).value;
    PairsAppend(s.members, Encode(s.dirName, pairs));
    ReadEncoded(s.dirName, pairs);
  }

  /** In mode 'a' on an existing file the old pairs come first, then the
      new ones. */
  lemma AppendRoundTrip(fs: FileSystem, fileName: string, mode: string, dirName: Option<string>,
                        pairs: seq<Pair>)
    requires WriterStart(fs, fileName, mode, dirName).Ok?
    requires !IsNewFile(fs, fileName, mode)
    requires '/' !in WriterStart(fs, fileName, mode, dirName).value.dirName
    ensures var s := WriterStart(fs, fileName, mode, dirName).value;
      Pairs(s.members + Encode(s.dirName, pairs)) == Pairs(fs[fileName]) + pairs
  {
    var s := WriterStart(fs, fileName, mode, dirName).value;
    PairsAppend(s.members, Encode(s.dirName, pairs));
    ReadEncoded(s.dirName, pairs);
  }

  /** The usage in the module docstring: write pairs with a TarDbWriter,
      close it, then read the file back with a TarDbReader. */
  method PutThenRead(fs: FileSystem, fileName: string, mode: string, dirName: Option<string>,
                     pairs: seq<Pair>) returns (r: Result<seq<Pair>>)
    ensures WriterStart(fs, fileName, mode, dirName).Err? ==>
      r == Err(WriterStart(fs, fileName, mode, dirName).error)
    ensures WriterStart(fs, fileName, mode, dirName).Ok? && FileDirName(fileName).None? ==>
      r == Err(NoArchiveExtension)
    ensures && WriterStart(fs, fileName, mode, dirName).Ok? && FileDirName(fileName).Some?
            && IsNewFile(fs, fileName, mode)
            && '/' !in WriterStart(fs, fileName, mode, dirName).value.dirName
            ==> r == Ok(pairs)
  {
    var w := OpenWriter(fs, fileName, mode, dirName, None);
    if w.Err? {
      return Err(w.error);
    }
    var tw := w.value;
    for i := 0 to |pairs|
      invariant tw.Valid() && tw.pairs == pairs[..i]
    {
      tw.Put(pairs[i].0, pairs[i].1);
      assert pairs[..i + 1] == pairs[..i] + [pairs[i]];
    }
    assert pairs[..|pairs|] == pairs;
    var fs' := tw.Closed(fs);
    var rd := OpenReader(fs', fileName);
    if rd.Err? {
      return Err(rd.error);
    }
    var got := rd.value.ReadAll();
    if WriterStart(fs, fileName, mode, dirName).Ok? && IsNewFile(fs, fileName, mode)
       && '/' !in tw.dirName {
      FreshRoundTrip(fs, fileName, mode, dirName, pairs);
    }
    return Ok(got);
  }
}
