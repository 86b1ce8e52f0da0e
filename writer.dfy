/** TarDbWriter: appends (key, value) pairs to an archive as members named
    dir_name + "/" + key, after a directory marker on a new archive. */
module Writer {
  import opened TarModel
  import opened Naming

  /** TarDbWriter._make_tarinfo, for the header fields the model keeps.  The
      source asserts that a directory header has size 0. */
  function MakeTarInfo(name: string, size: nat, isDir: bool): (ti: TarInfo)
    requires isDir ==> size == 0
    ensures ti.name == name && ti.size == size
    ensures isDir <==> ti.kind == Dir
    ensures !isDir <==> ti.kind == File
  {
    if isDir then TarInfo(name, Dir, 0) else TarInfo(name, File, size)
  }

  /** The zero-size directory marker a new archive starts with. */
  function DirMarker(dirName: string): Member
  {
    Member(MakeTarInfo(dirName, 0, true), "")
  }

  /** The member put(key, value) appends. */
  function FileMember(dirName: string, key: string, value: string): Member
  {
    Member(MakeTarInfo(dirName + "/" + key, |value|, false), value)
  }

  /** The members a run of puts appends, one per pair, in order. */
  function Encode(dirName: string, pairs: seq<Pair>): (ms: seq<Member>)
    ensures |ms| == |pairs|
    ensures forall i :: 0 <= i < |pairs| ==> ms[i] == FileMember(dirName, pairs[i].0, pairs[i].1)
  {
    if pairs == [] then []
    else [FileMember(dirName, pairs[0].0, pairs[0].1)] + Encode(dirName, pairs[1..])
  }

  lemma EncodeAppend(dirName: string, pairs: seq<Pair>, p: Pair)
    ensures Encode(dirName, pairs + [p]) == Encode(dirName, pairs) + [FileMember(dirName, p.0, p.1)]
  {
    assert forall i :: 0 <= i < |pairs| ==> (pairs + [p])[i] == pairs[i];
  }

  /** new_file in TarDbWriter.__init__ (line 71). */
  predicate IsNewFile(fs: FileSystem, fileName: string, mode: string)
    requires |mode| > 0
  {
    fileName !in fs || mode[0] == 'w'
  }

  /** The state TarDbWriter.__init__ leaves: the inner directory name and
      the archive's members before the first put. */
  datatype Start = Start(dirName: string, members: seq<Member>)

  /** TarDbWriter.__init__ (lines 69-79): check the mode, derive dir_name,
      open the archive (mode 'w' starts empty, mode 'a' keeps an existing
      file's members) and, on a new file, append the directory marker. */
  function WriterStart(fs: FileSystem, fileName: string, mode: string, dirName: Option<string>): (r: Result<Start>)
    ensures (|mode| == 0 || mode[0] !in "aw") <==> r == Err(BadMode)
    ensures r.Err? && r.error != BadMode ==> ResolveDirName(fileName, dirName) == Err(r.error)
    ensures r.Ok? ==> ResolveDirName(fileName, dirName) == Ok(r.value.dirName)
    ensures r.Ok? && IsNewFile(fs, fileName, mode) ==> r.value.members == [DirMarker(r.value.dirName)]
    ensures r.Ok? && !IsNewFile(fs, fileName, mode) ==> r.value.members == fs[fileName]
  {
    if |mode| == 0 || mode[0] !in "aw" then Err(BadMode)
    else
      var newFile := IsNewFile(fs, fileName, mode);
      match ResolveDirName(fileName, dirName)
      case Err(e) => Err(e)
      case Ok(d) =>
        var existing := if mode[0] == 'w' || fileName !in fs then [] else fs[fileName];
        Ok(Start(d, existing + if newFile then [DirMarker(d)] else []))
  }

  class TarDbWriter {
    const fileName: string
    const dirName: string
    const keygen: Option<string -> string>
    /** The archive, appended to in place. */
    var members: seq<Member>
    /** The members before the first put, and the pairs put since. */
    ghost const initial: seq<Member>
    ghost var pairs: seq<Pair>

    ghost predicate Valid()
      reads this
    {
      members == initial + Encode(dirName, pairs)
    }

    /** The part of TarDbWriter.__init__ after its checks: the archive as
        tarfile.open leaves it, then the marker on a new file. */
    constructor (fileName: string, dirName: string, existing: seq<Member>, newFile: bool,
                 keygen: Option<string -> string>)
      ensures this.fileName == fileName && this.dirName == dirName && this.keygen == keygen
      ensures members == existing + (if newFile then [DirMarker(dirName)] else [])
      ensures initial == members && pairs == []
      ensures Valid()
    {
      this.fileName := fileName;
      this.dirName := dirName;
      this.keygen := keygen;
      var archive := existing;
      if newFile {
        var ti := MakeTarInfo(dirName, 0, true);
        archive := archive + [Member(ti, "")];
      }
      members := archive;
      initial := archive;
      pairs := [];
    }

    /** put: append one regular member dir_name/key holding value. */
    method Put(key: string, value: string)
      requires Valid()
      modifies this
      ensures Valid()
      ensures members == old(members) + [FileMember(dirName, key, value)]
      ensures pairs == old(pairs) + [(key, value)]
    {
      var path := dirName + "/" + key;
      var ti := MakeTarInfo(path, |value|, false);
      EncodeAppend(dirName, pairs, (key, value));
      members := members + [Member(ti, value)];
      pairs := pairs + [(key, value)];
    }

    /** add: put(keygen(value), value), or fail without a keygen. */
    method Add(value: string) returns (err: Option<Error>)
      requires Valid()
      modifies this
      ensures Valid()
      ensures keygen.None? ==> err == Some(NoKeygen) && members == old(members) && pairs == old(pairs)
      ensures keygen.Some? ==>
        && err == None
        && members == old(members) + [FileMember(dirName, keygen.value(value), value)]
        && pairs == old(pairs) + [(keygen.value(value), value)]
    {
      if keygen.None? {
        return Some(NoKeygen);
      }
      var key := keygen.value(value);
      Put(key, value);
      err := None;
    }

    /** The file system once the archive is closed: the file holds the
        members. */
    function Closed(fs: FileSystem): FileSystem
      reads this
    {
      fs[fileName := members]
    }
  }

  /** Construct a TarDbWriter, with the constructor's assertion failures as
      errors.  The failures happen before tarfile.open, so nothing on disk
      changes then. */
  method OpenWriter(fs: FileSystem, fileName: string, mode: string, dirName: Option<string>,
                    keygen: Option<string -> string>) returns (r: Result<TarDbWriter>)
    ensures WriterStart(fs, fileName, mode, dirName).Err? ==>
      r.Err? && r.error == WriterStart(fs, fileName, mode, dirName).error
    ensures WriterStart(fs, fileName, mode, dirName).Ok? ==>
      && r.Ok? && fresh(r.value) && r.value.Valid()
      && r.value.fileName == fileName && r.value.keygen == keygen && r.value.pairs == []
      && r.value.dirName == WriterStart(fs, fileName, mode, dirName).value.dirName
      && r.value.members == WriterStart(fs, fileName, mode, dirName).value.members
      && r.value.initial == r.value.members
  {
    if |mode| == 0 || mode[0] !in "aw" {
      return Err(BadMode);
    }
    var newFile := fileName !in fs || mode[0] == 'w';
    var d := ResolveDirName(fileName, dirName);
    if d.Err? {
      return Err(d.error);
    }
    var existing := if mode[0] == 'w' || fileName !in fs then [] else fs[fileName];
    var w := new TarDbWriter(fileName, d.value, existing, newFile, keygen);
    return Ok(w);
  }
}
