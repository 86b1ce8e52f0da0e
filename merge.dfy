/** save_map, save_set, load_dict and load_set: many pairs into one archive,
    and many archives into one dict or set, in a fixed order. */
module Merge {
  import opened TarModel
  import opened Strings
  import opened Naming
  import opened Writer
  import opened Reader
  import opened RoundTrip

  // ---------------------------------------------------------------- saving

  /** The pairs of a mapping, in the order of the keys given. */
  function MapPairs(m: map<string, string>, keys: seq<string>): (ps: seq<Pair>)
    requires forall i :: 0 <= i < |keys| ==> keys[i] in m
    ensures |ps| == |keys|
    ensures forall i :: 0 <= i < |keys| ==> ps[i] == (keys[i], m[keys[i]])
  {
    seq(|keys|, i requires 0 <= i < |keys| => (keys[i], m[keys[i]]))
  }

  /** The pairs add(v) puts for each value in turn. */
  function KeyedPairs(keygen: string -> string, values: seq<string>): (ps: seq<Pair>)
    ensures |ps| == |values|
    ensures forall i :: 0 <= i < |values| ==> ps[i] == (keygen(values[i]), values[i])
  {
    seq(|values|, i requires 0 <= i < |values| => (keygen(values[i]), values[i]))
  }

  /** mapping.keys(): the keys in some order. */
  method KeysOf(m: map<string, string>) returns (keys: seq<string>)
    ensures multiset(keys) == multiset(m.Keys)
  {
    keys := [];
    var rest := m.Keys;
    while rest != {}
      invariant rest <= m.Keys
      invariant multiset(keys) + multiset(rest) == multiset(m.Keys)
      decreases |rest|
    {
      var k :| k in rest;
      assert multiset(rest) == multiset(rest - {k}) + multiset{k};
      keys := keys + [k];
      rest := rest - {k};
    }
  }

  /** The key list save_map builds and sorts: every key once, ascending. */
  method SortedKeysOf(m: map<string, string>) returns (keys: seq<string>)
    ensures keys == SortedKeys(m.Keys)
  {
    keys := KeysOf(m);
    keys := Sort(keys);
    SortUnique(keys, SortedKeys(m.Keys));
  }

  /** save_map: one member per entry, after the writer's start members, in
      strictly ascending key order (SortedKeys).  A failed writer
      construction leaves the file system as it was. */
  method SaveMap(m: map<string, string>, fs: FileSystem, fileName: string, mode: string,
                 dirName: Option<string>) returns (fs': FileSystem, err: Option<Error>)
    ensures WriterStart(fs, fileName, mode, dirName).Err? ==>
      err == Some(WriterStart(fs, fileName, mode, dirName).error) && fs' == fs
    ensures WriterStart(fs, fileName, mode, dirName).Ok? ==>
      var s := WriterStart(fs, fileName, mode, dirName).value;
      err == None &&
      fs' == fs[fileName := s.members + Encode(s.dirName, MapPairs(m, SortedKeys(m.Keys)))]
  {
    var w := OpenWriter(fs, fileName, mode, dirName, None);
    if w.Err? {
      return fs, Some(w.error);
    }
    var tw := w.value;
    var keys := SortedKeysOf(m);
    assert forall i :: 0 <= i < |keys| ==> keys[i] in m by {
      forall i | 0 <= i < |keys| ensures keys[i] in m { assert keys[i] in keys; }
    }
    PutEntries(tw, m, keys);
    return tw.Closed(fs), None;
  }

  /** The loop of save_map: one put per key of the list, in its order, with
      that key's value in the mapping. */
  method PutEntries(tw: TarDbWriter, m: map<string, string>, keys: seq<string>)
    requires tw.Valid() && tw.pairs == []
    requires forall i :: 0 <= i < |keys| ==> keys[i] in m
    modifies tw
    ensures tw.Valid() && tw.pairs == MapPairs(m, keys)
    ensures tw.members == old(tw.members) + Encode(tw.dirName, MapPairs(m, keys))
  {
    ghost var ps := MapPairs(m, keys);
    assert |Encode(tw.dirName, [])| == 0;
    assert tw.members == tw.initial;
    for i := 0 to |keys|
      invariant tw.Valid()
      invariant tw.pairs == ps[..i]
    {
      assert ps[i] == (keys[i], m[keys[i]]);
      tw.Put(keys[i], m[keys[i]]);
      assert ps[..i + 1] == ps[..i] + [ps[i]];
    }
    assert ps[..|keys|] == ps;
  }

  /** save_set: add each value in the sequence's own order.  Without a
      keygen the first add fails, after the writer has already written its
      start members, which the closing `with` puts on disk. */
  method SaveSet(values: seq<string>, fs: FileSystem, fileName: string,
                 keygen: Option<string -> string>, mode: string, dirName: Option<string>)
    returns (fs': FileSystem, err: Option<Error>)
    ensures WriterStart(fs, fileName, mode, dirName).Err? ==>
      err == Some(WriterStart(fs, fileName, mode, dirName).error) && fs' == fs
    ensures WriterStart(fs, fileName, mode, dirName).Ok? && keygen.Some? ==>
      var s := WriterStart(fs, fileName, mode, dirName).value;
      err == None &&
      fs' == fs[fileName := s.members + Encode(s.dirName, KeyedPairs(keygen.value, values))]
    ensures WriterStart(fs, fileName, mode, dirName).Ok? && keygen.None? ==>
      var s := WriterStart(fs, fileName, mode, dirName).value;
      err == (if values == [] then None else Some(NoKeygen)) &&
      fs' == fs[fileName := s.members]
  {
    var w := OpenWriter(fs, fileName, mode, dirName, keygen);
    if w.Err? {
      return fs, Some(w.error);
    }
    var tw := w.value;
    for i := 0 to |values|
      invariant tw.Valid()
      invariant keygen.Some? ==> tw.pairs == KeyedPairs(keygen.value, values[..i])
      invariant keygen.None? ==> i == 0 && tw.pairs == []
    {
      var e := tw.Add(values[i]);
      if e.Some? {
        return tw.Closed(fs), e;
      }
      if keygen.Some? {
        assert values[..i + 1] == values[..i] + [values[i]];
      }
    }
    assert values[..|values|] == values;
    return tw.Closed(fs), None;
  }

  // --------------------------------------------------------------- folding

  /** result[key] = value for each pair in turn. */
  function FoldDict(acc: map<string, string>, ps: seq<Pair>): map<string, string>
    decreases ps
  {
    if ps == [] then acc else FoldDict(acc[ps[0].0 := ps[0].1], ps[1..])
  }

  /** result.add(value) for each pair in turn. */
  function FoldSet(acc: set<string>, ps: seq<Pair>): set<string>
    decreases ps
  {
    if ps == [] then acc else FoldSet(acc + {ps[0].1}, ps[1..])
  }

  function KeysIn(ps: seq<Pair>): set<string>
  {
    set i | 0 <= i < |ps| :: ps[i].0
  }

  function ValuesIn(ps: seq<Pair>): set<string>
  {
    set i | 0 <= i < |ps| :: ps[i].1
  }

  lemma {:induction false} FoldDictAppend(acc: map<string, string>, a: seq<Pair>, b: seq<Pair>)
    ensures FoldDict(acc, a + b) == FoldDict(FoldDict(acc, a), b)
    decreases a
  {
    if a == [] {
      assert a + b == b;
    } else {
      assert (a + b)[0] == a[0];
      assert (a + b)[1..] == a[1..] + b;
      FoldDictAppend(acc[a[0].0 := a[0].1], a[1..], b);
    }
  }

  /** The folded dict has exactly the keys of the start dict and the pairs. */
  lemma {:induction false} FoldDictKeys(acc: map<string, string>, ps: seq<Pair>)
    ensures FoldDict(acc, ps).Keys == acc.Keys + KeysIn(ps)
    decreases ps
  {
    if ps != [] {
      FoldDictKeys(acc[ps[0].0 := ps[0].1], ps[1..]);
      assert KeysIn(ps) == {ps[0].0} + KeysIn(ps[1..]) by {
        forall k | k in KeysIn(ps) ensures k in {ps[0].0} + KeysIn(ps[1..]) {
          var i :| 0 <= i < |ps| && ps[i].0 == k;
          if i > 0 { assert ps[1..][i - 1].0 == k; }
        }
        forall k | k in KeysIn(ps[1..]) ensures k in KeysIn(ps) {
          var i :| 0 <= i < |ps[1..]| && ps[1..][i].0 == k;
          assert ps[i + 1].0 == k;
        }
      }
    }
  }

  /** A key no pair mentions keeps its start value. */
  lemma {:induction false} FoldDictUntouched(acc: map<string, string>, ps: seq<Pair>, k: string)
    requires forall j :: 0 <= j < |ps| ==> ps[j].0 != k
    ensures k in FoldDict(acc, ps) <==> k in acc
    ensures k in acc ==> FoldDict(acc, ps)[k] == acc[k]
    decreases ps
  {
    if ps != [] {
      assert forall j :: 0 <= j < |ps[1..]| ==> ps[1..][j] == ps[j + 1];
      FoldDictUntouched(acc[ps[0].0 := ps[0].1], ps[1..], k);
    }
  }

  /** Last write wins: a key takes the value of its last pair. */
  lemma {:induction false} FoldDictLastWins(acc: map<string, string>, ps: seq<Pair>, i: nat)
    requires i < |ps|
    requires forall j :: i < j < |ps| ==> ps[j].0 != ps[i].0
    ensures ps[i].0 in FoldDict(acc, ps) && FoldDict(acc, ps)[ps[i].0] == ps[i].1
    decreases ps
  {
    assert forall j :: 0 <= j < |ps[1..]| ==> ps[1..][j] == ps[j + 1];
    if i == 0 {
      FoldDictUntouched(acc[ps[0].0 := ps[0].1], ps[1..], ps[0].0);
    } else {
      FoldDictLastWins(acc[ps[0].0 := ps[0].1], ps[1..], i - 1);
    }
  }

  /** The folded set is the start set and every value, duplicates merged. */
  lemma {:induction false} FoldSetValues(acc: set<string>, ps: seq<Pair>)
    ensures FoldSet(acc, ps) == acc + ValuesIn(ps)
    decreases ps
  {
    if ps != [] {
      FoldSetValues(acc + {ps[0].1}, ps[1..]);
      assert ValuesIn(ps) == {ps[0].1} + ValuesIn(ps[1..]) by {
        forall v | v in ValuesIn(ps) ensures v in {ps[0].1} + ValuesIn(ps[1..]) {
          var i :| 0 <= i < |ps| && ps[i].1 == v;
          if i > 0 { assert ps[1..][i - 1].1 == v; }
        }
        forall v | v in ValuesIn(ps[1..]) ensures v in ValuesIn(ps) {
          var i :| 0 <= i < |ps[1..]| && ps[1..][i].1 == v;
          assert ps[i + 1].1 == v;
        }
      }
    }
  }

  // --------------------------------------------------------------- loading

  /** The paths in the order loaded: each pattern's matches sorted, patterns
      in argument order. */
  function LoadOrder(matched: seq<seq<string>>): seq<string>
  {
    if matched == [] then [] else Sort(matched[0]) + LoadOrder(matched[1..])
  }

  /** All pairs the readers of paths yield, one archive after the other, or
      the error of the first path a reader cannot open. */
  function LoadPairs(fs: FileSystem, paths: seq<string>): Result<seq<Pair>>
  {
    if paths == [] then Ok([])
    else match ReaderStart(fs, paths[0])
      case Err(e) => Err(e)
      case Ok(ms) =>
        match LoadPairs(fs, paths[1..])
        case Err(e) => Err(e)
        case Ok(rest) => Ok(Pairs(ms) + rest)
  }

  /** The loop of load_dict from a current result onwards. */
  function DictFrom(fs: FileSystem, acc: map<string, string>, paths: seq<string>): Result<map<string, string>>
    decreases paths
  {
    if paths == [] then Ok(acc)
    else match ReaderStart(fs, paths[0])
      case Err(e) => Err(e)
      case Ok(ms) => DictFrom(fs, FoldDict(acc, Pairs(ms)), paths[1..])
  }

  /** The loop of load_set from a current result onwards. */
  function SetFrom(fs: FileSystem, acc: set<string>, paths: seq<string>): Result<set<string>>
    decreases paths
  {
    if paths == [] then Ok(acc)
    else match ReaderStart(fs, paths[0])
      case Err(e) => Err(e)
      case Ok(ms) => SetFrom(fs, FoldSet(acc, Pairs(ms)), paths[1..])
  }

  /** load_dict is one left fold over the concatenated streams. */
  lemma {:induction false} DictFromIsFold(fs: FileSystem, acc: map<string, string>, paths: seq<string>)
    ensures LoadPairs(fs, paths).Err? ==> DictFrom(fs, acc, paths) == Err(LoadPairs(fs, paths).error)
    ensures LoadPairs(fs, paths).Ok? ==> DictFrom(fs, acc, paths) == Ok(FoldDict(acc, LoadPairs(fs, paths).value))
    decreases paths
  {
    if paths != [] && ReaderStart(fs, paths[0]).Ok? {
      var ms := ReaderStart(fs, paths[0]).value;
      DictFromIsFold(fs, FoldDict(acc, Pairs(ms)), paths[1..]);
      if LoadPairs(fs, paths[1..]).Ok? {
        FoldDictAppend(acc, Pairs(ms), LoadPairs(fs, paths[1..]).value);
      }
    }
  }

  lemma {:induction false} FoldSetAppend(acc: set<string>, a: seq<Pair>, b: seq<Pair>)
    ensures FoldSet(acc, a + b) == FoldSet(FoldSet(acc, a), b)
    decreases a
  {
    if a == [] {
      assert a + b == b;
    } else {
      assert (a + b)[0] == a[0];
      assert (a + b)[1..] == a[1..] + b;
      FoldSetAppend(acc + {a[0].1}, a[1..], b);
    }
  }

  /** load_set is one fold over the concatenated streams. */
  lemma {:induction false} SetFromIsFold(fs: FileSystem, acc: set<string>, paths: seq<string>)
    ensures LoadPairs(fs, paths).Err? ==> SetFrom(fs, acc, paths) == Err(LoadPairs(fs, paths).error)
    ensures LoadPairs(fs, paths).Ok? ==> SetFrom(fs, acc, paths) == Ok(FoldSet(acc, LoadPairs(fs, paths).value))
    decreases paths
  {
    if paths != [] && ReaderStart(fs, paths[0]).Ok? {
      var ms := ReaderStart(fs, paths[0]).value;
      SetFromIsFold(fs, FoldSet(acc, Pairs(ms)), paths[1..]);
      if LoadPairs(fs, paths[1..]).Ok? {
        FoldSetAppend(acc, Pairs(ms), LoadPairs(fs, paths[1..]).value);
      }
    }
  }

  /** The merged dict of load_dict: on success its keys are the keys of all
      pairs, and each key holds the value of its last pair in load order. */
  lemma LoadDictLastWins(fs: FileSystem, matched: seq<seq<string>>, i: nat)
    requires LoadPairs(fs, LoadOrder(matched)).Ok?
    requires i < |LoadPairs(fs, LoadOrder(matched)).value|
    requires var ps := LoadPairs(fs, LoadOrder(matched)).value;
      forall j :: i < j < |ps| ==> ps[j].0 != ps[i].0
    ensures var ps := LoadPairs(fs, LoadOrder(matched)).value;
      && DictFrom(fs, map[], LoadOrder(matched)).Ok?
      && DictFrom(fs, map[], LoadOrder(matched)).value.Keys == KeysIn(ps)
      && DictFrom(fs, map[], LoadOrder(matched)).value[ps[i].0] == ps[i].1
  {
    var ps := LoadPairs(fs, LoadOrder(matched)).value;
    DictFromIsFold(fs, map[], LoadOrder(matched));
    FoldDictKeys(map[], ps);
    FoldDictLastWins(map[], ps, i);
  }

  /** The per-archive loop of load_dict: open a reader on the path and fold
      each pair it yields into the result, a later value replacing an
      earlier one. */
  method LoadFileDict(fs: FileSystem, path: string, acc: map<string, string>)
    returns (r: Result<map<string, string>>)
    ensures ReaderStart(fs, path).Err? ==> r == Err(ReaderStart(fs, path).error)
    ensures ReaderStart(fs, path).Ok? ==> r == Ok(FoldDict(acc, Pairs(ReaderStart(fs, path).value)))
  {
    var tr := OpenReader(fs, path);
    if tr.Err? {
      return Err(tr.error);
    }
    var reader := tr.value;
    var result := acc;
    var p := reader.Next();
    while p.Some?
      invariant reader.Valid()
      invariant FoldDict(result, (if p.Some? then [p.value] else []) + reader.Remaining())
                == FoldDict(acc, Pairs(reader.members))
      invariant p.None? ==> reader.Remaining() == []
      decreases |reader.Remaining()| + (if p.Some? then 1 else 0)
    {
      result := result[p.value.0 := p.value.1];
      p := reader.Next();
    }
    return Ok(result);
  }

  /** The per-archive loop of load_set: open a reader on the path and add
      the value of each pair it yields to the result. */
  method LoadFileSet(fs: FileSystem, path: string, acc: set<string>) returns (r: Result<set<string>>)
    ensures ReaderStart(fs, path).Err? ==> r == Err(ReaderStart(fs, path).error)
    ensures ReaderStart(fs, path).Ok? ==> r == Ok(FoldSet(acc, Pairs(ReaderStart(fs, path).value)))
  {
    var tr := OpenReader(fs, path);
    if tr.Err? {
      return Err(tr.error);
    }
    var reader := tr.value;
    var result := acc;
    var p := reader.Next();
    while p.Some?
      invariant reader.Valid()
      invariant FoldSet(result, (if p.Some? then [p.value] else []) + reader.Remaining())
                == FoldSet(acc, Pairs(reader.members))
      invariant p.None? ==> reader.Remaining() == []
      decreases |reader.Remaining()| + (if p.Some? then 1 else 0)
    {
      result := result + {p.value.1};
      p := reader.Next();
    }
    return Ok(result);
  }

  /** The inner loop of load_dict: the sorted matches of one pattern, each
      archive folded in turn; `rest` is what the later patterns load. */
  method LoadDictPaths(fs: FileSystem, paths: seq<string>, ghost rest: seq<string>, acc: map<string, string>)
    returns (r: Result<map<string, string>>)
    ensures r.Err? ==> DictFrom(fs, acc, paths + rest) == r
    ensures r.Ok? ==> DictFrom(fs, acc, paths + rest) == DictFrom(fs, r.value, rest)
  {
    var result := acc;
    for j := 0 to |paths|
      invariant DictFrom(fs, result, paths[j..] + rest) == DictFrom(fs, acc, paths + rest)
    {
      assert (paths[j..] + rest)[1..] == paths[j + 1..] + rest;
      var next := LoadFileDict(fs, paths[j], result);
      if next.Err? {
        return Err(next.error);
      }
      result := next.value;
    }
    assert paths[|paths|..] + rest == rest;
    return Ok(result);
  }

  /** load_dict: for each pattern in order, for each of its matches in
      sorted order, fold the reader's pairs into one dict. */
  method LoadDict(fs: FileSystem, matched: seq<seq<string>>) returns (r: Result<map<string, string>>)
    ensures r == DictFrom(fs, map[], LoadOrder(matched))
  {
    var result: map<string, string> := map[];
    for i := 0 to |matched|
      invariant DictFrom(fs, result, LoadOrder(matched[i..])) == DictFrom(fs, map[], LoadOrder(matched))
    {
      var paths := Sort(matched[i]);
      assert matched[i..][1..] == matched[i + 1..];
      var next := LoadDictPaths(fs, paths, LoadOrder(matched[i + 1..]), result);
      if next.Err? {
        return Err(next.error);
      }
      result := next.value;
    }
    assert matched[|matched|..] == [];
    return Ok(result);
  }

  /** The inner loop of load_set: the sorted matches of one pattern, each
      archive folded in turn; `rest` is what the later patterns load. */
  method LoadSetPaths(fs: FileSystem, paths: seq<string>, ghost rest: seq<string>, acc: set<string>)
    returns (r: Result<set<string>>)
    ensures r.Err? ==> SetFrom(fs, acc, paths + rest) == r
    ensures r.Ok? ==> SetFrom(fs, acc, paths + rest) == SetFrom(fs, r.value, rest)
  {
    var result := acc;
    for j := 0 to |paths|
      invariant SetFrom(fs, result, paths[j..] + rest) == SetFrom(fs, acc, paths + rest)
    {
      assert (paths[j..] + rest)[1..] == paths[j + 1..] + rest;
      var next := LoadFileSet(fs, paths[j], result);
      if next.Err? {
        return Err(next.error);
      }
      result := next.value;
    }
    assert paths[|paths|..] + rest == rest;
    return Ok(result);
  }

  /** load_set: the same traversal, collecting values. */
  method LoadSet(fs: FileSystem, matched: seq<seq<string>>) returns (r: Result<set<string>>)
    ensures r == SetFrom(fs, {}, LoadOrder(matched))
  {
    var result: set<string> := {};
    for i := 0 to |matched|
      invariant SetFrom(fs, result, LoadOrder(matched[i..])) == SetFrom(fs, {}, LoadOrder(matched))
    {
      var paths := Sort(matched[i]);
      assert matched[i..][1..] == matched[i + 1..];
      var next := LoadSetPaths(fs, paths, LoadOrder(matched[i + 1..]), result);
      if next.Err? {
        return Err(next.error);
      }
      result := next.value;
    }
    assert matched[|matched|..] == [];
    return Ok(result);
  }

  /** load_set, on success, is the set of all values the readers yield. */
  lemma LoadSetCollects(fs: FileSystem, matched: seq<seq<string>>)
    ensures LoadPairs(fs, LoadOrder(matched)).Ok? ==>
      SetFrom(fs, {}, LoadOrder(matched)) == Ok(ValuesIn(LoadPairs(fs, LoadOrder(matched)).value))
    ensures LoadPairs(fs, LoadOrder(matched)).Err? ==>
      SetFrom(fs, {}, LoadOrder(matched)) == Err(LoadPairs(fs, LoadOrder(matched)).error)
  {
    SetFromIsFold(fs, {}, LoadOrder(matched));
    if LoadPairs(fs, LoadOrder(matched)).Ok? {
      var ps := LoadPairs(fs, LoadOrder(matched)).value;
      FoldSetValues({}, ps);
      assert {} + ValuesIn(ps) == ValuesIn(ps);
    }
  }

  /** Loading fails exactly when some path in load order cannot be opened
      by a reader, and then with the error of the first such path. */
  lemma {:induction false} LoadPairsFails(fs: FileSystem, paths: seq<string>)
    ensures LoadPairs(fs, paths).Err? <==> exists i :: 0 <= i < |paths| && ReaderStart(fs, paths[i]).Err?
    ensures LoadPairs(fs, paths).Err? ==>
      exists i :: 0 <= i < |paths| && ReaderStart(fs, paths[i]) == Err(LoadPairs(fs, paths).error)
        && forall j :: 0 <= j < i ==> ReaderStart(fs, paths[j]).Ok?
  {
    if paths != [] {
      LoadPairsFails(fs, paths[1..]);
      assert forall i :: 0 < i < |paths| ==> paths[1..][i - 1] == paths[i];
      if ReaderStart(fs, paths[0]).Ok? && LoadPairs(fs, paths[1..]).Err? {
        var i :| 0 <= i < |paths[1..]| && ReaderStart(fs, paths[1..][i]) == Err(LoadPairs(fs, paths[1..]).error)
          && forall j :: 0 <= j < i ==> ReaderStart(fs, paths[1..][j]).Ok?;
        assert forall j :: 0 < j < i + 1 ==> paths[j] == paths[1..][j - 1];
        assert ReaderStart(fs, paths[i + 1]) == Err(LoadPairs(fs, paths).error);
      }
    }
  }

  /** Folding the entries of a map, each key once, gives the map back. */
  lemma FoldDictOfMap(m: map<string, string>, keys: seq<string>)
    requires forall i, j :: 0 <= i < j < |keys| ==> keys[i] != keys[j]
    requires forall k :: k in keys <==> k in m
    ensures FoldDict(map[], MapPairs(m, keys)) == m
  {
    assert forall i :: 0 <= i < |keys| ==> keys[i] in m by {
      forall i | 0 <= i < |keys| ensures keys[i] in m { assert keys[i] in keys; }
    }
    var ps := MapPairs(m, keys);
    var r := FoldDict(map[], ps);
    FoldDictKeys(map[], ps);
    assert KeysIn(ps) == m.Keys by {
      forall k | k in m ensures k in KeysIn(ps) {
        var i :| 0 <= i < |keys| && keys[i] == k;
        assert ps[i].0 == k;
      }
    }
    forall k | k in m ensures r[k] == m[k] {
      var i :| 0 <= i < |keys| && keys[i] == k;
      FoldDictLastWins(map[], ps, i);
    }
  }

  /** save_map into a new archive, then load_dict of that file, gives the
      mapping back, when dir_name has no '/' and the reader accepts the name. */
  lemma SaveMapThenLoadDict(m: map<string, string>, fs: FileSystem, fileName: string, mode: string,
                            dirName: Option<string>)
    requires WriterStart(fs, fileName, mode, dirName).Ok?
    requires IsNewFile(fs, fileName, mode)
    requires '/' !in WriterStart(fs, fileName, mode, dirName).value.dirName
    requires FileDirName(fileName).Some?
    ensures var s := WriterStart(fs, fileName, mode, dirName).value;
      var fs' := fs[fileName := s.members + Encode(s.dirName, MapPairs(m, SortedKeys(m.Keys)))];
      DictFrom(fs', map[], LoadOrder([[fileName]])) == Ok(m)
  {
    var s := WriterStart(fs, fileName, mode, dirName).value;
    var keys := SortedKeys(m.Keys);
    assert forall i :: 0 <= i < |keys| ==> keys[i] in m by {
      forall i | 0 <= i < |keys| ensures keys[i] in m { assert keys[i] in keys; }
    }
    var ps := MapPairs(m, keys);
    var fs' := fs[fileName := s.members + Encode(s.dirName, ps)];
    FreshRoundTrip(fs, fileName, mode, dirName, ps);
    LoadOrderOfOne(fileName);
    assert ReaderStart(fs', fileName) == Ok(s.members + Encode(s.dirName, ps));
    FoldDictOfMap(m, keys);
  }

  lemma LoadOrderOfOne(path: string)
    ensures LoadOrder([[path]]) == [path]
  {
    assert Sort([path]) == [path];
    assert [[path]][1..] == [];
  }

  lemma ValuesOfKeyed(keygen: string -> string, values: seq<string>)
    ensures ValuesIn(KeyedPairs(keygen, values)) == set i | 0 <= i < |values| :: values[i]
  {
    var ps := KeyedPairs(keygen, values);
    forall v | v in ValuesIn(ps) ensures v in set i | 0 <= i < |values| :: values[i] {
      var i :| 0 <= i < |ps| && ps[i].1 == v;
      assert values[i] == v;
    }
    forall v | v in set i | 0 <= i < |values| :: values[i] ensures v in ValuesIn(ps) {
      var i :| 0 <= i < |values| && values[i] == v;
      assert ps[i].1 == v;
    }
  }

  /** save_set into a new archive, then load_set of that file, gives the set
      of the values saved. */
  lemma SaveSetThenLoadSet(values: seq<string>, fs: FileSystem, fileName: string,
                           keygen: string -> string, mode: string, dirName: Option<string>)
    requires WriterStart(fs, fileName, mode, dirName).Ok?
    requires IsNewFile(fs, fileName, mode)
    requires '/' !in WriterStart(fs, fileName, mode, dirName).value.dirName
    requires FileDirName(fileName).Some?
    ensures var s := WriterStart(fs, fileName, mode, dirName).value;
      var fs' := fs[fileName := s.members + Encode(s.dirName, KeyedPairs(keygen, values))];
      SetFrom(fs', {}, LoadOrder([[fileName]])) == Ok(set i | 0 <= i < |values| :: values[i])
  {
    var s := WriterStart(fs, fileName, mode, dirName).value;
    var ps := KeyedPairs(keygen, values);
    var ms := s.members + Encode(s.dirName, ps);
    var fs' := fs[fileName := ms];
    FreshRoundTrip(fs, fileName, mode, dirName, ps);
    LoadOrderOfOne(fileName);
    assert ReaderStart(fs', fileName) == Ok(ms);
    assert SetFrom(fs', {}, [fileName]) == SetFrom(fs', FoldSet({}, ps), []);
    FoldSetValues({}, ps);
    assert {} + ValuesIn(ps) == ValuesIn(ps);
    ValuesOfKeyed(keygen, values);
  }

  /** save_map writes "a" before "b" whatever order the mapping has. */
  lemma SaveMapOrderExample()
    ensures SortedKeys({"b", "a"}) == ["a", "b"]
  {
    var r := SortedKeys({"b", "a"});
    assert |r| == 2;
    assert r[0] in {"a", "b"} && r[1] in {"a", "b"};
    assert Le(r[0], r[1]) && r[0] != r[1];
    assert !Le("b", "a");
  }

  lemma DictFromTwo(fs: FileSystem, acc: map<string, string>, p: string, q: string)
    requires ReaderStart(fs, p).Ok? && ReaderStart(fs, q).Ok?
    ensures DictFrom(fs, acc, [p, q]) == Ok(FoldDict(FoldDict(acc, Pairs(fs[p])), Pairs(fs[q])))
  {
    var m1 := FoldDict(acc, Pairs(ReaderStart(fs, p).value));
    assert [p, q][0] == p && [p, q][1..] == [q];
    assert DictFrom(fs, acc, [p, q]) == DictFrom(fs, m1, [q]);
    assert [q][0] == q && [q][1..] == [];
    assert DictFrom(fs, m1, [q]) == DictFrom(fs, FoldDict(m1, Pairs(ReaderStart(fs, q).value)), []);
  }

  lemma SetFromTwo(fs: FileSystem, acc: set<string>, p: string, q: string)
    requires ReaderStart(fs, p).Ok? && ReaderStart(fs, q).Ok?
    ensures SetFrom(fs, acc, [p, q]) == Ok(FoldSet(FoldSet(acc, Pairs(fs[p])), Pairs(fs[q])))
  {
    var s1 := FoldSet(acc, Pairs(ReaderStart(fs, p).value));
    assert [p, q][0] == p && [p, q][1..] == [q];
    assert SetFrom(fs, acc, [p, q]) == SetFrom(fs, s1, [q]);
    assert [q][0] == q && [q][1..] == [];
    assert SetFrom(fs, s1, [q]) == SetFrom(fs, FoldSet(s1, Pairs(ReaderStart(fs, q).value)), []);
  }

  /** Two archives that both hold one key: the pattern given later wins,
      and swapping the patterns swaps the winner. */
  lemma LaterPatternWins(fs: FileSystem, a: string, b: string, k: string, v1: string, v2: string)
    requires ReaderStart(fs, a).Ok? && ReaderStart(fs, b).Ok?
    requires Pairs(fs[a]) == [(k, v1)] && Pairs(fs[b]) == [(k, v2)]
    ensures DictFrom(fs, map[], LoadOrder([[a], [b]])) == Ok(map[k := v2])
    ensures DictFrom(fs, map[], LoadOrder([[b], [a]])) == Ok(map[k := v1])
  {
    LoadOrderOfTwo(a, b);
    LoadOrderOfTwo(b, a);
    DictFromTwo(fs, map[], a, b);
    DictFromTwo(fs, map[], b, a);
    assert [(k, v1)][1..] == [] && [(k, v2)][1..] == [];
    assert map[k := v1][k := v2] == map[k := v2];
    assert map[k := v2][k := v1] == map[k := v1];
  }

  /** The same value under different keys in two archives is collected
      once. */
  lemma DuplicateValueOnce(fs: FileSystem, a: string, b: string, k1: string, k2: string, v: string)
    requires ReaderStart(fs, a).Ok? && ReaderStart(fs, b).Ok?
    requires Pairs(fs[a]) == [(k1, v)] && Pairs(fs[b]) == [(k2, v)]
    ensures SetFrom(fs, {}, LoadOrder([[a], [b]])) == Ok({v})
  {
    LoadOrderOfTwo(a, b);
    SetFromTwo(fs, {}, a, b);
    assert [(k1, v)][1..] == [] && [(k2, v)][1..] == [];
    assert FoldSet({}, [(k1, v)]) == FoldSet({v}, []) == {v};
    assert FoldSet({v}, [(k2, v)]) == FoldSet({v} + {v}, []);
    assert {v} + {v} == {v};
  }

  lemma LoadOrderOfTwo(p: string, q: string)
    ensures LoadOrder([[p], [q]]) == [p, q]
  {
    LoadOrderOfOne(q);
    assert [[p], [q]][1..] == [[q]];
    assert Sort([p]) == [p] by { assert [p][1..] == []; }
  }
}
