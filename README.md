# LaBreaDB in Dafny: a key/value store on tar archives

LaBreaDB (`labreadb.py`) stores key/value pairs in a tar archive. Each key
becomes the member name `dir_name + "/" + key` and each value becomes that
member's content. This project models the naming and ordering rules that sit
on top of the `tarfile` calls, and proves properties about them:

- how the inner directory name `dir_name` is derived from the file name by
  `FILE_PAT`;
- `TarDbWriter`: the directory marker a new archive starts with, `put` and
  `add`;
- `TarDbReader.next`: skipping members that are not regular files, and
  recovering the key from the member name;
- `save_map` (ascending key order) and `save_set` (sequence order);
- `load_dict` and `load_set`: patterns in argument order, the matches of each
  pattern sorted, last write wins.

An archive is modelled as a sequence of members. Each member is a header
(name, kind `Dir | File | Other`, size) plus its content. The file system is a
map from path to member sequence. Keys, values and names are Python 2 `str`
values (byte strings), written here as Dafny `string`.

Files, one module each:

- `tar_model.dfy`: members, errors, `Option` and `Result`.
- `strings.dfy`: `str.find`, the byte-string order, and `list.sort` as a
  verified insertion sort.
- `naming.dfy`: `FILE_PAT` and the `dir_name` logic.
- `writer.dfy`: `TarDbWriter`, a class with the archive as a field.
- `reader.dfy`: `TarDbReader`, a forward cursor with the skip loop.
- `round_trip.dfy`: write-then-read properties.
- `merge.dfy`: the savers and the loaders.

## Where the model follows the code rather than the written design

- **The extension does not have to end the name.** `FILE_PAT.match` anchors
  only at the start, so a name such as `foo.tar.bak` matches (`UnanchoredEnd`). Because
  `(.+)` is greedy, `a.tar.tgz` gives `a.tar`. Python's `.` does not match a
  newline, so group 1 cannot cross one. It ends at the last extension that
  starts before the first newline (`a.tar\nb.tar` gives `a`), and there is
  no match when no extension does. An
  empty `dir_name` is false in Python, so it is derived just like a missing
  one.
- **A reader also derives `dir_name`.** `TarDbReader` calls `TarDb.__init__`
  without a `dir_name`, so reading a file whose name has no tar extension
  fails (`NoArchiveExtension`). This check comes after the `isfile` check
  (`NotAFile`).
- **The writer's mode check.** The only writer modes are those whose first
  character is `a` or `w`. An empty mode fails too (in Python that is an
  `IndexError` from `mode[0]`).
- **`save_set` without a keygen still writes the file.** The first `add`
  fails. The `with` block has already opened the archive, so closing it leaves
  the start members (the directory marker, on a new file) on disk.
- **The `/` quirk.** When `dir_name` contains `/` (for example when it is
  derived from `data/foo.tar`), the reader splits at the first `/`. The keys
  then come back with the rest of `dir_name` in front of them.
  `RoundTripNeedsFlatDir` proves that the round trip holds exactly when
  `dir_name` has no `/` (or nothing was put). The round-trip lemmas assume
  this.

## Model

| member | source | states |
|---|---|---|
| `Strings.Find` | labreadb.py:129 | The result is -1 exactly when the character is absent. Otherwise it is the index of its first occurrence. |
| `Strings.LeReflexive` | labreadb.py:147 | The byte-string order is reflexive. |
| `Strings.LeTotal` | labreadb.py:147 | Any two strings are comparable. |
| `Strings.LeAntisymmetric` | labreadb.py:147 | Strings that are each ordered before the other are equal. |
| `Strings.LeTransitive` | labreadb.py:147 | The order is transitive. |
| `Strings.Sort` | labreadb.py:172 | `list.sort()`: the result is ascending and is a permutation of the input. |
| `Strings.SortUnique` | labreadb.py:172 | Two ascending sequences with the same elements are equal, so the sorted order is fully determined by the input. |
| `Strings.SortedKeys` | labreadb.py:146-147 | A set's elements in strictly ascending order, each exactly once, and no others. |
| `Naming.LongestSplit` | labreadb.py:34 | Greedy backtracking of `(.+)`: the largest split point at or below the bound, or none. |
| `Naming.FileDirName` | labreadb.py:46-48 | There is a match iff some split exists. Its group 1 is a prefix of the name that ends at a split (no newline, at least one character, an extension next), and no longer split exists. |
| `Naming.FileDirNameIs` | labreadb.py:34 | Converse: a split with no longer split after it is the derived name. |
| `Naming.ResolveDirName` | labreadb.py:43-48 | A non-empty `dir_name` is used verbatim. Otherwise the derived name is used, and `NoArchiveExtension` is returned exactly when no split exists. |
| `Naming.GreedyExample` | labreadb.py:34 | `a.tar.tgz` gives `a.tar`. |
| `Naming.CompoundExample` | labreadb.py:34 | `foo.tar.gz` gives `foo`. |
| `Naming.UnanchoredEnd` | labreadb.py:34 | The match is not anchored at the end. Appending text to a name that matches keeps a match, and the derived name only grows, with the old name as its prefix. |
| `Naming.NewlineExample` | labreadb.py:34 | `a.tar\nb.tar` gives `a`: group 1 stops before the first newline even though an extension follows it. |
| `Naming.NestedExample` | labreadb.py:34 | `data/foo.tbz2` gives `data/foo`. |
| `Naming.NoMatchExample` | labreadb.py:34 | `.tar`, `foo.zip` and `x\ny.tar` do not match. |
| `Writer.Encode` | labreadb.py:88-94 | One member per pair, in order. Member i is the regular file `dir_name/key_i` holding `value_i`, with size `len(value_i)`. |
| `Writer.WriterStart` | labreadb.py:69-79 | `BadMode` exactly when the mode is empty or does not start with `a` or `w`. Otherwise `dir_name` is resolved (or its error is returned). A new file (absent, or mode `w`) starts as exactly one zero-size directory member named `dir_name`. In mode `a` an existing file keeps its members and nothing is appended. |
| `Writer.TarDbWriter.constructor` | labreadb.py:69-79 | The archive as opened, followed by the directory marker when the file is new. No pairs yet. |
| `Writer.OpenWriter` | labreadb.py:69-79 | Fails with `WriterStart`'s error. Otherwise returns a fresh writer whose state is `WriterStart`'s. |
| `Writer.TarDbWriter.Put` | labreadb.py:88-94 | Appends exactly one regular member `dir_name/key` of size `len(value)` holding value. Earlier members are unchanged. The writer invariant is kept. |
| `Writer.TarDbWriter.Add` | labreadb.py:81-86 | Without a keygen: `NoKeygen`, and nothing changes. With one: exactly the effect of `put(keygen(value), value)`. |
| `Reader.SplitKey` | labreadb.py:129-133 | With no `/` in the name, the key is the whole name. Otherwise it is the text after the first `/`. |
| `Reader.SplitKeyOfPath` | labreadb.py:129-133 | The key of `dir_name/key` is `key` iff `dir_name` has no `/`. |
| `Reader.PairsAppend` | labreadb.py:123-136 | The stream of two member sequences laid end to end is the two streams concatenated. |
| `Reader.SkipsNonFile` | labreadb.py:123-128 | A directory or special member anywhere adds nothing to the stream. |
| `Reader.YieldsFile` | labreadb.py:127-136 | A regular member yields exactly (key split, content), at its storage position. |
| `Reader.PairsFromFiles` | labreadb.py:123-136 | Every yielded pair comes from a regular member. |
| `Reader.ReaderStart` | labreadb.py:114-116 | A reader opens exactly when the path is an existing file and its name has a split (FILE_PAT matches), and it then reads the file's members. Otherwise it fails, with `NotAFile` for a missing path before `NoArchiveExtension`. |
| `Reader.TarDbReader.constructor` | labreadb.py:114-116 | The cursor starts before the first member, so the remaining stream is the whole archive's. |
| `Reader.OpenReader` | labreadb.py:114-116 | Fails with `ReaderStart`'s error. Otherwise returns a fresh reader whose remaining stream is the file's. |
| `Reader.TarDbReader.Next` | labreadb.py:121-136 | On an exhausted stream: `None` (StopIteration), with the cursor at the end. Otherwise: returns the first remaining pair and drops exactly it from the stream. |
| `Reader.TarDbReader.ReadAll` | labreadb.py:118-136 | Iterating to exhaustion yields exactly the remaining stream. |
| `RoundTrip.ReadEncoded` | labreadb.py:88-136 | If `dir_name` has no `/`, the members of a run of puts read back as exactly that run, in order, with duplicates kept. |
| `RoundTrip.RoundTripNeedsFlatDir` | labreadb.py:129-133 | The round trip holds iff `dir_name` has no `/` or the run is empty. |
| `RoundTrip.MarkedRoundTrip` | labreadb.py:77-79 | A marker followed by puts reads back as the puts: the marker never appears. |
| `RoundTrip.FreshRoundTrip` | labreadb.py:69-79 | A new archive reads back as exactly the pairs put into it. |
| `RoundTrip.AppendRoundTrip` | labreadb.py:69-79 | An archive appended to in mode `a` reads back as its old pairs followed by the new ones. |
| `RoundTrip.PutThenRead` | labreadb.py:4-11 | Writer, puts, close, then reader returns exactly the pairs put (new file, flat `dir_name`, name accepted by the reader). A writer construction error is returned as such. A file name without a tar extension (usable only with an explicit `dir_name`) makes the reader fail with `NoArchiveExtension`. |
| `Merge.ValuesOfKeyed` | labreadb.py:160-161 | The values among the pairs that save_set puts are exactly the elements of the sequence, whatever keys the keygen gives them. |
| `Merge.KeysOf` | labreadb.py:146 | `mapping.keys()`: every key exactly once. |
| `Merge.SortedKeysOf` | labreadb.py:146-147 | The sorted key list equals `SortedKeys`: strictly ascending, every key once. |
| `Merge.PutEntries` | labreadb.py:148-149 | Appends one member per key, in the list's order, each holding that key's value. |
| `Merge.SaveMap` | labreadb.py:139-149 | On a construction error, it returns that error and the file system is unchanged. Otherwise the file holds the start members, then one member per mapping entry in strictly ascending key order. |
| `Merge.SaveSet` | labreadb.py:152-161 | On a construction error, it returns that error and nothing changes. With a keygen, the file holds the start members, then one `add` per value in sequence order. Without a keygen, it fails with `NoKeygen` unless the sequence is empty. Either way the file holds the start members. |
| `Merge.FoldDictAppend` | labreadb.py:173-176 | Folding two runs is folding the first, then the second. |
| `Merge.FoldDictKeys` | labreadb.py:176 | The result's keys are the start keys plus the keys of the pairs. |
| `Merge.FoldDictUntouched` | labreadb.py:176 | A key that no pair mentions keeps its start value. |
| `Merge.FoldDictLastWins` | labreadb.py:176 | A key holds the value of its last pair. |
| `Merge.FoldSetAppend` | labreadb.py:190-192 | Folding two runs into a set is folding the first, then the second. |
| `Merge.FoldSetValues` | labreadb.py:192 | The result is the start set plus every value, with duplicates merged. |
| `Merge.LoadFileDict` | labreadb.py:173-176 | One archive: the reader's error, or the dict with that archive's stream folded in. |
| `Merge.LoadFileSet` | labreadb.py:189-192 | One archive: the reader's error, or the set with that archive's values added. |
| `Merge.LoadDictPaths` | labreadb.py:172-176 | One pattern's matches loaded in turn. This either fails as `load_dict` would on them, or continues with the folded dict. |
| `Merge.LoadSetPaths` | labreadb.py:188-192 | One pattern's matches loaded in turn. This either fails as `load_set` would on them, or continues with the collected set. |
| `Merge.LoadDict` | labreadb.py:164-177 | Equals the left fold over patterns in argument order, each pattern's matches sorted, then each archive's stream. It fails with the first reader error. |
| `Merge.LoadSet` | labreadb.py:180-193 | The same traversal, collecting values. |
| `Merge.DictFromIsFold` | labreadb.py:170-177 | `load_dict` is one fold over the concatenated streams, or the first error. |
| `Merge.SetFromIsFold` | labreadb.py:186-193 | `load_set` is one fold over the concatenated streams, or the first error. |
| `Merge.LoadPairsFails` | labreadb.py:173-174 | Loading fails iff some path in load order cannot be opened. The error is that of the first such path. |
| `Merge.LoadDictLastWins` | labreadb.py:164-177 | A successful `load_dict` has exactly the keys of all pairs. Each key holds the value of its last pair in load order. |
| `Merge.LoadSetCollects` | labreadb.py:180-193 | A successful `load_set` is exactly the set of all values yielded. |
| `Merge.LaterPatternWins` | labreadb.py:170-176 | Two archives holding the same key: the later pattern's value wins, and swapping the patterns swaps the winner. |
| `Merge.DuplicateValueOnce` | labreadb.py:186-192 | A value stored under two keys in two archives is collected once. |
| `Merge.FoldDictOfMap` | labreadb.py:146-149 | Folding a map's entries, each key once, gives the map back. |
| `Merge.SaveMapThenLoadDict` | labreadb.py:139-177 | `save_map` to a new archive, then `load_dict` of it, returns the mapping. |
| `Merge.SaveSetThenLoadSet` | labreadb.py:152-193 | `save_set` to a new archive, then `load_set` of it, returns the set of the values saved. |
| `Merge.SaveMapOrderExample` | labreadb.py:146-149 | The keys `{"b", "a"}` are written `a` first, then `b`. |

## Left out

- Tar byte format and compression: the `tarfile` codec is replaced by the
  member sequence. Only the first character of the mode is modelled; a
  compression suffix such as `w:gz`, and the codec's own refusal of some
  modes, are passed through to the codec and not modelled.
- The codec's own treatment of names: NUL truncation, long-name headers, and
  trailing `/` on directories. A name is taken to come back as it was
  written.
- Archives that the codec cannot parse (`ReadError`), and I/O errors: a file
  in the model always holds a member sequence.
- `mtime = time.time()`, the `uname`/`gname` lookups from `pwd`/`grp`, and
  the mode bits `0777`/`0666`: metadata that is written but never read back.
- `os.path.isfile`: modelled as membership in the file-system map. A
  directory path is simply not in the map.
- `glob.glob`: each pattern's list of matched paths is an input. Only the
  sort and the iteration order are modelled.
- `close`, `__enter__`/`__exit__`, `contextlib.closing` and `StringIO`:
  resource handling. `TarDbWriter.Closed` gives the file system after close
  as the file holding the writer's members.
- The `isinstance(..., str)` assertions in `put`: Dafny's types enforce them.
- `keygen` is a total, pure Dafny function. A keygen that raises an
  exception, or that returns something other than a string, is not modelled.
- Merges run to completion or return the first error. The partly
  accumulated dict or set is not observable in the model, just as the
  exception discards it in Python.
- Python's iterator protocol: `__iter__` returns the reader itself, and
  StopIteration is the `None` result of `TarDbReader.Next`.
