# nomad-mof parser: naming rules and match decision

A model of the only behaviour in the nomad-mof plugin that is not declarative schema: the
`MOFParser` class of `src/nomad_mof/parser.py`. It covers two pure pieces.

- **The match decision of `is_mainfile`.** The base matcher's verdict comes first. When it is
  truthy and a `filename` is given, the parser calls `json.load(filename)` and looks up
  `mof_atoms.structure_file`. A truthy value there is returned as the one-element list of child
  files, and the parser's `creates_children` flag is set. Otherwise the base verdict is returned.
  Any exception inside the `try` block is swallowed. This covers a failed load and a `.get` on a
  value that is not a dict.
- **The names `parse` computes, or would compute, from the mainfile path.** These are `data_file`, the text after
  the last `/`; the child archive file name, the stem followed by `.archive.json`; and the entry
  display name, `<data_file> data file`. The stem is every `.`-separated piece of `data_file`
  except the last, joined with no separator.

Modules:

- `Wrappers` (wrappers.dfy): `Option`.
- `PyStr` (pystr.dfy): Python's `str.split` and `sep.join` on a one-character separator, with
  their two round trips, and `"".join`, which glues pieces together with no separator.
- `Naming` (naming.dfy): `DataFile`, `Stem`, `ArchiveFileName`, `EntryName` and `ParseNames`.
- `Matcher` (matcher.dfy): a JSON value type, Python truthiness, `dict.get` with its
  `AttributeError`, and `IsMainfile`.

Three details of the code:

- The display name uses the whole data file name (`sample.json data file`).
- The stem drops every interior dot rather than one extension.
- `structure_file` may be any truthy JSON value, not only a string.

## Model

| member | source | states |
|---|---|---|
| PyStr.Split | src/nomad_mof/parser.py:88 | `str.split` on one separator: never empty, one more piece than there are separators, and no piece contains the separator |
| PyStr.JoinSplit | src/nomad_mof/parser.py:88 | joining the pieces of a split with the separator gives back the original string |
| PyStr.SplitJoin | src/nomad_mof/parser.py:92 | splitting the join of separator-free pieces gives back the pieces |
| PyStr.SplitLast | src/nomad_mof/parser.py:88 | the last piece of a split is what follows the last separator, or the whole string when there is none |
| PyStr.Concat | src/nomad_mof/parser.py:92 | `"".join` of one piece is that piece, and a character absent from every piece is absent from the result |
| Naming.DataFile | src/nomad_mof/parser.py:88 | `data_file` contains no `/`, ends the mainfile, and is the whole mainfile or follows a `/`; a mainfile with no `/` is returned unchanged; a trailing `/` gives the empty name |
| Naming.DataFileUnique | src/nomad_mof/parser.py:88 | any `/`-free suffix that is the whole mainfile or follows a `/` is `data_file`, so `data_file` is exactly the text after the last `/` |
| Naming.Stem | src/nomad_mof/parser.py:92 | the stem equals the text before the last `.` of `data_file` with every `.` deleted, or is empty when there is no `.`; so it contains no `.` and is shorter than a non-empty `data_file` |
| Naming.StemOfSingleDot | src/nomad_mof/parser.py:92 | with exactly one dot the stem is the text before it |
| Naming.StemOfTwoDots | src/nomad_mof/parser.py:92 | with two dots the stem is the first two pieces run together |
| Naming.ArchiveFileName | src/nomad_mof/parser.py:92 | the child archive name is the text before the last `.` of `data_file` with every `.` deleted (empty when there is no `.`), followed by `.archive.json` |
| Naming.ArchiveFileNameOfSingleDot | src/nomad_mof/parser.py:92 | `<name>.<ext>` gives `<name>.archive.json`, as `sample.json` gives `sample.archive.json` |
| Naming.ArchiveFileNameDropsInteriorDots | src/nomad_mof/parser.py:92 | `a.b.json` and `ab.json` both give `ab.archive.json`: distinct data files can share an archive name |
| Naming.EntryName | src/nomad_mof/parser.py:95 | the display name starts with `data_file` and ends with ` data file` |
| Naming.DataFileOfEntryName | src/nomad_mof/parser.py:95 | a name has a data file behind it exactly when it ends with ` data file`, and that data file yields the name back |
| Naming.EntryNameRoundTrip | src/nomad_mof/parser.py:95 | the display name determines the data file it came from |
| Naming.ParseNames | src/nomad_mof/parser.py:88-95 | the three names of one mainfile: the data file is the text after the last `/`, the archive name is the one its stem gives, and the entry name is the data file plus ` data file` |
| Naming.ParseNamesOfSimplePath | src/nomad_mof/parser.py:88-95 | `<dir>/<name>.<ext>` gives `<name>.<ext>`, `<name>.archive.json` and `<name>.<ext> data file` |
| Naming.ParseNamesOfDirectoryPath | src/nomad_mof/parser.py:88-95 | a mainfile ending in `/` gives the empty data file, `.archive.json` and ` data file` |
| Matcher.Truthy | src/nomad_mof/parser.py:78 | `if structure_file:` fails exactly for `null`, `false`, zero, the empty string, the empty list and the empty object |
| Matcher.DictGet | src/nomad_mof/parser.py:76-77 | `.get` raises `AttributeError` exactly when the receiver is not a dict; otherwise it yields the stored value, or the default for a missing key |
| Matcher.EvalStructureFile | src/nomad_mof/parser.py:75-77 | the `try` block raises exactly when the load fails, the document is not a dict, or `mof_atoms` is present but not a dict; it yields a truthy value exactly when the document declares a structure file, and then yields that file |
| Matcher.IsMainfile | src/nomad_mof/parser.py:67-83 | a falsy base verdict is returned unchanged with the flag untouched; children are declared iff the verdict is truthy, a filename is given, the load succeeds and the document holds a truthy `mof_atoms.structure_file`; the child list is then exactly that value and the flag is set; otherwise the base verdict comes back with the flag unchanged |
| Matcher.ChildrenAreOneTruthyFile | src/nomad_mof/parser.py:78-80 | a declared child list has one truthy element, and the call never clears `creates_children` |
| Matcher.StructureFileDeclared | src/nomad_mof/parser.py:74-80 | `{"mof_atoms": {"structure_file": "foo.cif"}}` with a truthy verdict declares `foo.cif` and sets the flag |
| Matcher.FallbackCases | src/nomad_mof/parser.py:73-83 | a failed load, a non-object document or `mof_atoms`, a missing key, a falsy `structure_file` or a missing filename all give back the base verdict |

## Left out

- `src/nomad_mof/schema.py` is left out in full. It holds only declarative field definitions: types, units, sub-sections and display hints. Their typing, unit and persistence rules belong to the host platform.
- The base matcher (`super().is_mainfile`) is an input verdict. It is modelled as a boolean, the type the base matcher returns.
- Reading and parsing the file in `json.load` is abstracted as an `Option<Json>`: `None` stands for any exception the load raises.
- `json.load` reads by calling `.read()` on its argument, so it needs a file object. If the host passes `filename` as a path string, the call raises `AttributeError`, the error is swallowed, and `is_mainfile` always returns the base verdict. The model leaves `load` unconstrained, so it covers both this case (`load` is `None`) and a host that passes an open file.
- The `filename` keyword argument matters only as present or `None`. What it refers to depends on the host.
- Matcher.Json: JSON numbers are reals. The `NaN` and `Infinity` literals that Python's JSON reader accepts are not modelled. Duplicate object keys are not modelled either; Python keeps the last one.
- `MOFData.m_from_dict` with its template, `create_archive`, and the `archive.data` / `archive.metadata` updates in `parse` are host-platform calls. Only the strings they are given are modelled. `MOFDataFile` is defined only in commented-out code, and `MOFData` comes from a module that is not part of this model.
- `parse` as written raises `NameError` at src/nomad_mof/parser.py:93, because `MOFDataFile` is only in a comment and Python looks it up before evaluating the arguments. So `create_archive` never receives the archive file name, and line 95 never sets the entry name. `Naming` models the strings lines 92 and 95 compute or would compute.
- Python strings may hold lone surrogate code points, for example from `surrogateescape` paths or the JSON escape `"\ud800"`. A Dafny `char` cannot hold them, so such paths and JSON strings are not modelled.
- The debug `print` calls in both methods have no effect on results and are not modelled.
