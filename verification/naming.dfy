/**
 The three strings `MOFParser.parse` computes, or would compute, from the mainfile path
 (src/nomad_mof/parser.py):
 the data file name (`mainfile.split('/')[-1]`), the child archive file name
 (`"".join(data_file.split(".")[:-1]) + ".archive.json"`) and the entry display name
 (`data_file + " data file"`).
 */
module Naming {
  import opened Wrappers
  import opened PyStr

  const ArchiveSuffix: string := ".archive.json"
  const EntryNameSuffix: string := " data file"

  /** True when `t` ends `s`. */
  predicate EndsWith(s: string, t: string)
  {
    |t| <= |s| && s[|s| - |t|..] == t
  }

  /**
   `data_file`: the last `/`-separated segment of the mainfile. It is the longest suffix free of
   `/`: it ends the mainfile, contains no `/`, and is either the whole mainfile or preceded by `/`.
   */
  function DataFile(mainfile: string): (r: string)
    ensures '/' !in r
    ensures EndsWith(mainfile, r)
    ensures |r| < |mainfile| ==> mainfile[|mainfile| - |r| - 1] == '/'
    ensures '/' !in mainfile ==> r == mainfile
    ensures |mainfile| > 0 && mainfile[|mainfile| - 1] == '/' ==> r == ""
  {
    var pieces := Split(mainfile, '/');
    SplitLast(mainfile, '/');
    pieces[|pieces| - 1]
  }

  /** The three properties of `DataFile` single it out: no other suffix has them all. */
  lemma DataFileUnique(mainfile: string, t: string)
    requires '/' !in t
    requires EndsWith(mainfile, t)
    requires |t| < |mainfile| ==> mainfile[|mainfile| - |t| - 1] == '/'
    ensures t == DataFile(mainfile)
  {
  }

  /**
   The stem: all `.`-separated pieces of the data file except the last, concatenated with no
   separator (interior dots are dropped). Equivalently, the text before the last `.` of the data
   file with every `.` removed, or the empty string when the data file has no `.`.
   */
  function Stem(dataFile: string): (r: string)
    ensures var k := LastIndexOf(dataFile, '.');
      r == if k < 0 then "" else RemoveAll(dataFile[..k], '.')
    ensures '.' !in r
    ensures '.' !in dataFile ==> r == ""
    ensures |r| < |dataFile| || dataFile == ""
  {
    var pieces := Split(dataFile, '.');
    var kept := pieces[..|pieces| - 1];
    assert forall i :: 0 <= i < |kept| ==> '.' !in kept[i];
    SplitLast(dataFile, '.');
    RemoveAllJoin(kept, '.');
    if |pieces| > 1 then
      // The separator that ends the joined kept pieces is the last `.` of the data file.
      var front := Join(kept, '.');
      assert dataFile[..|front|] == front;
      assert dataFile[|front| + 1..] == pieces[|pieces| - 1];
      LastIndexOfUnique(dataFile, '.', |front|);
      Concat(kept)
    else
      Concat(kept)
  }

  /** With exactly one dot, the stem is the text before it: `sample.json` has stem `sample`. */
  lemma StemOfSingleDot(name: string, ext: string)
    requires '.' !in name && '.' !in ext
    ensures Stem(name + "." + ext) == name
  {
    SplitJoin([name, ext], '.');
    assert Join([name, ext], '.') == name + "." + ext;
  }

  /** With two dots, the stem is the two leading pieces run together: `a.b.json` has stem `ab`. */
  lemma StemOfTwoDots(a: string, b: string, ext: string)
    requires '.' !in a && '.' !in b && '.' !in ext
    ensures Stem(a + "." + b + "." + ext) == a + b
  {
    var pieces := [a, b, ext];
    SplitJoin(pieces, '.');
    assert pieces[1..] == [b, ext] && [b, ext][1..] == [ext];
    assert Join([b, ext], '.') == b + "." + ext;
    assert Join(pieces, '.') == a + "." + (b + "." + ext);
    assert a + "." + (b + "." + ext) == a + "." + b + "." + ext;
    assert Split(a + "." + b + "." + ext, '.') == pieces;
    assert pieces[..2] == [a, b] && [a, b][1..] == [b];
    assert Concat([b]) == b;
    assert Concat([a, b]) == a + b;
  }

  /** The child archive file name: the stem followed by `.archive.json`. */
  function ArchiveFileName(dataFile: string): (r: string)
    ensures EndsWith(r, ArchiveSuffix)
    ensures '.' !in r[..|r| - |ArchiveSuffix|]
    ensures '.' !in dataFile ==> r == ArchiveSuffix
    ensures var k := LastIndexOf(dataFile, '.');
      r == (if k < 0 then "" else RemoveAll(dataFile[..k], '.')) + ArchiveSuffix
  {
    Stem(dataFile) + ArchiveSuffix
  }

  /** `sample.json` gives `sample.archive.json`. */
  lemma ArchiveFileNameOfSingleDot(name: string, ext: string)
    requires '.' !in name && '.' !in ext
    ensures ArchiveFileName(name + "." + ext) == name + ArchiveSuffix
  {
    StemOfSingleDot(name, ext);
  }

  /**
   Interior dots are lost, so different data files can share one archive name:
   `a.b.json` and `ab.json` both give `ab.archive.json`.
   */
  lemma ArchiveFileNameDropsInteriorDots(a: string, b: string, ext: string)
    requires '.' !in a && '.' !in b && '.' !in ext
    ensures ArchiveFileName(a + "." + b + "." + ext) == a + b + ArchiveSuffix
    ensures ArchiveFileName(a + b + "." + ext) == a + b + ArchiveSuffix
  {
    StemOfTwoDots(a, b, ext);
    StemOfSingleDot(a + b, ext);
  }

  /** The entry display name: the data file followed by ` data file`. */
  function EntryName(dataFile: string): (r: string)
    ensures |r| == |dataFile| + |EntryNameSuffix|
    ensures EndsWith(r, EntryNameSuffix)
    ensures r[..|dataFile|] == dataFile
  {
    dataFile + EntryNameSuffix
  }

  /** Recovers the data file from a display name, if the name has the display-name shape. */
  function DataFileOfEntryName(entryName: string): (r: Option<string>)
    ensures r.Some? <==> EndsWith(entryName, EntryNameSuffix)
    ensures r.Some? ==> EntryName(r.value) == entryName
  {
    if EndsWith(entryName, EntryNameSuffix) then
      var dataFile := entryName[..|entryName| - |EntryNameSuffix|];
      assert dataFile + EntryNameSuffix == entryName;
      Some(dataFile)
    else
      None
  }

  /** The display name determines the data file it was made from. */
  lemma EntryNameRoundTrip(dataFile: string)
    ensures DataFileOfEntryName(EntryName(dataFile)) == Some(dataFile)
  {
    var r := DataFileOfEntryName(EntryName(dataFile));
    assert EntryName(dataFile)[..|dataFile|] == dataFile;
  }

  /** The three names `parse` computes, or would compute, for one mainfile. */
  datatype EntryNames = EntryNames(dataFile: string, archiveFileName: string, entryName: string)

  /** The names `parse` computes, or would compute, from a mainfile path. */
  function ParseNames(mainfile: string): (n: EntryNames)
    ensures n.dataFile == DataFile(mainfile)
    ensures n.archiveFileName == ArchiveFileName(n.dataFile)
    ensures n.entryName == n.dataFile + EntryNameSuffix
  {
    var dataFile := DataFile(mainfile);
    EntryNames(dataFile, ArchiveFileName(dataFile), EntryName(dataFile))
  }

  /**
   A mainfile `<dir>/<name>.<ext>` (or just `<name>.<ext>`) names the data file `<name>.<ext>`,
   the archive `<name>.archive.json` and the entry `<name>.<ext> data file`; for example
   `upload/raw/sample.json` gives `sample.json`, `sample.archive.json` and `sample.json data file`.
   */
  lemma ParseNamesOfSimplePath(dir: string, name: string, ext: string)
    requires dir == "" || dir[|dir| - 1] == '/'
    requires '/' !in name && '.' !in name && '/' !in ext && '.' !in ext
    ensures var dataFile := name + "." + ext;
      ParseNames(dir + dataFile) ==
        EntryNames(dataFile, name + ArchiveSuffix, dataFile + EntryNameSuffix)
  {
    var dataFile := name + "." + ext;
    var mainfile := dir + dataFile;
    assert mainfile[|dir|..] == dataFile;
    assert '/' !in dataFile;
    DataFileUnique(mainfile, dataFile);
    StemOfSingleDot(name, ext);
  }

  /** A mainfile ending in `/` has an empty data file, stem `""` and archive `.archive.json`. */
  lemma ParseNamesOfDirectoryPath(mainfile: string)
    requires |mainfile| > 0 && mainfile[|mainfile| - 1] == '/'
    ensures ParseNames(mainfile) == EntryNames("", ArchiveSuffix, EntryNameSuffix)
  {
  }
}
