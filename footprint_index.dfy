/** The footprint index of `create_footprint_index` (indexes/index_footprints.py:34-56): one row
    per `.kicad_mod` file that parses, holding the module name, its pad count and the name of the
    directory the file sits in. */
module FootprintIndex {
  import opened Wrappers
  import Seqs
  import FootprintGrammar

  // ================================================================ paths

  /** The position of the last `c` in `s`. */
  function LastIndexOf(s: string, c: char): (i: nat)
    requires c in s
    ensures i < |s| && s[i] == c
    ensures forall k :: i < k < |s| ==> s[k] != c
  {
    if s[|s| - 1] == c then |s| - 1
    else
      assert c in s[..|s| - 1];
      LastIndexOf(s[..|s| - 1], c)
  }

  /** The last `c` is the one with no `c` after it. */
  lemma LastIndexAt(s: string, c: char, i: nat)
    requires i < |s| && s[i] == c
    requires forall k :: i < k < |s| ==> s[k] != c
    ensures LastIndexOf(s, c) == i
  {
    var j := LastIndexOf(s, c);
    if j > i { assert false; }
  }

  /** The pieces of `s` between the separator `c`, as `str.split` gives them: one more piece
      than separators, none of them holding `c`. */
  function SplitOn(s: string, c: char): (r: seq<string>)
    ensures r != []
    ensures forall k :: 0 <= k < |r| ==> c !in r[k]
    decreases |s|
  {
    if c !in s then [s]
    else
      var i := LastIndexOf(s, c);
      SplitOn(s[..i], c) + [s[i + 1..]]
  }

  /** One more separator, followed by a piece without one, adds that piece at the end. */
  lemma SplitOnSnoc(a: string, b: string, c: char)
    requires c !in b
    ensures SplitOn(a + [c] + b, c) == SplitOn(a, c) + [b]
  {
    var s := a + [c] + b;
    assert s[|a|] == c;
    assert forall k :: |a| < k < |s| ==> s[k] == b[k - |a| - 1];
    LastIndexAt(s, c, |a|);
    assert s[..|a|] == a && s[|a| + 1..] == b;
  }

  /** A path component that `pathlib` keeps: not empty (from a doubled or trailing `/`) and not
      `.`. */
  predicate IsComponent(piece: string) { piece != "" && piece != "." }

  /** The components of a POSIX path, as `pathlib` reads them. */
  function Components(path: string): seq<string>
  {
    Seqs.Filter(SplitOn(path, '/'), IsComponent)
  }

  /** A component added after a `/` becomes the last component. */
  lemma ComponentsSnoc(path: string, piece: string)
    requires IsComponent(piece) && '/' !in piece
    ensures Components(path + "/" + piece) == Components(path) + [piece]
  {
    assert path + "/" + piece == path + ['/'] + piece;
    SplitOnSnoc(path, piece, '/');
    Seqs.FilterAppend(SplitOn(path, '/'), [piece], IsComponent);
    assert Seqs.Filter([piece], IsComponent) == [piece];
  }

  /** `Path(path).parent.name`: the last component but one, or `""` when the parent is `.` or
      the root. */
  function ParentName(path: string): (r: string)
    ensures r == "" || (IsComponent(r) && '/' !in r)
  {
    var cs := Components(path);
    if |cs| >= 2 then
      assert IsComponent(cs[|cs| - 2]);
      assert cs[|cs| - 2] in SplitOn(path, '/');
      cs[|cs| - 2]
    else ""
  }

  /** The location of a footprint `dir/lib/file` is the directory `lib` that holds it, whatever
      lies above it. */
  lemma ParentNameOf(dir: string, lib: string, file: string)
    requires IsComponent(lib) && '/' !in lib
    requires IsComponent(file) && '/' !in file
    ensures ParentName(dir + "/" + lib + "/" + file) == lib
  {
    ComponentsSnoc(dir, lib);
    ComponentsSnoc(dir + "/" + lib, file);
    var cs := Components(dir + "/" + lib + "/" + file);
    assert cs == (Components(dir) + [lib]) + [file];
    assert cs[|cs| - 2] == lib;
  }

  /** A file directly in the current directory has no parent name. */
  lemma ParentNameOfBareFile(file: string)
    requires '/' !in file
    ensures ParentName(file) == ""
  {
    assert |Seqs.Filter([file], IsComponent)| <= 1;
  }

  // ================================================================ the index

  /** One row of the footprint index. */
  datatype FootprintRecord = FootprintRecord(name: string, padCount: nat, location: string)

  /** One `.kicad_mod` file found under the directory: its path and its text. */
  datatype ModFile = ModFile(path: string, text: string)

  /** A file together with what parsing its text gave. */
  datatype ParsedMod = ParsedMod(path: string, footprint: Option<(string, nat)>)

  function ParseAll(files: seq<ModFile>): seq<ParsedMod>
  {
    if files == [] then []
    else
      var f := files[|files| - 1];
      ParseAll(files[..|files| - 1]) + [ParsedMod(f.path, FootprintGrammar.ParseKicadMod(f.text))]
  }

  /** What one file adds: a row when it parses, nothing when it raises `ParseException` (the
      error is logged and the file skipped). */
  function FileRows(f: ParsedMod): seq<FootprintRecord>
  {
    match f.footprint
    case None => []
    case Some((name, pads)) => [FootprintRecord(name, pads, ParentName(f.path))]
  }

  /** The index of a directory tree: the row of each file in turn. */
  function IndexOf(files: seq<ParsedMod>): seq<FootprintRecord>
  {
    Seqs.Flatten(files, FileRows)
  }

  /** `pd.DataFrame(found_fp)`: the three columns of the dictionary read as rows. */
  function Rows(name: seq<string>, padCount: seq<nat>, location: seq<string>): seq<FootprintRecord>
    requires |name| == |padCount| == |location|
  {
    seq(|name|, i requires 0 <= i < |name| => FootprintRecord(name[i], padCount[i], location[i]))
  }

  lemma RowsAppend(name: seq<string>, padCount: seq<nat>, location: seq<string>, r: FootprintRecord)
    requires |name| == |padCount| == |location|
    ensures Rows(name + [r.name], padCount + [r.padCount], location + [r.location]) ==
            Rows(name, padCount, location) + [r]
  {
  }

  lemma {:induction false} IndexSnoc(a: seq<ParsedMod>, f: ParsedMod)
    ensures IndexOf(a + [f]) == IndexOf(a) + FileRows(f)
  {
    Seqs.FlattenSnoc(a, f, FileRows);
  }

  /** `create_footprint_index`: parse every file in turn; for each one that parses, append its
      name, its pad count and the name of its directory to the three columns. */
  method CreateFootprintIndex(files: seq<ModFile>)
    returns (name: seq<string>, padCount: seq<nat>, location: seq<string>)
    ensures |name| == |padCount| == |location|
    ensures Rows(name, padCount, location) == IndexOf(ParseAll(files))
  {
    name, padCount, location := [], [], [];
    var i := 0;
    while i < |files|
      invariant 0 <= i <= |files|
      invariant |name| == |padCount| == |location|
      invariant Rows(name, padCount, location) == IndexOf(ParseAll(files[..i]))
    {
      PrefixStep(files, i);
      name, padCount, location := AddFile(name, padCount, location, files[i]);
      i := i + 1;
    }
    assert files[..i] == files;
  }

  /** The loop body of `create_footprint_index`: parse one file and, when it parses, append
      its name, its pad count and the name of its directory to the three columns. */
  method AddFile(name: seq<string>, padCount: seq<nat>, location: seq<string>, f: ModFile)
    returns (name': seq<string>, padCount': seq<nat>, location': seq<string>)
    requires |name| == |padCount| == |location|
    ensures |name'| == |padCount'| == |location'|
    ensures Rows(name', padCount', location') ==
            Rows(name, padCount, location) + FileRows(ParsedMod(f.path, FootprintGrammar.ParseKicadMod(f.text)))
  {
    var parsed := FootprintGrammar.ParseKicadMod(f.text);
    name', padCount', location' := name, padCount, location;
    if parsed.Some? {
      var row := FootprintRecord(parsed.value.0, parsed.value.1, ParentName(f.path));
      RowsAppend(name, padCount, location, row);
      name', padCount', location' := name + [row.name], padCount + [row.padCount], location + [row.location];
    }
  }

  /** One more file adds its row, if any, at the end of the index. */
  lemma PrefixStep(files: seq<ModFile>, i: nat)
    requires i < |files|
    ensures IndexOf(ParseAll(files[..i + 1])) ==
            IndexOf(ParseAll(files[..i])) + FileRows(ParsedMod(files[i].path, FootprintGrammar.ParseKicadMod(files[i].text)))
  {
    var pre := files[..i + 1];
    assert pre[..|pre| - 1] == files[..i];
    assert pre[|pre| - 1] == files[i];
    IndexSnoc(ParseAll(files[..i]), ParsedMod(files[i].path, FootprintGrammar.ParseKicadMod(files[i].text)));
  }

  // ================================================================ what the index says

  /** A file that does not parse leaves the index as if it were not there. */
  lemma FailedFileSkipped(a: seq<ParsedMod>, f: ParsedMod, b: seq<ParsedMod>)
    requires f.footprint.None?
    ensures IndexOf(a + [f] + b) == IndexOf(a + b)
  {
    Seqs.FlattenAppend(a + [f], b, FileRows);
    Seqs.FlattenAppend(a, [f], FileRows);
    Seqs.FlattenAppend(a, b, FileRows);
    Seqs.FlattenSingle(f, FileRows);
  }

  predicate Parsed(f: ParsedMod) { f.footprint.Some? }

  /** One row per file that parses: the index is as long as the list of parsed files. */
  lemma {:induction false} OneRowPerParsedFile(files: seq<ParsedMod>)
    ensures |IndexOf(files)| == |Seqs.Filter(files, Parsed)|
    decreases |files|
  {
    if files != [] {
      var init, last := files[..|files| - 1], files[|files| - 1];
      assert files == init + [last];
      OneRowPerParsedFile(init);
      Seqs.FilterAppend(init, [last], Parsed);
      assert [last][1..] == [];
    }
  }

  /** The rows follow the files: the row at position `k` of the index is the row of the `k`-th
      file that parsed, with its name, its pad count and the name of its directory. */
  lemma {:induction false} RowsFollowFiles(files: seq<ParsedMod>, k: nat)
    requires k < |Seqs.Filter(files, Parsed)|
    ensures k < |IndexOf(files)|
    ensures var f := Seqs.Filter(files, Parsed)[k];
            IndexOf(files)[k] == FootprintRecord(f.footprint.value.0, f.footprint.value.1, ParentName(f.path))
    decreases |files|
  {
    var init, last := files[..|files| - 1], files[|files| - 1];
    assert files == init + [last];
    Seqs.FilterAppend(init, [last], Parsed);
    assert [last][1..] == [];
    OneRowPerParsedFile(init);
    if k < |Seqs.Filter(init, Parsed)| {
      RowsFollowFiles(init, k);
    }
  }

  /** Every row of the index is the row of one file that parsed. */
  lemma {:induction false} IndexRowsFromFiles(files: seq<ParsedMod>, r: FootprintRecord)
    ensures r in IndexOf(files) <==>
            exists f :: f in files && f.footprint.Some? &&
                        r == FootprintRecord(f.footprint.value.0, f.footprint.value.1, ParentName(f.path))
    decreases |files|
  {
    if files != [] {
      var init, last := files[..|files| - 1], files[|files| - 1];
      assert files == init + [last];
      IndexRowsFromFiles(init, r);
      if exists f :: f in files && f.footprint.Some? &&
                     r == FootprintRecord(f.footprint.value.0, f.footprint.value.1, ParentName(f.path)) {
        var f :| f in files && f.footprint.Some? &&
                 r == FootprintRecord(f.footprint.value.0, f.footprint.value.1, ParentName(f.path));
        if f != last { assert f in init; }
      }
    }
  }
}
