/** The part index of indexes/index_parts.py: the rows `_create_index` makes from one parsed
    library (lines 133-149) and the index `create_part_index` gathers over a directory of
    libraries (lines 152-171). */
module PartIndex {
  import opened Wrappers
  import opened LibGrammar
  import Seqs

  /** One row of the part index: the name to search for, the part's pin count, the library it
      came from and the part that the name stands for. */
  datatype PartRecord = PartRecord(partName: string, pinCount: nat, location: string, alias: string)

  /** The rows of one part: its own row, then one row per alias, all naming the part itself in
      `alias` and carrying its pin count. */
  function PartRows(p: PartDef, loc: string): seq<PartRecord>
  {
    [PartRecord(p.name, |p.pins|, loc, p.name)] +
    seq(|p.aliases|, k requires 0 <= k < |p.aliases| => PartRecord(p.aliases[k], |p.pins|, loc, p.name))
  }

  /** The rows of a library's parts, part after part. */
  function LibraryRows(parts: seq<PartDef>, loc: string): seq<PartRecord>
  {
    if parts == [] then []
    else LibraryRows(parts[..|parts| - 1], loc) + PartRows(parts[|parts| - 1], loc)
  }

  /** `pd.DataFrame(p_dict)`: the four columns of the dictionary read as rows. */
  function Rows(partName: seq<string>, pinCount: seq<nat>, location: seq<string>,
                alias: seq<string>): seq<PartRecord>
    requires |partName| == |pinCount| == |location| == |alias|
  {
    seq(|partName|, i requires 0 <= i < |partName| =>
      PartRecord(partName[i], pinCount[i], location[i], alias[i]))
  }

  lemma RowsAppend(partName: seq<string>, pinCount: seq<nat>, location: seq<string>,
                   alias: seq<string>, r: PartRecord)
    requires |partName| == |pinCount| == |location| == |alias|
    ensures Rows(partName + [r.partName], pinCount + [r.pinCount], location + [r.location],
                 alias + [r.alias]) == Rows(partName, pinCount, location, alias) + [r]
  {
  }

  /** `_create_index`: for every part, its own row and then a row for each of its aliases, each
      row written column by column into the dictionary. */
  method CreateIndex(lib: Library, libFileName: string)
    returns (partName: seq<string>, pinCount: seq<nat>, location: seq<string>, alias: seq<string>)
    ensures |partName| == |pinCount| == |location| == |alias|
    ensures Rows(partName, pinCount, location, alias) == LibraryRows(lib.parts, libFileName)
  {
    partName, pinCount, location, alias := [], [], [], [];
    var i := 0;
    while i < |lib.parts|
      invariant 0 <= i <= |lib.parts|
      invariant |partName| == |pinCount| == |location| == |alias|
      invariant Rows(partName, pinCount, location, alias) == LibraryRows(lib.parts[..i], libFileName)
    {
      var part := lib.parts[i];
      ghost var before := Rows(partName, pinCount, location, alias);
      RowsAppend(partName, pinCount, location, alias, PartRecord(part.name, |part.pins|, libFileName, part.name));
      partName := partName + [part.name];
      pinCount := pinCount + [|part.pins|];
      location := location + [libFileName];
      alias := alias + [part.name];
      var j := 0;
      while j < |part.aliases|
        invariant 0 <= j <= |part.aliases|
        invariant |partName| == |pinCount| == |location| == |alias|
        invariant Rows(partName, pinCount, location, alias) == before + PartRows(part, libFileName)[..j + 1]
      {
        var p := part.aliases[j];
        RowsAppend(partName, pinCount, location, alias, PartRecord(p, |part.pins|, libFileName, part.name));
        partName := partName + [p];
        pinCount := pinCount + [|part.pins|];
        location := location + [libFileName];
        alias := alias + [part.name];
        assert PartRows(part, libFileName)[..j + 2] == PartRows(part, libFileName)[..j + 1] + [PartRows(part, libFileName)[j + 1]];
        j := j + 1;
      }
      assert PartRows(part, libFileName)[..j + 1] == PartRows(part, libFileName);
      assert lib.parts[..i + 1][..i] == lib.parts[..i];
      i := i + 1;
    }
    assert lib.parts[..i] == lib.parts;
  }

  // ================================================================ what the rows say

  /** `r` is one of the rows `_create_index` writes for part `p` of the library at `loc`. */
  ghost predicate IsRowOf(r: PartRecord, p: PartDef, loc: string)
  {
    r.location == loc && r.alias == p.name && r.pinCount == |p.pins| &&
    (r.partName == p.name || r.partName in p.aliases)
  }

  lemma PartRowsMembership(p: PartDef, loc: string, r: PartRecord)
    ensures r in PartRows(p, loc) <==> IsRowOf(r, p, loc)
  {
    var rows := PartRows(p, loc);
    if r in rows {
      var k :| 0 <= k < |rows| && rows[k] == r;
      if k > 0 { assert r.partName == p.aliases[k - 1]; }
    }
    if IsRowOf(r, p, loc) {
      if r.partName == p.name {
        assert rows[0] == r;
      } else {
        var k :| 0 <= k < |p.aliases| && p.aliases[k] == r.partName;
        assert rows[k + 1] == r;
      }
    }
  }

  /** The rows of a library are exactly the own rows and alias rows of its parts: every name a
      part is known by is findable, and nothing else is. */
  lemma {:induction false} LibraryRowsMembership(parts: seq<PartDef>, loc: string, r: PartRecord)
    ensures r in LibraryRows(parts, loc) <==> exists p :: p in parts && IsRowOf(r, p, loc)
    decreases |parts|
  {
    if parts != [] {
      var init, last := parts[..|parts| - 1], parts[|parts| - 1];
      assert parts == init + [last];
      LibraryRowsMembership(init, loc, r);
      PartRowsMembership(last, loc, r);
      if exists p :: p in parts && IsRowOf(r, p, loc) {
        var p :| p in parts && IsRowOf(r, p, loc);
        if p != last { assert p in init; }
      }
    }
  }

  /** Rows come part after part: indexing two runs of parts gives the rows of the first run,
      then those of the second. */
  lemma {:induction false} LibraryRowsAppend(a: seq<PartDef>, b: seq<PartDef>, loc: string)
    ensures LibraryRows(a + b, loc) == LibraryRows(a, loc) + LibraryRows(b, loc)
    decreases |b|
  {
    if b == [] {
      assert a + b == a;
    } else {
      var init, last := b[..|b| - 1], b[|b| - 1];
      assert (a + b)[..|a + b| - 1] == a + init;
      assert (a + b)[|a + b| - 1] == last;
      LibraryRowsAppend(a, init, loc);
    }
  }

  /** Every row's `alias` names a part that has its own row, with the same pin count and
      library: an alias always leads back to a canonical part. */
  lemma AliasesResolve(parts: seq<PartDef>, loc: string, r: PartRecord)
    requires r in LibraryRows(parts, loc)
    ensures exists c :: c in LibraryRows(parts, loc) && c.partName == r.alias && c.alias == r.alias &&
                        c.pinCount == r.pinCount && c.location == r.location
  {
    LibraryRowsMembership(parts, loc, r);
    var p :| p in parts && IsRowOf(r, p, loc);
    var c := PartRecord(p.name, |p.pins|, loc, p.name);
    LibraryRowsMembership(parts, loc, c);
  }

  /** Each part gives one row for itself and one per alias. */
  function NameCount(parts: seq<PartDef>): nat
  {
    if parts == [] then 0 else NameCount(parts[1..]) + 1 + |parts[0].aliases|
  }

  lemma {:induction false} LibraryRowCount(parts: seq<PartDef>, loc: string)
    ensures |LibraryRows(parts, loc)| == NameCount(parts)
    decreases |parts|
  {
    if parts != [] {
      assert parts == [parts[0]] + parts[1..];
      LibraryRowsAppend([parts[0]], parts[1..], loc);
      assert [parts[0]][..0] == [];
      LibraryRowCount(parts[1..], loc);
    }
  }

  // ================================================================ create_part_index

  /** One `.lib` file of the directory: its path and its text. */
  datatype LibFile = LibFile(path: string, text: string)

  /** A file together with what parsing its text gave. */
  datatype ParsedFile = ParsedFile(path: string, lib: Option<Library>)

  function ParseAll(files: seq<LibFile>): seq<ParsedFile>
  {
    if files == [] then []
    else
      var f := files[|files| - 1];
      ParseAll(files[..|files| - 1]) + [ParsedFile(f.path, ParseKicadLib(f.text))]
  }

  /** What one file adds to the index: its rows when it parses, nothing when it does not (the
      error is logged and the file skipped). */
  function FileRows(f: ParsedFile): seq<PartRecord>
  {
    match f.lib
    case None => []
    case Some(lib) => LibraryRows(lib.parts, f.path)
  }

  /** The index of a directory: the rows of each file in turn. */
  function IndexOf(files: seq<ParsedFile>): seq<PartRecord>
  {
    Seqs.Flatten(files, FileRows)
  }

  /** The rows one library file contributes: `_create_index` of what it parses to, or nothing
      when parsing raises `ParseException`. */
  method LibFileRows(f: LibFile) returns (rows: seq<PartRecord>)
    ensures rows == FileRows(ParsedFile(f.path, ParseKicadLib(f.text)))
  {
    var parsed := ParseKicadLib(f.text);
    match parsed {
      case None => rows := [];
      case Some(lib) =>
        var partName, pinCount, location, alias := CreateIndex(lib, f.path);
        rows := Rows(partName, pinCount, location, alias);
    }
  }

  /** `create_part_index`: parse every library in turn and append the rows of those that parse. */
  method CreatePartIndex(files: seq<LibFile>) returns (index: seq<PartRecord>)
    ensures index == IndexOf(ParseAll(files))
  {
    index := [];
    var i := 0;
    while i < |files|
      invariant 0 <= i <= |files|
      invariant index == IndexOf(ParseAll(files[..i]))
    {
      var rows := LibFileRows(files[i]);
      PrefixStep(files, i);
      index := index + rows;
      i := i + 1;
    }
    assert files[..i] == files;
  }

  /** One more file of the directory adds its rows at the end of the index. */
  lemma PrefixStep(files: seq<LibFile>, i: nat)
    requires i < |files|
    ensures IndexOf(ParseAll(files[..i + 1])) ==
            IndexOf(ParseAll(files[..i])) + FileRows(ParsedFile(files[i].path, ParseKicadLib(files[i].text)))
  {
    var pre := files[..i + 1];
    assert pre[..|pre| - 1] == files[..i];
    assert pre[|pre| - 1] == files[i];
    IndexSnoc(ParseAll(files[..i]), ParsedFile(files[i].path, ParseKicadLib(files[i].text)));
  }

  lemma {:induction false} IndexSnoc(a: seq<ParsedFile>, f: ParsedFile)
    ensures IndexOf(a + [f]) == IndexOf(a) + FileRows(f)
  {
    Seqs.FlattenSnoc(a, f, FileRows);
  }

  /** A library that does not parse leaves the index as if it were not in the directory. */
  lemma FailedFileSkipped(a: seq<ParsedFile>, f: ParsedFile, b: seq<ParsedFile>)
    requires f.lib.None?
    ensures IndexOf(a + [f] + b) == IndexOf(a + b)
  {
    Seqs.FlattenAppend(a + [f], b, FileRows);
    Seqs.FlattenAppend(a, [f], FileRows);
    Seqs.FlattenAppend(a, b, FileRows);
    Seqs.FlattenSingle(f, FileRows);
    assert IndexOf(a + [f]) == IndexOf(a);
  }

  /** Every row of the index comes from one file that parsed. */
  lemma {:induction false} IndexRowsFromFiles(files: seq<ParsedFile>, r: PartRecord)
    ensures r in IndexOf(files) <==> exists f :: f in files && r in FileRows(f)
  {
    Seqs.FlattenMembership(files, FileRows, r);
  }

  /** A row that one file contributes names that file's path as its library. */
  lemma FileRowsLocation(f: ParsedFile, r: PartRecord)
    requires r in FileRows(f)
    ensures f.lib.Some? && r.location == f.path
  {
    LibraryRowsMembership(f.lib.value.parts, f.path, r);
  }
}
