/** The queries of `SearchPart` (search_part.py:33-145) over the two loaded indexes: filter the
    rows by an exact count and by a name pattern, then return every surviving row or the first. */
module Search {
  import opened Wrappers
  import opened Text
  import Seqs
  import opened PartIndex
  import opened FootprintIndex

  // ================================================================ the row masks

  /** `df.pin_count == n`. */
  function HasPinCount(n: int): PartRecord -> bool
  {
    (r: PartRecord) => r.pinCount == n
  }

  /** `df.part_name.str.contains(name.upper(), case=False, regex=True)`, the regular expression
      search being `matches(pattern, text)`. */
  function PartNameMatches(matches: (string, string) -> bool, name: string): PartRecord -> bool
  {
    (r: PartRecord) => matches(Upper(name), r.partName)
  }

  /** `df.pad_count == n`. */
  function HasPadCount(n: int): FootprintRecord -> bool
  {
    (r: FootprintRecord) => r.padCount == n
  }

  /** `df.name.str.contains(name.upper(), case=False, regex=True)`. */
  function FootprintNameMatches(matches: (string, string) -> bool, name: string): FootprintRecord -> bool
  {
    (r: FootprintRecord) => matches(Upper(name), r.name)
  }

  /** Both part filters at once. */
  function PartWanted(matches: (string, string) -> bool, n: int, name: string): PartRecord -> bool
  {
    (r: PartRecord) => r.pinCount == n && matches(Upper(name), r.partName)
  }

  /** The two part filters, one after the other, are the two at once. */
  lemma PartFiltersFuse(rows: seq<PartRecord>, matches: (string, string) -> bool, n: int, name: string)
    ensures Seqs.Filter(Seqs.Filter(rows, HasPinCount(n)), PartNameMatches(matches, name)) ==
            Seqs.Filter(rows, PartWanted(matches, n, name))
  {
    Seqs.FilterFuse(rows, HasPinCount(n), PartNameMatches(matches, name), PartWanted(matches, n, name));
  }

  /** Both footprint filters at once. */
  function FootprintWanted(matches: (string, string) -> bool, n: int, name: string): FootprintRecord -> bool
  {
    (r: FootprintRecord) => r.padCount == n && matches(Upper(name), r.name)
  }

  lemma FootprintFiltersFuse(rows: seq<FootprintRecord>, matches: (string, string) -> bool, n: int, name: string)
    ensures Seqs.Filter(Seqs.Filter(rows, HasPadCount(n)), FootprintNameMatches(matches, name)) ==
            Seqs.Filter(rows, FootprintWanted(matches, n, name))
  {
    Seqs.FilterFuse(rows, HasPadCount(n), FootprintNameMatches(matches, name), FootprintWanted(matches, n, name));
  }

  /** What `create_part` hands to `skidl.Part`: the library, the part name and the footprint. */
  datatype PartArgs = PartArgs(lib: string, name: string, footprint: string)

  /** A search over the part index and the footprint index. The regular expression engine is
      `matches(pattern, text)`: whether a case-insensitive search for `pattern` finds a match
      anywhere in `text`. */
  class SearchPart {
    const partDf: seq<PartRecord>
    const fpDf: seq<FootprintRecord>
    const matches: (string, string) -> bool

    /** The tables `_load_indexes` reads from `skidl_part_index.csv` and
        `skidl_footprint_index.csv`. */
    constructor (partDf: seq<PartRecord>, fpDf: seq<FootprintRecord>, matches: (string, string) -> bool)
      ensures this.partDf == partDf && this.fpDf == fpDf && this.matches == matches
    {
      this.partDf := partDf;
      this.fpDf := fpDf;
      this.matches := matches;
    }

    // -------------------------------------------------------------- parts

    /** `query_part_return_all`: the pin-count filter, then the name filter. */
    function QueryPartReturnAll(pinCount: int, name: string): seq<PartRecord>
      requires pinCount > -1 && name != ""
    {
      Seqs.Filter(Seqs.Filter(partDf, HasPinCount(pinCount)), PartNameMatches(matches, name))
    }

    /** The result of `query_part_return_all` is the index restricted to the rows with the pin
        count whose part name the pattern matches, in the order of the index: a row is in it
        exactly when it is in the index and passes both filters. */
    lemma QueryPartReturnAllSelects(pinCount: int, name: string)
      requires pinCount > -1 && name != ""
      ensures Seqs.SelectedFrom(QueryPartReturnAll(pinCount, name), partDf, PartWanted(matches, pinCount, name))
      ensures forall x :: x in QueryPartReturnAll(pinCount, name) <==>
                x in partDf && x.pinCount == pinCount && matches(Upper(name), x.partName)
    {
      PartFiltersFuse(partDf, matches, pinCount, name);
      Seqs.FilterSelects(partDf, PartWanted(matches, pinCount, name));
      forall x {
        Seqs.FilterMembership(partDf, PartWanted(matches, pinCount, name), x);
      }
    }

    /** `query_part`: the library of the first row that survives both filters, without its
        `.lib` extension, and that row's part name; `NoMatch` when no row survives. */
    function QueryPart(pinCount: int, name: string): Result<(string, string)>
    {
      var rows := Seqs.Filter(Seqs.Filter(partDf, HasPinCount(pinCount)), PartNameMatches(matches, name));
      if rows == [] then Err(NoMatch)
      else Ok((DropLast(rows[0].location, 4), rows[0].partName))
    }

    /** `query_part` answers exactly when some row passes both filters, and then from the first
        such row of the index. */
    lemma QueryPartFirstMatch(pinCount: int, name: string)
      ensures QueryPart(pinCount, name).Ok? <==>
              exists i :: 0 <= i < |partDf| && PartWanted(matches, pinCount, name)(partDf[i])
      ensures QueryPart(pinCount, name).Ok? ==>
              exists i :: 0 <= i < |partDf| && PartWanted(matches, pinCount, name)(partDf[i]) &&
                (forall j :: 0 <= j < i ==> !PartWanted(matches, pinCount, name)(partDf[j])) &&
                QueryPart(pinCount, name).value == (DropLast(partDf[i].location, 4), partDf[i].partName)
    {
      PartFiltersFuse(partDf, matches, pinCount, name);
      Seqs.FilterHead(partDf, PartWanted(matches, pinCount, name));
    }

    /** With the first matching row in the library file `base.lib`, `query_part` names the
        library `base`. */
    lemma QueryPartLibrary(pinCount: int, name: string, i: nat, base: string)
      requires i < |partDf| && PartWanted(matches, pinCount, name)(partDf[i])
      requires forall j :: 0 <= j < i ==> !PartWanted(matches, pinCount, name)(partDf[j])
      requires partDf[i].location == base + ".lib"
      ensures QueryPart(pinCount, name) == Ok((base, partDf[i].partName))
    {
      QueryPartFirstMatch(pinCount, name);
      var k :| 0 <= k < |partDf| && PartWanted(matches, pinCount, name)(partDf[k]) &&
               (forall j :: 0 <= j < k ==> !PartWanted(matches, pinCount, name)(partDf[j])) &&
               QueryPart(pinCount, name).value == (DropLast(partDf[k].location, 4), partDf[k].partName);
      assert k == i;
      DropLastSuffix(base, ".lib");
    }

    // -------------------------------------------------------------- footprints

    /** `query_footprint`: the location and the name of the first row that survives both
        filters; `NoMatch` when no row survives. */
    function QueryFootprint(padCount: int, name: string): Result<(string, string)>
    {
      var rows := Seqs.Filter(Seqs.Filter(fpDf, HasPadCount(padCount)), FootprintNameMatches(matches, name));
      if rows == [] then Err(NoMatch)
      else Ok((rows[0].location, rows[0].name))
    }

    /** `query_footprint` answers exactly when some row passes both filters, and then with the
        location and the name of the first such row; the placeholder is never returned. */
    lemma QueryFootprintFirstMatch(padCount: int, name: string)
      ensures QueryFootprint(padCount, name).Ok? <==>
              exists i :: 0 <= i < |fpDf| && FootprintWanted(matches, padCount, name)(fpDf[i])
      ensures QueryFootprint(padCount, name).Ok? ==>
              exists i :: 0 <= i < |fpDf| && FootprintWanted(matches, padCount, name)(fpDf[i]) &&
                (forall j :: 0 <= j < i ==> !FootprintWanted(matches, padCount, name)(fpDf[j])) &&
                QueryFootprint(padCount, name).value == (fpDf[i].location, fpDf[i].name)
    {
      FootprintFiltersFuse(fpDf, matches, padCount, name);
      Seqs.FilterHead(fpDf, FootprintWanted(matches, padCount, name));
    }

    /** `query_footprint_return_all`: the two filters, pad count first or name first. */
    function QueryFootprintReturnAll(padCount: int, name: string, byPadCount: bool): seq<FootprintRecord>
      requires padCount > -1 && name != ""
    {
      if byPadCount then
        Seqs.Filter(Seqs.Filter(fpDf, HasPadCount(padCount)), FootprintNameMatches(matches, name))
      else
        Seqs.Filter(Seqs.Filter(fpDf, FootprintNameMatches(matches, name)), HasPadCount(padCount))
    }

    /** The order of the two filters does not matter: both orders give the same rows in the same
        order. */
    lemma QueryFootprintOrderIrrelevant(padCount: int, name: string)
      requires padCount > -1 && name != ""
      ensures QueryFootprintReturnAll(padCount, name, true) == QueryFootprintReturnAll(padCount, name, false)
    {
      Seqs.FilterCommutes(fpDf, HasPadCount(padCount), FootprintNameMatches(matches, name));
    }

    /** Either way, the result is the index restricted to the rows with the pad count whose name
        the pattern matches, in the order of the index. */
    lemma QueryFootprintReturnAllSelects(padCount: int, name: string, byPadCount: bool)
      requires padCount > -1 && name != ""
      ensures Seqs.SelectedFrom(QueryFootprintReturnAll(padCount, name, byPadCount), fpDf,
                                FootprintWanted(matches, padCount, name))
      ensures forall x :: x in QueryFootprintReturnAll(padCount, name, byPadCount) <==>
                x in fpDf && x.padCount == padCount && matches(Upper(name), x.name)
    {
      QueryFootprintOrderIrrelevant(padCount, name);
      FootprintFiltersFuse(fpDf, matches, padCount, name);
      Seqs.FilterSelects(fpDf, FootprintWanted(matches, padCount, name));
      forall x {
        Seqs.FilterMembership(fpDf, FootprintWanted(matches, padCount, name), x);
      }
    }

    // -------------------------------------------------------------- the pattern's case

    /** The pattern is upper-cased before the search, so two patterns that upper-case alike
        give the same answers to every query. Nothing is assumed of `matches` itself. */
    lemma PatternCaseIrrelevant(count: int, name: string, other: string)
      requires Upper(name) == Upper(other)
      ensures QueryPart(count, name) == QueryPart(count, other)
      ensures QueryFootprint(count, name) == QueryFootprint(count, other)
      ensures count > -1 && name != "" && other != "" ==>
                QueryPartReturnAll(count, name) == QueryPartReturnAll(count, other) &&
                QueryFootprintReturnAll(count, name, true) == QueryFootprintReturnAll(count, other, true) &&
                QueryFootprintReturnAll(count, name, false) == QueryFootprintReturnAll(count, other, false)
    {
      var byPins := Seqs.Filter(partDf, HasPinCount(count));
      Seqs.FilterExt(byPins, PartNameMatches(matches, name), PartNameMatches(matches, other));
      var byPads := Seqs.Filter(fpDf, HasPadCount(count));
      Seqs.FilterExt(byPads, FootprintNameMatches(matches, name), FootprintNameMatches(matches, other));
      Seqs.FilterExt(fpDf, FootprintNameMatches(matches, name), FootprintNameMatches(matches, other));
    }

    /** `"lp2951"` and `"LP2951"` find the same part. */
    lemma LowerCasePatternExample(pinCount: int)
      ensures QueryPart(pinCount, "lp2951") == QueryPart(pinCount, "LP2951")
    {
      assert Upper("lp2951") == "LP2951" == Upper("LP2951");
      PatternCaseIrrelevant(pinCount, "lp2951", "LP2951");
    }

    // -------------------------------------------------------------- create_part

    /** The argument computation of `create_part`: the pad count defaults to the pin count; the
        footprint is the footprint's library without its `.pretty` extension, a colon and the
        footprint name. A query that finds nothing raises, here `NoMatch`. */
    function CreatePartArgs(pinCount: int, name: string, fpName: string, padCount: Option<int>): Result<PartArgs>
    {
      var pads := if padCount.None? then pinCount else padCount.value;
      match QueryPart(pinCount, name)
      case Err(e) => Err(e)
      case Ok((lib, partName)) =>
        match QueryFootprint(pads, fpName)
        case Err(e) => Err(e)
        case Ok((fpMod, fpName')) => Ok(PartArgs(lib, partName, DropLast(fpMod, 7) + ":" + fpName'))
    }

    /** Without a pad count, the footprint is looked up with the pin count. */
    lemma CreatePartDefaultPadCount(pinCount: int, name: string, fpName: string)
      ensures CreatePartArgs(pinCount, name, fpName, None) == CreatePartArgs(pinCount, name, fpName, Some(pinCount))
    {
    }

    /** A part is made exactly when both queries answer. */
    lemma CreatePartFromQueries(pinCount: int, name: string, fpName: string, pads: int)
      ensures CreatePartArgs(pinCount, name, fpName, Some(pads)).Ok? <==>
              QueryPart(pinCount, name).Ok? && QueryFootprint(pads, fpName).Ok?
    {
    }

    /** The part takes its library and its name from the part query, and a footprint found in
        the footprint library `lib.pretty` under the name `fp` becomes `lib:fp`. */
    lemma CreatePartFootprint(pinCount: int, name: string, fpName: string, pads: int, lib: string, fp: string)
      requires QueryPart(pinCount, name).Ok?
      requires QueryFootprint(pads, fpName) == Ok((lib + ".pretty", fp))
      ensures CreatePartArgs(pinCount, name, fpName, Some(pads)) ==
              Ok(PartArgs(QueryPart(pinCount, name).value.0, QueryPart(pinCount, name).value.1, lib + ":" + fp))
    {
      DropLastSuffix(lib, ".pretty");
    }
  }
}
