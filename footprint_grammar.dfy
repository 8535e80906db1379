/** The KiCad footprint grammar of `_parse_kicad_mod` (indexes/index_footprints.py:58-84), on the
    characters of a `.kicad_mod` file: the module name, then the pads of the first run of pad
    entries, of which the ones with a numeric id are counted. */
module FootprintGrammar {
  import opened Wrappers
  import opened Text
  import Seqs

  // ================================================================ scanning

  /** pyparsing's whitespace skipping: the first position at or after `i` that is not
      whitespace. */
  function SkipWs(s: string, i: nat): (j: nat)
    requires i <= |s|
    ensures i <= j <= |s| && (j == |s| || !IsSpace(s[j]))
    ensures forall k :: i <= k < j ==> IsSpace(s[k])
    decreases |s| - i
  {
    if i == |s| || !IsSpace(s[i]) then i else SkipWs(s, i + 1)
  }

  /** `restOfLine`: the position of the newline that ends the line holding `i`, or the end. */
  function LineEnd(s: string, i: nat): (j: nat)
    requires i <= |s|
    ensures i <= j <= |s| && (j == |s| || s[j] == '\n')
    ensures forall k :: i <= k < j ==> s[k] != '\n'
    decreases |s| - i
  {
    if i == |s| || s[i] == '\n' then i else LineEnd(s, i + 1)
  }

  /** `Word(printables)`: the end of the run of printable characters that starts at `i`. */
  function PrintableEnd(s: string, i: nat): (j: nat)
    requires i <= |s|
    ensures i <= j <= |s| && (j == |s| || !IsPrintable(s[j]))
    ensures forall k :: i <= k < j ==> IsPrintable(s[k])
    decreases |s| - i
  {
    if i == |s| || !IsPrintable(s[i]) then i else PrintableEnd(s, i + 1)
  }

  /** pyparsing's keyword characters: a keyword must not run on into one of them. */
  predicate IsIdentChar(c: char) { IsAlnum(c) || c == '_' || c == '$' }

  /** `CaselessKeyword(keyword)` at `i`, the keyword given in upper case. */
  predicate KeywordAt(s: string, i: nat, keyword: string)
  {
    i + |keyword| <= |s| && Upper(s[i..i + |keyword|]) == keyword &&
    (i + |keyword| == |s| || !IsIdentChar(s[i + |keyword|]))
  }

  // ================================================================ the module header (64-70)

  /** The module name and where it sits: `nameAt` is its first character, `restAt` the newline
      (or the end of the text) where the header's `restOfLine` stops. */
  datatype Header = Header(name: string, nameAt: nat, restAt: nat)

  /** `name`: `(`, the keyword `module`, an optional `"`, the name, an optional `"`, then the
      rest of the line. The trailing `Optional('"')` skips whitespace, newlines included, before
      it tries the quote, and keeps that position when the quote is missing: the rest of the
      line is then that of the first character after the name that is not whitespace. */
  function ParseHeader(s: string): (r: Option<Header>)
    ensures r.Some? ==> OpensModule(s)
  {
    if !OpensModule(s) then None
    else
      var n := NameAt(s);
      var e := PrintableEnd(s, n);
      if e == n then None
      else
        var q' := SkipWs(s, e);
        var rest := LineEnd(s, if q' < |s| && s[q'] == '"' then q' + 1 else q');
        Some(Header(s[n..e], n, rest))
  }

  /** Where the keyword `module` ends: six characters after where it starts. */
  function KeywordEnd(s: string): (e: nat)
    requires OpensModule(s)
    ensures e <= |s|
  {
    SkipWs(s, SkipWs(s, 0) + 1) + 6
  }

  /** Where the name starts: after the keyword, whitespace, then `Optional('"')`, which skips
      one quote and the whitespace after it. */
  function NameAt(s: string): (n: nat)
    requires OpensModule(s)
    ensures var q := SkipWs(s, KeywordEnd(s));
      q <= n <= |s| && (q < |s| && s[q] == '"' ==> q < n)
  {
    var q := SkipWs(s, KeywordEnd(s));
    SkipWs(s, if q < |s| && s[q] == '"' then q + 1 else q)
  }

  /** `Suppress("(") + CaselessKeyword("module")`, after leading whitespace. */
  predicate OpensModule(s: string)
  {
    var i := SkipWs(s, 0);
    i < |s| && s[i] == '(' && KeywordAt(s, SkipWs(s, i + 1), "MODULE")
  }

  /** What a header that parses looks like: it opens with `(` and the keyword `module`; then
      come whitespace and at most one `"`, and the name starts right there, past the `"` when one
      is the first character after the keyword's whitespace; the name is a maximal
      run of printable characters of the text; `restOfLine` runs from the first character after
      the name's trailing whitespace (past one `"`) to the first newline, or to the end. */
  lemma HeaderShape(s: string)
    requires ParseHeader(s).Some?
    ensures OpensModule(s)
    ensures var j, h := SkipWs(s, SkipWs(s, 0) + 1), ParseHeader(s).value;
      j + 6 <= h.nameAt &&
      (forall k :: j + 6 <= k < h.nameAt ==> IsSpace(s[k]) || s[k] == '"') &&
      (forall k, l :: j + 6 <= k < l < h.nameAt && s[k] == '"' ==> s[l] != '"')
    ensures var q := SkipWs(s, KeywordEnd(s));
      q < |s| && s[q] == '"' ==> q < ParseHeader(s).value.nameAt
    ensures var h := ParseHeader(s).value;
      h.name != [] && h.nameAt + |h.name| <= h.restAt <= |s| &&
      s[h.nameAt..h.nameAt + |h.name|] == h.name &&
      (forall k :: 0 <= k < |h.name| ==> IsPrintable(h.name[k])) &&
      (h.nameAt + |h.name| == |s| || !IsPrintable(s[h.nameAt + |h.name|]))
    ensures var h := ParseHeader(s).value;
      SkipWs(s, h.nameAt + |h.name|) <= h.restAt &&
      (forall k :: SkipWs(s, h.nameAt + |h.name|) <= k < h.restAt ==> s[k] != '\n') &&
      (h.restAt == |s| || s[h.restAt] == '\n')
  {
    HeaderNameAt(s);
    HeaderStartsAtNameAt(s);
    HeaderName(s);
    HeaderRest(s);
  }

  /** The header's name starts where `NameAt` says. */
  lemma HeaderStartsAtNameAt(s: string)
    requires ParseHeader(s).Some?
    ensures OpensModule(s) && ParseHeader(s).value.nameAt == NameAt(s)
  {
  }

  lemma HeaderNameAt(s: string)
    requires ParseHeader(s).Some?
    ensures var j, h := SkipWs(s, SkipWs(s, 0) + 1), ParseHeader(s).value;
      j + 6 <= h.nameAt &&
      (forall k :: j + 6 <= k < h.nameAt ==> IsSpace(s[k]) || s[k] == '"') &&
      (forall k, l :: j + 6 <= k < l < h.nameAt && s[k] == '"' ==> s[l] != '"')
  {
  }

  lemma HeaderName(s: string)
    requires ParseHeader(s).Some?
    ensures var h := ParseHeader(s).value;
      h.name != [] && h.nameAt + |h.name| <= h.restAt <= |s| &&
      s[h.nameAt..h.nameAt + |h.name|] == h.name &&
      (forall k :: 0 <= k < |h.name| ==> IsPrintable(h.name[k])) &&
      (h.nameAt + |h.name| == |s| || !IsPrintable(s[h.nameAt + |h.name|]))
  {
  }

  lemma HeaderRest(s: string)
    requires ParseHeader(s).Some?
    ensures var h := ParseHeader(s).value;
      SkipWs(s, h.nameAt + |h.name|) <= h.restAt &&
      (forall k :: SkipWs(s, h.nameAt + |h.name|) <= k < h.restAt ==> s[k] != '\n') &&
      (h.restAt == |s| || s[h.restAt] == '\n')
  {
  }

  // ================================================================ pad entries (71-76)

  /** `pad` at `p`: `(`, the keyword `pad`, then a number or a run of `"`. The result is where
      that id starts. */
  function PadIdAt(s: string, p: nat): (r: Option<nat>)
    ensures r.Some? ==> p < r.value < |s| && s[p] == '(' && (IsDigit(s[r.value]) || s[r.value] == '"')
  {
    if p >= |s| || s[p] != '(' then None
    else
      var j := SkipWs(s, p + 1);
      if !KeywordAt(s, j, "PAD") then None
      else
        var k := SkipWs(s, j + 3);
        if k < |s| && (IsDigit(s[k]) || s[k] == '"') then Some(k) else None
  }

  predicate IsPadAt(s: string, p: nat) { PadIdAt(s, p).Some? }

  /** A pad entry whose id is a number: `Word(nums)` yields a token, `Word('""')` is suppressed. */
  predicate IsCountedPadAt(s: string, p: nat) { IsPadAt(s, p) && IsDigit(s[PadIdAt(s, p).value]) }

  /** Where the pad entry at `p` ends: `restOfLine` takes the rest of the line of its id. */
  function PadEnd(s: string, p: nat): (e: nat)
    requires IsPadAt(s, p)
    ensures p < e <= |s|
  {
    LineEnd(s, PadIdAt(s, p).value)
  }

  /** The entry after the pad entry at `p`, found by skipping whitespace. */
  function NextEntry(s: string, p: nat): (n: nat)
    requires IsPadAt(s, p)
    ensures p < n <= |s|
  {
    SkipWs(s, PadEnd(s, p))
  }

  /** `SkipTo(pad)`: the first position at or after `i` where a pad entry starts. */
  function FirstPad(s: string, i: nat): (r: Option<nat>)
    requires i <= |s|
    ensures r.Some? ==> i <= r.value < |s| && IsPadAt(s, r.value)
    ensures r.Some? ==> forall q :: i <= q < r.value ==> !IsPadAt(s, q)
    ensures r.None? ==> forall q :: i <= q <= |s| ==> !IsPadAt(s, q)
    decreases |s| - i
  {
    if i == |s| then None
    else if IsPadAt(s, i) then Some(i)
    else FirstPad(s, i + 1)
  }

  /** `OneOrMore(pad)`: the pad entries that follow one another from `p` on, separated only by
      whitespace; the run ends at the first place that is not a pad entry. */
  function PadRun(s: string, p: nat): (r: seq<nat>)
    requires IsPadAt(s, p)
    ensures r != [] && r[0] == p
    ensures forall k :: 0 <= k < |r| ==> IsPadAt(s, r[k])
    decreases |s| - p
  {
    var n := NextEntry(s, p);
    [p] + (if IsPadAt(s, n) then PadRun(s, n) else [])
  }

  /** Each position of `r` is the entry that follows the one before it. */
  ghost predicate Chained(s: string, r: seq<nat>)
  {
    (forall k :: 0 <= k < |r| ==> IsPadAt(s, r[k])) &&
    forall j, k :: 0 <= j && k == j + 1 && k < |r| ==> r[k] == NextEntry(s, r[j])
  }

  lemma ChainCons(s: string, p: nat, t: seq<nat>)
    requires IsPadAt(s, p) && Chained(s, t)
    requires t != [] ==> t[0] == NextEntry(s, p)
    ensures Chained(s, [p] + t)
  {
    var r := [p] + t;
    forall j, k | 0 <= j && k == j + 1 && k < |r| ensures r[k] == NextEntry(s, r[j]) {
      assert r[k] == t[j];
      if j > 0 {
        assert r[j] == t[j - 1];
      }
    }
  }

  /** The run is contiguous: each entry is the one right after the previous entry. */
  lemma {:induction false} PadRunContiguous(s: string, p: nat)
    requires IsPadAt(s, p)
    ensures Chained(s, PadRun(s, p))
    decreases |s| - p
  {
    var n := NextEntry(s, p);
    if IsPadAt(s, n) {
      PadRunContiguous(s, n);
      ChainCons(s, p, PadRun(s, n));
    } else {
      ChainCons(s, p, []);
      assert PadRun(s, p) == [p] + [];
    }
  }

  /** The run is maximal: what follows its last entry is not a pad entry. */
  lemma {:induction false} PadRunMaximal(s: string, p: nat)
    requires IsPadAt(s, p)
    ensures var r := PadRun(s, p);
      !IsPadAt(s, NextEntry(s, r[|r| - 1]))
    decreases |s| - p
  {
    var r := PadRun(s, p);
    var n := NextEntry(s, p);
    if IsPadAt(s, n) {
      var t := PadRun(s, n);
      PadRunMaximal(s, n);
      assert r == [p] + t;
      assert r[|r| - 1] == t[|t| - 1];
    } else {
      assert r == [p];
    }
  }

  /** `len(module_toks.pads)` for the run from `p`: the number of its entries with a numeric id. */
  function CountRun(s: string, p: nat): (n: nat)
    requires IsPadAt(s, p)
    decreases |s| - p
  {
    var here := if IsCountedPadAt(s, p) then 1 else 0;
    var next := NextEntry(s, p);
    here + if IsPadAt(s, next) then CountRun(s, next) else 0
  }

  /** `_parse_kicad_mod`: the name and the pad count, or `None` for the `ParseException` of a
      file that does not open with a module header. */
  function ParseKicadMod(s: string): (r: Option<(string, nat)>)
    ensures r.Some? <==> ParseHeader(s).Some?
    ensures r.Some? ==> r.value.0 == ParseHeader(s).value.name
    ensures r.Some? && FirstPad(s, ParseHeader(s).value.restAt).None? ==> r.value.1 == 0
    ensures r.Some? && FirstPad(s, ParseHeader(s).value.restAt).Some? ==>
      var run := PadRun(s, FirstPad(s, ParseHeader(s).value.restAt).value);
      r.value.1 == |CountedIn(s, run)| <= |run|
  {
    match ParseHeader(s)
    case None => None
    case Some(h) =>
      match FirstPad(s, h.restAt)
      case None => Some((h.name, 0))
      case Some(p) =>
        CountRunCountsNumericIds(s, p);
        Some((h.name, CountRun(s, p)))
  }

  // ================================================================ properties

  /** The entries of a run with a numeric id. */
  function CountedIn(s: string, run: seq<nat>): seq<nat>
  {
    Seqs.Filter(run, q => IsCountedPadAt(s, q))
  }

  /** The count is the number of entries with a numeric id in the run: pads with a quoted id are
      matched, and keep the run going, but do not count. */
  lemma {:induction false} CountRunCountsNumericIds(s: string, p: nat)
    requires IsPadAt(s, p)
    ensures CountRun(s, p) == |CountedIn(s, PadRun(s, p))|
    ensures CountRun(s, p) <= |PadRun(s, p)|
    decreases |s| - p
  {
    var n := NextEntry(s, p);
    var run := PadRun(s, p);
    var tail := if IsPadAt(s, n) then PadRun(s, n) else [];
    assert run == [p] + tail;
    assert run[1..] == tail;
    if IsPadAt(s, n) {
      CountRunCountsNumericIds(s, n);
    }
  }

  /** A module without a pad entry after its header line still parses, with no pads. */
  lemma NoPadMeansZero(s: string)
    requires ParseHeader(s).Some?
    requires forall q :: ParseHeader(s).value.restAt <= q <= |s| ==> !IsPadAt(s, q)
    ensures ParseKicadMod(s) == Some((ParseHeader(s).value.name, 0))
  {
  }

  /** A file parses only if it opens, after whitespace, with `(` and the keyword `module`
      (the `ParseException` otherwise). */
  lemma ParsesOnlyAfterModuleKeyword(s: string)
    requires ParseKicadMod(s).Some?
    ensures var i := SkipWs(s, 0);
            i < |s| && s[i] == '(' && KeywordAt(s, SkipWs(s, i + 1), "MODULE")
  {
    assert ParseHeader(s).Some?;
  }

  lemma {:induction false} PrintableEndOfRun(s: string, i: nat, j: nat)
    requires i <= j <= |s|
    requires forall k :: i <= k < j ==> IsPrintable(s[k])
    requires j == |s| || !IsPrintable(s[j])
    ensures PrintableEnd(s, i) == j
    decreases j - i
  {
    if i < j { PrintableEndOfRun(s, i + 1, j); }
  }

  /** A closing quote never ends the name: `"` is printable, so `Word(printables)` runs over it
      and the name of `(module "R1" ...` is `R1"`. */
  lemma NameRunsOverQuotes(s: string)
    requires ParseHeader(s).Some?
    ensures var h := ParseHeader(s).value;
      h.nameAt + |h.name| == |s| || s[h.nameAt + |h.name|] != '"'
  {
    HeaderShape(s);
  }

  // ---------------------------------------------------------------- a worked example

  /** The scanning steps over `(module "ab" x`. */
  lemma QuotedNameKeyword()
    ensures KeywordAt("(module \"ab\" x", 1, "MODULE")
  {
    assert ("(module \"ab\" x")[1..7] == "module";
  }

  lemma QuotedNameScan()
    ensures SkipWs("(module \"ab\" x", 0) == 0 && SkipWs("(module \"ab\" x", 1) == 1
    ensures SkipWs("(module \"ab\" x", 7) == 8 && SkipWs("(module \"ab\" x", 9) == 9 && PrintableEnd("(module \"ab\" x", 9) == 12
    ensures SkipWs("(module \"ab\" x", 12) == 13 && LineEnd("(module \"ab\" x", 13) == 14
  {
  }

  /** A module whose name ends its line, with a pad entry on the next line. */
  const NameEndsLine := "(module R1\n(pad 1 x)\n"

  /** The scanning steps over the header of `NameEndsLine`, up to the end of its name. */
  lemma NameEndsLineName()
    ensures SkipWs(NameEndsLine, 0) == 0 && SkipWs(NameEndsLine, 1) == 1
    ensures SkipWs(NameEndsLine, 7) == 8
  {
  }

  lemma NameEndsLineKeyword()
    ensures KeywordAt("(module R1\n(pad 1 x)\n", 1, "MODULE")
  {
    assert ("(module R1\n(pad 1 x)\n")[1..7] == "module";
  }

  /** The header of `NameEndsLine` opens a module, and its name starts at 8. */
  lemma NameEndsLineNameAt()
    ensures OpensModule(NameEndsLine) && NameAt(NameEndsLine) == 8
  {
    NameEndsLineName();
    NameEndsLineKeyword();
    assert NameEndsLine[8] == 'R';
  }

  lemma NameEndsLineNameEnd()
    ensures PrintableEnd(NameEndsLine, 8) == 10 && NameEndsLine[8..10] == "R1"
  {
  }

  /** The looked-for closing quote is searched for past the newline, on the pad's line, and
      `restOfLine` runs from there to the end of that line. */
  lemma NameEndsLineRest()
    ensures SkipWs(NameEndsLine, 10) == 11 && NameEndsLine[11] != '"'
    ensures LineEnd(NameEndsLine, 11) == 20
  {
  }

  /** When the name ends its line, the missing closing quote is looked for on the next line, and
      `restOfLine` then consumes that whole line: the pad on it is not counted. */
  lemma NameEndsLineExample()
    ensures ParseKicadMod(NameEndsLine) == Some(("R1", 0))
  {
    NameEndsLineHeader();
    assert FirstPad(NameEndsLine, 20) == None;
  }

  /** The header of `NameEndsLine` is the name `R1`, and its `restOfLine` stops only at the
      newline that ends the pad's line. */
  lemma NameEndsLineHeader()
    ensures ParseHeader(NameEndsLine) == Some(Header("R1", 8, 20))
  {
    NameEndsLineNameAt();
    NameEndsLineNameEnd();
    NameEndsLineRest();
    HeaderFrom(NameEndsLine, 10, 11);
  }

  /** `ParseHeader` in terms of where the name ends and where the whitespace after it ends. */
  lemma HeaderFrom(s: string, e: nat, q: nat)
    requires OpensModule(s) && NameAt(s) < e == PrintableEnd(s, NameAt(s)) && q == SkipWs(s, e)
    ensures ParseHeader(s) ==
      Some(Header(s[NameAt(s)..e], NameAt(s), LineEnd(s, if q < |s| && s[q] == '"' then q + 1 else q)))
  {
  }

  /** The header `(module "ab" x` names the module `ab"`, and no pad follows it. */
  lemma QuotedNameExample()
    ensures ParseHeader("(module \"ab\" x") == Some(Header("ab\"", 9, 14))
    ensures ParseKicadMod("(module \"ab\" x") == Some(("ab\"", 0))
  {
    QuotedNameKeyword();
    QuotedNameScan();
    assert ("(module \"ab\" x")[9..12] == "ab\"";
    assert FirstPad("(module \"ab\" x", 14) == None;
  }
}
