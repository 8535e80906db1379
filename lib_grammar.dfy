/** The KiCad symbol-library grammar of `_parse_kicad_lib` (indexes/index_parts.py:41-110), as a
    recursive-descent parser over the lines of the normalised text. */
module LibGrammar {
  import opened Wrappers
  import opened Text
  import Normalize

  // ================================================================ lines and words

  /** One line of the normalised text as the grammar sees it. `eol` holds when the line ends with
      the sentinel '|' directly followed by a newline, which is the grammar's `terminator` "|\n";
      `words` are the blank-separated words of the line with that final '|' left out. */
  datatype TokLine = TokLine(words: seq<string>, eol: bool)

  function LexLine(l: string, beforeNewline: bool): TokLine
  {
    if beforeNewline && |l| > 0 && l[|l| - 1] == '|' then TokLine(Words(l[..|l| - 1]), true)
    else TokLine(Words(l), false)
  }

  /** A line holding only whitespace: pyparsing skips it between any two tokens. */
  predicate IsVoid(t: TokLine) { t.words == [] && !t.eol }

  /** The lines of the normalised text, void ones left out. */
  function Lex(ls: seq<string>): (r: seq<TokLine>)
    ensures forall k :: 0 <= k < |r| ==> !IsVoid(r[k])
  {
    if ls == [] then []
    else
      var t := LexLine(ls[0], |ls| > 1);
      (if IsVoid(t) then [] else [t]) + Lex(ls[1..])
  }

  /** A caseless keyword, given in upper case, spelled by a whole word. */
  predicate IsKeyword(w: string, keyword: string) { Upper(w) == keyword }

  // ================================================================ strings (lines 43-47)

  /** `qstring`: a word wrapped in two equal quote characters with no such quote inside. */
  predicate IsQuoted(w: string)
  {
    |w| >= 2 && (w[0] == '"' || w[0] == '\'') && w[|w| - 1] == w[0] && w[0] !in w[1..|w| - 1]
  }

  /** `anystring`: a quoted string, or printable characters other than the terminator '|'. */
  predicate IsField(w: string)
  {
    IsQuoted(w) || (w != [] && forall i :: 0 <= i < |w| ==> IsPrintable(w[i]) && w[i] != '|')
  }

  /** The value recorded for a field: `removeQuotes` strips the quotes of a quoted string. */
  function FieldValue(w: string): string
  {
    if IsQuoted(w) then w[1..|w| - 1] else w
  }

  /** A double- or single-quoted string is recorded without its quotes. */
  lemma FieldValueQuoted(q: char, s: string)
    requires q == '"' || q == '\''
    requires q !in s
    ensures IsField([q] + s + [q]) && FieldValue([q] + s + [q]) == s
  {
    var w := [q] + s + [q];
    assert w[1..|w| - 1] == s;
  }

  /** A word without quotes or '|' is recorded as it stands. */
  lemma FieldValuePlain(w: string)
    requires w != [] && forall i :: 0 <= i < |w| ==> IsPrintable(w[i]) && w[i] != '|'
    requires w[0] != '"' && w[0] != '\''
    ensures IsField(w) && FieldValue(w) == w
  {
  }

  // ================================================================ data model

  /** Field positions of a pin line, counted after the `X` tag (lines 73-81). */
  const NameField: nat := 0
  const NumField: nat := 1
  const OrientationField: nat := 5
  const UnitField: nat := 8
  const TypeField: nat := 10
  const StyleField: nat := 11

  datatype Pin = Pin(name: string, num: string, orientation: string, unit: string,
                     electricalType: string, style: Option<string>)

  /** One `DEF ... ENDDEF` block: the part's name and reference, the pins of its DRAW section and
      the aliases that its results name `alias_p` holds. */
  datatype PartDef = PartDef(name: string, refId: string, pins: seq<Pin>, aliases: seq<string>)

  datatype Library = Library(version: string, parts: seq<PartDef>)

  // ================================================================ draw section (lines 68-86)

  predicate IsDrawStart(t: TokLine) { |t.words| > 0 && IsKeyword(t.words[0], "DRAW") }

  predicate IsEndDraw(t: TokLine) { t.eol && |t.words| == 1 && IsKeyword(t.words[0], "ENDDRAW") }

  /** `draw_pin`: the tag `X` or `x`, eleven or twelve fields, then the terminator. */
  predicate IsPinLine(t: TokLine)
  {
    && t.eol
    && |t.words| > 0 && (t.words[0] == "X" || t.words[0] == "x")
    && (|t.words| == StyleField + 1 || |t.words| == StyleField + 2)
    && forall k :: 1 <= k < |t.words| ==> IsField(t.words[k])
  }

  /** `draw_other`: a one-letter shape tag followed by whitespace; the whole line is discarded. */
  predicate IsOtherDrawLine(t: TokLine)
  {
    |t.words| > 0 && |t.words[0]| == 1 && t.words[0][0] in "AaCcPpSsTt"
  }

  function PinOf(t: TokLine): Pin
    requires IsPinLine(t)
  {
    var f := t.words[1..];
    Pin(FieldValue(f[NameField]), FieldValue(f[NumField]), FieldValue(f[OrientationField]),
        FieldValue(f[UnitField]), FieldValue(f[TypeField]),
        if |f| > StyleField then Some(FieldValue(f[StyleField])) else None)
  }

  /** The lines of a DRAW section after its first line: drawing elements up to `ENDDRAW`. The pins
      found so far are `pins`; the result holds all of them and the lines after `ENDDRAW`. */
  function ParseDraw(ls: seq<TokLine>, pins: seq<Pin>): (r: Option<(seq<Pin>, seq<TokLine>)>)
    ensures r.Some? ==> |r.value.1| < |ls|
  {
    if ls == [] then None
    else if IsEndDraw(ls[0]) then Some((pins, ls[1..]))
    else if IsPinLine(ls[0]) then ParseDraw(ls[1..], pins + [PinOf(ls[0])])
    else if IsOtherDrawLine(ls[0]) then ParseDraw(ls[1..], pins)
    else None
  }

  // ================================================================ footprint list (lines 63-66)

  predicate IsFpStart(t: TokLine) { t.eol && |t.words| == 1 && IsKeyword(t.words[0], "$FPLIST") }

  /** `foot_end`, found by `SkipTo`: `$ENDFPLIST` directly before the terminator. */
  predicate IsFpEnd(t: TokLine)
  {
    t.eol && |t.words| > 0 && IsKeyword(t.words[|t.words| - 1], "$ENDFPLIST")
  }

  /** `SkipTo(foot_end)`: the first line that ends the footprint list. */
  function FindFpEnd(ls: seq<TokLine>): (r: Option<nat>)
    ensures r.Some? ==>
      r.value < |ls| && IsFpEnd(ls[r.value]) && forall k :: 0 <= k < r.value ==> !IsFpEnd(ls[k])
    ensures r.None? ==> forall k :: 0 <= k < |ls| ==> !IsFpEnd(ls[k])
  {
    if ls == [] then None
    else if IsFpEnd(ls[0]) then Some(0)
    else match FindFpEnd(ls[1..])
      case None => None
      case Some(k) => Some(k + 1)
  }

  // ================================================================ part block (lines 51-61, 89-96)

  /** `field`: `F` and a number, then the rest of the line, which is ignored. */
  predicate IsFieldLine(t: TokLine)
  {
    |t.words| > 0 && t.words[0] != [] && (t.words[0][0] == 'F' || t.words[0][0] == 'f') &&
    ( (|t.words[0]| > 1 && IsDigit(t.words[0][1])) ||
      (|t.words[0]| == 1 && |t.words| > 1 && t.words[1] != [] && IsDigit(t.words[1][0])))
  }

  predicate IsAliasLine(t: TokLine) { |t.words| > 0 && IsKeyword(t.words[0], "ALIAS") }

  /** Length of the run of alphanumeric characters that starts `w`. */
  function AlnumPrefixLength(w: string): (n: nat)
    ensures n <= |w|
    ensures forall i :: 0 <= i < n ==> IsAlnum(w[i])
    ensures n == |w| || !IsAlnum(w[n])
  {
    if w == [] || !IsAlnum(w[0]) then 0 else 1 + AlnumPrefixLength(w[1..])
  }

  /** `ZeroOrMore(Word(alphanums))` over the words after `ALIAS`: each match is the alphanumeric
      run at the current position; matching stops at the first position where no such run
      starts, which is the next word when a word was taken whole, or the rest of a word that was
      cut short. */
  function AliasRun(ws: seq<string>): (r: seq<string>)
    ensures |r| <= |ws|
    ensures forall k :: 0 <= k < |r| ==> r[k] != [] && r[k] == ws[k][..AlnumPrefixLength(ws[k])]
    ensures forall k :: 0 <= k < |r| - 1 ==> r[k] == ws[k]
    ensures |r| < |ws| ==> (r != [] && r[|r| - 1] != ws[|r| - 1]) || AlnumPrefixLength(ws[|r|]) == 0
  {
    if ws == [] then []
    else
      var p := ws[0][..AlnumPrefixLength(ws[0])];
      if p == [] then []
      else if p == ws[0] then [p] + AliasRun(ws[1..])
      else [p]
  }

  /** What the `Each` of line 96 has gathered so far inside one block. `aliases` is the value of
      the results name `alias_p`: the last ALIAS line that matched at least one alias overwrites
      it, an ALIAS line that matched none leaves it alone. */
  datatype BodyState = BodyState(aliases: seq<string>, sawFootprints: bool, pins: Option<seq<Pin>>)

  const EmptyBody := BodyState([], false, None)

  predicate IsEndDef(t: TokLine) { t.eol && |t.words| == 1 && IsKeyword(t.words[0], "ENDDEF") }

  /** The lines of a block after its `DEF` line: field lines, ALIAS lines, at most one
      `$FPLIST` list and exactly one DRAW section, in any order, then `ENDDEF`. The result is the
      gathered state and the lines after `ENDDEF`. */
  function ParseBody(ls: seq<TokLine>, st: BodyState): (r: Option<(BodyState, seq<TokLine>)>)
    ensures r.Some? ==> r.value.0.pins.Some?
    ensures r.Some? ==> |r.value.1| < |ls|
    decreases |ls|
  {
    if ls == [] then None
    else
      var t := ls[0];
      if IsEndDef(t) then (if st.pins.Some? then Some((st, ls[1..])) else None)
      else if IsFieldLine(t) then ParseBody(ls[1..], st)
      else if IsAliasLine(t) then
        var captured := AliasRun(t.words[1..]);
        ParseBody(ls[1..], if captured == [] then st else st.(aliases := captured))
      else if IsFpStart(t) then
        if st.sawFootprints then None
        else match FindFpEnd(ls[1..])
          case None => None
          case Some(k) => ParseBody(ls[k + 2..], st.(sawFootprints := true))
      else if IsDrawStart(t) then
        if st.pins.Some? then None
        else match ParseDraw(ls[1..], [])
          case None => None
          case Some((pins, rest)) => ParseBody(rest, st.(pins := Some(pins)))
      else None
  }

  /** `def_start`: `DEF`, the name and the reference, then the rest of the line. */
  predicate IsDefStart(t: TokLine)
  {
    |t.words| >= 3 && IsKeyword(t.words[0], "DEF") && IsField(t.words[1]) && IsField(t.words[2])
  }

  /** One `defn`: a part block and the lines after it. */
  function ParseDef(ls: seq<TokLine>): (r: Option<(PartDef, seq<TokLine>)>)
    ensures r.Some? ==> |r.value.1| < |ls|
  {
    if ls == [] || !IsDefStart(ls[0]) then None
    else match ParseBody(ls[1..], EmptyBody)
      case None => None
      case Some((st, rest)) =>
        Some((PartDef(FieldValue(ls[0].words[1]), FieldValue(ls[0].words[2]),
                      st.pins.value, st.aliases), rest))
  }

  /** `defs + end_of_file`: every remaining line must belong to a block. `ZeroOrMore(defn)` stops
      at the first block that does not parse, and `end_of_file` then fails on it. */
  function ParseDefs(ls: seq<TokLine>): (r: Option<seq<PartDef>>)
    decreases |ls|
  {
    if ls == [] then Some([])
    else match ParseDef(ls)
      case None => None
      case Some((p, rest)) =>
        match ParseDefs(rest)
          case None => None
          case Some(ps) => Some([p] + ps)
  }

  // ================================================================ header (lines 101-110)

  /** Number of leading digits of `w`. */
  function DigitsLength(w: string): (n: nat)
    ensures n <= |w| && forall i :: 0 <= i < n ==> IsDigit(w[i])
    ensures n == |w| || !IsDigit(w[n])
  {
    if w == [] || !IsDigit(w[0]) then 0 else 1 + DigitsLength(w[1..])
  }

  /** `fnum`: the longest prefix of `w` made of digits, then optionally '.' and more digits. */
  function FnumPrefix(w: string): (f: string)
    ensures f <= w && DigitsLength(w) <= |f|
    ensures forall i :: 0 <= i < |f| && i != DigitsLength(w) ==> IsDigit(f[i])
    ensures DigitsLength(w) < |f| ==> f[DigitsLength(w)] == '.'
    ensures |f| < |w| ==> !IsDigit(w[|f|]) && (w[|f|] == '.' ==> DigitsLength(w) < |f|)
  {
    var n := DigitsLength(w);
    if n < |w| && w[n] == '.' then
      var m := DigitsLength(w[n + 1..]);
      assert forall i :: n + 1 <= i < n + 1 + m ==> w[i] == w[n + 1..][i - (n + 1)];
      w[..n + 1 + m]
    else w[..n]
  }

  /** Whether word `k` of `ws` starts `version`: the caseless keyword, then a word that starts
      with a digit. */
  predicate VersionAt(ws: seq<string>, k: nat)
  {
    k + 1 < |ws| && IsKeyword(ws[k], "VERSION") && ws[k + 1] != [] && IsDigit(ws[k + 1][0])
  }

  /** The first position at or after `k` where `version` starts. */
  function FirstVersionAt(ws: seq<string>, k: nat): (r: Option<nat>)
    ensures r.None? ==> forall j :: k <= j < |ws| ==> !VersionAt(ws, j)
    ensures r.Some? ==> k <= r.value && VersionAt(ws, r.value)
    ensures r.Some? ==> forall j :: k <= j < r.value ==> !VersionAt(ws, j)
    decreases |ws| - k
  {
    if k + 1 >= |ws| then None
    else if VersionAt(ws, k) then Some(k)
    else FirstVersionAt(ws, k + 1)
  }

  /** `version` within the words of one line: the number after the first keyword that has one. */
  function VersionIn(ws: seq<string>): (r: Option<string>)
    ensures r.None? ==> forall k :: 0 <= k < |ws| ==> !VersionAt(ws, k)
    ensures r.Some? ==> exists k: nat ::
      VersionAt(ws, k) && (forall j :: 0 <= j < k ==> !VersionAt(ws, j)) && r.value == FnumPrefix(ws[k + 1])
    ensures r.Some? ==> r.value != [] && IsDigit(r.value[0])
  {
    match FirstVersionAt(ws, 0)
    case None => None
    case Some(k) => Some(FnumPrefix(ws[k + 1]))
  }

  /** Whether `version` starts somewhere in `ws`. */
  predicate HasVersion(ws: seq<string>)
  {
    exists k: nat :: k < |ws| && VersionAt(ws, k)
  }

  /** The words the version scan sees on line `i`: the header line without its keyword. */
  function ScanWords(ls: seq<TokLine>, first: seq<string>, i: nat): seq<string>
    requires i < |ls|
  {
    if i == 0 then first else ls[i].words
  }

  /** `SkipTo(version)` from line `i` on: the first line that holds `version`. */
  function VersionLine(ls: seq<TokLine>, first: seq<string>, i: nat): (r: Option<nat>)
    requires i <= |ls|
    ensures r.None? ==> forall j :: i <= j < |ls| ==> !HasVersion(ScanWords(ls, first, j))
    ensures r.Some? ==> i <= r.value < |ls| && HasVersion(ScanWords(ls, first, r.value))
    ensures r.Some? ==> forall j :: i <= j < r.value ==> !HasVersion(ScanWords(ls, first, j))
    decreases |ls| - i
  {
    if i == |ls| then None
    else if HasVersion(ScanWords(ls, first, i)) then Some(i)
    else VersionLine(ls, first, i + 1)
  }

  /** `lib`: the header keyword first, then `SkipTo(version) + version + restOfLine`, which
      consumes the lines up to and including the first one holding the version, then the part
      blocks. */
  function ParseLibrary(ls: seq<TokLine>): (r: Option<Library>)
    ensures r.Some? ==>
      ls != [] && ls[0].words != [] && IsKeyword(ls[0].words[0], "EESCHEMA-LIBRARY")
    ensures r.Some? ==> exists k: nat ::
      VersionLine(ls, ls[0].words[1..], 0) == Some(k) && k < |ls|
      && VersionIn(ScanWords(ls, ls[0].words[1..], k)) == Some(r.value.version)
      && ParseDefs(ls[k + 1..]) == Some(r.value.parts)
    ensures r.Some? ==> r.value.version != [] && IsDigit(r.value.version[0])
  {
    if ls == [] || ls[0].words == [] || !IsKeyword(ls[0].words[0], "EESCHEMA-LIBRARY") then None
    else match VersionLine(ls, ls[0].words[1..], 0)
      case None => None
      case Some(k) =>
        match ParseDefs(ls[k + 1..])
          case None => None
          case Some(parts) =>
            var v := VersionIn(ScanWords(ls, ls[0].words[1..], k));
            Some(Library(v.value, parts))
  }

  /** `_parse_kicad_lib`: normalise the text, then parse it. */
  function ParseKicadLib(text: string): Option<Library>
  {
    ParseLibrary(Lex(Normalize.SplitLines(Normalize.NormalizeText(text))))
  }
}
