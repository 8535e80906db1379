/** What the symbol-library grammar guarantees: a whole file parses or fails as one, the
    sections of a block may come in any order, a DRAW section yields one pin per pin line. */
module LibProperties {
  import opened Wrappers
  import opened Text
  import opened LibGrammar
  import Seqs
  import Normalize

  // ================================================================ appending lines after a parse

  lemma {:induction false} FindFpEndAppend(a: seq<TokLine>, b: seq<TokLine>)
    requires FindFpEnd(a).Some?
    ensures FindFpEnd(a + b) == FindFpEnd(a)
  {
    if !IsFpEnd(a[0]) {
      assert (a + b)[1..] == a[1..] + b;
      FindFpEndAppend(a[1..], b);
    }
  }

  lemma {:induction false} ParseDrawAppend(a: seq<TokLine>, b: seq<TokLine>, pins: seq<Pin>)
    requires ParseDraw(a, pins).Some?
    ensures ParseDraw(a + b, pins) == Some((ParseDraw(a, pins).value.0, ParseDraw(a, pins).value.1 + b))
  {
    assert (a + b)[0] == a[0];
    assert (a + b)[1..] == a[1..] + b;
    if !IsEndDraw(a[0]) {
      if IsPinLine(a[0]) {
        ParseDrawAppend(a[1..], b, pins + [PinOf(a[0])]);
      } else {
        ParseDrawAppend(a[1..], b, pins);
      }
    }
  }

  lemma {:induction false} ParseBodyAppend(a: seq<TokLine>, b: seq<TokLine>, st: BodyState)
    requires ParseBody(a, st).Some?
    ensures ParseBody(a + b, st) == Some((ParseBody(a, st).value.0, ParseBody(a, st).value.1 + b))
    decreases |a|
  {
    var t := a[0];
    assert (a + b)[0] == t;
    assert (a + b)[1..] == a[1..] + b;
    if IsEndDef(t) {
    } else if IsFieldLine(t) {
      ParseBodyAppend(a[1..], b, st);
    } else if IsAliasLine(t) {
      var captured := AliasRun(t.words[1..]);
      ParseBodyAppend(a[1..], b, if captured == [] then st else st.(aliases := captured));
    } else if IsFpStart(t) {
      var k := FindFpEnd(a[1..]).value;
      FindFpEndAppend(a[1..], b);
      assert (a + b)[k + 2..] == a[k + 2..] + b;
      ParseBodyAppend(a[k + 2..], b, st.(sawFootprints := true));
    } else {
      var d := ParseDraw(a[1..], []).value;
      ParseDrawAppend(a[1..], b, []);
      ParseBodyAppend(d.1, b, st.(pins := Some(d.0)));
    }
  }

  lemma ParseDefAppend(a: seq<TokLine>, b: seq<TokLine>)
    requires ParseDef(a).Some?
    ensures ParseDef(a + b) == Some((ParseDef(a).value.0, ParseDef(a).value.1 + b))
  {
    assert (a + b)[0] == a[0];
    assert (a + b)[1..] == a[1..] + b;
    ParseBodyAppend(a[1..], b, EmptyBody);
  }

  lemma ConsAssoc<T>(x: T, s: seq<T>, t: seq<T>)
    ensures [x] + (s + t) == ([x] + s) + t
  {
  }

  lemma ConsAssoc3<T>(x: T, s: seq<T>, t: seq<T>, u: seq<T>)
    ensures [x] + s + t + u == [x] + (s + t + u)
  {
  }

  lemma HeadTail<T>(x: T, s: seq<T>)
    ensures ([x] + s)[0] == x && ([x] + s)[1..] == s
  {
  }

  lemma DefsCons(ls: seq<TokLine>, p: PartDef, rest: seq<TokLine>)
    requires ls != [] && ParseDef(ls) == Some((p, rest))
    ensures ParseDefs(ls) == if ParseDefs(rest).Some? then Some([p] + ParseDefs(rest).value) else None
  {
  }

  /** Blocks that parse stay parsed whatever follows them, and the file as a whole then parses
      exactly when what follows does. */
  lemma {:induction false} ParseDefsAppend(a: seq<TokLine>, b: seq<TokLine>)
    requires ParseDefs(a).Some?
    ensures ParseDefs(b).None? ==> ParseDefs(a + b).None?
    ensures ParseDefs(b).Some? ==> ParseDefs(a + b) == Some(ParseDefs(a).value + ParseDefs(b).value)
    decreases |a|
  {
    if a == [] {
      assert a + b == b;
      assert ParseDefs(a).value == [];
      if ParseDefs(b).Some? { assert [] + ParseDefs(b).value == ParseDefs(b).value; }
    } else {
      var (p, rest) := ParseDef(a).value;
      ParseDefAppend(a, b);
      DefsCons(a, p, rest);
      DefsCons(a + b, p, rest + b);
      ParseDefsAppend(rest, b);
      if ParseDefs(b).Some? {
        var pr, pb := ParseDefs(rest).value, ParseDefs(b).value;
        assert ParseDefs(rest + b) == Some(pr + pb);
        ConsAssoc(p, pr, pb);
      } else {
        assert ParseDefs(rest + b).None?;
      }
    }
  }

  /** One block that does not parse fails the entire file, whatever blocks came before it: the
      blocks are not skipped one by one (indexes/index_parts.py:99,109-110). */
  lemma MalformedBlockFailsFile(good: seq<TokLine>, bad: seq<TokLine>)
    requires ParseDefs(good).Some?
    requires bad != [] && ParseDef(bad).None?
    ensures ParseDefs(good + bad).None?
  {
    ParseDefsAppend(good, bad);
  }

  // ================================================================ sections of a block

  predicate IsDrawElement(t: TokLine) { IsPinLine(t) || IsOtherDrawLine(t) }

  /** A DRAW section: `DRAW`, drawing elements, `ENDDRAW`. */
  predicate IsDrawBlock(d: seq<TokLine>)
  {
    |d| >= 2 && IsDrawStart(d[0]) && IsEndDraw(d[|d| - 1]) &&
    forall k :: 0 < k < |d| - 1 ==> IsDrawElement(d[k])
  }

  /** A footprint list: `$FPLIST`, lines that do not end it, the line that ends it. */
  predicate IsFpBlock(f: seq<TokLine>)
  {
    |f| >= 2 && IsFpStart(f[0]) && IsFpEnd(f[|f| - 1]) &&
    forall k :: 0 < k < |f| - 1 ==> !IsFpEnd(f[k])
  }

  /** One of the four sub-sections that the `Each` of line 96 accepts. */
  predicate IsSection(s: seq<TokLine>)
  {
    IsDrawBlock(s) || IsFpBlock(s) || (|s| == 1 && (IsFieldLine(s[0]) || IsAliasLine(s[0])))
  }

  predicate IsAliasSection(s: seq<TokLine>) { |s| == 1 && IsAliasLine(s[0]) }

  /** The pins of the pin lines among `elems`, in order. */
  function PinsOf(elems: seq<TokLine>): (r: seq<Pin>)
    ensures |r| == |Seqs.Filter(elems, IsPinLine)|
  {
    if elems == [] then []
    else (if IsPinLine(elems[0]) then [PinOf(elems[0])] else []) + PinsOf(elems[1..])
  }

  /** What one section does to the gathered state; `None` when the block can no longer parse. */
  function Apply(s: seq<TokLine>, st: BodyState): Option<BodyState>
    requires IsSection(s)
  {
    if IsDrawBlock(s) then
      if st.pins.Some? then None else Some(st.(pins := Some(PinsOf(s[1..|s| - 1]))))
    else if IsFpBlock(s) then
      if st.sawFootprints then None else Some(st.(sawFootprints := true))
    else if IsAliasLine(s[0]) then
      var captured := AliasRun(s[0].words[1..]);
      Some(if captured == [] then st else st.(aliases := captured))
    else Some(st)
  }

  lemma DrawElementNotEnd(t: TokLine)
    requires IsDrawElement(t)
    ensures !IsEndDraw(t)
  {
    assert |t.words[0]| == 1;
    assert |Upper(t.words[0])| == 1;
  }

  /** A DRAW section yields one pin per pin line, in order; shape lines yield nothing. */
  lemma {:induction false} DrawElementsParse(elems: seq<TokLine>, end: TokLine, rest: seq<TokLine>,
                                             pins: seq<Pin>)
    requires forall k :: 0 <= k < |elems| ==> IsDrawElement(elems[k])
    requires IsEndDraw(end)
    ensures ParseDraw(elems + [end] + rest, pins) == Some((pins + PinsOf(elems), rest))
  {
    var ls := elems + [end] + rest;
    if elems == [] {
      assert ls == [end] + rest;
      assert ls[0] == end && ls[1..] == rest;
      assert ParseDraw(ls, pins) == Some((pins, rest));
      assert pins + PinsOf(elems) == pins;
    } else {
      assert ls[0] == elems[0];
      assert ls[1..] == elems[1..] + [end] + rest;
      var t := elems[0];
      assert IsDrawElement(elems[0]);
      DrawElementNotEnd(t);
      assert forall k :: 0 <= k < |elems[1..]| ==> IsDrawElement(elems[1..][k]) by {
        forall k | 0 <= k < |elems[1..]| ensures IsDrawElement(elems[1..][k]) {
          assert elems[1..][k] == elems[k + 1];
        }
      }
      if IsPinLine(t) {
        DrawElementsParse(elems[1..], end, rest, pins + [PinOf(t)]);
        assert PinsOf(elems) == [PinOf(t)] + PinsOf(elems[1..]);
        assert pins + [PinOf(t)] + PinsOf(elems[1..]) == pins + PinsOf(elems);
      } else {
        DrawElementsParse(elems[1..], end, rest, pins);
        assert PinsOf(elems) == PinsOf(elems[1..]);
      }
    }
  }

  lemma FpBlockEnd(f: seq<TokLine>, rest: seq<TokLine>)
    requires IsFpBlock(f)
    ensures FindFpEnd((f + rest)[1..]) == Some(|f| - 2)
  {
    var g := f[1..];
    assert (f + rest)[1..] == g + rest;
    assert g[|g| - 1] == f[|f| - 1];
    assert forall k :: 0 <= k < |g| - 1 ==> g[k] == f[k + 1];
    assert FindFpEnd(g) == Some(|g| - 1);
    FindFpEndAppend(g, rest);
  }

  // The keyword lines that open sections are told apart by their first word.

  lemma KeywordShape(w: string, keyword: string)
    requires IsKeyword(w, keyword) && keyword != []
    ensures |w| == |keyword| && UpperChar(w[0]) == keyword[0]
  {
    assert Upper(w)[0] == UpperChar(w[0]);
  }

  lemma FieldLineIsNot(t: TokLine)
    requires IsFieldLine(t)
    ensures !IsEndDef(t) && !IsAliasLine(t) && !IsFpStart(t) && !IsDrawStart(t)
  {
    var w := t.words[0];
    assert UpperChar(w[0]) == 'F';
    if IsEndDef(t) { KeywordShape(w, "ENDDEF"); }
    if IsAliasLine(t) { KeywordShape(w, "ALIAS"); }
    if IsFpStart(t) { KeywordShape(w, "$FPLIST"); }
    if IsDrawStart(t) { KeywordShape(w, "DRAW"); }
  }

  lemma KeywordLineIsNot(t: TokLine)
    requires IsAliasLine(t) || IsFpStart(t) || IsDrawStart(t)
    ensures !IsEndDef(t) && !IsFieldLine(t)
    ensures IsAliasLine(t) ==> !IsFpStart(t) && !IsDrawStart(t)
    ensures IsFpStart(t) ==> !IsDrawStart(t)
  {
    var w := t.words[0];
    if IsFieldLine(t) { FieldLineIsNot(t); }
    if IsEndDef(t) { KeywordShape(w, "ENDDEF"); }
    if IsAliasLine(t) { KeywordShape(w, "ALIAS"); }
    if IsFpStart(t) { KeywordShape(w, "$FPLIST"); }
    if IsDrawStart(t) { KeywordShape(w, "DRAW"); }
  }

  lemma DrawSectionStep(s: seq<TokLine>, rest: seq<TokLine>, st: BodyState)
    requires IsDrawBlock(s)
    ensures ParseBody(s + rest, st) ==
      if st.pins.Some? then None else ParseBody(rest, st.(pins := Some(PinsOf(s[1..|s| - 1]))))
  {
    var ls := s + rest;
    assert ls[0] == s[0];
    KeywordLineIsNot(s[0]);
    var elems := s[1..|s| - 1];
    assert ls[1..] == elems + [s[|s| - 1]] + rest;
    forall k | 0 <= k < |elems| ensures IsDrawElement(elems[k]) {
      assert elems[k] == s[k + 1];
    }
    DrawElementsParse(elems, s[|s| - 1], rest, []);
    assert [] + PinsOf(elems) == PinsOf(elems);
  }

  lemma FpSectionStep(s: seq<TokLine>, rest: seq<TokLine>, st: BodyState)
    requires IsFpBlock(s)
    ensures ParseBody(s + rest, st) ==
      if st.sawFootprints then None else ParseBody(rest, st.(sawFootprints := true))
  {
    var ls := s + rest;
    assert ls[0] == s[0];
    KeywordLineIsNot(s[0]);
    FpBlockEnd(s, rest);
    assert ls[|s|..] == rest;
  }

  lemma LineSectionStep(t: TokLine, rest: seq<TokLine>, st: BodyState)
    requires IsFieldLine(t) || IsAliasLine(t)
    ensures ParseBody([t] + rest, st) ==
      if IsAliasLine(t) then
        var captured := AliasRun(t.words[1..]);
        ParseBody(rest, if captured == [] then st else st.(aliases := captured))
      else ParseBody(rest, st)
  {
    var ls := [t] + rest;
    assert ls[0] == t && ls[1..] == rest;
    if IsFieldLine(t) { FieldLineIsNot(t); } else { KeywordLineIsNot(t); }
  }

  /** A section at the front of the block's remaining lines acts on the state as `Apply` says and
      parsing goes on with the lines after it. */
  lemma SectionStep(s: seq<TokLine>, rest: seq<TokLine>, st: BodyState)
    requires IsSection(s)
    ensures ParseBody(s + rest, st) ==
      match Apply(s, st)
      case None => None
      case Some(st') => ParseBody(rest, st')
  {
    if IsDrawBlock(s) {
      DrawSectionStep(s, rest, st);
    } else if IsFpBlock(s) {
      FpSectionStep(s, rest, st);
    } else {
      assert s == [s[0]];
      LineSectionStep(s[0], rest, st);
    }
  }

  /** Two sections applied one after the other. */
  function ApplyPair(x: seq<TokLine>, y: seq<TokLine>, st: BodyState): Option<BodyState>
    requires IsSection(x) && IsSection(y)
  {
    match Apply(x, st)
    case None => None
    case Some(st') => Apply(y, st')
  }

  /** The effects of two sections on the gathered state commute, unless both are ALIAS lines. */
  lemma ApplyCommutes(x: seq<TokLine>, y: seq<TokLine>, st: BodyState)
    requires IsSection(x) && IsSection(y)
    requires !(IsAliasSection(x) && IsAliasSection(y))
    ensures ApplyPair(x, y, st) == ApplyPair(y, x, st)
  {
    KindsDisjoint(x);
    KindsDisjoint(y);
  }

  lemma KindsDisjoint(s: seq<TokLine>)
    requires IsSection(s)
    ensures IsDrawBlock(s) ==> !IsFpBlock(s) && !IsAliasSection(s)
    ensures IsFpBlock(s) ==> !IsAliasSection(s)
  {
    if IsDrawBlock(s) { KeywordLineIsNot(s[0]); }
  }

  lemma TwoSections(x: seq<TokLine>, y: seq<TokLine>, rest: seq<TokLine>, st: BodyState)
    requires IsSection(x) && IsSection(y)
    ensures ParseBody(x + y + rest, st) ==
      match ApplyPair(x, y, st)
      case None => None
      case Some(st') => ParseBody(rest, st')
  {
    assert x + y + rest == x + (y + rest);
    SectionStep(x, y + rest, st);
    if Apply(x, st).Some? { SectionStep(y, rest, Apply(x, st).value); }
  }

  /** Two sections side by side may be swapped: the block parses to the same result either way.
      The one exception is two ALIAS lines, where the later one wins. */
  lemma SectionsCommute(x: seq<TokLine>, y: seq<TokLine>, rest: seq<TokLine>, st: BodyState)
    requires IsSection(x) && IsSection(y)
    requires !(IsAliasSection(x) && IsAliasSection(y))
    ensures ParseBody(x + y + rest, st) == ParseBody(y + x + rest, st)
  {
    TwoSections(x, y, rest, st);
    TwoSections(y, x, rest, st);
    ApplyCommutes(x, y, st);
  }

  /** Of two ALIAS lines in a row, the later one decides the aliases as soon as it captures at
      least one alias (the results name `alias_p` is overwritten). */
  lemma LaterAliasLineWins(x: TokLine, y: TokLine, rest: seq<TokLine>, st: BodyState)
    requires IsAliasLine(x) && IsAliasLine(y)
    requires AliasRun(y.words[1..]) != []
    ensures ParseBody([x, y] + rest, st) == ParseBody([y] + rest, st.(aliases := AliasRun(y.words[1..])))
  {
    assert [x, y] + rest == [x] + ([y] + rest);
    SectionStep([x], [y] + rest, st);
    SectionStep([y], rest, Apply([x], st).value);
    assert ([y] + rest)[0] == y && ([y] + rest)[1..] == rest;
  }

  /** Applying a run of sections in order. */
  function ApplyAll(secs: seq<seq<TokLine>>, st: BodyState): Option<BodyState>
    requires forall k :: 0 <= k < |secs| ==> IsSection(secs[k])
  {
    if secs == [] then Some(st)
    else match Apply(secs[0], st)
      case None => None
      case Some(st') => ApplyAll(secs[1..], st')
  }

  /** The lines of the sections, one section after another. */
  function Lines(secs: seq<seq<TokLine>>): seq<TokLine>
  {
    Seqs.Flatten(secs, Seqs.Id)
  }

  lemma {:induction false} BodyOfSections(secs: seq<seq<TokLine>>, end: TokLine, rest: seq<TokLine>,
                                          st: BodyState)
    requires forall k :: 0 <= k < |secs| ==> IsSection(secs[k])
    requires IsEndDef(end)
    ensures ParseBody(Lines(secs) + [end] + rest, st) ==
      match ApplyAll(secs, st)
      case None => None
      case Some(st') => if st'.pins.Some? then Some((st', rest)) else None
  {
    if secs == [] {
      assert Lines(secs) + [end] + rest == [end] + rest;
      assert ([end] + rest)[1..] == rest;
    } else {
      Seqs.FlattenCons(secs, Seqs.Id);
      assert Lines(secs) + [end] + rest == secs[0] + (Lines(secs[1..]) + [end] + rest);
      SectionStep(secs[0], Lines(secs[1..]) + [end] + rest, st);
      if Apply(secs[0], st).Some? {
        BodyOfSections(secs[1..], end, rest, Apply(secs[0], st).value);
      }
    }
  }

  /** A block written as `DEF`, sections, `ENDDEF` parses exactly when its sections can be
      applied in turn and one of them was the DRAW section; the part then carries the block's
      name and reference without quotes, the pins of its DRAW section and its aliases. */
  lemma BlockOfSections(def: TokLine, secs: seq<seq<TokLine>>, end: TokLine, rest: seq<TokLine>)
    requires IsDefStart(def)
    requires forall k :: 0 <= k < |secs| ==> IsSection(secs[k])
    requires IsEndDef(end)
    ensures ParseDef([def] + Lines(secs) + [end] + rest) ==
      match ApplyAll(secs, EmptyBody)
      case None => None
      case Some(st) =>
        if st.pins.None? then None
        else Some((PartDef(FieldValue(def.words[1]), FieldValue(def.words[2]), st.pins.value,
                           st.aliases), rest))
  {
    var body := Lines(secs) + [end] + rest;
    var ls := [def] + Lines(secs) + [end] + rest;
    ConsAssoc3(def, Lines(secs), [end], rest);
    HeadTail(def, body);
    BodyOfSections(secs, end, rest, EmptyBody);
    if ApplyAll(secs, EmptyBody).Some? && ApplyAll(secs, EmptyBody).value.pins.Some? {
      var st := ApplyAll(secs, EmptyBody).value;
      assert ParseBody(body, EmptyBody) == Some((st, rest));
    } else {
      assert ParseBody(body, EmptyBody) == None;
    }
  }

  /** A pin line written out from a pin: the tag, then the fields at their positions. */
  function PinLine(p: Pin, f2: string, f3: string, f4: string, f6: string, f7: string, f9: string)
    : TokLine
  {
    TokLine(["X", p.name, p.num, f2, f3, f4, p.orientation, f6, f7, p.unit, f9, p.electricalType] +
            (if p.style.Some? then [p.style.value] else []), true)
  }

  predicate IsPlainField(w: string)
  {
    w != [] && w[0] != '"' && w[0] != '\'' &&
    forall i :: 0 <= i < |w| ==> IsPrintable(w[i]) && w[i] != '|'
  }

  /** Reading back a pin line recovers the pin: name and number are fields 0 and 1, orientation
      field 5, unit field 8, type field 10 and the optional style field 11. */
  lemma PinLineRoundTrip(p: Pin, f2: string, f3: string, f4: string, f6: string, f7: string,
                         f9: string)
    requires IsPlainField(p.name) && IsPlainField(p.num) && IsPlainField(p.orientation)
    requires IsPlainField(p.unit) && IsPlainField(p.electricalType)
    requires p.style.Some? ==> IsPlainField(p.style.value)
    requires IsPlainField(f2) && IsPlainField(f3) && IsPlainField(f4)
    requires IsPlainField(f6) && IsPlainField(f7) && IsPlainField(f9)
    ensures IsPinLine(PinLine(p, f2, f3, f4, f6, f7, f9))
    ensures PinOf(PinLine(p, f2, f3, f4, f6, f7, f9)) == p
  {
    var t := PinLine(p, f2, f3, f4, f6, f7, f9);
    forall k | 1 <= k < |t.words| ensures IsField(t.words[k]) && FieldValue(t.words[k]) == t.words[k] {
      FieldValuePlain(t.words[k]);
    }
  }

  // ================================================================ the whole text

  /** A file whose first line is a comment never parses: the comment rewrite turns that line into
      an empty line, the sentinel pass gives it " |", and the third pass does not touch the first
      line, so the grammar meets the terminator where `EESchema-LIBRARY` must stand. */
  lemma LeadingCommentFails(text: string)
    requires Normalize.StartsWithComment(text)
    ensures ParseKicadLib(text).None?
  {
    var ls := Normalize.SplitLines(text);
    Normalize.NormalizedLines(text);
    Normalize.FirstLine(text);
    var m := Normalize.StripComments(ls);
    assert m[0] == "";
    Normalize.TerminatedOrEmptied(m);
    var n := Normalize.NormalizeLines(ls);
    assert n[0] == " |";
    assert " |"[..1] == " ";
    assert Words(" ") == [];
    assert LexLine(n[0], |n| > 1) == TokLine([], true);
    assert Lex(n)[0] == TokLine([], true);
  }
}
