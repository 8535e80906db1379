/** The three whole-text rewrites that `_parse_kicad_lib` applies before its grammar
    (indexes/index_parts.py:117-127). Each rewrite only ever looks at one line at a time, so each
    is written as a function on the lines of the text, split at '\n'. */
module Normalize {

  /** Number of newline characters in `s`. */
  function NewlineCount(s: string): nat
  {
    if s == [] then 0 else (if s[0] == '\n' then 1 else 0) + NewlineCount(s[1..])
  }

  /** No line holds a newline. */
  ghost predicate NoNewlines(ls: seq<string>)
  {
    forall i :: 0 <= i < |ls| ==> '\n' !in ls[i]
  }

  /** The lines of `s`: the pieces between newlines, so one more piece than newlines. */
  function SplitLines(s: string): (r: seq<string>)
    ensures |r| == NewlineCount(s) + 1
    ensures NoNewlines(r)
  {
    if s == [] then [""]
    else
      var rest := SplitLines(s[1..]);
      if s[0] == '\n' then [""] + rest else [[s[0]] + rest[0]] + rest[1..]
  }

  /** The text whose lines are `ls`. */
  function JoinLines(ls: seq<string>): string
    requires |ls| >= 1
  {
    if |ls| == 1 then ls[0] else ls[0] + "\n" + JoinLines(ls[1..])
  }

  lemma {:induction false} JoinSplit(s: string)
    ensures JoinLines(SplitLines(s)) == s
  {
    if s != [] {
      var rest := SplitLines(s[1..]);
      JoinSplit(s[1..]);
      if s[0] != '\n' && |rest| > 1 {
        assert JoinLines(rest) == rest[0] + "\n" + JoinLines(rest[1..]);
        assert [s[0]] + s[1..] == s;
      }
    }
  }

  lemma {:induction false} SplitPrefix(w: string, t: string)
    requires '\n' !in w
    ensures SplitLines(w + t) == [w + SplitLines(t)[0]] + SplitLines(t)[1..]
  {
    if w != [] {
      assert (w + t)[1..] == w[1..] + t;
      SplitPrefix(w[1..], t);
      assert [w[0]] + (w[1..] + SplitLines(t)[0]) == w + SplitLines(t)[0];
    } else {
      assert w + t == t;
      assert SplitLines(t) == [SplitLines(t)[0]] + SplitLines(t)[1..];
      assert w + SplitLines(t)[0] == SplitLines(t)[0];
    }
  }

  /** Splitting the joined lines gives the lines back. */
  lemma {:induction false} SplitJoin(ls: seq<string>)
    requires |ls| >= 1 && NoNewlines(ls)
    ensures SplitLines(JoinLines(ls)) == ls
  {
    if |ls| == 1 {
      SplitPrefix(ls[0], "");
      assert ls[0] + "" == ls[0];
    } else {
      var t := "\n" + JoinLines(ls[1..]);
      assert JoinLines(ls) == ls[0] + t;
      SplitPrefix(ls[0], t);
      assert t[1..] == JoinLines(ls[1..]);
      SplitJoin(ls[1..]);
      assert SplitLines(t) == [""] + ls[1..];
      assert ls[0] + "" == ls[0];
    }
  }

  /** A text with `n` lines holds `n - 1` newlines. */
  lemma JoinNewlines(ls: seq<string>)
    requires |ls| >= 1 && NoNewlines(ls)
    ensures NewlineCount(JoinLines(ls)) == |ls| - 1
  {
    SplitJoin(ls);
  }

  // ---------------------------------------------------------------- pass 1 (line 117)

  /** A line that the comment rewrite can blank: it starts with '#'. */
  predicate IsCommentLine(l: string) { |l| > 0 && l[0] == '#' }

  /** Pass 1. A comment line followed by a newline is blanked (its text is dropped, the line
      stays). The first line is matched through `^`, whose replacement "\n" has no newline to
      replace, so a comment there becomes two empty lines. The last line is never followed by a
      newline and is never blanked. */
  function StripComments(ls: seq<string>): (r: seq<string>)
    requires |ls| >= 1
    ensures |r| >= 1
    ensures NoNewlines(ls) ==> NoNewlines(r)
  {
    var last := |ls| - 1;
    var blanked := seq(|ls|, i requires 0 <= i < |ls| =>
      if 0 < i < last && IsCommentLine(ls[i]) then "" else ls[i]);
    if last > 0 && IsCommentLine(ls[0]) then ["", ""] + blanked[1..] else blanked
  }

  // ---------------------------------------------------------------- pass 2 (line 122)

  /** Pass 2. Every newline becomes " |\n": every line but the last gets the sentinel " |". */
  function Terminate(ls: seq<string>): (r: seq<string>)
    requires |ls| >= 1
    ensures |r| == |ls|
    ensures NoNewlines(ls) ==> NoNewlines(r)
  {
    seq(|ls|, i requires 0 <= i < |ls| => if i < |ls| - 1 then ls[i] + " |" else ls[i])
  }

  // ---------------------------------------------------------------- pass 3 (line 127)

  predicate AllSpaces(l: string) { forall i :: 0 <= i < |l| ==> l[i] == ' ' }

  /** The line matches ` *\| *`: spaces, one '|', spaces. */
  predicate SentinelOnly(l: string)
  {
    |l| > 0 && (if l[0] == ' ' then SentinelOnly(l[1..]) else l[0] == '|' && AllSpaces(l[1..]))
  }

  /** Pass 3. A line made of spaces around one '|' is emptied when a newline comes before it and
      a newline after it: never the first line, never the last. */
  function DropSentinelLines(ls: seq<string>): (r: seq<string>)
    requires |ls| >= 1
    ensures |r| == |ls|
    ensures NoNewlines(ls) ==> NoNewlines(r)
  {
    seq(|ls|, i requires 0 <= i < |ls| =>
      if 0 < i < |ls| - 1 && SentinelOnly(ls[i]) then "" else ls[i])
  }

  // ---------------------------------------------------------------- the whole rewrite

  function StripCommentsText(t: string): string { JoinLines(StripComments(SplitLines(t))) }
  function TerminateText(t: string): string { JoinLines(Terminate(SplitLines(t))) }
  function DropSentinelText(t: string): string { JoinLines(DropSentinelLines(SplitLines(t))) }

  /** The text `_parse_kicad_lib` hands to its grammar. */
  function NormalizeText(t: string): string
  {
    DropSentinelText(TerminateText(StripCommentsText(t)))
  }

  /** The same rewrite on lines. */
  function NormalizeLines(ls: seq<string>): (r: seq<string>)
    requires |ls| >= 1
    ensures |r| >= 1
    ensures NoNewlines(ls) ==> NoNewlines(r)
  {
    DropSentinelLines(Terminate(StripComments(ls)))
  }

  /** The lines of the normalised text are the normalised lines. */
  lemma NormalizedLines(t: string)
    ensures SplitLines(NormalizeText(t)) == NormalizeLines(SplitLines(t))
  {
    var l1 := StripComments(SplitLines(t));
    SplitJoin(l1);
    var l2 := Terminate(l1);
    SplitJoin(l2);
    var l3 := DropSentinelLines(l2);
    SplitJoin(l3);
  }

  /** The text starts with a comment line that is followed by a newline. */
  predicate StartsWithComment(t: string) { |t| > 0 && t[0] == '#' && NewlineCount(t) > 0 }

  lemma FirstLine(t: string)
    ensures t != [] && t[0] != '\n' ==> SplitLines(t)[0] != [] && SplitLines(t)[0][0] == t[0]
    ensures t != [] && t[0] == '\n' ==> SplitLines(t)[0] == ""
  {
  }

  lemma StripCommentsLength(ls: seq<string>)
    requires |ls| >= 1
    ensures |StripComments(ls)| == |ls| + (if |ls| > 1 && IsCommentLine(ls[0]) then 1 else 0)
  {
  }

  /** Normalisation keeps the number of newlines, except that a comment on the very first line
      becomes "\n" and so adds one. */
  lemma NormalizeNewlineCount(t: string)
    ensures NewlineCount(NormalizeText(t)) ==
      NewlineCount(t) + (if StartsWithComment(t) then 1 else 0)
  {
    var ls := SplitLines(t);
    NormalizedLines(t);
    JoinSplit(NormalizeText(t));
    JoinNewlines(NormalizeLines(ls));
    StripCommentsLength(ls);
    FirstLine(t);
  }

  /** Every newline of `u` is directly preceded by " |". */
  ghost predicate SentinelBeforeNewlines(u: string)
  {
    forall j :: 0 <= j < |u| && u[j] == '\n' ==> j >= 2 && u[j - 2] == ' ' && u[j - 1] == '|'
  }

  /** After pass 2 every newline is directly preceded by " |". */
  lemma {:induction false} JoinedSentinels(ls: seq<string>)
    requires |ls| >= 1 && NoNewlines(ls)
    requires forall i :: 0 <= i < |ls| - 1 ==> |ls[i]| >= 2 && ls[i][|ls[i]| - 2..] == " |"
    ensures SentinelBeforeNewlines(JoinLines(ls))
  {
    var u := JoinLines(ls);
    if |ls| > 1 {
      var h := ls[0];
      var rest := JoinLines(ls[1..]);
      assert u == h + "\n" + rest;
      JoinedSentinels(ls[1..]);
      assert SentinelBeforeNewlines(rest);
      forall j | 0 <= j < |u| && u[j] == '\n'
        ensures j >= 2 && u[j - 2] == ' ' && u[j - 1] == '|'
      {
        if j == |h| {
          assert u[j - 2] == h[|h| - 2..][0];
          assert u[j - 1] == h[|h| - 2..][1];
        } else if j > |h| {
          var j' := j - |h| - 1;
          assert u[j] == rest[j'];
          assert j' >= 2 && rest[j' - 2] == ' ' && rest[j' - 1] == '|';
          assert u[j - 2] == rest[j' - 2];
          assert u[j - 1] == rest[j' - 1];
        }
      }
    }
  }

  lemma TerminateSentinels(ls: seq<string>)
    requires |ls| >= 1
    ensures forall i :: 0 <= i < |ls| - 1 ==>
      var l := Terminate(ls)[i]; |l| >= 2 && l[|l| - 2..] == " |"
  {
    forall i | 0 <= i < |ls| - 1
      ensures var l := Terminate(ls)[i]; |l| >= 2 && l[|l| - 2..] == " |"
    {
      assert Terminate(ls)[i] == ls[i] + " |";
    }
  }

  /** Once pass 2 has run, every newline of the text is directly preceded by " |". */
  lemma SentinelBeforeEveryNewline(t: string)
    ensures SentinelBeforeNewlines(TerminateText(StripCommentsText(t)))
  {
    var l1 := StripComments(SplitLines(t));
    SplitJoin(l1);
    var l2 := Terminate(l1);
    assert TerminateText(StripCommentsText(t)) == JoinLines(l2);
    TerminateSentinels(l1);
    JoinedSentinels(l2);
  }

  /** A line with the sentinel appended is sentinel-only exactly when it was all spaces. */
  lemma {:induction false} SentinelOnlyTerminated(l: string)
    ensures SentinelOnly(l + " |") <==> AllSpaces(l)
  {
    if l == [] {
      assert (l + " |")[1..] == "|";
      assert "|"[1..] == [];
    } else {
      assert (l + " |")[1..] == l[1..] + " |";
      if l[0] == ' ' {
        SentinelOnlyTerminated(l[1..]);
      } else if l[0] == '|' {
        assert (l[1..] + " |")[|l| - 1 + 1] == '|';
      }
    }
  }

  /** What passes 2 and 3 make of the lines left by pass 1: the first line and every interior line
      that is not all spaces end with the sentinel, interior lines of spaces only become empty,
      and the last line is untouched. */
  lemma TerminatedOrEmptied(ls: seq<string>)
    requires |ls| >= 1
    ensures var r := DropSentinelLines(Terminate(ls));
      && |r| == |ls|
      && (|ls| > 1 ==> r[0] == ls[0] + " |")
      && (forall i :: 0 < i < |ls| - 1 ==> r[i] == if AllSpaces(ls[i]) then "" else ls[i] + " |")
      && r[|ls| - 1] == ls[|ls| - 1]
  {
    forall i | 0 < i < |ls| - 1 { SentinelOnlyTerminated(ls[i]); }
  }

  /** An interior comment line that is followed by a newline comes out of the whole rewrite
      empty, at the same line number, or one line further down when the first line was a comment
      too. */
  lemma CommentLinesBlanked(ls: seq<string>, i: nat)
    requires 0 < i < |ls| - 1 && IsCommentLine(ls[i])
    ensures var d := if IsCommentLine(ls[0]) then 1 else 0;
      NormalizeLines(ls)[i + d] == ""
  {
    var m := StripComments(ls);
    var d := if IsCommentLine(ls[0]) then 1 else 0;
    assert m[i + d] == "";
    TerminatedOrEmptied(m);
  }
}
