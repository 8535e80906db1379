/** Character classes and string helpers used by every grammar and by the queries. */
module Text {

  /** ASCII decimal digit: pyparsing's `nums`. */
  predicate IsDigit(c: char) { '0' <= c <= '9' }

  /** ASCII letter: pyparsing's `alphas`. */
  predicate IsAlpha(c: char) { 'a' <= c <= 'z' || 'A' <= c <= 'Z' }

  /** pyparsing's `alphanums`. */
  predicate IsAlnum(c: char) { IsDigit(c) || IsAlpha(c) }

  /** pyparsing's default whitespace other than the newline, which the line split removes. */
  predicate IsBlank(c: char) { c == ' ' || c == '\t' || c == '\r' }

  /** pyparsing's default whitespace, newline included. */
  predicate IsSpace(c: char) { IsBlank(c) || c == '\n' }

  /** pyparsing's `printables`: the visible ASCII characters. */
  predicate IsPrintable(c: char) { '!' <= c <= '~' }

  /** `str.upper` on one character, restricted to ASCII. */
  function UpperChar(c: char): (u: char)
    ensures 'a' <= c <= 'z' ==> 'A' <= u <= 'Z' && u as int == c as int - 32
    ensures !('a' <= c <= 'z') ==> u == c
  {
    if 'a' <= c <= 'z' then (c as int - 32) as char else c
  }

  /** `str.upper`, restricted to ASCII letters. */
  function Upper(s: string): (r: string)
    ensures |r| == |s|
    ensures forall i :: 0 <= i < |s| ==> r[i] == UpperChar(s[i])
  {
    if s == [] then [] else [UpperChar(s[0])] + Upper(s[1..])
  }

  /** Upper-casing twice is upper-casing once. */
  lemma UpperIdempotent(s: string)
    ensures Upper(Upper(s)) == Upper(s)
  {
  }

  /** Two strings that differ only in the case of ASCII letters upper-case to the same string. */
  ghost predicate SameUpToCase(a: string, b: string)
  {
    |a| == |b| && forall i :: 0 <= i < |a| ==> UpperChar(a[i]) == UpperChar(b[i])
  }

  lemma SameUpToCaseUpper(a: string, b: string)
    ensures SameUpToCase(a, b) <==> Upper(a) == Upper(b)
  {
    if Upper(a) == Upper(b) {
      assert forall i :: 0 <= i < |a| ==> UpperChar(a[i]) == Upper(a)[i];
    }
  }

  /** pyparsing's caseless literal and keyword comparison. */
  predicate CaselessEq(a: string, b: string) { Upper(a) == Upper(b) }

  /** No blank inside `w`. */
  predicate NoBlank(w: string) { forall i :: 0 <= i < |w| ==> !IsBlank(w[i]) }

  /** The length of the run of non-blank characters that starts `s`. */
  function WordLength(s: string): (n: nat)
    ensures n <= |s|
    ensures NoBlank(s[..n])
    ensures n == |s| || IsBlank(s[n])
  {
    if s == [] || IsBlank(s[0]) then 0 else 1 + WordLength(s[1..])
  }

  /** The blank-separated words of one line, as pyparsing's whitespace skipping sees them. */
  function Words(s: string): (r: seq<string>)
    ensures forall k :: 0 <= k < |r| ==> r[k] != [] && NoBlank(r[k])
    decreases |s|
  {
    if s == [] then []
    else if IsBlank(s[0]) then Words(s[1..])
    else
      var n := WordLength(s);
      [s[..n]] + Words(s[n..])
  }

  /** Words separated by one space each. */
  function Unwords(ws: seq<string>): string
  {
    if ws == [] then [] else if |ws| == 1 then ws[0] else ws[0] + " " + Unwords(ws[1..])
  }

  lemma WordLengthOf(w: string, rest: string)
    requires w != [] && NoBlank(w)
    requires rest == [] || IsBlank(rest[0])
    ensures WordLength(w + rest) == |w|
    decreases |w|
  {
    if |w| > 1 {
      assert (w + rest)[1..] == w[1..] + rest;
      WordLengthOf(w[1..], rest);
    } else {
      assert (w + rest)[1..] == rest;
    }
  }

  /** Splitting words joined by single spaces gives the words back. */
  lemma {:induction false} WordsUnwords(ws: seq<string>)
    requires forall k :: 0 <= k < |ws| ==> ws[k] != [] && NoBlank(ws[k])
    ensures Words(Unwords(ws)) == ws
  {
    if |ws| == 1 {
      WordLengthOf(ws[0], []);
      assert ws[0][|ws[0]|..] == [];
      assert ws[0][..|ws[0]|] == ws[0];
    } else if |ws| > 1 {
      var rest := " " + Unwords(ws[1..]);
      var s := ws[0] + rest;
      assert Unwords(ws) == s;
      WordLengthOf(ws[0], rest);
      assert s[..|ws[0]|] == ws[0];
      assert s[|ws[0]|..] == rest;
      assert rest[1..] == Unwords(ws[1..]);
      WordsUnwords(ws[1..]);
    }
  }

  /** Python's `s[:-n]` for a positive `n`: `s` without its last `n` characters, or "" when shorter. */
  function DropLast(s: string, n: nat): (r: string)
    requires n > 0
    ensures |r| == if |s| >= n then |s| - n else 0
    ensures r <= s
  {
    s[..if |s| >= n then |s| - n else 0]
  }

  /** Dropping the length of a suffix gives back what preceded it. */
  lemma DropLastSuffix(s: string, suffix: string)
    requires suffix != []
    ensures DropLast(s + suffix, |suffix|) == s
  {
    assert (s + suffix)[..|s|] == s;
  }
}
