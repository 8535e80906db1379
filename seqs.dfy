/** Ordered filtering: how a boolean mask over a table keeps its rows. */
module Seqs {

  /** The elements of `s` that satisfy `p`, in the order of `s`. */
  function Filter<T>(s: seq<T>, p: T -> bool): (r: seq<T>)
    ensures |r| <= |s|
    ensures forall k :: 0 <= k < |r| ==> p(r[k])
    ensures forall x :: x in r ==> x in s
  {
    if s == [] then [] else (if p(s[0]) then [s[0]] else []) + Filter(s[1..], p)
  }

  /** `idx` is strictly increasing. */
  ghost predicate Increasing(idx: seq<nat>)
  {
    forall k, l :: 0 <= k < l < |idx| ==> idx[k] < idx[l]
  }

  /** `r` holds the elements of `s` at the positions `idx`. */
  ghost predicate PicksAt<T>(idx: seq<nat>, r: seq<T>, s: seq<T>)
  {
    |idx| == |r| && forall k :: 0 <= k < |idx| ==> idx[k] < |s| && r[k] == s[idx[k]]
  }

  /** `idx` holds exactly the positions of `s` whose element satisfies `p`. */
  ghost predicate MarksExactly<T>(idx: seq<nat>, s: seq<T>, p: T -> bool)
  {
    forall i :: 0 <= i < |s| ==> (i in idx <==> p(s[i]))
  }

  /** `idx` lists, strictly increasing, exactly the positions of `s` whose element satisfies `p`,
      and `r` holds the elements of `s` at those positions. */
  ghost predicate IsSelection<T>(idx: seq<nat>, r: seq<T>, s: seq<T>, p: T -> bool)
  {
    Increasing(idx) && PicksAt(idx, r, s) && MarksExactly(idx, s, p)
  }

  /** `r` is `s` restricted to the elements satisfying `p`, in the original order. */
  ghost predicate SelectedFrom<T>(r: seq<T>, s: seq<T>, p: T -> bool)
  {
    exists idx: seq<nat> :: IsSelection(idx, r, s, p)
  }

  /** Every position moved one place to the right. */
  function Shift(idx: seq<nat>): (r: seq<nat>)
    ensures |r| == |idx|
    ensures forall k :: 0 <= k < |idx| ==> r[k] == idx[k] + 1
  {
    if idx == [] then [] else [idx[0] + 1] + Shift(idx[1..])
  }

  lemma ShiftMembers(idx: seq<nat>)
    ensures forall i: nat :: i in Shift(idx) <==> i >= 1 && i - 1 in idx
  {
    forall i: nat ensures i in Shift(idx) <==> i >= 1 && i - 1 in idx {
      if i in Shift(idx) {
        var k :| 0 <= k < |idx| && Shift(idx)[k] == i;
      }
      if i >= 1 && i - 1 in idx {
        var k :| 0 <= k < |idx| && idx[k] == i - 1;
        assert Shift(idx)[k] == i;
      }
    }
  }

  lemma ShiftIncreasing(tail: seq<nat>, head: seq<nat>)
    requires Increasing(tail)
    requires head == [] || head == [0]
    ensures Increasing(head + Shift(tail))
  {
  }

  lemma ShiftPicks<T>(s: seq<T>, tail: seq<nat>, rt: seq<T>)
    requires s != []
    requires PicksAt(tail, rt, s[1..])
    ensures PicksAt(Shift(tail), rt, s)
    ensures PicksAt([0] + Shift(tail), [s[0]] + rt, s)
  {
    var shifted := Shift(tail);
    assert forall k :: 0 <= k < |tail| ==> s[1..][tail[k]] == s[shifted[k]];
    var idx := [0] + shifted;
    assert forall k :: 1 <= k < |idx| ==> idx[k] == shifted[k - 1];
  }

  lemma ShiftMarks<T>(s: seq<T>, p: T -> bool, tail: seq<nat>)
    requires s != []
    requires MarksExactly(tail, s[1..], p)
    ensures MarksExactly(if p(s[0]) then [0] + Shift(tail) else Shift(tail), s, p)
  {
    ShiftMembers(tail);
    var idx := if p(s[0]) then [0] + Shift(tail) else Shift(tail);
    forall i | 0 <= i < |s| ensures i in idx <==> p(s[i]) {
      if i >= 1 {
        assert s[1..][i - 1] == s[i];
        assert i - 1 in tail <==> p(s[i]);
        assert i in Shift(tail) <==> p(s[i]);
      }
    }
  }

  /** The selection of `s` from the selection of its tail. */
  lemma SelectionCons<T>(s: seq<T>, p: T -> bool, tail: seq<nat>) returns (idx: seq<nat>)
    requires s != []
    requires IsSelection(tail, Filter(s[1..], p), s[1..], p)
    ensures IsSelection(idx, Filter(s, p), s, p)
  {
    var rt := Filter(s[1..], p);
    ShiftPicks(s, tail, rt);
    ShiftMarks(s, p, tail);
    if p(s[0]) {
      idx := [0] + Shift(tail);
      ShiftIncreasing(tail, [0]);
      assert Filter(s, p) == [s[0]] + rt;
    } else {
      idx := Shift(tail);
      ShiftIncreasing(tail, []);
      assert [] + Shift(tail) == Shift(tail);
      assert Filter(s, p) == rt;
    }
  }

  /** The positions picked by `Filter`. */
  lemma {:induction false} FilterIndices<T>(s: seq<T>, p: T -> bool) returns (idx: seq<nat>)
    ensures IsSelection(idx, Filter(s, p), s, p)
  {
    if s == [] {
      idx := [];
    } else {
      var tail := FilterIndices(s[1..], p);
      idx := SelectionCons(s, p, tail);
    }
  }

  /** `Filter` keeps exactly the satisfying elements, in order. */
  lemma FilterSelects<T>(s: seq<T>, p: T -> bool)
    ensures SelectedFrom(Filter(s, p), s, p)
  {
    var idx := FilterIndices(s, p);
  }

  /** Two predicates that agree on every element filter alike. */
  lemma {:induction false} FilterExt<T>(s: seq<T>, p: T -> bool, q: T -> bool)
    requires forall x :: p(x) == q(x)
    ensures Filter(s, p) == Filter(s, q)
  {
    if s != [] { FilterExt(s[1..], p, q); }
  }

  /** Filtering twice is filtering once by the conjunction `both`. */
  lemma {:induction false} FilterFuse<T>(s: seq<T>, p: T -> bool, q: T -> bool, both: T -> bool)
    requires forall x :: both(x) == (p(x) && q(x))
    ensures Filter(Filter(s, p), q) == Filter(s, both)
  {
    if s != [] {
      FilterFuse(s[1..], p, q, both);
      var h := if p(s[0]) then [s[0]] else [];
      assert Filter(s, p) == h + Filter(s[1..], p);
      FilterAppend(h, Filter(s[1..], p), q);
    }
  }

  /** Filtering distributes over concatenation. */
  lemma {:induction false} FilterAppend<T>(a: seq<T>, b: seq<T>, p: T -> bool)
    ensures Filter(a + b, p) == Filter(a, p) + Filter(b, p)
  {
    if a != [] {
      assert (a + b)[1..] == a[1..] + b;
      FilterAppend(a[1..], b, p);
    } else {
      assert a + b == b;
    }
  }

  /** An element is kept exactly when it is in `s` and satisfies `p`. */
  lemma {:induction false} FilterMembership<T>(s: seq<T>, p: T -> bool, x: T)
    ensures x in Filter(s, p) <==> x in s && p(x)
  {
    if s != [] {
      FilterMembership(s[1..], p, x);
      assert s == [s[0]] + s[1..];
    }
  }

  /** The order in which two filters are applied does not change the result. */
  lemma FilterCommutes<T>(s: seq<T>, p: T -> bool, q: T -> bool)
    ensures Filter(Filter(s, p), q) == Filter(Filter(s, q), p)
  {
    var both := x => p(x) && q(x);
    FilterFuse(s, p, q, both);
    FilterFuse(s, q, p, both);
  }

  /** The filtered sequence is empty exactly when no element satisfies `p`; otherwise its head is
      the first satisfying element. */
  lemma {:induction false} FilterHead<T>(s: seq<T>, p: T -> bool)
    ensures Filter(s, p) != [] <==> exists i :: 0 <= i < |s| && p(s[i])
    ensures Filter(s, p) != [] ==>
      exists i :: 0 <= i < |s| && p(s[i]) && Filter(s, p)[0] == s[i] &&
        forall j :: 0 <= j < i ==> !p(s[j])
  {
    if s != [] {
      if !p(s[0]) {
        FilterHead(s[1..], p);
        assert Filter(s, p) == Filter(s[1..], p);
        if exists i :: 0 <= i < |s| && p(s[i]) {
          var i :| 0 <= i < |s| && p(s[i]);
          assert s[1..][i - 1] == s[i];
        }
        if Filter(s, p) != [] {
          var i :| 0 <= i < |s[1..]| && p(s[1..][i]) && Filter(s[1..], p)[0] == s[1..][i] &&
            forall j :: 0 <= j < i ==> !p(s[1..][j]);
          assert forall j :: 1 <= j < i + 1 ==> s[j] == s[1..][j - 1];
          assert p(s[i + 1]) && Filter(s, p)[0] == s[i + 1];
        }
      } else {
        assert Filter(s, p)[0] == s[0];
      }
    }
  }

  // ---- concatenation of per-element rows

  /** The rows `f` gives for the elements of `s`, one element after another: how a table is
      gathered by appending the rows of each item in turn. */
  function Flatten<T, U>(s: seq<T>, f: T -> seq<U>): seq<U>
  {
    if s == [] then [] else Flatten(s[..|s| - 1], f) + f(s[|s| - 1])
  }

  lemma FlattenSnoc<T, U>(s: seq<T>, x: T, f: T -> seq<U>)
    ensures Flatten(s + [x], f) == Flatten(s, f) + f(x)
  {
    assert (s + [x])[..|s|] == s;
  }

  /** Gathering two runs of items gives the rows of the first run, then those of the second. */
  lemma {:induction false} FlattenAppend<T, U>(a: seq<T>, b: seq<T>, f: T -> seq<U>)
    ensures Flatten(a + b, f) == Flatten(a, f) + Flatten(b, f)
    decreases |b|
  {
    if b == [] {
      assert a + b == a;
    } else {
      var init, last := b[..|b| - 1], b[|b| - 1];
      assert b == init + [last];
      assert a + b == (a + init) + [last];
      FlattenSnoc(a + init, last, f);
      FlattenSnoc(init, last, f);
      FlattenAppend(a, init, f);
    }
  }

  /** An item is gathered as its own rows. */
  lemma FlattenSingle<T, U>(x: T, f: T -> seq<U>)
    ensures Flatten([x], f) == f(x)
  {
    assert [x][..0] == [];
  }

  /** Gathering starts with the rows of the first item. */
  lemma FlattenCons<T, U>(s: seq<T>, f: T -> seq<U>)
    requires s != []
    ensures Flatten(s, f) == f(s[0]) + Flatten(s[1..], f)
  {
    assert s == [s[0]] + s[1..];
    FlattenAppend([s[0]], s[1..], f);
    FlattenSingle(s[0], f);
  }

  /** The identity: gathered with it, a sequence of runs is their concatenation. */
  function Id<T>(x: T): T { x }

  /** A row is gathered exactly when some item gives it. */
  lemma {:induction false} FlattenMembership<T, U>(s: seq<T>, f: T -> seq<U>, r: U)
    ensures r in Flatten(s, f) <==> exists x :: x in s && r in f(x)
    decreases |s|
  {
    if s != [] {
      var init, last := s[..|s| - 1], s[|s| - 1];
      assert s == init + [last];
      FlattenMembership(init, f, r);
      if exists x :: x in s && r in f(x) {
        var x :| x in s && r in f(x);
        if x != last { assert x in init; }
      }
    }
  }
}
