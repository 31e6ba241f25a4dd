/** Sequence operations behind Array.prototype.filter, flat, reverse and
    the `[...new Set(a).difference(new Set(b))]` idiom. */
module Seqs {

  /** `s.filter(f)`: keeps, in order, exactly the elements satisfying `f`. */
  function Filter<T(!new)>(s: seq<T>, f: T -> bool): (r: seq<T>)
    ensures |r| <= |s|
    ensures forall x :: x in r <==> x in s && f(x)
  {
    if s == [] then [] else (if f(s[0]) then [s[0]] else []) + Filter(s[1..], f)
  }

  lemma {:induction false} FilterAppend<T(!new)>(a: seq<T>, b: seq<T>, f: T -> bool)
    ensures Filter(a + b, f) == Filter(a, f) + Filter(b, f)
  {
    if a == [] {
      assert a + b == b;
    } else {
      assert (a + b)[1..] == a[1..] + b;
      FilterAppend(a[1..], b, f);
    }
  }

  /** Filtering keeps everything when every element passes. */
  lemma {:induction false} FilterAll<T(!new)>(s: seq<T>, f: T -> bool)
    requires forall x :: x in s ==> f(x)
    ensures Filter(s, f) == s
  {
    if s != [] {
      assert forall x :: x in s[1..] ==> x in s;
      FilterAll(s[1..], f);
      assert [s[0]] + s[1..] == s;
    }
  }

  /** Filtering keeps nothing when no element passes. */
  lemma FilterNone<T(!new)>(s: seq<T>, f: T -> bool)
    requires forall x :: x in s ==> !f(x)
    ensures Filter(s, f) == []
  {
    if Filter(s, f) != [] {
      assert Filter(s, f)[0] in Filter(s, f);
    }
  }

  /** Concatenation of a sequence of sequences. */
  function Flatten<T>(ss: seq<seq<T>>): seq<T>
  {
    if ss == [] then [] else ss[0] + Flatten(ss[1..])
  }

  lemma {:induction false} FlattenAppend<T>(a: seq<seq<T>>, b: seq<seq<T>>)
    ensures Flatten(a + b) == Flatten(a) + Flatten(b)
  {
    if a == [] {
      assert a + b == b;
    } else {
      assert (a + b)[1..] == a[1..] + b;
      FlattenAppend(a[1..], b);
    }
  }

  lemma {:induction false} FlattenMember<T>(ss: seq<seq<T>>, k: nat, x: T)
    requires k < |ss| && x in ss[k]
    ensures x in Flatten(ss)
  {
    if k > 0 {
      FlattenMember(ss[1..], k - 1, x);
    }
  }

  /** No element occurs twice. */
  predicate Distinct<T(==)>(s: seq<T>)
  {
    forall i, j :: 0 <= i < j < |s| ==> s[i] != s[j]
  }

  /** The position of the first occurrence of `x` in `s`. */
  function FirstIndex<T(==)>(s: seq<T>, x: T): (r: nat)
    requires x in s
    ensures r < |s| && s[r] == x && x !in s[..r]
  {
    if s[0] == x then 0
    else
      var k := FirstIndex(s[1..], x);
      assert s[..k + 1] == [s[0]] + s[1..][..k];
      k + 1
  }

  /** Every element of `r` occurs in `s`, and `r` lists them in the order
      of their first occurrence in `s`. */
  predicate InFirstOrder<T(==)>(r: seq<T>, s: seq<T>)
  {
    && (forall x :: x in r ==> x in s)
    && forall i, j :: 0 <= i < j < |r| ==> r[i] in s && r[j] in s && FirstIndex(s, r[i]) < FirstIndex(s, r[j])
  }

  /** `[...new Set(s)]`: the first occurrence of every element, in order;
      a sequence without repeats is kept as it is. */
  function Dedup<T(==,!new)>(s: seq<T>): (r: seq<T>)
    ensures forall x :: x in r <==> x in s
    ensures Distinct(r)
    ensures InFirstOrder(r, s)
    ensures Distinct(s) ==> r == s
    decreases |s|
  {
    if s == [] then []
    else
      var init, last := s[..|s| - 1], s[|s| - 1];
      var d := Dedup(init);
      assert forall x :: x in init ==> x in s;
      assert s == init + [last];
      DedupStepOrder(s, d);
      DedupStepDistinct(s);
      if last in d then d else d + [last]
  }

  /** The step of `Dedup` from `s` without its last element to `s` keeps
      the order of first occurrences. */
  lemma DedupStepOrder<T>(s: seq<T>, d: seq<T>)
    requires |s| > 0
    requires forall x :: x in d <==> x in s[..|s| - 1]
    requires InFirstOrder(d, s[..|s| - 1])
    ensures InFirstOrder(if s[|s| - 1] in d then d else d + [s[|s| - 1]], s)
  {
    var init, last := s[..|s| - 1], s[|s| - 1];
    var r := if last in d then d else d + [last];
    forall i, j | 0 <= i < j < |r| ensures r[i] in s && r[j] in s && FirstIndex(s, r[i]) < FirstIndex(s, r[j]) {
      assert r[i] == d[i] && r[i] in init;
      FirstIndexPrefix(s, init, r[i]);
      if j < |d| {
        assert r[j] == d[j];
        FirstIndexPrefix(s, init, r[j]);
      } else {
        assert r[j] == last && last !in init;
        assert FirstIndex(s, r[i]) < |init|;
      }
    }
  }

  /** Without repeats, the step of `Dedup` appends the last element. */
  lemma DedupStepDistinct<T>(s: seq<T>)
    requires |s| > 0
    ensures Distinct(s) ==> Distinct(s[..|s| - 1]) && s[|s| - 1] !in s[..|s| - 1]
  {
    var init := s[..|s| - 1];
    if !Distinct(s) { return; }
    forall i, j | 0 <= i < j < |init| ensures init[i] != init[j] { assert init[i] == s[i] && init[j] == s[j]; }
  }

  /** Within a prefix that holds `x`, the first occurrence is the same. */
  lemma FirstIndexPrefix<T>(s: seq<T>, t: seq<T>, x: T)
    requires |t| <= |s| && t == s[..|t|] && x in t
    ensures x in s && FirstIndex(s, x) == FirstIndex(t, x)
  {
    var k := FirstIndex(t, x);
    assert s[k] == x;
  }

  /** Filtering keeps the order of first occurrences. */
  lemma {:induction false} FilterFirstOrder<T(!new)>(t: seq<T>, s: seq<T>, f: T -> bool)
    requires InFirstOrder(t, s)
    ensures InFirstOrder(Filter(t, f), s)
  {
    if t != [] {
      FirstOrderTail(t, s);
      FilterFirstOrder(t[1..], s, f);
      if f(t[0]) {
        FirstOrderCons(t, s, Filter(t[1..], f));
      } else {
        assert Filter(t, f) == [] + Filter(t[1..], f);
      }
    }
  }

  lemma FirstOrderTail<T>(t: seq<T>, s: seq<T>)
    requires t != [] && InFirstOrder(t, s)
    ensures InFirstOrder(t[1..], s)
  {
    var tail := t[1..];
    forall i, j | 0 <= i < j < |tail| ensures tail[i] in s && tail[j] in s && FirstIndex(s, tail[i]) < FirstIndex(s, tail[j]) {
      assert tail[i] == t[i + 1] && tail[j] == t[j + 1];
    }
  }

  /** The head of an ordered sequence may go in front of any ordered
      selection from its tail. */
  lemma FirstOrderCons<T>(t: seq<T>, s: seq<T>, rest: seq<T>)
    requires t != [] && InFirstOrder(t, s) && InFirstOrder(rest, s)
    requires forall x :: x in rest ==> x in t[1..]
    ensures InFirstOrder([t[0]] + rest, s)
  {
    var r := [t[0]] + rest;
    forall i, j | 0 <= i < j < |r| ensures r[i] in s && r[j] in s && FirstIndex(s, r[i]) < FirstIndex(s, r[j]) {
      if i == 0 {
        assert r[j] in t[1..];
        var k :| 0 <= k < |t[1..]| && t[1..][k] == r[j];
        assert t[k + 1] == r[j];
      } else {
        assert r[i] == rest[i - 1] && r[j] == rest[j - 1];
      }
    }
  }

  /** `[...new Set(a).difference(new Set(b))]`: the elements of `a` that are
      not in `b`, each once, in the order of their first occurrence in `a`. */
  function Difference<T(==,!new)>(a: seq<T>, b: seq<T>): (r: seq<T>)
    ensures forall x :: x in r <==> x in a && x !in b
    ensures Distinct(r)
    ensures InFirstOrder(r, a)
    ensures Distinct(a) ==> r == Filter(a, x => x !in b)
  {
    var r := Filter(Dedup(a), x => x !in b);
    DistinctFilter(Dedup(a), x => x !in b);
    FilterFirstOrder(Dedup(a), a, x => x !in b);
    r
  }

  lemma {:induction false} DistinctFilter<T(!new)>(s: seq<T>, f: T -> bool)
    requires Distinct(s)
    ensures Distinct(Filter(s, f))
  {
    if s != [] {
      DistinctFilter(s[1..], f);
      var rest := Filter(s[1..], f);
      if f(s[0]) {
        assert s[0] !in s[1..] by {
          forall k | 0 <= k < |s[1..]| ensures s[1..][k] != s[0] { assert s[k + 1] != s[0]; }
        }
        assert s[0] !in rest;
        var r := [s[0]] + rest;
        forall i, j | 0 <= i < j < |r| ensures r[i] != r[j] {
          if i == 0 { assert r[j] in rest; } else { assert r[i] == rest[i - 1] && r[j] == rest[j - 1]; }
        }
      } else {
        assert Filter(s, f) == [] + rest;
        assert [] + rest == rest;
      }
    }
  }

  function Reverse<T>(s: seq<T>): (r: seq<T>)
    ensures |r| == |s|
    ensures forall i :: 0 <= i < |s| ==> r[i] == s[|s| - 1 - i]
  {
    if s == [] then [] else Reverse(s[1..]) + [s[0]]
  }
}
