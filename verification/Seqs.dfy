/** Sequence, set and option helpers shared by the other modules. */
module Seqs {

  datatype Option<+T> = None | Some(value: T) {
    function GetOr(default: T): T {
      if Some? then value else default
    }
  }

  function Min(a: int, b: int): int {
    if a <= b then a else b
  }

  /** The first n elements, or all of them when there are fewer. */
  function Take<T>(s: seq<T>, n: nat): (r: seq<T>)
    ensures |r| == Min(|s|, n)
  {
    if |s| <= n then s else s[..n]
  }

  function Elems<T(==)>(s: seq<T>): set<T> {
    set x | x in s
  }

  ghost predicate NoDup<T>(s: seq<T>) {
    forall i, j :: 0 <= i < j < |s| ==> s[i] != s[j]
  }

  function Filter<T>(s: seq<T>, keep: T -> bool): seq<T> {
    if s == [] then []
    else if keep(s[0]) then [s[0]] + Filter(s[1..], keep)
    else Filter(s[1..], keep)
  }

  function FilterMap<S, T>(s: seq<S>, f: S -> Option<T>): seq<T> {
    if s == [] then []
    else if f(s[0]).Some? then [f(s[0]).value] + FilterMap(s[1..], f)
    else FilterMap(s[1..], f)
  }

  lemma {:induction false} FilterConcat<T>(a: seq<T>, b: seq<T>, keep: T -> bool)
    ensures Filter(a + b, keep) == Filter(a, keep) + Filter(b, keep)
  {
    if a == [] {
      assert a + b == b;
    } else {
      var rest := a[1..];
      FilterConcat(rest, b, keep);
      assert a + b == [a[0]] + (rest + b) && (a + b)[1..] == rest + b;
    }
  }

  /** Together with FilterConcat this says what filtering is: each kept element where it was. */
  lemma FilterOne<T>(x: T, keep: T -> bool)
    ensures Filter([x], keep) == if keep(x) then [x] else []
  {
    assert [x][1..] == [];
  }

  lemma FilterMapOne<S, T>(x: S, f: S -> Option<T>)
    ensures FilterMap([x], f) == if f(x).Some? then [f(x).value] else []
  {
    assert [x][1..] == [];
  }

  lemma {:induction false} FilterSame<T>(s: seq<T>, f: T -> bool, g: T -> bool)
    requires forall x :: x in s ==> f(x) == g(x)
    ensures Filter(s, f) == Filter(s, g)
  {
    if s != [] {
      FilterSame(s[1..], f, g);
    }
  }

  lemma {:induction false} FilterMapConcat<S, T>(a: seq<S>, b: seq<S>, f: S -> Option<T>)
    ensures FilterMap(a + b, f) == FilterMap(a, f) + FilterMap(b, f)
  {
    if a == [] {
      assert a + b == b;
    } else {
      var rest := a[1..];
      FilterMapConcat(rest, b, f);
      assert a + b == [a[0]] + (rest + b) && (a + b)[1..] == rest + b;
    }
  }

  /** A duplicate-free sequence is no longer than any set holding its elements. */
  lemma {:induction false} NoDupFits<T>(s: seq<T>, t: set<T>)
    requires NoDup(s) && forall x :: x in s ==> x in t
    ensures |s| <= |t|
  {
    if s != [] {
      assert forall x :: x in s[1..] ==> x != s[0] && x in t - {s[0]};
      NoDupFits(s[1..], t - {s[0]});
    }
  }

  lemma {:induction false} AllBelow(n: nat) returns (r: set<nat>)
    ensures |r| == n && forall i: nat :: i in r <==> i < n
  {
    r := {};
    if n > 0 {
      r := AllBelow(n - 1);
      r := r + {n - 1};
    }
  }

  lemma {:induction false} NoDupCard<T>(s: seq<T>)
    requires NoDup(s)
    ensures |Elems(s)| == |s|
  {
    if s != [] {
      NoDupCard(s[1..]);
      assert Elems(s) == {s[0]} + Elems(s[1..]);
      assert s[0] !in s[1..];
    }
  }

  lemma NoDupCons<T>(x: T, s: seq<T>)
    requires NoDup(s) && x !in s
    ensures NoDup([x] + s)
  {
  }

  lemma SubsetCard<T>(a: set<T>, b: set<T>)
    requires a <= b
    ensures |a| <= |b|
  {
    if a != {} {
      var x :| x in a;
      SubsetCard(a - {x}, b - {x});
    }
  }
}
