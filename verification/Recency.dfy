/**
 Move-to-front lists. The candidate list of the node client and the library's LRU caches are both
 "touch the key, keep the first cap keys"; this module proves that truncating after every touch gives
 the same list as never truncating and cutting once at the end.
 */
module Recency {
  import opened Seqs

  function Without<T(==)>(s: seq<T>, x: T): (r: seq<T>)
    ensures |r| <= |s| && x !in r
    ensures forall y :: y in r ==> y in s
    ensures forall y :: y in s && y != x ==> y in r
  {
    if s == [] then []
    else if s[0] == x then Without(s[1..], x)
    else [s[0]] + Without(s[1..], x)
  }

  function Touch<T(==)>(s: seq<T>, x: T): seq<T> {
    [x] + Without(s, x)
  }

  function TouchBounded<T(==)>(s: seq<T>, x: T, cap: nat): seq<T> {
    Take(Touch(s, x), cap)
  }

  /** The distinct elements of uses, latest use first: the unbounded list. */
  function Recent<T(==)>(uses: seq<T>): seq<T> {
    if uses == [] then [] else Touch(Recent(uses[..|uses| - 1]), uses[|uses| - 1])
  }

  /** The list a program keeps when it cuts back to cap after every use. */
  function RecentBounded<T(==)>(uses: seq<T>, cap: nat): seq<T> {
    if uses == [] then [] else TouchBounded(RecentBounded(uses[..|uses| - 1], cap), uses[|uses| - 1], cap)
  }

  lemma {:induction false} WithoutConcat<T>(a: seq<T>, b: seq<T>, x: T)
    ensures Without(a + b, x) == Without(a, x) + Without(b, x)
  {
    if a == [] {
      assert a + b == b;
    } else {
      assert (a + b)[1..] == a[1..] + b;
      WithoutConcat(a[1..], b, x);
    }
  }

  lemma {:induction false} WithoutNoDup<T>(s: seq<T>, x: T)
    requires NoDup(s)
    ensures NoDup(Without(s, x))
  {
    if s != [] {
      var rest := s[1..];
      WithoutNoDup(rest, x);
      assert s[0] !in rest;
      NoDupCons(s[0], Without(rest, x));
    }
  }

  lemma {:induction false} WithoutAbsent<T>(s: seq<T>, x: T)
    requires x !in s
    ensures Without(s, x) == s
  {
    if s != [] {
      WithoutAbsent(s[1..], x);
    }
  }

  lemma {:induction false} WithoutPresent<T>(s: seq<T>, x: T)
    requires x in s && NoDup(s)
    ensures |Without(s, x)| == |s| - 1
  {
    if s[0] == x {
      assert x !in s[1..];
      WithoutAbsent(s[1..], x);
    } else {
      WithoutPresent(s[1..], x);
    }
  }

  lemma TouchNoDup<T>(s: seq<T>, x: T)
    requires NoDup(s)
    ensures NoDup(Touch(s, x))
    ensures Elems(Touch(s, x)) == Elems(s) + {x}
  {
    WithoutNoDup(s, x);
  }

  /** Cutting before a touch loses nothing that survives the cut after it. */
  lemma TouchAfterCut<T>(s: seq<T>, x: T, cap: nat)
    requires NoDup(s) && cap > 0
    ensures TouchBounded(Take(s, cap), x, cap) == TouchBounded(s, x, cap)
  {
    if |s| > cap {
      var kept, lost := s[..cap], s[cap..];
      assert s == kept + lost;
      WithoutConcat(kept, lost, x);
      if x in kept {
        WithoutPresent(kept, x);
      } else {
        WithoutAbsent(kept, x);
      }
    }
  }

  lemma {:induction false} RecentNoDup<T>(uses: seq<T>)
    ensures NoDup(Recent(uses))
    ensures Elems(Recent(uses)) == Elems(uses)
  {
    if uses != [] {
      var init, x := uses[..|uses| - 1], uses[|uses| - 1];
      RecentNoDup(init);
      TouchNoDup(Recent(init), x);
      assert uses == init + [x];
    }
  }

  /** The list cut after every use is the unbounded list cut once. */
  lemma {:induction false} BoundedIsPrefix<T>(uses: seq<T>, cap: nat)
    requires cap > 0
    ensures RecentBounded(uses, cap) == Take(Recent(uses), cap)
  {
    if uses != [] {
      var init := uses[..|uses| - 1];
      BoundedIsPrefix(init, cap);
      RecentNoDup(init);
      TouchAfterCut(Recent(init), uses[|uses| - 1], cap);
    }
  }

  /** Touching y moves x, which stands behind front, behind front plus y. */
  lemma TouchOther<T>(front: seq<T>, x: T, rest: seq<T>, y: T)
    requires x != y
    ensures var moved := [y] + Without(front, y);
            Touch(front + [x] + rest, y) == moved + [x] + Without(rest, y) && Elems(moved) == Elems(front) + {y}
  {
    WithoutConcat(front + [x], rest, y);
    WithoutConcat(front, [x], y);
    assert Without([x], y) == [x];
    assert [y] + (Without(front, y) + [x] + Without(rest, y)) == [y] + Without(front, y) + [x] + Without(rest, y);
    TouchedElems(front, y);
  }

  lemma {:induction false} TouchedElems<T>(front: seq<T>, y: T)
    ensures Elems([y] + Without(front, y)) == Elems(front) + {y}
  {
    if front != [] {
      TouchedElems(front[1..], y);
      assert front == [front[0]] + front[1..];
    }
  }

  lemma {:induction false} LaterUsesInFront<T>(uses: seq<T>, a: nat) returns (d: nat)
    requires a < |uses| && uses[a] !in uses[a + 1..]
    ensures d < |Recent(uses)| && Recent(uses)[d] == uses[a]
    ensures Elems(Recent(uses)[..d]) == Elems(uses[a + 1..])
  {
    var n := |uses| - 1;
    var init, y := uses[..n], uses[n];
    if a == n {
      d := 0;
    } else {
      assert uses[a + 1..] == init[a + 1..] + [y];
      var d0 := LaterUsesInFront(init, a);
      var r := Recent(init);
      var front, rest := r[..d0], r[d0 + 1..];
      assert r == front + [uses[a]] + rest;
      TouchOther(front, uses[a], rest, y);
      d := 1 + |Without(front, y)|;
      assert Recent(uses)[..d] == [y] + Without(front, y);
    }
  }

  /** Stack distance: x, last used at position a, stands behind exactly the distinct later uses. */
  lemma StackDistance<T>(uses: seq<T>, a: nat)
    requires a < |uses| && uses[a] !in uses[a + 1..]
    ensures var d := |Elems(uses[a + 1..])|; d < |Recent(uses)| && Recent(uses)[d] == uses[a]
  {
    var d := LaterUsesInFront(uses, a);
    RecentNoDup(uses);
    NoDupCard(Recent(uses)[..d]);
  }

  /** A key is still held exactly when fewer than cap other keys were used since its last use. */
  lemma HeldIffFewLaterUses<T>(uses: seq<T>, a: nat, cap: nat)
    requires cap > 0
    requires a < |uses| && uses[a] !in uses[a + 1..]
    ensures uses[a] in RecentBounded(uses, cap) <==> |Elems(uses[a + 1..])| < cap
  {
    BoundedIsPrefix(uses, cap);
    StackDistance(uses, a);
    RecentNoDup(uses);
  }

  /** Whoever is listed after more uses was listed before or is among these uses. */
  lemma {:induction false} BoundedFrom<T>(uses: seq<T>, more: seq<T>, cap: nat)
    ensures forall x :: x in RecentBounded(uses + more, cap) ==> x in RecentBounded(uses, cap) || x in more
  {
    if more == [] {
      assert uses + more == uses;
    } else {
      var init := more[..|more| - 1];
      assert (uses + more)[..|uses + more| - 1] == uses + init;
      BoundedFrom(uses, init, cap);
    }
  }
}
