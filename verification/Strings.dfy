/** The string operations of the Go standard library that the gateway's parsers use, on byte strings. */
module Strings {
  import opened Seqs

  /** A Go string: every character is one byte. */
  predicate IsBytes(s: string) {
    forall c :: c in s ==> c as int < 256
  }

  type GoString = s: string | IsBytes(s)

  ghost predicate OccursAt(s: string, sub: string, i: int) {
    0 <= i && i + |sub| <= |s| && s[i..i + |sub|] == sub
  }

  lemma OccursLater(s: string, sub: string)
    requires s != ""
    ensures forall j :: OccursAt(s[1..], sub, j) ==> OccursAt(s, sub, j + 1)
    ensures forall j :: OccursAt(s, sub, j) && j > 0 ==> OccursAt(s[1..], sub, j - 1)
  {
    forall j | OccursAt(s[1..], sub, j) ensures OccursAt(s, sub, j + 1) {
      assert s[1..][j..j + |sub|] == s[j + 1..j + 1 + |sub|];
    }
    forall j | OccursAt(s, sub, j) && j > 0 ensures OccursAt(s[1..], sub, j - 1) {
      var k := j - 1;
      assert s[1..][k..k + |sub|] == s[k + 1..k + 1 + |sub|];
    }
  }

  lemma OccursEarlier(s: string, sub: string)
    requires s != ""
    ensures forall j :: OccursAt(s[..|s| - 1], sub, j) ==> OccursAt(s, sub, j)
    ensures forall j :: OccursAt(s, sub, j) && j + |sub| < |s| ==> OccursAt(s[..|s| - 1], sub, j)
  {
    var init := s[..|s| - 1];
    forall j | OccursAt(init, sub, j) ensures OccursAt(s, sub, j) {
      assert init[j..j + |sub|] == s[j..j + |sub|];
    }
    forall j | OccursAt(s, sub, j) && j + |sub| < |s| ensures OccursAt(init, sub, j) {
      assert init[j..j + |sub|] == s[j..j + |sub|];
    }
  }

  /** strings.Index */
  function Index(s: string, sub: string): (i: int)
    ensures i == -1 || OccursAt(s, sub, i)
    ensures forall j :: OccursAt(s, sub, j) ==> 0 <= i <= j
  {
    if |s| < |sub| then -1
    else if s[..|sub|] == sub then 0
    else
      OccursLater(s, sub);
      var r := Index(s[1..], sub);
      if r < 0 then -1 else r + 1
  }

  /** strings.LastIndex */
  function LastIndex(s: string, sub: string): (i: int)
    requires sub != ""
    ensures i == -1 || OccursAt(s, sub, i)
    ensures forall j :: OccursAt(s, sub, j) ==> j <= i
  {
    if |s| < |sub| then -1
    else if s[|s| - |sub|..] == sub then |s| - |sub|
    else
      OccursEarlier(s, sub);
      LastIndex(s[..|s| - 1], sub)
  }

  predicate HasPrefix(s: string, prefix: string) {
    |prefix| <= |s| && s[..|prefix|] == prefix
  }

  function CutPrefix(s: string, prefix: string): Option<string> {
    if HasPrefix(s, prefix) then Some(s[|prefix|..]) else None
  }

  /** What stands before the first separator, or all of s when there is none. */
  function Before(s: string, sep: string): string {
    var i := Index(s, sep);
    if i < 0 then s else s[..i]
  }

  /** strings.Cut */
  function Cut(s: string, sep: string): Option<(string, string)> {
    var i := Index(s, sep);
    if i < 0 then None else Some((s[..i], s[i + |sep|..]))
  }

  lemma CutAtFirst(a: string, sep: string, b: string)
    requires sep != "" && sep[0] !in a
    ensures Cut(a + sep + b, sep) == Some((a, b))
    ensures Before(a + sep + b, sep) == a
  {
    var s := a + sep + b;
    assert s[|a|..|a| + |sep|] == sep;
    assert OccursAt(s, sep, |a|);
    var i := Index(s, sep);
    assert forall k :: 0 <= k < |a| ==> s[k] == a[k];
    assert s[i] == s[i..i + |sep|][0] == sep[0];
    assert s[..|a|] == a && s[|a| + |sep|..] == b;
  }

  lemma IndexHits(s: string, c: char)
    ensures Index(s, [c]) >= 0 ==> c in s
  {
    var i := Index(s, [c]);
    if i >= 0 {
      assert s[i] == s[i..i + 1][0];
    }
  }

  lemma NothingToCut(s: string, c: char)
    requires c !in s
    ensures Before(s, [c]) == s && Cut(s, [c]) == None
  {
    IndexHits(s, c);
  }

  lemma BeforeHasNone(s: string, c: char)
    ensures c !in Before(s, [c])
  {
    var i := Index(s, [c]);
    forall k | 0 <= k < |Before(s, [c])| ensures s[k] != c {
      assert s[k..k + 1] == [s[k]];
      assert s[k] == c ==> OccursAt(s, [c], k);
    }
  }

  lemma {:induction false} BeforePast(a: string, b: string, c: char)
    requires c !in a
    ensures Before(a + b, [c]) == a + Before(b, [c])
  {
    if a == "" {
      assert a + b == b;
    } else {
      assert (a + b)[1..] == a[1..] + b;
      assert (a + b)[..1] == [a[0]];
      BeforePast(a[1..], b, c);
      BeforeCons(a[0], a[1..] + b, c);
      assert a + b == [a[0]] + (a[1..] + b);
      assert a + Before(b, [c]) == [a[0]] + (a[1..] + Before(b, [c]));
    }
  }

  lemma BeforeCons(x: char, s: string, c: char)
    requires x != c
    ensures Before([x] + s, [c]) == [x] + Before(s, [c])
  {
    var t := [x] + s;
    assert t[1..] == s && t[..1] == [x];
  }
}
