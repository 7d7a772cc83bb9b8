// Java's natural order on strings, and the two ordered collections of the
// solver: a TreeSet<String> (kept sorted) and a LinkedHashSet<String>
// (kept in insertion order, without duplicates).
module Ordering {

  /** `a.compareTo(b) < 0`: the first differing character decides, and a
      proper prefix comes first. */
  function LexLess(a: string, b: string): (r: bool)
    ensures r ==> a != b
    ensures |a| < |b| && a == b[..|a|] ==> r
    ensures |b| < |a| && b == a[..|b|] ==> !r
  {
    if |a| == 0 then |b| > 0
    else if |b| == 0 then false
    else if a[0] == b[0] then
      var r := LexLess(a[1..], b[1..]);
      assert |a| < |b| && a == b[..|a|] ==> a[1..] == b[1..][..|a| - 1];
      assert |b| < |a| && b == a[..|b|] ==> b[1..] == a[1..][..|b| - 1];
      assert a == b ==> a[1..] == b[1..];
      r
    else a[0] < b[0]
  }

  lemma {:induction false} LexLessIrreflexive(a: string)
    ensures !LexLess(a, a)
  {
    if |a| > 0 {
      LexLessIrreflexive(a[1..]);
    }
  }

  lemma {:induction false} LexLessTransitive(a: string, b: string, c: string)
    requires LexLess(a, b) && LexLess(b, c)
    ensures LexLess(a, c)
  {
    if |a| > 0 && |b| > 0 && |c| > 0 && a[0] == b[0] && b[0] == c[0] {
      LexLessTransitive(a[1..], b[1..], c[1..]);
    }
  }

  lemma {:induction false} LexLessTotal(a: string, b: string)
    requires a != b
    ensures LexLess(a, b) || LexLess(b, a)
  {
    if |a| > 0 && |b| > 0 && a[0] == b[0] {
      assert a == [a[0]] + a[1..] && b == [b[0]] + b[1..];
      LexLessTotal(a[1..], b[1..]);
    }
  }

  /** Two equal-length strings that first differ at `k` are ordered by that character. */
  lemma {:induction false} LexLessAt(a: string, b: string, k: nat)
    requires |a| == |b| && k < |a|
    requires a[..k] == b[..k] && a[k] != b[k]
    ensures LexLess(a, b) <==> a[k] < b[k]
  {
    if k > 0 {
      assert a[0] == a[..k][0];
      assert a[1..][..k - 1] == a[1..k] && b[1..][..k - 1] == b[1..k];
      assert a[1..k] == a[..k][1..] && b[1..k] == b[..k][1..];
      LexLessAt(a[1..], b[1..], k - 1);
    }
  }

  predicate StrictlySorted(s: seq<string>) {
    forall i, j :: 0 <= i < j < |s| ==> LexLess(s[i], s[j])
  }

  /** `TreeSet.add`: insert `x` at its place in the order, unless it is
      already there. */
  function Insert(s: seq<string>, x: string): (r: seq<string>)
    requires StrictlySorted(s)
    ensures StrictlySorted(r)
    ensures forall y :: y in r <==> y in s || y == x
  {
    if |s| == 0 then [x]
    else if s[0] == x then s
    else if LexLess(x, s[0]) then
      assert forall j :: 0 < j < |s| ==> LexLess(x, s[j]) by {
        forall j | 0 < j < |s| ensures LexLess(x, s[j]) {
          LexLessTransitive(x, s[0], s[j]);
        }
      }
      [x] + s
    else
      var rest := Insert(s[1..], x);
      LexLessTotal(x, s[0]);
      assert forall y :: y in rest ==> LexLess(s[0], y);
      [s[0]] + rest
  }

  predicate NoDuplicates(s: seq<string>) {
    forall i, j :: 0 <= i < j < |s| ==> s[i] != s[j]
  }

  /** `LinkedHashSet.add`: append `x` unless it is already present. */
  function AddLinked(s: seq<string>, x: string): (r: seq<string>)
    requires NoDuplicates(s)
    ensures NoDuplicates(r)
    ensures |s| <= |r| && r[..|s|] == s
    ensures forall y :: y in r <==> y in s || y == x
  {
    if x in s then s else s + [x]
  }
}
