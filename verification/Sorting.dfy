/** Python's `sorted`: a stable insertion by a comparison, and what makes its result unique. */
module Sorting {

  ghost predicate TotalPreorder<T(!new)>(le: (T, T) -> bool) {
    && (forall x, y :: le(x, y) || le(y, x))
    && (forall x, y, z :: le(x, y) && le(y, z) ==> le(x, z))
  }

  ghost predicate Sorted<T>(le: (T, T) -> bool, s: seq<T>) {
    forall i, j :: 0 <= i < j < |s| ==> le(s[i], s[j])
  }

  /** `x` goes behind the entries that may precede it, so equal keys keep their order. */
  function Insert<T>(le: (T, T) -> bool, s: seq<T>, x: T): seq<T> {
    if s == [] || le(s[|s| - 1], x) then s + [x]
    else Insert(le, s[..|s| - 1], x) + [s[|s| - 1]]
  }

  function SortBy<T>(le: (T, T) -> bool, s: seq<T>): seq<T> {
    if s == [] then [] else Insert(le, SortBy(le, s[..|s| - 1]), s[|s| - 1])
  }

  lemma {:induction false} InsertPermutes<T>(le: (T, T) -> bool, s: seq<T>, x: T)
    ensures multiset(Insert(le, s, x)) == multiset(s) + multiset{x}
  {
    if s != [] && !le(s[|s| - 1], x) {
      InsertPermutes(le, s[..|s| - 1], x);
      assert s == s[..|s| - 1] + [s[|s| - 1]];
    }
  }

  /** Sorting neither loses nor repeats anything. */
  lemma {:induction false} SortByPermutes<T>(le: (T, T) -> bool, s: seq<T>)
    ensures multiset(SortBy(le, s)) == multiset(s)
    ensures |SortBy(le, s)| == |s|
  {
    if s != [] {
      var before, last := s[..|s| - 1], s[|s| - 1];
      SortByPermutes(le, before);
      InsertPermutes(le, SortBy(le, before), last);
      assert s == before + [last];
    }
    assert |multiset(SortBy(le, s))| == |SortBy(le, s)| && |multiset(s)| == |s|;
  }

  lemma SameMembers<T>(s: seq<T>, t: seq<T>)
    requires multiset(s) == multiset(t)
    ensures |s| == |t| && forall x :: x in s <==> x in t
  {
    assert |multiset(s)| == |s| && |multiset(t)| == |t|;
    forall x ensures x in s <==> x in t {
      assert x in s <==> x in multiset(s);
      assert x in t <==> x in multiset(t);
    }
  }

  lemma {:induction false} InsertStaysBelow<T>(le: (T, T) -> bool, s: seq<T>, x: T, top: T)
    requires le(x, top) && forall i :: 0 <= i < |s| ==> le(s[i], top)
    ensures forall i :: 0 <= i < |Insert(le, s, x)| ==> le(Insert(le, s, x)[i], top)
  {
    if s != [] && !le(s[|s| - 1], x) {
      InsertStaysBelow(le, s[..|s| - 1], x, top);
    }
  }

  lemma {:induction false} InsertKeepsSorted<T(!new)>(le: (T, T) -> bool, s: seq<T>, x: T)
    requires TotalPreorder(le) && Sorted(le, s)
    ensures Sorted(le, Insert(le, s, x))
  {
    if s == [] || le(s[|s| - 1], x) {
      forall i, j | 0 <= i < j < |s| + 1 ensures le((s + [x])[i], (s + [x])[j]) {
        if j == |s| && i < |s| - 1 {
          assert le(s[i], s[|s| - 1]);
        }
      }
    } else {
      var n := |s| - 1;
      InsertKeepsSorted(le, s[..n], x);
      InsertStaysBelow(le, s[..n], x, s[n]);
    }
  }

  lemma {:induction false} SortBySorts<T(!new)>(le: (T, T) -> bool, s: seq<T>)
    requires TotalPreorder(le)
    ensures Sorted(le, SortBy(le, s))
  {
    if s != [] {
      SortBySorts(le, s[..|s| - 1]);
      InsertKeepsSorted(le, SortBy(le, s[..|s| - 1]), s[|s| - 1]);
    }
  }

  /** `s` without its entry `i`. */
  function Without<T>(s: seq<T>, i: nat): (r: seq<T>)
    requires i < |s|
    ensures |r| == |s| - 1
  {
    s[..i] + s[i + 1..]
  }

  lemma WithoutMultiset<T>(s: seq<T>, i: nat)
    requires i < |s|
    ensures multiset(Without(s, i)) == multiset(s) - multiset{s[i]}
  {
    assert s == s[..i] + [s[i]] + s[i + 1..];
    assert multiset(s) == multiset(s[..i]) + multiset{s[i]} + multiset(s[i + 1..]);
  }

  /** How often `x` occurs in `s`. */
  ghost function Occurrences<T>(s: seq<T>, x: T): nat {
    multiset(s)[x]
  }

  lemma OccurrencesConcat<T>(s: seq<T>, t: seq<T>, x: T)
    ensures Occurrences(s + t, x) == Occurrences(s, x) + Occurrences(t, x)
  {
  }

  lemma SameOccurrences<T(!new)>(s: seq<T>, t: seq<T>)
    requires forall x :: Occurrences(s, x) == Occurrences(t, x)
    ensures multiset(s) == multiset(t)
  {
    forall x ensures multiset(s)[x] == multiset(t)[x] {
      assert Occurrences(s, x) == Occurrences(t, x);
    }
  }

  /** In two rearrangements of one list, the last entry of the first is somewhere in the second. */
  lemma FindLast<T>(s: seq<T>, t: seq<T>) returns (i: nat)
    requires multiset(s) == multiset(t) && s != []
    ensures i < |t| && t[i] == s[|s| - 1]
    ensures multiset(s[..|s| - 1]) == multiset(Without(t, i))
  {
    SameMembers(s, t);
    var n := |s| - 1;
    assert s[n] in t;
    i :| 0 <= i < |t| && t[i] == s[n];
    WithoutMultiset(s, n);
    WithoutMultiset(t, i);
    assert Without(s, n) == s[..n];
  }

  lemma DropSameLast<T>(s: seq<T>, t: seq<T>)
    requires multiset(s) == multiset(t) && |s| == |t| > 0 && s[|s| - 1] == t[|t| - 1]
    ensures multiset(s[..|s| - 1]) == multiset(t[..|t| - 1])
  {
    var n := |s| - 1;
    WithoutMultiset(s, n);
    WithoutMultiset(t, n);
    assert Without(s, n) == s[..n] && Without(t, n) == t[..n];
  }

  lemma SortedLast<T(!new)>(le: (T, T) -> bool, s: seq<T>, t: seq<T>, i: nat, j: nat)
    requires Sorted(le, s) && Sorted(le, t) && |s| == |t|
    requires i < |s| && j < |s| && t[i] == s[|s| - 1] && s[j] == t[|s| - 1]
    requires forall x, y :: le(x, y) && le(y, x) ==> x == y
    ensures s[|s| - 1] == t[|s| - 1]
  {
    var n := |s| - 1;
    if i < n && j < n {
      assert le(t[i], t[n]) && le(s[j], s[n]);
    }
  }

  /** In two sorted rearrangements of one list the last entries are the same. */
  lemma SameLast<T(!new)>(le: (T, T) -> bool, s: seq<T>, t: seq<T>)
    requires Sorted(le, s) && Sorted(le, t) && multiset(s) == multiset(t) && s != []
    requires forall x, y :: le(x, y) && le(y, x) ==> x == y
    ensures |s| == |t| && s[|s| - 1] == t[|t| - 1]
  {
    SameMembers(s, t);
    var i := FindLast(s, t);
    var j := FindLast(t, s);
    SortedLast(le, s, t, i, j);
  }

  /** A list has only one sorted rearrangement when the order tells its entries apart. */
  lemma {:induction false} SortedIsUnique<T(!new)>(le: (T, T) -> bool, s: seq<T>, t: seq<T>)
    requires Sorted(le, s) && Sorted(le, t) && multiset(s) == multiset(t)
    requires forall x, y :: le(x, y) && le(y, x) ==> x == y
    ensures s == t
  {
    if s == [] {
      SameMembers(s, t);
    } else {
      SameLast(le, s, t);
      DropSameLast(s, t);
      var n := |s| - 1;
      SortedIsUnique(le, s[..n], t[..n]);
      assert s == s[..n] + [s[n]] && t == t[..n] + [t[n]];
    }
  }

  /** Code point order, Python's comparison of strings. */
  predicate TextLe(a: string, b: string) {
    a == [] || (b != [] && (a[0] < b[0] || (a[0] == b[0] && TextLe(a[1..], b[1..]))))
  }

  lemma {:induction false} TextLeTotal(a: string, b: string)
    ensures TextLe(a, b) || TextLe(b, a)
  {
    if a != [] && b != [] {
      TextLeTotal(a[1..], b[1..]);
    }
  }

  lemma {:induction false} TextLeAntisymmetric(a: string, b: string)
    requires TextLe(a, b) && TextLe(b, a)
    ensures a == b
  {
    if a != [] && b != [] {
      TextLeAntisymmetric(a[1..], b[1..]);
      assert a == [a[0]] + a[1..] && b == [b[0]] + b[1..];
    }
  }

  lemma {:induction false} TextLeTransitive(a: string, b: string, c: string)
    requires TextLe(a, b) && TextLe(b, c)
    ensures TextLe(a, c)
  {
    if a != [] && b[0] == a[0] && c[0] == b[0] {
      TextLeTransitive(a[1..], b[1..], c[1..]);
    }
  }

  /** `a` and `b` agree before place `k`; there `a` ends, or has the smaller character. */
  predicate PartAt(a: string, b: string, k: nat) {
    && k <= |a| && k <= |b| && a[..k] == b[..k]
    && (k == |a| || (k < |b| && a[k] < b[k]))
  }

  ghost predicate InCodePointOrder(a: string, b: string) {
    exists k :: PartAt(a, b, k)
  }

  lemma {:induction false} WherePart(a: string, b: string) returns (k: nat)
    requires TextLe(a, b)
    ensures PartAt(a, b, k)
  {
    if a == [] || a[0] != b[0] {
      k := 0;
    } else {
      var i := WherePart(a[1..], b[1..]);
      k := i + 1;
      assert a[..k] == [a[0]] + a[1..][..i] && b[..k] == [b[0]] + b[1..][..i];
    }
  }

  lemma {:induction false} PartedInOrder(a: string, b: string, k: nat)
    requires PartAt(a, b, k)
    ensures TextLe(a, b)
  {
    if k > 0 {
      assert a[..k][0] == b[..k][0];
      assert a[1..][..k - 1] == a[..k][1..] && b[1..][..k - 1] == b[..k][1..];
      PartedInOrder(a[1..], b[1..], k - 1);
    }
  }

  /** The recursive comparison is the order by the first difference. */
  lemma TextLeIff(a: string, b: string)
    ensures TextLe(a, b) <==> InCodePointOrder(a, b)
  {
    if TextLe(a, b) {
      var k := WherePart(a, b);
    } else if InCodePointOrder(a, b) {
      var k :| PartAt(a, b, k);
      PartedInOrder(a, b, k);
    }
  }

  // ----- stability

  /** The entries of `s` that satisfy `p`, in order. */
  function Filtered<T>(p: T -> bool, s: seq<T>): seq<T> {
    if s == [] then [] else Filtered(p, s[..|s| - 1]) + (if p(s[|s| - 1]) then [s[|s| - 1]] else [])
  }

  lemma FilteredAppend<T>(p: T -> bool, s: seq<T>, x: T)
    ensures Filtered(p, s + [x]) == Filtered(p, s) + (if p(x) then [x] else [])
  {
    assert (s + [x])[..|s|] == s;
  }

  lemma {:induction false} InsertIsStable<T(!new)>(le: (T, T) -> bool, p: T -> bool, s: seq<T>, x: T)
    requires forall y, z :: p(y) && p(z) ==> le(y, z)
    ensures Filtered(p, Insert(le, s, x)) == Filtered(p, s + [x])
  {
    FilteredAppend(p, s, x);
    if s != [] && !le(s[|s| - 1], x) {
      var before, last := s[..|s| - 1], s[|s| - 1];
      InsertIsStable(le, p, before, x);
      FilteredAppend(p, before, x);
      FilteredAppend(p, Insert(le, before, x), last);
    }
  }

  /** Entries that the order does not tell apart stay in the order of the input. */
  lemma {:induction false} SortByIsStable<T(!new)>(le: (T, T) -> bool, p: T -> bool, s: seq<T>)
    requires forall y, z :: p(y) && p(z) ==> le(y, z)
    ensures Filtered(p, SortBy(le, s)) == Filtered(p, s)
  {
    if s != [] {
      var before, last := s[..|s| - 1], s[|s| - 1];
      SortByIsStable(le, p, before);
      InsertIsStable(le, p, SortBy(le, before), last);
      FilteredAppend(p, SortBy(le, before), last);
    }
  }
}
