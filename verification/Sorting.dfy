/** The C library's qsort: some permutation in order, with no promise about equal keys. */
module Sorting {

  ghost predicate SortedBy<T>(s: seq<T>, key: T -> real) {
    forall i, j :: 0 <= i < j < |s| ==> key(s[i]) <= key(s[j])
  }

  lemma InsertKeepsSorted<T>(a: seq<T>, x: T, b: seq<T>, key: T -> real)
    requires SortedBy(a, key) && SortedBy(b, key)
    requires forall j :: 0 <= j < |a| ==> key(a[j]) <= key(x)
    requires forall j :: 0 <= j < |b| ==> key(x) <= key(b[j])
    ensures SortedBy(a + [x] + b, key)
  {
    var r := a + [x] + b;
    forall i, j | 0 <= i < j < |r| ensures key(r[i]) <= key(r[j]) {
      if j < |a| {
        assert r[i] == a[i] && r[j] == a[j];
      } else if |a| < i {
        assert r[i] == b[i - |a| - 1] && r[j] == b[j - |a| - 1];
      }
    }
  }

  lemma SplitSorted<T>(s: seq<T>, i: nat, x: T, key: T -> real)
    requires SortedBy(s, key) && i <= |s| && (i == 0 || key(s[i - 1]) <= key(x))
    ensures SortedBy(s[..i], key) && SortedBy(s[i..], key)
    ensures forall j :: 0 <= j < i ==> key(s[..i][j]) <= key(x)
  {
    forall j | 0 <= j < i ensures key(s[j]) <= key(x) {
      assert j == i - 1 || key(s[j]) <= key(s[i - 1]);
    }
  }

  lemma InsertPermutes<T>(s: seq<T>, i: nat, x: T)
    requires i <= |s|
    ensures multiset(s[..i] + [x] + s[i..]) == multiset(s) + multiset{x}
  {
    assert s == s[..i] + s[i..];
  }

  method InsertSorted<T>(s: seq<T>, x: T, key: T -> real) returns (r: seq<T>)
    requires SortedBy(s, key)
    ensures multiset(r) == multiset(s) + multiset{x} && SortedBy(r, key)
  {
    var i := |s|;
    while 0 < i && key(x) < key(s[i - 1])
      invariant 0 <= i <= |s|
      invariant forall j :: i <= j < |s| ==> key(x) <= key(s[j])
    {
      i := i - 1;
    }
    r := s[..i] + [x] + s[i..];
    SplitSorted(s, i, x, key);
    InsertKeepsSorted(s[..i], x, s[i..], key);
    InsertPermutes(s, i, x);
  }

  method QSort<T>(s: seq<T>, key: T -> real) returns (r: seq<T>)
    ensures multiset(r) == multiset(s) && SortedBy(r, key)
  {
    r := [];
    for i := 0 to |s|
      invariant multiset(r) == multiset(s[..i]) && SortedBy(r, key)
    {
      r := InsertSorted(r, s[i], key);
      assert s[..i + 1] == s[..i] + [s[i]];
    }
    assert s[..|s|] == s;
  }
}
