/** Some sorted permutation; nothing else is promised about the order of equal keys. */
module Sorting {

  ghost predicate SortedBy<T>(s: seq<T>, key: T -> real) {
    forall i, j | 0 <= i < j < |s| :: key(s[i]) <= key(s[j])
  }

  method Sort<T>(s: seq<T>, key: T -> real) returns (r: seq<T>)
    ensures SortedBy(r, key) && multiset(r) == multiset(s) && |r| == |s|
  {
    r := [];
    for i := 0 to |s|
      invariant SortedBy(r, key) && multiset(r) == multiset(s[..i]) && |r| == i
    {
      var before := r;
      r := Inserted(r, s[i], key);
      assert s[..i + 1] == s[..i] + [s[i]];
    }
    assert s[..|s|] == s;
  }

  method Inserted<T>(s: seq<T>, x: T, key: T -> real) returns (r: seq<T>)
    requires SortedBy(s, key)
    ensures SortedBy(r, key) && multiset(r) == multiset(s) + multiset{x} && |r| == |s| + 1
  {
    var n := 0;
    while n < |s| && key(s[n]) <= key(x)
      invariant n <= |s| && forall i | 0 <= i < n :: key(s[i]) <= key(x)
    {
      n := n + 1;
    }
    r := s[..n] + [x] + s[n..];
    InsertionSorts(s, n, x, key);
  }

  lemma InsertionSorts<T>(s: seq<T>, n: nat, x: T, key: T -> real)
    requires SortedBy(s, key) && n <= |s|
    requires forall i | 0 <= i < n :: key(s[i]) <= key(x)
    requires n < |s| ==> key(x) <= key(s[n])
    ensures var r := s[..n] + [x] + s[n..];
            SortedBy(r, key) && multiset(r) == multiset(s) + multiset{x}
  {
    assert s == s[..n] + s[n..];
    var r := s[..n] + [x] + s[n..];
    forall i, j | 0 <= i < j < |r| ensures key(r[i]) <= key(r[j]) {
      if j > n {
        assert r[j] == s[j - 1] && key(x) <= key(s[j - 1]);
      }
    }
  }

  /** Where `x` belongs in a sorted sequence. */
  lemma {:induction false} Place<T>(s: seq<T>, n: nat, x: T, key: T -> real) returns (m: nat)
    requires n <= |s| && forall i | 0 <= i < n :: key(s[i]) <= key(x)
    ensures m <= |s| && (forall i | 0 <= i < m :: key(s[i]) <= key(x))
    ensures m < |s| ==> key(x) < key(s[m])
    decreases |s| - n
  {
    if n < |s| && key(s[n]) <= key(x) {
      m := Place(s, n + 1, x, key);
    } else {
      m := n;
    }
  }

  lemma {:induction false} SortedPermutationExists<T>(s: seq<T>, key: T -> real) returns (r: seq<T>)
    ensures SortedBy(r, key) && multiset(r) == multiset(s)
    decreases |s|
  {
    if s == [] {
      r := [];
    } else {
      var front, x := s[..|s| - 1], s[|s| - 1];
      var rest := SortedPermutationExists(front, key);
      var n := Place(rest, 0, x, key);
      InsertionSorts(rest, n, x, key);
      r := rest[..n] + [x] + rest[n..];
      assert s == front + [x];
    }
  }
}
