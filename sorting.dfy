/**
 * sort.Strings: ascending byte-wise order of Go strings. UTF-8 preserves code
 * point order, so comparing the characters of a Dafny string one by one gives
 * the same order as comparing the bytes of its UTF-8 encoding.
 */
module Sorting {

  /** `a <= b` in Go's string order: lexicographic, a proper prefix first. */
  predicate LexLe(a: string, b: string)
    decreases |a|
  {
    |a| == 0 || (|b| > 0 && (a[0] < b[0] || (a[0] == b[0] && LexLe(a[1..], b[1..]))))
  }

  lemma {:induction false} LexLeTotal(a: string, b: string)
    ensures LexLe(a, b) || LexLe(b, a)
    decreases |a|
  {
    if |a| > 0 && |b| > 0 && a[0] == b[0] {
      LexLeTotal(a[1..], b[1..]);
    }
  }

  lemma {:induction false} LexLeRefl(a: string)
    ensures LexLe(a, a)
    decreases |a|
  {
    if |a| > 0 { LexLeRefl(a[1..]); }
  }

  lemma {:induction false} LexLeTrans(a: string, b: string, c: string)
    requires LexLe(a, b) && LexLe(b, c)
    ensures LexLe(a, c)
    decreases |a|
  {
    if |a| > 0 && a[0] == b[0] && b[0] == c[0] {
      LexLeTrans(a[1..], b[1..], c[1..]);
    }
  }

  lemma {:induction false} LexLeAntisym(a: string, b: string)
    requires LexLe(a, b) && LexLe(b, a)
    ensures a == b
    decreases |a|
  {
    if |a| > 0 {
      LexLeAntisym(a[1..], b[1..]);
      assert a == [a[0]] + a[1..] && b == [b[0]] + b[1..];
    }
  }

  /** Every earlier element is at most every later one. */
  predicate Sorted(s: seq<string>)
  {
    forall i, j :: 0 <= i < j < |s| ==> LexLe(s[i], s[j])
  }

  /** Inserts `x` into a sorted sequence before its first larger element. */
  method Insert(s: seq<string>, x: string) returns (r: seq<string>)
    requires Sorted(s)
    ensures Sorted(r)
    ensures multiset(r) == multiset(s) + multiset{x}
  {
    var k := 0;
    while k < |s| && LexLe(s[k], x)
      invariant 0 <= k <= |s|
      invariant forall i :: 0 <= i < k ==> LexLe(s[i], x)
    {
      k := k + 1;
    }
    if k < |s| {
      LexLeTotal(s[k], x);
      forall j | k <= j < |s| ensures LexLe(x, s[j]) {
        if j > k { LexLeTrans(x, s[k], s[j]); }
      }
    }
    r := s[..k] + [x] + s[k..];
    assert s == s[..k] + s[k..];
  }

  /** Insertion sort: a sorted permutation of `s`. */
  method SortStrings(s: seq<string>) returns (r: seq<string>)
    ensures Sorted(r)
    ensures multiset(r) == multiset(s)
  {
    r := [];
    var i := 0;
    while i < |s|
      invariant 0 <= i <= |s|
      invariant Sorted(r)
      invariant multiset(r) == multiset(s[..i])
    {
      r := Insert(r, s[i]);
      assert s[..i + 1] == s[..i] + [s[i]];
      i := i + 1;
    }
    assert s[..i] == s;
  }

  /** A sorted permutation is unique: the sorted listing of a multiset is determined. */
  lemma {:induction false} SortedUnique(a: seq<string>, b: seq<string>)
    requires Sorted(a) && Sorted(b)
    requires multiset(a) == multiset(b)
    ensures a == b
    decreases |a|
  {
    SameSize(a, b);
    if |a| > 0 {
      SortedHeads(a, b);
      TailMultiset(a);
      TailMultiset(b);
      SortedUnique(a[1..], b[1..]);
      HeadTailEqual(a, b);
    }
  }

  lemma SameSize<T>(a: seq<T>, b: seq<T>)
    requires multiset(a) == multiset(b)
    ensures |a| == |b|
  {
    assert |a| == |multiset(a)| && |b| == |multiset(b)|;
  }

  /** Two sorted permutations start with the same, smallest, element. */
  lemma SortedHeads(a: seq<string>, b: seq<string>)
    requires Sorted(a) && Sorted(b)
    requires multiset(a) == multiset(b) && |a| > 0 && |b| > 0
    ensures a[0] == b[0]
  {
    assert a[0] in multiset(b) && b[0] in multiset(a);
    var i :| 0 <= i < |b| && b[i] == a[0];
    var j :| 0 <= j < |a| && a[j] == b[0];
    LexLeRefl(a[0]);
    LexLeRefl(b[0]);
    assert LexLe(b[0], b[i]);
    assert LexLe(a[0], a[j]);
    LexLeAntisym(a[0], b[0]);
  }

  lemma TailMultiset<T>(a: seq<T>)
    requires |a| > 0
    ensures multiset(a[1..]) == multiset(a) - multiset{a[0]}
  {
    assert a == [a[0]] + a[1..];
  }

  lemma HeadTailEqual<T>(a: seq<T>, b: seq<T>)
    requires |a| > 0 && |b| > 0 && a[0] == b[0] && a[1..] == b[1..]
    ensures a == b
  {
    assert a == [a[0]] + a[1..] && b == [b[0]] + b[1..];
  }
}
