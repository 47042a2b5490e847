/** Order-preserving filtering, the shape of every "append what passes" loop in the handlers, and small sequence identities. */
module Seqs {
  /** The elements of `s` that `keep` accepts, in their original order. */
  function Filter<T>(s: seq<T>, keep: T -> bool): seq<T>
  {
    if |s| == 0 then []
    else if keep(s[|s| - 1]) then Filter(s[..|s| - 1], keep) + [s[|s| - 1]]
    else Filter(s[..|s| - 1], keep)
  }

  /** An element survives exactly when it was there and is accepted. */
  lemma {:induction false} FilterMembers<T>(s: seq<T>, keep: T -> bool)
    ensures forall x :: x in Filter(s, keep) <==> x in s && keep(x)
  {
    if |s| > 0 {
      FilterMembers(s[..|s| - 1], keep);
      assert s == s[..|s| - 1] + [s[|s| - 1]];
    }
  }

  /** Filtering distributes over concatenation, so relative order is kept. */
  lemma {:induction false} FilterAppend<T>(a: seq<T>, b: seq<T>, keep: T -> bool)
    ensures Filter(a + b, keep) == Filter(a, keep) + Filter(b, keep)
    decreases |b|
  {
    if |b| == 0 {
      assert a + b == a;
    } else {
      FilterAppend(a, b[..|b| - 1], keep);
      assert (a + b)[..|a + b| - 1] == a + b[..|b| - 1];
    }
  }

  /** When everything is accepted, nothing is dropped. */
  lemma {:induction false} FilterAll<T>(s: seq<T>, keep: T -> bool)
    requires forall i :: 0 <= i < |s| ==> keep(s[i])
    ensures Filter(s, keep) == s
  {
    if |s| > 0 {
      FilterAll(s[..|s| - 1], keep);
      assert s == s[..|s| - 1] + [s[|s| - 1]];
    }
  }

  /** When nothing is accepted, nothing is kept. */
  lemma {:induction false} FilterNone<T>(s: seq<T>, keep: T -> bool)
    requires forall i :: 0 <= i < |s| ==> !keep(s[i])
    ensures Filter(s, keep) == []
  {
    if |s| > 0 {
      FilterNone(s[..|s| - 1], keep);
    }
  }

  /** One more loop iteration: the prefix filter grows by the next element iff it is accepted. */
  lemma FilterStep<T>(s: seq<T>, i: int, keep: T -> bool)
    requires 0 <= i < |s|
    ensures Filter(s[..i + 1], keep) == Filter(s[..i], keep) + (if keep(s[i]) then [s[i]] else [])
  {
    assert s[..i + 1][..i] == s[..i];
  }

  /** Appending at the back commutes with taking the head off the front. */
  lemma AppendUncons<T>(s: seq<T>, x: T)
    requires |s| > 0
    ensures s + [x] == [s[0]] + (s[1..] + [x])
  {
    assert s == [s[0]] + s[1..];
  }

  /** A sequence is what comes before position k, the element at k, and what comes after. */
  lemma SplitAt<T>(s: seq<T>, k: int)
    requires 0 <= k < |s|
    ensures s == s[..k] + [s[k]] + s[k + 1..]
  {
  }

  /** Two sequences with the same head, whose tails differ by one last element, differ by it too. */
  lemma ConsSnocEq<T>(x: T, a: seq<T>, b: seq<T>, whole: seq<T>, longer: seq<T>, y: T)
    requires whole == [x] + a && longer == [x] + b && b == a + [y]
    ensures longer == whole + [y]
  {
  }

  /** Three pieces with a separator between each: regrouped to the right. */
  lemma JoinThree<T>(a: seq<T>, b: seq<T>, d: seq<T>, c: T)
    ensures a + [c] + b + [c] + d == a + [c] + (b + [c] + d)
  {
  }

  /** Inserting at index |s| (Go's slices.Insert at the length) is appending. */
  lemma InsertAtEnd<T>(s: seq<T>, i: int, x: T)
    requires i == |s|
    ensures s[..i] + [x] + s[i..] == s + [x]
  {
    assert s[..i] == s && s[i..] == [];
  }

  lemma AppendAssoc<T>(a: seq<T>, b: seq<T>, c: seq<T>)
    ensures a + (b + c) == a + b + c
  {
  }

  /** The positions of a sequence between a first and a last element. */
  lemma Framed<T>(h: T, s: seq<T>, z: T)
    ensures |[h] + s + [z]| == |s| + 2
    ensures ([h] + s + [z])[0] == h && ([h] + s + [z])[|s| + 1] == z
    ensures forall i :: 0 <= i < |s| ==> ([h] + s + [z])[i + 1] == s[i]
  {
  }

  /** An element on each side of a middle part, between two outer parts: regrouped outward. */
  lemma Bracketed<T>(a: seq<T>, x: T, s: seq<T>, b: seq<T>)
    ensures a + ([x] + s + [x]) + b == (a + [x]) + s + ([x] + b)
  {
  }
}
