/** `Array.prototype.filter` on sequences, and what it guarantees: the
    result is the order-preserving subsequence of the elements that pass
    the test, and a test and its negation split the input between them. */
module SeqFilter {

  /** `a` can be obtained from `b` by deleting elements, keeping the order
      of the rest: either `b`'s first element is matched by `a`'s first,
      or it is one of the deleted ones. */
  predicate IsSubsequence<T(==)>(a: seq<T>, b: seq<T>)
    decreases |b|
  {
    if b == [] then a == []
    else (a != [] && a[0] == b[0] && IsSubsequence(a[1..], b[1..])) || IsSubsequence(a, b[1..])
  }

  /** The elements of `s` for which `keep` holds, in their original order. */
  function Keep<T>(s: seq<T>, keep: T -> bool): seq<T>
  {
    if s == [] then []
    else if keep(s[0]) then [s[0]] + Keep(s[1..], keep)
    else Keep(s[1..], keep)
  }

  /** Filtering yields an order-preserving subsequence of its input. */
  lemma {:induction false} KeepIsSubsequence<T>(s: seq<T>, keep: T -> bool)
    ensures IsSubsequence(Keep(s, keep), s)
  {
    if s != [] {
      KeepIsSubsequence(s[1..], keep);
      if keep(s[0]) {
        assert ([s[0]] + Keep(s[1..], keep))[1..] == Keep(s[1..], keep);
      }
    }
  }

  /** An element survives filtering exactly when it occurs in the input and
      passes the test. */
  lemma {:induction false} KeepMembership<T>(s: seq<T>, keep: T -> bool)
    ensures forall x :: x in Keep(s, keep) <==> x in s && keep(x)
  {
    if s != [] {
      KeepMembership(s[1..], keep);
      assert forall x :: x in s <==> x == s[0] || x in s[1..];
    }
  }

  /** Filtering with a test and with its negation splits the input: the two
      lengths add up to the input's length and the two results together hold
      each element exactly as often as the input does. */
  lemma {:induction false} KeepSplit<T>(s: seq<T>, keep: T -> bool, drop: T -> bool)
    requires forall x :: drop(x) == !keep(x)
    ensures |Keep(s, keep)| + |Keep(s, drop)| == |s|
    ensures multiset(Keep(s, keep)) + multiset(Keep(s, drop)) == multiset(s)
  {
    if s != [] {
      KeepSplit(s[1..], keep, drop);
      assert s == [s[0]] + s[1..];
    }
  }

  /** Filtering leaves the input as it is exactly when every element passes
      the test. */
  lemma {:induction false} KeepUnchanged<T>(s: seq<T>, keep: T -> bool)
    ensures Keep(s, keep) == s <==> forall i :: 0 <= i < |s| ==> keep(s[i])
  {
    if s != [] {
      KeepUnchanged(s[1..], keep);
      KeepIsShorter(s[1..], keep);
      assert forall i :: 1 <= i < |s| ==> s[i] == s[1..][i - 1];
    }
  }

  /** Filtering never lengthens its input. */
  lemma {:induction false} KeepIsShorter<T>(s: seq<T>, keep: T -> bool)
    ensures |Keep(s, keep)| <= |s|
  {
    if s != [] {
      KeepIsShorter(s[1..], keep);
    }
  }

  /** Filtering twice with the same test is filtering once. */
  lemma KeepIdempotent<T>(s: seq<T>, keep: T -> bool)
    ensures Keep(Keep(s, keep), keep) == Keep(s, keep)
  {
    var r := Keep(s, keep);
    KeepMembership(s, keep);
    KeepUnchanged(r, keep);
    assert forall i :: 0 <= i < |r| ==> r[i] in r;
  }
}
