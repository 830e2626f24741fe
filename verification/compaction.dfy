/** Removing the elements that satisfy a predicate while keeping the order of
    the rest: Ruby's `Array#reject` and Swift's `Array.remove(where:)`. */
module Compaction {

  /** The elements of `s` that do not satisfy `p`, in their original order. */
  function Reject<T(==)>(s: seq<T>, p: T -> bool): (r: seq<T>)
    ensures |r| <= |s|
    ensures forall i :: 0 <= i < |r| ==> r[i] in s && !p(r[i])
    ensures forall i :: 0 <= i < |s| && !p(s[i]) ==> s[i] in r
  {
    if |s| == 0 then []
    else if p(s[0]) then Reject(s[1..], p)
    else [s[0]] + Reject(s[1..], p)
  }

  /** Number of elements of `s` that satisfy `p`. */
  function CountWhere<T>(s: seq<T>, p: T -> bool): (n: nat)
    ensures n <= |s|
  {
    if |s| == 0 then 0
    else (if p(s[0]) then 1 else 0) + CountWhere(s[1..], p)
  }

  /** `r` can be obtained from `s` by deleting elements (order kept). */
  predicate IsSubsequence<T(==)>(r: seq<T>, s: seq<T>)
    decreases |s|
  {
    if |s| == 0 then |r| == 0
    else (|r| > 0 && r[0] == s[0] && IsSubsequence(r[1..], s[1..]))
         || IsSubsequence(r, s[1..])
  }

  /** What is left is an order-preserving subsequence of the input. */
  lemma {:induction false} RejectIsSubsequence<T>(s: seq<T>, p: T -> bool)
    ensures IsSubsequence(Reject(s, p), s)
    decreases |s|
  {
    if |s| > 0 {
      RejectIsSubsequence(s[1..], p);
      if !p(s[0]) {
        assert Reject(s, p)[1..] == Reject(s[1..], p);
      }
    }
  }

  /** Exactly the elements satisfying `p` are dropped. */
  lemma {:induction false} RejectLength<T>(s: seq<T>, p: T -> bool)
    ensures |Reject(s, p)| == |s| - CountWhere(s, p)
    decreases |s|
  {
    if |s| > 0 {
      RejectLength(s[1..], p);
    }
  }

  /** Rejecting distributes over concatenation. */
  lemma {:induction false} RejectAppend<T>(a: seq<T>, b: seq<T>, p: T -> bool)
    ensures Reject(a + b, p) == Reject(a, p) + Reject(b, p)
    decreases |a|
  {
    if |a| == 0 {
      assert a + b == b;
    } else {
      assert (a + b)[1..] == a[1..] + b;
      RejectAppend(a[1..], b, p);
    }
  }

  /** When nothing satisfies `p`, nothing is removed. */
  lemma {:induction false} RejectNothingMatches<T>(s: seq<T>, p: T -> bool)
    requires forall i :: 0 <= i < |s| ==> !p(s[i])
    ensures Reject(s, p) == s
    decreases |s|
  {
    if |s| > 0 {
      RejectNothingMatches(s[1..], p);
      assert [s[0]] + s[1..] == s;
    }
  }

  /** Removing twice removes nothing more than removing once. */
  lemma RejectIdempotent<T>(s: seq<T>, p: T -> bool)
    ensures Reject(Reject(s, p), p) == Reject(s, p)
  {
    RejectNothingMatches(Reject(s, p), p);
  }

  /** Swift's `remove(where:)`: compacts the kept elements to the front of a
      copy of the array with a write cursor `dst`, then cuts the tail. */
  method RemoveWhere<T(==)>(a: seq<T>, p: T -> bool) returns (r: seq<T>)
    ensures r == Reject(a, p)
    ensures |r| == |a| - CountWhere(a, p)
    ensures forall i :: 0 <= i < |r| ==> !p(r[i])
  {
    var buf := a;
    var dst := 0;
    for src := 0 to |a|
      invariant dst <= src
      invariant |buf| == |a|
      invariant buf[..dst] == Reject(a[..src], p)
      invariant buf[src..] == a[src..]
    {
      var before := buf;
      var elem := buf[src];
      assert elem == a[src];
      assert a[..src + 1] == a[..src] + [elem];
      RejectAppend(a[..src], [elem], p);
      if !p(elem) {
        buf := buf[dst := elem];
        dst := dst + 1;
        assert buf[..dst] == buf[..dst - 1] + [elem];
      }
      assert buf[src + 1..] == before[src + 1..];
      assert before[src + 1..] == before[src..][1..];
      assert a[src + 1..] == a[src..][1..];
    }
    assert a[..|a|] == a;
    r := buf[..dst];
    RejectLength(a, p);
  }
}
