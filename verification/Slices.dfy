/** Facts about sequences, kept apart so that proofs can cite them instead of rederiving them. */
module Slices {

  lemma Assoc<T>(a: seq<T>, b: seq<T>, c: seq<T>)
    ensures a + (b + c) == a + b + c
  {
  }

  lemma Nothing<T>(a: seq<T>)
    ensures a + [] == a && [] + a == a
  {
  }

  /** Taking the front of a concatenation apart again. */
  lemma Front<T>(a: seq<T>, b: seq<T>)
    ensures (a + b)[..|a|] == a && (a + b)[|a|..] == b
  {
  }

  /** s with v written over it from index i on. */
  function Splice<T>(s: seq<T>, i: nat, v: seq<T>): (r: seq<T>)
    requires i + |v| <= |s|
    ensures |r| == |s| && r[i..i + |v|] == v
    ensures r[..i] == s[..i] && r[i + |v|..] == s[i + |v|..]
  {
    s[..i] + v + s[i + |v|..]
  }

  /** Writing on where the last writing ended. */
  lemma SpliceMore<T>(s: seq<T>, i: nat, v: seq<T>, j: nat, w: seq<T>)
    requires j == i + |v| && j + |w| <= |s|
    ensures Splice(Splice(s, i, v), j, w) == Splice(s, i, v + w)
  {
  }

  /** A nonempty sequence is a front and a last in one way. */
  lemma SameLast<T>(a: seq<T>, x: T, b: seq<T>, y: T)
    requires a + [x] == b + [y]
    ensures a == b && x == y
  {
    assert (a + [x])[..|a|] == a && (b + [y])[..|b|] == b;
    assert (a + [x])[|a|] == x && (b + [y])[|b|] == y;
  }

  lemma SameFront<T>(a: seq<T>, b: seq<T>, n: nat, k: nat)
    requires n < |a| && n < |b| && k == n + 1 && a[..n] == b[..n] && a[n] == b[n]
    ensures a[..k] == b[..k]
  {
    assert a[..k] == a[..n] + [a[n]] && b[..k] == b[..n] + [b[n]];
  }

  /** The last of a moves over to b. */
  lemma LastOver<T>(a: seq<T>, b: seq<T>)
    requires a != []
    ensures a + b == a[..|a| - 1] + ([a[|a| - 1]] + b)
  {
  }

  lemma FirstOver<T>(a: seq<T>, b: seq<T>)
    requires a != []
    ensures a + b == [a[0]] + (a[1..] + b)
  {
  }

  lemma Longer<T>(a: seq<T>, b: seq<T>, c: seq<T>)
    requires b < c
    ensures a + b < a + c
  {
  }

  lemma InThree<T>(s: seq<T>, i: nat, k: nat)
    requires i <= k <= |s|
    ensures s == s[..i] + (s[i..k] + s[k..])
  {
  }

  /** A slice that lies in b. */
  lemma CutLater<T>(a: seq<T>, b: seq<T>, i: nat, j: nat)
    requires i <= j <= |b|
    ensures (a + b)[|a| + i..|a| + j] == b[i..j]
  {
  }

  /** A slice of a slice. */
  lemma Inner<T>(s: seq<T>, lo: nat, hi: nat, i: nat, j: nat)
    requires lo <= hi <= |s| && i <= j <= hi - lo
    ensures s[lo..hi][i..j] == s[lo + i..lo + j]
  {
    var a, b := s[lo..hi][i..j], s[lo + i..lo + j];
    assert |a| == |b| && forall k :: 0 <= k < |a| ==> a[k] == b[k];
  }

  /** Cutting inside b. */
  lemma CutSecond<T>(a: seq<T>, b: seq<T>, c: seq<T>, n: nat)
    requires n <= |b|
    ensures a + (b + c) == (a + b[..n]) + (b[n..] + c)
    ensures (a + b)[..|a| + n] == a + b[..n]
  {
  }

  /** Cutting inside a. */
  lemma CutFirst<T>(a: seq<T>, b: seq<T>, c: seq<T>, n: nat)
    requires n <= |a|
    ensures a + (b + c) == a[..n] + (a[n..] + (b + c))
    ensures (a + b)[..n] == a[..n]
  {
  }
}
