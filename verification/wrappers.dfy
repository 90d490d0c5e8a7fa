/** The optional value used wherever the renderer returns an `Option`. */
module Wrappers {

  datatype Option<+T> = None | Some(value: T) {

    /** Returns the value carried by `Some`, or `default` for `None`. */
    function GetOr(default: T): T {
      match this
      case Some(v) => v
      case None => default
    }
  }

  lemma ConcatAssoc<T>(a: seq<T>, b: seq<T>, c: seq<T>)
    ensures a + b + c == a + (b + c)
  {
  }

  /** A slice that ends inside the left operand of a concatenation is a slice of that operand. */
  lemma SliceOfLeft<T>(a: seq<T>, b: seq<T>, i: nat, j: nat)
    requires i <= j <= |a|
    ensures (a + b)[i .. j] == a[i .. j]
  {
  }

  /** The right operand of a concatenation is the slice after the left one. */
  lemma SliceOfRight<T>(a: seq<T>, b: seq<T>)
    ensures (a + b)[|a| .. |a| + |b|] == b
  {
  }

  /** Position k of a slice equal to f is position k of f. */
  lemma SliceIndex<T>(s: seq<T>, f: seq<T>, i: nat, k: nat)
    requires i + |f| <= |s| && s[i .. i + |f|] == f && k < |f|
    ensures s[i + k] == f[k]
  {
    assert s[i .. i + |f|][k] == s[i + k];
  }
}
