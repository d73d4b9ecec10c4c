/** Shared datatypes and facts about sequences and sets. */
module Prelude {

  datatype Option<+T> = None | Some(value: T)

  lemma Regroup<T>(a: seq<T>, b: seq<T>, c: seq<T>)
    ensures a + (b + c) == a + b + c
  {
  }

  /** Two exchanges in a row: what is put in behind comes out in front. */
  lemma Chained<T>(p: seq<T>, a: seq<T>, b: seq<T>, t: seq<T>, q: seq<T>, u: seq<T>, r: seq<T>)
    requires p + a == t + q && q + b == u + r
    ensures p + (a + b) == (t + u) + r
  {
    Regroup(p, a, b);
    Regroup(t, q, b);
    Regroup(t, u, r);
  }

  lemma SubsetSize<T>(a: set<T>, b: set<T>)
    requires a <= b
    ensures |a| <= |b|
  {
    assert b == a + (b - a);
  }
}
