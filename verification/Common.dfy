/** Option, bytes, and the facts about finite sets that the other modules share. */
module Common {

  datatype Option<+T> = None | Some(value: T)

  type Byte = b: int | 0 <= b < 256
  type Bytes = seq<Byte>

  function Min(a: int, b: int): int { if a <= b then a else b }

  function Max(a: int, b: int): int { if a >= b then a else b }

  lemma SubsetCard<T>(a: set<T>, b: set<T>)
    requires a <= b
    ensures |a| <= |b|
    ensures |a| == |b| ==> a == b
  {
    assert b == a + (b - a);
    assert |b| == |a| + |b - a|;
  }

  lemma DisjointCard<T>(a: set<T>, b: set<T>)
    requires a !! b
    ensures |a + b| == |a| + |b|
  {
  }

  /** What is taken away counts only as far as it was there. */
  lemma MinusCard<T>(a: set<T>, b: set<T>)
    ensures |a - b| == |a| - |a * b|
  {
    assert a == (a - b) + (a * b);
    DisjointCard(a - b, a * b);
  }

  /** The first k numbers. */
  function Below(k: nat): (r: set<nat>)
    ensures |r| == k && forall x: nat :: x in r <==> x < k
  {
    if k == 0 then {} else Below(k - 1) + {k - 1}
  }
}
