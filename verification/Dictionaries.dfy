/** Dictionaries with text keys that keep the order in which keys were first set. */
module Dictionaries {

  type Dict<V> = seq<(string, V)>

  /** Setting a key keeps its place, or appends it when it is new. */
  function Put<V>(d: Dict<V>, key: string, v: V): Dict<V> {
    if d == [] then [(key, v)]
    else if d[0].0 == key then [(key, v)] + d[1..]
    else [d[0]] + Put(d[1..], key, v)
  }

  predicate HasKey<V>(d: Dict<V>, key: string) {
    d != [] && (d[0].0 == key || HasKey(d[1..], key))
  }

  /** What is stored under a key, or `other` when nothing is. */
  function Get<V>(d: Dict<V>, key: string, other: V): V {
    if d == [] then other else if d[0].0 == key then d[0].1 else Get(d[1..], key, other)
  }

  /** A measure summed over a dictionary. */
  function SumOver<V>(d: Dict<V>, w: V -> int): int {
    if d == [] then 0 else w(d[0].1) + SumOver(d[1..], w)
  }

  /** The measure of what is stored under a key, zero when nothing is. */
  function At<V>(d: Dict<V>, key: string, w: V -> int): int {
    if d == [] then 0 else if d[0].0 == key then w(d[0].1) else At(d[1..], key, w)
  }

  /** Every key is there once. */
  predicate OneOfEach<V>(d: Dict<V>) {
    d == [] || (!HasKey(d[1..], d[0].0) && OneOfEach(d[1..]))
  }

  /** Setting a key takes the old value out of a sum and puts the new one in. */
  lemma {:induction false} PutSums<V>(d: Dict<V>, key: string, v: V, w: V -> int)
    ensures SumOver(Put(d, key, v), w) + At(d, key, w) == SumOver(d, w) + w(v)
    ensures |Put(d, key, v)| == |d| + if HasKey(d, key) then 0 else 1
    ensures !HasKey(d, key) ==> At(d, key, w) == 0
  {
    if d != [] && d[0].0 != key { PutSums(d[1..], key, v, w); }
  }

  /** Setting a key changes that key only. */
  lemma {:induction false} PutLooks<V>(d: Dict<V>, key: string, v: V, w: V -> int, k: string)
    ensures HasKey(Put(d, key, v), k) <==> HasKey(d, k) || k == key
    ensures At(Put(d, key, v), k, w) == if k == key then w(v) else At(d, k, w)
  {
    if d != [] && d[0].0 != key { PutLooks(d[1..], key, v, w, k); }
  }

  lemma {:induction false} PutGets<V>(d: Dict<V>, key: string, v: V, k: string, other: V)
    ensures Get(Put(d, key, v), k, other) == if k == key then v else Get(d, k, other)
  {
    if d != [] && d[0].0 != key { PutGets(d[1..], key, v, k, other); }
  }

  lemma {:induction false} PutKeepsOne<V>(d: Dict<V>, key: string, v: V)
    requires OneOfEach(d)
    ensures OneOfEach(Put(d, key, v))
  {
    if d != [] && d[0].0 != key {
      PutKeepsOne(d[1..], key, v);
      PutLooks(d[1..], key, v, _ => 0, d[0].0);
    }
  }

  lemma {:induction false} GetMeasured<V>(d: Dict<V>, key: string, other: V, w: V -> int)
    requires w(other) == 0
    ensures At(d, key, w) == w(Get(d, key, other))
  {
    if d != [] && d[0].0 != key { GetMeasured(d[1..], key, other, w); }
  }

  lemma {:induction false} SumSnoc<V>(d: Dict<V>, p: (string, V), w: V -> int)
    ensures SumOver(d + [p], w) == SumOver(d, w) + w(p.1)
  {
    if d == [] {
      assert ([] + [p])[1..] == [];
    } else {
      assert (d + [p])[1..] == d[1..] + [p];
      SumSnoc(d[1..], p, w);
    }
  }
}
