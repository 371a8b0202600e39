/**
  Python dictionaries remember insertion order, and the block builder, the
  CFG builder and the re-linearisation all depend on that order.  A
  dictionary is therefore modelled as a sequence of (key, value) entries.
  Assigning to a key that is present replaces its value where it stands;
  assigning to a new key appends an entry at the end.
 */
module OrderedMap {
  import opened Common

  type ODict<K, V> = seq<(K, V)>

  function Keys<K, V>(m: ODict<K, V>): (ks: seq<K>)
    ensures |ks| == |m|
    ensures forall i :: 0 <= i < |m| ==> ks[i] == m[i].0
  {
    seq(|m|, i requires 0 <= i < |m| => m[i].0)
  }

  function Values<K, V>(m: ODict<K, V>): (vs: seq<V>)
    ensures |vs| == |m|
    ensures forall i :: 0 <= i < |m| ==> vs[i] == m[i].1
  {
    seq(|m|, i requires 0 <= i < |m| => m[i].1)
  }

  /** The representation invariant of a dictionary: every key occurs once. */
  predicate DistinctKeys<K(==), V>(m: ODict<K, V>) {
    forall i, j :: 0 <= i < j < |m| ==> m[i].0 != m[j].0
  }

  /** Position of the first entry whose key is k. */
  function IndexOf<K(==), V>(m: ODict<K, V>, k: K): (i: nat)
    requires k in Keys(m)
    ensures i < |m| && m[i].0 == k
    ensures forall j :: 0 <= j < i ==> m[j].0 != k
    decreases |m|
  {
    if m[0].0 == k then 0
    else
      assert Keys(m) == [m[0].0] + Keys(m[1..]);
      1 + IndexOf(m[1..], k)
  }

  /** The first position holding key k is unique. */
  lemma IndexOfIs<K, V>(m: ODict<K, V>, k: K, i: nat)
    requires i < |m| && m[i].0 == k
    requires forall j :: 0 <= j < i ==> m[j].0 != k
    ensures k in Keys(m) && IndexOf(m, k) == i
  {
    assert Keys(m)[i] == k;
  }

  /** `m.get(k)`: the value of the entry with key k. */
  function Get<K(==), V>(m: ODict<K, V>, k: K): Option<V> {
    if k in Keys(m) then Some(m[IndexOf(m, k)].1) else None
  }

  /** `m.get(k, d)`. */
  function GetOr<K(==), V>(m: ODict<K, V>, k: K, d: V): V {
    match Get(m, k)
    case Some(v) => v
    case None => d
  }

  /** `m[k] = v` on an insertion-ordered dictionary. */
  function Put<K(==,!new), V>(m: ODict<K, V>, k: K, v: V): (r: ODict<K, V>)
    ensures Get(r, k) == Some(v)
    ensures forall k' :: k' != k ==> Get(r, k') == Get(m, k')
    ensures k in Keys(m) ==> Keys(r) == Keys(m)
    ensures k !in Keys(m) ==> r == m + [(k, v)]
    ensures forall k' :: k' in Keys(r) <==> k' in Keys(m) || k' == k
    ensures DistinctKeys(m) ==> DistinctKeys(r)
  {
    if k in Keys(m) then
      var r := m[IndexOf(m, k) := (k, v)];
      assert Keys(r) == Keys(m);
      forall k' | k' in Keys(m) ensures IndexOf(r, k') == IndexOf(m, k') {
        IndexOfIs(r, k', IndexOf(m, k'));
      }
      r
    else
      var r := m + [(k, v)];
      assert Keys(r) == Keys(m) + [k];
      forall k' | k' in Keys(m) ensures IndexOf(r, k') == IndexOf(m, k') {
        IndexOfIs(r, k', IndexOf(m, k'));
      }
      IndexOfIs(r, k, |m|);
      r
  }

  /** Assigns every entry of xs, left to right, as a loop of `m[k] = v` does. */
  function PutAll<K(==,!new), V>(m: ODict<K, V>, xs: seq<(K, V)>): ODict<K, V>
    decreases |xs|
  {
    if |xs| == 0 then m
    else Put(PutAll(m, xs[..|xs| - 1]), xs[|xs| - 1].0, xs[|xs| - 1].1)
  }

  /** When no key repeats, filling an empty dictionary loses nothing. */
  lemma {:induction false} PutAllDistinct<K(!new), V>(xs: seq<(K, V)>)
    requires DistinctKeys(xs)
    ensures PutAll([], xs) == xs
    decreases |xs|
  {
    if |xs| > 0 {
      var init := xs[..|xs| - 1];
      PutAllDistinct(init);
      var k := xs[|xs| - 1].0;
      assert k !in Keys(init) by {
        forall i | 0 <= i < |init| ensures Keys(init)[i] != k {
          assert init[i] == xs[i];
        }
      }
      var last := xs[|xs| - 1];
      assert PutAll([], xs) == Put(init, last.0, last.1);
      assert init + [last] == xs;
    }
  }

  /** In a dictionary, the entry at position i is what a lookup of its key finds. */
  lemma {:induction false} GetAt<K, V>(m: ODict<K, V>, i: nat)
    requires DistinctKeys(m)
    requires i < |m|
    ensures Get(m, m[i].0) == Some(m[i].1)
    decreases i
  {
    if i > 0 {
      assert m[1..][i - 1] == m[i];
      GetAt(m[1..], i - 1);
    }
  }
}
