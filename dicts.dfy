/** A Python dict with string keys, kept as its entries in insertion order (the order in which
    dict.items() yields them). */
module Dicts {

  type Dict<V> = seq<(string, V)>

  predicate HasKey<V>(d: Dict<V>, k: string) {
    exists i :: 0 <= i < |d| && d[i].0 == k
  }

  /** Every key occurs once, as in a real dict. */
  predicate UniqueKeys<V>(d: Dict<V>) {
    forall i, j :: 0 <= i < j < |d| ==> d[i].0 != d[j].0
  }

  /** The position of key k, or -1 when k is absent. */
  function Find<V>(d: Dict<V>, k: string): (r: int)
    ensures -1 <= r < |d|
    ensures r >= 0 ==> d[r].0 == k
  {
    if |d| == 0 then -1
    else if d[0].0 == k then 0
    else
      var r := Find(d[1..], k);
      if r < 0 then -1 else r + 1
  }

  /** Find gives -1 exactly for an absent key, and otherwise the first position of the key. */
  lemma {:induction false} FindSpec<V>(d: Dict<V>, k: string)
    ensures Find(d, k) == -1 <==> !HasKey(d, k)
    ensures Find(d, k) >= 0 ==> forall i :: 0 <= i < Find(d, k) ==> d[i].0 != k
  {
    if |d| > 0 && d[0].0 != k {
      FindSpec(d[1..], k);
      if HasKey(d, k) {
        var i :| 0 <= i < |d| && d[i].0 == k;
        assert d[1..][i - 1].0 == k;
      }
    }
  }

  /** d[k] */
  function Get<V>(d: Dict<V>, k: string): V
    requires HasKey(d, k)
  {
    FindSpec(d, k);
    d[Find(d, k)].1
  }

  /** d[k] = v: a new key goes to the end; an existing key keeps its place and takes v. */
  function Store<V>(d: Dict<V>, k: string, v: V): (r: Dict<V>)
    ensures |r| == |d| || |r| == |d| + 1
  {
    var i := Find(d, k);
    if i < 0 then d + [(k, v)] else d[i := (k, v)]
  }

  /** What d[k] = v does to the dict: the size grows exactly when k is new, the keys already
      there keep their places, k then maps to v, every other key keeps its value, and keys
      stay unique. */
  lemma StoreSpec<V>(d: Dict<V>, k: string, v: V)
    ensures |Store(d, k, v)| == if HasKey(d, k) then |d| else |d| + 1
    ensures forall i :: 0 <= i < |d| ==> Store(d, k, v)[i].0 == d[i].0
    ensures forall k' :: HasKey(Store(d, k, v), k') <==> HasKey(d, k') || k' == k
    ensures HasKey(Store(d, k, v), k) && Get(Store(d, k, v), k) == v
    ensures forall k' :: k' != k && HasKey(d, k') ==> Get(Store(d, k, v), k') == Get(d, k')
    ensures UniqueKeys(d) ==> UniqueKeys(Store(d, k, v))
  {
    var i := Find(d, k);
    FindSpec(d, k);
    var r := Store(d, k, v);
    forall k' | k' != k ensures Find(r, k') == Find(d, k') {
      FindAgrees(d, r, k');
    }
    var j := if i < 0 then |d| else i;
    assert r[j].0 == k;
    FindSpec(r, k);
    forall k' ensures HasKey(r, k') <==> HasKey(d, k') || k' == k {
      if k' != k {
        FindSpec(d, k');
        FindSpec(r, k');
      }
    }
    forall k' | k' != k && HasKey(d, k') ensures Get(r, k') == Get(d, k') {
      FindSpec(d, k');
      FindSpec(r, k');
    }
  }

  /** Keys before the first difference between two dicts are found at the same place. */
  lemma FindAgrees<V>(d: Dict<V>, e: Dict<V>, k: string)
    requires |d| <= |e|
    requires forall i :: 0 <= i < |d| && (d[i].0 == k || e[i].0 == k) ==> e[i].0 == d[i].0
    requires forall i :: |d| <= i < |e| ==> e[i].0 != k
    ensures Find(e, k) == Find(d, k)
  {
    if |d| > 0 && d[0].0 != k {
      FindAgrees(d[1..], e[1..], k);
    } else if |d| == 0 && |e| > 0 {
      FindAgrees(d, e[1..], k);
    }
  }
}
