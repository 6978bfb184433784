/**
 * A Python dict as the tools use it: an insertion-ordered list of key/value
 * pairs in which assigning to a present key replaces its value in place and
 * assigning to a new key appends it.
 */
module ODict {
  import opened Wrappers

  function Keys<K, V>(d: seq<(K, V)>): (ks: seq<K>)
    ensures |ks| == |d|
    ensures forall i :: 0 <= i < |d| ==> ks[i] == d[i].0
  {
    if |d| == 0 then [] else [d[0].0] + Keys(d[1..])
  }

  predicate UniqueKeys<K(==), V>(d: seq<(K, V)>) {
    forall i, j :: 0 <= i < j < |d| ==> d[i].0 != d[j].0
  }

  /** `d[k]`, or None where Python raises KeyError. */
  function Get<K(==), V>(d: seq<(K, V)>, k: K): (r: Option<V>)
    ensures r.None? <==> k !in Keys(d)
  {
    if |d| == 0 then None else if d[0].0 == k then Some(d[0].1) else Get(d[1..], k)
  }

  /** `d[k] = v` */
  function Put<K(==), V>(d: seq<(K, V)>, k: K, v: V): (r: seq<(K, V)>)
    ensures k in Keys(d) ==> |r| == |d|
    ensures k !in Keys(d) ==> r == d + [(k, v)]
  {
    if |d| == 0 then [(k, v)]
    else if d[0].0 == k then [(k, v)] + d[1..]
    else [d[0]] + Put(d[1..], k, v)
  }

  /** After `d[k] = v` the key `k` maps to `v`. */
  lemma {:induction false} PutGet<K, V>(d: seq<(K, V)>, k: K, v: V)
    ensures Get(Put(d, k, v), k) == Some(v)
  {
    if |d| > 0 && d[0].0 != k {
      PutGet(d[1..], k, v);
    }
  }

  /** After `d[k] = v` every other key keeps its value. */
  lemma {:induction false} PutGetOther<K, V>(d: seq<(K, V)>, k: K, v: V, k': K)
    requires k' != k
    ensures Get(Put(d, k, v), k') == Get(d, k')
  {
    if |d| > 0 && d[0].0 != k {
      PutGetOther(d[1..], k, v, k');
    }
  }

  /** After `d[k] = v` the keys keep their order, with `k` added last if it was new. */
  lemma {:induction false} PutKeys<K, V>(d: seq<(K, V)>, k: K, v: V)
    ensures Keys(Put(d, k, v)) == if k in Keys(d) then Keys(d) else Keys(d) + [k]
  {
    if |d| > 0 && d[0].0 != k {
      PutKeys(d[1..], k, v);
      assert Keys(d) == [d[0].0] + Keys(d[1..]);
    }
  }

  /** `d[k] = v` keeps the keys unique. */
  lemma PutUnique<K, V>(d: seq<(K, V)>, k: K, v: V)
    requires UniqueKeys(d)
    ensures UniqueKeys(Put(d, k, v))
  {
    PutKeys(d, k, v);
    var r := Put(d, k, v);
    assert forall i :: 0 <= i < |r| ==> r[i].0 == Keys(r)[i];
  }
  /** Assigning twice to the same key leaves the second value, in the first one's place. */
  lemma {:induction false} PutPut<K, V>(d: seq<(K, V)>, k: K, a: V, b: V)
    ensures Put(Put(d, k, a), k, b) == Put(d, k, b)
  {
    if |d| > 0 && d[0].0 != k {
      PutPut(d[1..], k, a, b);
    }
  }

  /**
   * `d[k] = a; d[k2] = b; d[k] = c` leaves the same dict as `d[k] = c; d[k2] = b`:
   * `k` keeps the place its first assignment gave it.
   */
  lemma {:induction false} PutAgain<K, V>(d: seq<(K, V)>, k: K, a: V, k2: K, b: V, c: V)
    requires k != k2
    ensures Put(Put(Put(d, k, a), k2, b), k, c) == Put(Put(d, k, c), k2, b)
  {
    if |d| == 0 {
    } else if d[0].0 == k {
      PutPut(d[1..], k2, b, b);
    } else if d[0].0 == k2 {
      PutPut(d[1..], k, a, c);
    } else {
      PutAgain(d[1..], k, a, k2, b, c);
    }
  }
  /** Every entry after `d[k] = v` was already there, or is the new one. */
  lemma {:induction false} PutEntries<K, V>(d: seq<(K, V)>, k: K, v: V)
    ensures forall e :: e in Put(d, k, v) ==> e in d || e == (k, v)
  {
    if |d| > 0 && d[0].0 != k {
      PutEntries(d[1..], k, v);
    }
  }
  /** With unique keys, the last entry's key maps to the last entry's value. */
  lemma {:induction false} GetLast<K, V>(d: seq<(K, V)>)
    requires |d| > 0 && UniqueKeys(d)
    ensures Get(d, d[|d| - 1].0) == Some(d[|d| - 1].1)
  {
    if |d| > 1 {
      assert d[0].0 != d[|d| - 1].0;
      assert d[1..][|d[1..]| - 1] == d[|d| - 1];
      GetLast(d[1..]);
    }
  }

  /** A key other than the last entry's is looked up among the entries before it. */
  lemma {:induction false} GetInit<K, V>(d: seq<(K, V)>, k: K)
    requires |d| > 0 && d[|d| - 1].0 != k
    ensures Get(d, k) == Get(d[..|d| - 1], k)
  {
    if |d| > 1 && d[0].0 != k {
      assert d[1..][..|d[1..]| - 1] == d[..|d| - 1][1..];
      GetInit(d[1..], k);
    }
  }
}
