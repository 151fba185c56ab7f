/**
 * Ordered string-keyed arrays.  A PHP array whose iteration order matters
 * (the validators of a field, its filters, a message list) is modelled as a
 * sequence of key/value pairs; assignment `$a[$k] = $v` keeps the position of
 * an existing key and appends a new one.
 */
module Assoc {
  import opened Wrappers

  type Assoc<V> = seq<(string, V)>

  /** `array_key_exists($k, $a)` */
  predicate HasKey<V>(a: Assoc<V>, k: string) {
    exists i :: 0 <= i < |a| && a[i].0 == k
  }

  /** PHP arrays never hold a key twice. */
  predicate DistinctKeys<V>(a: Assoc<V>) {
    forall i, j :: 0 <= i < j < |a| ==> a[i].0 != a[j].0
  }

  /** The value stored under `k` (the first pair with that key), if any. */
  function Lookup<V>(a: Assoc<V>, k: string): (r: Option<V>)
    ensures r.Some? <==> HasKey(a, k)
    ensures r.Some? ==> exists i :: 0 <= i < |a| && a[i] == (k, r.value)
    ensures forall i :: 0 <= i < |a| && a[i].0 == k ==> r.Some? && (DistinctKeys(a) ==> r.value == a[i].1)
  {
    if a == [] then None
    else if a[0].0 == k then Some(a[0].1)
    else
      var r := Lookup(a[1..], k);
      assert forall i :: 1 <= i < |a| ==> a[i] == a[1..][i - 1];
      r
  }

  /** `$a[$k] = $v`: overwrite in place, or append when `k` is new. */
  function Put<V>(a: Assoc<V>, k: string, v: V): (r: Assoc<V>)
    ensures |r| == if HasKey(a, k) then |a| else |a| + 1
  {
    if a == [] then [(k, v)]
    else if a[0].0 == k then [(k, v)] + a[1..]
    else
      assert HasKey(a, k) <==> HasKey(a[1..], k) by {
        if HasKey(a, k) {
          var i :| 0 <= i < |a| && a[i].0 == k;
          assert a[1..][i - 1].0 == k;
        }
        if HasKey(a[1..], k) {
          var i :| 0 <= i < |a[1..]| && a[1..][i].0 == k;
          assert a[i + 1].0 == k;
        }
      }
      [a[0]] + Put(a[1..], k, v)
  }

  /** After the assignment `k` reads back as `v` and every other key reads as before. */
  lemma {:induction false} PutLookup<V>(a: Assoc<V>, k: string, v: V, j: string)
    ensures Lookup(Put(a, k, v), j) == if j == k then Some(v) else Lookup(a, j)
  {
    if a != [] && a[0].0 != k {
      PutLookup(a[1..], k, v, j);
      assert Put(a, k, v)[1..] == Put(a[1..], k, v);
    }
  }

  /** A second assignment to the same key overrides the first. */
  lemma {:induction false} PutTwice<V>(a: Assoc<V>, k: string, v1: V, v2: V)
    ensures Put(Put(a, k, v1), k, v2) == Put(a, k, v2)
  {
    if a != [] && a[0].0 != k {
      PutTwice(a[1..], k, v1, v2);
      assert Put(a, k, v1)[0] == a[0];
      assert Put(a, k, v1)[1..] == Put(a[1..], k, v1);
    }
  }

  /** A new key is appended at the end; an existing key keeps every key in place. */
  lemma {:induction false} PutShape<V>(a: Assoc<V>, k: string, v: V)
    ensures !HasKey(a, k) ==> Put(a, k, v) == a + [(k, v)]
    ensures HasKey(a, k) ==> Keys(Put(a, k, v)) == Keys(a)
  {
    if a != [] && a[0].0 != k {
      PutShape(a[1..], k, v);
      assert HasKey(a, k) <==> HasKey(a[1..], k) by {
        if HasKey(a, k) {
          var i :| 0 <= i < |a| && a[i].0 == k;
          assert a[1..][i - 1].0 == k;
        }
      }
      if !HasKey(a, k) {
        assert a == [a[0]] + a[1..];
      } else {
        assert Keys(Put(a, k, v)) == [a[0].0] + Keys(Put(a[1..], k, v));
      }
    }
  }

  /** Assignment keeps the keys of an array distinct. */
  lemma {:induction false} PutDistinct<V>(a: Assoc<V>, k: string, v: V)
    requires DistinctKeys(a)
    ensures DistinctKeys(Put(a, k, v))
  {
    PutShape(a, k, v);
    if HasKey(a, k) {
      var r := Put(a, k, v);
      assert forall i :: 0 <= i < |r| ==> r[i].0 == Keys(r)[i] == Keys(a)[i] == a[i].0;
    }
  }

  /** The keys, in order. */
  function Keys<V>(a: Assoc<V>): (ks: seq<string>)
    ensures |ks| == |a|
    ensures forall i :: 0 <= i < |a| ==> ks[i] == a[i].0
  {
    seq(|a|, i requires 0 <= i < |a| => a[i].0)
  }

  /** The first value (`reset($a)`), `None` for an empty array. */
  function First<V>(a: Assoc<V>): (r: Option<V>)
    ensures r.None? <==> a == []
    ensures r.Some? ==> Lookup(a, a[0].0) == r
  {
    if a == [] then None else Some(a[0].1)
  }
}
