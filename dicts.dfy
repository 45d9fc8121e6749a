/** JavaScript objects used as dictionaries: string keys in insertion order
    (`Object.keys`, `Object.values` and `Object.entries` all follow it), assignment
    `o[k] = v` that keeps an existing key in place and appends a new one, and the
    spread `{...a, ...b}` in which `b` wins. */
module Dicts {
  import opened Wrappers

  predicate DistinctKeys<V>(d: seq<(string, V)>) {
    forall i, j :: 0 <= i < j < |d| ==> d[i].0 != d[j].0
  }

  /** An object's own entries, in key order. */
  type Dict<V> = d: seq<(string, V)> | DistinctKeys(d)

  /** `Object.keys(d)`. */
  function Keys<V>(d: Dict<V>): (ks: seq<string>)
    ensures |ks| == |d|
    ensures forall i :: 0 <= i < |d| ==> ks[i] == d[i].0
  {
    seq(|d|, i requires 0 <= i < |d| => d[i].0)
  }

  /** `Object.values(d)`. */
  function Values<V>(d: Dict<V>): (vs: seq<V>)
    ensures |vs| == |d|
    ensures forall i :: 0 <= i < |d| ==> vs[i] == d[i].1
  {
    seq(|d|, i requires 0 <= i < |d| => d[i].1)
  }

  /** The position of key `k`, if present. */
  function Find<V>(d: Dict<V>, k: string): (r: Option<nat>)
    ensures r.Some? ==> r.value < |d| && d[r.value].0 == k
    ensures r.None? <==> k !in Keys(d)
    decreases |d|
  {
    if d == [] then None
    else if d[|d| - 1].0 == k then Some(|d| - 1)
    else Find(d[..|d| - 1], k)
  }

  /** `d[k]`, with `None` for `undefined`. */
  function Get<V>(d: Dict<V>, k: string): (r: Option<V>)
    ensures r.Some? <==> k in Keys(d)
    ensures forall i :: 0 <= i < |d| && d[i].0 == k ==> r == Some(d[i].1)
  {
    match Find(d, k)
    case None => None
    case Some(i) => Some(d[i].1)
  }

  /** The assignment `d[k] = v`. */
  function Put<V>(d: Dict<V>, k: string, v: V): (r: Dict<V>)
    ensures Get(r, k) == Some(v)
    ensures forall k' :: k' != k ==> Get(r, k') == Get(d, k')
    ensures Keys(r) == if k in Keys(d) then Keys(d) else Keys(d) + [k]
    ensures |r| == if k in Keys(d) then |d| else |d| + 1
  {
    match Find(d, k)
    case None => d + [(k, v)]
    case Some(i) =>
      var r: Dict<V> := d[i := (k, v)];
      assert r[i] == (k, v);
      assert forall j :: 0 <= j < |d| && j != i ==> r[j] == d[j];
      assert Keys(r) == Keys(d);
      r
  }

  /** Assigning every pair of `kvs`, in order: a fill loop `for (...) d[k] = v`,
      and, with `kvs` an object's entries, the spread `{...d, ...kvs}`. */
  function PutAll<V>(d: Dict<V>, kvs: seq<(string, V)>): Dict<V>
    decreases |kvs|
  {
    if kvs == [] then d
    else Put(PutAll(d, kvs[..|kvs| - 1]), kvs[|kvs| - 1].0, kvs[|kvs| - 1].1)
  }

  /** The value paired with the last occurrence of `k` in `kvs`. */
  function LastValue<V>(kvs: seq<(string, V)>, k: string): (r: Option<V>)
    ensures r.None? <==> forall i :: 0 <= i < |kvs| ==> kvs[i].0 != k
    decreases |kvs|
  {
    if kvs == [] then None
    else if kvs[|kvs| - 1].0 == k then Some(kvs[|kvs| - 1].1)
    else LastValue(kvs[..|kvs| - 1], k)
  }

  /** The last assignment to a key wins; a key never assigned keeps its old value. */
  lemma {:induction false} PutAllGet<V>(d: Dict<V>, kvs: seq<(string, V)>, k: string)
    ensures Get(PutAll(d, kvs), k) == if LastValue(kvs, k).Some? then LastValue(kvs, k) else Get(d, k)
    decreases |kvs|
  {
    if kvs != [] {
      PutAllGet(d, kvs[..|kvs| - 1], k);
    }
  }

  /** After a fill the old keys come first, in their old order. */
  lemma {:induction false} PutAllKeysPrefix<V>(d: Dict<V>, kvs: seq<(string, V)>)
    ensures Keys(d) <= Keys(PutAll(d, kvs))
    decreases |kvs|
  {
    if kvs != [] {
      PutAllKeysPrefix(d, kvs[..|kvs| - 1]);
    }
  }

  /** After a fill a key is present exactly when it was present or was assigned. */
  lemma {:induction false} PutAllKeys<V>(d: Dict<V>, kvs: seq<(string, V)>, k: string)
    ensures k in Keys(PutAll(d, kvs)) <==> k in Keys(d) || LastValue(kvs, k).Some?
    decreases |kvs|
  {
    if kvs != [] {
      PutAllKeys(d, kvs[..|kvs| - 1], k);
    }
  }

  /** One more assignment at the end of a fill. */
  lemma PutAllSnoc<V>(d: Dict<V>, kvs: seq<(string, V)>, a: (string, V))
    ensures PutAll(d, kvs + [a]) == Put(PutAll(d, kvs), a.0, a.1)
  {
    var once := kvs + [a];
    assert once[..|once| - 1] == kvs && once[|once| - 1] == a;
  }

  /** Two more assignments at the end of a fill. */
  lemma PutAllSnoc2<V>(d: Dict<V>, kvs: seq<(string, V)>, a: (string, V), b: (string, V))
    ensures PutAll(d, kvs + [a, b]) == Put(Put(PutAll(d, kvs), a.0, a.1), b.0, b.1)
  {
    var once := kvs + [a];
    var twice := kvs + [a, b];
    assert twice[..|twice| - 1] == once && twice[|twice| - 1] == b;
    assert once[..|once| - 1] == kvs && once[|once| - 1] == a;
  }

  /** A fill adds at most one key per assignment. */
  lemma {:induction false} PutAllSize<V>(d: Dict<V>, kvs: seq<(string, V)>)
    ensures |PutAll(d, kvs)| <= |d| + |kvs|
    decreases |kvs|
  {
    if kvs != [] {
      PutAllSize(d, kvs[..|kvs| - 1]);
    }
  }

  /** `{...a, ...b}`. */
  function Merge<V>(a: Dict<V>, b: Dict<V>): Dict<V> {
    PutAll(a, b)
  }

  /** In a spread the right-hand object wins on every key it has. */
  lemma MergeGet<V>(a: Dict<V>, b: Dict<V>, k: string)
    ensures Get(Merge(a, b), k) == if k in Keys(b) then Get(b, k) else Get(a, k)
    ensures k in Keys(Merge(a, b)) <==> k in Keys(a) || k in Keys(b)
  {
    PutAllGet(a, b, k);
    PutAllKeys(a, b, k);
    LastValueDistinct(b, k);
  }

  /** In an object's own entries the last occurrence of a key is its only one. */
  lemma {:induction false} LastValueDistinct<V>(d: Dict<V>, k: string)
    ensures LastValue(d, k) == Get(d, k)
    decreases |d|
  {
    if d != [] {
      var pre: Dict<V> := d[..|d| - 1];
      LastValueDistinct(pre, k);
    }
  }

  /** `LastValue` is the value at the last position that holds the key. */
  lemma {:induction false} LastValueFinds<V>(kvs: seq<(string, V)>, k: string, i: nat)
    requires i < |kvs| && kvs[i].0 == k
    requires forall j :: i < j < |kvs| ==> kvs[j].0 != k
    ensures LastValue(kvs, k) == Some(kvs[i].1)
    decreases |kvs|
  {
    if i < |kvs| - 1 {
      LastValueFinds(kvs[..|kvs| - 1], k, i);
    }
  }

  /** A fill over one more entry of a prefix. */
  lemma PutAllStep<V>(d: Dict<V>, kvs: seq<(string, V)>, i: nat)
    requires i < |kvs|
    ensures PutAll(d, kvs[..i + 1]) == Put(PutAll(d, kvs[..i]), kvs[i].0, kvs[i].1)
  {
    var next := kvs[..i + 1];
    assert next[..|next| - 1] == kvs[..i] && next[|next| - 1] == kvs[i];
  }

  /** A key with a last value has it at some position that holds the key. */
  lemma {:induction false} LastValueAt<V>(kvs: seq<(string, V)>, k: string)
    ensures LastValue(kvs, k).Some? ==> exists j :: 0 <= j < |kvs| && kvs[j].0 == k && LastValue(kvs, k) == Some(kvs[j].1)
    decreases |kvs|
  {
    if kvs != [] && kvs[|kvs| - 1].0 != k {
      LastValueAt(kvs[..|kvs| - 1], k);
    }
  }
}
