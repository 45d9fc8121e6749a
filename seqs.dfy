/** Order-preserving filters and maps over sequences: the model of JavaScript's
    `Array.prototype.filter` and `Array.prototype.map`. Both are defined by recursion
    on the last element, so a loop that scans a prefix extends them by one step. */
module Seqs {
  import opened Wrappers

  function Filter<T>(s: seq<T>, p: T -> bool): (r: seq<T>)
    ensures |r| <= |s|
    ensures forall i :: 0 <= i < |r| ==> p(r[i])
    decreases |s|
  {
    if s == [] then []
    else Filter(s[..|s| - 1], p) + (if p(s[|s| - 1]) then [s[|s| - 1]] else [])
  }

  /** Every element satisfying `p` survives the filter. */
  lemma {:induction false} FilterKeeps<T>(s: seq<T>, p: T -> bool)
    ensures forall i :: 0 <= i < |s| && p(s[i]) ==> s[i] in Filter(s, p)
    decreases |s|
  {
    if s != [] {
      var init := s[..|s| - 1];
      FilterKeeps(init, p);
      assert forall i :: 0 <= i < |init| ==> init[i] == s[i];
    }
  }

  /** A filter only drops elements: its result is a sub-multiset of its input. */
  lemma {:induction false} FilterSubMultiset<T>(s: seq<T>, p: T -> bool)
    ensures multiset(Filter(s, p)) <= multiset(s)
    decreases |s|
  {
    if s != [] {
      var init := s[..|s| - 1];
      FilterSubMultiset(init, p);
      assert s == init + [s[|s| - 1]];
    }
  }

  function Map<T, U>(s: seq<T>, f: T -> U): (r: seq<U>)
    ensures |r| == |s|
    ensures forall i :: 0 <= i < |s| ==> r[i] == f(s[i])
    decreases |s|
  {
    if s == [] then [] else Map(s[..|s| - 1], f) + [f(s[|s| - 1])]
  }

  /** Mapping distributes over concatenation. */
  lemma MapConcat<T, U>(a: seq<T>, b: seq<T>, f: T -> U)
    ensures Map(a + b, f) == Map(a, f) + Map(b, f)
  {
    var l := Map(a + b, f);
    var r := Map(a, f) + Map(b, f);
    assert forall i :: 0 <= i < |l| ==> l[i] == r[i] by {
      forall i | 0 <= i < |l|
        ensures l[i] == r[i]
      {
        if i < |a| {
          assert (a + b)[i] == a[i];
        } else {
          assert (a + b)[i] == b[i - |a|];
        }
      }
    }
  }

  /** Filtering distributes over concatenation: the survivors keep their relative order. */
  lemma {:induction false} FilterConcat<T>(a: seq<T>, b: seq<T>, p: T -> bool)
    ensures Filter(a + b, p) == Filter(a, p) + Filter(b, p)
    decreases |b|
  {
    if b == [] {
      assert a + b == a;
    } else {
      var b' := b[..|b| - 1];
      assert (a + b)[..|a + b| - 1] == a + b';
      FilterConcat(a, b', p);
    }
  }

  /** The length of a filter splits into the two halves of a concatenation. */
  lemma FilterLengthConcat<T>(a: seq<T>, b: seq<T>, p: T -> bool)
    ensures |Filter(a + b, p)| == |Filter(a, p)| + |Filter(b, p)|
  {
    FilterConcat(a, b, p);
  }

  /** A filter keeps everything when every element passes, and nothing when none does. */
  lemma {:induction false} FilterAll<T>(s: seq<T>, p: T -> bool)
    ensures (forall i :: 0 <= i < |s| ==> p(s[i])) ==> Filter(s, p) == s
    ensures (forall i :: 0 <= i < |s| ==> !p(s[i])) ==> Filter(s, p) == []
    decreases |s|
  {
    if s != [] {
      FilterAll(s[..|s| - 1], p);
      assert s[..|s| - 1] + [s[|s| - 1]] == s;
    }
  }

  /** Two filters whose predicates partition the elements split the length. */
  lemma {:induction false} FilterComplement<T>(s: seq<T>, p: T -> bool, q: T -> bool)
    requires forall i :: 0 <= i < |s| ==> (p(s[i]) <==> !q(s[i]))
    ensures |Filter(s, p)| + |Filter(s, q)| == |s|
    decreases |s|
  {
    if s != [] {
      FilterComplement(s[..|s| - 1], p, q);
    }
  }

  /** The positions of the elements satisfying `p`, in increasing order. */
  function FilterIndices<T>(s: seq<T>, p: T -> bool): (r: seq<nat>)
    ensures forall j :: 0 <= j < |r| ==> r[j] < |s| && p(s[r[j]])
    ensures forall j, j' :: 0 <= j < j' < |r| ==> r[j] < r[j']
    ensures forall i :: 0 <= i < |s| && p(s[i]) ==> i in r
    decreases |s|
  {
    if s == [] then []
    else
      var ri := FilterIndices(s[..|s| - 1], p);
      assert |s| - 1 !in ri;
      ri + (if p(s[|s| - 1]) then [|s| - 1] else [])
  }

  /** Those positions are where the survivors of `Filter(s, p)` sit. */
  lemma {:induction false} FilterIndicesSelect<T>(s: seq<T>, p: T -> bool)
    ensures |FilterIndices(s, p)| == |Filter(s, p)|
    ensures forall j :: 0 <= j < |Filter(s, p)| ==> s[FilterIndices(s, p)[j]] == Filter(s, p)[j]
    decreases |s|
  {
    if s != [] {
      var init := s[..|s| - 1];
      FilterIndicesSelect(init, p);
      assert forall i :: 0 <= i < |init| ==> init[i] == s[i];
    }
  }

  /** The values `f` yields on the elements of `s`, in order, skipping the elements
      on which it yields nothing: a loop that pushes a result only for some inputs. */
  function Collect<T, U>(s: seq<T>, f: T -> Option<U>): (r: seq<U>)
    ensures |r| <= |s|
    decreases |s|
  {
    if s == [] then []
    else
      var last := f(s[|s| - 1]);
      Collect(s[..|s| - 1], f) + (if last.Some? then [last.value] else [])
  }

  /** Collecting over one more element of a prefix. */
  lemma CollectStep<T, U>(s: seq<T>, i: nat, f: T -> Option<U>)
    requires i < |s|
    ensures Collect(s[..i + 1], f) == Collect(s[..i], f) + if f(s[i]).Some? then [f(s[i]).value] else []
  {
    var next := s[..i + 1];
    assert next[..|next| - 1] == s[..i] && next[|next| - 1] == s[i];
  }

  /** Collected values keep the order of the elements that yield them. */
  lemma {:induction false} CollectOrder<T, U>(s: seq<T>, f: T -> Option<U>, i: nat, k: nat)
    requires i < k < |Collect(s, f)|
    ensures exists a, b :: 0 <= a < b < |s| && f(s[a]) == Some(Collect(s, f)[i]) && f(s[b]) == Some(Collect(s, f)[k])
    decreases |s|
  {
    var init := s[..|s| - 1];
    var r := Collect(s, f);
    var ri := Collect(init, f);
    assert forall j :: 0 <= j < |ri| ==> r[j] == ri[j];
    if k < |ri| {
      CollectOrder(init, f, i, k);
      var a, b :| 0 <= a < b < |init| && f(init[a]) == Some(ri[i]) && f(init[b]) == Some(ri[k]);
      assert s[a] == init[a] && s[b] == init[b];
    } else {
      CollectMeaning(init, f);
      var a :| 0 <= a < |init| && f(init[a]) == Some(ri[i]);
      assert s[a] == init[a];
      assert f(s[|s| - 1]) == Some(r[k]);
    }
  }

  /** Nothing is collected when no element yields a value. */
  lemma {:induction false} CollectNone<T, U>(s: seq<T>, f: T -> Option<U>)
    requires forall j :: 0 <= j < |s| ==> f(s[j]).None?
    ensures Collect(s, f) == []
    decreases |s|
  {
    if s != [] {
      var init := s[..|s| - 1];
      assert forall j :: 0 <= j < |init| ==> init[j] == s[j];
      CollectNone(init, f);
    }
  }

  /** The value the `j`-th element yields is collected. */
  lemma CollectHas<T, U>(s: seq<T>, f: T -> Option<U>, j: nat)
    requires j < |s| && f(s[j]).Some?
    ensures f(s[j]).value in Collect(s, f)
  {
    CollectMeaning(s, f);
  }

  /** Every collected value is yielded by some element, and every yielded value is
      collected. */
  lemma {:induction false} CollectMeaning<T, U>(s: seq<T>, f: T -> Option<U>)
    ensures forall i :: 0 <= i < |Collect(s, f)| ==> exists j :: 0 <= j < |s| && f(s[j]) == Some(Collect(s, f)[i])
    ensures forall j :: 0 <= j < |s| && f(s[j]).Some? ==> f(s[j]).value in Collect(s, f)
    decreases |s|
  {
    if s != [] {
      var init := s[..|s| - 1];
      CollectMeaning(init, f);
      var r := Collect(s, f);
      var ri := Collect(init, f);
      assert forall i :: 0 <= i < |ri| ==> r[i] == ri[i];
      forall i | 0 <= i < |r|
        ensures exists j :: 0 <= j < |s| && f(s[j]) == Some(r[i])
      {
        if i < |ri| {
          var j :| 0 <= j < |init| && f(init[j]) == Some(ri[i]);
          assert s[j] == init[j] && r[i] == ri[i];
          assert f(s[j]) == Some(r[i]);
        } else {
          var j := |s| - 1;
          assert f(s[j]).Some? && r[i] == f(s[j]).value;
          assert f(s[j]) == Some(r[i]);
        }
      }
      forall j | 0 <= j < |s| && f(s[j]).Some?
        ensures f(s[j]).value in r
      {
        if j < |init| {
          assert s[j] == init[j];
        }
      }
    } else {
      assert Collect(s, f) == [];
    }
  }

  /** A collect over one more element. */
  lemma CollectSnoc<T, U>(s: seq<T>, x: T, f: T -> Option<U>)
    ensures Collect(s + [x], f) == Collect(s, f) + (if f(x).Some? then [f(x).value] else [])
  {
    assert (s + [x])[..|s|] == s;
  }

  /** Collecting distributes over concatenation. */
  lemma {:induction false} CollectConcat<T, U>(a: seq<T>, b: seq<T>, f: T -> Option<U>)
    ensures Collect(a + b, f) == Collect(a, f) + Collect(b, f)
    decreases |b|
  {
    if b == [] {
      assert a + b == a;
    } else {
      var b' := b[..|b| - 1];
      var ab := a + b;
      assert ab[..|ab| - 1] == a + b';
      assert ab[|ab| - 1] == b[|b| - 1];
      CollectConcat(a, b', f);
    }
  }

  /** Concatenation is associative (stated once here, where nothing else is in scope). */
  lemma AppendAssoc<T>(a: seq<T>, b: seq<T>, c: seq<T>)
    ensures (a + b) + c == a + (b + c)
  {
  }

  /** Mapping over one more element of a prefix. */
  lemma MapStep<T, U>(s: seq<T>, i: nat, f: T -> U)
    requires i < |s|
    ensures Map(s[..i + 1], f) == Map(s[..i], f) + [f(s[i])]
  {
    assert s[..i + 1] == s[..i] + [s[i]];
    MapConcat(s[..i], [s[i]], f);
  }

  /** An element survives a filter exactly when it is in the input and passes. */
  lemma FilterMember<T>(s: seq<T>, p: T -> bool, x: T)
    ensures x in Filter(s, p) <==> x in s && p(x)
  {
    FilterKeeps(s, p);
    FilterSubMultiset(s, p);
    if x in Filter(s, p) {
      assert x in multiset(Filter(s, p));
    }
  }

  /** Filtering one more element of a prefix. */
  lemma FilterStep<T>(s: seq<T>, i: nat, p: T -> bool)
    requires i < |s|
    ensures Filter(s[..i + 1], p) == Filter(s[..i], p) + if p(s[i]) then [s[i]] else []
  {
    var next := s[..i + 1];
    assert next[..|next| - 1] == s[..i] && next[|next| - 1] == s[i];
  }
}
