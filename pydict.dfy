/**
 * Python dictionaries as values: the keys in insertion order, and the entries.
 * Assigning to an existing key keeps its position; `pop` removes a key and
 * leaves the order of the others alone.
 */
module PyDict {

  datatype Dict<K, V> = Dict(keys: seq<K>, entries: map<K, V>)

  /** No key twice, and the key sequence lists exactly the keys of the entries. */
  ghost predicate Valid<K(!new), V>(d: Dict<K, V>) {
    && Distinct(d.keys)
    && (forall k :: k in d.entries <==> k in d.keys)
  }

  ghost predicate Distinct<T>(s: seq<T>) {
    forall i, j :: 0 <= i < j < |s| ==> s[i] != s[j]
  }

  function Empty<K(!new), V>(): (d: Dict<K, V>)
    ensures Valid(d) && d.keys == []
  {
    Dict([], map[])
  }

  /** `d[k] = v` */
  function Put<K(!new), V>(d: Dict<K, V>, k: K, v: V): (d': Dict<K, V>)
    requires Valid(d)
    ensures Valid(d') && d'.entries == d.entries[k := v]
    ensures k in d.entries ==> d'.keys == d.keys
    ensures k !in d.entries ==> d'.keys == d.keys + [k]
  {
    if k in d.entries then Dict(d.keys, d.entries[k := v])
    else Dict(d.keys + [k], d.entries[k := v])
  }

  /** The keys of `s` that are not in `gone`, in their order. */
  function FilterOut<K(!new)>(s: seq<K>, gone: set<K>): (r: seq<K>)
    ensures forall k :: k in r <==> k in s && k !in gone
  {
    if s == [] then []
    else FilterOut(s[..|s| - 1], gone) + (if s[|s| - 1] in gone then [] else [s[|s| - 1]])
  }

  /** The positions in `s` of the keys `FilterOut` keeps, in increasing order. */
  function KeptPositions<K(!new)>(s: seq<K>, gone: set<K>): (pos: seq<nat>) {
    if s == [] then []
    else
      var n := |s| - 1;
      var p := KeptPositions(s[..n], gone);
      if s[n] in gone then p else p + [n]
  }

  lemma {:induction false} KeptPositionsLength<K(!new)>(s: seq<K>, gone: set<K>)
    ensures |KeptPositions(s, gone)| == |FilterOut(s, gone)|
  {
    if s != [] {
      KeptPositionsLength(s[..|s| - 1], gone);
    }
  }

  lemma {:induction false} KeptPositionsIncrease<K(!new)>(s: seq<K>, gone: set<K>)
    ensures forall i :: 0 <= i < |KeptPositions(s, gone)| ==>
      KeptPositions(s, gone)[i] < |s| && (i > 0 ==> KeptPositions(s, gone)[i - 1] < KeptPositions(s, gone)[i])
  {
    if s != [] {
      var n := |s| - 1;
      KeptPositionsIncrease(s[..n], gone);
      var p := KeptPositions(s[..n], gone);
      assert forall i :: 0 <= i < |p| ==> p[i] < n;
    }
  }

  lemma {:induction false} KeptPositionsHold<K(!new)>(s: seq<K>, gone: set<K>)
    ensures |KeptPositions(s, gone)| == |FilterOut(s, gone)|
    ensures forall i :: 0 <= i < |KeptPositions(s, gone)| ==>
      KeptPositions(s, gone)[i] < |s| && FilterOut(s, gone)[i] == s[KeptPositions(s, gone)[i]]
  {
    KeptPositionsLength(s, gone);
    if s != [] {
      var n := |s| - 1;
      KeptPositionsHold(s[..n], gone);
      var p, f := KeptPositions(s[..n], gone), FilterOut(s[..n], gone);
      var pos, r := KeptPositions(s, gone), FilterOut(s, gone);
      assert |p| == |f|;
      forall i | 0 <= i < |pos| ensures pos[i] < |s| && r[i] == s[pos[i]] {
        if i < |p| {
          assert p[i] < n && f[i] == s[..n][p[i]];
          assert pos[i] == p[i] && r[i] == f[i];
        }
      }
    }
  }

  lemma {:induction false} KeptPositionsCover<K(!new)>(s: seq<K>, gone: set<K>)
    ensures forall j :: 0 <= j < |s| && s[j] !in gone ==> j in KeptPositions(s, gone)
  {
    if s != [] {
      var n := |s| - 1;
      KeptPositionsCover(s[..n], gone);
      forall j | 0 <= j < n ensures s[..n][j] == s[j] { }
    }
  }

  /**
   * `FilterOut` keeps a subsequence: the kept keys sit at increasing positions
   * of `s`, and every key outside `gone` is kept, so the remaining keys keep
   * their original order.
   */
  lemma FilterOutKeepsOrder<K(!new)>(s: seq<K>, gone: set<K>)
    ensures var pos, r := KeptPositions(s, gone), FilterOut(s, gone);
      && |pos| == |r|
      && (forall i :: 0 <= i < |pos| ==> pos[i] < |s| && r[i] == s[pos[i]])
      && (forall i, j :: 0 <= i < j < |pos| ==> pos[i] < pos[j])
      && (forall j :: 0 <= j < |s| && s[j] !in gone ==> j in pos)
  {
    KeptPositionsLength(s, gone);
    KeptPositionsIncrease(s, gone);
    KeptPositionsHold(s, gone);
    KeptPositionsCover(s, gone);
    var pos := KeptPositions(s, gone);
    forall i, j | 0 <= i < j < |pos| ensures pos[i] < pos[j] {
      var k := i;
      while k < j
        invariant i <= k <= j && pos[i] <= pos[k]
      {
        k := k + 1;
      }
    }
  }

  /** The dictionary with every key of `gone` removed. */
  function Without<K(!new), V>(d: Dict<K, V>, gone: set<K>): (d': Dict<K, V>)
    requires Valid(d)
    ensures Valid(d')
    ensures d'.keys == FilterOut(d.keys, gone)
    ensures forall k :: k in d'.entries <==> k in d.entries && k !in gone
    ensures forall k :: k in d'.entries ==> d'.entries[k] == d.entries[k]
  {
    FilterOutDistinct(d.keys, gone);
    Dict(FilterOut(d.keys, gone), d.entries - gone)
  }

  /** `d.pop(k)` on a key that is present. */
  function Pop<K(!new), V>(d: Dict<K, V>, k: K): (d': Dict<K, V>)
    requires Valid(d) && k in d.entries
    ensures Valid(d')
  {
    Without(d, {k})
  }

  /** `d.values()`, in key order. */
  function Values<K(!new), V>(d: Dict<K, V>): (vs: seq<V>)
    requires Valid(d)
    ensures |vs| == |d.keys|
    ensures forall i :: 0 <= i < |vs| ==> vs[i] == d.entries[d.keys[i]]
  {
    seq(|d.keys|, i requires 0 <= i < |d.keys| => d.entries[d.keys[i]])
  }

  lemma {:induction false} FilterOutDistinct<K(!new)>(s: seq<K>, gone: set<K>)
    requires Distinct(s)
    ensures Distinct(FilterOut(s, gone))
  {
    if s != [] {
      var s', x := s[..|s| - 1], s[|s| - 1];
      assert Distinct(s');
      FilterOutDistinct(s', gone);
      assert x !in s';
      if x !in gone {
        DistinctSnoc(FilterOut(s', gone), x);
      }
    }
  }

  lemma DistinctSnoc<T>(s: seq<T>, x: T)
    requires Distinct(s) && x !in s
    ensures Distinct(s + [x])
  {
  }

  lemma {:induction false} FilterOutTwice<K(!new)>(s: seq<K>, gone: set<K>, more: set<K>)
    ensures FilterOut(FilterOut(s, gone), more) == FilterOut(s, gone + more)
  {
    if s != [] {
      var s' := s[..|s| - 1];
      FilterOutTwice(s', gone, more);
      var x := s[|s| - 1];
      var once := FilterOut(s', gone) + (if x in gone then [] else [x]);
      if x !in gone {
        assert once[..|once| - 1] == FilterOut(s', gone);
      } else {
        assert once == FilterOut(s', gone);
      }
    }
  }

  /** Popping a key that is still present removes one more key. */
  lemma PopWithout<K(!new), V>(d: Dict<K, V>, gone: set<K>, k: K)
    requires Valid(d) && k in d.entries && k !in gone
    ensures Pop(Without(d, gone), k) == Without(d, gone + {k})
  {
    FilterOutTwice(d.keys, gone, {k});
    assert (d.entries - gone) - {k} == d.entries - (gone + {k});
  }

  /**
   * A value is left in the dictionary after removing `gone` exactly when some
   * key outside `gone` carries it.
   */
  lemma ValuesWithout<K(!new), V>(d: Dict<K, V>, gone: set<K>, v: V)
    requires Valid(d)
    ensures v in Values(Without(d, gone)) <==> exists k :: k in d.entries && k !in gone && d.entries[k] == v
  {
    var w := Without(d, gone);
    if exists k :: k in d.entries && k !in gone && d.entries[k] == v {
      var k :| k in d.entries && k !in gone && d.entries[k] == v;
      assert k in w.keys;
      var i :| 0 <= i < |w.keys| && w.keys[i] == k;
      assert Values(w)[i] == v;
    }
  }

  lemma {:induction false} FilterOutAbsent<K(!new)>(s: seq<K>, gone: set<K>, k: K)
    requires k !in s
    ensures FilterOut(s, gone + {k}) == FilterOut(s, gone)
  {
    if s != [] {
      FilterOutAbsent(s[..|s| - 1], gone, k);
    }
  }

  /** Removing a key that is absent, or already removed, changes nothing. */
  lemma WithoutAbsent<K(!new), V>(d: Dict<K, V>, gone: set<K>, k: K)
    requires Valid(d) && (k !in d.entries || k in gone)
    ensures Without(d, gone + {k}) == Without(d, gone)
  {
    if k in gone {
      assert gone + {k} == gone;
    } else {
      FilterOutAbsent(d.keys, gone, k);
      assert d.entries - (gone + {k}) == d.entries - gone;
    }
  }

  lemma {:induction false} FilterOutNothing<K(!new)>(s: seq<K>)
    ensures FilterOut(s, {}) == s
  {
    if s != [] {
      FilterOutNothing(s[..|s| - 1]);
      assert s == s[..|s| - 1] + [s[|s| - 1]];
    }
  }

  lemma WithoutNothing<K(!new), V>(d: Dict<K, V>)
    requires Valid(d)
    ensures Without(d, {}) == d
  {
    FilterOutNothing(d.keys);
    assert d.entries - {} == d.entries by {
      forall k | k in d.entries ensures k in d.entries - {} { }
    }
  }

  lemma {:induction false} FilterOutAll<K(!new)>(s: seq<K>, gone: set<K>)
    requires forall i :: 0 <= i < |s| ==> s[i] in gone
    ensures FilterOut(s, gone) == []
  {
    if s != [] {
      FilterOutAll(s[..|s| - 1], gone);
    }
  }

  /** Removing every key leaves no values. */
  lemma WithoutAll<K(!new), V>(d: Dict<K, V>, gone: set<K>)
    requires Valid(d) && forall k :: k in d.entries ==> k in gone
    ensures Values(Without(d, gone)) == []
  {
    FilterOutAll(d.keys, gone);
  }
}
