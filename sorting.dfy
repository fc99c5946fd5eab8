/**
 * The order of the note stream of one book: Python's `sorted` with the key
 * (chapterUid, start offset of range). `sorted` is stable, so records with
 * equal keys keep their relative order; the model is an insertion sort that
 * places each record after every record with a key not above its own.
 */
module NoteOrder {
  import opened Domain

  /** Every record's `range` prefix can be read as a number. */
  predicate AllParse(s: seq<Content>) {
    forall i :: 0 <= i < |s| ==> RangeParses(s[i])
  }

  predicate Sorted(s: seq<Content>)
    requires AllParse(s)
  {
    forall i, j :: 0 <= i < j < |s| ==> KeyLe(KeyOf(s[i]), KeyOf(s[j]))
  }

  /** `x` placed into the sorted `s` after the last record whose key is not above its own. */
  function Insert(x: Content, s: seq<Content>): (r: seq<Content>)
    requires RangeParses(x) && AllParse(s)
    ensures |r| == |s| + 1 && AllParse(r)
  {
    if s == [] then [x]
    else
      var n := |s| - 1;
      if KeyLe(KeyOf(s[n]), KeyOf(x)) then s + [x]
      else Insert(x, s[..n]) + [s[n]]
  }

  /** Inserting adds `x` and loses nothing. */
  lemma {:induction false} InsertPermutes(x: Content, s: seq<Content>)
    requires RangeParses(x) && AllParse(s)
    ensures multiset(Insert(x, s)) == multiset(s) + multiset{x}
  {
    if s != [] {
      var n := |s| - 1;
      assert s == s[..n] + [s[n]];
      if !KeyLe(KeyOf(s[n]), KeyOf(x)) {
        InsertPermutes(x, s[..n]);
      }
    }
  }

  function StableSort(s: seq<Content>): (r: seq<Content>)
    requires AllParse(s)
    ensures |r| == |s| && AllParse(r)
  {
    if s == [] then []
    else
      var n := |s| - 1;
      Insert(s[n], StableSort(s[..n]))
  }

  /** The records of `s` whose key is `k`, in their order. */
  function WithKey(s: seq<Content>, k: SortKey): (r: seq<Content>)
    requires AllParse(s)
  {
    if s == [] then []
    else
      var n := |s| - 1;
      WithKey(s[..n], k) + if KeyOf(s[n]) == k then [s[n]] else []
  }

  // ---------------------------------------------------------------------------
  // The three properties that make StableSort a stable sort

  lemma {:induction false} InsertSorted(x: Content, s: seq<Content>)
    requires RangeParses(x) && AllParse(s) && Sorted(s)
    ensures Sorted(Insert(x, s))
  {
    if s != [] {
      var n := |s| - 1;
      if !KeyLe(KeyOf(s[n]), KeyOf(x)) {
        assert s == s[..n] + [s[n]];
        InsertSorted(x, s[..n]);
        var t := Insert(x, s[..n]);
        InsertPermutes(x, s[..n]);
        forall c | c in t ensures c in s[..n] || c == x {
          assert c in multiset(t);
        }
        forall i, j | 0 <= i < j < |t| + 1
          ensures KeyLe(KeyOf((t + [s[n]])[i]), KeyOf((t + [s[n]])[j]))
        {
          if j == |t| {
            assert t[i] in t;
          }
        }
      }
    }
  }

  /** The result is ordered by key. */
  lemma {:induction false} StableSortSorted(s: seq<Content>)
    requires AllParse(s)
    ensures Sorted(StableSort(s))
  {
    if s != [] {
      var n := |s| - 1;
      StableSortSorted(s[..n]);
      InsertSorted(s[n], StableSort(s[..n]));
    }
  }

  /** The result holds the same records, each as often as the input. */
  lemma {:induction false} StableSortPermutes(s: seq<Content>)
    requires AllParse(s)
    ensures multiset(StableSort(s)) == multiset(s)
  {
    if s != [] {
      var n := |s| - 1;
      StableSortPermutes(s[..n]);
      InsertPermutes(s[n], StableSort(s[..n]));
      assert s == s[..n] + [s[n]];
    }
  }

  lemma {:induction false} WithKeyAppend(a: seq<Content>, b: seq<Content>, k: SortKey)
    requires AllParse(a) && AllParse(b)
    ensures AllParse(a + b) && WithKey(a + b, k) == WithKey(a, k) + WithKey(b, k)
  {
    if b == [] {
      assert a + b == a;
    } else {
      var n := |b| - 1;
      WithKeyAppend(a, b[..n], k);
      assert (a + b)[..|a + b| - 1] == a + b[..n];
    }
  }

  lemma {:induction false} InsertWithKey(x: Content, s: seq<Content>, k: SortKey)
    requires RangeParses(x) && AllParse(s) && Sorted(s)
    ensures WithKey(Insert(x, s), k) == WithKey(s, k) + if KeyOf(x) == k then [x] else []
  {
    if s == [] {
      assert [x][..0] == [];
    } else {
      var n := |s| - 1;
      if KeyLe(KeyOf(s[n]), KeyOf(x)) {
        WithKeyAppend(s, [x], k);
        assert [x][..0] == [];
      } else {
        InsertWithKey(x, s[..n], k);
        var t := Insert(x, s[..n]);
        assert (t + [s[n]])[..|t|] == t;
        assert KeyOf(s[n]) != KeyOf(x);
      }
    }
  }

  /** Stability: the records sharing a key come out in the order they went in. */
  lemma {:induction false} StableSortStable(s: seq<Content>, k: SortKey)
    requires AllParse(s)
    ensures WithKey(StableSort(s), k) == WithKey(s, k)
  {
    if s != [] {
      var n := |s| - 1;
      StableSortStable(s[..n], k);
      StableSortSorted(s[..n]);
      InsertWithKey(s[n], StableSort(s[..n]), k);
    }
  }

  /** Sorting keeps every record and adds none. */
  lemma StableSortMembers(s: seq<Content>)
    requires AllParse(s)
    ensures forall c :: c in StableSort(s) <==> c in s
  {
    StableSortPermutes(s);
    assert forall c :: c in StableSort(s) <==> c in multiset(StableSort(s));
  }
}
