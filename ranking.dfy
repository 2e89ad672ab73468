/** The score records of `calculate_stats` and their ranking: a stable
    `sorted` on idf descending then tf descending, cut by the `[:50]` slice.

    A record keeps the document frequency `df` in place of
    `idf = ln(N / df)`: for a fixed corpus size N, a larger idf is a smaller df
    (see TfIdf.IdfOrder), so "idf descending" is "df ascending". The term
    frequency is the exact ratio count / length. Python's `sorted` is a stable
    sort; here it is a stable insertion sort, and SortUnique shows that every
    stable sort returns the same sequence. */
module Ranking {

  /** One entry of `results`, without the float product `tfidf`. */
  datatype Record = Record(word: string, tf: real, df: nat, docId: nat)

  /** The slice `[:50]`. */
  const MaxResults: nat := 50

  predicate HasKey(r: Record, df: nat, tf: real) {
    r.df == df && r.tf == tf
  }

  predicate SameKey(a: Record, b: Record) {
    HasKey(a, b.df, b.tf)
  }

  /** `a` sorts strictly before `b`: higher idf, or equal idf and higher tf. */
  predicate Outranks(a: Record, b: Record) {
    a.df < b.df || (a.df == b.df && a.tf > b.tf)
  }

  /** `a` may sort before `b`. */
  predicate RanksAtLeast(a: Record, b: Record) {
    Outranks(a, b) || SameKey(a, b)
  }

  predicate Sorted(s: seq<Record>) {
    forall i, j :: 0 <= i < j < |s| ==> RanksAtLeast(s[i], s[j])
  }

  /** Places `x` after every element of `s` that it does not outrank. */
  function Insert(x: Record, s: seq<Record>): (r: seq<Record>)
    ensures multiset(r) == multiset(s) + multiset{x}
    ensures |r| == |s| + 1
  {
    if s == [] then [x]
    else if Outranks(x, s[0]) then [x] + s
    else
      assert s == [s[0]] + s[1..];
      [s[0]] + Insert(x, s[1..])
  }

  /** The stable sort on the key (idf descending, tf descending). */
  function Sort(s: seq<Record>): (r: seq<Record>)
    ensures multiset(r) == multiset(s)
    ensures |r| == |s|
  {
    if s == [] then []
    else
      assert s == s[..|s| - 1] + [s[|s| - 1]];
      Insert(s[|s| - 1], Sort(s[..|s| - 1]))
  }

  /** The first `MaxResults` elements. */
  function Top(s: seq<Record>): (r: seq<Record>)
    ensures |r| == if |s| <= MaxResults then |s| else MaxResults
    ensures r == s[..|r|]
  {
    if |s| <= MaxResults then s else s[..MaxResults]
  }

  /** The elements of `s` whose key is (df, tf), in order. */
  function WithKey(s: seq<Record>, df: nat, tf: real): seq<Record> {
    if s == [] then []
    else (if HasKey(s[0], df, tf) then [s[0]] else []) + WithKey(s[1..], df, tf)
  }

  /** Truncation keeps a prefix: its elements come from the input, and a
      sorted input stays sorted. */
  lemma TopPrefix(s: seq<Record>)
    ensures multiset(Top(s)) <= multiset(s)
    ensures forall r :: r in Top(s) ==> r in s
    ensures Sorted(s) ==> Sorted(Top(s))
  {
    var t := Top(s);
    assert s == t + s[|t|..];
    assert forall i :: 0 <= i < |t| ==> t[i] == s[i];
  }

  lemma TopTiesOrdered(s: seq<Record>, before: (Record, Record) -> bool)
    requires TiesOrdered(s, before)
    ensures TiesOrdered(Top(s), before)
  {
    var t := Top(s);
    assert forall i :: 0 <= i < |t| ==> t[i] == s[i];
  }

  // ---------------------------------------------------------------------------
  // The sort orders.

  lemma {:induction false} InsertSorted(x: Record, s: seq<Record>)
    requires Sorted(s)
    ensures Sorted(Insert(x, s))
  {
    if s != [] && !Outranks(x, s[0]) {
      var t := Insert(x, s[1..]);
      InsertSorted(x, s[1..]);
      forall j | 0 <= j < |t| ensures RanksAtLeast(s[0], t[j]) {
        assert t[j] in multiset(s[1..]) + multiset{x};
        if t[j] != x {
          var k :| 0 <= k < |s[1..]| && s[1..][k] == t[j];
          assert s[k + 1] == t[j];
        }
      }
      var r := [s[0]] + t;
      forall i, j | 0 <= i < j < |r| ensures RanksAtLeast(r[i], r[j]) {
        if i > 0 {
          assert r[i] == t[i - 1] && r[j] == t[j - 1];
        } else {
          assert r[j] == t[j - 1];
        }
      }
    }
  }

  /** The result of Sort is sorted. */
  lemma {:induction false} SortSorted(s: seq<Record>)
    ensures Sorted(Sort(s))
  {
    if s != [] {
      SortSorted(s[..|s| - 1]);
      InsertSorted(s[|s| - 1], Sort(s[..|s| - 1]));
    }
  }

  // ---------------------------------------------------------------------------
  // The sort is stable.

  lemma {:induction false} WithKeyAppend(a: seq<Record>, b: seq<Record>, df: nat, tf: real)
    ensures WithKey(a + b, df, tf) == WithKey(a, df, tf) + WithKey(b, df, tf)
  {
    if a == [] {
      assert a + b == b;
    } else {
      assert (a + b)[0] == a[0] && (a + b)[1..] == a[1..] + b;
      WithKeyAppend(a[1..], b, df, tf);
      WithKeyCons(a + b, df, tf);
      WithKeyCons(a, df, tf);
    }
  }

  lemma {:induction false} WithKeyNone(s: seq<Record>, df: nat, tf: real)
    requires forall i :: 0 <= i < |s| ==> !HasKey(s[i], df, tf)
    ensures WithKey(s, df, tf) == []
  {
    if s != [] {
      WithKeyNone(s[1..], df, tf);
    }
  }

  lemma {:induction false} WithKeyMember(s: seq<Record>, df: nat, tf: real, e: Record)
    requires e in WithKey(s, df, tf)
    ensures e in s && HasKey(e, df, tf)
  {
    if !(HasKey(s[0], df, tf) && e == s[0]) {
      WithKeyMember(s[1..], df, tf, e);
    }
  }

  lemma SortedTail(s: seq<Record>)
    requires s != [] && Sorted(s)
    ensures Sorted(s[1..])
  {
    forall i, j | 0 <= i < j < |s| - 1 ensures RanksAtLeast(s[1..][i], s[1..][j]) {
      assert s[1..][i] == s[i + 1] && s[1..][j] == s[j + 1];
    }
  }

  /** An element that outranks the head of a sorted sequence outranks all of
      it, so shares a key with none of it. */
  lemma OutranksAll(x: Record, s: seq<Record>)
    requires s != [] && Sorted(s) && Outranks(x, s[0])
    ensures forall i :: 0 <= i < |s| ==> !SameKey(s[i], x)
  {
    forall i | 0 <= i < |s| ensures !SameKey(s[i], x) {
      if i > 0 {
        assert RanksAtLeast(s[0], s[i]);
      }
    }
  }

  lemma {:induction false} InsertWithKey(x: Record, s: seq<Record>, df: nat, tf: real)
    requires Sorted(s)
    ensures WithKey(Insert(x, s), df, tf) == WithKey(s, df, tf) + (if HasKey(x, df, tf) then [x] else [])
  {
    var mine := if HasKey(x, df, tf) then [x] else [];
    if s == [] {
      WithKeyCons([x], df, tf);
      assert [x][1..] == [];
    } else if Outranks(x, s[0]) {
      assert Insert(x, s) == [x] + s;
      WithKeyCons([x] + s, df, tf);
      assert ([x] + s)[1..] == s;
      if HasKey(x, df, tf) {
        OutranksAll(x, s);
        WithKeyNone(s, df, tf);
      }
    } else {
      var head := if HasKey(s[0], df, tf) then [s[0]] else [];
      var rest := Insert(x, s[1..]);
      calc {
        WithKey(Insert(x, s), df, tf);
        { assert Insert(x, s) == [s[0]] + rest; }
        WithKey([s[0]] + rest, df, tf);
        { WithKeyCons([s[0]] + rest, df, tf); assert ([s[0]] + rest)[1..] == rest; }
        head + WithKey(rest, df, tf);
        { SortedTail(s); InsertWithKey(x, s[1..], df, tf); }
        head + (WithKey(s[1..], df, tf) + mine);
        { WithKeyCons(s, df, tf); }
        WithKey(s, df, tf) + mine;
      }
    }
  }

  lemma SortLast(s: seq<Record>)
    requires s != []
    ensures Sort(s) == Insert(s[|s| - 1], Sort(s[..|s| - 1]))
  {
  }

  lemma {:induction false} SortStableKey(s: seq<Record>, df: nat, tf: real)
    ensures WithKey(Sort(s), df, tf) == WithKey(s, df, tf)
  {
    if s != [] {
      var p, x := s[..|s| - 1], s[|s| - 1];
      var mine := if HasKey(x, df, tf) then [x] else [];
      calc {
        WithKey(Sort(s), df, tf);
        { SortLast(s); }
        WithKey(Insert(x, Sort(p)), df, tf);
        { SortSorted(p); InsertWithKey(x, Sort(p), df, tf); }
        WithKey(Sort(p), df, tf) + mine;
        { SortStableKey(p, df, tf); }
        WithKey(p, df, tf) + mine;
        { WithKeyAppend(p, [x], df, tf); WithKeyCons([x], df, tf); assert [x][1..] == []; }
        WithKey(p + [x], df, tf);
        { assert p + [x] == s; }
        WithKey(s, df, tf);
      }
    }
  }

  /** Ties keep their order: for every key, the elements with that key appear
      in the result in the order they have in the input. */
  lemma SortStable(s: seq<Record>)
    ensures forall df, tf :: WithKey(Sort(s), df, tf) == WithKey(s, df, tf)
  {
    forall df, tf ensures WithKey(Sort(s), df, tf) == WithKey(s, df, tf) {
      SortStableKey(s, df, tf);
    }
  }

  lemma WithKeyCons(s: seq<Record>, df: nat, tf: real)
    requires s != []
    ensures WithKey(s, df, tf) == (if HasKey(s[0], df, tf) then [s[0]] else []) + WithKey(s[1..], df, tf)
  {
  }

  /** The head of a sorted sequence ranks at least as high as any element. */
  lemma HeadRanksAtLeast(s: seq<Record>, e: Record)
    requires Sorted(s) && e in s
    ensures RanksAtLeast(s[0], e)
  {
    var i :| 0 <= i < |s| && s[i] == e;
    if i > 0 {
      assert RanksAtLeast(s[0], s[i]);
    }
  }

  /** Two sorted sequences with the same elements of each key, in the same
      order, start with the same element. */
  lemma SameHead(u: seq<Record>, t: seq<Record>)
    requires u != [] && t != [] && Sorted(u) && Sorted(t)
    requires forall df, tf :: WithKey(u, df, tf) == WithKey(t, df, tf)
    ensures u[0] == t[0]
  {
    var df, tf := u[0].df, u[0].tf;
    WithKeyCons(u, df, tf);
    assert u[0] in WithKey(t, df, tf);
    WithKeyMember(t, df, tf, u[0]);
    HeadRanksAtLeast(t, u[0]);
    WithKeyCons(t, t[0].df, t[0].tf);
    assert t[0] in WithKey(u, t[0].df, t[0].tf);
    WithKeyMember(u, t[0].df, t[0].tf, t[0]);
    HeadRanksAtLeast(u, t[0]);
    assert HasKey(t[0], df, tf);
    WithKeyCons(t, df, tf);
    assert WithKey(u, df, tf)[0] == u[0];
    assert WithKey(t, df, tf)[0] == t[0];
  }

  /** Removing the same head from both keeps the elements of a key equal. */
  lemma SameTailClass(u: seq<Record>, t: seq<Record>, df: nat, tf: real)
    requires u != [] && t != [] && u[0] == t[0]
    requires WithKey(u, df, tf) == WithKey(t, df, tf)
    ensures WithKey(u[1..], df, tf) == WithKey(t[1..], df, tf)
  {
    WithKeyCons(u, df, tf);
    WithKeyCons(t, df, tf);
    var wu := WithKey(u, df, tf);
    if HasKey(u[0], df, tf) {
      assert WithKey(u[1..], df, tf) == wu[1..];
      assert WithKey(t[1..], df, tf) == wu[1..];
    } else {
      assert WithKey(u[1..], df, tf) == wu;
      assert WithKey(t[1..], df, tf) == wu;
    }
  }

  /** Two sorted sequences with the same elements of each key, in the same
      order, are equal. */
  lemma {:induction false} SortedClassesDetermine(u: seq<Record>, t: seq<Record>)
    requires Sorted(u) && Sorted(t)
    requires forall df, tf :: WithKey(u, df, tf) == WithKey(t, df, tf)
    ensures u == t
    decreases |u|
  {
    if u != [] {
      WithKeyCons(u, u[0].df, u[0].tf);
      assert WithKey(t, u[0].df, u[0].tf) != [];
    }
    if t != [] {
      WithKeyCons(t, t[0].df, t[0].tf);
      assert WithKey(u, t[0].df, t[0].tf) != [];
    }
    if u != [] && t != [] {
      SameHead(u, t);
      forall df, tf ensures WithKey(u[1..], df, tf) == WithKey(t[1..], df, tf) {
        SameTailClass(u, t, df, tf);
      }
      SortedTail(u);
      SortedTail(t);
      SortedClassesDetermine(u[1..], t[1..]);
      assert u == [u[0]] + u[1..] && t == [t[0]] + t[1..];
    }
  }

  /** Sort is the only stable sort: any sorted sequence that keeps the order of
      the elements of each key is Sort's result. */
  lemma SortUnique(s: seq<Record>, t: seq<Record>)
    requires Sorted(t)
    requires forall df, tf :: WithKey(t, df, tf) == WithKey(s, df, tf)
    ensures t == Sort(s)
  {
    SortSorted(s);
    SortStable(s);
    SortedClassesDetermine(t, Sort(s));
  }

  // ---------------------------------------------------------------------------
  // Any order that the input keeps among ties, the result keeps too.

  predicate TiesOrdered(s: seq<Record>, before: (Record, Record) -> bool) {
    forall i, j :: 0 <= i < j < |s| && SameKey(s[i], s[j]) ==> before(s[i], s[j])
  }

  lemma {:induction false} InsertTiesOrdered(x: Record, s: seq<Record>, before: (Record, Record) -> bool)
    requires Sorted(s) && TiesOrdered(s, before)
    requires forall i :: 0 <= i < |s| && SameKey(s[i], x) ==> before(s[i], x)
    ensures TiesOrdered(Insert(x, s), before)
  {
    if s != [] {
      if Outranks(x, s[0]) {
        var r := [x] + s;
        forall i, j | 0 <= i < j < |r| && SameKey(r[i], r[j]) ensures before(r[i], r[j]) {
          if i > 0 {
            assert r[i] == s[i - 1] && r[j] == s[j - 1];
          }
        }
      } else {
        var t := Insert(x, s[1..]);
        InsertTiesOrdered(x, s[1..], before);
        var r := [s[0]] + t;
        forall i, j | 0 <= i < j < |r| && SameKey(r[i], r[j]) ensures before(r[i], r[j]) {
          if i > 0 {
            assert r[i] == t[i - 1] && r[j] == t[j - 1];
          } else {
            assert r[j] == t[j - 1];
            assert t[j - 1] in multiset(s[1..]) + multiset{x};
            if t[j - 1] != x {
              var k :| 0 <= k < |s[1..]| && s[1..][k] == t[j - 1];
              assert s[k + 1] == t[j - 1];
            }
          }
        }
      }
    }
  }

  /** If every tie in the input is ordered by `before`, so is every tie in the
      sorted result. */
  lemma {:induction false} SortTiesOrdered(s: seq<Record>, before: (Record, Record) -> bool)
    requires TiesOrdered(s, before)
    ensures TiesOrdered(Sort(s), before)
  {
    if s != [] {
      var p, x := s[..|s| - 1], s[|s| - 1];
      assert TiesOrdered(p, before) by {
        assert forall i :: 0 <= i < |p| ==> p[i] == s[i];
      }
      SortTiesOrdered(p, before);
      SortSorted(p);
      forall i | 0 <= i < |Sort(p)| && SameKey(Sort(p)[i], x) ensures before(Sort(p)[i], x) {
        var e := Sort(p)[i];
        assert e in multiset(p);
        var k :| 0 <= k < |p| && p[k] == e;
        assert s[k] == e;
      }
      InsertTiesOrdered(x, Sort(p), before);
    }
  }
}
