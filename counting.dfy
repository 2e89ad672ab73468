/** Python's `Counter` built over one document: a table from each distinct word of a
    document to its number of occurrences, kept in the order in which the
    words first occur (a `dict` keeps insertion order). */
module Counting {

  /** One item of a `Counter`: a word and its count. */
  datatype Entry = Entry(word: string, count: nat)

  function Words(c: seq<Entry>): seq<string> {
    seq(|c|, i requires 0 <= i < |c| => c[i].word)
  }

  predicate DistinctWords(c: seq<Entry>) {
    forall i, j :: 0 <= i < j < |c| ==> c[i].word != c[j].word
  }

  /** The total of the counts of a `Counter`. */
  function SumCounts(c: seq<Entry>): nat {
    if c == [] then 0 else c[0].count + SumCounts(c[1..])
  }

  /** Counting one more occurrence of `w`: its entry goes up by one, or a new entry with
      count 1 is appended at the end. */
  function Bump(c: seq<Entry>, w: string): (r: seq<Entry>)
    ensures SumCounts(r) == SumCounts(c) + 1
    ensures |r| <= |c| + 1
  {
    if c == [] then [Entry(w, 1)]
    else if c[0].word == w then [Entry(w, c[0].count + 1)] + c[1..]
    else
      assert ([c[0]] + Bump(c[1..], w))[1..] == Bump(c[1..], w);
      [c[0]] + Bump(c[1..], w)
  }

  /** The `Counter` of a document: its words counted one after the other. */
  function Tally(doc: seq<string>): (c: seq<Entry>)
    ensures |c| <= |doc|
    decreases |doc|
  {
    if doc == [] then [] else Bump(Tally(doc[..|doc| - 1]), doc[|doc| - 1])
  }

  /** The position of the first occurrence of `w` in `s`. */
  function FirstIndex(s: seq<string>, w: string): (k: nat)
    requires w in s
    ensures k < |s| && s[k] == w && w !in s[..k]
  {
    if s[0] == w then 0
    else
      var k := FirstIndex(s[1..], w);
      assert s[..k + 1] == [s[0]] + s[1..][..k];
      k + 1
  }

  lemma FirstIndexUnique(s: seq<string>, w: string, k: nat)
    requires k < |s| && s[k] == w && w !in s[..k]
    ensures FirstIndex(s, w) == k
  {
    var f := FirstIndex(s, w);
  }

  /** Appending a word does not move the first occurrence of an earlier one. */
  lemma FirstIndexAppend(p: seq<string>, x: string, w: string)
    requires w in p
    ensures FirstIndex(p + [x], w) == FirstIndex(p, w)
  {
    var k := FirstIndex(p, w);
    assert (p + [x])[..k] == p[..k];
    FirstIndexUnique(p + [x], w, k);
  }

  lemma {:induction false} BumpExisting(c: seq<Entry>, w: string)
    requires DistinctWords(c) && w in Words(c)
    ensures var r := Bump(c, w);
      |r| == |c| &&
      forall i :: 0 <= i < |c| ==>
        r[i].word == c[i].word && r[i].count == c[i].count + (if c[i].word == w then 1 else 0)
  {
    if c[0].word != w {
      assert w in Words(c[1..]) by {
        var i :| 0 <= i < |c| && Words(c)[i] == w;
        assert Words(c[1..])[i - 1] == w;
      }
      BumpExisting(c[1..], w);
    }
  }

  lemma {:induction false} BumpNew(c: seq<Entry>, w: string)
    requires w !in Words(c)
    ensures Bump(c, w) == c + [Entry(w, 1)]
  {
    if c != [] {
      assert Words(c)[0] == c[0].word;
      assert w !in Words(c[1..]) by {
        assert forall i :: 0 <= i < |c| - 1 ==> Words(c[1..])[i] == Words(c)[i + 1];
      }
      BumpNew(c[1..], w);
      assert c == [c[0]] + c[1..];
    }
  }

  /** The words of the Counter: each distinct word of the document exactly
      once. */
  lemma {:induction false} TallyWords(doc: seq<string>)
    ensures var c := Tally(doc);
      && |c| <= |doc|
      && DistinctWords(c)
      && (forall w :: w in Words(c) <==> w in doc)
      && (forall i :: 0 <= i < |c| ==> c[i].word in doc)
    decreases |doc|
  {
    if doc != [] {
      var p, x := doc[..|doc| - 1], doc[|doc| - 1];
      assert doc == p + [x];
      TallyWords(p);
      var c := Tally(p);
      var r := Tally(doc);
      if x in p {
        assert x in Words(c);
        BumpExisting(c, x);
        assert forall i :: 0 <= i < |c| ==> Words(r)[i] == Words(c)[i];
        assert Words(r) == Words(c);
      } else {
        assert x !in Words(c);
        BumpNew(c, x);
        assert Words(r) == Words(c) + [x];
      }
    }
  }

  /** The counts of the Counter: the number of occurrences of each word,
      between 1 and the length of the document. */
  lemma {:induction false} TallyCounts(doc: seq<string>)
    ensures var c := Tally(doc);
      && (forall i :: 0 <= i < |c| ==> c[i].count == multiset(doc)[c[i].word])
      && (forall i :: 0 <= i < |c| ==> 1 <= c[i].count <= |doc|)
    decreases |doc|
  {
    if doc != [] {
      var p, x := doc[..|doc| - 1], doc[|doc| - 1];
      assert doc == p + [x];
      TallyWords(p);
      TallyCounts(p);
      var c := Tally(p);
      var r := Tally(doc);
      assert multiset(doc) == multiset(p) + multiset{x};
      if x in p {
        assert x in Words(c);
        BumpExisting(c, x);
      } else {
        assert x !in Words(c);
        BumpNew(c, x);
      }
    }
  }

  /** The entries of `c` are words of `doc`, listed in order of their first
      occurrence in `doc`. */
  predicate FirstOccurrenceOrder(doc: seq<string>, c: seq<Entry>) {
    (forall i :: 0 <= i < |c| ==> c[i].word in doc) &&
    forall i, j :: 0 <= i < j < |c| ==> FirstIndex(doc, c[i].word) < FirstIndex(doc, c[j].word)
  }

  /** The order of the Counter: words in order of first occurrence. */
  lemma {:induction false} TallyOrder(doc: seq<string>)
    ensures FirstOccurrenceOrder(doc, Tally(doc))
    decreases |doc|
  {
    if doc != [] {
      var p, x := doc[..|doc| - 1], doc[|doc| - 1];
      assert doc == p + [x];
      TallyWords(p);
      TallyWords(doc);
      TallyOrder(p);
      var c := Tally(p);
      var r := Tally(doc);
      forall w | w in p ensures FirstIndex(doc, w) == FirstIndex(p, w) {
        FirstIndexAppend(p, x, w);
      }
      if x in p {
        assert x in Words(c);
        BumpExisting(c, x);
      } else {
        assert x !in Words(c);
        BumpNew(c, x);
        assert doc[..|p|] == p;
        FirstIndexUnique(doc, x, |p|);
      }
    }
  }

  lemma {:induction false} TallySum(doc: seq<string>)
    ensures SumCounts(Tally(doc)) == |doc|
    decreases |doc|
  {
    if doc != [] {
      TallySum(doc[..|doc| - 1]);
    }
  }

  /** What the Counter holds: each distinct word of the document exactly once,
      in order of first occurrence, with its number of occurrences; the counts
      are between 1 and the document length and add up to it. */
  lemma TallyCorrect(doc: seq<string>)
    ensures var c := Tally(doc);
      && |c| <= |doc|
      && DistinctWords(c)
      && (forall w :: w in Words(c) <==> w in doc)
      && (forall i :: 0 <= i < |c| ==> c[i].word in doc)
      && (forall i :: 0 <= i < |c| ==> c[i].count == multiset(doc)[c[i].word])
      && (forall i :: 0 <= i < |c| ==> 1 <= c[i].count <= |doc|)
      && (forall i, j :: 0 <= i < j < |c| ==> FirstIndex(doc, c[i].word) < FirstIndex(doc, c[j].word))
      && SumCounts(c) == |doc|
  {
    TallyWords(doc);
    TallyCounts(doc);
    TallyOrder(doc);
    TallySum(doc);
  }

  /** A count never exceeds the length of the sequence. */
  lemma {:induction false} OccurrencesAtMostLength(s: seq<string>, w: string)
    ensures multiset(s)[w] <= |s|
  {
    if s != [] {
      assert s == s[..|s| - 1] + [s[|s| - 1]];
      OccurrencesAtMostLength(s[..|s| - 1], w);
    }
  }

  lemma {:induction false} DistinctCardinality(ws: seq<string>)
    requires forall i, j :: 0 <= i < j < |ws| ==> ws[i] != ws[j]
    ensures |set w | w in ws| == |ws|
  {
    if ws != [] {
      var p := ws[..|ws| - 1];
      DistinctCardinality(p);
      assert (set w | w in ws) == (set w | w in p) + {ws[|ws| - 1]};
      assert ws[|ws| - 1] !in (set w | w in p);
    }
  }

  /** The distinct words of a document. */
  function Distinct(doc: seq<string>): set<string> {
    set w | w in doc
  }

  /** The Counter has one entry per distinct word. */
  lemma TallyLength(doc: seq<string>)
    ensures |Tally(doc)| == |Distinct(doc)|
  {
    TallyCorrect(doc);
    var c := Tally(doc);
    DistinctCardinality(Words(c));
    assert (set w | w in Words(c)) == (set w | w in doc);
  }
}
