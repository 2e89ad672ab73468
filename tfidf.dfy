/** `calculate_stats`: per-document word counts, document
    frequencies over the vocabulary, one score record per (document, distinct
    word) pair, a stable sort by (idf descending, tf descending) and the first
    50 records. */
module TfIdf {
  import opened Counting
  import opened Ranking

  /** The vocabulary: every word that occurs in some document. */
  function Vocabulary(docs: seq<seq<string>>): set<string> {
    set d, w | 0 <= d < |docs| && w in docs[d] :: w
  }

  /** The document frequency: the number of documents that contain `w`. For
      a vocabulary word it is at least 1 and at most the number of documents,
      so the ratio inside the idf logarithm never divides by zero. */
  function DocFreq(docs: seq<seq<string>>, w: string): (n: nat)
    ensures n <= |docs|
    ensures w in Vocabulary(docs) ==> n >= 1
  {
    if docs == [] then 0
    else
      assert w in Vocabulary(docs) && w !in docs[0] ==> w in Vocabulary(docs[1..]) by {
        if w in Vocabulary(docs) && w !in docs[0] {
          var d :| 0 <= d < |docs| && w in docs[d];
          assert docs[1..][d - 1] == docs[d];
        }
      }
      (if w in docs[0] then 1 else 0) + DocFreq(docs[1..], w)
  }

  /** The records of document `d`, one per Counter item, in Counter order. */
  function DocRecords(docs: seq<seq<string>>, d: nat): (rs: seq<Record>)
    requires d < |docs|
  {
    var doc := docs[d];
    var c := Tally(doc);
    seq(|c|, k requires 0 <= k < |c| =>
      Record(c[k].word, c[k].count as real / |doc| as real, DocFreq(docs, c[k].word), d + 1))
  }

  /** The list `results` after the first `n` documents. */
  function RecordsUpTo(docs: seq<seq<string>>, n: nat): seq<Record>
    requires n <= |docs|
  {
    if n == 0 then [] else RecordsUpTo(docs, n - 1) + DocRecords(docs, n - 1)
  }

  /** The list `results` before sorting. */
  function Records(docs: seq<seq<string>>): seq<Record> {
    RecordsUpTo(docs, |docs|)
  }

  /** The number of (document, distinct word) pairs in the first `n` documents. */
  function PairsUpTo(docs: seq<seq<string>>, n: nat): nat
    requires n <= |docs|
  {
    if n == 0 then 0 else PairsUpTo(docs, n - 1) + |Distinct(docs[n - 1])|
  }

  function PairCount(docs: seq<seq<string>>): nat {
    PairsUpTo(docs, |docs|)
  }

  /** The record for word `w` of document `d` (0-based): tf is the number of
      occurrences over the length of the document, df the number of documents
      containing `w`, and the document number is 1-based. */
  function ExpectedRecord(docs: seq<seq<string>>, d: nat, w: string): Record
    requires d < |docs| && w in docs[d]
  {
    Record(w, multiset(docs[d])[w] as real / |docs[d]| as real, DocFreq(docs, w), d + 1)
  }

  predicate IsRecordOf(docs: seq<seq<string>>, r: Record) {
    1 <= r.docId <= |docs| && r.word in docs[r.docId - 1] &&
    r == ExpectedRecord(docs, r.docId - 1, r.word)
  }

  /** The order in which `results` lists its records: by document, then by
      first occurrence of the word in that document. */
  predicate TieOrder(docs: seq<seq<string>>, a: Record, b: Record) {
    a.docId < b.docId ||
    (a.docId == b.docId && 1 <= a.docId <= |docs| &&
     a.word in docs[a.docId - 1] && b.word in docs[a.docId - 1] &&
     FirstIndex(docs[a.docId - 1], a.word) < FirstIndex(docs[a.docId - 1], b.word))
  }

  /** The sum of the tf values of some records. */
  function SumTf(rs: seq<Record>): real {
    if rs == [] then 0.0 else rs[0].tf + SumTf(rs[1..])
  }

  // ---------------------------------------------------------------------------
  // Document frequency and idf.

  /** df reaches the number of documents exactly for a word in every document. */
  lemma {:induction false} DocFreqAll(docs: seq<seq<string>>, w: string)
    ensures DocFreq(docs, w) == |docs| <==> forall d :: 0 <= d < |docs| ==> w in docs[d]
  {
    if docs != [] {
      DocFreqAll(docs[1..], w);
      assert forall d :: 1 <= d < |docs| ==> docs[d] == docs[1..][d - 1];
    }
  }

  lemma RatioAtLeastOne(n: nat, df: nat)
    requires 1 <= df <= n
    ensures n as real / df as real >= 1.0
    ensures n as real / df as real == 1.0 <==> n == df
  {
    var q := n as real / df as real;
    assert q * df as real == n as real;
  }

  /** idf = ln(N / df) is never negative and is 0 exactly when the word is in
      every document: N / df is at least 1, and is 1 exactly then. */
  lemma IdfBounds(docs: seq<seq<string>>, w: string)
    requires w in Vocabulary(docs)
    ensures |docs| as real / DocFreq(docs, w) as real >= 1.0
    ensures |docs| as real / DocFreq(docs, w) as real == 1.0 <==> forall d :: 0 <= d < |docs| ==> w in docs[d]
  {
    DocFreqAll(docs, w);
    assert DocFreq(docs, w) >= 1;
    RatioAtLeastOne(|docs|, DocFreq(docs, w));
  }

  /** For a fixed corpus size, a larger N / df (a larger idf) is a smaller df:
      sorting on -idf is sorting on df. */
  lemma IdfOrder(n: nat, df1: nat, df2: nat)
    requires n >= 1 && df1 >= 1 && df2 >= 1
    ensures n as real / df1 as real > n as real / df2 as real <==> df1 < df2
    ensures n as real / df1 as real == n as real / df2 as real <==> df1 == df2
  {
    var q1, q2 := n as real / df1 as real, n as real / df2 as real;
    assert q1 * df1 as real == n as real;
    assert q2 * df2 as real == n as real;
    if df1 < df2 {
      assert q2 * df1 as real < n as real;
    } else if df1 > df2 {
      assert q1 * df2 as real < n as real;
    }
  }

  // ---------------------------------------------------------------------------
  // The records before sorting.

  /** Every record of `rs` has document number `n`. */
  predicate IdsEqual(rs: seq<Record>, n: nat) {
    forall k :: 0 <= k < |rs| ==> rs[k].docId == n
  }

  /** The records of document `d` carry its 1-based number, one per Counter
      item. */
  lemma DocRecordsShape(docs: seq<seq<string>>, d: nat)
    requires d < |docs|
    ensures |DocRecords(docs, d)| == |Tally(docs[d])|
    ensures IdsEqual(DocRecords(docs, d), d + 1)
  {
  }

  lemma DocRecordsWellFormed(docs: seq<seq<string>>, d: nat)
    requires d < |docs|
    ensures var rs := DocRecords(docs, d);
      && |rs| == |Distinct(docs[d])|
      && forall k :: 0 <= k < |rs| ==> IsRecordOf(docs, rs[k])
  {
    var rs := DocRecords(docs, d);
    TallyWords(docs[d]);
    TallyCounts(docs[d]);
    TallyLength(docs[d]);
  }

  /** Every two records of `rs` are in TieOrder. */
  predicate InTieOrder(docs: seq<seq<string>>, rs: seq<Record>) {
    forall i, j :: 0 <= i < j < |rs| ==> TieOrder(docs, rs[i], rs[j])
  }

  lemma DocRecordsOrder(docs: seq<seq<string>>, d: nat)
    requires d < |docs|
    ensures InTieOrder(docs, DocRecords(docs, d))
  {
    var doc := docs[d];
    var rs, c := DocRecords(docs, d), Tally(doc);
    TallyOrder(doc);
    assert FirstOccurrenceOrder(doc, c);
    forall i, j | 0 <= i < j < |rs| ensures TieOrder(docs, rs[i], rs[j]) {
      assert rs[i].word == c[i].word && rs[j].word == c[j].word;
      assert rs[i].docId == d + 1 && rs[j].docId == d + 1;
      assert c[i].word in doc && c[j].word in doc;
      assert FirstIndex(doc, c[i].word) < FirstIndex(doc, c[j].word);
    }
  }

  lemma DocRecordsComplete(docs: seq<seq<string>>, d: nat)
    requires d < |docs|
    ensures forall w :: w in docs[d] ==> ExpectedRecord(docs, d, w) in DocRecords(docs, d)
  {
    var doc, rs := docs[d], DocRecords(docs, d);
    var c := Tally(doc);
    TallyWords(doc);
    TallyCounts(doc);
    forall w | w in doc ensures ExpectedRecord(docs, d, w) in rs {
      assert w in Words(c);
      var k :| 0 <= k < |c| && Words(c)[k] == w;
      assert rs[k] == ExpectedRecord(docs, d, w);
    }
  }

  /** The records of one document: one per distinct word, in order of first
      occurrence, each with its expected tf, df and document number. */
  lemma DocRecordsFacts(docs: seq<seq<string>>, d: nat)
    requires d < |docs|
    ensures var rs := DocRecords(docs, d);
      && |rs| == |Distinct(docs[d])|
      && (forall k :: 0 <= k < |rs| ==> rs[k].docId == d + 1 && IsRecordOf(docs, rs[k]))
      && (forall i, j :: 0 <= i < j < |rs| ==> TieOrder(docs, rs[i], rs[j]))
      && (forall w :: w in docs[d] ==> ExpectedRecord(docs, d, w) in rs)
  {
    DocRecordsShape(docs, d);
    DocRecordsWellFormed(docs, d);
    DocRecordsOrder(docs, d);
    DocRecordsComplete(docs, d);
  }

  /** Every record of `rs` has a document number in 1..n. */
  predicate IdsWithin(rs: seq<Record>, n: nat) {
    forall k :: 0 <= k < |rs| ==> 1 <= rs[k].docId <= n
  }

  lemma {:induction false} RecordsUpToIds(docs: seq<seq<string>>, n: nat)
    requires n <= |docs|
    ensures IdsWithin(RecordsUpTo(docs, n), n)
  {
    if n > 0 {
      RecordsUpToIds(docs, n - 1);
      DocRecordsShape(docs, n - 1);
      var a, b := RecordsUpTo(docs, n - 1), DocRecords(docs, n - 1);
      assert IdsWithin(a, n - 1);
      var rs := a + b;
      assert RecordsUpTo(docs, n) == rs;
      forall k | 0 <= k < |rs| ensures 1 <= rs[k].docId <= n {
        if k < |a| {
          assert rs[k] == a[k];
          assert 1 <= a[k].docId <= n - 1;
        } else {
          assert rs[k] == b[k - |a|];
          assert b[k - |a|].docId == n;
        }
      }
    }
  }

  /** Every record of `rs` is the record of some (document, word) pair. */
  predicate AllRecordsOf(docs: seq<seq<string>>, rs: seq<Record>) {
    forall k :: 0 <= k < |rs| ==> IsRecordOf(docs, rs[k])
  }

  lemma AllRecordsOfAppend(docs: seq<seq<string>>, a: seq<Record>, b: seq<Record>)
    requires AllRecordsOf(docs, a) && AllRecordsOf(docs, b)
    ensures AllRecordsOf(docs, a + b)
  {
    forall k | 0 <= k < |a + b| ensures IsRecordOf(docs, (a + b)[k]) {
      if k < |a| {
        assert (a + b)[k] == a[k];
      } else {
        assert (a + b)[k] == b[k - |a|];
      }
    }
  }

  lemma {:induction false} RecordsUpToWellFormed(docs: seq<seq<string>>, n: nat)
    requires n <= |docs|
    ensures |RecordsUpTo(docs, n)| == PairsUpTo(docs, n)
    ensures AllRecordsOf(docs, RecordsUpTo(docs, n))
  {
    if n > 0 {
      var a, b := RecordsUpTo(docs, n - 1), DocRecords(docs, n - 1);
      RecordsUpToWellFormed(docs, n - 1);
      DocRecordsWellFormed(docs, n - 1);
      assert AllRecordsOf(docs, b);
      AllRecordsOfAppend(docs, a, b);
      assert RecordsUpTo(docs, n) == a + b;
    }
  }

  /** Records of earlier documents followed by records of document `n`,
      each part in TieOrder, are in TieOrder. */
  lemma TieOrderAppend(docs: seq<seq<string>>, a: seq<Record>, b: seq<Record>, n: nat)
    requires n >= 1 && InTieOrder(docs, a) && IdsWithin(a, n - 1) && InTieOrder(docs, b)
    requires IdsEqual(b, n)
    ensures InTieOrder(docs, a + b)
  {
    var rs := a + b;
    forall i, j | 0 <= i < j < |rs| ensures TieOrder(docs, rs[i], rs[j]) {
      if j < |a| {
        assert rs[i] == a[i] && rs[j] == a[j];
      } else if i >= |a| {
        assert rs[i] == b[i - |a|] && rs[j] == b[j - |a|];
      } else {
        assert rs[i] == a[i] && rs[j] == b[j - |a|];
      }
    }
  }

  lemma {:induction false} RecordsUpToOrder(docs: seq<seq<string>>, n: nat)
    requires n <= |docs|
    ensures InTieOrder(docs, RecordsUpTo(docs, n))
  {
    if n > 0 {
      var a, b := RecordsUpTo(docs, n - 1), DocRecords(docs, n - 1);
      RecordsUpToOrder(docs, n - 1);
      RecordsUpToIds(docs, n - 1);
      DocRecordsOrder(docs, n - 1);
      TieOrderAppend(docs, a, b, n);
      assert RecordsUpTo(docs, n) == a + b;
    }
  }

  lemma {:induction false} RecordsUpToComplete(docs: seq<seq<string>>, n: nat)
    requires n <= |docs|
    ensures var rs := RecordsUpTo(docs, n);
      forall d, w :: 0 <= d < n && w in docs[d] ==> ExpectedRecord(docs, d, w) in rs
  {
    if n > 0 {
      RecordsUpToComplete(docs, n - 1);
      DocRecordsComplete(docs, n - 1);
    }
  }

  lemma RecordsUpToFacts(docs: seq<seq<string>>, n: nat)
    requires n <= |docs|
    ensures var rs := RecordsUpTo(docs, n);
      && |rs| == PairsUpTo(docs, n)
      && (forall k :: 0 <= k < |rs| ==> 1 <= rs[k].docId <= n && IsRecordOf(docs, rs[k]))
      && (forall i, j :: 0 <= i < j < |rs| ==> TieOrder(docs, rs[i], rs[j]))
      && (forall d, w :: 0 <= d < n && w in docs[d] ==> ExpectedRecord(docs, d, w) in rs)
  {
    RecordsUpToIds(docs, n);
    RecordsUpToWellFormed(docs, n);
    RecordsUpToOrder(docs, n);
    RecordsUpToComplete(docs, n);
  }

  /** Before truncation `results` holds exactly one record per (document,
      distinct word) pair: each pair has its record, every record belongs to
      a pair, no pair has two, and their number is the number of pairs. A
      document without words contributes no record. */
  lemma RecordsOnePerPair(docs: seq<seq<string>>)
    ensures var rs := Records(docs);
      && |rs| == PairCount(docs)
      && (forall d, w :: 0 <= d < |docs| && w in docs[d] ==> ExpectedRecord(docs, d, w) in rs)
      && (forall k :: 0 <= k < |rs| ==> IsRecordOf(docs, rs[k]))
      && (forall i, j :: 0 <= i < j < |rs| ==> (rs[i].docId, rs[i].word) != (rs[j].docId, rs[j].word))
  {
    RecordsUpToFacts(docs, |docs|);
    var rs := Records(docs);
    forall i, j | 0 <= i < j < |rs| ensures (rs[i].docId, rs[i].word) != (rs[j].docId, rs[j].word) {
      assert TieOrder(docs, rs[i], rs[j]);
    }
  }

  /** An empty document is tolerated and contributes no record. */
  lemma EmptyDocumentNoRecords(docs: seq<seq<string>>, d: nat)
    requires d < |docs| && docs[d] == []
    ensures DocRecords(docs, d) == []
    ensures |Distinct(docs[d])| == 0
  {
    assert Distinct(docs[d]) == {};
  }

  /** Every record has tf in (0, 1], df in 1..N and a document number in 1..N. */
  lemma RecordBounds(docs: seq<seq<string>>, r: Record)
    requires IsRecordOf(docs, r)
    ensures 1 <= r.docId <= |docs|
    ensures 1 <= r.df <= |docs|
    ensures 0.0 < r.tf <= 1.0
  {
    var doc := docs[r.docId - 1];
    assert r.word in Vocabulary(docs) by {
      assert 0 <= r.docId - 1 < |docs| && r.word in docs[r.docId - 1];
    }
    OccurrencesAtMostLength(doc, r.word);
    var count, len := multiset(doc)[r.word] as real, |doc| as real;
    assert 1.0 <= count <= len;
    assert r.tf * len == count;
  }

  lemma {:induction false} SumTfScaled(rs: seq<Record>, c: seq<Entry>, len: real)
    requires len > 0.0 && |rs| == |c|
    requires forall k :: 0 <= k < |rs| ==> rs[k].tf == c[k].count as real / len
    ensures SumTf(rs) == SumCounts(c) as real / len
  {
    if rs != [] {
      assert forall k :: 0 <= k < |rs| - 1 ==> rs[1..][k] == rs[k + 1] && c[1..][k] == c[k + 1];
      SumTfScaled(rs[1..], c[1..], len);
      var x, y := c[0].count as real, SumCounts(c[1..]) as real;
      assert SumTf(rs) == x / len + y / len;
      DivAdd(x, y, len);
    }
  }

  lemma DivAdd(x: real, y: real, z: real)
    requires z > 0.0
    ensures x / z + y / z == (x + y) / z
  {
  }

  lemma DocRecordsTf(docs: seq<seq<string>>, d: nat)
    requires d < |docs|
    ensures var rs, c := DocRecords(docs, d), Tally(docs[d]);
      && |rs| == |c|
      && forall k :: 0 <= k < |rs| ==> rs[k].tf == c[k].count as real / |docs[d]| as real
  {
  }

  lemma DivSelf(x: real)
    requires x > 0.0
    ensures x / x == 1.0
  {
  }

  /** The tf values of a non-empty document add up to exactly 1. */
  lemma TfSumsToOne(docs: seq<seq<string>>, d: nat)
    requires d < |docs| && docs[d] != []
    ensures SumTf(DocRecords(docs, d)) == 1.0
  {
    var rs, c := DocRecords(docs, d), Tally(docs[d]);
    var len := |docs[d]| as real;
    DocRecordsTf(docs, d);
    SumTfScaled(rs, c, len);
    TallySum(docs[d]);
    DivSelf(len);
  }

  /** The `k`-th record of document `d` is the one the loop body of
      `calculate_stats` appends for the `k`-th Counter item. */
  lemma DocRecordAt(docs: seq<seq<string>>, d: nat, k: nat)
    requires d < |docs| && k < |Tally(docs[d])|
    ensures var c := Tally(docs[d]);
      && |DocRecords(docs, d)| == |c|
      && c[k].word in Vocabulary(docs)
      && SumCounts(c) > 0
      && DocRecords(docs, d)[k] ==
         Record(c[k].word, c[k].count as real / SumCounts(c) as real, DocFreq(docs, c[k].word), d + 1)
  {
    var c := Tally(docs[d]);
    TallyCorrect(docs[d]);
    assert c[k].word in docs[d];
  }

  lemma RankedTies(docs: seq<seq<string>>)
    ensures var stats := Top(Sort(Records(docs)));
      forall i, j :: 0 <= i < j < |stats| && SameKey(stats[i], stats[j]) ==>
        TieOrder(docs, stats[i], stats[j])
  {
    var results := Records(docs);
    var before := (a: Record, b: Record) => TieOrder(docs, a, b);
    RecordsUpToOrder(docs, |docs|);
    assert results == RecordsUpTo(docs, |docs|);
    forall i, j | 0 <= i < j < |results| && SameKey(results[i], results[j])
      ensures before(results[i], results[j])
    {
      assert TieOrder(docs, results[i], results[j]);
    }
    SortTiesOrdered(results, before);
    TopTiesOrdered(Sort(results), before);
    var stats := Top(Sort(results));
    assert TiesOrdered(stats, before);
  }

  /** What the ranked, truncated list promises: at most 50 records, as many as
      there are pairs otherwise, drawn from the unsorted list, sorted by (idf
      descending, tf descending), ties in the order of `results`, every record
      the expected one with its bounds; no documents, no records. */
  lemma RankedProperties(docs: seq<seq<string>>)
    ensures var stats := Top(Sort(Records(docs)));
      && |stats| == (if PairCount(docs) <= MaxResults then PairCount(docs) else MaxResults)
      && multiset(stats) <= multiset(Records(docs))
      && Sorted(stats)
      && (forall i, j :: 0 <= i < j < |stats| && SameKey(stats[i], stats[j]) ==>
            TieOrder(docs, stats[i], stats[j]))
      && (forall r :: r in stats ==>
            IsRecordOf(docs, r) && 1 <= r.docId <= |docs| && 1 <= r.df <= |docs| && 0.0 < r.tf <= 1.0)
      && (docs == [] ==> stats == [])
  {
    var results := Records(docs);
    RecordsUpToWellFormed(docs, |docs|);
    SortSorted(results);
    TopPrefix(Sort(results));
    RankedTies(docs);
    var stats := Top(Sort(results));
    forall r | r in stats
      ensures IsRecordOf(docs, r) && 1 <= r.docId <= |docs| && 1 <= r.df <= |docs| && 0.0 < r.tf <= 1.0
    {
      assert r in multiset(results);
      RecordBounds(docs, r);
    }
  }

  // ---------------------------------------------------------------------------
  // calculate_stats

  /** The `idf` loop of `calculate_stats`: for every word of the vocabulary,
      in whatever order the set yields them, the number of documents holding
      it. */
  method DocFrequencies(docs: seq<seq<string>>) returns (idf: map<string, nat>)
    ensures idf.Keys == Vocabulary(docs)
    ensures forall w :: w in idf ==> idf[w] == DocFreq(docs, w) && 1 <= idf[w] <= |docs|
  {
    idf := map[];
    var allWords := Vocabulary(docs);
    var pending := allWords;
    while pending != {}
      invariant pending <= allWords
      invariant idf.Keys == allWords - pending
      invariant forall w :: w in idf ==> idf[w] == DocFreq(docs, w) && 1 <= idf[w] <= |docs|
      decreases |pending|
    {
      var word :| word in pending;
      var docsWithWord := DocFreq(docs, word);
      idf := idf[word := docsWithWord];
      pending := pending - {word};
    }
  }

  /** `idf` holds the document frequency of every vocabulary word. */
  predicate IsDocFreqTable(docs: seq<seq<string>>, idf: map<string, nat>) {
    forall w :: w in Vocabulary(docs) ==> w in idf && idf[w] == DocFreq(docs, w)
  }

  /** The inner loop of `calculate_stats`: for every item of the Counter of
      document `docId`, in order, append its record to `results`. */
  method AppendDocRecords(docs: seq<seq<string>>, docId: nat, tf: seq<Entry>, idf: map<string, nat>,
                          results: seq<Record>)
    returns (extended: seq<Record>)
    requires docId < |docs| && tf == Tally(docs[docId])
    requires IsDocFreqTable(docs, idf)
    ensures extended == results + DocRecords(docs, docId)
  {
    ghost var target := DocRecords(docs, docId);
    assert |target| == |tf| by {
      DocRecordsShape(docs, docId);
    }
    extended := results;
    var k := 0;
    while k < |tf|
      invariant k <= |tf|
      invariant extended == results + target[..k]
    {
      var word, count := tf[k].word, tf[k].count;
      assert word in idf && SumCounts(tf) > 0 by {
        DocRecordAt(docs, docId, k);
      }
      var tfVal := count as real / SumCounts(tf) as real;
      assert target[k] == Record(word, tfVal, idf[word], docId + 1) by {
        DocRecordAt(docs, docId, k);
      }
      extended := extended + [Record(word, tfVal, idf[word], docId + 1)];
      assert target[..k + 1] == target[..k] + [target[k]];
      k := k + 1;
    }
    assert target[..k] == target;
  }

  /** The outer loop of `calculate_stats` that builds `results`: the records
      of each document in turn. */
  method CollectRecords(docs: seq<seq<string>>, tfs: seq<seq<Entry>>, idf: map<string, nat>)
    returns (results: seq<Record>)
    requires |tfs| == |docs| && forall d :: 0 <= d < |docs| ==> tfs[d] == Tally(docs[d])
    requires IsDocFreqTable(docs, idf)
    ensures results == Records(docs)
  {
    results := [];
    var docId := 0;
    while docId < |tfs|
      invariant docId <= |tfs|
      invariant results == RecordsUpTo(docs, docId)
    {
      results := AppendDocRecords(docs, docId, tfs[docId], idf, results);
      docId := docId + 1;
    }
  }

  method CalculateStats(docs: seq<seq<string>>) returns (stats: seq<Record>)
    ensures stats == Top(Sort(Records(docs)))
    ensures |stats| == if PairCount(docs) <= MaxResults then PairCount(docs) else MaxResults
    ensures multiset(stats) <= multiset(Records(docs))
    ensures Sorted(stats)
    ensures forall i, j :: 0 <= i < j < |stats| && SameKey(stats[i], stats[j]) ==>
      TieOrder(docs, stats[i], stats[j])
    ensures forall r :: r in stats ==>
      IsRecordOf(docs, r) && 1 <= r.docId <= |docs| && 1 <= r.df <= |docs| && 0.0 < r.tf <= 1.0
    ensures docs == [] ==> stats == []
  {
    // One Counter per document.
    var tfs := seq(|docs|, i requires 0 <= i < |docs| => Tally(docs[i]));
    var idf := DocFrequencies(docs);
    var results := CollectRecords(docs, tfs, idf);
    stats := Top(Sort(results));
    RankedProperties(docs);
  }
}
