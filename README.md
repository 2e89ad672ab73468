# TF-IDF term ranking: a verified Dafny model

The repository is a small Flask application. A user uploads a batch of
plain-text files and gets back a table of terms ranked by TF-IDF. Two
functions of `test_in_lesta_zhitkov.py` hold all of its logic, and this
project models both:

- `process_text`, the tokenizer (module `Tokenizer`, `tokenizer.dfy`). It
  lower-cases the text and deletes every ASCII punctuation character without
  putting a separator in its place. It then splits on runs of whitespace and
  keeps the tokens longer than two characters, in order and with duplicates.
- `calculate_stats`, the ranking engine. It has three modules:
  - `Counting` (`counting.dfy`) models `Counter(doc_words)`: an ordered table
    from each distinct word to its count, in order of first occurrence.
  - `Ranking` (`ranking.dfy`) models the score record, the sort key
    `(-idf, -tf)`, the stable sort `sorted` and the slice `[:50]`.
  - `TfIdf` (`tfidf.dfy`) models the vocabulary and document frequencies
    (the `idf` loop), the nested loops that build `results`, and
    `calculate_stats` itself.

Numbers are modelled exactly:

- tf is the real number `count / len(doc)`, not a float.
- A record holds the document frequency `df` instead of
  `idf = ln(N / df)`. Within one corpus, N is fixed and `1 <= df <= N`, so
  a higher idf is the same as a lower df (`TfIdf.IdfOrder`). Sorting by
  "idf descending" is therefore sorting by "df ascending". An idf of 0 is
  the same as `df = N` (`TfIdf.IdfBounds`).

Python's `sorted` is stable. It is modelled by a stable insertion sort
(`Ranking.Sort`). `Ranking.SortUnique` proves that any sorted sequence that
keeps the input order among equal keys is equal to `Sort`'s result. So the
model pins down the exact output order, whatever stable algorithm Python
uses. That order is:

- by df ascending, then by tf descending;
- on ties, by document number ascending, then by the word's first
  occurrence in its document (`TfIdf.TieOrder`).

Ties are not broken by word or by any other key: the code relies on the
order in which records were inserted, and the model states that order.

## Model

| member | source | states |
|---|---|---|
| `Tokenizer.PunctuationRanges` | test_in_lesta_zhitkov.py:16 | `string.punctuation` has exactly 32 characters, and they are exactly the four ASCII ranges `IsPunctuation` tests |
| `Tokenizer.LowerChar` | test_in_lesta_zhitkov.py:16 | lower-casing one character turns each of 'A'..'Z' into the letter at the same place in 'a'..'z', leaves no upper-case letter and changes nothing else; a character is punctuation (or whitespace) after lower-casing exactly when it was before |
| `Tokenizer.StripPunctuation` | test_in_lesta_zhitkov.py:16 | deleting punctuation never lengthens the text, and a character occurs in the result exactly when it is a non-punctuation character of the input (order and multiplicity: the two rows below) |
| `Tokenizer.StripAppend` | test_in_lesta_zhitkov.py:16 | deletion works piece by piece: the stripped concatenation is the concatenation of the stripped pieces, so the kept characters stay in order |
| `Tokenizer.StripNoPunctuation` | test_in_lesta_zhitkov.py:16 | text without punctuation is left unchanged, so every non-punctuation character is kept as often as it occurs |
| `Tokenizer.Normalize` | test_in_lesta_zhitkov.py:16 | after lower-casing and deleting punctuation, the text holds no upper-case letter and no punctuation |
| `Tokenizer.SplitFrom` | test_in_lesta_zhitkov.py:17 | every piece `str.split()` yields is non-empty, has no whitespace, and is made only of characters of the input |
| `Tokenizer.SplitAppend` | test_in_lesta_zhitkov.py:17 | a whitespace character separates: the text on each side of it splits independently |
| `Tokenizer.SplitJoin` | test_in_lesta_zhitkov.py:17 | splitting inverts joining tokens with single spaces |
| `Tokenizer.SplitFlatten` | test_in_lesta_zhitkov.py:17 | concatenating the pieces gives the input minus its whitespace: splitting loses or reorders nothing else |
| `Tokenizer.KeepLong` | test_in_lesta_zhitkov.py:17 | the filter keeps every token longer than 2 characters, in order, with its number of occurrences, and drops all others |
| `Tokenizer.ProcessText` | test_in_lesta_zhitkov.py:14-17 | every returned token is longer than 2 characters and has no punctuation, upper-case letter or whitespace; the result is the in-order subsequence of the whitespace-split normalized text that keeps exactly the long tokens, duplicates included |
| `Tokenizer.PunctuationMerges` | test_in_lesta_zhitkov.py:16 | punctuation is deleted, not replaced: removing it from the text changes no token, so `ab,cd` tokenizes as `abcd` |
| `Tokenizer.CaseFolds` | test_in_lesta_zhitkov.py:16 | an upper-case letter gives the same tokens as its lower-case counterpart, so `Cat` and `cat` count as one word |
| `Tokenizer.ProcessTextOfNormalized` | test_in_lesta_zhitkov.py:14-17 | normalized tokens joined by spaces tokenize back to themselves |
| `Tokenizer.ProcessTextIdempotent` | test_in_lesta_zhitkov.py:14-17 | tokenizing the joined output of the tokenizer returns that output again |
| `Counting.Bump` | test_in_lesta_zhitkov.py:22 | counting one more occurrence raises the total count by one and adds at most one entry |
| `Counting.FirstIndex` | test_in_lesta_zhitkov.py:36 | the position returned holds the word, and no earlier position does |
| `Counting.TallyCorrect` | test_in_lesta_zhitkov.py:22 | `Counter(doc)` lists each distinct word of the document exactly once, in order of first occurrence, with its number of occurrences; each count is between 1 and `len(doc)`, and the counts add up to `len(doc)` |
| `Counting.TallyLength` | test_in_lesta_zhitkov.py:22 | the Counter has one entry per distinct word |
| `TfIdf.DocFreq` | test_in_lesta_zhitkov.py:30 | the number of documents holding a word is at most N, and at least 1 for a vocabulary word, so `total_docs / docs_with_word` never divides by zero |
| `TfIdf.DocFreqAll` | test_in_lesta_zhitkov.py:30 | df equals N exactly when the word is in every document (both directions) |
| `TfIdf.IdfBounds` | test_in_lesta_zhitkov.py:25-31 | for a vocabulary word, N / df is at least 1 (idf >= 0), and is exactly 1 (idf = 0) when the word is in every document, and only then |
| `TfIdf.IdfOrder` | test_in_lesta_zhitkov.py:31 | N / df1 > N / df2 exactly when df1 < df2, and the ratios are equal exactly when the dfs are: sorting on -idf is sorting on df |
| `TfIdf.DocFrequencies` | test_in_lesta_zhitkov.py:26-31 | the `for word in all_words` loop fills the dictionary for exactly the vocabulary, each entry being the word's df, between 1 and N |
| `TfIdf.DocRecordsFacts` | test_in_lesta_zhitkov.py:35-44 | one document yields one record per distinct word, in order of first occurrence, each with its exact tf, its df and the 1-based document number, and every distinct word has its record |
| `TfIdf.EmptyDocumentNoRecords` | test_in_lesta_zhitkov.py:35-36 | an empty document is accepted and yields no record |
| `TfIdf.AppendDocRecords` | test_in_lesta_zhitkov.py:36-44 | the inner loop appends exactly the records of the current document to `results` |
| `TfIdf.CollectRecords` | test_in_lesta_zhitkov.py:34-44 | the nested loops leave `results` equal to the records of all documents, document by document |
| `TfIdf.RecordsOnePerPair` | test_in_lesta_zhitkov.py:34-44 | before truncation there is exactly one record per (document, distinct word) pair: each pair has one, no pair has two, each record belongs to a pair, and their number is the sum over documents of the distinct words |
| `TfIdf.RecordBounds` | test_in_lesta_zhitkov.py:37-43 | every record has tf in (0, 1], df in 1..N and a document number in 1..N |
| `TfIdf.TfSumsToOne` | test_in_lesta_zhitkov.py:37 | the tf values of a non-empty document add up to exactly 1 |
| `Ranking.Insert` | test_in_lesta_zhitkov.py:47 | inserting adds exactly one element and loses none |
| `Ranking.Sort` | test_in_lesta_zhitkov.py:47 | sorting permutes its input |
| `Ranking.SortSorted` | test_in_lesta_zhitkov.py:47 | the sorted list is ordered by idf descending (df ascending), then by tf descending, for every pair of positions |
| `Ranking.SortStable` | test_in_lesta_zhitkov.py:47 | records with equal keys keep their input order |
| `Ranking.SortTiesOrdered` | test_in_lesta_zhitkov.py:47 | any order the input keeps among equal-key records, the sorted list keeps as well |
| `Ranking.SortUnique` | test_in_lesta_zhitkov.py:47 | any sorted sequence that keeps each key's records in input order is equal to `Sort`'s result, so every stable sort returns the same list |
| `Ranking.Top` | test_in_lesta_zhitkov.py:47 | `[:50]` returns the first `min(50, len)` elements |
| `Ranking.TopPrefix` | test_in_lesta_zhitkov.py:47 | truncation keeps only input elements and keeps a sorted list sorted |
| `TfIdf.RankedTies` | test_in_lesta_zhitkov.py:35-47 | in the returned list, records with equal (idf, tf) appear by document number, then by first occurrence in the document |
| `TfIdf.RankedProperties` | test_in_lesta_zhitkov.py:19-47 | the returned list has `min(50, number of pairs)` records, drawn from the unsorted list; it is sorted and ties follow insertion order; every record is the right one for its pair and within bounds; no documents give no records |
| `TfIdf.CalculateStats` | test_in_lesta_zhitkov.py:19-47 | `calculate_stats` returns the first 50 records of the stably sorted list of per-pair records, with every property of `RankedProperties` |

## Left out

- The Flask routes `uploads`, `results` and `clear_data`: HTTP handling,
  multipart upload, decoding, flash messages, sessions, templates and
  redirects are I/O around the engine. This includes the upload checks
  (the `.txt` extension, whitespace-only content, decode errors).
- The global `uploaded_files` list, the secret key and the upload folder
  creation: these are process state and filesystem set-up.
- Floating point. tf is an exact real `count / len`. idf is represented by
  `df`, with the facts about `ln(N / df)` proved about the ratio `N / df`.
  The product `tfidf` is not computed.
  - Rounding could make two different ratios equal as floats. The model
    compares exact values, so it would not mark such records as a tie.
  - For the same reason, `TfSumsToOne` holds exactly in the model, and
    only approximately in the source.
- Tokenizer.LowerChar: lower-cases only 'A'..'Z'. Unicode case folding is
  not modelled, and non-ASCII characters pass through unchanged.
- Tokenizer.SplitFrom: splits only on the ASCII characters that Python's
  `str.split()` treats as whitespace (space, `\t \n \v \f \r`, and
  0x1C..0x1F). Unicode whitespace is not treated as a separator.
- TfIdf.DocFrequencies: the loop visits the vocabulary in an arbitrary
  order, as Python iterates over a set. The model says nothing about which
  order. The resulting dictionary does not depend on it.
- Ranking.Sort: Python's `sorted` is timsort. The model uses an
  insertion sort. `Ranking.SortUnique` shows that both return the same list.
