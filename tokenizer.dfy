/** The tokenizer `process_text`: lower-case the text, delete every ASCII
    punctuation character, split on runs of whitespace and keep the tokens
    longer than two characters. Characters are modelled over ASCII: only
    'A'..'Z' are lower-cased, and the separators are the ASCII characters that
    Python's `str.split()` treats as whitespace. */
module Tokenizer {

  /** The 32 characters of Python's `string.punctuation`. */
  const Punctuation: string := "!\"#$%&'()*+,-./:;<=>?@[\\]^_`{|}~"

  /** The four ASCII ranges that make up `Punctuation` (see PunctuationRanges). */
  predicate IsPunctuation(c: char) {
    33 <= c as int <= 47 || 58 <= c as int <= 64 || 91 <= c as int <= 96 || 123 <= c as int <= 126
  }

  lemma PunctuationRanges()
    ensures |Punctuation| == 32
    ensures forall c :: IsPunctuation(c) <==> c in Punctuation
  {
    assert forall i :: 0 <= i < |Punctuation| ==> IsPunctuation(Punctuation[i]);
    forall c | IsPunctuation(c) ensures c in Punctuation {
      var k := c as int;
      var i := if k <= 47 then k - 33 else if k <= 64 then k - 58 + 15 else if k <= 96 then k - 91 + 22 else k - 123 + 28;
      assert Punctuation[i] == c;
    }
  }

  predicate IsUpper(c: char) {
    'A' <= c <= 'Z'
  }

  /** Space, the control characters \t \n \v \f \r and the four information
      separators 0x1C..0x1F: the ASCII characters `str.split()` splits on. */
  predicate IsWhitespace(c: char) {
    c == ' ' || 9 <= c as int <= 13 || 28 <= c as int <= 31
  }

  predicate NoWhitespace(s: string) {
    forall c :: c in s ==> !IsWhitespace(c)
  }

  /** A token as `str.split()` produces it: non-empty, without whitespace. */
  predicate IsToken(t: string) {
    t != [] && NoWhitespace(t)
  }

  /** A token as `process_text` returns it. */
  predicate IsNormalToken(t: string) {
    |t| > 2 && forall c :: c in t ==> !IsPunctuation(c) && !IsUpper(c) && !IsWhitespace(c)
  }

  /** `str.lower()` on one character: 'A'..'Z' become 'a'..'z'. */
  function LowerChar(c: char): (r: char)
    ensures IsUpper(c) ==> 'a' <= r <= 'z' && r as int - 'a' as int == c as int - 'A' as int
    ensures !IsUpper(r)
    ensures !IsUpper(c) ==> r == c
    ensures IsPunctuation(r) <==> IsPunctuation(c)
    ensures IsWhitespace(r) <==> IsWhitespace(c)
  {
    if IsUpper(c) then (c as int + 32) as char else c
  }

  /** Lower-casing a whole text, character by character. */
  function Lower(s: string): (r: string)
  {
    seq(|s|, i requires 0 <= i < |s| => LowerChar(s[i]))
  }

  /** Deleting every punctuation character through `str.translate`, with
      nothing put in its place. */
  function StripPunctuation(s: string): (r: string)
    ensures |r| <= |s|
    ensures forall c :: c in r <==> c in s && !IsPunctuation(c)
  {
    if s == [] then []
    else
      assert s == [s[0]] + s[1..];
      if IsPunctuation(s[0]) then StripPunctuation(s[1..])
      else [s[0]] + StripPunctuation(s[1..])
  }

  /** The text after the first two steps of `process_text`. */
  function Normalize(text: string): (r: string)
    ensures forall c :: c in r ==> !IsUpper(c) && !IsPunctuation(c)
  {
    var lower := Lower(text);
    assert forall c :: c in lower ==> !IsUpper(c) by {
      forall c | c in lower ensures !IsUpper(c) {
        var i :| 0 <= i < |lower| && lower[i] == c;
      }
    }
    StripPunctuation(lower)
  }

  function Flush(word: string): seq<string> {
    if word == [] then [] else [word]
  }

  /** `str.split()` on `s` with the characters of `word` already read into the
      token under construction. */
  function SplitFrom(s: string, word: string): (r: seq<string>)
    requires NoWhitespace(word)
    ensures forall i :: 0 <= i < |r| ==> IsToken(r[i])
    ensures forall i, c :: 0 <= i < |r| && c in r[i] ==> c in word || c in s
    decreases |s|
  {
    if s == [] then Flush(word)
    else
      assert forall c :: c in s[1..] ==> c in s;
      if IsWhitespace(s[0]) then Flush(word) + SplitFrom(s[1..], [])
      else SplitFrom(s[1..], word + [s[0]])
  }

  /** `str.split()` with no argument: the maximal runs of non-whitespace. */
  function Split(s: string): seq<string> {
    SplitFrom(s, [])
  }

  /** The length filter: the tokens longer than two characters, in order. */
  function KeepLong(ts: seq<string>): (r: seq<string>)
    ensures forall i :: 0 <= i < |r| ==> |r[i]| > 2
    ensures IsSubsequence(r, ts)
    ensures forall t :: multiset(r)[t] == if |t| > 2 then multiset(ts)[t] else 0
  {
    if ts == [] then []
    else
      assert ts == [ts[0]] + ts[1..];
      if |ts[0]| > 2 then [ts[0]] + KeepLong(ts[1..]) else KeepLong(ts[1..])
  }

  /** `a` is `b` with some elements dropped, the rest kept in order. */
  ghost predicate IsSubsequence(a: seq<string>, b: seq<string>)
    decreases |b|
  {
    if a == [] then true
    else if b == [] then false
    else (a[0] == b[0] && IsSubsequence(a[1..], b[1..])) || IsSubsequence(a, b[1..])
  }

  /** The tokenizer `process_text`. */
  function ProcessText(text: string): (tokens: seq<string>)
    ensures forall i :: 0 <= i < |tokens| ==> IsNormalToken(tokens[i])
    ensures IsSubsequence(tokens, Split(Normalize(text)))
    ensures forall t :: multiset(tokens)[t] == if |t| > 2 then multiset(Split(Normalize(text)))[t] else 0
  {
    var normal := Normalize(text);
    var words := Split(normal);
    var tokens := KeepLong(words);
    assert forall i :: 0 <= i < |tokens| ==> IsNormalToken(tokens[i]) by {
      forall i | 0 <= i < |tokens| ensures IsNormalToken(tokens[i]) {
        var t := tokens[i];
        assert t in multiset(tokens);
        assert t in multiset(words);
        var j :| 0 <= j < |words| && words[j] == t;
        assert forall c :: c in t ==> c in normal;
      }
    }
    tokens
  }

  /** The tokens joined by single spaces. */
  function Join(ts: seq<string>): string {
    if ts == [] then []
    else if |ts| == 1 then ts[0]
    else ts[0] + " " + Join(ts[1..])
  }

  /** The characters, in order, of `s` that are not whitespace. */
  function RemoveWhitespace(s: string): string {
    if s == [] then []
    else if IsWhitespace(s[0]) then RemoveWhitespace(s[1..])
    else [s[0]] + RemoveWhitespace(s[1..])
  }

  function Concat(ts: seq<string>): string {
    if ts == [] then [] else ts[0] + Concat(ts[1..])
  }

  // ---------------------------------------------------------------------------
  // Lower-casing and punctuation removal work character by character.

  lemma LowerAppend(a: string, b: string)
    ensures Lower(a + b) == Lower(a) + Lower(b)
  {
    assert forall i :: 0 <= i < |a + b| ==> Lower(a + b)[i] == (Lower(a) + Lower(b))[i];
  }

  lemma {:induction false} StripAppend(a: string, b: string)
    ensures StripPunctuation(a + b) == StripPunctuation(a) + StripPunctuation(b)
  {
    if a == [] {
      assert a + b == b;
    } else {
      assert (a + b)[0] == a[0];
      assert (a + b)[1..] == a[1..] + b;
      StripAppend(a[1..], b);
    }
  }

  lemma {:induction false} StripNoPunctuation(s: string)
    requires forall c :: c in s ==> !IsPunctuation(c)
    ensures StripPunctuation(s) == s
  {
    if s != [] {
      assert s[0] in s;
      assert forall c :: c in s[1..] ==> c in s;
      StripNoPunctuation(s[1..]);
    }
  }

  /** Punctuation is deleted, not replaced by a separator: the two fragments
      on either side of it end up in one token. */
  lemma PunctuationMerges(x: string, p: char, y: string)
    requires IsPunctuation(p)
    ensures ProcessText(x + [p] + y) == ProcessText(x + y)
  {
    NormalizeDeletesPunctuation(x, p, y);
  }

  /** Case does not matter: an upper-case letter gives the same tokens as its
      lower-case counterpart, so `Cat` and `cat` are one word. */
  lemma CaseFolds(x: string, u: char, y: string)
    requires IsUpper(u)
    ensures ProcessText(x + [u] + y) == ProcessText(x + [(u as int + 32) as char] + y)
  {
    var l := (u as int + 32) as char;
    LowerAppend(x + [u], y);
    LowerAppend(x, [u]);
    LowerAppend(x + [l], y);
    LowerAppend(x, [l]);
    assert Lower([u]) == [l] == Lower([l]);
    assert Lower(x + [u] + y) == Lower(x + [l] + y);
  }

  lemma NormalizeDeletesPunctuation(x: string, p: char, y: string)
    requires IsPunctuation(p)
    ensures Normalize(x + [p] + y) == Normalize(x + y)
  {
    var lx, ly := Lower(x), Lower(y);
    LowerAppend(x + [p], y);
    LowerAppend(x, [p]);
    LowerAppend(x, y);
    assert Lower([p]) == [p];
    assert Lower(x + [p] + y) == lx + [p] + ly;
    StripAppend(lx + [p], ly);
    StripAppend(lx, [p]);
    assert StripPunctuation([p]) == [];
    assert StripPunctuation(lx + [p]) == StripPunctuation(lx);
    StripAppend(lx, ly);
  }

  // ---------------------------------------------------------------------------
  // Splitting on whitespace.

  lemma {:induction false} SplitFromAppend(a: string, c: char, b: string, word: string)
    requires IsWhitespace(c) && NoWhitespace(word)
    ensures SplitFrom(a + [c] + b, word) == SplitFrom(a, word) + Split(b)
    decreases |a|
  {
    var s := a + [c] + b;
    if a == [] {
      assert s[0] == c && s[1..] == b;
    } else {
      assert s[0] == a[0] && s[1..] == a[1..] + [c] + b;
      if IsWhitespace(a[0]) {
        SplitFromAppend(a[1..], c, b, []);
      } else {
        SplitFromAppend(a[1..], c, b, word + [a[0]]);
      }
    }
  }

  /** A whitespace character separates: what lies on each side splits on its own. */
  lemma SplitAppend(a: string, c: char, b: string)
    requires IsWhitespace(c)
    ensures Split(a + [c] + b) == Split(a) + Split(b)
  {
    SplitFromAppend(a, c, b, []);
  }

  lemma {:induction false} SplitFromToken(t: string, word: string)
    requires NoWhitespace(t) && NoWhitespace(word)
    ensures SplitFrom(t, word) == Flush(word + t)
    decreases |t|
  {
    if t == [] {
      assert word + t == word;
    } else {
      assert t[0] in t;
      assert forall c :: c in t[1..] ==> c in t;
      assert (word + [t[0]]) + t[1..] == word + t;
      SplitFromToken(t[1..], word + [t[0]]);
    }
  }

  /** Splitting undoes joining with single spaces. */
  lemma {:induction false} SplitJoin(ts: seq<string>)
    requires forall i :: 0 <= i < |ts| ==> IsToken(ts[i])
    ensures Split(Join(ts)) == ts
  {
    if |ts| == 1 {
      SplitFromToken(ts[0], []);
      assert [] + ts[0] == ts[0];
    } else if |ts| > 1 {
      SplitFromToken(ts[0], []);
      assert [] + ts[0] == ts[0];
      SplitAppend(ts[0], ' ', Join(ts[1..]));
      SplitJoin(ts[1..]);
    }
  }

  lemma {:induction false} SplitFromFlatten(s: string, word: string)
    requires NoWhitespace(word)
    ensures Concat(SplitFrom(s, word)) == word + RemoveWhitespace(s)
    decreases |s|
  {
    if s == [] {
      assert word + [] == word;
      if word != [] {
        assert Concat([word]) == word + Concat([]);
      }
    } else if IsWhitespace(s[0]) {
      SplitFromFlatten(s[1..], []);
      ConcatAppend(Flush(word), SplitFrom(s[1..], []));
      if word != [] {
        assert Concat([word]) == word + Concat([]);
      }
    } else {
      SplitFromFlatten(s[1..], word + [s[0]]);
    }
  }

  /** No character is lost or reordered by splitting except the whitespace. */
  lemma SplitFlatten(s: string)
    ensures Concat(Split(s)) == RemoveWhitespace(s)
  {
    SplitFromFlatten(s, []);
  }

  lemma {:induction false} ConcatAppend(a: seq<string>, b: seq<string>)
    ensures Concat(a + b) == Concat(a) + Concat(b)
  {
    if a == [] {
      assert a + b == b;
    } else {
      assert (a + b)[0] == a[0] && (a + b)[1..] == a[1..] + b;
      ConcatAppend(a[1..], b);
      assert Concat(a + b) == a[0] + (Concat(a[1..]) + Concat(b));
    }
  }

  // ---------------------------------------------------------------------------
  // Idempotence on normalized input.

  lemma {:induction false} KeepLongAll(ts: seq<string>)
    requires forall i :: 0 <= i < |ts| ==> |ts[i]| > 2
    ensures KeepLong(ts) == ts
  {
    if ts != [] {
      KeepLongAll(ts[1..]);
    }
  }

  lemma {:induction false} NormalizeJoin(ts: seq<string>)
    requires forall i :: 0 <= i < |ts| ==> IsNormalToken(ts[i])
    ensures Normalize(Join(ts)) == Join(ts)
  {
    if ts != [] {
      var t := ts[0];
      assert Lower(t) == t;
      StripNoPunctuation(t);
      if |ts| > 1 {
        var rest := Join(ts[1..]);
        NormalizeJoin(ts[1..]);
        LowerAppend(t + " ", rest);
        LowerAppend(t, " ");
        assert Lower(" ") == " ";
        StripAppend(t + " ", Lower(rest));
        StripAppend(t, " ");
        assert StripPunctuation(" ") == " ";
      }
    }
  }

  /** Text that is already normalized tokens separated by single spaces comes
      back as those tokens. */
  lemma ProcessTextOfNormalized(ts: seq<string>)
    requires forall i :: 0 <= i < |ts| ==> IsNormalToken(ts[i])
    ensures ProcessText(Join(ts)) == ts
  {
    NormalizeJoin(ts);
    SplitJoin(ts);
    KeepLongAll(ts);
  }

  /** Tokenizing the joined tokens of a text again changes nothing. */
  lemma ProcessTextIdempotent(text: string)
    ensures ProcessText(Join(ProcessText(text))) == ProcessText(text)
  {
    ProcessTextOfNormalized(ProcessText(text));
  }
}
