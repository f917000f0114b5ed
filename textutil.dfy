/** Tokenisation helpers of `utils/textutil.cc`. */
module TextUtil {
  import opened Bytes
  import opened BasicUtil

  // ---------------------------------------------------------------------
  // Whitespace tokenisation

  /** The elements of `s` that are not empty, in order. */
  function NonEmpty(s: seq<Bytes>): seq<Bytes>
  {
    if s == [] then []
    else NonEmpty(s[..|s| - 1]) + (if s[|s| - 1] == [] then [] else [s[|s| - 1]])
  }

  function Flatten(s: seq<Bytes>): Bytes
  {
    if s == [] then [] else Flatten(s[..|s| - 1]) + s[|s| - 1]
  }

  function RemoveByte(s: Bytes, b: Byte): Bytes
  {
    if s == [] then [] else RemoveByte(s[..|s| - 1], b) + (if s[|s| - 1] == b then [] else [s[|s| - 1]])
  }

  /** GetSegedWordList: split on ' ' and erase the empty strings. */
  method GetSegedWordList(text: Bytes) returns (words: seq<Bytes>)
    ensures words == NonEmpty(Split(text, SPACE))
  {
    var parts := StringSplit(text, [SPACE]);
    words := [];
    var i := 0;
    while i < |parts|
      invariant 0 <= i <= |parts|
      invariant words == NonEmpty(parts[..i])
    {
      assert parts[..i + 1][..i] == parts[..i];
      if parts[i] != [] {
        words := words + [parts[i]];
      }
      i := i + 1;
    }
    assert parts[..i] == parts;
  }

  lemma {:induction false} NonEmptyMembers(s: seq<Bytes>, b: Byte)
    requires forall k :: 0 <= k < |s| ==> b !in s[k]
    ensures forall k :: 0 <= k < |NonEmpty(s)| ==> NonEmpty(s)[k] != [] && b !in NonEmpty(s)[k]
  {
    if s != [] {
      NonEmptyMembers(s[..|s| - 1], b);
    }
  }

  lemma SplitNoSep(s: Bytes, sep: Byte)
    ensures forall k :: 0 <= k < |Split(s, sep)| ==> sep !in Split(s, sep)[k]
  {
    if s != [] && s != [sep] {
      SplitFieldsNoSep(s[..ReadExtent(s)], sep);
    }
  }

  /** No token is empty and none holds a space. */
  lemma SegedWordsAreTokens(text: Bytes)
    ensures forall k :: 0 <= k < |NonEmpty(Split(text, SPACE))| ==>
      NonEmpty(Split(text, SPACE))[k] != [] && SPACE !in NonEmpty(Split(text, SPACE))[k]
  {
    SplitNoSep(text, SPACE);
    NonEmptyMembers(Split(text, SPACE), SPACE);
  }

  lemma {:induction false} FlattenNonEmpty(s: seq<Bytes>)
    ensures Flatten(NonEmpty(s)) == Flatten(s)
  {
    if s != [] {
      FlattenNonEmpty(s[..|s| - 1]);
      var last := s[|s| - 1];
      if last == [] {
        var n := NonEmpty(s[..|s| - 1]);
        assert n + [] == n;
        assert Flatten(s) == Flatten(s[..|s| - 1]) + [];
      } else {
        var n := NonEmpty(s[..|s| - 1]);
        assert (n + [last])[..|n|] == n;
      }
    }
  }

  lemma {:induction false} FlattenSplitFields(s: Bytes, sep: Byte)
    ensures Flatten(SplitFields(s, sep)) == RemoveByte(s, sep)
  {
    if s != [] {
      var p := s[..|s| - 1];
      var x := s[|s| - 1];
      var r := SplitFields(p, sep);
      FlattenSplitFields(p, sep);
      if x == sep {
        assert (r + [[]])[..|r|] == r;
      } else {
        var q := ExtendLast(r, [x]);
        FlattenExtendLast(r, [x]);
      }
    }
  }

  lemma FlattenExtendLast(r: seq<Bytes>, x: Bytes)
    requires |r| >= 1
    ensures Flatten(ExtendLast(r, x)) == Flatten(r) + x
  {
    var q := ExtendLast(r, x);
    assert q[..|q| - 1] == r[..|r| - 1];
    assert Flatten(r) == Flatten(r[..|r| - 1]) + r[|r| - 1];
  }

  /** Concatenating the tokens gives the text with its spaces removed. */
  lemma SegedWordsCoverText(text: Bytes)
    requires NoStopByte(text)
    ensures Flatten(NonEmpty(Split(text, SPACE))) == RemoveByte(text, SPACE)
  {
    SplitPlain(text, SPACE);
    FlattenNonEmpty(Split(text, SPACE));
    FlattenSplitFields(text, SPACE);
  }

  // ---------------------------------------------------------------------
  // N-grams

  /** Words `words[i..j]` joined with '_'. */
  function JoinWords(words: seq<Bytes>, i: nat, j: nat): Bytes
    requires i < j <= |words|
  {
    Join(words[i..j], UNDERSCORE)
  }

  lemma JoinWordsStep(words: seq<Bytes>, i: nat, j: nat)
    requires i < j < |words|
    ensures JoinWords(words, i, j + 1) == JoinWords(words, i, j) + [UNDERSCORE] + words[j]
  {
    assert words[i..j + 1][..j - i] == words[i..j];
  }

  /**
   * GetNgramWord: `words[start..end]` joined with '_', or "" when a position
   * after `start` has been discarded (its row is negative). The row of
   * `start` itself is not looked at.
   */
  method GetNgramWord(words: seq<Bytes>, idx: seq<int>, start: nat, end: nat) returns (r: Bytes)
    requires |words| == |idx| && end < |idx| && start <= end
    ensures (exists k :: start < k <= end && idx[k] < 0) ==> r == []
    ensures (forall k :: start < k <= end ==> idx[k] >= 0) ==> r == JoinWords(words, start, end + 1)
  {
    r := words[start];
    assert words[start..start + 1] == [words[start]];
    var i := start + 1;
    while i <= end
      invariant start + 1 <= i <= end + 1
      invariant forall k :: start < k < i ==> idx[k] >= 0
      invariant r == JoinWords(words, start, i)
    {
      JoinWordsStep(words, start, i);
      r := r + [UNDERSCORE] + words[i];
      if idx[i] < 0 {
        return [];
      }
      i := i + 1;
    }
  }

  /** Number of n-grams GetNgramWordList emits for start `i`. */
  function NgramCount(size: nat, i: nat, n: nat): nat
  {
    if i + 1 < size && n > 1 then
      (if size - 1 - i < n - 1 then size - 1 - i else n - 1)
    else 0
  }

  /** The n-grams started at `i`: words `i..j` joined, for j = i+1 .. min(size-1, i+n-1). */
  function NgramsAt(words: seq<Bytes>, i: nat, n: nat): (r: seq<Bytes>)
    requires i < |words|
    ensures |r| == NgramCount(|words|, i, n)
  {
    seq(NgramCount(|words|, i, n), k requires 0 <= k < NgramCount(|words|, i, n) => JoinWords(words, i, i + k + 2))
  }

  /** The n-grams of every start before `m`, in order. */
  function NgramsBefore(words: seq<Bytes>, m: nat, n: nat): seq<Bytes>
    requires m <= |words|
  {
    if m == 0 then [] else NgramsBefore(words, m - 1, n) + NgramsAt(words, m - 1, n)
  }

  /** The n-gram list of `words`; empty for n <= 1. */
  function NgramList(words: seq<Bytes>, n: nat): seq<Bytes>
  {
    if n <= 1 then [] else NgramsBefore(words, |words|, n)
  }

  /** GetNgramWordList on a word list. */
  method GetNgramWordList(words: seq<Bytes>, ngram: nat) returns (r: seq<Bytes>)
    ensures r == NgramList(words, ngram)
  {
    r := [];
    if ngram <= 1 {
      return;
    }
    var i := 0;
    while i < |words|
      invariant 0 <= i <= |words|
      invariant r == NgramsBefore(words, i, ngram)
    {
      var s := words[i];
      assert words[i..i + 1] == [words[i]];
      var j := i + 1;
      ghost var base := r;
      while j < |words| && j < i + ngram
        invariant i + 1 <= j <= |words|
        invariant j <= i + ngram
        invariant s == JoinWords(words, i, j)
        invariant r == base + NgramsAt(words, i, ngram)[..j - i - 1]
      {
        JoinWordsStep(words, i, j);
        s := s + [UNDERSCORE] + words[j];
        assert NgramsAt(words, i, ngram)[..j - i] == NgramsAt(words, i, ngram)[..j - i - 1] + [s];
        r := r + [s];
        j := j + 1;
      }
      assert NgramsAt(words, i, ngram)[..j - i - 1] == NgramsAt(words, i, ngram);
      i := i + 1;
    }
  }

  /** GetNgramWordList on a text: the space split keeps empty tokens. */
  method GetNgramWordListOfText(text: Bytes, ngram: nat) returns (r: seq<Bytes>)
    ensures ngram <= 1 || |Split(text, SPACE)| <= 1 ==> r == []
    ensures ngram > 1 && |Split(text, SPACE)| > 1 ==> r == NgramList(Split(text, SPACE), ngram)
  {
    if ngram <= 1 {
      return [];
    }
    var parts := StringSplit(text, [SPACE]);
    if |parts| <= 1 {
      return [];
    }
    r := GetNgramWordList(parts, ngram);
  }

  function SumNgramCounts(size: nat, m: nat, n: nat): nat
  {
    if m == 0 then 0 else SumNgramCounts(size, m - 1, n) + NgramCount(size, m - 1, n)
  }

  /** The list holds Σ min(size-1-i, n-1) entries. */
  lemma {:induction false} NgramListLength(words: seq<Bytes>, n: nat)
    ensures n > 1 ==> |NgramList(words, n)| == SumNgramCounts(|words|, |words|, n)
    ensures n <= 1 ==> NgramList(words, n) == []
  {
    if n > 1 {
      NgramsBeforeLength(words, |words|, n);
    }
  }

  lemma {:induction false} NgramsBeforeLength(words: seq<Bytes>, m: nat, n: nat)
    requires m <= |words|
    ensures |NgramsBefore(words, m, n)| == SumNgramCounts(|words|, m, n)
  {
    if m > 0 {
      NgramsBeforeLength(words, m - 1, n);
    }
  }

  /** Every entry joins at least two and at most n consecutive words. */
  lemma {:induction false} NgramsBeforeShape(words: seq<Bytes>, m: nat, n: nat, e: Bytes)
    requires m <= |words|
    requires e in NgramsBefore(words, m, n)
    ensures exists i, j :: 0 <= i && i + 2 <= j <= |words| && j - i <= n && e == JoinWords(words, i, j)
  {
    if e in NgramsBefore(words, m - 1, n) {
      NgramsBeforeShape(words, m - 1, n, e);
    } else {
      var i := m - 1;
      assert e in NgramsAt(words, i, n);
      var k :| 0 <= k < NgramCount(|words|, i, n) && e == NgramsAt(words, i, n)[k];
      assert e == JoinWords(words, i, i + k + 2);
    }
  }

  lemma NgramListShape(words: seq<Bytes>, n: nat, e: Bytes)
    requires e in NgramList(words, n)
    ensures n > 1
    ensures exists i, j :: 0 <= i && i + 2 <= j <= |words| && j - i <= n && e == JoinWords(words, i, j)
  {
    NgramsBeforeShape(words, |words|, n, e);
  }

  // ---------------------------------------------------------------------
  // Character counting

  /** Positions that start a run of ASCII bytes. */
  function AsciiRuns(s: Bytes): nat
  {
    if s == [] then 0
    else
      var starts := IsAscii(s[|s| - 1]) && (|s| == 1 || !IsAscii(s[|s| - 2]));
      AsciiRuns(s[..|s| - 1]) + (if starts then 1 else 0)
  }

  function LeadBytes(s: Bytes): nat
  {
    if s == [] then 0 else LeadBytes(s[..|s| - 1]) + (if IsLead(s[|s| - 1]) then 1 else 0)
  }

  /**
   * GetWordSize: each maximal run of ASCII bytes counts one and each UTF-8
   * lead byte counts one. The flag is only written for a non-empty word, so
   * `wasSingleByte` (the caller's variable) comes back for "".
   */
  method GetWordSize(word: Bytes, wasSingleByte: bool) returns (size: nat, isSingleByte: bool)
    ensures size == AsciiRuns(word) + LeadBytes(word)
    ensures word == [] ==> size == 0 && isSingleByte == wasSingleByte
    ensures word != [] ==> isSingleByte == (LeadBytes(word) == 0)
  {
    if |word| == 0 {
      return 0, wasSingleByte;
    }
    var multi: nat := 0;
    var single: nat := 0;
    var singleTag := false;
    var i := 0;
    while i < |word|
      invariant 0 <= i <= |word|
      invariant singleTag == (i > 0 && IsAscii(word[i - 1]))
      invariant single == AsciiRuns(word[..i]) && multi == LeadBytes(word[..i])
    {
      assert word[..i + 1][..i] == word[..i];
      if word[i] & 0x80 == 0x00 {
        if !singleTag {
          single := single + 1;
        }
        singleTag := true;
      } else {
        if word[i] & 0xC0 == 0xC0 {
          multi := multi + 1;
        }
        singleTag := false;
      }
      i := i + 1;
    }
    assert word[..i] == word;
    isSingleByte := multi == 0;
    size := single + multi;
  }

  /** A word of ASCII bytes only is one character; a lead byte in front of continuation bytes is one more. */
  lemma {:induction false} WordSizeOfAscii(s: Bytes)
    requires s != [] && forall k :: 0 <= k < |s| ==> IsAscii(s[k])
    ensures AsciiRuns(s) == 1 && LeadBytes(s) == 0
  {
    if |s| > 1 {
      WordSizeOfAscii(s[..|s| - 1]);
    }
  }
}
