/**
 * Merging Lexicons and pruning phrases: CombineWordVec adds the rows of
 * another table one by one, and FilterPhraseFromNgram drops the n-gram rows
 * that are not frequent or not cohesive enough before rebuilding.
 */
module HashTableMerge {
  import opened Wrappers
  import opened Bytes
  import opened BasicUtil
  import opened HashTableSpec
  import opened Sorting

  // ---------------------------------------------------------------------
  // CombineWordVec

  /** Appends the marker 0 to the subword list of row `pos`, leaving words and frequencies alone. */
  function MarkSubwords(u: Table, pos: nat): (v: Table)
    requires Canonical(u) && pos < |u.rows|
    ensures Canonical(v) && SameSetup(u, v) && SameEntries(v.rows, u.rows)
    ensures v.rows[pos].subwords != []
    ensures forall i :: 0 <= i < |u.rows| && i != pos ==> v.rows[i] == u.rows[i]
    ensures SubwordsInRange(u.rows) ==> SubwordsInRange(v.rows)
  {
    var v := u.(rows := u.rows[pos := u.rows[pos].(subwords := u.rows[pos].subwords + [0])]);
    assert Words(v.rows) == Words(u.rows);
    SameWordsCanonical(u, v);
    v
  }

  /**
   * The marking half of one CombineWordVec item: if the item had subwords,
   * the row its untrimmed word is found at gets a non-empty list, so that
   * the next rebuild resolves it.
   */
  function MarkItem(u: Table, x: Item): (r: Option<Table>)
    requires Canonical(u)
    ensures r.Some? ==> Canonical(r.value) && SameSetup(u, r.value)
    ensures r.Some? && SubwordsInRange(u.rows) ==> SubwordsInRange(r.value.rows)
  {
    if x.subwords == [] then Some(u)
    else
      var pos :- Find(u, x.word);
      if pos >= 0 then
        FindCorrect(u, x.word);
        Some(MarkSubwords(u, pos))
      else Some(u)
  }

  /**
   * One item of CombineWordVec: AddWord(item.word, item.freq) with the
   * defaults (rebuild allowed, frequency added, subwords left alone), then
   * the marking step.
   */
  function CombineItem(t: Table, x: Item): (r: Option<Table>)
    requires Canonical(t)
    ensures r.Some? ==> Canonical(r.value) && SameSetup(t, r.value)
    ensures r.Some? && SubwordsInRange(t.rows) ==> SubwordsInRange(r.value.rows)
  {
    var u :- AddWord(t, x.word, x.freq, true, true, false);
    MarkItem(u, x)
  }

  /** CombineWordVec: the items in order. */
  function Combine(t: Table, items: seq<Item>): (r: Option<Table>)
    requires Canonical(t)
    ensures r.Some? ==> Canonical(r.value) && SameSetup(t, r.value)
    ensures r.Some? && SubwordsInRange(t.rows) ==> SubwordsInRange(r.value.rows)
  {
    if items == [] then Some(t)
    else
      var u :- Combine(t, items[..|items| - 1]);
      CombineItem(u, items[|items| - 1])
  }

  /** The total frequency the items bring to the word `w`. */
  function ItemFreq(items: seq<Item>, w: Bytes): int
  {
    if items == [] then 0
    else ItemFreq(items[..|items| - 1], w) + (if Trimmed(items[|items| - 1].word) == w then items[|items| - 1].freq else 0)
  }

  /** `b` extends `a`: the old rows keep their words, and a non-empty subword list stays non-empty. */
  predicate Grows(a: seq<Item>, b: seq<Item>)
  {
    |a| <= |b| && forall i :: 0 <= i < |a| ==> b[i].word == a[i].word && (a[i].subwords != [] ==> b[i].subwords != [])
  }

  /** Some row holds `w` with a non-empty subword list. */
  predicate Marked(rows: seq<Item>, w: Bytes)
  {
    exists i :: 0 <= i < |rows| && rows[i].word == w && rows[i].subwords != []
  }

  lemma {:induction false} FreqOfSameEntries(a: seq<Item>, b: seq<Item>, w: Bytes)
    requires SameEntries(a, b)
    ensures FreqOf(a, w) == FreqOf(b, w)
  {
    if a != [] {
      FreqOfSameEntries(a[..|a| - 1], b[..|b| - 1], w);
    }
  }

  lemma GrowsTrans(a: seq<Item>, b: seq<Item>, c: seq<Item>)
    requires Grows(a, b) && Grows(b, c)
    ensures Grows(a, c)
  {
  }

  lemma MarkedGrows(a: seq<Item>, b: seq<Item>, w: Bytes)
    requires Marked(a, w) && Grows(a, b)
    ensures Marked(b, w)
  {
    var i :| 0 <= i < |a| && a[i].word == w && a[i].subwords != [];
    assert b[i].word == w && b[i].subwords != [];
  }

  /** The AddWord step of one item below the rebuild threshold: it succeeds and only appends or raises. */
  lemma AddItemGrows(t: Table, x: Item)
    requires Canonical(t) && 10 * (|t.rows| + 1) <= 7 * |t.slots|
    ensures AddWord(t, x.word, x.freq, true, true, false).Some?
    ensures Grows(t.rows, AddWord(t, x.word, x.freq, true, true, false).value.rows)
  {
    var v := Trimmed(x.word);
    if v == [] {
      AddWordEmpty(t, x.word, x.freq, true, true, false);
    } else if v in Words(t.rows) {
      var i :| 0 <= i < |t.rows| && Words(t.rows)[i] == v;
      AddWordKnown(t, x.word, x.freq, true, true, false, i);
      var u := AddWord(t, x.word, x.freq, true, true, false).value;
      forall k | 0 <= k < |t.rows| ensures u.rows[k].word == t.rows[k].word {
        assert Words(u.rows)[k] == Words(t.rows)[k];
      }
    } else {
      AddOnceFresh(t, x.word, x.freq);
    }
  }

  /** The marking step keeps the words and frequencies and only adds markers. */
  lemma MarkStep(u: Table, x: Item)
    requires Canonical(u) && |u.rows| < |u.slots|
    ensures MarkItem(u, x).Some?
    ensures SameEntries(MarkItem(u, x).value.rows, u.rows)
    ensures Grows(u.rows, MarkItem(u, x).value.rows)
  {
    FindCorrect(u, x.word);
  }

  /**
   * One item below the rebuild threshold: it succeeds, adds at most one
   * row, adds its frequency to its trimmed word, and keeps every old row's
   * word and marker.
   */
  lemma CombineItemOnce(t: Table, x: Item, w: Bytes)
    requires Canonical(t) && 10 * (|t.rows| + 1) <= 7 * |t.slots| && w != []
    ensures CombineItem(t, x).Some?
    ensures |CombineItem(t, x).value.rows| <= |t.rows| + 1
    ensures Grows(t.rows, CombineItem(t, x).value.rows)
    ensures FreqOf(CombineItem(t, x).value.rows, w) == FreqOf(t.rows, w) + (if Trimmed(x.word) == w then x.freq else 0)
  {
    AddWordOnce(t, x.word, x.freq, w);
    AddItemGrows(t, x);
    var u := AddWord(t, x.word, x.freq, true, true, false).value;
    MarkStep(u, x);
    var v := CombineItem(t, x).value;
    FreqOfSameEntries(v.rows, u.rows, w);
    GrowsTrans(t.rows, u.rows, v.rows);
  }

  /** Below the rebuild threshold, AddWord leaves the trimmed word of a non-blank input in the table. */
  lemma AddItemHasWord(t: Table, x: Item)
    requires Canonical(t) && 10 * (|t.rows| + 1) <= 7 * |t.slots| && Trimmed(x.word) != []
    ensures AddWord(t, x.word, x.freq, true, true, false).Some?
    ensures Trimmed(x.word) in Words(AddWord(t, x.word, x.freq, true, true, false).value.rows)
  {
    var v := Trimmed(x.word);
    if v in Words(t.rows) {
      var i :| 0 <= i < |t.rows| && Words(t.rows)[i] == v;
      AddWordKnown(t, x.word, x.freq, true, true, false, i);
    } else {
      AddOnceFresh(t, x.word, x.freq);
      var u := AddWord(t, x.word, x.freq, true, true, false).value;
      assert Words(u.rows)[|t.rows|] == v;
    }
  }

  /** Marking an item with subwords whose word is in the table marks that word's row. */
  lemma MarkItemMarks(u: Table, x: Item)
    requires Canonical(u) && x.subwords != [] && x.word in Words(u.rows)
    ensures MarkItem(u, x).Some? && Marked(MarkItem(u, x).value.rows, x.word)
  {
    FindCorrect(u, x.word);
    var pos := Find(u, x.word).value;
    assert MarkSubwords(u, pos).rows[pos].word == x.word;
  }

  /** An item with subwords and a clean word leaves its word's row marked. */
  lemma CombineItemMarks(t: Table, x: Item)
    requires Canonical(t) && 10 * (|t.rows| + 1) <= 7 * |t.slots|
    requires x.subwords != [] && x.word != [] && TrimClean(x.word)
    ensures CombineItem(t, x).Some? && Marked(CombineItem(t, x).value.rows, x.word)
  {
    TrimmedOfClean(x.word);
    AddItemHasWord(t, x);
    MarkItemMarks(AddWord(t, x.word, x.freq, true, true, false).value, x);
  }

  /**
   * CombineWordVec below the rebuild threshold (the merged table stays under
   * 70% full): every word's frequency grows by the total frequency of the
   * items that trim to it, and the old rows keep their words and markers.
   */
  lemma {:induction false} CombineFreq(t: Table, items: seq<Item>, w: Bytes)
    requires Canonical(t) && 10 * (|t.rows| + |items|) <= 7 * |t.slots| && w != []
    ensures Combine(t, items).Some?
    ensures |Combine(t, items).value.rows| <= |t.rows| + |items|
    ensures Grows(t.rows, Combine(t, items).value.rows)
    ensures FreqOf(Combine(t, items).value.rows, w) == FreqOf(t.rows, w) + ItemFreq(items, w)
  {
    if items != [] {
      var init := items[..|items| - 1];
      CombineFreq(t, init, w);
      var u := Combine(t, init).value;
      CombineItemOnce(u, items[|items| - 1], w);
      GrowsTrans(t.rows, u.rows, Combine(t, items).value.rows);
    }
  }

  /**
   * Below the rebuild threshold, every item that carried subwords and has a
   * clean word ends up on a row with a non-empty subword list.
   */
  lemma {:induction false} CombineMarks(t: Table, items: seq<Item>, k: nat)
    requires Canonical(t) && 10 * (|t.rows| + |items|) <= 7 * |t.slots|
    requires k < |items| && items[k].subwords != [] && items[k].word != [] && TrimClean(items[k].word)
    ensures Combine(t, items).Some? && Marked(Combine(t, items).value.rows, items[k].word)
  {
    var n := |items| - 1;
    var init := items[..n];
    CombineFreq(t, init, [0x61]);
    var u := Combine(t, init).value;
    if k == n {
      CombineItemMarks(u, items[n]);
    } else {
      CombineMarks(t, init, k);
      CombineItemOnce(u, items[n], [0x61]);
      MarkedGrows(u.rows, Combine(t, items).value.rows, items[k].word);
    }
  }

  // ---------------------------------------------------------------------
  // FilterPhraseFromNgram

  /** `pow(b, n)` for a whole exponent. */
  function Power(b: real, n: nat): (r: real)
    ensures b >= 0.0 ==> r >= 0.0
  {
    if n == 0 then 1.0 else b * Power(b, n - 1)
  }

  function AtLeastOne(f: real): (r: real)
    ensures r >= 1.0 && r >= f
  {
    if f < 1.0 then 1.0 else f
  }

  /** The product over the parts of max(1, GetWordFreq(part)) in the word table. */
  function PartProduct(wt: Table, parts: seq<Bytes>): (r: Option<real>)
    requires Canonical(wt)
    ensures r.Some? ==> r.value >= 1.0
  {
    if parts == [] then Some(1.0)
    else
      var prev :- PartProduct(wt, parts[..|parts| - 1]);
      var f :- WordFreq(wt, parts[|parts| - 1]);
      Some(Scale(prev, f))
  }

  /** One factor of the product: `max(1, f)`. */
  function Scale(prev: real, f: int): (r: real)
    requires prev >= 1.0
    ensures r >= 1.0
  {
    var g := AtLeastOne(f as real);
    assert prev * g >= 1.0 * g;
    prev * g
  }

  /**
   * The cohesion rate of a phrase of `|parts| >= 2` words:
   * `(freq - minphrasefreq) * train_words^(|parts| - 1)` over the product of
   * the parts' frequencies in the word table.
   */
  function PhraseRate(wt: Table, freq: int, minFreq: int, parts: seq<Bytes>): Option<real>
    requires Canonical(wt) && |parts| >= 1
  {
    var prod :- PartProduct(wt, parts);
    Some(Quotient((freq - minFreq) as real, Power(wt.trainWords as real, |parts| - 1), prod))
  }

  function Quotient(excess: real, power: real, product: real): real
    requires product >= 1.0
  {
    excess * power / product
  }

  /**
   * `is_discard` of one row: its word split on underscores; a single word
   * goes below `minphrasefreq`, a phrase below `phrasefreqthreshold` of
   * cohesion.
   */
  function Discarded(wt: Table, x: Item, minFreq: int, threshold: int): Option<bool>
    requires Canonical(wt)
  {
    var parts := Split(x.word, UNDERSCORE);
    if |parts| == 0 then Some(true)
    else if |parts| == 1 then Some(x.freq < minFreq)
    else
      var rate :- PhraseRate(wt, x.freq, minFreq, parts);
      Some(rate < threshold as real)
  }

  /** The rows that are not discarded, in order. */
  function Survivors(wt: Table, rows: seq<Item>, minFreq: int, threshold: int): (r: Option<seq<Item>>)
    requires Canonical(wt)
    ensures r.Some? ==> |r.value| <= |rows| && forall x :: x in r.value ==> x in rows
  {
    if rows == [] then Some([])
    else
      var prev :- Survivors(wt, rows[..|rows| - 1], minFreq, threshold);
      var d :- Discarded(wt, rows[|rows| - 1], minFreq, threshold);
      Some(if d then prev else prev + [rows[|rows| - 1]])
  }

  lemma {:induction false} SurvivorsDistinct(wt: Table, rows: seq<Item>, minFreq: int, threshold: int)
    requires Canonical(wt) && Distinct(Words(rows)) && Survivors(wt, rows, minFreq, threshold).Some?
    ensures Distinct(Words(Survivors(wt, rows, minFreq, threshold).value))
  {
    if rows != [] {
      var init := rows[..|rows| - 1];
      var x := rows[|rows| - 1];
      assert Words(init) == Words(rows)[..|rows| - 1];
      SurvivorsDistinct(wt, init, minFreq, threshold);
      var prev := Survivors(wt, init, minFreq, threshold).value;
      if Discarded(wt, x, minFreq, threshold) == Some(false) {
        var ws := Words(prev + [x]);
        forall i, j | 0 <= i < j < |ws| ensures ws[i] != ws[j] {
          if j == |prev| {
            assert prev[i] in init;
            var a :| 0 <= a < |init| && init[a] == prev[i];
            assert Words(rows)[a] == prev[i].word;
            assert Words(rows)[|rows| - 1] == x.word;
          } else {
            assert Words(prev)[i] == ws[i] && Words(prev)[j] == ws[j];
          }
        }
      }
    }
  }

  /** The surviving rows of a table can be rebuilt. */
  lemma SurvivorsReady(t: Table, wt: Table, minFreq: int, threshold: int)
    requires Canonical(t) && Canonical(wt) && Survivors(wt, t.rows, minFreq, threshold).Some?
    ensures Rebuildable(t.(rows := Survivors(wt, t.rows, minFreq, threshold).value))
  {
    SurvivorsDistinct(wt, t.rows, minFreq, threshold);
    var kept := Survivors(wt, t.rows, minFreq, threshold).value;
    forall i | 0 <= i < |kept| ensures kept[i].word != [] && TrimClean(kept[i].word) {
      assert kept[i] in t.rows;
    }
  }

  /**
   * FilterPhraseFromNgram: every row is judged against the word table, the
   * survivors keep their order, and the table is rebuilt without a floor.
   */
  function FilterPhrase(t: Table, wt: Table, minFreq: int, threshold: int): (r: Option<Table>)
    requires Canonical(t) && Canonical(wt)
    ensures r.Some? ==> Canonical(r.value) && SameSetup(t, r.value) && SubwordsInRange(r.value.rows)
  {
    var kept :- Survivors(wt, t.rows, minFreq, threshold);
    SurvivorsReady(t, wt, minFreq, threshold);
    Rebuild(t.(rows := kept), -1)
  }

  /** A row survives exactly when its judgement could be made and was to keep it. */
  lemma {:induction false} SurvivorsMembers(wt: Table, rows: seq<Item>, minFreq: int, threshold: int, x: Item)
    requires Canonical(wt) && Survivors(wt, rows, minFreq, threshold).Some?
    ensures x in rows ==> Discarded(wt, x, minFreq, threshold).Some?
    ensures x in Survivors(wt, rows, minFreq, threshold).value <==>
      x in rows && Discarded(wt, x, minFreq, threshold) == Some(false)
  {
    if rows != [] {
      var init := rows[..|rows| - 1];
      SurvivorsMembers(wt, init, minFreq, threshold, x);
      assert rows == init + [rows[|rows| - 1]];
    }
  }

  /**
   * After FilterPhraseFromNgram a row's word is still in the table exactly
   * when the row was not discarded.
   */
  lemma FilterPhraseKeeps(t: Table, wt: Table, minFreq: int, threshold: int, x: Item)
    requires Canonical(t) && Canonical(wt) && FilterPhrase(t, wt, minFreq, threshold).Some? && x in t.rows
    ensures Discarded(wt, x, minFreq, threshold).Some?
    ensures x.word in Words(FilterPhrase(t, wt, minFreq, threshold).value.rows) <==>
      Discarded(wt, x, minFreq, threshold) == Some(false)
  {
    var kept := Survivors(wt, t.rows, minFreq, threshold).value;
    var t1 := t.(rows := kept);
    SurvivorsReady(t, wt, minFreq, threshold);
    SurvivorsMembers(wt, t.rows, minFreq, threshold, x);
    var r := FilterPhrase(t, wt, minFreq, threshold).value;
    RebuildRows(t1, -1);
    var sorted := RebuildOrder(t1, -1);
    assert Words(r.rows) == Words(sorted);
    SortDescMembers(kept, FreqKey);
    if x in kept {
      var i :| 0 <= i < |sorted| && sorted[i] == x;
      assert Words(sorted)[i] == x.word;
    }
    if x.word in Words(r.rows) {
      var i :| 0 <= i < |sorted| && Words(sorted)[i] == x.word;
      SameWordSameRow(t.rows, x, sorted[i]);
    }
  }

  /** A positive rate over a positive power-and-product quotient needs a positive numerator. */
  lemma PositiveNumerator(a: real, p: real, q: real)
    requires p >= 0.0 && q >= 1.0 && Quotient(a, p, q) >= 1.0
    ensures a > 0.0
  {
    assert a * p / q * q == a * p;
    assert a * p >= q;
  }

  /** A phrase whose rate reaches a threshold of at least 1 is more frequent than `minphrasefreq`. */
  lemma RateAboveFloor(wt: Table, freq: int, minFreq: int, parts: seq<Bytes>, threshold: int)
    requires Canonical(wt) && |parts| >= 1 && wt.trainWords >= 0 && threshold >= 1
    requires PhraseRate(wt, freq, minFreq, parts).Some?
    requires PhraseRate(wt, freq, minFreq, parts).value >= threshold as real
    ensures freq > minFreq
  {
    var prod := PartProduct(wt, parts).value;
    var a := (freq - minFreq) as real;
    var pw := Power(wt.trainWords as real, |parts| - 1);
    PositiveNumerator(a, pw, prod);
  }

  /**
   * With `phrasefreqthreshold >= 1` (the configuration check demands it) a
   * kept row, word or phrase, has frequency at least `minphrasefreq`.
   */
  lemma KeptReachesFloor(wt: Table, x: Item, minFreq: int, threshold: int)
    requires Canonical(wt) && wt.trainWords >= 0 && threshold >= 1
    requires Discarded(wt, x, minFreq, threshold) == Some(false)
    ensures x.freq >= minFreq
  {
    var parts := Split(x.word, UNDERSCORE);
    if |parts| >= 2 {
      RateAboveFloor(wt, x.freq, minFreq, parts, threshold);
    }
  }

  /** After FilterPhraseFromNgram the rows run in non-increasing frequency and `train_words_` is their total. */
  lemma FilterPhraseSorted(t: Table, wt: Table, minFreq: int, threshold: int)
    requires Canonical(t) && Canonical(wt) && FilterPhrase(t, wt, minFreq, threshold).Some?
    ensures var r := FilterPhrase(t, wt, minFreq, threshold).value;
      r.trainWords == FreqSum(r.rows)
      && forall i, j :: 0 <= i < j < |r.rows| ==> r.rows[i].freq >= r.rows[j].freq
  {
    var t1 := t.(rows := Survivors(wt, t.rows, minFreq, threshold).value);
    SurvivorsReady(t, wt, minFreq, threshold);
    RebuildRows(t1, -1);
    RebuildSorted(t1, -1);
  }

  /**
   * With `phrasefreqthreshold >= 1` every row left by FilterPhraseFromNgram
   * reaches `minphrasefreq`.
   */
  lemma FilterPhraseFloor(t: Table, wt: Table, minFreq: int, threshold: int)
    requires Canonical(t) && Canonical(wt) && FilterPhrase(t, wt, minFreq, threshold).Some?
    requires wt.trainWords >= 0 && threshold >= 1
    ensures var r := FilterPhrase(t, wt, minFreq, threshold).value;
      forall i :: 0 <= i < |r.rows| ==> r.rows[i].freq >= minFreq
  {
    var kept := Survivors(wt, t.rows, minFreq, threshold).value;
    var t1 := t.(rows := kept);
    SurvivorsReady(t, wt, minFreq, threshold);
    var r := FilterPhrase(t, wt, minFreq, threshold).value;
    RebuildRows(t1, -1);
    var sorted := RebuildOrder(t1, -1);
    SortDescMembers(kept, FreqKey);
    forall i | 0 <= i < |r.rows| ensures r.rows[i].freq >= minFreq {
      assert sorted[i] in kept;
      SurvivorReachesFloor(wt, t.rows, minFreq, threshold, sorted[i]);
    }
  }

  lemma SurvivorReachesFloor(wt: Table, rows: seq<Item>, minFreq: int, threshold: int, x: Item)
    requires Canonical(wt) && wt.trainWords >= 0 && threshold >= 1
    requires Survivors(wt, rows, minFreq, threshold).Some? && x in Survivors(wt, rows, minFreq, threshold).value
    ensures x.freq >= minFreq
  {
    SurvivorsMembers(wt, rows, minFreq, threshold, x);
    KeptReachesFloor(wt, x, minFreq, threshold);
  }

  lemma {:induction false} CountByteAbsent(s: Bytes, b: Byte)
    requires b !in s
    ensures CountByte(s, b) == 0
  {
    if s != [] {
      CountByteAbsent(s[..|s| - 1], b);
    }
  }

  /** A word without underscores (and without the bytes that end the split) is judged by its frequency alone. */
  lemma SingleWordRule(wt: Table, x: Item, minFreq: int, threshold: int)
    requires Canonical(wt) && UNDERSCORE !in x.word && NoStopByte(x.word)
    ensures Discarded(wt, x, minFreq, threshold) == Some(x.freq < minFreq)
  {
    SplitPlain(x.word, UNDERSCORE);
    SplitFieldsCount(x.word, UNDERSCORE);
    CountByteAbsent(x.word, UNDERSCORE);
  }
}
