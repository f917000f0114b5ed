/**
 * Facts the list loops of the HashTable class step through: AddWord over a
 * list, the two RandomDiscard passes, CombineWordVec and the two passes of
 * FilterPhraseFromNgram. Each prefix of a successful run succeeds, and each
 * function unfolds by one element.
 */
module HashTableLoops {
  import opened Wrappers
  import opened Bytes
  import opened BasicUtil
  import opened HashTableSpec
  import opened HashTableDiscard
  import opened HashTableMerge
  import opened HashTableSteps

  lemma AddWordListPrefix(t: Table, ws: seq<Bytes>, addSub: bool, n: nat)
    requires Canonical(t) && (addSub ==> SubwordsInRange(t.rows)) && n <= |ws|
    requires AddWordList(t, ws, addSub).Some?
    ensures AddWordList(t, ws[..n], addSub).Some?
  {
    var ok := (q: seq<Bytes>) => Canonical(t) && (addSub ==> SubwordsInRange(t.rows)) && AddWordList(t, q, addSub).Some?;
    PrefixClosed(ok, ws, n);
  }

  /** Step `i` of AddWord over a list: word `i` is added once to the table the first `i` words left. */
  lemma AddWordListStep(t: Table, ws: seq<Bytes>, addSub: bool, i: nat, u: Table)
    requires Canonical(t) && (addSub ==> SubwordsInRange(t.rows)) && i < |ws|
    requires AddWordList(t, ws[..i], addSub) == Some(u) && AddWordList(t, ws[..i + 1], addSub).Some?
    ensures Canonical(u) && (addSub ==> SubwordsInRange(u.rows))
    ensures AddWordList(t, ws[..i + 1], addSub) == AddWord(u, ws[i], 1, true, true, addSub)
  {
    assert ws[..i + 1][..i] == ws[..i];
  }

  lemma CombinePrefix(t: Table, items: seq<Item>, n: nat)
    requires Canonical(t) && n <= |items| && Combine(t, items).Some?
    ensures Combine(t, items[..n]).Some?
  {
    var ok := (q: seq<Item>) => Canonical(t) && Combine(t, q).Some?;
    PrefixClosed(ok, items, n);
  }

  /** Step `i` of CombineWordVec: item `i` is added, then its row marked, on the table the first `i` items left. */
  lemma CombineStep(t: Table, items: seq<Item>, i: nat, u: Table)
    requires Canonical(t) && i < |items|
    requires Combine(t, items[..i]) == Some(u) && Combine(t, items[..i + 1]).Some?
    ensures Canonical(u) && AddWord(u, items[i].word, items[i].freq, true, true, false).Some?
    ensures Canonical(AddWord(u, items[i].word, items[i].freq, true, true, false).value)
    ensures Combine(t, items[..i + 1]) == MarkItem(AddWord(u, items[i].word, items[i].freq, true, true, false).value, items[i])
  {
    assert items[..i + 1][..i] == items[..i];
  }

  /** The row marking of one item: with subwords, the lookup succeeds and a found row gets the marker. */
  lemma MarkItemStep(u: Table, x: Item)
    requires Canonical(u) && MarkItem(u, x).Some?
    ensures x.subwords != [] ==> Find(u, x.word).Some?
    ensures x.subwords != [] && Find(u, x.word).value >= 0 ==>
      Find(u, x.word).value < |u.rows| && MarkItem(u, x) == Some(MarkSubwords(u, Find(u, x.word).value))
    ensures x.subwords == [] || Find(u, x.word).value < 0 ==> MarkItem(u, x) == Some(u)
  {
    if x.subwords != [] {
      FindCorrect(u, x.word);
    }
  }

  lemma {:induction false} KeepPassingPrefix(t: Table, ids: seq<int>, draws: seq<real>, boost: real, rate: RateFormula, n: nat)
    requires |draws| == |ids| && (Boosted(boost) ==> t.trainWords > 0) && n <= |ids|
    requires KeepPassing(t, ids, draws, boost, rate).Some?
    ensures KeepPassing(t, ids[..n], draws[..n], boost, rate).Some?
    decreases |ids|
  {
    if n < |ids| {
      var m := |ids| - 1;
      assert ids[..n] == ids[..m][..n] && draws[..n] == draws[..m][..n];
      KeepPassingPrefix(t, ids[..m], draws[..m], boost, rate, n);
    } else {
      assert ids[..n] == ids && draws[..n] == draws;
    }
  }

  /** Step `i` of the remove_if pass: id `i` stays behind the kept ones unless its draw exceeds its rate. */
  lemma KeepPassingStep(t: Table, ids: seq<int>, draws: seq<real>, boost: real, rate: RateFormula, i: nat, acc: seq<int>)
    requires |draws| == |ids| && (Boosted(boost) ==> t.trainWords > 0) && i < |ids|
    requires KeepPassing(t, ids[..i], draws[..i], boost, rate) == Some(acc)
    requires KeepPassing(t, ids[..i + 1], draws[..i + 1], boost, rate).Some?
    ensures Threshold(t, ids[i], boost, rate).Some?
    ensures KeepPassing(t, ids[..i + 1], draws[..i + 1], boost, rate)
         == Some(if draws[i] > Threshold(t, ids[i], boost, rate).value then acc else acc + [ids[i]])
  {
    assert ids[..i + 1][..i] == ids[..i] && draws[..i + 1][..i] == draws[..i];
  }

  /** RandomDiscard(words) is the marking pass over the lookups, skipped for a boosted sample without training words. */
  lemma DiscardWordsUnfold(t: Table, ws: seq<Bytes>, draws: seq<real>, boost: real, rate: RateFormula, found: seq<int>)
    requires Canonical(t) && |draws| == |ws| && Positions(t, ws, true) == Some(found)
    ensures |found| == |ws|
    ensures Boosted(boost) && t.trainWords <= 0 ==> DiscardWords(t, ws, draws, boost, rate) == Some(found)
    ensures !(Boosted(boost) && t.trainWords <= 0) ==> DiscardWords(t, ws, draws, boost, rate) == MarkRows(t, found, draws, boost, rate)
  {
    PositionsFind(t, ws);
  }

  lemma {:induction false} MarkRowsPrefix(t: Table, ids: seq<int>, draws: seq<real>, boost: real, rate: RateFormula, n: nat)
    requires |draws| == |ids| && (Boosted(boost) ==> t.trainWords > 0) && n <= |ids|
    requires MarkRows(t, ids, draws, boost, rate).Some?
    ensures MarkRows(t, ids[..n], draws[..n], boost, rate).Some?
    decreases |ids|
  {
    if n < |ids| {
      var m := |ids| - 1;
      assert ids[..n] == ids[..m][..n] && draws[..n] == draws[..m][..n];
      MarkRowsPrefix(t, ids[..m], draws[..m], boost, rate, n);
    } else {
      assert ids[..n] == ids && draws[..n] == draws;
    }
  }

  /** Step `i` of the marking pass: entry `i` becomes -1 when it is negative or its draw exceeds its rate. */
  lemma MarkRowsStep(t: Table, ids: seq<int>, draws: seq<real>, boost: real, rate: RateFormula, i: nat, acc: seq<int>)
    requires |draws| == |ids| && (Boosted(boost) ==> t.trainWords > 0) && i < |ids|
    requires MarkRows(t, ids[..i], draws[..i], boost, rate) == Some(acc)
    requires MarkRows(t, ids[..i + 1], draws[..i + 1], boost, rate).Some?
    ensures ids[i] >= 0 ==> Threshold(t, ids[i], boost, rate).Some?
    ensures MarkRows(t, ids[..i + 1], draws[..i + 1], boost, rate)
         == Some(acc + [if ids[i] < 0 || draws[i] > Threshold(t, ids[i], boost, rate).value then -1 else ids[i]])
  {
    assert ids[..i + 1][..i] == ids[..i] && draws[..i + 1][..i] == draws[..i];
  }

  /** An in-place update of entry `i` that matches the next element of the marked prefix. */
  lemma MarkInPlace(r: seq<int>, ids: seq<int>, i: nat, acc: seq<int>, x: int)
    requires |r| == |ids| && i < |ids| && r[..i] == acc && r[i..] == ids[i..]
    ensures (r[i := x])[..i + 1] == acc + [x] && (r[i := x])[i + 1..] == ids[i + 1..]
  {
    assert ids[i + 1..] == ids[i..][1..];
  }

  lemma PartProductPrefix(wt: Table, parts: seq<Bytes>, n: nat)
    requires Canonical(wt) && n <= |parts| && PartProduct(wt, parts).Some?
    ensures PartProduct(wt, parts[..n]).Some?
  {
    var ok := (q: seq<Bytes>) => Canonical(wt) && PartProduct(wt, q).Some?;
    PrefixClosed(ok, parts, n);
  }

  /** Step `j` of the product over the parts of a phrase. */
  lemma PartProductStep(wt: Table, parts: seq<Bytes>, j: nat, acc: real)
    requires Canonical(wt) && j < |parts| && PartProduct(wt, parts[..j]) == Some(acc)
    requires PartProduct(wt, parts[..j + 1]).Some?
    ensures WordFreq(wt, parts[j]).Some?
    ensures PartProduct(wt, parts[..j + 1]) == Some(Scale(acc, WordFreq(wt, parts[j]).value))
  {
    assert parts[..j + 1][..j] == parts[..j];
  }

  /** Step `i` of the compacting pass of FilterPhraseFromNgram. */
  lemma SurvivorsStep(wt: Table, rows: seq<Item>, minFreq: int, threshold: int, i: nat, acc: seq<Item>, d: bool)
    requires Canonical(wt) && i < |rows| && Survivors(wt, rows[..i], minFreq, threshold) == Some(acc)
    requires Discarded(wt, rows[i], minFreq, threshold) == Some(d)
    ensures Survivors(wt, rows[..i + 1], minFreq, threshold) == Some(if d then acc else acc + [rows[i]])
  {
    assert rows[..i + 1][..i] == rows[..i];
  }

  lemma SubWordListsPrefix(t: Table, ws: seq<Bytes>, ids: seq<int>, n: nat)
    requires Canonical(t) && |ids| == |ws| && n <= |ws| && SubWordLists(t, ws, ids).Some?
    ensures SubWordLists(t, ws[..n], ids[..n]).Some?
    decreases |ws|
  {
    if n < |ws| {
      var m := |ws| - 1;
      assert ws[..n] == ws[..m][..n] && ids[..n] == ids[..m][..n];
      SubWordListsPrefix(t, ws[..m], ids[..m], n);
    } else {
      assert ws[..n] == ws && ids[..n] == ids;
    }
  }

  /** Step `i` of the list form of GetSubWordList: a found word contributes its query-mode subwords. */
  lemma SubWordListsStep(t: Table, ws: seq<Bytes>, ids: seq<int>, i: nat, acc: seq<int>)
    requires Canonical(t) && |ids| == |ws| && i < |ws|
    requires SubWordLists(t, ws[..i], ids[..i]) == Some(acc) && SubWordLists(t, ws[..i + 1], ids[..i + 1]).Some?
    ensures ids[i] >= 0 ==> SubWordList(t, ws[i], false, true).Some?
    ensures SubWordLists(t, ws[..i + 1], ids[..i + 1])
         == Some(if ids[i] < 0 then acc else acc + SubWordList(t, ws[i], false, true).value.0)
  {
    assert ws[..i + 1][..i] == ws[..i] && ids[..i + 1][..i] == ids[..i];
  }
}
