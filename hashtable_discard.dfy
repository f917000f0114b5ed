/**
 * The frequency discard of `utils/hashtable.cc`: InitDiscardTable caches a
 * keep rate per row, GetDiscardRate reads it back (or recomputes it for a
 * boosted sample) and the two RandomDiscard forms drop words whose coin
 * draw exceeds their rate.
 *
 * The rate `sqrt(s / r) + s / r` of the sample `s` and the word's share `r`
 * of all occurrences is floating-point arithmetic; it is the parameter
 * `rate` here. The coin `uniform_(rng_)` is the sequence `draws`, one draw
 * per element in order. A read past the end of a vector, which the source
 * does not guard, is `None`.
 */
module HashTableDiscard {
  import opened Wrappers
  import opened Bytes
  import opened HashTableSpec

  /** The keep rate of a word from the sample and the word's share of the training words. */
  type RateFormula = (real, real) -> real

  /** The keep rate the formula gives for a sample and a share. */
  function KeepRate(rate: RateFormula, sample: real, share: real): real
  {
    rate(sample, share)
  }

  /** The keep rate for the sample scaled by a boost factor. */
  function BoostedRate(rate: RateFormula, sample: real, boost: real, share: real): real
  {
    rate(sample * boost, share)
  }

  /** A boost factor outside [0.99, 1.01] recomputes the rate instead of reading the cache. */
  predicate Boosted(boost: real)
  {
    boost < 0.99 || boost > 1.01
  }

  /** The share of all occurrences that row `pos` accounts for. */
  function Share(rows: seq<Item>, pos: nat, total: int): real
    requires pos < |rows| && total > 0
  {
    rows[pos].freq as real / total as real
  }

  /** The cached rates: one per row, or none when the rows have no occurrences. */
  function RateTable(rows: seq<Item>, sample: real, rate: RateFormula): seq<real>
  {
    var total := FreqSum(rows);
    if total <= 0 then []
    else seq(|rows|, i requires 0 <= i < |rows| => KeepRate(rate, sample, Share(rows, i, total)))
  }

  /**
   * InitDiscardTable: records the sample, sets the training-word count to
   * the frequency sum and rebuilds the cache of rates.
   */
  function InitDiscard(t: Table, sample: real, rate: RateFormula): (u: Table)
    ensures u.rows == t.rows && u.slots == t.slots && u.wordsize == t.wordsize
    ensures u.filterFreq == t.filterFreq && u.subngram == t.subngram
    ensures Canonical(t) ==> Canonical(u)
  {
    t.(sample := sample, trainWords := FreqSum(t.rows), discard := RateTable(t.rows, sample, rate))
  }

  /** GetDiscardRate, `None` for the unguarded row read past the end of the rows. */
  function DiscardRate(t: Table, pos: nat, boost: real, rate: RateFormula): Option<real>
  {
    if pos >= |t.discard| then Some(0.0)
    else if Boosted(boost) then
      if t.trainWords <= 0 then Some(1.0)
      else if pos < |t.rows| then Some(BoostedRate(rate, t.sample, boost, Share(t.rows, pos, t.trainWords)))
      else None
    else Some(t.discard[pos])
  }

  /**
   * After InitDiscardTable the cache has one rate per row when there are
   * occurrences and none otherwise, and the training-word count is the
   * frequency sum.
   */
  lemma InitDiscardShape(t: Table, sample: real, rate: RateFormula)
    ensures var u := InitDiscard(t, sample, rate);
      u.sample == sample && u.trainWords == FreqSum(t.rows)
      && |u.discard| == (if FreqSum(t.rows) > 0 then |t.rows| else 0)
  {
  }

  /**
   * After InitDiscardTable an unboosted GetDiscardRate of a row is the rate
   * the boosted branch computes with boost 1: the cache and the direct
   * formula agree.
   */
  lemma CachedRateIsDirect(t: Table, sample: real, rate: RateFormula, pos: nat, boost: real)
    requires FreqSum(t.rows) > 0 && pos < |t.rows| && !Boosted(boost)
    ensures var u := InitDiscard(t, sample, rate);
      DiscardRate(u, pos, boost, rate) == Some(BoostedRate(rate, u.sample, 1.0, Share(u.rows, pos, u.trainWords)))
  {
    var u := InitDiscard(t, sample, rate);
    assert u.sample * 1.0 == sample;
  }

  /** Without occurrences the cache is empty and every GetDiscardRate is 0. */
  lemma NoOccurrencesRateZero(t: Table, sample: real, rate: RateFormula, pos: nat, boost: real)
    requires FreqSum(t.rows) <= 0
    ensures DiscardRate(InitDiscard(t, sample, rate), pos, boost, rate) == Some(0.0)
  {
  }

  /** InitDiscardTable depends only on the rows and the sample: a second call changes nothing. */
  lemma InitDiscardIdempotent(t: Table, sample: real, rate: RateFormula)
    ensures InitDiscard(InitDiscard(t, sample, rate), sample, rate) == InitDiscard(t, sample, rate)
  {
  }

  // ---------------------------------------------------------------------
  // RandomDiscard over row ids

  /** The rate the coin for row `id` is compared with; `None` for an unguarded read out of range. */
  function Threshold(t: Table, id: int, boost: real, rate: RateFormula): Option<real>
    requires Boosted(boost) ==> t.trainWords > 0
  {
    if Boosted(boost) then
      if 0 <= id < |t.rows| then Some(BoostedRate(rate, t.sample, boost, Share(t.rows, id, t.trainWords))) else None
    else if 0 <= id < |t.discard| then Some(t.discard[id])
    else None
  }

  /** The ids whose draw does not exceed their rate, in order (the remove_if pass). */
  function KeepPassing(t: Table, ids: seq<int>, draws: seq<real>, boost: real, rate: RateFormula): Option<seq<int>>
    requires |draws| == |ids| && (Boosted(boost) ==> t.trainWords > 0)
  {
    if ids == [] then Some([])
    else
      var n := |ids| - 1;
      var prev :- KeepPassing(t, ids[..n], draws[..n], boost, rate);
      var thr :- Threshold(t, ids[n], boost, rate);
      Some(if draws[n] > thr then prev else prev + [ids[n]])
  }

  /** RandomDiscard(word_idx_vec): a boosted call without training words keeps everything. */
  function DiscardIds(t: Table, ids: seq<int>, draws: seq<real>, boost: real, rate: RateFormula): Option<seq<int>>
    requires |draws| == |ids|
  {
    if Boosted(boost) && t.trainWords <= 0 then Some(ids)
    else KeepPassing(t, ids, draws, boost, rate)
  }

  /** `a` is `b` with some elements removed, the rest in order. */
  predicate SubseqOf(a: seq<int>, b: seq<int>)
    decreases |b|
  {
    if a == [] then true
    else if b == [] then false
    else (a[|a| - 1] == b[|b| - 1] && SubseqOf(a[..|a| - 1], b[..|b| - 1])) || SubseqOf(a, b[..|b| - 1])
  }

  /** The elements of `s` whose flag is set, in order. */
  function Select(s: seq<int>, keep: seq<bool>): (r: seq<int>)
    requires |keep| == |s|
    ensures |r| <= |s|
  {
    if s == [] then []
    else
      var n := |s| - 1;
      Select(s[..n], keep[..n]) + (if keep[n] then [s[n]] else [])
  }

  /** Every rate the pass reads is in range. */
  predicate ThresholdsDefined(t: Table, ids: seq<int>, boost: real, rate: RateFormula)
    requires Boosted(boost) ==> t.trainWords > 0
  {
    forall i :: 0 <= i < |ids| ==> Threshold(t, ids[i], boost, rate).Some?
  }

  /** Whether each element's draw is at most its rate. */
  function Passes(t: Table, ids: seq<int>, draws: seq<real>, boost: real, rate: RateFormula): (keep: seq<bool>)
    requires |draws| == |ids| && (Boosted(boost) ==> t.trainWords > 0)
    requires ThresholdsDefined(t, ids, boost, rate)
    ensures |keep| == |ids|
  {
    seq(|ids|, i requires 0 <= i < |ids| => draws[i] <= Threshold(t, ids[i], boost, rate).value)
  }

  lemma SelectSubseq(s: seq<int>, keep: seq<bool>)
    requires |keep| == |s|
    ensures SubseqOf(Select(s, keep), s)
  {
    if s != [] {
      var n := |s| - 1;
      SelectSubseq(s[..n], keep[..n]);
      var r := Select(s, keep);
      if keep[n] {
        assert r[..|r| - 1] == Select(s[..n], keep[..n]) && r[|r| - 1] == s[n];
        assert s[..|s| - 1] == s[..n];
      } else if r != [] {
        assert r == Select(s[..n], keep[..n]);
      }
    }
  }

  /**
   * The pass keeps exactly the elements whose draw is at most their rate,
   * in order, and fails exactly when it reads a rate out of range.
   */
  lemma {:induction false} KeepPassingSelects(t: Table, ids: seq<int>, draws: seq<real>, boost: real, rate: RateFormula)
    requires |draws| == |ids| && (Boosted(boost) ==> t.trainWords > 0)
    ensures KeepPassing(t, ids, draws, boost, rate).Some? <==> ThresholdsDefined(t, ids, boost, rate)
    ensures ThresholdsDefined(t, ids, boost, rate) ==>
      KeepPassing(t, ids, draws, boost, rate) == Some(Select(ids, Passes(t, ids, draws, boost, rate)))
  {
    if ids != [] {
      var n := |ids| - 1;
      KeepPassingSelects(t, ids[..n], draws[..n], boost, rate);
      if ThresholdsDefined(t, ids, boost, rate) {
        assert ThresholdsDefined(t, ids[..n], boost, rate) by {
          forall i | 0 <= i < n ensures Threshold(t, ids[..n][i], boost, rate).Some? {
            assert ids[..n][i] == ids[i];
          }
        }
        var keep := Passes(t, ids, draws, boost, rate);
        assert keep[..n] == Passes(t, ids[..n], draws[..n], boost, rate);
        assert Select(ids, keep) == Select(ids[..n], keep[..n]) + (if keep[n] then [ids[n]] else []);
        var thr := Threshold(t, ids[n], boost, rate).value;
        assert keep[n] == (draws[n] <= thr);
        var prev := KeepPassing(t, ids[..n], draws[..n], boost, rate).value;
        assert prev == Select(ids[..n], keep[..n]);
        assert KeepPassing(t, ids, draws, boost, rate) == Some(if draws[n] > thr then prev else prev + [ids[n]]);
        assert prev + [] == prev;
        assert Select(ids, keep) == (if draws[n] > thr then prev else prev + [ids[n]]);
      }
      if KeepPassing(t, ids, draws, boost, rate).Some? {
        forall i | 0 <= i < |ids| ensures Threshold(t, ids[i], boost, rate).Some? {
          if i < n {
            assert ids[..n][i] == ids[i];
          }
        }
      }
    }
  }

  /** RandomDiscard(word_idx_vec) keeps a subsequence of its input. */
  lemma DiscardIdsSubseq(t: Table, ids: seq<int>, draws: seq<real>, boost: real, rate: RateFormula)
    requires |draws| == |ids|
    requires DiscardIds(t, ids, draws, boost, rate).Some?
    ensures SubseqOf(DiscardIds(t, ids, draws, boost, rate).value, ids)
  {
    if Boosted(boost) && t.trainWords <= 0 {
      SelectSubseq(ids, seq(|ids|, _ => true));
      SelectAll(ids);
    } else {
      KeepPassingSelects(t, ids, draws, boost, rate);
      SelectSubseq(ids, Passes(t, ids, draws, boost, rate));
    }
  }

  /** Keeping every element is the identity. */
  lemma {:induction false} SelectAll(s: seq<int>)
    ensures Select(s, seq(|s|, _ => true)) == s
  {
    if s != [] {
      var n := |s| - 1;
      assert seq(|s|, _ => true)[..n] == seq(n, _ => true);
      SelectAll(s[..n]);
      assert s[..n] + [s[n]] == s;
    }
  }

  /** When no draw exceeds its rate, RandomDiscard(word_idx_vec) drops nothing. */
  lemma DiscardIdsKeepsPassing(t: Table, ids: seq<int>, draws: seq<real>, boost: real, rate: RateFormula)
    requires |draws| == |ids| && (Boosted(boost) ==> t.trainWords > 0)
    requires ThresholdsDefined(t, ids, boost, rate)
    requires forall i :: 0 <= i < |ids| ==> draws[i] <= Threshold(t, ids[i], boost, rate).value
    ensures DiscardIds(t, ids, draws, boost, rate) == Some(ids)
  {
    KeepPassingSelects(t, ids, draws, boost, rate);
    assert Passes(t, ids, draws, boost, rate) == seq(|ids|, _ => true);
    SelectAll(ids);
  }

  // ---------------------------------------------------------------------
  // RandomDiscard over words

  /**
   * Sets an entry to -1 when its draw exceeds its rate. A negative entry (a
   * word not in the table) stays -1 without reading a rate.
   */
  function MarkRows(t: Table, ids: seq<int>, draws: seq<real>, boost: real, rate: RateFormula): (r: Option<seq<int>>)
    requires |draws| == |ids| && (Boosted(boost) ==> t.trainWords > 0)
    ensures r.Some? ==> |r.value| == |ids|
    ensures r.Some? ==> forall i :: 0 <= i < |ids| ==> r.value[i] == ids[i] || r.value[i] == -1
  {
    if ids == [] then Some([])
    else
      var n := |ids| - 1;
      var prev :- MarkRows(t, ids[..n], draws[..n], boost, rate);
      if ids[n] < 0 then Some(prev + [-1])
      else
        var thr :- Threshold(t, ids[n], boost, rate);
        Some(prev + [if draws[n] > thr then -1 else ids[n]])
  }

  /**
   * RandomDiscard(words, word_idx_vec) with each coin compared with the
   * rate of the word's own row, and words not in the table left at -1.
   */
  function DiscardWords(t: Table, ws: seq<Bytes>, draws: seq<real>, boost: real, rate: RateFormula): (r: Option<seq<int>>)
    requires Canonical(t) && |draws| == |ws|
    ensures r.Some? ==> |r.value| == |ws|
    ensures r.Some? ==> forall i :: 0 <= i < |ws| ==>
      (r.value[i] == -1 || Find(t, ws[i]) == Some(r.value[i])) && (r.value[i] >= 0 ==> t.rows[r.value[i]].word == ws[i])
  {
    var ids :- Positions(t, ws, true);
    PositionsFind(t, ws);
    FindsRowOrMinusOne(t, ws, ids);
    if Boosted(boost) && t.trainWords <= 0 then Some(ids)
    else MarkRows(t, ids, draws, boost, rate)
  }

  /** Every entry of GetWordPos(list, keepout) is the lookup of its word. */
  lemma {:induction false} PositionsFind(t: Table, ws: seq<Bytes>)
    requires Canonical(t) && Positions(t, ws, true).Some?
    ensures |Positions(t, ws, true).value| == |ws|
    ensures forall i :: 0 <= i < |ws| ==> Find(t, ws[i]) == Some(Positions(t, ws, true).value[i])
  {
    if ws != [] {
      var n := |ws| - 1;
      PositionsLast(t, ws);
      PositionsFind(t, ws[..n]);
      var prev := Positions(t, ws[..n], true).value;
      var s := Positions(t, ws, true).value;
      assert s == prev + [Find(t, ws[n]).value] && |prev| == n;
      forall i | 0 <= i < |ws| ensures Find(t, ws[i]) == Some(s[i]) {
        if i < n {
          assert ws[..n][i] == ws[i] && s[i] == prev[i];
        }
      }
    }
  }

  /** Keeping the blanks, GetWordPos(list) appends the lookup of the last word. */
  lemma PositionsLast(t: Table, ws: seq<Bytes>)
    requires Canonical(t) && ws != [] && Positions(t, ws, true).Some?
    ensures Positions(t, ws[..|ws| - 1], true).Some? && Find(t, ws[|ws| - 1]).Some?
    ensures Positions(t, ws, true).value
         == Positions(t, ws[..|ws| - 1], true).value + [Find(t, ws[|ws| - 1]).value]
  {
  }

  /** A lookup yields the row of its word or -1. */
  lemma FindsRowOrMinusOne(t: Table, ws: seq<Bytes>, ids: seq<int>)
    requires Canonical(t) && |ids| == |ws|
    requires forall i :: 0 <= i < |ws| ==> Find(t, ws[i]) == Some(ids[i])
    ensures forall i :: 0 <= i < |ws| ==> ids[i] == -1 || (0 <= ids[i] < |t.rows| && t.rows[ids[i]].word == ws[i])
  {
    forall i | 0 <= i < |ws| ensures ids[i] == -1 || (0 <= ids[i] < |t.rows| && t.rows[ids[i]].word == ws[i]) {
      FindCorrect(t, ws[i]);
    }
  }

  /**
   * A word survives RandomDiscard(words) exactly when it is in the table and
   * its draw does not exceed the rate of its own row.
   */
  lemma {:induction false} MarkRowsKeeps(t: Table, ids: seq<int>, draws: seq<real>, boost: real, rate: RateFormula, i: nat)
    requires |draws| == |ids| && (Boosted(boost) ==> t.trainWords > 0)
    requires MarkRows(t, ids, draws, boost, rate).Some? && i < |ids|
    ensures ids[i] >= 0 ==> Threshold(t, ids[i], boost, rate).Some?
    ensures MarkRows(t, ids, draws, boost, rate).value[i] == ids[i] <==>
      (ids[i] == -1 || (ids[i] >= 0 && draws[i] <= Threshold(t, ids[i], boost, rate).value))
  {
    var n := |ids| - 1;
    if i < n {
      MarkRowsKeeps(t, ids[..n], draws[..n], boost, rate, i);
      assert ids[..n][i] == ids[i] && draws[..n][i] == draws[i];
    }
  }

  // ---------------------------------------------------------------------
  // RandomDiscard over words as `utils/hashtable.cc` writes it

  /** The boosted loop as written: it reads the row of every entry, -1 included. */
  function MarkBoostedAsWritten(t: Table, ids: seq<int>, draws: seq<real>, boost: real, rate: RateFormula): (r: Option<seq<int>>)
    requires |draws| == |ids| && Boosted(boost) && t.trainWords > 0
    ensures r.Some? ==> |r.value| == |ids|
    ensures r.Some? ==> forall i :: 0 <= i < |ids| ==> r.value[i] == ids[i] || r.value[i] == -1
  {
    if ids == [] then Some([])
    else
      var n := |ids| - 1;
      var prev :- MarkBoostedAsWritten(t, ids[..n], draws[..n], boost, rate);
      var thr :- Threshold(t, ids[n], boost, rate);
      Some(prev + [if draws[n] > thr then -1 else ids[n]])
  }

  /** The unboosted loop as written: the `i`-th coin is compared with the cached rate of row `i`. */
  function MarkByPosition(ids: seq<int>, draws: seq<real>, discard: seq<real>): (r: Option<seq<int>>)
    requires |draws| == |ids|
    ensures r.Some? ==> |r.value| == |ids|
    ensures r.Some? ==> forall i :: 0 <= i < |ids| ==> r.value[i] == ids[i] || r.value[i] == -1
  {
    if ids == [] then Some([])
    else
      var n := |ids| - 1;
      var prev :- MarkByPosition(ids[..n], draws[..n], discard);
      if n < |discard| then Some(prev + [if draws[n] > discard[n] then -1 else ids[n]]) else None
  }

  /** RandomDiscard(words, word_idx_vec) as written. */
  function DiscardWordsAsWritten(t: Table, ws: seq<Bytes>, draws: seq<real>, boost: real, rate: RateFormula): (r: Option<seq<int>>)
    requires Canonical(t) && |draws| == |ws|
    ensures r.Some? ==> |r.value| == |ws|
  {
    var ids :- Positions(t, ws, true);
    PositionsFind(t, ws);
    if Boosted(boost) && t.trainWords <= 0 then Some(ids)
    else if Boosted(boost) then MarkBoostedAsWritten(t, ids, draws, boost, rate)
    else MarkByPosition(ids, draws, t.discard)
  }

  /** The boosted loop as written reads `wordvec_[-1]` as soon as one entry is -1. */
  lemma {:induction false} MarkBoostedReadsMinusOne(t: Table, ids: seq<int>, draws: seq<real>, boost: real, rate: RateFormula, i: nat)
    requires |draws| == |ids| && Boosted(boost) && t.trainWords > 0
    requires i < |ids| && ids[i] == -1
    ensures MarkBoostedAsWritten(t, ids, draws, boost, rate) == None
  {
    var n := |ids| - 1;
    if i < n {
      assert ids[..n][i] == ids[i];
      MarkBoostedReadsMinusOne(t, ids[..n], draws[..n], boost, rate, i);
    }
  }

  /**
   * As written, a boosted RandomDiscard(words) of a sentence holding a word
   * that is not in the table reads the row before the start of `wordvec_`.
   */
  lemma UnknownWordReadsBeforeRows(t: Table, ws: seq<Bytes>, draws: seq<real>, boost: real, rate: RateFormula, i: nat)
    requires Canonical(t) && |draws| == |ws| && Boosted(boost) && t.trainWords > 0
    requires i < |ws| && Find(t, ws[i]) == Some(-1) && Positions(t, ws, true).Some?
    ensures DiscardWordsAsWritten(t, ws, draws, boost, rate) == None
  {
    PositionsFind(t, ws);
    MarkBoostedReadsMinusOne(t, Positions(t, ws, true).value, draws, boost, rate, i);
  }

  /** With the -1 entries skipped, the same call marks the unknown word -1 and goes on. */
  lemma UnknownWordStaysMinusOne(t: Table, ws: seq<Bytes>, draws: seq<real>, boost: real, rate: RateFormula, i: nat)
    requires Canonical(t) && |draws| == |ws| && Boosted(boost) && t.trainWords > 0
    requires i < |ws| && Find(t, ws[i]) == Some(-1) && Positions(t, ws, true).Some?
    ensures DiscardWords(t, ws, draws, boost, rate).Some?
    ensures DiscardWords(t, ws, draws, boost, rate).value[i] == -1
  {
    PositionsFind(t, ws);
    var ids := Positions(t, ws, true).value;
    MarkRowsBoostedDefined(t, ids, draws, boost, rate);
  }

  /** Boosted, a mark over rows of the table never reads out of range. */
  lemma {:induction false} MarkRowsBoostedDefined(t: Table, ids: seq<int>, draws: seq<real>, boost: real, rate: RateFormula)
    requires |draws| == |ids| && Boosted(boost) && t.trainWords > 0
    requires forall i :: 0 <= i < |ids| ==> -1 <= ids[i] < |t.rows|
    ensures MarkRows(t, ids, draws, boost, rate).Some?
  {
    if ids != [] {
      var n := |ids| - 1;
      assert forall i :: 0 <= i < n ==> ids[..n][i] == ids[i];
      MarkRowsBoostedDefined(t, ids[..n], draws[..n], boost, rate);
    }
  }

  /**
   * As written, the unboosted pass compares the coin of a sentence's `i`-th
   * word with the rate of row `i`: for a sentence whose words sit at rows
   * 1 and 0, with rates 2 (always kept) for row 0 and 0 (always dropped)
   * for row 1, and both draws 0.5, the word of row 1 is kept and the word
   * of row 0 is dropped.
   */
  lemma PositionKeyedRates(t: Table, draws: seq<real>, boost: real, rate: RateFormula)
    requires Canonical(t) && |t.rows| == 2 && 2 < |t.slots| && t.discard == [2.0, 0.0] && !Boosted(boost)
    requires draws == [0.5, 0.5]
    ensures var ws := [t.rows[1].word, t.rows[0].word];
      DiscardWordsAsWritten(t, ws, draws, boost, rate) == Some([1, -1])
      && DiscardWords(t, ws, draws, boost, rate) == Some([-1, 0])
  {
    TwoRowPositions(t);
    ByPositionExample();
    ByRowExample(t, boost, rate);
  }

  /** The position-keyed marks of rows [1, 0] with rates [2, 0] and draws of 0.5. */
  lemma ByPositionExample()
    ensures MarkByPosition([1, 0], [0.5, 0.5], [2.0, 0.0]) == Some([1, -1])
  {
    var ids: seq<int> := [1, 0];
    var draws: seq<real> := [0.5, 0.5];
    assert ids[..1] == [1] && draws[..1] == [0.5];
    var e: seq<int> := [];
    assert e + [1] == [1] && [1] + [-1] == [1, -1];
  }

  /** The row-keyed marks of the same input. */
  lemma ByRowExample(t: Table, boost: real, rate: RateFormula)
    requires t.discard == [2.0, 0.0] && !Boosted(boost)
    ensures MarkRows(t, [1, 0], [0.5, 0.5], boost, rate) == Some([-1, 0])
  {
    var ids: seq<int> := [1, 0];
    var draws: seq<real> := [0.5, 0.5];
    assert ids[..1] == [1] && draws[..1] == [0.5];
    var e: seq<int> := [];
    assert Threshold(t, 1, boost, rate) == Some(0.0) && Threshold(t, 0, boost, rate) == Some(2.0);
    assert e + [-1] == [-1] && [-1] + [0] == [-1, 0];
    assert MarkRows(t, ids[..1], draws[..1], boost, rate) == Some([-1]);
  }

  /** A sentence of the two rows' words in reverse order looks up rows 1 and 0. */
  lemma TwoRowPositions(t: Table)
    requires Canonical(t) && |t.rows| == 2 && 2 < |t.slots|
    ensures Positions(t, [t.rows[1].word, t.rows[0].word], true) == Some([1, 0])
  {
    var ws := [t.rows[1].word, t.rows[0].word];
    PositionsKeepout(t, ws);
    CanonicalFindsRows(t, 0);
    CanonicalFindsRows(t, 1);
    var s := Positions(t, ws, true).value;
    assert s[0] == 1 && s[1] == 0;
    assert s == [1, 0];
  }
}
