/**
 * The Lexicon as the object `utils/hashtable.cc` defines: the rows
 * (`wordvec_`) and the counters are fields the methods update, and the
 * open-addressing index (`wordidx_`) is an array updated slot by slot.
 * Every method is proved against the functions of HashTableSpec: a query
 * returns what the function computes on `State()`, an update leaves
 * `State()` equal to the function applied to the old state.
 */
module HashTable {
  import opened Wrappers
  import opened Bytes
  import opened BasicUtil
  import opened Sorting
  import opened HashTableSpec
  import opened HashTableDiscard
  import opened HashTableStore
  import opened HashTableSteps
  import opened HashTableMerge
  import opened HashTableLoops

  class HashTable {
    var rows: seq<Item>
    const slots: array<int>
    var wordsize: int
    var filterFreq: int
    var trainWords: int
    var sample: real
    var discard: seq<real>
    const subngram: nat

    /** The abstract value of the object. */
    function State(): Table
      reads this, slots
    {
      Table(rows, slots[..], wordsize, filterFreq, trainWords, sample, discard, subngram)
    }

    /** HashTable(conf, cap): no rows, every slot empty, filter floor 1. */
    constructor (cap: nat, subngram: nat)
      requires cap > 0
      ensures State() == Fresh(cap, subngram) && Canonical(State())
    {
      rows := [];
      slots := new int[cap](_ => -1);
      wordsize := 0;
      filterFreq := 1;
      trainWords := 0;
      sample := 0.0;
      discard := [];
      this.subngram := subngram;
      new;
      assert slots[..] == seq(cap, _ => -1);
    }

    /** GetWordHash: FNV-1a over the signed bytes, modulo the capacity. */
    method GetWordHash(word: Bytes) returns (h: nat)
      requires slots.Length > 0
      ensures h == Hash(word, slots.Length)
    {
      var x: bv32 := 2166136261;
      var i := 0;
      while i < |word|
        invariant 0 <= i <= |word|
        invariant x == Fnv(word[..i])
      {
        assert word[..i + 1][..i] == word[..i];
        x := FnvStep(x, word[i]);
        i := i + 1;
      }
      assert word[..|word|] == word;
      h := (x as int) % slots.Length;
    }

    /** GetWordIdx: walks the probe sequence to the slot holding `word` or the first empty one. */
    method GetWordIdx(word: Bytes) returns (idx: nat)
      requires Probeable(State()) && Probe(Words(rows), slots[..], word).Some?
      ensures Probe(Words(rows), slots[..], word) == Some(idx)
    {
      var h := GetWordHash(word);
      var cap := slots.Length;
      idx := h;
      ghost var d := 0;
      while slots[idx] >= 0 && rows[slots[idx]].word != word
        invariant d < cap && idx == At(h, d, cap)
        invariant ProbeFrom(Words(rows), slots[..], word, h, d) == Probe(Words(rows), slots[..], word)
        decreases cap - d
      {
        NextIsMod(idx, cap);
        idx := (idx + 1) % cap;
        d := d + 1;
      }
    }

    /** GetWordPos: the row of `word`, or -1. */
    method GetWordPos(word: Bytes) returns (pos: int)
      requires Probeable(State()) && Find(State(), word).Some?
      ensures Find(State(), word) == Some(pos)
    {
      var idx := GetWordIdx(word);
      if slots[idx] >= 0 && slots[idx] < |rows| {
        pos := slots[idx];
      } else {
        pos := -1;
      }
    }

    /** GetWordPos over a list: one entry per word with `keepout`, else only the words found. */
    method GetWordPosList(words: seq<Bytes>, keepout: bool) returns (ids: seq<int>)
      requires Canonical(State()) && Positions(State(), words, keepout).Some?
      ensures Positions(State(), words, keepout) == Some(ids)
    {
      ids := [];
      var i := 0;
      while i < |words|
        invariant 0 <= i <= |words|
        invariant Positions(State(), words[..i], keepout) == Some(ids)
      {
        PositionsPrefix(State(), words, keepout, i + 1);
        assert words[..i + 1][..i] == words[..i];
        var pos := GetWordPos(words[i]);
        if pos >= 0 || keepout {
          ids := ids + [pos];
        }
        i := i + 1;
      }
      assert words[..|words|] == words;
    }

    /** GetWordFreq: the frequency of `word`, 0 when absent. */
    method GetWordFreq(word: Bytes) returns (f: int)
      requires Canonical(State()) && WordFreq(State(), word).Some?
      ensures WordFreq(State(), word) == Some(f)
    {
      var idx := GetWordIdx(word);
      if slots[idx] >= 0 {
        f := rows[slots[idx]].freq;
      } else {
        f := 0;
      }
    }

    /** HasWord: whether the probe for `word` ends at an occupied slot. */
    method HasWord(word: Bytes) returns (b: bool)
      requires Canonical(State()) && HashTableSpec.HasWord(State(), word).Some?
      ensures HashTableSpec.HasWord(State(), word) == Some(b)
    {
      var idx := GetWordIdx(word);
      b := slots[idx] >= 0;
    }

    /** The frequency loops of AddWord: each listed row gains `f`, once per listing. */
    method BumpRows(ids: seq<int>, f: int)
      modifies this
      requires forall k :: 0 <= k < |ids| ==> 0 <= ids[k] < |rows|
      ensures State() == old(State()).(rows := Bump(old(rows), ids, f))
    {
      var k := 0;
      while k < |ids|
        invariant 0 <= k <= |ids|
        invariant State() == old(State()).(rows := Bump(old(rows), ids[..k], f))
      {
        assert ids[..k + 1][..k] == ids[..k];
        var r := ids[k];
        rows := rows[r := rows[r].(freq := rows[r].freq + f)];
        k := k + 1;
      }
      assert ids[..|ids|] == ids;
    }

    /** The known-word branch of AddWord: row `r` and, with `addSub`, its subword rows gain `f`. */
    method RaiseRow(r: nat, f: int, addSub: bool)
      modifies this
      requires Canonical(State()) && r < |rows| && (addSub ==> SubwordsInRange(rows))
      ensures State() == AddExisting(old(State()), r, f, addSub)
    {
      rows := rows[r := rows[r].(freq := rows[r].freq + f)];
      if addSub {
        BumpRows(rows[r].subwords, f);
      }
    }

    /**
     * The new-word branch of AddWord after the subwords are known: each
     * subword row gains `f`, then the row is placed.
     */
    method PlaceNew(w: Bytes, subs: seq<int>, f: int, rebuild: bool)
      modifies this, slots
      requires Canonical(State()) && w != [] && TrimClean(w) && w !in Words(rows)
      requires forall k :: 0 <= k < |subs| ==> 0 <= subs[k] < |rows|
      requires PlaceBumped(State(), w, subs, f, rebuild).Some?
      ensures State() == PlaceBumped(old(State()), w, subs, f, rebuild).value
      decreases if rebuild then 7 else 2
    {
      BumpRows(subs, f);
      SameWordsCanonical(old(State()), State());
      PlaceRow(w, subs, f, rebuild);
    }

    /**
     * The word takes the slot its probe ends at and the next row number;
     * past 70% occupancy, with `rebuild`, the floor rises by one and the
     * table is rebuilt with it.
     */
    method PlaceRow(w: Bytes, subs: seq<int>, f: int, rebuild: bool)
      modifies this, slots
      requires Canonical(State()) && w != [] && TrimClean(w) && w !in Words(rows)
      requires forall k :: 0 <= k < |subs| ==> 0 <= subs[k] < |rows|
      requires Place(State(), w, subs, f, rebuild).Some?
      ensures State() == Place(old(State()), w, subs, f, rebuild).value
      decreases if rebuild then 6 else 1
    {
      ghost var t := State();
      PlaceProbe(t, w, subs, f, rebuild);
      var idx := GetWordIdx(w);
      AppendedCanonical(t, w, subs, f, idx);
      PlaceSteps(t, w, subs, f, rebuild, idx);
      AppendRow(w, subs, f, idx);
      Grow(Appended(t, w, subs, f, idx), rebuild);
    }

    /** Past 70% occupancy, with `rebuild`, the filter floor rises by one and the table is rebuilt. */
    method Grow(ghost u: Table, rebuild: bool)
      modifies this, slots
      requires State() == u && Rebuildable(u) && Grown(u, rebuild).Some?
      ensures State() == Grown(u, rebuild).value
      decreases if rebuild then 5 else 0
    {
      if 10 * wordsize > 7 * slots.Length && rebuild {
        filterFreq := filterFreq + 1;
        assert State() == RaiseFloor(u);
        GrownRebuilds(u);
        Rebuild(filterFreq);
      }
    }

    /** The new row goes last and slot `idx` takes its position. */
    method AppendRow(w: Bytes, subs: seq<int>, f: int, idx: nat)
      modifies this, slots
      requires idx < slots.Length
      ensures State() == Appended(old(State()), w, subs, f, idx)
    {
      rows := rows + [Item(w, subs, f)];
      slots[idx] := wordsize;
      wordsize := wordsize + 1;
    }

    /**
     * GetSubWordList for one word: the stored list of a known word in query
     * mode, else the rows of its pieces, inserting the missing ones (with
     * frequency 0) in build mode when adding is enabled.
     */
    method GetSubWordList(word: Bytes, build: bool, enableAdd: bool) returns (ids: seq<int>)
      modifies this, slots
      requires Canonical(State()) && SubWordList(State(), word, build, enableAdd).Some?
      ensures SubWordList(old(State()), word, build, enableAdd) == Some((ids, State()))
      decreases if build && enableAdd then 6 else 0
    {
      if build && enableAdd {
        var ps := ScanPieces(word, subngram);
        ids := BuildLoop(ps);
      } else {
        ids := QuerySubWordList(word, build, enableAdd);
      }
    }

    /**
     * GetSubWordList without insertion: a known word's stored list (unless
     * building), else the rows of the pieces that are present.
     */
    method QuerySubWordList(word: Bytes, build: bool, enableAdd: bool) returns (ids: seq<int>)
      requires Canonical(State()) && !(build && enableAdd) && SubWordList(State(), word, build, enableAdd).Some?
      ensures SubWordList(State(), word, build, enableAdd) == Some((ids, State()))
    {
      FindCorrect(State(), word);
      var pos := GetWordPos(word);
      if pos >= 0 && !build {
        ids := rows[pos].subwords;
        return;
      }
      var ps := ScanPieces(word, subngram);
      ids := QueryLoop(ps);
    }

    /** GetSubWordList over a list: the query-mode subwords of each word whose entry is not negative, concatenated. */
    method GetSubWordLists(ws: seq<Bytes>, wordIds: seq<int>) returns (ids: seq<int>)
      requires Canonical(State()) && |wordIds| == |ws| && SubWordLists(State(), ws, wordIds).Some?
      ensures SubWordLists(State(), ws, wordIds) == Some(ids)
    {
      ids := [];
      var i := 0;
      while i < |ws|
        invariant 0 <= i <= |ws| && SubWordLists(State(), ws[..i], wordIds[..i]) == Some(ids)
      {
        SubWordListsPrefix(State(), ws, wordIds, i + 1);
        SubWordListsStep(State(), ws, wordIds, i, ids);
        if wordIds[i] >= 0 {
          var subs := QuerySubWordList(ws[i], false, true);
          ids := ids + subs;
        }
        i := i + 1;
      }
      assert ws[..|ws|] == ws && wordIds[..|wordIds|] == wordIds;
    }

    /** The query-mode lookups: the rows of those pieces that are present. */
    method QueryLoop(ps: seq<Bytes>) returns (ids: seq<int>)
      requires Canonical(State()) && QueryPieces(State(), ps).Some?
      ensures QueryPieces(State(), ps) == Some(ids)
    {
      ids := [];
      var k := 0;
      while k < |ps|
        invariant 0 <= k <= |ps| && QueryPieces(State(), ps[..k]) == Some(ids)
      {
        QueryPiecesPrefix(State(), ps, k + 1);
        QueryStep(State(), ps, k, ids);
        var pos := GetWordPos(ps[k]);
        if pos >= 0 {
          ids := ids + [pos];
        }
        k := k + 1;
      }
      assert ps[..|ps|] == ps;
    }

    /** The build-mode lookups: each missing piece is inserted (frequency 0) and looked up again. */
    method BuildLoop(ps: seq<Bytes>) returns (ids: seq<int>)
      modifies this, slots
      requires Canonical(State()) && BuildPieces(State(), ps).Some?
      ensures BuildPieces(old(State()), ps) == Some((ids, State()))
      decreases 5
    {
      ids := [];
      var k := 0;
      ghost var t0 := State();
      while k < |ps|
        invariant k <= |ps| && BuildPieces(t0, ps[..k]) == Some((ids, State()))
      {
        BuildPiecesPrefix(t0, ps, k + 1);
        ids := BuildOne(t0, ps, k, ids);
        k := k + 1;
      }
      assert ps[..|ps|] == ps;
    }

    /** One build-mode lookup: piece `k`, inserted first when missing. */
    method BuildOne(ghost t0: Table, ps: seq<Bytes>, k: nat, acc: seq<int>) returns (ids: seq<int>)
      modifies this, slots
      requires Canonical(t0) && k < |ps| && BuildPieces(t0, ps[..k]) == Some((acc, State()))
      requires BuildPieces(t0, ps[..k + 1]).Some?
      ensures BuildPieces(t0, ps[..k + 1]) == Some((ids, State()))
      decreases 4
    {
      BuildStepFacts(t0, ps, k, acc, State());
      var p := ps[k];
      FindCorrect(State(), p);
      var pos := GetWordPos(p);
      if pos >= 0 {
        ids := acc + [pos];
      } else {
        AddPlainIsAddWord(State(), p, 0);
        AddWord(p, 0, false, false, false);
        FindCorrect(State(), p);
        pos := GetWordPos(p);
        ids := if pos >= 0 then acc + [pos] else acc;
      }
    }

    /**
     * AddWord: the trimmed word is ignored when empty; a known word gains
     * `f` (with its subword rows when `addSub`) if `addFreq`; a new word is
     * appended, its subwords resolved first when `addSub`.
     */
    method AddWord(wordOri: Bytes, f: int, rebuild: bool, addFreq: bool, addSub: bool)
      modifies this, slots
      requires Canonical(State()) && (addSub ==> SubwordsInRange(rows))
      requires HashTableSpec.AddWord(State(), wordOri, f, rebuild, addFreq, addSub).Some?
      ensures State() == HashTableSpec.AddWord(old(State()), wordOri, f, rebuild, addFreq, addSub).value
      decreases if addSub || rebuild then 8 else 3
    {
      var word := StringTrim(wordOri);
      if word == [] {
        return;
      }
      var idx := GetWordIdx(word);
      if slots[idx] >= 0 {
        if addFreq {
          RaiseRow(slots[idx], f, addSub);
        }
        return;
      }
      FindCorrect(State(), word);
      var subs: seq<int> := [];
      if addSub {
        subs := GetSubWordList(word, true, true);
        NewWordStaysNew(old(State()), State(), word);
      }
      PlaceNew(word, subs, f, rebuild);
    }

    /**
     * Rebuild(m): drops the rows below the floor (when `m > 0`), sorts the
     * rest by descending frequency, re-indexes them, re-resolves the
     * non-empty subword lists and recounts the training words.
     */
    method Rebuild(m: int)
      modifies this, slots
      requires Rebuildable(State()) && HashTableSpec.Rebuild(State(), m).Some?
      ensures State() == HashTableSpec.Rebuild(old(State()), m).value
      decreases 4
    {
      ghost var t := State();
      RebuildOrderReady(t, m);
      DropBelow(m);
      rows := SortDesc(rows, FreqKey);
      wordsize := |rows|;
      ReindexSlots();
      RebuildStages(t, m, State());
      ResolveRows();
      var total := SumFreqs();
      trainWords := total;
    }

    /** The remove_if step of Rebuild: only rows with frequency at least `m` stay (all of them when `m <= 0`). */
    method DropBelow(m: int)
      modifies this
      ensures State() == old(State()).(rows := Kept(old(rows), m))
    {
      if m <= 0 {
        return;
      }
      var kept: seq<Item> := [];
      var i := 0;
      while i < |rows|
        invariant 0 <= i <= |rows| && kept == Kept(rows[..i], m)
      {
        assert rows[..i + 1][..i] == rows[..i];
        if !(rows[i].freq < m) {
          kept := kept + [rows[i]];
        }
        i := i + 1;
      }
      assert rows[..|rows|] == rows;
      rows := kept;
    }

    /** The index loop of Rebuild: every slot emptied, then each row inserted in order. */
    method ReindexSlots()
      modifies slots
      requires 0 < slots.Length && |rows| <= slots.Length && Distinct(Words(rows))
      ensures slots[..] == Reindex(Words(rows), slots.Length)
    {
      var p := 0;
      while p < slots.Length
        invariant 0 <= p <= slots.Length
        invariant forall q :: 0 <= q < p ==> slots[q] == -1
      {
        slots[p] := -1;
        p := p + 1;
      }
      assert slots[..] == Reindex([], slots.Length);
      ghost var words := Words(rows);
      var i := 0;
      while i < |rows|
        invariant 0 <= i <= |rows|
        invariant slots[..] == Reindex(words[..i], slots.Length)
      {
        ReindexStep(words, slots.Length, i);
        SlotsWiden(i, |rows|, slots[..]);
        var idx := GetWordIdx(rows[i].word);
        slots[idx] := i;
        i := i + 1;
      }
      assert words[..|rows|] == words;
    }

    /** The resolve loop of Rebuild: each non-empty subword list becomes the rows of the word's pieces. */
    method ResolveRows()
      modifies this, slots
      requires Canonical(State()) && Resolved(State(), rows).Some?
      ensures State() == old(State()).(rows := Resolved(old(State()), old(rows)).value)
      decreases 3
    {
      ghost var t1 := State();
      assert t1 == old(State()) && t1.rows == old(rows);
      var i := 0;
      while i < |rows|
        invariant 0 <= i <= |t1.rows| == |rows| && Resolved(t1, t1.rows[..i]).Some?
        invariant rows == Resolved(t1, t1.rows[..i]).value + t1.rows[i..]
        invariant State() == t1.(rows := rows)
        decreases |t1.rows| - i
      {
        ResolveAt(t1, i);
        i := i + 1;
      }
      assert t1.rows[..|t1.rows|] == t1.rows && t1.rows[|t1.rows|..] == [];
    }

    /** Row `i` of the resolve loop: a non-empty list is replaced by the rows of the word's pieces. */
    method ResolveAt(ghost t1: Table, i: nat)
      modifies this, slots
      requires Canonical(t1) && i < |t1.rows| && Resolved(t1, t1.rows).Some?
      requires Resolved(t1, t1.rows[..i]).Some? && rows == Resolved(t1, t1.rows[..i]).value + t1.rows[i..]
      requires State() == t1.(rows := rows)
      ensures Resolved(t1, t1.rows[..i + 1]).Some? && rows == Resolved(t1, t1.rows[..i + 1]).value + t1.rows[i + 1..]
      ensures State() == t1.(rows := rows) && |rows| == |t1.rows|
      decreases 2
    {
      ResolveStep(t1, i, rows);
      if rows[i].subwords != [] {
        var ids := ResolveIds(t1, i);
        assert State() == t1.(rows := rows);
        rows := rows[i := rows[i].(subwords := ids)];
      }
    }

    /** The query-mode GetSubWordList call of the resolve loop, which leaves the table as it is. */
    method ResolveIds(ghost t1: Table, i: nat) returns (ids: seq<int>)
      modifies this, slots
      requires Canonical(t1) && i < |t1.rows| == |rows| && t1.rows[i].subwords != []
      requires ResolveRow(t1, t1.rows[i]).Some? && t1.rows[i].word in Words(t1.rows)
      requires State() == t1.(rows := rows) && Words(rows) == Words(t1.rows) && rows[i].word == t1.rows[i].word
      ensures State() == old(State()) && ids == ResolveRow(t1, t1.rows[i]).value.subwords
      decreases 1
    {
      SameWordsCanonical(t1, State());
      ResolveAcross(t1, State(), t1.rows[i]);
      ids := GetSubWordList(rows[i].word, true, false);
    }

    /** The recount of `train_words_`. */
    method SumFreqs() returns (total: int)
      ensures total == FreqSum(rows)
    {
      total := 0;
      var i := 0;
      while i < |rows|
        invariant 0 <= i <= |rows| && total == FreqSum(rows[..i])
      {
        assert rows[..i + 1][..i] == rows[..i];
        total := total + rows[i].freq;
        i := i + 1;
      }
      assert rows[..|rows|] == rows;
    }

    /** AddWord over a list: each word added once, with rebuilds allowed. */
    method AddWordList(ws: seq<Bytes>, addSub: bool)
      modifies this, slots
      requires Canonical(State()) && (addSub ==> SubwordsInRange(rows))
      requires HashTableSpec.AddWordList(State(), ws, addSub).Some?
      ensures State() == HashTableSpec.AddWordList(old(State()), ws, addSub).value
    {
      ghost var t0 := State();
      var i := 0;
      while i < |ws|
        invariant 0 <= i <= |ws| && HashTableSpec.AddWordList(t0, ws[..i], addSub) == Some(State())
      {
        AddWordListPrefix(t0, ws, addSub, i + 1);
        AddWordListStep(t0, ws, addSub, i, State());
        AddWord(ws[i], 1, true, true, addSub);
        i := i + 1;
      }
      assert ws[..|ws|] == ws;
    }

    /**
     * InitDiscardTable: the sample is recorded, the frequency sum becomes
     * the training-word count, and the cache holds one rate per row unless
     * that sum is not positive.
     */
    method InitDiscardTable(sample: real, rate: RateFormula)
      modifies this
      ensures State() == InitDiscard(old(State()), sample, rate)
    {
      this.sample := sample;
      var total := SumFreqs();
      trainWords := total;
      discard := [];
      if total <= 0 {
        return;
      }
      var d: seq<real> := [];
      var i := 0;
      while i < |rows|
        invariant 0 <= i <= |rows| && |d| == i
        invariant forall k :: 0 <= k < i ==> d[k] == KeepRate(rate, sample, Share(rows, k, total))
      {
        d := d + [KeepRate(rate, sample, Share(rows, i, total))];
        i := i + 1;
      }
      discard := d;
    }

    /** The rate one id is compared with: recomputed for a boosted sample, else read from the cache. */
    method RateOf(id: int, boost: real, rate: RateFormula) returns (thr: real)
      requires (Boosted(boost) ==> trainWords > 0) && Threshold(State(), id, boost, rate).Some?
      ensures Threshold(State(), id, boost, rate) == Some(thr)
    {
      if boost < 0.99 || boost > 1.01 {
        var share := Share(rows, id, trainWords);
        thr := BoostedRate(rate, sample, boost, share);
      } else {
        thr := discard[id];
      }
    }

    /** GetDiscardRate(wordpos, boost): 0 past the cache, 1 for a boosted sample without training words. */
    method GetDiscardRate(pos: nat, boost: real, rate: RateFormula) returns (r: real)
      requires DiscardRate(State(), pos, boost, rate).Some?
      ensures DiscardRate(State(), pos, boost, rate) == Some(r)
    {
      if pos >= |discard| {
        return 0.0;
      }
      if boost < 0.99 || boost > 1.01 {
        if trainWords <= 0 {
          return 1.0;
        }
        r := BoostedRate(rate, sample, boost, Share(rows, pos, trainWords));
      } else {
        r := discard[pos];
      }
    }

    /**
     * RandomDiscard(word_idx_vec): drops each id whose draw exceeds its
     * rate; a boosted sample without training words keeps every id.
     */
    method RandomDiscardIds(ids: seq<int>, draws: seq<real>, boost: real, rate: RateFormula) returns (kept: seq<int>)
      requires |draws| == |ids| && DiscardIds(State(), ids, draws, boost, rate).Some?
      ensures DiscardIds(State(), ids, draws, boost, rate) == Some(kept)
    {
      if (boost < 0.99 || boost > 1.01) && trainWords <= 0 {
        kept := ids;
        return;
      }
      kept := [];
      var i := 0;
      while i < |ids|
        invariant 0 <= i <= |ids| && KeepPassing(State(), ids[..i], draws[..i], boost, rate) == Some(kept)
      {
        KeepPassingPrefix(State(), ids, draws, boost, rate, i + 1);
        KeepPassingStep(State(), ids, draws, boost, rate, i, kept);
        var thr := RateOf(ids[i], boost, rate);
        if !(draws[i] > thr) {
          kept := kept + [ids[i]];
        }
        i := i + 1;
      }
      assert ids[..|ids|] == ids && draws[..|draws|] == draws;
    }

    /**
     * RandomDiscard(words, word_idx_vec): the words are looked up (-1 when
     * absent) and each found entry whose draw exceeds the rate of its row
     * is set to -1 in place.
     */
    method RandomDiscardWords(ws: seq<Bytes>, draws: seq<real>, boost: real, rate: RateFormula) returns (ids: seq<int>)
      requires Canonical(State()) && |draws| == |ws| && DiscardWords(State(), ws, draws, boost, rate).Some?
      ensures DiscardWords(State(), ws, draws, boost, rate) == Some(ids)
    {
      var found := GetWordPosList(ws, true);
      DiscardWordsUnfold(State(), ws, draws, boost, rate, found);
      PositionsFind(State(), ws);
      FindsRowOrMinusOne(State(), ws, found);
      if (boost < 0.99 || boost > 1.01) && trainWords <= 0 {
        ids := found;
        return;
      }
      ids := MarkLoop(found, draws, boost, rate);
    }

    /** The marking loop of RandomDiscard(words): entry `i` is set to -1 in place when its draw exceeds its rate. */
    method MarkLoop(found: seq<int>, draws: seq<real>, boost: real, rate: RateFormula) returns (ids: seq<int>)
      requires |draws| == |found| && (Boosted(boost) ==> trainWords > 0)
      requires forall k :: 0 <= k < |found| ==> found[k] >= -1
      requires MarkRows(State(), found, draws, boost, rate).Some?
      ensures MarkRows(State(), found, draws, boost, rate) == Some(ids)
    {
      ids := found;
      var i := 0;
      while i < |found|
        invariant 0 <= i <= |found| && |ids| == |found| && ids[i..] == found[i..]
        invariant MarkRows(State(), found[..i], draws[..i], boost, rate) == Some(ids[..i])
      {
        MarkRowsPrefix(State(), found, draws, boost, rate, i + 1);
        MarkRowsStep(State(), found, draws, boost, rate, i, ids[..i]);
        assert ids[i] == found[i] by { assert ids[i..][0] == found[i..][0]; }
        var x := ids[i];
        if ids[i] >= 0 {
          var thr := RateOf(ids[i], boost, rate);
          if draws[i] > thr {
            x := -1;
          }
        }
        MarkInPlace(ids, found, i, ids[..i], x);
        ids := ids[i := x];
        i := i + 1;
      }
      assert found[..|found|] == found && draws[..|draws|] == draws && ids[..|ids|] == ids;
    }

    /**
     * CombineWordVec: each item's word is added with its frequency, and the
     * row of an item that had subwords gets a marker so that the next
     * rebuild resolves its subwords.
     */
    method CombineWordVec(items: seq<Item>)
      modifies this, slots
      requires Canonical(State()) && Combine(State(), items).Some?
      ensures State() == Combine(old(State()), items).value
    {
      ghost var t0 := State();
      var i := 0;
      while i < |items|
        invariant 0 <= i <= |items| && Combine(t0, items[..i]) == Some(State())
      {
        CombinePrefix(t0, items, i + 1);
        CombineStep(t0, items, i, State());
        var item := items[i];
        AddWord(item.word, item.freq, true, true, false);
        MarkCombined(item);
        i := i + 1;
      }
      assert items[..|items|] == items;
    }

    /** The marking step of one CombineWordVec item: the row its word is found at gets the subword marker 0. */
    method MarkCombined(item: Item)
      modifies this
      requires Canonical(State()) && MarkItem(State(), item).Some?
      ensures State() == MarkItem(old(State()), item).value
    {
      MarkItemStep(State(), item);
      if |item.subwords| > 0 {
        var pos := GetWordPos(item.word);
        if pos >= 0 {
          ghost var u := State();
          rows := rows[pos := rows[pos].(subwords := rows[pos].subwords + [0])];
          assert State() == MarkSubwords(u, pos);
        }
      }
    }

    /**
     * FilterPhraseFromNgram: every row is judged against the word table
     * `wt`, the rows not discarded are kept in order, and the table is
     * rebuilt without a frequency floor.
     */
    method FilterPhraseFromNgram(wt: HashTable, minFreq: int, threshold: int)
      modifies this, slots
      requires Canonical(State()) && Canonical(wt.State())
      requires FilterPhrase(State(), wt.State(), minFreq, threshold).Some?
      ensures State() == FilterPhrase(old(State()), old(wt.State()), minFreq, threshold).value
    {
      ghost var t := State();
      ghost var w := wt.State();
      var temp := rows;
      var isDiscard := JudgeRows(wt, temp, minFreq, threshold);
      var kept := KeepRows(w, temp, isDiscard, minFreq, threshold);
      SurvivorsReady(t, w, minFreq, threshold);
      rows := kept;
      assert State() == t.(rows := kept);
      Rebuild(-1);
    }
  }

  /** The `is_discard` vector of FilterPhraseFromNgram: one judgement per row against the word table `wt`. */
  method JudgeRows(wt: HashTable, rows: seq<Item>, minFreq: int, threshold: int) returns (isDiscard: seq<bool>)
    requires Canonical(wt.State()) && Survivors(wt.State(), rows, minFreq, threshold).Some?
    ensures |isDiscard| == |rows|
    ensures forall k :: 0 <= k < |rows| ==> Discarded(wt.State(), rows[k], minFreq, threshold) == Some(isDiscard[k])
  {
    isDiscard := [];
    var i := 0;
    while i < |rows|
      invariant 0 <= i <= |rows| && |isDiscard| == i
      invariant forall k :: 0 <= k < i ==> Discarded(wt.State(), rows[k], minFreq, threshold) == Some(isDiscard[k])
    {
      SurvivorsMembers(wt.State(), rows, minFreq, threshold, rows[i]);
      var d := PhraseDiscarded(wt, rows[i], minFreq, threshold);
      isDiscard := isDiscard + [d];
      i := i + 1;
    }
  }

  /** The compacting pass of FilterPhraseFromNgram: the rows not marked for discarding, in order. */
  method KeepRows(ghost wt: Table, rows: seq<Item>, isDiscard: seq<bool>, minFreq: int, threshold: int) returns (kept: seq<Item>)
    requires Canonical(wt) && |isDiscard| == |rows|
    requires forall k :: 0 <= k < |rows| ==> Discarded(wt, rows[k], minFreq, threshold) == Some(isDiscard[k])
    ensures Survivors(wt, rows, minFreq, threshold) == Some(kept)
  {
    kept := [];
    var i := 0;
    while i < |rows|
      invariant 0 <= i <= |rows| && Survivors(wt, rows[..i], minFreq, threshold) == Some(kept)
    {
      SurvivorsStep(wt, rows, minFreq, threshold, i, kept, isDiscard[i]);
      if !isDiscard[i] {
        kept := kept + [rows[i]];
      }
      i := i + 1;
    }
    assert rows[..|rows|] == rows;
  }

  /** The `is_discard` judgement of one row of FilterPhraseFromNgram against the word table `wt`. */
  method PhraseDiscarded(wt: HashTable, x: Item, minFreq: int, threshold: int) returns (d: bool)
    requires Canonical(wt.State()) && Discarded(wt.State(), x, minFreq, threshold).Some?
    ensures Discarded(wt.State(), x, minFreq, threshold) == Some(d)
  {
    var parts := StringSplit(x.word, [UNDERSCORE]);
    if |parts| == 0 {
      d := true;
    } else if |parts| == 1 {
      d := x.freq < minFreq;
    } else {
      assert PartProduct(wt.State(), parts).Some?;
      var prod := PartsProduct(wt, parts);
      var r := Quotient((x.freq - minFreq) as real, Power(wt.trainWords as real, |parts| - 1), prod);
      d := r < threshold as real;
    }
  }

  /** The loop of FilterPhraseFromNgram over the parts of a phrase: the product of their frequencies, each at least 1. */
  method PartsProduct(wt: HashTable, parts: seq<Bytes>) returns (prod: real)
    requires Canonical(wt.State()) && PartProduct(wt.State(), parts).Some?
    ensures PartProduct(wt.State(), parts) == Some(prod)
  {
    prod := 1.0;
    var j := 0;
    while j < |parts|
      invariant 0 <= j <= |parts| && PartProduct(wt.State(), parts[..j]) == Some(prod)
    {
      PartProductPrefix(wt.State(), parts, j + 1);
      PartProductStep(wt.State(), parts, j, prod);
      var f := wt.GetWordFreq(parts[j]);
      prod := Scale(prod, f);
      j := j + 1;
    }
    assert parts[..|parts|] == parts;
  }

  /**
   * The scan of GetSubWordList over "<" + word + ">>": from every start
   * byte that is not a continuation byte, the runs of up to `n` whole
   * characters, skipping the lone markers and the word itself.
   */
  method ScanPieces(word: Bytes, n: nat) returns (ps: seq<Bytes>)
    ensures ps == Pieces(word, n)
  {
    var token := Token(word);
    ps := [];
    var i := 0;
    while i < |token|
      invariant 0 <= i <= |token|
      invariant ps + PiecesFrom(token, word, n, i) == Pieces(word, n)
    {
      var runs := ScanStart(token, word, n, i);
      ScanStep(token, word, n, i, ps, runs);
      ps := ps + runs;
      i := i + 1;
    }
  }

  /** The runs that start at byte `i`: none from a continuation byte. */
  method ScanStart(token: Bytes, word: Bytes, n: nat, i: nat) returns (runs: seq<Bytes>)
    requires i < |token|
    ensures runs == if IsContinuation(token[i]) then [] else InnerPieces(token, word, n, i, i)
  {
    runs := [];
    if !IsContinuation(token[i]) {
      runs := ScanRuns(token, word, n, i);
    }
  }

  /** The inner loop of the scan: the runs that start at byte `i`. */
  method ScanRuns(token: Bytes, word: Bytes, n: nat, i: nat) returns (runs: seq<Bytes>)
    requires i < |token|
    ensures runs == InnerPieces(token, word, n, i, i)
  {
    runs := [];
    var substr: Bytes := [];
    var gram: nat := 1;
    var j := i;
    while j < |token| && gram <= n
      invariant i <= j <= |token|
      invariant substr == token[i..j] && gram == Gram(token, i, j)
      invariant runs + InnerPieces(token, word, n, i, j) == InnerPieces(token, word, n, i, i)
    {
      InnerStep(token, word, n, i, j);
      ghost var before := runs;
      if !IsContinuation(token[j]) && substr != [] {
        gram := gram + 1;
        if j > i + 1 || (0 < i && i < |token| - 2) {
          if substr != word {
            runs := runs + [substr];
          }
        }
      }
      ghost var emitted := if Emits(token, word, i, j) then [token[i..j]] else [];
      assert runs == before + emitted;
      assert before + (emitted + InnerPieces(token, word, n, i, j + 1)) == runs + InnerPieces(token, word, n, i, j + 1);
      substr := substr + [token[j]];
      j := j + 1;
    }
  }
}
