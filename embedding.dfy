/**
 * The coordinator of embedding.cc over its bookkeeping state: the tag and
 * count maps read from the training file, the evaluation examples, and the
 * work LoadTrainVocab, AddVocab, InitModel, LoadEvalExample, EvalCls,
 * EvalPair and Predict(line) do on them. Each method is proved against the
 * functions of EmbeddingSpec.
 */
module Embedding {
  import opened Wrappers
  import opened Bytes
  import opened BasicUtil
  import opened TextUtil
  import opened EmbeddingSpec
  import HS = HashTableSpec
  import HT = HashTable
  import LT = LayerText

  /** The configuration AddVocab reads: minlen, maxlen and ngram. */
  datatype Limits = Limits(minlen: int, maxlen: int, ngram: nat)

  /** The words of a text: GetSegedWordList. */
  function Words(text: Bytes): seq<Bytes>
  {
    NonEmpty(Split(text, SPACE))
  }

  /**
   * AddVocab adds a text that is not blank and, on a cls, skip or pair
   * line, has between minlen and maxlen words.
   */
  predicate Counted(kind: Bytes, text: Bytes, lim: Limits)
  {
    var n := |Words(text)|;
    Trimmed(text) != [] &&
    !((kind == Lit("cls") || kind == Lit("skip") || kind == Lit("pair")) && (n < lim.minlen || n > lim.maxlen))
  }

  /**
   * AddVocab: a counted text adds its words, with their subwords, to the
   * word table and its n-grams to the phrase table, and both counters grow
   * by the number added; any other text changes nothing.
   */
  method AddVocab(kind: Bytes, text: Bytes, lim: Limits, hw: HT.HashTable, hp: HT.HashTable, wordCounter: nat, phraseCounter: nat)
    returns (words: nat, phrases: nat)
    requires hw != hp && hw.slots != hp.slots
    requires HS.Canonical(hw.State()) && HS.SubwordsInRange(hw.rows) && HS.Canonical(hp.State())
    requires Counted(kind, text, lim) ==> HS.AddWordList(hw.State(), Words(text), true).Some?
    requires Counted(kind, text, lim) ==> HS.AddWordList(hp.State(), NgramList(Words(text), lim.ngram), false).Some?
    modifies hw, hw.slots, hp, hp.slots
    ensures Counted(kind, text, lim) ==>
      hw.State() == HS.AddWordList(old(hw.State()), Words(text), true).value &&
      hp.State() == HS.AddWordList(old(hp.State()), NgramList(Words(text), lim.ngram), false).value &&
      words == wordCounter + |Words(text)| && phrases == phraseCounter + |NgramList(Words(text), lim.ngram)|
    ensures !Counted(kind, text, lim) ==>
      hw.State() == old(hw.State()) && hp.State() == old(hp.State()) && words == wordCounter && phrases == phraseCounter
  {
    words, phrases := wordCounter, phraseCounter;
    var t := StringTrim(text);
    if t == [] {
      return;
    }
    var ws := GetSegedWordList(text);
    if (kind == Lit("cls") || kind == Lit("skip") || kind == Lit("pair")) && (|ws| < lim.minlen || |ws| > lim.maxlen) {
      return;
    }
    words := words + |ws|;
    hw.AddWordList(ws, true);
    var ngrams := GetNgramWordList(ws, lim.ngram);
    phrases := phrases + |ngrams|;
    hp.AddWordList(ngrams, false);
  }

  /** The word table and the phrase table are well formed, and every subword of a word is a row. */
  predicate Ready(w: HS.Table, p: HS.Table)
  {
    HS.Canonical(w) && HS.SubwordsInRange(w.rows) && HS.Canonical(p)
  }

  /**
   * The word and phrase tables after one training line: a line whose text
   * is empty, or which AddVocab does not count, leaves them as they are;
   * `None` when a table would run out of room.
   */
  function VocabLine(w: HS.Table, p: HS.Table, line: Bytes, tasks: Tasks, lim: Limits): (r: Option<(HS.Table, HS.Table)>)
    requires Ready(w, p)
    ensures r.Some? ==> Ready(r.value.0, r.value.1)
  {
    var parts := LineFields(line);
    var text := TextOf(Classify(parts, tasks));
    if text == [] || !Counted(parts[0], text, lim) then Some((w, p))
    else
      var w' := HS.AddWordList(w, Words(text), true);
      var p' := HS.AddWordList(p, NgramList(Words(text), lim.ngram), false);
      if w'.Some? && p'.Some? then Some((w'.value, p'.value)) else None
  }

  /** The two tables after the lines of the training file, in order; `None` when a table runs out of room on the way. */
  function VocabPass(w: HS.Table, p: HS.Table, lines: seq<Bytes>, tasks: Tasks, lim: Limits): (r: Option<(HS.Table, HS.Table)>)
    requires Ready(w, p)
    ensures r.Some? ==> Ready(r.value.0, r.value.1)
    decreases |lines|
  {
    if lines == [] then Some((w, p))
    else
      match VocabLine(w, p, lines[0], tasks, lim)
      case None => None
      case Some((w1, p1)) => VocabPass(w1, p1, lines[1..], tasks, lim)
  }

  class Embedding {
    const tasks: Tasks
    var clsTags: map<Bytes, int>
    var clsTagCounts: map<Bytes, nat>
    var pairTags: map<Bytes, int>
    var pairTagCounts: map<Bytes, nat>
    var clsEval: seq<ClsExample>
    var pairEval: seq<PairExample>
    var totalLineNum: nat

    /** The four tag maps as one value. */
    function TagMaps(): Tags
      reads this
    {
      Tags(clsTags, clsTagCounts, pairTags, pairTagCounts)
    }

    constructor (tasks: Tasks)
      ensures this.tasks == tasks && TagMaps() == NoTags
      ensures clsEval == [] && pairEval == [] && totalLineNum == 0
    {
      this.tasks := tasks;
      clsTags, clsTagCounts, pairTags, pairTagCounts := map[], map[], map[], map[];
      clsEval, pairEval := [], [];
      totalLineNum := 0;
    }

    /**
     * One line of LoadTrainVocab: its fields, its kind, and the tag maps
     * it updates, each cls line counted once under its key.
     */
    method CountLine(line: Bytes) returns (l: Line, parts: seq<Bytes>)
      modifies this
      ensures parts == LineFields(line) && l == Classify(parts, tasks)
      ensures TagMaps() == TagLine(old(TagMaps()), l)
      ensures clsEval == old(clsEval) && pairEval == old(pairEval) && totalLineNum == old(totalLineNum)
    {
      parts := ReadFields(line);
      l := Ignored;
      if |parts| == 2 && parts[0] == Lit("skip") && tasks.useSkip {
        l := SkipLine(parts[1]);
      } else if |parts| == 5 && parts[0] == Lit("pair") && tasks.usePair {
        l := PairLine(parts[1], parts[2], parts[3] + Lit(" . ") + parts[4]);
        CountPair(parts[1], parts[2]);
      } else if |parts| == 4 && parts[0] == Lit("cls") && tasks.useCls {
        var target := ParseInt(parts[2]);
        if target >= 0 {
          l := ClsLine(parts[1], target, parts[3]);
          CountCls(parts[1], target);
        }
      }
    }

    /** The pair branch: the tag is recorded and its key counted. */
    method CountPair(tag: Bytes, labelText: Bytes)
      modifies this
      ensures TagMaps() == TagLine(old(TagMaps()), PairLine(tag, labelText, []))
      ensures clsEval == old(clsEval) && pairEval == old(pairEval) && totalLineNum == old(totalLineNum)
    {
      pairTags := pairTags[tag := 1];
      var key := tag + [TAB] + labelText;
      if key !in pairTagCounts {
        pairTagCounts := pairTagCounts[key := 1];
      } else {
        pairTagCounts := pairTagCounts[key := pairTagCounts[key] + 1];
      }
    }

    /** The cls branch, its key counted once: the largest label of the tag is kept. */
    method CountCls(tag: Bytes, target: int)
      requires target >= 0
      modifies this
      ensures TagMaps() == TagLine(old(TagMaps()), ClsLine(tag, target, []))
      ensures clsEval == old(clsEval) && pairEval == old(pairEval) && totalLineNum == old(totalLineNum)
    {
      if tag !in clsTags {
        clsTags := clsTags[tag := target];
      } else {
        clsTags := clsTags[tag := if target >= clsTags[tag] then target else clsTags[tag]];
      }
      var key := tag + [TAB] + IntToString(target);
      if key !in clsTagCounts {
        clsTagCounts := clsTagCounts[key := 1];
      } else {
        clsTagCounts := clsTagCounts[key := clsTagCounts[key] + 1];
      }
    }

    /**
     * LoadTrainVocab: every line is classified and fills the tag maps, and
     * the number of lines is recorded; unless `onlyCount`, the text of each
     * line also goes through AddVocab into the word and phrase tables.
     */
    method LoadTrainVocab(lines: seq<Bytes>, onlyCount: bool, lim: Limits, hw: HT.HashTable, hp: HT.HashTable) returns (kinds: seq<Line>)
      requires hw != hp && hw.slots != hp.slots
      requires HS.Canonical(hw.State()) && HS.SubwordsInRange(hw.rows) && HS.Canonical(hp.State())
      requires !onlyCount ==> VocabPass(hw.State(), hp.State(), lines, tasks, lim).Some?
      modifies this, hw, hw.slots, hp, hp.slots
      ensures kinds == Kinds(lines, tasks) && TagMaps() == Tally(old(TagMaps()), kinds)
      ensures totalLineNum == |lines| && clsEval == old(clsEval) && pairEval == old(pairEval)
      ensures onlyCount ==> hw.State() == old(hw.State()) && hp.State() == old(hp.State())
      ensures !onlyCount ==> (hw.State(), hp.State()) == VocabPass(old(hw.State()), old(hp.State()), lines, tasks, lim).value
    {
      ghost var t0, w0, p0 := TagMaps(), hw.State(), hp.State();
      kinds := [];
      var i := 0;
      while i < |lines|
        invariant 0 <= i <= |lines| && kinds == Kinds(lines[..i], tasks)
        invariant TagMaps() == Tally(t0, kinds)
        invariant clsEval == old(clsEval) && pairEval == old(pairEval)
        invariant onlyCount ==> hw.State() == w0 && hp.State() == p0
        invariant Ready(hw.State(), hp.State())
        invariant !onlyCount ==> VocabPass(hw.State(), hp.State(), lines[i..], tasks, lim) == VocabPass(w0, p0, lines, tasks, lim)
      {
        var l := TrainStep(lines, i, onlyCount, lim, hw, hp, t0, w0, p0, kinds);
        kinds := kinds + [l];
        i := i + 1;
      }
      assert lines[..i] == lines && lines[i..] == [];
      totalLineNum := |lines|;
    }

    /** The pass of LoadTrainVocab over line `i`, its invariants carried to the next line. */
    method TrainStep(lines: seq<Bytes>, i: nat, onlyCount: bool, lim: Limits, hw: HT.HashTable, hp: HT.HashTable,
                     ghost t0: Tags, ghost w0: HS.Table, ghost p0: HS.Table, ghost kinds: seq<Line>) returns (l: Line)
      requires i < |lines| && hw != hp && hw.slots != hp.slots && Ready(hw.State(), hp.State()) && Ready(w0, p0)
      requires kinds == Kinds(lines[..i], tasks) && TagMaps() == Tally(t0, kinds)
      requires onlyCount ==> hw.State() == w0 && hp.State() == p0
      requires !onlyCount ==> VocabPass(w0, p0, lines, tasks, lim).Some?
      requires !onlyCount ==> VocabPass(hw.State(), hp.State(), lines[i..], tasks, lim) == VocabPass(w0, p0, lines, tasks, lim)
      modifies this, hw, hw.slots, hp, hp.slots
      ensures kinds + [l] == Kinds(lines[..i + 1], tasks) && TagMaps() == Tally(t0, kinds + [l])
      ensures clsEval == old(clsEval) && pairEval == old(pairEval) && totalLineNum == old(totalLineNum)
      ensures Ready(hw.State(), hp.State())
      ensures onlyCount ==> hw.State() == w0 && hp.State() == p0
      ensures !onlyCount ==> VocabPass(hw.State(), hp.State(), lines[i + 1..], tasks, lim) == VocabPass(w0, p0, lines, tasks, lim)
    {
      KindsStep(lines, tasks, i);
      TallyStep(t0, kinds, Classify(LineFields(lines[i]), tasks));
      assert lines[i..][0] == lines[i] && lines[i..][1..] == lines[i + 1..];
      l := TrainLine(lines[i], onlyCount, lim, hw, hp);
    }

    /** One line of LoadTrainVocab: CountLine, then AddVocab on a non-empty text unless `onlyCount`. */
    method TrainLine(line: Bytes, onlyCount: bool, lim: Limits, hw: HT.HashTable, hp: HT.HashTable) returns (l: Line)
      requires hw != hp && hw.slots != hp.slots
      requires HS.Canonical(hw.State()) && HS.SubwordsInRange(hw.rows) && HS.Canonical(hp.State())
      requires !onlyCount ==> VocabLine(hw.State(), hp.State(), line, tasks, lim).Some?
      modifies this, hw, hw.slots, hp, hp.slots
      ensures l == Classify(LineFields(line), tasks) && TagMaps() == TagLine(old(TagMaps()), l)
      ensures clsEval == old(clsEval) && pairEval == old(pairEval) && totalLineNum == old(totalLineNum)
      ensures onlyCount ==> hw.State() == old(hw.State()) && hp.State() == old(hp.State())
      ensures !onlyCount ==> Some((hw.State(), hp.State())) == VocabLine(old(hw.State()), old(hp.State()), line, tasks, lim)
    {
      var parts;
      l, parts := CountLine(line);
      var text := TextOf(l);
      if text == [] || onlyCount {
        return;
      }
      var _, _ := AddVocab(parts[0], text, lim, hw, hp, 0, 0);
    }

    /**
     * InitModel: the class count of the skip model (one per row of the word
     * table `hw`), of every cls model (largest label plus one) and of every
     * pair model (2), or the failure of the model constructor on a count
     * below 2, the skip model's first.
     */
    method InitModel(hw: HT.HashTable) returns (r: Result<Models>)
      ensures r == EmbeddingSpec.InitModel(TagMaps(), |hw.rows|)
    {
      var words := |hw.rows|;
      if words <= 1 {
        return Err("cls_number must be > 1");
      }
      var cls := ClsClassCounts();
      if cls.None? {
        return Err("cls_number must be > 1");
      }
      var pair := PairClassCounts();
      r := Ok(Models(words, cls.value, pair));
    }

    /** The loop over the cls tags: largest label plus one each, or `None` at a tag whose count would be 1. */
    method ClsClassCounts() returns (r: Option<map<Bytes, int>>)
      ensures r.None? <==> exists tag :: tag in clsTags && clsTags[tag] < 1
      ensures r.Some? ==> r.value == map tag | tag in clsTags :: clsTags[tag] + 1
    {
      var cls: map<Bytes, int> := map[];
      var todo := clsTags.Keys;
      while todo != {}
        invariant todo <= clsTags.Keys && cls.Keys == clsTags.Keys - todo
        invariant forall tag :: tag in cls ==> cls[tag] == clsTags[tag] + 1 && clsTags[tag] >= 1
        decreases |todo|
      {
        var tag :| tag in todo;
        if clsTags[tag] + 1 <= 1 {
          return None;
        }
        cls := cls[tag := clsTags[tag] + 1];
        todo := todo - {tag};
      }
      return Some(cls);
    }

    /** The loop over the pair tags: 2 classes each. */
    method PairClassCounts() returns (r: map<Bytes, int>)
      ensures r == map tag | tag in pairTags :: 2
    {
      r := map[];
      var todo := pairTags.Keys;
      while todo != {}
        invariant todo <= pairTags.Keys && r.Keys == pairTags.Keys - todo
        invariant forall tag :: tag in r ==> r[tag] == 2
        decreases |todo|
      {
        var tag :| tag in todo;
        r := r[tag := 2];
        todo := todo - {tag};
      }
    }

    /**
     * LoadEvalExample: nothing when neither cls nor pair is in use;
     * otherwise the cls examples are replaced by those of the file and its
     * pair examples are appended to the ones already held.
     */
    method LoadEvalExample(lines: seq<Bytes>, resolve: Bytes -> seq<int>)
      modifies this
      ensures !tasks.useCls && !tasks.usePair ==> clsEval == old(clsEval) && pairEval == old(pairEval)
      ensures tasks.useCls || tasks.usePair ==>
        clsEval == ClsExamples(EvalLines(lines, resolve)) && pairEval == old(pairEval) + PairExamples(EvalLines(lines, resolve))
      ensures TagMaps() == old(TagMaps()) && totalLineNum == old(totalLineNum)
    {
      if !tasks.useCls && !tasks.usePair {
        return;
      }
      var es := ReadEvalLines(lines, resolve);
      StoreExamples(es);
    }

    /** The examples of the file kept: the cls ones replace those held, the pair ones are appended. */
    method StoreExamples(es: seq<EvalLine>)
      modifies this
      ensures clsEval == ClsExamples(es) && pairEval == old(pairEval) + PairExamples(es)
      ensures TagMaps() == old(TagMaps()) && totalLineNum == old(totalLineNum)
    {
      clsEval := [];
      var i := 0;
      while i < |es|
        invariant 0 <= i <= |es|
        invariant clsEval == ClsExamples(es[..i]) && pairEval == old(pairEval) + PairExamples(es[..i])
        invariant TagMaps() == old(TagMaps()) && totalLineNum == old(totalLineNum)
      {
        assert es[..i + 1][..i] == es[..i];
        if es[i].ClsEval? {
          clsEval := clsEval + [es[i].cls];
        } else if es[i].PairEval? {
          pairEval := pairEval + [es[i].pair];
        }
        i := i + 1;
      }
      assert es[..i] == es;
    }

    /** EvalCls: the (wrong, right) counts per tag of the cls examples under the given predictions. */
    method EvalCls(preds: seq<int>) returns (result: map<Bytes, (nat, nat)>)
      requires |preds| == |clsEval|
      ensures result == Score(ClsOutcomes(clsEval, preds))
    {
      ghost var os := ClsOutcomes(clsEval, preds);
      result := map[];
      var i := 0;
      while i < |clsEval|
        invariant 0 <= i <= |clsEval| && result == Score(os[..i])
      {
        ScoreStep(os, i);
        result := JudgeCls(result, clsEval[i].key, preds[i]);
        i := i + 1;
      }
      assert os[..i] == os;
    }

    /** EvalPair: the same for the pair examples, predicting 1 when the score exceeds 0.5. */
    method EvalPair(scores: seq<real>) returns (result: map<Bytes, (nat, nat)>)
      requires |scores| == |pairEval|
      ensures result == Score(PairOutcomes(pairEval, scores))
    {
      ghost var os := PairOutcomes(pairEval, scores);
      result := map[];
      var i := 0;
      while i < |pairEval|
        invariant 0 <= i <= |pairEval| && result == Score(os[..i])
      {
        ScoreStep(os, i);
        result := JudgePair(result, pairEval[i].key, scores[i]);
        i := i + 1;
      }
      assert os[..i] == os;
    }

    /**
     * Predict(line, res): a cls line of four fields gets the predicted
     * label and score (or keeps its label and gets "-1"), a pair line of
     * five gets its score (or "-1") in the label field; both are written
     * back with a tab after every field and trimmed. Any other line comes
     * back unchanged. `cls` and `pair` stand for what the models predict
     * when the texts resolve to ids.
     */
    method Predict(line: Bytes, cls: Option<(int, Bytes)>, pair: Option<Bytes>) returns (res: Bytes)
      ensures res == PredictLine(line, cls, pair)
    {
      res := line;
      var parts := StringSplit(line, [TAB]);
      if |parts| == 4 && parts[0] == Lit("cls") {
        ghost var fields := parts;
        if cls.Some? {
          parts := parts[2 := IntToString(cls.value.0)];
          parts := parts + [parts[3]];
          parts := parts[3 := cls.value.1];
        }
        if |parts| == 4 {
          parts := parts + [parts[3]];
          parts := parts[3 := IntToString(-1)];
        }
        assert parts == PredictedCls(fields, cls);
        res := JoinFields(parts);
        res := StringTrim(res);
      }
      if |parts| == 5 && parts[0] == Lit("pair") {
        ghost var fields := parts;
        parts := parts[2 := IntToString(-1)];
        if pair.Some? {
          parts := parts[2 := pair.value];
        }
        assert parts == PredictedPair(fields, pair);
        res := JoinFields(parts);
        res := StringTrim(res);
      }
    }
  }

  /** The fields of a line: trimmed, lower-cased, split at tabs, each field trimmed. */
  method ReadFields(line: Bytes) returns (parts: seq<Bytes>)
    ensures parts == LineFields(line)
  {
    var t := StringTrim(line);
    var low := StringToLower(t);
    var fields := StringSplit(low, [TAB]);
    parts := TrimVector(fields);
  }

  /** One line of LoadEvalExample. */
  method ReadEvalLine(line: Bytes, resolve: Bytes -> seq<int>) returns (e: EvalLine)
    ensures e == EvalExample(LineFields(line), resolve)
  {
    var parts := ReadFields(line);
    if |parts| == 4 && parts[0] == Lit("cls") {
      e := ReadClsExample(parts, resolve);
    } else if |parts| == 5 && parts[0] == Lit("pair") {
      e := ReadPairExample(parts, resolve);
    } else {
      e := NoEval;
    }
  }

  /** The lines of the evaluation file read one by one. */
  method ReadEvalLines(lines: seq<Bytes>, resolve: Bytes -> seq<int>) returns (es: seq<EvalLine>)
    ensures es == EvalLines(lines, resolve)
  {
    es := [];
    var i := 0;
    while i < |lines|
      invariant 0 <= i <= |lines| && es == EvalLines(lines[..i], resolve)
    {
      var e := ReadEvalLine(lines[i], resolve);
      EvalLinesAppend(lines, resolve, i, e);
      es := es + [e];
      i := i + 1;
    }
    assert lines[..i] == lines;
  }

  /** The cls branch of LoadEvalExample: an example when the label is non-negative and the text resolves to ids. */
  method ReadClsExample(parts: seq<Bytes>, resolve: Bytes -> seq<int>) returns (e: EvalLine)
    requires |parts| == 4 && parts[0] == Lit("cls")
    ensures e == EvalExample(parts, resolve)
  {
    e := NoEval;
    var target := ParseInt(parts[2]);
    if target < 0 {
      return;
    }
    var ids := resolve(parts[3]);
    if |ids| > 0 {
      e := ClsEval(ClsExample(ids, parts[1] + [TAB] + IntToString(target)));
    }
  }

  /** The pair branch, its sides read from fields 3 and 4: an example when both resolve to ids. */
  method ReadPairExample(parts: seq<Bytes>, resolve: Bytes -> seq<int>) returns (e: EvalLine)
    requires |parts| == 5 && parts[0] == Lit("pair")
    ensures e == EvalExample(parts, resolve)
  {
    e := NoEval;
    var tag := StringTrim(parts[1]);
    var target := ParseInt(parts[2]);
    if target < 0 {
      return;
    }
    var text1 := StringTrim(parts[3]);
    var ids1 := resolve(text1);
    var text2 := StringTrim(parts[4]);
    var ids2 := resolve(text2);
    if |ids1| > 0 && |ids2| > 0 {
      e := PairEval(PairExample(ids1, ids2, tag + [TAB] + IntToString(target)));
    }
  }

  /** One step of EvalCls: a key that parses and a non-negative prediction are judged. */
  method JudgeCls(m: map<Bytes, (nat, nat)>, key: Bytes, pre: int) returns (r: map<Bytes, (nat, nat)>)
    ensures r == Next(m, ClsOutcome(key, pre))
  {
    r := m;
    var parts := StringSplit(key, [TAB]);
    if |parts| == 2 && ParseInt(parts[1]) >= 0 {
      var target := ParseInt(parts[1]);
      assert EvalKey(key) == Some((parts[0], target));
      if pre >= 0 {
        r := Judge(m, parts[0], pre == target);
      }
    }
  }

  /** One step of EvalPair: a key that parses is judged, the prediction 1 when the score exceeds 0.5. */
  method JudgePair(m: map<Bytes, (nat, nat)>, key: Bytes, score: real) returns (r: map<Bytes, (nat, nat)>)
    ensures r == Next(m, PairOutcome(key, score))
  {
    r := m;
    var parts := StringSplit(key, [TAB]);
    if |parts| == 2 && ParseInt(parts[1]) >= 0 {
      var target := ParseInt(parts[1]);
      assert EvalKey(key) == Some((parts[0], target));
      var pre := if score > 0.5 then 1 else 0;
      r := Judge(m, parts[0], pre == target);
    }
  }

  /** One judged example: its tag starts from (0, 0) when new, then its wrong or its right count grows by one. */
  method Judge(m: map<Bytes, (nat, nat)>, tag: Bytes, right: bool) returns (r: map<Bytes, (nat, nat)>)
    ensures r == Next(m, Judged(tag, right))
  {
    if tag !in m {
      var p: (nat, nat) := (0, 0);
      p := (p.0 + (if right then 0 else 1), p.1 + (if right then 1 else 0));
      r := m[tag := p];
    } else {
      r := m[tag := (m[tag].0 + (if right then 0 else 1), m[tag].1 + (if right then 1 else 0))];
    }
  }

  /** The loop `res += parts[i] + "\t"`. */
  method JoinFields(parts: seq<Bytes>) returns (res: Bytes)
    ensures res == LT.TabAfter(parts)
  {
    res := [];
    var i := 0;
    while i < |parts|
      invariant 0 <= i <= |parts| && res == LT.TabAfter(parts[..i])
    {
      assert parts[..i + 1][..i] == parts[..i];
      res := res + parts[i] + [TAB];
      i := i + 1;
    }
    assert parts[..i] == parts;
  }
}
