/**
 * The bookkeeping of embedding.cc that stays clear of the matrices: how a
 * line of the training or evaluation file is read, the tag and count maps
 * LoadTrainVocab fills, the class counts InitModel derives from them, the
 * evaluation examples and their (wrong, right) tallies, and the rewriting
 * of a line by Predict.
 */
module EmbeddingSpec {
  import opened Wrappers
  import opened Bytes
  import opened BasicUtil
  import opened TextUtil
  import LT = LayerText
  import S = HashTableStore

  // ---------------------------------------------------------------------
  // Reading a line

  /** The three task switches of the configuration: useskipgram, usepair, usecls. */
  datatype Tasks = Tasks(useSkip: bool, usePair: bool, useCls: bool)

  /** The fields of a line as the loaders read it: trimmed, lower-cased, cut at tabs, each field trimmed. */
  function LineFields(line: Bytes): (parts: seq<Bytes>)
    ensures |parts| == |Split(Lowered(Trimmed(line)), TAB)|
  {
    TrimmedAll(Split(Lowered(Trimmed(line)), TAB))
  }

  /** What LoadTrainVocab makes of a training line. */
  datatype Line =
    | SkipLine(text: Bytes)
    | PairLine(tag: Bytes, labelText: Bytes, text: Bytes)
    | ClsLine(tag: Bytes, target: int, text: Bytes)
    | Ignored

  /**
   * The classification of a training line: `skip` with two fields, `pair`
   * with five (its text is the two sides joined by " . "), `cls` with four
   * and a label `atoi` reads as non-negative, each only when its task is
   * switched on. A cls line with a negative label is skipped whole.
   */
  function Classify(parts: seq<Bytes>, tasks: Tasks): (l: Line)
    ensures l.SkipLine? ==> tasks.useSkip && |parts| == 2 && l.text == parts[1]
    ensures l.PairLine? ==> tasks.usePair && |parts| == 5 && l.tag == parts[1] && l.labelText == parts[2] && |l.text| == |parts[3]| + 3 + |parts[4]|
    ensures l.ClsLine? ==> tasks.useCls && |parts| == 4 && l.tag == parts[1] && l.target == ParseInt(parts[2]) >= 0 && l.text == parts[3]
    ensures l.Ignored? <==> (
      !(tasks.useSkip && |parts| == 2 && parts[0] == Lit("skip")) &&
      !(tasks.usePair && |parts| == 5 && parts[0] == Lit("pair")) &&
      !(tasks.useCls && |parts| == 4 && parts[0] == Lit("cls") && ParseInt(parts[2]) >= 0))
  {
    if |parts| == 2 && parts[0] == Lit("skip") && tasks.useSkip then SkipLine(parts[1])
    else if |parts| == 5 && parts[0] == Lit("pair") && tasks.usePair then
      PairLine(parts[1], parts[2], parts[3] + Lit(" . ") + parts[4])
    else if |parts| == 4 && parts[0] == Lit("cls") && tasks.useCls && ParseInt(parts[2]) >= 0 then
      ClsLine(parts[1], ParseInt(parts[2]), parts[3])
    else Ignored
  }

  /** The text AddVocab is given, empty for a line that adds nothing. */
  function TextOf(l: Line): Bytes
  {
    if l.Ignored? then [] else l.text
  }

  // ---------------------------------------------------------------------
  // The tag maps

  /** `cls_tag_map_`, `cls_tag_count_map_`, `pair_tag_map_` and `pair_tag_count_map_`. */
  datatype Tags = Tags(cls: map<Bytes, int>, clsCount: map<Bytes, nat>, pair: map<Bytes, int>, pairCount: map<Bytes, nat>)

  const NoTags: Tags := Tags(map[], map[], map[], map[])

  /** The count key `tag + "\t" + label`. */
  function Key(tag: Bytes, labelText: Bytes): (k: Bytes)
    ensures |k| == |tag| + 1 + |labelText| && k[|tag|] == TAB
  {
    tag + [TAB] + labelText
  }

  /** A count, absent keys counting zero. */
  function Count(m: map<Bytes, nat>, k: Bytes): nat
  {
    if k in m then m[k] else 0
  }

  /** One more for `k`: seeded with 1 when absent, incremented otherwise. */
  function Bump(m: map<Bytes, nat>, k: Bytes): (r: map<Bytes, nat>)
    ensures r.Keys == m.Keys + {k}
    ensures Count(r, k) == Count(m, k) + 1
    ensures forall j :: j != k ==> Count(r, j) == Count(m, j)
  {
    m[k := Count(m, k) + 1]
  }

  /** The larger of the recorded label and `target`, or `target` for a new tag. */
  function Raise(m: map<Bytes, int>, tag: Bytes, target: int): (r: map<Bytes, int>)
    ensures r.Keys == m.Keys + {tag}
    ensures r[tag] == (if tag in m && m[tag] > target then m[tag] else target)
    ensures forall t :: t in m && t != tag ==> r[t] == m[t]
  {
    if tag in m then m[tag := if target >= m[tag] then target else m[tag]] else m[tag := target]
  }

  /** The count key of a cls line: its tag and its label as `to_string` writes it. */
  function ClsKey(l: Line): Bytes
    requires l.ClsLine?
  {
    Key(l.tag, IntToString(l.target))
  }

  /** The maps after one line, every cls line counted once under its key. */
  function TagLine(t: Tags, l: Line): (u: Tags)
  {
    match l
    case PairLine(tag, labelText, _) => Tags(t.cls, t.clsCount, t.pair[tag := 1], Bump(t.pairCount, Key(tag, labelText)))
    case ClsLine(tag, target, _) => Tags(Raise(t.cls, tag, target), Bump(t.clsCount, ClsKey(l)), t.pair, t.pairCount)
    case _ => t
  }

  /**
   * The maps after one line as embedding.cc:90-101 writes the cls branch: a
   * tag seen for the first time seeds its key with 1, and the key is then
   * incremented once more.
   */
  function TagLineAsWritten(t: Tags, l: Line): (u: Tags)
  {
    match l
    case ClsLine(tag, target, _) =>
      var seeded := if tag in t.cls then t.clsCount else t.clsCount[ClsKey(l) := 1];
      Tags(Raise(t.cls, tag, target), Bump(seeded, ClsKey(l)), t.pair, t.pairCount)
    case _ => TagLine(t, l)
  }

  /** The maps after a sequence of lines. */
  function Tally(t: Tags, ls: seq<Line>): Tags
  {
    if ls == [] then t else TagLine(Tally(t, ls[..|ls| - 1]), ls[|ls| - 1])
  }

  /** The same with the cls branch as written. */
  function TallyAsWritten(t: Tags, ls: seq<Line>): Tags
  {
    if ls == [] then t else TagLineAsWritten(TallyAsWritten(t, ls[..|ls| - 1]), ls[|ls| - 1])
  }

  // Reference counts, line by line.

  /** The number of cls lines whose key is `k`. */
  function ClsKeyLines(ls: seq<Line>, k: Bytes): nat
  {
    if ls == [] then 0
    else
      var l := ls[|ls| - 1];
      ClsKeyLines(ls[..|ls| - 1], k) + (if l.ClsLine? && ClsKey(l) == k then 1 else 0)
  }

  /** The number of pair lines whose key is `k`. */
  function PairKeyLines(ls: seq<Line>, k: Bytes): nat
  {
    if ls == [] then 0
    else
      var l := ls[|ls| - 1];
      PairKeyLines(ls[..|ls| - 1], k) + (if l.PairLine? && Key(l.tag, l.labelText) == k then 1 else 0)
  }

  /** The number of pair lines of tag `tag`. */
  function PairTagLines(ls: seq<Line>, tag: Bytes): nat
  {
    if ls == [] then 0
    else PairTagLines(ls[..|ls| - 1], tag) + (if ls[|ls| - 1].PairLine? && ls[|ls| - 1].tag == tag then 1 else 0)
  }

  /** The labels of the cls lines of tag `tag`, in order. */
  function ClsLabels(ls: seq<Line>, tag: Bytes): seq<int>
  {
    if ls == [] then []
    else
      var l := ls[|ls| - 1];
      ClsLabels(ls[..|ls| - 1], tag) + (if l.ClsLine? && l.tag == tag then [l.target] else [])
  }

  /** Every cls key counts its lines, and pair keys likewise; a key is present exactly when it has a line. */
  lemma {:induction false} TallyCounts(ls: seq<Line>, k: Bytes)
    ensures Count(Tally(NoTags, ls).clsCount, k) == ClsKeyLines(ls, k)
    ensures k in Tally(NoTags, ls).clsCount <==> ClsKeyLines(ls, k) > 0
    ensures Count(Tally(NoTags, ls).pairCount, k) == PairKeyLines(ls, k)
    ensures k in Tally(NoTags, ls).pairCount <==> PairKeyLines(ls, k) > 0
  {
    if ls != [] {
      TallyCounts(ls[..|ls| - 1], k);
    }
  }

  /** A cls tag is recorded exactly when it has a line, with the largest label among its lines. */
  lemma {:induction false} TallyClsMax(ls: seq<Line>, tag: Bytes)
    ensures tag in Tally(NoTags, ls).cls <==> ClsLabels(ls, tag) != []
    ensures tag in Tally(NoTags, ls).cls ==> Tally(NoTags, ls).cls[tag] in ClsLabels(ls, tag)
    ensures tag in Tally(NoTags, ls).cls ==> forall x :: x in ClsLabels(ls, tag) ==> x <= Tally(NoTags, ls).cls[tag]
  {
    if ls != [] {
      TallyClsMax(ls[..|ls| - 1], tag);
    }
  }

  /** A pair tag is recorded, always as 1, exactly when it has a line. */
  lemma {:induction false} TallyPairTags(ls: seq<Line>, tag: Bytes)
    ensures tag in Tally(NoTags, ls).pair <==> PairTagLines(ls, tag) > 0
    ensures tag in Tally(NoTags, ls).pair ==> Tally(NoTags, ls).pair[tag] == 1
  {
    if ls != [] {
      TallyPairTags(ls[..|ls| - 1], tag);
    }
  }

  /** No cls line has a tab in its tag, as holds for tags cut from a line at its tabs. */
  predicate TabFreeTags(ls: seq<Line>)
  {
    forall i :: 0 <= i < |ls| && ls[i].ClsLine? ==> TAB !in ls[i].tag
  }

  /** A cls key is only ever recorded together with its tag. */
  lemma TallyKeysHaveTags(ls: seq<Line>, tag: Bytes, target: int)
    requires TabFreeTags(ls) && TAB !in tag
    requires Key(tag, IntToString(target)) in Tally(NoTags, ls).clsCount
    ensures tag in Tally(NoTags, ls).cls
  {
    TallyCounts(ls, Key(tag, IntToString(target)));
    ClsKeyHasLabel(ls, tag, target);
    TallyClsMax(ls, tag);
  }

  /** A line under the key of (tag, label) is a line of that tag. */
  lemma {:induction false} ClsKeyHasLabel(ls: seq<Line>, tag: Bytes, target: int)
    requires TabFreeTags(ls) && TAB !in tag
    requires ClsKeyLines(ls, Key(tag, IntToString(target))) > 0
    ensures ClsLabels(ls, tag) != []
  {
    var init := ls[..|ls| - 1];
    var l := ls[|ls| - 1];
    if ClsKeyLines(init, Key(tag, IntToString(target))) > 0 {
      assert TabFreeTags(init) by {
        forall i | 0 <= i < |init| && init[i].ClsLine? ensures TAB !in init[i].tag {
          assert init[i] == ls[i];
        }
      }
      ClsKeyHasLabel(init, tag, target);
    } else {
      assert l.ClsLine? && Key(l.tag, IntToString(l.target)) == Key(tag, IntToString(target));
      KeyTag(l.tag, IntToString(l.target), tag, IntToString(target));
    }
  }

  /** Two keys agree only when their tags agree, for tags without a tab. */
  lemma KeyTag(t1: Bytes, l1: Bytes, t2: Bytes, l2: Bytes)
    requires TAB !in t1 && TAB !in t2 && Key(t1, l1) == Key(t2, l2)
    ensures t1 == t2
  {
    var k := Key(t1, l1);
    if |t1| != |t2| {
      assert false;
    }
    assert t1 == k[..|t1|];
  }

  /** The kinds of the lines of a training file. */
  function Kinds(lines: seq<Bytes>, tasks: Tasks): (ls: seq<Line>)
    ensures |ls| == |lines| && forall i :: 0 <= i < |lines| ==> ls[i] == Classify(LineFields(lines[i]), tasks)
  {
    seq(|lines|, i requires 0 <= i < |lines| => Classify(LineFields(lines[i]), tasks))
  }

  lemma KindsStep(lines: seq<Bytes>, tasks: Tasks, i: nat)
    requires i < |lines|
    ensures Kinds(lines[..i + 1], tasks) == Kinds(lines[..i], tasks) + [Classify(LineFields(lines[i]), tasks)]
  {
  }

  lemma TallyStep(t: Tags, ls: seq<Line>, l: Line)
    ensures Tally(t, ls + [l]) == TagLine(Tally(t, ls), l)
  {
    assert (ls + [l])[..|ls|] == ls;
  }

  /** The lines of a file have tags without tabs, so the keys of different tags never meet. */
  lemma KindsTabFree(lines: seq<Bytes>, tasks: Tasks)
    ensures TabFreeTags(Kinds(lines, tasks))
  {
    var ls := Kinds(lines, tasks);
    forall i | 0 <= i < |ls| && ls[i].ClsLine? ensures TAB !in ls[i].tag {
      FieldsPlain(lines[i]);
    }
  }

  // ---------------------------------------------------------------------
  // The count maps as written

  /** The cls lines that are the first of their tag and carry the key `k`. */
  function FirstKeyLines(ls: seq<Line>, k: Bytes): nat
  {
    if ls == [] then 0
    else
      var init, l := ls[..|ls| - 1], ls[|ls| - 1];
      FirstKeyLines(init, k) + (if l.ClsLine? && ClsKey(l) == k && ClsLabels(init, l.tag) == [] then 1 else 0)
  }

  lemma {:induction false} FirstKeyLinesBelow(ls: seq<Line>, k: Bytes)
    ensures FirstKeyLines(ls, k) <= ClsKeyLines(ls, k)
  {
    if ls != [] {
      FirstKeyLinesBelow(ls[..|ls| - 1], k);
    }
  }

  /** The as-written branch changes the cls counts only: the other three maps agree. */
  lemma {:induction false} TallyAsWrittenMaps(ls: seq<Line>)
    ensures TallyAsWritten(NoTags, ls).cls == Tally(NoTags, ls).cls
    ensures TallyAsWritten(NoTags, ls).pair == Tally(NoTags, ls).pair
    ensures TallyAsWritten(NoTags, ls).pairCount == Tally(NoTags, ls).pairCount
  {
    if ls != [] {
      TallyAsWrittenMaps(ls[..|ls| - 1]);
    }
  }

  /**
   * As written, a key counts its lines plus one for every line that
   * introduced its tag: the first line of each tag is counted twice.
   */
  lemma {:induction false} ClsCountsAsWritten(ls: seq<Line>, k: Bytes)
    requires TabFreeTags(ls)
    ensures Count(TallyAsWritten(NoTags, ls).clsCount, k) == ClsKeyLines(ls, k) + FirstKeyLines(ls, k)
  {
    if ls != [] {
      var init, l := ls[..|ls| - 1], ls[|ls| - 1];
      assert TabFreeTags(init) by {
        forall i | 0 <= i < |init| && init[i].ClsLine? ensures TAB !in init[i].tag {
          assert init[i] == ls[i];
        }
      }
      ClsCountsAsWritten(init, k);
      TallyAsWrittenMaps(init);
      if l.ClsLine? && l.tag !in Tally(NoTags, init).cls && ClsKey(l) == k {
        TallyClsMax(init, l.tag);
        if ClsKeyLines(init, k) > 0 {
          ClsKeyHasLabel(init, l.tag, l.target);
        }
        FirstKeyLinesBelow(init, k);
      } else if l.ClsLine? && l.tag in Tally(NoTags, init).cls {
        TallyClsMax(init, l.tag);
      } else if l.ClsLine? {
        TallyClsMax(init, l.tag);
      }
    }
  }

  /** One line `cls t 0 x` is counted twice as written, once when corrected. */
  lemma OneClsLineCountedTwice()
    ensures var ls := [ClsLine(Lit("t"), 0, Lit("x"))];
      Count(TallyAsWritten(NoTags, ls).clsCount, Key(Lit("t"), Lit("0"))) == 2 &&
      Count(Tally(NoTags, ls).clsCount, Key(Lit("t"), Lit("0"))) == 1
  {
    var ls := [ClsLine(Lit("t"), 0, Lit("x"))];
    assert IntToString(0) == Lit("0");
    assert ls[..0] == [];
  }

  // ---------------------------------------------------------------------
  // InitModel

  /** The class counts of the models InitModel builds. */
  datatype Models = Models(skip: int, cls: map<Bytes, int>, pair: map<Bytes, int>)

  /**
   * InitModel: first the skip model, with one class per row of the word
   * table (`words`), then one cls model per cls tag with its largest label
   * plus one classes, and one pair model per pair tag with 2. The model
   * constructor refuses a model of one class or none: a word table of at
   * most one row, or a cls tag whose labels are all 0.
   */
  function InitModel(t: Tags, words: nat): (r: Result<Models>)
    ensures r.Ok? <==> words > 1 && forall tag :: tag in t.cls ==> t.cls[tag] >= 1
    ensures r.Ok? ==> r.value.skip == words
    ensures r.Ok? ==> r.value.cls.Keys == t.cls.Keys && r.value.pair.Keys == t.pair.Keys
    ensures r.Ok? ==> forall tag :: tag in t.cls ==> r.value.cls[tag] == t.cls[tag] + 1 > 1
    ensures r.Ok? ==> forall tag :: tag in t.pair ==> r.value.pair[tag] == 2
  {
    if words <= 1 then Err("cls_number must be > 1")
    else if exists tag :: tag in t.cls && t.cls[tag] < 1 then Err("cls_number must be > 1")
    else Ok(Models(words, map tag | tag in t.cls :: t.cls[tag] + 1, map tag | tag in t.pair :: 2))
  }

  /** The line at `i` adds its label to the labels of its tag. */
  lemma {:induction false} ClsLabelsHas(ls: seq<Line>, i: nat)
    requires i < |ls| && ls[i].ClsLine?
    ensures ls[i].target in ClsLabels(ls, ls[i].tag)
  {
    var init := ls[..|ls| - 1];
    if i < |ls| - 1 {
      assert init[i] == ls[i];
      ClsLabelsHas(init, i);
    }
  }

  /**
   * Every cls training line fits the model of its tag: its label is a row
   * of that model's output layer, as UpdateCls asserts.
   */
  lemma TrainingLabelsFit(ls: seq<Line>, words: nat, i: nat)
    requires InitModel(Tally(NoTags, ls), words).Ok?
    requires i < |ls| && ls[i].ClsLine?
    ensures ls[i].tag in InitModel(Tally(NoTags, ls), words).value.cls
    ensures ls[i].target < InitModel(Tally(NoTags, ls), words).value.cls[ls[i].tag]
  {
    var t := Tally(NoTags, ls);
    var tag := ls[i].tag;
    ClsLabelsHas(ls, i);
    TallyClsMax(ls, tag);
    assert tag in t.cls && ls[i].target <= t.cls[tag];
  }

  /** Every pair training line has a model of two classes. */
  lemma PairTagsHaveModels(ls: seq<Line>, words: nat, i: nat)
    requires InitModel(Tally(NoTags, ls), words).Ok?
    requires i < |ls| && ls[i].PairLine?
    ensures ls[i].tag in InitModel(Tally(NoTags, ls), words).value.pair
    ensures InitModel(Tally(NoTags, ls), words).value.pair[ls[i].tag] == 2
  {
    PairTagLinesHas(ls, i);
    TallyPairTags(ls, ls[i].tag);
  }

  lemma {:induction false} PairTagLinesHas(ls: seq<Line>, i: nat)
    requires i < |ls| && ls[i].PairLine?
    ensures PairTagLines(ls, ls[i].tag) > 0
  {
    var init := ls[..|ls| - 1];
    if i < |ls| - 1 {
      assert init[i] == ls[i];
      PairTagLinesHas(init, i);
    }
  }

  // ---------------------------------------------------------------------
  // Fields

  /** No field of a split holds a stop byte when the input holds none. */
  lemma {:induction false} SplitFieldsNoStop(s: Bytes, sep: Byte)
    requires NoStopByte(s)
    ensures forall k :: 0 <= k < |SplitFields(s, sep)| ==> NoStopByte(SplitFields(s, sep)[k])
  {
    if s != [] {
      assert NoStopByte(s[..|s| - 1]);
      SplitFieldsNoStop(s[..|s| - 1], sep);
    }
  }

  /** Trimming keeps a run of the bytes of `s`. */
  lemma TrimmedWithin(s: Bytes)
    ensures forall k :: 0 <= k < |Trimmed(s)| ==> Trimmed(s)[k] in s
  {
    var r := Trimmed(s);
    var i :| TrimSplit(s, i, r);
    forall k | 0 <= k < |r| ensures r[k] in s {
      assert r[k] == s[i..i + |r|][k] == s[i + k];
    }
  }

  /** A field, as the loaders read it, with no tab and no stop byte. */
  predicate PlainField(f: Bytes) { TAB !in f && NoStopByte(f) }

  /** Every field of a line is plain: it was cut at tabs from the bytes before the first stop byte. */
  lemma FieldsPlain(line: Bytes)
    ensures forall k :: 0 <= k < |LineFields(line)| ==> PlainField(LineFields(line)[k])
  {
    var s := Lowered(Trimmed(line));
    var parts := Split(s, TAB);
    forall k | 0 <= k < |parts| ensures PlainField(parts[k]) {
      if s != [] && s != [TAB] {
        var n := ReadExtent(s);
        SplitFieldsNoSep(s[..n], TAB);
        SplitFieldsNoStop(s[..n], TAB);
      }
    }
    forall k | 0 <= k < |parts| ensures PlainField(Trimmed(parts[k])) {
      TrimmedWithin(parts[k]);
    }
  }

  // ---------------------------------------------------------------------
  // Evaluation examples

  /** A cls evaluation example: the ids of its text and its key `tag\tlabel`. */
  datatype ClsExample = ClsExample(ids: seq<int>, key: Bytes)

  /** A pair evaluation example: the ids of both sides and its key. */
  datatype PairExample = PairExample(ids1: seq<int>, ids2: seq<int>, key: Bytes)

  datatype EvalLine = ClsEval(cls: ClsExample) | PairEval(pair: PairExample) | NoEval

  /**
   * LoadEvalExample on one line, the second side of a pair read from field
   * `second`. `resolve` stands for InputLayer::GetIdxVec; an example whose
   * text resolves to no ids, or whose label `atoi` reads as negative, is
   * dropped. Unlike training, the task switches are not consulted per line.
   */
  function EvalExampleFrom(parts: seq<Bytes>, resolve: Bytes -> seq<int>, second: nat): (e: EvalLine)
    requires second < 5
    ensures e.ClsEval? ==> (
      |parts| == 4 && parts[0] == Lit("cls") && ParseInt(parts[2]) >= 0 &&
      e.cls == ClsExample(resolve(parts[3]), Key(parts[1], IntToString(ParseInt(parts[2])))) && e.cls.ids != [])
    ensures e.PairEval? ==> (
      |parts| == 5 && parts[0] == Lit("pair") && ParseInt(parts[2]) >= 0 &&
      e.pair == PairExample(resolve(Trimmed(parts[3])), resolve(Trimmed(parts[second])), Key(Trimmed(parts[1]), IntToString(ParseInt(parts[2])))) &&
      e.pair.ids1 != [] && e.pair.ids2 != [])
    ensures e.NoEval? <==> (
      !(|parts| == 4 && parts[0] == Lit("cls") && ParseInt(parts[2]) >= 0 && resolve(parts[3]) != []) &&
      !(|parts| == 5 && parts[0] == Lit("pair") && ParseInt(parts[2]) >= 0 && resolve(Trimmed(parts[3])) != [] && resolve(Trimmed(parts[second])) != []))
  {
    if |parts| == 4 && parts[0] == Lit("cls") then
      var target := ParseInt(parts[2]);
      var ids := resolve(parts[3]);
      if target < 0 || ids == [] then NoEval
      else ClsEval(ClsExample(ids, Key(parts[1], IntToString(target))))
    else if |parts| == 5 && parts[0] == Lit("pair") then
      var target := ParseInt(parts[2]);
      var ids1 := resolve(Trimmed(parts[3]));
      var ids2 := resolve(Trimmed(parts[second]));
      if target < 0 || ids1 == [] || ids2 == [] then NoEval
      else PairEval(PairExample(ids1, ids2, Key(Trimmed(parts[1]), IntToString(target))))
    else NoEval
  }

  /** The evaluation example of a line, its pair sides read from fields 3 and 4 as training reads them. */
  function EvalExample(parts: seq<Bytes>, resolve: Bytes -> seq<int>): EvalLine
  {
    EvalExampleFrom(parts, resolve, 4)
  }

  /** The same as embedding.cc:199-205 writes it: both sides from field 3. */
  function EvalExampleAsWritten(parts: seq<Bytes>, resolve: Bytes -> seq<int>): EvalLine
  {
    EvalExampleFrom(parts, resolve, 3)
  }

  /** The evaluation examples of the lines of a file. */
  function EvalLines(lines: seq<Bytes>, resolve: Bytes -> seq<int>): (es: seq<EvalLine>)
    ensures |es| == |lines|
  {
    if lines == [] then []
    else EvalLines(lines[..|lines| - 1], resolve) + [EvalExample(LineFields(lines[|lines| - 1]), resolve)]
  }

  /** The cls examples among them, in order. */
  function ClsExamples(es: seq<EvalLine>): seq<ClsExample>
  {
    if es == [] then [] else ClsExamples(es[..|es| - 1]) + ClsOf(es[|es| - 1])
  }

  /** The pair examples among them, in order. */
  function PairExamples(es: seq<EvalLine>): seq<PairExample>
  {
    if es == [] then [] else PairExamples(es[..|es| - 1]) + PairOf(es[|es| - 1])
  }

  function ClsOf(e: EvalLine): seq<ClsExample>
  {
    if e.ClsEval? then [e.cls] else []
  }

  function PairOf(e: EvalLine): seq<PairExample>
  {
    if e.PairEval? then [e.pair] else []
  }

  /** One more line of a file adds its example at the end. */
  lemma EvalLinesAppend(lines: seq<Bytes>, resolve: Bytes -> seq<int>, i: nat, e: EvalLine)
    requires i < |lines| && e == EvalExample(LineFields(lines[i]), resolve)
    ensures EvalLines(lines[..i + 1], resolve) == EvalLines(lines[..i], resolve) + [e]
  {
    assert lines[..i + 1][..i] == lines[..i];
  }

  /** As written, the two sides of every pair example are the same ids. */
  lemma PairSidesAlike(parts: seq<Bytes>, resolve: Bytes -> seq<int>)
    requires EvalExampleAsWritten(parts, resolve).PairEval?
    ensures EvalExampleAsWritten(parts, resolve).pair.ids1 == EvalExampleAsWritten(parts, resolve).pair.ids2
  {
    assert Trimmed(parts[3]) == Trimmed(parts[3]);
  }

  /**
   * Whenever the two sides of a pair line resolve to different ids, the
   * as-written example carries the first side twice and the corrected one
   * both sides.
   */
  lemma SecondSideLost(parts: seq<Bytes>, resolve: Bytes -> seq<int>)
    requires |parts| == 5 && parts[0] == Lit("pair") && ParseInt(parts[2]) >= 0
    requires resolve(Trimmed(parts[3])) != [] && resolve(Trimmed(parts[4])) != []
    requires resolve(Trimmed(parts[3])) != resolve(Trimmed(parts[4]))
    ensures EvalExampleAsWritten(parts, resolve).PairEval? && EvalExample(parts, resolve).PairEval?
    ensures EvalExampleAsWritten(parts, resolve).pair.ids2 != EvalExample(parts, resolve).pair.ids2
  {
  }

  /** Such a line: `pair t 1 a b`, where `a` and `b` resolve to different ids. */
  lemma SecondSideLostExample()
    ensures ParseInt(IntToString(1)) >= 0
    ensures AOrB(Trimmed([0x61])) == [1] && AOrB(Trimmed([0x62])) == [2]
  {
    OneByteClean([0x61]);
    OneByteClean([0x62]);
    ParseIntRoundTrip(1);
    assert [0x62 as Byte] != [0x61 as Byte] by {
      assert [0x62 as Byte][0] != [0x61 as Byte][0];
    }
  }

  /** A resolution under which the texts `a` and `b` give different ids. */
  function AOrB(x: Bytes): seq<int>
  {
    if x == [0x61] then [1] else [2]
  }

  /** A one-byte text that is not a trimmed byte is its own trim. */
  lemma OneByteClean(s: Bytes)
    requires |s| == 1 && !IsTrimSpace(s[0])
    ensures Trimmed(s) == s
  {
    assert LeadingSpace(s) == 0 && TrailingSpace(s) == 0;
  }

  // ---------------------------------------------------------------------
  // Evaluation tallies

  /** Whether an example is counted, and then for which tag and whether it was right. */
  datatype Outcome = Skipped | Judged(tag: Bytes, right: bool)

  /** The tag and label of a key: two fields and a label `atoi` reads as non-negative. */
  function EvalKey(key: Bytes): (r: Option<(Bytes, int)>)
    ensures r.Some? ==> r.value.1 >= 0
  {
    var parts := Split(key, TAB);
    if |parts| == 2 && ParseInt(parts[1]) >= 0 then Some((parts[0], ParseInt(parts[1]))) else None
  }

  /** EvalCls on one example: a negative prediction is not counted. */
  function ClsOutcome(key: Bytes, pre: int): Outcome
  {
    match EvalKey(key)
    case None => Skipped
    case Some((tag, target)) => if pre < 0 then Skipped else Judged(tag, pre == target)
  }

  /** EvalPair on one example: the prediction is 1 when the score exceeds 0.5, else 0. */
  function PairOutcome(key: Bytes, score: real): Outcome
  {
    match EvalKey(key)
    case None => Skipped
    case Some((tag, target)) => Judged(tag, (if score > 0.5 then 1 else 0) == target)
  }

  /** The (wrong, right) pair of a tag, (0, 0) before its first example. */
  function Tallied(m: map<Bytes, (nat, nat)>, tag: Bytes): (nat, nat)
  {
    if tag in m then m[tag] else (0, 0)
  }

  /** The result map after the outcomes, each judged outcome adding to its tag. */
  function Score(os: seq<Outcome>): map<Bytes, (nat, nat)>
  {
    if os == [] then map[] else Next(Score(os[..|os| - 1]), os[|os| - 1])
  }

  /** One outcome added to the result: a judged one adds one to the wrong or the right count of its tag. */
  function Next(m: map<Bytes, (nat, nat)>, o: Outcome): map<Bytes, (nat, nat)>
  {
    if o.Skipped? then m
    else
      var p := Tallied(m, o.tag);
      m[o.tag := if o.right then (p.0, p.1 + 1) else (p.0 + 1, p.1)]
  }

  lemma ScoreStep(os: seq<Outcome>, i: nat)
    requires i < |os|
    ensures Score(os[..i + 1]) == Next(Score(os[..i]), os[i])
  {
    assert os[..i + 1][..i] == os[..i];
  }

  /** The number of judged outcomes of a tag. */
  function Judgements(os: seq<Outcome>, tag: Bytes): nat
  {
    if os == [] then 0
    else Judgements(os[..|os| - 1], tag) + (if os[|os| - 1] == Judged(tag, false) || os[|os| - 1] == Judged(tag, true) then 1 else 0)
  }

  /** The number of right outcomes of a tag. */
  function Rights(os: seq<Outcome>, tag: Bytes): nat
  {
    if os == [] then 0
    else Rights(os[..|os| - 1], tag) + (if os[|os| - 1] == Judged(tag, true) then 1 else 0)
  }

  /** A tag is in the result exactly when it has a judged example; its pair counts the wrong and the right ones. */
  lemma {:induction false} ScoreCounts(os: seq<Outcome>, tag: Bytes)
    ensures tag in Score(os) <==> Judgements(os, tag) > 0
    ensures Tallied(Score(os), tag).0 + Tallied(Score(os), tag).1 == Judgements(os, tag)
    ensures Tallied(Score(os), tag).1 == Rights(os, tag)
  {
    if os != [] {
      ScoreCounts(os[..|os| - 1], tag);
    }
  }

  /** The outcomes of the cls examples under the predictions of their models. */
  function ClsOutcomes(es: seq<ClsExample>, preds: seq<int>): (os: seq<Outcome>)
    requires |preds| == |es|
    ensures |os| == |es| && forall i :: 0 <= i < |es| ==> os[i] == ClsOutcome(es[i].key, preds[i])
  {
    seq(|es|, i requires 0 <= i < |es| => ClsOutcome(es[i].key, preds[i]))
  }

  /** The outcomes of the pair examples under the scores of their models. */
  function PairOutcomes(es: seq<PairExample>, scores: seq<real>): (os: seq<Outcome>)
    requires |scores| == |es|
    ensures |os| == |es| && forall i :: 0 <= i < |es| ==> os[i] == PairOutcome(es[i].key, scores[i])
  {
    seq(|es|, i requires 0 <= i < |es| => PairOutcome(es[i].key, scores[i]))
  }

  /** A key built from a plain tag and a non-negative label is read back as that tag and label. */
  lemma KeyParses(tag: Bytes, target: int)
    requires PlainField(tag) && target >= 0
    ensures EvalKey(Key(tag, IntToString(target))) == Some((tag, target))
  {
    var d := IntToString(target);
    var k := Key(tag, d);
    DigitsPlain(target);
    assert NoStopByte(k) by {
      forall i | 0 <= i < |k| ensures !IsStopByte(k[i]) {
        if i < |tag| {
          assert k[i] == tag[i];
        } else if i > |tag| {
          assert k[i] == d[i - |tag| - 1];
        }
      }
    }
    SplitPlain(k, TAB);
    assert Join([tag, d], TAB) == k by {
      assert [tag, d][..1] == [tag];
    }
    SplitFieldsOfJoin([tag, d], TAB);
    ParseIntRoundTrip(target);
  }

  /** A non-negative label renders as plain digits. */
  lemma DigitsPlain(target: int)
    requires target >= 0
    ensures PlainField(IntToString(target))
  {
    var d := IntToString(target);
    NatToStringDigits(target);
    forall i | 0 <= i < |d| ensures d[i] != TAB && !IsStopByte(d[i]) {
      assert IsDigit(d[i]);
    }
  }

  /**
   * Every cls example loaded from an evaluation line is counted by EvalCls
   * once its prediction is non-negative: its key reads back as the line's
   * tag and label.
   */
  lemma LoadedClsJudged(line: Bytes, resolve: Bytes -> seq<int>, pre: int)
    requires EvalExample(LineFields(line), resolve).ClsEval? && pre >= 0
    ensures var parts := LineFields(line);
      ClsOutcome(EvalExample(parts, resolve).cls.key, pre) == Judged(parts[1], pre == ParseInt(parts[2]))
  {
    var parts := LineFields(line);
    FieldsPlain(line);
    KeyParses(parts[1], ParseInt(parts[2]));
  }

  /** The same for pair examples, whatever the score. */
  lemma LoadedPairJudged(line: Bytes, resolve: Bytes -> seq<int>, score: real)
    requires EvalExample(LineFields(line), resolve).PairEval?
    ensures var parts := LineFields(line);
      PairOutcome(EvalExample(parts, resolve).pair.key, score) == Judged(Trimmed(parts[1]), (if score > 0.5 then 1 else 0) == ParseInt(parts[2]))
  {
    var parts := LineFields(line);
    var e := EvalExample(parts, resolve);
    assert e.pair.key == Key(Trimmed(parts[1]), IntToString(ParseInt(parts[2])));
    FieldsPlain(line);
    TrimmedPlain(parts[1]);
    PairKeyJudged(Trimmed(parts[1]), ParseInt(parts[2]), score);
  }

  lemma TrimmedPlain(f: Bytes)
    requires PlainField(f)
    ensures PlainField(Trimmed(f))
  {
    TrimmedWithin(f);
  }

  lemma PairKeyJudged(tag: Bytes, target: int, score: real)
    requires PlainField(tag) && target >= 0
    ensures PairOutcome(Key(tag, IntToString(target)), score) == Judged(tag, (if score > 0.5 then 1 else 0) == target)
  {
    KeyParses(tag, target);
  }

  // ---------------------------------------------------------------------
  // Predict(line)

  /**
   * The five fields of a rewritten cls line: with a prediction, the
   * predicted label and the rendered score go in fields 2 and 3; without
   * one, the label stays and the score is "-1". The text moves to field 4.
   */
  function PredictedCls(parts: seq<Bytes>, cls: Option<(int, Bytes)>): (r: seq<Bytes>)
    requires |parts| == 4
    ensures |r| == 5 && r[0] == parts[0] && r[1] == parts[1] && r[4] == parts[3]
  {
    match cls
    case Some((pre, score)) => [parts[0], parts[1], IntToString(pre), score, parts[3]]
    case None => [parts[0], parts[1], parts[2], IntToString(-1), parts[3]]
  }

  /** The fields of a rewritten pair line: the label field holds the rendered score, or "-1". */
  function PredictedPair(parts: seq<Bytes>, pair: Option<Bytes>): (r: seq<Bytes>)
    requires |parts| == 5
    ensures |r| == 5 && forall k :: 0 <= k < 5 && k != 2 ==> r[k] == parts[k]
  {
    parts[2 := if pair.Some? then pair.value else IntToString(-1)]
  }

  /**
   * Predict(line, res). The fields are cut at tabs without trimming. `cls`
   * is the prediction and rendered score of a cls line whose text resolves
   * to ids, `pair` the rendered score of a pair line whose sides both
   * resolve; a rewritten line is its fields each followed by a tab, then
   * trimmed. Any other line comes back as it is.
   */
  function PredictLine(line: Bytes, cls: Option<(int, Bytes)>, pair: Option<Bytes>): Bytes
  {
    var parts := Split(line, TAB);
    if |parts| == 4 && parts[0] == Lit("cls") then Trimmed(LT.TabAfter(PredictedCls(parts, cls)))
    else if |parts| == 5 && parts[0] == Lit("pair") then Trimmed(LT.TabAfter(PredictedPair(parts, pair)))
    else line
  }

  /** Five fields joined by tabs, spelt out. */
  lemma JoinFive(f: seq<Bytes>)
    requires |f| == 5
    ensures Join(f, TAB) == f[0] + [TAB] + f[1] + [TAB] + f[2] + [TAB] + f[3] + [TAB] + f[4]
  {
    var f4, f3, f2 := f[..4], f[..3], f[..2];
    assert f4[..3] == f3 && f3[..2] == f2 && f2[..1] == [f[0]];
    assert Join(f2, TAB) == f[0] + [TAB] + f[1];
    assert Join(f3, TAB) == Join(f2, TAB) + [TAB] + f[2];
    assert Join(f4, TAB) == Join(f3, TAB) + [TAB] + f[3];
  }

  /**
   * Five plain fields, the first starting and the last ending with a byte
   * trimming keeps, come back from the rewritten line by cutting it at its
   * tabs.
   */
  lemma {:induction false} FiveFieldsBack(f: seq<Bytes>)
    requires |f| == 5 && forall k :: 0 <= k < 5 ==> PlainField(f[k])
    requires f[0] != [] && !IsTrimSpace(f[0][0]) && f[4] != [] && !IsTrimSpace(f[4][|f[4]| - 1])
    ensures Split(Trimmed(LT.TabAfter(f)), TAB) == f
  {
    var j := Join(f, TAB);
    JoinFive(f);
    LT.TabAfterJoin(f);
    assert j[0] == f[0][0] && j[|j| - 1] == f[4][|f[4]| - 1];
    S.TrimmedTrailingTab(j);
    assert NoStopByte(j) by {
      forall i | 0 <= i < |j| ensures !IsStopByte(j[i]) {
        JoinedByteIn(f, i);
      }
    }
    SplitPlain(j, TAB);
    SplitFieldsOfJoin(f, TAB);
  }

  /** A byte of five fields joined by tabs is a tab or a byte of one of them. */
  lemma JoinedByteIn(f: seq<Bytes>, i: nat)
    requires |f| == 5 && i < |Join(f, TAB)|
    ensures var b := Join(f, TAB)[i]; b == TAB || b in f[0] || b in f[1] || b in f[2] || b in f[3] || b in f[4]
  {
    JoinFive(f);
    var j := Join(f, TAB);
    var a := f[0] + [TAB] + f[1] + [TAB] + f[2] + [TAB] + f[3] + [TAB];
    assert j == a + f[4];
    if i >= |a| {
      assert j[i] == f[4][i - |a|];
    } else {
      var c := f[0] + [TAB] + f[1] + [TAB] + f[2] + [TAB];
      assert a == c + f[3] + [TAB];
      if i >= |c| {
        assert i == |a| - 1 || j[i] == f[3][i - |c|];
      } else {
        var e := f[0] + [TAB] + f[1] + [TAB];
        assert c == e + f[2] + [TAB];
        if i >= |e| {
          assert i == |c| - 1 || j[i] == f[2][i - |e|];
        } else if i > |f[0]| {
          assert i == |e| - 1 || j[i] == f[1][i - |f[0]| - 1];
        } else {
          assert i == |f[0]| || j[i] == f[0][i];
        }
      }
    }
  }

  /**
   * A cls line of four tab-free fields whose text ends in a byte trimming
   * keeps is rewritten to exactly five fields: the kind, the tag, the
   * prediction (or the label), the score (or "-1") and the text.
   */
  lemma PredictClsFields(line: Bytes, cls: Option<(int, Bytes)>, pair: Option<Bytes>)
    requires NoStopByte(line)
    requires var parts := Split(line, TAB);
      |parts| == 4 && parts[0] == Lit("cls") && parts[3] != [] && !IsTrimSpace(parts[3][|parts[3]| - 1])
    requires cls.Some? ==> PlainField(cls.value.1)
    ensures Split(PredictLine(line, cls, pair), TAB) == PredictedCls(Split(line, TAB), cls)
  {
    var parts := Split(line, TAB);
    LinePartsPlain(line);
    var f := PredictedCls(parts, cls);
    DigitsOrMinusPlain(-1);
    if cls.Some? {
      DigitsOrMinusPlain(cls.value.0);
    }
    assert f[0] == Lit("cls") && Lit("cls")[0] == 0x63;
    FiveFieldsBack(f);
  }

  /** A pair line of five tab-free fields whose last side ends in a byte trimming keeps keeps its fields but the label. */
  lemma PredictPairFields(line: Bytes, cls: Option<(int, Bytes)>, pair: Option<Bytes>)
    requires NoStopByte(line)
    requires var parts := Split(line, TAB);
      |parts| == 5 && parts[0] == Lit("pair") && parts[4] != [] && !IsTrimSpace(parts[4][|parts[4]| - 1])
    requires pair.Some? ==> PlainField(pair.value)
    ensures Split(PredictLine(line, cls, pair), TAB) == PredictedPair(Split(line, TAB), pair)
  {
    var parts := Split(line, TAB);
    LinePartsPlain(line);
    var f := PredictedPair(parts, pair);
    DigitsOrMinusPlain(-1);
    assert f[0] == Lit("pair") && Lit("pair")[0] == 0x70;
    FiveFieldsBack(f);
  }

  /** The tab-cut fields of a line without stop bytes are plain. */
  lemma LinePartsPlain(line: Bytes)
    requires NoStopByte(line)
    ensures forall k :: 0 <= k < |Split(line, TAB)| ==> PlainField(Split(line, TAB)[k])
  {
    SplitPlain(line, TAB);
    SplitFieldsNoSep(line, TAB);
    SplitFieldsNoStop(line, TAB);
  }

  /** `to_string` of any integer is plain. */
  lemma DigitsOrMinusPlain(n: int)
    ensures PlainField(IntToString(n))
  {
    var d := IntToString(n);
    IntToStringBytes(n);
    forall i | 0 <= i < |d| ensures d[i] != TAB && !IsStopByte(d[i]) {
      assert IsDigit(d[i]) || d[i] == MINUS;
    }
  }
}
