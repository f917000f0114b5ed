/**
 * One trainer of model.cc as an object: the configuration it reads once,
 * the loss-event counter, the 64-bit generator state and the cursor over
 * its negative-sampling table are fields the methods update. Each method
 * is proved against the functions of TrainerSpec.
 */
module Trainer {
  import opened Wrappers
  import opened Bytes
  import opened BasicUtil
  import opened TextUtil
  import opened Sorting
  import opened Config
  import opened HashTableSpec
  import opened HashTableDiscard
  import HT = HashTable
  import opened TrainerSpec
  import opened NegTableSpec
  import ES = EmbeddingSpec

  /** The left loop of UpdateSkip, with `i - lbound` in signed arithmetic: the window of radius `b` left of `i`. */
  method LeftWindow(idx: seq<int>, i: nat, b: nat) returns (ps: seq<nat>)
    requires i <= |idx|
    ensures ps == Pick(idx, Leftward(i), b)
  {
    var lbound: int := b;
    var j: int := i - 1;
    ps := [];
    while j >= 0 && j >= i - lbound
      invariant -1 <= j < i && lbound - (i - 1 - j) >= 0
      invariant ps + Pick(idx, Leftward(j + 1), lbound - (i - 1 - j)) == Pick(idx, Leftward(i), b)
      decreases j + 1
    {
      LeftwardTail(j + 1);
      if idx[j] < 0 {
        lbound := lbound + 1;
      } else {
        ps := ps + [j as nat];
      }
      j := j - 1;
    }
  }

  /** The right loop of UpdateSkip: the window of radius `b` right of `end`. */
  method RightWindow(idx: seq<int>, end: nat, b: nat) returns (ps: seq<nat>)
    ensures ps == Pick(idx, Rightward(end + 1, |idx|), b)
  {
    var rbound: nat := b;
    var j: nat := end + 1;
    ps := [];
    while j < |idx| && j <= end + rbound
      invariant end + 1 <= j && end + rbound + 1 >= j
      invariant ps + Pick(idx, Rightward(j, |idx|), end + rbound + 1 - j) == Pick(idx, Rightward(end + 1, |idx|), b)
      decreases |idx| - j
    {
      RightwardTail(j, |idx|);
      if idx[j] < 0 {
        rbound := rbound + 1;
      } else {
        ps := ps + [j];
      }
      j := j + 1;
    }
    if j >= |idx| {
      assert Rightward(j, |idx|) == [];
    }
  }

  /** GetNgramWord for one round: the n-gram NgramOf describes. */
  method Ngram(ws: seq<Bytes>, idx: seq<int>, i: nat, end: nat) returns (s: Bytes)
    requires |ws| == |idx| && i <= end < |idx|
    ensures s == NgramOf(ws, idx, i, end)
  {
    s := GetNgramWord(ws, idx, i, end);
  }

  class Model {
    const table: HT.HashTable
    const name: ModelName
    const clsNumber: nat
    const tag: Bytes
    /** The parameters Init reads from the configuration. */
    const params: Params
    var totalLossNum: int
    var randLong: nat
    var negTableIndex: nat
    var negTable: seq<nat>

    /** Model(conf, n, cls_number, input_layer, tag, hash_table) followed by Init. */
    constructor (s: Settings, n: ModelName, clsNumber: int, tag: Bytes, ht: HT.HashTable)
      requires clsNumber > 1
      ensures table == ht && name == n && this.clsNumber == clsNumber && this.tag == tag
      ensures params == InitParams(s, n, tag)
      ensures totalLossNum == 0 && randLong == 1 && negTableIndex == 0 && negTable == []
    {
      table := ht;
      name := n;
      this.clsNumber := clsNumber;
      this.tag := tag;
      params := InitParams(s, n, tag);
      totalLossNum := 0;
      randLong := 1;
      negTableIndex := 0;
      negTable := [];
    }

    /** GetRandInt: the value and the generator step RandInt describes; nothing else changes. */
    method GetRandInt(min: int, max: int) returns (v: int)
      modifies this
      ensures (v, randLong) == RandInt(old(randLong), min, max)
      ensures totalLossNum == old(totalLossNum) && negTableIndex == old(negTableIndex) && negTable == old(negTable)
    {
      if min >= max {
        return min;
      }
      randLong := (randLong * LCG_MULTIPLIER + LCG_INCREMENT) % U64;
      v := (randLong / 0x1_0000) % (max - min + 1) + min;
    }

    /**
     * GetNegativeLabel(positive): the cursor moves on, cyclically, to the
     * first entry after it that is not `positive`. It ends only when the
     * table holds another label.
     */
    method GetNegativeLabel(positive: nat) returns (neg: nat, ghost k: nat)
      requires |negTable| > 0 && exists j :: 0 <= j < |negTable| && negTable[j] != positive
      modifies this
      ensures totalLossNum == old(totalLossNum) && randLong == old(randLong) && negTable == old(negTable)
      ensures neg != positive && negTableIndex < |negTable| && neg == negTable[negTableIndex]
      ensures 1 <= k <= |negTable| && negTableIndex == (old(negTableIndex) + k) % |negTable|
      ensures forall j :: 1 <= j < k ==> Slot(negTable, old(negTableIndex), j) == positive
    {
      var n := |negTable|;
      ghost var c0 := negTableIndex;
      ghost var target :| 0 <= target < n && negTable[target] != positive;
      ghost var d := CyclicDistance(c0, target, n);
      negTableIndex := (negTableIndex + 1) % n;
      neg := negTable[negTableIndex];
      k := 1;
      while neg == positive
        invariant negTable == old(negTable) && totalLossNum == old(totalLossNum) && randLong == old(randLong)
        invariant 1 <= k <= d && negTableIndex == (c0 + k) % n && neg == negTable[negTableIndex]
        invariant forall j :: 1 <= j < k ==> Slot(negTable, c0, j) == positive
        decreases d - k
      {
        assert k < d by {
          assert Slot(negTable, c0, k) == positive && Slot(negTable, c0, d) == negTable[target];
        }
        assert (negTableIndex + 1) % n == (c0 + k + 1) % n by {
          ModAdd(c0 + k, 1, n);
        }
        negTableIndex := (negTableIndex + 1) % n;
        neg := negTable[negTableIndex];
        k := k + 1;
      }
    }

    /** GetNegativeLabel(pos_counter, max_find_times): the draw DrawOutside describes. */
    method GetNegativeLabelOutside(pos: set<nat>, maxFind: nat) returns (neg: nat)
      requires |negTable| > 0
      modifies this
      ensures totalLossNum == old(totalLossNum) && randLong == old(randLong) && negTable == old(negTable)
      ensures (neg, negTableIndex) == DrawOutside(negTable, old(negTableIndex), pos, 0, maxFind)
    {
      var n := |negTable|;
      ghost var prev: nat := negTableIndex;
      negTableIndex := (negTableIndex + 1) % n;
      neg := negTable[negTableIndex];
      var find: nat := 1;
      ghost var before: nat := 0;
      while neg in pos && find < maxFind
        invariant negTable == old(negTable) && totalLossNum == old(totalLossNum) && randLong == old(randLong)
        invariant find == before + 1 && negTableIndex == (prev + 1) % n && neg == negTable[negTableIndex]
        invariant DrawOutside(negTable, old(negTableIndex), pos, 0, maxFind) == DrawOutside(negTable, prev, pos, before, maxFind)
        decreases maxFind - find
      {
        prev := negTableIndex;
        negTableIndex := (negTableIndex + 1) % n;
        neg := negTable[negTableIndex];
        before := find;
        find := find + 1;
      }
    }

    /**
     * UpdateNeg: nothing on an empty input; otherwise, with `useNeg`, the
     * negatives NegRound draws outside the positives, and one loss event.
     */
    method UpdateNeg(input: seq<int>, pos: set<nat>, useNeg: bool) returns (negs: seq<nat>)
      requires input == [] || !useNeg || |negTable| > 0 || params.negSample == 0
      modifies this
      ensures randLong == old(randLong) && negTable == old(negTable)
      ensures input == [] ==> negs == [] && negTableIndex == old(negTableIndex) && totalLossNum == old(totalLossNum)
      ensures input != [] && useNeg ==> (negs, negTableIndex) == NegRound(negTable, old(negTableIndex), pos, params.negSample)
      ensures input != [] && !useNeg ==> negs == [] && negTableIndex == old(negTableIndex)
      ensures input != [] ==> totalLossNum == old(totalLossNum) + 1
    {
      negs := [];
      if input == [] {
        return;
      }
      if useNeg {
        var k := 0;
        while k < params.negSample
          invariant 0 <= k <= params.negSample
          invariant totalLossNum == old(totalLossNum) && randLong == old(randLong) && negTable == old(negTable)
          invariant (negs, negTableIndex) == NegRound(negTable, old(negTableIndex), pos, k)
        {
          var x := GetNegativeLabelOutside(pos, MAX_FIND_TIMES);
          negs := negs + [x];
          k := k + 1;
        }
      }
      totalLossNum := totalLossNum + 1;
    }

    /** The UpdateNeg calls of one round, towards each output in turn. */
    method VisitAll(input: seq<int>, pos: set<nat>, outputs: seq<nat>) returns (us: seq<Update>)
      requires input != [] && (|negTable| > 0 || params.negSample == 0)
      modifies this
      ensures randLong == old(randLong) && negTable == old(negTable)
      ensures (us, negTableIndex) == Visits(negTable, params.negSample, input, pos, outputs, old(negTableIndex))
      ensures totalLossNum == old(totalLossNum) + |outputs|
    {
      us := [];
      var k := 0;
      while k < |outputs|
        invariant 0 <= k <= |outputs|
        invariant totalLossNum == old(totalLossNum) + k && randLong == old(randLong) && negTable == old(negTable)
        invariant (us, negTableIndex) == Visits(negTable, params.negSample, input, pos, outputs[..k], old(negTableIndex))
      {
        assert outputs[..k + 1][..k] == outputs[..k];
        var negs := UpdateNeg(input, pos, true);
        us := us + [Update(input, outputs[k], negs)];
        k := k + 1;
      }
      assert outputs[..k] == outputs;
    }

    /**
     * UpdateCls(text, label) on the ids GetIdxVec gave for the text: no
     * change unless ClsTrains; otherwise one loss event, through SoftMax or
     * through UpdateNeg with `target`, the label, as the only positive.
     */
    method UpdateCls(ids: seq<int>, target: nat) returns (negs: seq<nat>)
      requires ClsTrains(params, ids) ==> target < clsNumber
      requires params.loss == Ng ==> |negTable| > 0 || params.negSample == 0
      modifies this
      ensures randLong == old(randLong) && negTable == old(negTable)
      ensures !ClsTrains(params, ids) ==> negs == [] && negTableIndex == old(negTableIndex) && totalLossNum == old(totalLossNum)
      ensures ClsTrains(params, ids) ==> totalLossNum == old(totalLossNum) + 1
      ensures ClsTrains(params, ids) && params.loss == Softmax ==> negs == [] && negTableIndex == old(negTableIndex)
      ensures ClsTrains(params, ids) && params.loss == Ng ==>
        (negs, negTableIndex) == NegRound(negTable, old(negTableIndex), {target}, params.negSample)
    {
      negs := [];
      if |ids| < 1 || params.boost <= MIN_BOOST {
        return;
      }
      if params.loss == Softmax {
        totalLossNum := totalLossNum + 1;
      } else {
        negs := UpdateNeg(ids, {target}, true);
      }
    }

    /**
     * UpdatePair(text_1, text_2, label) on the ids of both texts: no change
     * unless PairTrains; otherwise exactly one loss event and no draw from
     * the negative table.
     */
    method UpdatePair(ids1: seq<int>, ids2: seq<int>, target: nat)
      requires PairTrains(params, ids1, ids2) ==> target < clsNumber
      modifies this
      ensures randLong == old(randLong) && negTable == old(negTable) && negTableIndex == old(negTableIndex)
      ensures totalLossNum == old(totalLossNum) + (if PairTrains(params, ids1, ids2) then 1 else 0)
    {
      if |ids1| < 1 || |ids2| < 1 || params.boost <= MIN_BOOST {
        return;
      }
      totalLossNum := totalLossNum + 1;
    }

    /**
     * The lookup of round (i, n) in UpdateSkip: the n-gram, its row, and the
     * input it trains, or None where the n-gram loop breaks.
     */
    method RoundLookup(ws: seq<Bytes>, idx: seq<int>, i: nat, n: nat) returns (input: Option<seq<int>>)
      requires Probeable(table.State()) && LookupsEnd(table.State()) && |ws| == |idx| && n >= 1
      ensures input == RoundInput(table.State(), ws, idx, i, n)
    {
      var end := i + n - 1;
      if end >= |ws| {
        return None;
      }
      var s := Ngram(ws, idx, i, end);
      if s == [] {
        return None;
      }
      var pos := table.GetWordPos(s);
      RoundInputFound(table.State(), ws, idx, i, n, pos);
      if pos < 0 {
        return None;
      }
      input := Some([pos] + (if n == 1 then table.rows[pos].subwords else []));
    }

    /** The body of one round of UpdateSkip for radius `b`: both windows, and an update towards each word in them. */
    method WindowRound(idx: seq<int>, st: Step, b: nat) returns (us: seq<Update>)
      requires StepIn(idx, st) && (|negTable| > 0 || params.negSample == 0)
      modifies this
      ensures negTable == old(negTable) && randLong == old(randLong)
      ensures (us, negTableIndex) == RoundUpdates(idx, st, negTable, params.negSample, b, old(negTableIndex))
      ensures totalLossNum == old(totalLossNum) + |us|
    {
      var left := LeftWindow(idx, st.start, b);
      var right := RightWindow(idx, st.end, b);
      assert left + right == Context(idx, st, b);
      var outs := Outputs(idx, left + right);
      us := VisitAll(st.input, {st.input[0] as nat}, outs);
    }

    /** One round of UpdateSkip: the radius drawn from the generator, then the round for it. */
    method SkipRound(idx: seq<int>, st: Step, windowsize: int) returns (us: seq<Update>)
      requires StepIn(idx, st) && (|negTable| > 0 || params.negSample == 0)
      modifies this
      ensures negTable == old(negTable)
      ensures Advance(idx, Run([], old(randLong), old(negTableIndex)), st, negTable, params.negSample, windowsize)
           == Run(us, randLong, negTableIndex)
      ensures totalLossNum == old(totalLossNum) + |us|
    {
      var b := GetRandInt(1, windowsize);
      us := WindowRound(idx, st, b);
      assert [] + us == us;
    }

    /**
     * The n-gram loop of UpdateSkip for start `i`: each round from length 1
     * on, until the n-gram runs past the list, is empty or is not in the
     * lexicon, or `ngram` is reached.
     */
    method SkipFrom(ws: seq<Bytes>, idx: seq<int>, i: nat, ngram: nat, windowsize: int, ghost inputs: seq<Option<seq<int>>>)
      returns (us: seq<Update>)
      requires Probeable(table.State()) && LookupsEnd(table.State()) && |ws| == |idx|
      requires |inputs| == ngram && InputsFit(idx, i, inputs)
      requires forall m :: 1 <= m <= ngram ==> RoundInput(table.State(), ws, idx, i, m) == inputs[m - 1]
      requires |negTable| > 0 || params.negSample == 0
      modifies this
      ensures negTable == old(negTable)
      ensures Plan(idx, StepsOf(idx, i, inputs, 1), negTable, params.negSample, windowsize, old(randLong), old(negTableIndex))
           == Run(us, randLong, negTableIndex)
      ensures totalLossNum == old(totalLossNum) + |us|
    {
      ghost var r0, c0 := randLong, negTableIndex;
      ghost var t := table.State();
      us := [];
      var n := 1;
      var stop := false;
      ghost var done: seq<Step> := [];
      while n <= ngram && !stop
        invariant 1 <= n <= ngram + 1 && negTable == old(negTable) && table.State() == t
        invariant forall k :: 0 <= k < n - 1 ==> inputs[k].Some?
        invariant stop ==> n <= ngram && inputs[n - 1].None?
        invariant done == StepsUntil(idx, i, inputs, n)
        invariant Plan(idx, done, negTable, params.negSample, windowsize, r0, c0) == Run(us, randLong, negTableIndex)
        invariant totalLossNum == old(totalLossNum) + |us|
        decreases ngram + 1 - n, !stop
      {
        var input := LookupRound(ws, idx, i, n, inputs, t);
        stop, us, n, done := SkipNth(idx, i, n, windowsize, input, inputs, us, r0, c0, done);
      }
      StepsOfUntil(idx, i, inputs, n);
    }

    /** The lookup of round (i, n) of UpdateSkip, known as the n-th of `inputs`. */
    method LookupRound(ws: seq<Bytes>, idx: seq<int>, i: nat, n: nat, ghost inputs: seq<Option<seq<int>>>, ghost t: Table)
      returns (input: Option<seq<int>>)
      requires t == table.State() && Probeable(t) && LookupsEnd(t) && |ws| == |idx| && 1 <= n <= |inputs|
      requires forall m :: 1 <= m <= |inputs| ==> RoundInput(t, ws, idx, i, m) == inputs[m - 1]
      ensures input == inputs[n - 1]
    {
      input := RoundLookup(ws, idx, i, n);
    }

    /** Round n of the n-gram loop of UpdateSkip, given its lookup: a break, or the round run after those before it. */
    method SkipNth(idx: seq<int>, i: nat, n: nat, windowsize: int, input: Option<seq<int>>, ghost inputs: seq<Option<seq<int>>>,
                   before: seq<Update>, ghost r0: nat, ghost c0: nat, ghost done: seq<Step>)
      returns (stop: bool, after: seq<Update>, n': nat, ghost done': seq<Step>)
      requires 1 <= n <= |inputs| && inputs[n - 1] == input && InputsFit(idx, i, inputs)
      requires forall k :: 0 <= k < n - 1 ==> inputs[k].Some?
      requires |negTable| > 0 || params.negSample == 0
      requires done == StepsUntil(idx, i, inputs, n)
      requires Plan(idx, done, negTable, params.negSample, windowsize, r0, c0) == Run(before, randLong, negTableIndex)
      modifies this
      ensures negTable == old(negTable)
      ensures stop == input.None? && n' == if stop then n else n + 1
      ensures forall k :: 0 <= k < n' - 1 ==> inputs[k].Some?
      ensures stop ==> inputs[n' - 1].None?
      ensures done' == StepsUntil(idx, i, inputs, n')
      ensures Plan(idx, done', negTable, params.negSample, windowsize, r0, c0) == Run(after, randLong, negTableIndex)
      ensures totalLossNum + |before| == old(totalLossNum) + |after|
    {
      stop := input.None?;
      if stop {
        return stop, before, n, done;
      }
      ghost var prev := Run(before, randLong, negTableIndex);
      var round := SkipRound(idx, Step(i, i + n - 1, input.value), windowsize);
      PlanUntilNext(idx, i, inputs, n, negTable, params.negSample, windowsize, r0, c0, prev, Run(round, randLong, negTableIndex));
      stop, after, n', done' := false, before + round, n + 1, StepsUntil(idx, i, inputs, n + 1);
      assert Plan(idx, done', negTable, params.negSample, windowsize, r0, c0) == Run(after, randLong, negTableIndex);
      assert totalLossNum + |before| == old(totalLossNum) + |after|;
    }

    /**
     * UpdateSkip(text): the words of the text, nothing when their number is
     * outside [minlen, maxlen]; otherwise RandomDiscard and then every round
     * of every start, as SkipRun describes.
     */
    method UpdateSkip(text: Bytes, draws: seq<real>, rate: RateFormula, ngram: nat, windowsize: int, minlen: int, maxlen: int)
      returns (updates: seq<Update>)
      requires ngram >= 1
      requires Canonical(table.State()) && |table.rows| < table.slots.Length
      requires |negTable| > 0 || params.negSample == 0
      requires var ws := NonEmpty(Split(text, SPACE));
        |draws| == |ws| && (minlen <= |ws| <= maxlen ==> DiscardWords(table.State(), ws, draws, params.boostFreqSample, rate).Some?)
      modifies this
      ensures negTable == old(negTable)
      ensures var ws := NonEmpty(Split(text, SPACE));
        (|ws| < minlen || |ws| > maxlen) ==>
          updates == [] && randLong == old(randLong) && negTableIndex == old(negTableIndex) && totalLossNum == old(totalLossNum)
      ensures var ws := NonEmpty(Split(text, SPACE));
        minlen <= |ws| <= maxlen ==>
          var idx := DiscardWords(table.State(), ws, draws, params.boostFreqSample, rate).value;
          SkipRun(table.State(), ws, idx, ngram, windowsize, negTable, params.negSample, old(randLong), old(negTableIndex))
            == Run(updates, randLong, negTableIndex)
          && totalLossNum == old(totalLossNum) + |updates|
    {
      var ws := GetSegedWordList(text);
      if |ws| < minlen || |ws| > maxlen {
        return [];
      }
      var idx := table.RandomDiscardWords(ws, draws, params.boostFreqSample, rate);
      FindInSpace(table.State());
      updates := SkipAll(ws, idx, ngram, windowsize);
    }

    /** The start loop of UpdateSkip: the n-gram loop for every start in turn. */
    method SkipAll(ws: seq<Bytes>, idx: seq<int>, ngram: nat, windowsize: int) returns (updates: seq<Update>)
      requires Probeable(table.State()) && LookupsEnd(table.State()) && |ws| == |idx|
      requires |negTable| > 0 || params.negSample == 0
      modifies this
      ensures negTable == old(negTable)
      ensures SkipRun(table.State(), ws, idx, ngram, windowsize, negTable, params.negSample, old(randLong), old(negTableIndex))
           == Run(updates, randLong, negTableIndex)
      ensures totalLossNum == old(totalLossNum) + |updates|
    {
      ghost var t := table.State();
      ghost var r0, c0 := randLong, negTableIndex;
      ghost var all := AllInputsFlat(t, ws, idx, ngram, negTable, params.negSample, windowsize, r0, c0);
      updates := [];
      var i := 0;
      while i < |ws|
        invariant 0 <= i <= |ws| && negTable == old(negTable) && table.State() == t
        invariant Plan(idx, StepsUpTo(idx, all, i), negTable, params.negSample, windowsize, r0, c0) == Run(updates, randLong, negTableIndex)
        invariant totalLossNum == old(totalLossNum) + |updates|
      {
        updates, i := SkipStart(ws, idx, i, ngram, windowsize, all, updates, r0, c0, t);
      }
      assert i == |ws|;
    }

    /** One pass of the start loop of UpdateSkip: the n-gram loop for start `i`, after those of the starts before it. */
    method SkipStart(ws: seq<Bytes>, idx: seq<int>, i: nat, ngram: nat, windowsize: int, ghost all: seq<seq<Option<seq<int>>>>,
                     before: seq<Update>, ghost r0: nat, ghost c0: nat, ghost t: Table) returns (after: seq<Update>, i': nat)
      requires t == table.State() && Probeable(t) && LookupsEnd(t) && |ws| == |idx| && i < |ws|
      requires |all| == |ws| && AllFit(idx, all) && forall j :: 0 <= j < |ws| ==> |all[j]| == ngram
      requires forall j, m :: 0 <= j < |ws| && 1 <= m <= ngram ==> RoundInput(t, ws, idx, j, m) == all[j][m - 1]
      requires |negTable| > 0 || params.negSample == 0
      requires Plan(idx, StepsUpTo(idx, all, i), negTable, params.negSample, windowsize, r0, c0) == Run(before, randLong, negTableIndex)
      modifies this
      ensures negTable == old(negTable) && i' == i + 1
      ensures Plan(idx, StepsUpTo(idx, all, i'), negTable, params.negSample, windowsize, r0, c0) == Run(after, randLong, negTableIndex)
      ensures totalLossNum + |before| == old(totalLossNum) + |after|
    {
      var us := SkipFrom(ws, idx, i, ngram, windowsize, all[i]);
      PlanAppend(idx, StepsUpTo(idx, all, i), StepsOf(idx, i, all[i], 1), negTable, params.negSample, windowsize, r0, c0);
      after, i' := before + us, i + 1;
    }

    /**
     * InitNegTable(): every sampled row of the word table, in row order, as
     * many times as `copies` says, appended to the table.
     */
    method InitNegTable(copies: nat -> nat)
      modifies this
      ensures negTable == old(negTable) + NegRows(table.rows, copies)
      ensures totalLossNum == old(totalLossNum) && randLong == old(randLong) && negTableIndex == old(negTableIndex)
    {
      var rows := table.rows;
      var i := 0;
      while i < |rows|
        invariant 0 <= i <= |rows| && negTable == old(negTable) + NegRows(rows[..i], copies)
        invariant totalLossNum == old(totalLossNum) && randLong == old(randLong) && negTableIndex == old(negTableIndex)
      {
        NegRowsStep(rows, copies, i);
        if |rows[i].subwords| > 0 {
          PushCopies(i, copies(i));
        }
        i := i + 1;
      }
      assert rows[..i] == rows;
    }

    /**
     * InitNegTable(tag_count_map), `keys` being the map's keys in its
     * order: `false`, and nothing added, where the source stops on a sum
     * that is not positive; otherwise each label of this model's tag,
     * `copies(key)` times, appended to the table.
     */
    method InitNegTableOfCounts(counts: map<Bytes, nat>, keys: seq<Bytes>, copies: Bytes -> nat) returns (ok: bool)
      requires forall k :: k in keys <==> k in counts
      requires forall i, j :: 0 <= i < j < |keys| ==> keys[i] != keys[j]
      modifies this
      ensures ok == Weighted(keys, counts, tag)
      ensures ok ==> negTable == old(negTable) + NegLabels(keys, tag, copies)
      ensures !ok ==> negTable == old(negTable)
      ensures totalLossNum == old(totalLossNum) && randLong == old(randLong) && negTableIndex == old(negTableIndex)
    {
      ok := SumPositive(counts, keys);
      if !ok {
        return;
      }
      PushLabels(keys, copies);
    }

    /** The second loop of InitNegTable(tag_count_map): the copies of every label of this tag. */
    method PushLabels(keys: seq<Bytes>, copies: Bytes -> nat)
      modifies this
      ensures negTable == old(negTable) + NegLabels(keys, tag, copies)
      ensures totalLossNum == old(totalLossNum) && randLong == old(randLong) && negTableIndex == old(negTableIndex)
    {
      var i := 0;
      while i < |keys|
        invariant 0 <= i <= |keys| && negTable == old(negTable) + NegLabels(keys[..i], tag, copies)
        invariant totalLossNum == old(totalLossNum) && randLong == old(randLong) && negTableIndex == old(negTableIndex)
      {
        NegLabelsStep(keys, tag, copies, i);
        PushLabel(keys[i], copies);
        i := i + 1;
      }
      assert keys[..i] == keys;
    }

    /** One key of the second loop: the copies of its label, when it is a label of this tag. */
    method PushLabel(key: Bytes, copies: Bytes -> nat)
      modifies this
      ensures negTable == old(negTable) + LabelCopies(key, tag, copies)
      ensures totalLossNum == old(totalLossNum) && randLong == old(randLong) && negTableIndex == old(negTableIndex)
    {
      var l := ReadKeyLabel(key);
      if l.Some? {
        PushCopies(l.value, copies(key));
      }
    }

    /** The first loop of InitNegTable(tag_count_map): whether the sum over the keys of this tag is positive. */
    method SumPositive(counts: map<Bytes, nat>, keys: seq<Bytes>) returns (ok: bool)
      requires forall k :: k in keys ==> k in counts
      ensures ok == Weighted(keys, counts, tag)
    {
      ok := false;
      var i := 0;
      while i < |keys|
        invariant 0 <= i <= |keys|
        invariant ok <==> exists j :: 0 <= j < i && FirstField(keys[j]) == tag && counts[keys[j]] > 0
      {
        var parts := StringSplit(keys[i], [TAB]);
        if parts[0] == tag && counts[keys[i]] > 0 {
          ok := true;
        }
        i := i + 1;
      }
    }

    /** The label a key gives this model, read as the second loop reads it. */
    method ReadKeyLabel(key: Bytes) returns (l: Option<nat>)
      ensures l == KeyLabel(key, tag)
    {
      l := None;
      var parts := StringSplit(key, [TAB]);
      if |parts| != 2 {
        return;
      }
      var target := ParseInt(parts[1]);
      if target < 0 {
        return;
      }
      assert ES.EvalKey(key) == Some((parts[0], target));
      if parts[0] == tag {
        l := Some(target);
      }
    }

    /** `n` copies of `x` pushed on the table. */
    method PushCopies(x: nat, n: nat)
      modifies this
      ensures negTable == old(negTable) + Copies(x, n)
      ensures totalLossNum == old(totalLossNum) && randLong == old(randLong) && negTableIndex == old(negTableIndex)
    {
      var j := 0;
      while j < n
        invariant 0 <= j <= n && negTable == old(negTable) + Copies(x, j)
        invariant totalLossNum == old(totalLossNum) && randLong == old(randLong) && negTableIndex == old(negTableIndex)
      {
        assert Copies(x, j + 1) == Copies(x, j) + [x];
        negTable := negTable + [x];
        j := j + 1;
      }
    }
  }

  /** The number of steps from cursor `c` to slot `target` of a table of `n` slots: 1 to n. */
  lemma CyclicDistance(c: nat, target: nat, n: nat) returns (d: nat)
    requires n > 0 && target < n
    ensures 1 <= d <= n && (c + d) % n == target
  {
    var r := c % n;
    d := if target > r then target - r else target - r + n;
    ModUnique(c + d, n, c / n + (if target > r then 0 else 1), target);
  }
}
