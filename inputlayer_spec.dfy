/**
 * What the input layer of layers/inputlayer.cc computes, as functions on
 * the abstract state: the embedding matrix as a flat row-major sequence
 * `m` with `row` rows of `col` values, the lexicon as a HashTableSpec
 * table. The uniform draws of the generators are a stream `draw`, the
 * k-th value drawn being `draw(k)`; `std::sqrt` is the parameter `root`.
 */
module InputLayerSpec {
  import opened Wrappers
  import opened Bytes
  import opened BasicUtil
  import opened TextUtil
  import opened MatrixUtil
  import opened HashTableSpec
  import opened HashTableDiscard
  import S = HashTableStore

  /** The settings GetIdxVec reads from the configuration. */
  datatype Conf = Conf(minlen: int, maxlen: int, ngram: nat)

  /** `n` draws of the stream, starting at the `from`-th. */
  function Draws(draw: nat -> real, from: nat, n: nat): (r: seq<real>)
    ensures |r| == n && forall k :: 0 <= k < n ==> r[k] == draw(from + k)
  {
    seq(n, k requires 0 <= k < n => draw(from + k))
  }

  /** `n` zeros: the layer a caller starts from. */
  function Zeros(n: nat): (r: seq<real>)
    ensures |r| == n && forall j :: 0 <= j < n ==> r[j] == 0.0
  {
    seq(n, _ => 0.0)
  }

  // ---------------------------------------------------------------------
  // GetIdxVec

  /**
   * The phrase part of GetIdxVec: the rows of the n-grams that are in the
   * table, thinned by RandomDiscard with the draws from the `from`-th on.
   */
  function PhraseIds(t: Table, words: seq<Bytes>, ngram: nat, draw: nat -> real, from: nat, boost: real, rate: RateFormula): Option<seq<int>>
    requires Canonical(t)
  {
    var ids :- Positions(t, NgramList(words, ngram), false);
    DiscardIds(t, ids, Draws(draw, from, |ids|), boost, rate)
  }

  /**
   * GetIdxVec(text): nothing when the number of words is outside
   * [minlen, maxlen]; otherwise the rows of the words RandomDiscard keeps,
   * then the subword rows of those words, then (with `usephrase` and
   * n-grams configured) the rows of the kept phrases. RandomDiscard of the
   * words draws once per word unless a boosted sample meets no training
   * words; the phrase draws follow. `None` stands for a lookup that never
   * ends or an unguarded read out of range.
   */
  function IdxVec(t: Table, text: Bytes, c: Conf, usephrase: bool, draw: nat -> real, boost: real, rate: RateFormula): Option<seq<int>>
    requires Canonical(t)
  {
    var words := NonEmpty(Split(text, SPACE));
    if |words| < c.minlen || |words| > c.maxlen then Some([])
    else
      var marked :- DiscardWords(t, words, Draws(draw, 0, |words|), boost, rate);
      var subs :- SubWordLists(t, words, marked);
      var used := if Boosted(boost) && t.trainWords <= 0 then 0 else |words|;
      var phrases :- if usephrase && c.ngram > 1 then PhraseIds(t, words, c.ngram, draw, used, boost, rate) else Some([]);
      Some(Found(marked) + subs + phrases)
  }

  lemma FoundMembers(s: seq<int>)
    ensures forall k :: 0 <= k < |Found(s)| ==> Found(s)[k] in s
  {
    if s != [] {
      FoundMembers(s[..|s| - 1]);
    }
  }

  lemma {:induction false} SubseqMembers(a: seq<int>, b: seq<int>)
    requires SubseqOf(a, b)
    ensures forall k :: 0 <= k < |a| ==> a[k] in b
    decreases |b|
  {
    if a != [] {
      var n := |b| - 1;
      if a[|a| - 1] == b[n] && SubseqOf(a[..|a| - 1], b[..n]) {
        SubseqMembers(a[..|a| - 1], b[..n]);
      } else {
        SubseqMembers(a, b[..n]);
      }
    }
  }

  /** Every phrase id names a row. */
  lemma PhraseIdsRows(t: Table, words: seq<Bytes>, ngram: nat, draw: nat -> real, from: nat, boost: real, rate: RateFormula)
    requires Canonical(t) && |t.rows| < |t.slots|
    requires PhraseIds(t, words, ngram, draw, from, boost, rate).Some?
    ensures var p := PhraseIds(t, words, ngram, draw, from, boost, rate).value;
      forall k :: 0 <= k < |p| ==> 0 <= p[k] < |t.rows|
  {
    var ng := NgramList(words, ngram);
    PositionsDropMissing(t, ng);
    PositionsKeepout(t, ng);
    var all := Positions(t, ng, true).value;
    FindsRowOrMinusOne(t, ng, all);
    var ids := Positions(t, ng, false).value;
    FoundMembers(all);
    DiscardIdsSubseq(t, ids, Draws(draw, from, |ids|), boost, rate);
    SubseqMembers(PhraseIds(t, words, ngram, draw, from, boost, rate).value, ids);
  }

  /**
   * Every index GetIdxVec returns names a row of the table, so the
   * embedding lookups that follow never fall outside the matrix.
   */
  lemma IdxVecRows(t: Table, text: Bytes, c: Conf, usephrase: bool, draw: nat -> real, boost: real, rate: RateFormula)
    requires Canonical(t) && |t.rows| < |t.slots| && SubwordsInRange(t.rows)
    requires IdxVec(t, text, c, usephrase, draw, boost, rate).Some?
    ensures var v := IdxVec(t, text, c, usephrase, draw, boost, rate).value;
      forall k :: 0 <= k < |v| ==> 0 <= v[k] < |t.rows|
  {
    var words := NonEmpty(Split(text, SPACE));
    if c.minlen <= |words| <= c.maxlen {
      var marked := DiscardWords(t, words, Draws(draw, 0, |words|), boost, rate).value;
      var subs := SubWordLists(t, words, marked).value;
      var used := if Boosted(boost) && t.trainWords <= 0 then 0 else |words|;
      var phrases := if usephrase && c.ngram > 1 then PhraseIds(t, words, c.ngram, draw, used, boost, rate).value else [];
      assert IdxVec(t, text, c, usephrase, draw, boost, rate).value == Found(marked) + subs + phrases;
      assert RowIds(Found(marked), |t.rows|) by {
        FoundMembers(marked);
      }
      assert RowIds(phrases, |t.rows|) by {
        if usephrase && c.ngram > 1 {
          PhraseIdsRows(t, words, c.ngram, draw, used, boost, rate);
        }
      }
      RowIdsConcat(Found(marked), subs, phrases, |t.rows|);
    }
  }

  /** Every id names one of `n` rows. */
  predicate RowIds(v: seq<int>, n: nat)
  {
    forall k :: 0 <= k < |v| ==> 0 <= v[k] < n
  }

  lemma RowIdsConcat(a: seq<int>, b: seq<int>, c: seq<int>, n: nat)
    requires RowIds(a, n) && RowIds(b, n) && RowIds(c, n)
    ensures RowIds(a + b + c, n)
  {
    forall k | 0 <= k < |a + b + c|
      ensures 0 <= (a + b + c)[k] < n
    {
      if k >= |a| + |b| {
        assert (a + b + c)[k] == c[k - |a| - |b|];
      } else if k >= |a| {
        assert (a + b + c)[k] == b[k - |a|];
      }
    }
  }

  // ---------------------------------------------------------------------
  // GetLayerByIdxs

  /**
   * GetLayerByIdxs(word_idx, layer, rate): `rate` times row `id` added to
   * the layer, or the layer unchanged for an index outside the matrix.
   */
  function Gathered(m: seq<real>, row: nat, col: nat, layer: seq<real>, id: int, rate: real): (r: seq<real>)
    requires |layer| == col && row * col <= |m|
    ensures |r| == col
  {
    if id < 0 || id >= row then layer
    else
      AllRowsIn(|m|, row, col);
      AddScaled(layer, Row(m, id, col), rate)
  }

  /** Whether each id is skipped: with `useDiscard`, when its draw exceeds GetDiscardRate of it as `uint32_t`. */
  function Skips(t: Table, ids: seq<int>, draws: seq<real>, useDiscard: bool, boost: real, rate: RateFormula): (r: Option<seq<bool>>)
    requires |draws| == |ids|
    ensures r.Some? ==> |r.value| == |ids|
  {
    if ids == [] then Some([])
    else
      var n := |ids| - 1;
      var prev :- Skips(t, ids[..n], draws[..n], useDiscard, boost, rate);
      if !useDiscard then Some(prev + [false])
      else
        var thr :- DiscardRate(t, ids[n] % S.U32, boost, rate);
        Some(prev + [draws[n] > thr])
  }

  /** The skips of one more id extend those of the shorter list by its own coin. */
  lemma SkipsStep(t: Table, ids: seq<int>, draws: seq<real>, useDiscard: bool, boost: real, rate: RateFormula, i: nat)
    requires |draws| == |ids| && i < |ids| && Skips(t, ids, draws, useDiscard, boost, rate).Some?
    ensures var skip := Skips(t, ids, draws, useDiscard, boost, rate).value;
      Skips(t, ids[..i + 1], draws[..i + 1], useDiscard, boost, rate) == Some(skip[..i + 1])
      && (useDiscard ==> DiscardRate(t, ids[i] % S.U32, boost, rate).Some?)
      && (useDiscard ==> skip[i] == (draws[i] > DiscardRate(t, ids[i] % S.U32, boost, rate).value))
      && (!useDiscard ==> !skip[i])
    decreases |ids|
  {
    var n := |ids| - 1;
    var skip := Skips(t, ids, draws, useDiscard, boost, rate).value;
    var front := Skips(t, ids[..n], draws[..n], useDiscard, boost, rate);
    assert front.Some? && skip[..n] == front.value;
    assert ids[..n + 1] == ids && draws[..n + 1] == draws && skip[..n + 1] == skip;
    if i < n {
      SkipsStep(t, ids[..n], draws[..n], useDiscard, boost, rate, i);
      assert ids[..n][..i + 1] == ids[..i + 1] && draws[..n][..i + 1] == draws[..i + 1];
      assert skip[..n][..i + 1] == skip[..i + 1] && skip[..n][i] == skip[i];
    }
  }

  /** The layer with every id that is not skipped added in, in order. */
  function Summed(m: seq<real>, row: nat, col: nat, layer: seq<real>, ids: seq<int>, skip: seq<bool>): (r: seq<real>)
    requires |layer| == col && row * col <= |m| && |skip| == |ids|
    ensures |r| == col
  {
    if ids == [] then layer
    else
      var n := |ids| - 1;
      var prev := Summed(m, row, col, layer, ids[..n], skip[..n]);
      if skip[n] then prev else Gathered(m, row, col, prev, ids[n], 1.0)
  }

  /** One more id: its row is added unless it is skipped, and the count of ids taken moves with it. */
  lemma SummedStep(m: seq<real>, row: nat, col: nat, layer: seq<real>, ids: seq<int>, skip: seq<bool>, i: nat)
    requires |layer| == col && row * col <= |m| && |skip| == |ids| && i < |ids|
    ensures Summed(m, row, col, layer, ids[..i + 1], skip[..i + 1])
         == if skip[i] then Summed(m, row, col, layer, ids[..i], skip[..i])
            else Gathered(m, row, col, Summed(m, row, col, layer, ids[..i], skip[..i]), ids[i], 1.0)
    ensures Taken(skip[..i + 1]) == Taken(skip[..i]) + (if skip[i] then 0 else 1)
  {
    assert ids[..i + 1][..i] == ids[..i] && skip[..i + 1][..i] == skip[..i];
  }

  /** The number of ids not skipped. */
  function Taken(skip: seq<bool>): (k: nat)
    ensures k <= |skip|
  {
    if skip == [] then 0 else Taken(skip[..|skip| - 1]) + (if skip[|skip| - 1] then 0 else 1)
  }

  /** Every entry divided by `d`. */
  function Divided(v: seq<real>, d: real): (r: seq<real>)
    requires d != 0.0
    ensures |r| == |v| && forall j :: 0 <= j < |v| ==> r[j] == v[j] / d
  {
    seq(|v|, j requires 0 <= j < |v| => v[j] / d)
  }

  /**
   * GetLayerByIdxs(word_idx_vec, layer, ...) as written: the divisor starts
   * at the number of ids and grows by one for every id taken, so it counts
   * the taken ids twice over.
   */
  function PooledAsWritten(m: seq<real>, row: nat, col: nat, layer: seq<real>, ids: seq<int>, skip: seq<bool>): (r: seq<real>)
    requires |layer| == col && row * col <= |m| && |skip| == |ids|
    ensures |r| == col
  {
    var size := |ids| + Taken(skip);
    var s := Summed(m, row, col, layer, ids, skip);
    if size > 1 then Divided(s, size as real) else s
  }

  /** GetLayerByIdxs(word_idx_vec, layer, ...) with the divisor the number of ids taken: the mean of their rows. */
  function Pooled(m: seq<real>, row: nat, col: nat, layer: seq<real>, ids: seq<int>, skip: seq<bool>): (r: seq<real>)
    requires |layer| == col && row * col <= |m| && |skip| == |ids|
    ensures |r| == col
  {
    var size := Taken(skip);
    var s := Summed(m, row, col, layer, ids, skip);
    if size > 1 then Divided(s, size as real) else s
  }

  /** The layer one in-range row leaves on a zero layer is that row. */
  lemma GatheredFromZero(m: seq<real>, row: nat, col: nat, id: int)
    requires row * col <= |m| && 0 <= id < row
    ensures RowIn(|m|, id, col) && Gathered(m, row, col, Zeros(col), id, 1.0) == Row(m, id, col)
  {
    AllRowsIn(|m|, row, col);
  }

  /** As written, a single taken row comes back halved. */
  lemma PooledAsWrittenHalves(m: seq<real>, row: nat, col: nat, id: int)
    requires row * col <= |m| && 0 <= id < row
    ensures RowIn(|m|, id, col)
    ensures PooledAsWritten(m, row, col, Zeros(col), [id], [false]) == Divided(Row(m, id, col), 2.0)
  {
    SummedOne(m, row, col, id);
    assert Taken([false]) == 1;
  }

  lemma SummedOne(m: seq<real>, row: nat, col: nat, id: int)
    requires row * col <= |m| && 0 <= id < row
    ensures RowIn(|m|, id, col) && Summed(m, row, col, Zeros(col), [id], [false]) == Row(m, id, col)
  {
    GatheredFromZero(m, row, col, id);
    assert [id][..0] == [] && [false][..0] == [];
    assert Summed(m, row, col, Zeros(col), [], []) == Zeros(col);
  }

  /** With the divisor corrected, a single taken row comes back as it is. */
  lemma PooledOneRow(m: seq<real>, row: nat, col: nat, id: int)
    requires row * col <= |m| && 0 <= id < row
    ensures RowIn(|m|, id, col)
    ensures Pooled(m, row, col, Zeros(col), [id], [false]) == Row(m, id, col)
  {
    SummedOne(m, row, col, id);
    assert Taken([false]) == 1;
  }

  /** Two taken rows pool to their mean, entry by entry. */
  lemma PooledTwoRows(m: seq<real>, row: nat, col: nat, a: int, b: int)
    requires row * col <= |m| && 0 <= a < row && 0 <= b < row
    ensures RowIn(|m|, a, col) && RowIn(|m|, b, col)
    ensures var r := Pooled(m, row, col, Zeros(col), [a, b], [false, false]);
      forall j :: 0 <= j < col ==> r[j] == (Row(m, a, col)[j] + Row(m, b, col)[j]) / 2.0
  {
    SummedOne(m, row, col, a);
    AllRowsIn(|m|, row, col);
    assert [a, b][..1] == [a] && [false, false][..1] == [false];
    var s := Summed(m, row, col, Zeros(col), [a, b], [false, false]);
    assert s == AddScaled(Row(m, a, col), Row(m, b, col), 1.0);
    assert Taken([false, false]) == 2;
    assert Pooled(m, row, col, Zeros(col), [a, b], [false, false]) == Divided(s, 2.0);
  }

  /** Ids outside the matrix and skipped ids add nothing, but only skipped ids leave the divisor. */
  lemma SkippedOrOutsideAddNothing(m: seq<real>, row: nat, col: nat, layer: seq<real>, ids: seq<int>, skip: seq<bool>, id: int, s: bool)
    requires |layer| == col && row * col <= |m| && |skip| == |ids|
    requires s || id < 0 || id >= row
    ensures Summed(m, row, col, layer, ids + [id], skip + [s]) == Summed(m, row, col, layer, ids, skip)
    ensures Taken(skip + [s]) == Taken(skip) + (if s then 0 else 1)
  {
    assert (ids + [id])[..|ids|] == ids && (skip + [s])[..|skip|] == skip;
    var prev := Summed(m, row, col, layer, ids, skip);
    if !s {
      assert Gathered(m, row, col, prev, id, 1.0) == prev;
    }
  }

  // ---------------------------------------------------------------------
  // UpdateData

  /** The 32-bit view of a signed 32-bit index: a negative one becomes very large. */
  function AsUnsigned(id: int): (u: nat)
    ensures u < S.U32
  {
    id % S.U32
  }

  /**
   * UpdateData(input_idx, add_vec, rate): `rate * v` added to row `id`,
   * unless the index read as `uint32_t` is past the last row.
   */
  function Updated(m: seq<real>, row: nat, col: nat, id: int, v: seq<real>, rate: real): (r: seq<real>)
    requires |v| == col && row * col <= |m|
    ensures |r| == |m|
  {
    if AsUnsigned(id) >= row then m
    else
      AllRowsIn(|m|, row, col);
      AddToRow(m, AsUnsigned(id), col, v, rate)
  }

  /**
   * For a signed 32-bit index and fewer than 2^31 rows, the unsigned guard
   * rejects exactly the negative indices and those past the last row, and
   * lets the others through unchanged.
   */
  lemma UnsignedGuard(id: int, row: nat)
    requires -0x8000_0000 <= id < 0x8000_0000 && row <= 0x8000_0000
    ensures AsUnsigned(id) >= row <==> id < 0 || id >= row
    ensures 0 <= id ==> AsUnsigned(id) == id
  {
    if id < 0 {
      assert AsUnsigned(id) == id + S.U32;
    }
  }

  /** Every id in turn. */
  function UpdatedAll(m: seq<real>, row: nat, col: nat, ids: seq<int>, v: seq<real>, rate: real): (r: seq<real>)
    requires |v| == col && row * col <= |m|
    ensures |r| == |m|
  {
    if ids == [] then m else Updated(UpdatedAll(m, row, col, ids[..|ids| - 1], v, rate), row, col, ids[|ids| - 1], v, rate)
  }

  /** UpdateData(input_vec, add_vec, rate): nothing for no ids, otherwise every id with `rate` shared out among them. */
  function UpdatedList(m: seq<real>, row: nat, col: nat, ids: seq<int>, v: seq<real>, rate: real): (r: seq<real>)
    requires |v| == col && row * col <= |m|
    ensures |r| == |m|
  {
    if ids == [] then m else UpdatedAll(m, row, col, ids, v, rate / |ids| as real)
  }

  /** A row no id names keeps its values through every update. */
  lemma {:induction false} UpdatedAllOtherRows(m: seq<real>, row: nat, col: nat, ids: seq<int>, v: seq<real>, rate: real, k: nat)
    requires |v| == col && row * col <= |m| && k < row
    requires forall i :: 0 <= i < |ids| ==> AsUnsigned(ids[i]) != k
    ensures RowIn(|m|, k, col) && Row(UpdatedAll(m, row, col, ids, v, rate), k, col) == Row(m, k, col)
  {
    AllRowsIn(|m|, row, col);
    if ids != [] {
      var n := |ids| - 1;
      var prev := UpdatedAll(m, row, col, ids[..n], v, rate);
      UpdatedAllOtherRows(m, row, col, ids[..n], v, rate, k);
      if AsUnsigned(ids[n]) < row {
        AddToRowOtherRows(prev, AsUnsigned(ids[n]), col, v, rate, k);
      }
    }
  }

  /** A list of one id gives that row the whole of `rate * v`. */
  lemma UpdatedListOneRow(m: seq<real>, row: nat, col: nat, id: nat, v: seq<real>, rate: real)
    requires |v| == col && row * col <= |m| && id < row < S.U32
    ensures RowIn(|m|, id, col)
    ensures UpdatedList(m, row, col, [id], v, rate) == AddToRow(m, id, col, v, rate)
  {
    var share := rate / |[id]| as real;
    assert share == rate by {
      assert |[id]| as real == 1.0;
    }
    assert UpdatedList(m, row, col, [id], v, rate) == UpdatedAll(m, row, col, [id], v, share);
    UpdatedAllOne(m, row, col, id, v, rate);
  }

  lemma UpdatedAllOne(m: seq<real>, row: nat, col: nat, id: nat, v: seq<real>, rate: real)
    requires |v| == col && row * col <= |m| && id < row < S.U32
    ensures RowIn(|m|, id, col)
    ensures UpdatedAll(m, row, col, [id], v, rate) == AddToRow(m, id, col, v, rate)
  {
    AllRowsIn(|m|, row, col);
    assert [id][..0] == [];
    assert AsUnsigned(id) == id;
  }

  // ---------------------------------------------------------------------
  // GetNearestNeighbor

  /** `abs(x) < 1e-6 ? 1 : x`: a norm too small to divide by is replaced by 1. */
  function NonZero(x: real): (r: real)
    ensures r != 0.0
    ensures (x <= -0.000001 || x >= 0.000001) ==> r == x
  {
    if -0.000001 < x < 0.000001 then 1.0 else x
  }

  /** Whether a word is listed for the query type: "_word" leaves out words with '_', "_phrase" keeps only those. */
  predicate Listed(word: Bytes, queryType: Bytes)
  {
    !(queryType == Lit("_word") && UNDERSCORE in word) && !(queryType == Lit("_phrase") && UNDERSCORE !in word)
  }

  /** The rows the loop visits, in order: below both the matrix size and the table size, and listed. */
  function Candidates(words: seq<Bytes>, n: nat, queryType: Bytes): (r: seq<nat>)
    ensures forall k :: 0 <= k < |r| ==> r[k] < n && r[k] < |words|
  {
    if n == 0 then []
    else Candidates(words, n - 1, queryType) + (if n - 1 < |words| && Listed(words[n - 1], queryType) then [n - 1] else [])
  }

  /** The query: the zero vector with every in-range row of the ids added. */
  function Query(m: seq<real>, row: nat, col: nat, ids: seq<int>): (q: seq<real>)
    requires row * col <= |m|
    ensures |q| == col
  {
    Summed(m, row, col, Zeros(col), ids, seq(|ids|, _ => false))
  }

  /** The cosine score of row `i` against a query with norm `qn`. */
  function Score(m: seq<real>, col: nat, i: nat, q: seq<real>, qn: real, root: real -> real): real
    requires RowIn(|m|, i, col) && |q| == col
  {
    var r := Row(m, i, col);
    Dot(r, q) / NonZero(qn) / NonZero(root(Dot(r, r)))
  }

  /** The (score, row) pairs of the rows `c`, in order. */
  function Scored(m: seq<real>, col: nat, c: seq<nat>, q: seq<real>, qn: real, root: real -> real): (r: seq<(real, nat)>)
    requires |q| == col && forall k :: 0 <= k < |c| ==> RowIn(|m|, c[k], col)
    ensures |r| == |c| && forall k :: 0 <= k < |c| ==> r[k] == (Score(m, col, c[k], q, qn, root), c[k])
  {
    seq(|c|, k requires 0 <= k < |c| => (Score(m, col, c[k], q, qn, root), c[k]))
  }

  /**
   * GetNearestNeighbor(idx_vec, heap, query_type): nothing for no ids;
   * otherwise one (score, row) pair for every candidate row, in order.
   */
  function Neighbors(m: seq<real>, row: nat, col: nat, words: seq<Bytes>, ids: seq<int>, queryType: Bytes, root: real -> real): (r: seq<(real, nat)>)
    requires row * col <= |m|
  {
    if ids == [] then []
    else
      AllRowsIn(|m|, row, col);
      var q := Query(m, row, col, ids);
      Scored(m, col, Candidates(words, row, queryType), q, root(Dot(q, q)), root)
  }

  lemma ScoredSnoc(m: seq<real>, col: nat, c: seq<nat>, i: nat, q: seq<real>, qn: real, root: real -> real)
    requires |q| == col && RowIn(|m|, i, col) && forall k :: 0 <= k < |c| ==> RowIn(|m|, c[k], col)
    ensures Scored(m, col, c + [i], q, qn, root) == Scored(m, col, c, q, qn, root) + [(Score(m, col, i, q, qn, root), i)]
  {
  }

  /** One more row of the table: it joins the candidates exactly when its word is listed. */
  lemma CandidatesStep(words: seq<Bytes>, i: nat, queryType: Bytes)
    requires i < |words|
    ensures !Listed(words[i], queryType) ==> Candidates(words, i + 1, queryType) == Candidates(words, i, queryType)
    ensures Listed(words[i], queryType) ==> Candidates(words, i + 1, queryType) == Candidates(words, i, queryType) + [i]
  {
    assert Candidates(words, i, queryType) + [] == Candidates(words, i, queryType);
  }

  /** Past the end of the table the loop stops: no further candidates. */
  lemma {:induction false} CandidatesPast(words: seq<Bytes>, n: nat, queryType: Bytes)
    requires n >= |words|
    ensures Candidates(words, n, queryType) == Candidates(words, |words|, queryType)
  {
    if n > |words| {
      CandidatesPast(words, n - 1, queryType);
    }
  }

  /** The pairs of the candidates among the first `n` rows: what the loop has found after `n` rows. */
  function ScoredUpTo(m: seq<real>, row: nat, col: nat, words: seq<Bytes>, n: nat, queryType: Bytes, q: seq<real>, qn: real, root: real -> real): (r: seq<(real, nat)>)
    requires row * col <= |m| && n <= row && |q| == col
  {
    AllRowsIn(|m|, row, col);
    Scored(m, col, Candidates(words, n, queryType), q, qn, root)
  }

  /** One more row: its pair joins the found ones exactly when its word is listed. */
  lemma ScoredUpToStep(m: seq<real>, row: nat, col: nat, words: seq<Bytes>, i: nat, queryType: Bytes, q: seq<real>, qn: real, root: real -> real)
    requires row * col <= |m| && i < row && i < |words| && |q| == col
    ensures RowIn(|m|, i, col)
    ensures ScoredUpTo(m, row, col, words, i + 1, queryType, q, qn, root) ==
      ScoredUpTo(m, row, col, words, i, queryType, q, qn, root) + (if Listed(words[i], queryType) then [(Score(m, col, i, q, qn, root), i)] else [])
  {
    AllRowsIn(|m|, row, col);
    CandidatesStep(words, i, queryType);
    if Listed(words[i], queryType) {
      ScoredSnoc(m, col, Candidates(words, i, queryType), i, q, qn, root);
    }
  }

  /** Once the rows of the table run out, nothing more is found. */
  lemma ScoredUpToPast(m: seq<real>, row: nat, col: nat, words: seq<Bytes>, i: nat, queryType: Bytes, q: seq<real>, qn: real, root: real -> real)
    requires row * col <= |m| && |words| <= i <= row && |q| == col
    ensures ScoredUpTo(m, row, col, words, row, queryType, q, qn, root) == ScoredUpTo(m, row, col, words, i, queryType, q, qn, root)
  {
    CandidatesPast(words, i, queryType);
    CandidatesPast(words, row, queryType);
  }

  /** For a non-empty id list, the neighbours are the pairs of all `row` rows against the query. */
  lemma NeighborsUpTo(m: seq<real>, row: nat, col: nat, words: seq<Bytes>, ids: seq<int>, queryType: Bytes, root: real -> real)
    requires row * col <= |m| && ids != []
    ensures var q := Query(m, row, col, ids);
      Neighbors(m, row, col, words, ids, queryType, root) == ScoredUpTo(m, row, col, words, row, queryType, q, root(Dot(q, q)), root)
  {
  }

  /** A row is a candidate exactly when it is inside both the matrix and the table and its word is listed. */
  lemma {:induction false} CandidatesExactly(words: seq<Bytes>, n: nat, queryType: Bytes, i: nat)
    ensures i in Candidates(words, n, queryType) <==> i < n && i < |words| && Listed(words[i], queryType)
  {
    if n > 0 {
      CandidatesExactly(words, n - 1, queryType, i);
    }
  }

  /** Candidates come in increasing order, so no row is pushed twice. */
  lemma {:induction false} CandidatesIncreasing(words: seq<Bytes>, n: nat, queryType: Bytes)
    ensures forall a, b :: 0 <= a < b < |Candidates(words, n, queryType)| ==>
      Candidates(words, n, queryType)[a] < Candidates(words, n, queryType)[b]
  {
    if n > 0 {
      CandidatesIncreasing(words, n - 1, queryType);
    }
  }

  /** The pairs GetNearestNeighbor pushes are the candidate rows, each once, with their scores. */
  lemma NeighborsRows(m: seq<real>, row: nat, col: nat, words: seq<Bytes>, ids: seq<int>, queryType: Bytes, root: real -> real, i: nat)
    requires row * col <= |m| && ids != []
    ensures (exists k :: 0 <= k < |Neighbors(m, row, col, words, ids, queryType, root)| && Neighbors(m, row, col, words, ids, queryType, root)[k].1 == i)
        <==> i < row && i < |words| && Listed(words[i], queryType)
  {
    CandidatesExactly(words, row, queryType, i);
    var c := Candidates(words, row, queryType);
    var r := Neighbors(m, row, col, words, ids, queryType, root);
    assert forall k :: 0 <= k < |c| ==> r[k].1 == c[k];
  }
}
