/**
 * The input layer of layers/inputlayer.cc as an object: the word-vector
 * matrix is an array of `row * col` values updated in place, next to the
 * lexicon it indexes. Every method is proved against the functions of
 * InputLayerSpec and LayerText.
 */
module InputLayer {
  import opened Wrappers
  import opened Bytes
  import opened BasicUtil
  import opened TextUtil
  import opened MatrixUtil
  import opened HashTableSpec
  import opened HashTableDiscard
  import opened InputLayerSpec
  import HT = HashTable
  import LT = LayerText
  import S = HashTableStore

  /** Init: the k-th draw of the initialising generator goes to cell k, row after row. */
  method Fill(a: array<real>, row: nat, col: nat, init: nat -> real)
    requires a.Length == row * col
    modifies a
    ensures a[..] == Draws(init, 0, row * col)
  {
    AllRowsIn(a.Length, row, col);
    var i := 0;
    while i < row
      invariant 0 <= i <= row
      invariant forall k :: 0 <= k < i * col ==> a[k] == init(k)
    {
      var base := i * col;
      assert RowIn(a.Length, i, col);
      var j := 0;
      while j < col
        invariant 0 <= j <= col
        invariant forall k :: 0 <= k < base + j ==> a[k] == init(k)
      {
        a[Cell(i, j, col)] := init(Cell(i, j, col));
        j := j + 1;
      }
      NextRow(i, col);
      i := i + 1;
    }
  }

  /** The `remove_if` pass of GetIdxVec: the entries that are not negative, in order. */
  method EraseNegative(s: seq<int>) returns (r: seq<int>)
    ensures r == Found(s)
  {
    r := [];
    var i := 0;
    while i < |s|
      invariant 0 <= i <= |s| && r == Found(s[..i])
    {
      assert s[..i + 1][..i] == s[..i];
      if s[i] >= 0 {
        r := r + [s[i]];
      }
      i := i + 1;
    }
    assert s[..i] == s;
  }

  /** `rate` times row `id` of the matrix added to `vec`, through MatrixGetVec. */
  method AddRow(vec: seq<real>, data: array<real>, id: nat, col: nat, rate: real) returns (r: seq<real>)
    requires |vec| == col && RowIn(data.Length, id, col)
    ensures r == AddScaled(vec, Row(data[..], id, col), rate)
  {
    r := MatrixGetVec(vec, data, id, col, rate);
    assert forall j :: 0 <= j < col ==> r[j] == AddScaled(vec, Row(data[..], id, col), rate)[j];
  }

  /** A fresh array holding `values`. */
  method NewArray(values: seq<real>) returns (a: array<real>)
    ensures fresh(a) && a[..] == values
  {
    a := new real[|values|](k requires 0 <= k < |values| => values[k]);
  }

  /** `layer[i] /= size` over the whole layer. */
  method DivideAll(v: seq<real>, d: real) returns (r: seq<real>)
    requires d != 0.0
    ensures r == Divided(v, d)
  {
    r := v;
    var i := 0;
    while i < |v|
      invariant 0 <= i <= |v| && |r| == |v|
      invariant forall j :: 0 <= j < |v| ==> r[j] == if j < i then v[j] / d else v[j]
    {
      r := r[i := r[i] / d];
      i := i + 1;
    }
  }

  class InputLayer {
    const table: HT.HashTable
    const conf: Conf
    var row: nat
    var col: nat
    var data: array<real>

    /** The matrix holds `row * col` cells; both counts are `uint32_t`. */
    predicate Valid()
      reads this
    {
      data.Length == row * col && row < S.U32 && col < S.U32
    }

    /** InputLayer(conf, hash_table) followed by Init: one row per lexicon row, `dim` columns, filled from `init`. */
    constructor (conf: Conf, dim: nat, ht: HT.HashTable, init: nat -> real)
      requires |ht.rows| < S.U32 && dim < S.U32
      ensures table == ht && this.conf == conf && row == |ht.rows| && col == dim
      ensures Valid() && fresh(data) && data[..] == Draws(init, 0, row * col)
    {
      table := ht;
      this.conf := conf;
      row := |ht.rows|;
      col := dim;
      var a := new real[|ht.rows| * dim];
      Fill(a, |ht.rows|, dim, init);
      data := a;
    }

    /** GetIdxVec(text, idx_vec, boost_freq_sample, usephrase): the indices IdxVec describes. */
    method GetIdxVec(text: Bytes, usephrase: bool, draw: nat -> real, boost: real, rate: RateFormula) returns (idx: seq<int>)
      requires Canonical(table.State()) && |table.rows| < table.slots.Length
      requires IdxVec(table.State(), text, conf, usephrase, draw, boost, rate).Some?
      ensures IdxVec(table.State(), text, conf, usephrase, draw, boost, rate) == Some(idx)
    {
      var words := GetSegedWordList(text);
      if |words| < conf.minlen || |words| > conf.maxlen {
        return [];
      }
      var marked := table.RandomDiscardWords(words, Draws(draw, 0, |words|), boost, rate);
      var subs := table.GetSubWordLists(words, marked);
      var kept := EraseNegative(marked);
      var phrases := [];
      if usephrase && conf.ngram > 1 {
        var ngrams := GetNgramWordList(words, conf.ngram);
        var ids := table.GetWordPosList(ngrams, false);
        var used := if (boost < 0.99 || boost > 1.01) && table.trainWords <= 0 then 0 else |words|;
        phrases := table.RandomDiscardIds(ids, Draws(draw, used, |ids|), boost, rate);
      }
      idx := kept + subs + phrases;
    }

    /** GetLayerByIdxs(word_idx, layer, rate): `rate` times the row added to the layer, nothing outside the matrix. */
    method GetLayerByIdx(id: int, layer: seq<real>, rate: real) returns (r: seq<real>)
      requires Valid() && |layer| == col
      ensures r == Gathered(data[..], row, col, layer, id, rate)
    {
      if id < 0 || id >= row {
        return layer;
      }
      assert RowIn(data.Length, id, col) by {
        AllRowsIn(data.Length, row, col);
      }
      r := AddRow(layer, data, id, col, rate);
    }

    /**
     * GetLayerByIdxs(word_idx_vec, layer, boost_freq_sample,
     * use_discard_rate): the rows of the ids not skipped added to the layer,
     * divided by their number when more than one was taken.
     */
    method GetLayerByIdxs(ids: seq<int>, layer: seq<real>, draws: seq<real>, useDiscard: bool, boost: real, rate: RateFormula)
      returns (r: seq<real>)
      requires Valid() && |layer| == col && |draws| == |ids|
      requires Skips(table.State(), ids, draws, useDiscard, boost, rate).Some?
      ensures r == Pooled(data[..], row, col, layer, ids, Skips(table.State(), ids, draws, useDiscard, boost, rate).value)
    {
      ghost var skip := Skips(table.State(), ids, draws, useDiscard, boost, rate).value;
      ghost var m := data[..];
      var size: nat := 0;
      r := layer;
      var i := 0;
      while i < |ids|
        invariant 0 <= i <= |ids| && |r| == col
        invariant r == Summed(m, row, col, layer, ids[..i], skip[..i]) && size == Taken(skip[..i])
      {
        SkipsStep(table.State(), ids, draws, useDiscard, boost, rate, i);
        var skipped := false;
        if useDiscard {
          var thr := table.GetDiscardRate(ids[i] % S.U32, boost, rate);
          skipped := draws[i] > thr;
        }
        SummedStep(m, row, col, layer, ids, skip, i);
        if !skipped {
          r := GetLayerByIdx(ids[i], r, 1.0);
          size := size + 1;
        }
        i := i + 1;
      }
      assert ids[..i] == ids && skip[..i] == skip;
      if size > 1 {
        r := DivideAll(r, size as real);
      }
    }

    /** UpdateData(input_idx, add_vec, rate): `rate * v` added to the row, unless the index as `uint32_t` is past the last row. */
    method UpdateData(id: int, v: seq<real>, rate: real)
      requires Valid() && |v| == col
      modifies data
      ensures data[..] == Updated(old(data[..]), row, col, id, v, rate)
    {
      if id % S.U32 >= row {
        return;
      }
      AllRowsIn(data.Length, row, col);
      MatrixAddVec(data, id % S.U32, v, col, rate);
    }

    /** UpdateData(input_vec, add_vec, rate): every id in turn, with `rate` divided by their number. */
    method UpdateDataList(ids: seq<int>, v: seq<real>, rate: real)
      requires Valid() && |v| == col
      modifies data
      ensures data[..] == UpdatedList(old(data[..]), row, col, ids, v, rate)
    {
      if |ids| <= 0 {
        return;
      }
      var share := rate / |ids| as real;
      var i := 0;
      while i < |ids|
        invariant 0 <= i <= |ids|
        invariant data[..] == UpdatedAll(old(data[..]), row, col, ids[..i], v, share)
      {
        assert ids[..i + 1][..i] == ids[..i];
        UpdateData(ids[i], v, share);
        i := i + 1;
      }
      assert ids[..i] == ids;
    }

    /**
     * GetNearestNeighbor(idx_vec, heap, query_type): the heap, a priority
     * queue and so a multiset, gains the pairs Neighbors describes.
     */
    method GetNearestNeighbor(ids: seq<int>, heap: multiset<(real, nat)>, queryType: Bytes, root: real -> real)
      returns (h: multiset<(real, nat)>)
      requires Valid()
      ensures h == heap + multiset(Neighbors(data[..], row, col, Words(table.rows), ids, queryType, root))
    {
      if |ids| == 0 {
        return heap;
      }
      var query := BuildQuery(ids);
      var norm := Norm(query, root);
      var qn := NonZero(norm);
      ghost var m := data[..];
      ghost var words := Words(table.rows);
      var found: seq<(real, nat)> := [];
      var i := 0;
      while i < row
        invariant 0 <= i <= row
        invariant found == ScoredUpTo(m, row, col, words, i, queryType, query, norm, root)
      {
        if i >= |table.rows| {
          ScoredUpToPast(m, row, col, words, i, queryType, query, norm, root);
          break;
        }
        var word := table.rows[i].word;
        ScoredUpToStep(m, row, col, words, i, queryType, query, norm, root);
        if queryType == Lit("_word") && UNDERSCORE in word {
          i := i + 1;
          continue;
        }
        if queryType == Lit("_phrase") && UNDERSCORE !in word {
          i := i + 1;
          continue;
        }
        var score := RowScore(i, query, qn, norm, root);
        found := found + [(score, i)];
        i := i + 1;
      }
      NeighborsUpTo(m, row, col, words, ids, queryType, root);
      h := heap + multiset(found);
    }

    /** The score of one row against the query, whose norm `qn` is already kept away from zero. */
    method RowScore(i: nat, query: seq<real>, qn: real, ghost norm: real, root: real -> real) returns (score: real)
      requires RowIn(data.Length, i, col) && |query| == col && qn == NonZero(norm)
      ensures score == Score(data[..], col, i, query, norm, root)
    {
      ghost var r := Row(data[..], i, col);
      var dn := MatrixNorm(data, i, col, root);
      assert dn == root(Dot(r, r));
      var dn' := NonZero(dn);
      var val := MatrixDowRowVec(data, i, query, col);
      assert val == Dot(r, query);
      score := val / qn / dn';
    }

    /** The query loop of GetNearestNeighbor: the rows of the in-range ids summed. */
    method BuildQuery(ids: seq<int>) returns (query: seq<real>)
      requires Valid()
      ensures query == Query(data[..], row, col, ids)
    {
      ghost var none := seq(|ids|, _ => false);
      query := Zeros(col);
      var k := 0;
      while k < |ids|
        invariant 0 <= k <= |ids| && query == Summed(data[..], row, col, Zeros(col), ids[..k], none[..k])
      {
        assert ids[..k + 1][..k] == ids[..k] && none[..k + 1][..k] == none[..k];
        query := GetLayerByIdx(ids[k], query, 1.0);
        k := k + 1;
      }
      assert ids[..k] == ids && none[..k] == none;
    }

    /** Save: the lines LayerText.SaveInput describes. */
    method Save(render: LT.Render) returns (lines: seq<Bytes>)
      requires Valid()
      ensures lines == LT.SaveInput(LT.Layer(row, col, data[..]), render)
    {
      lines := LT.SaveRows(data, row, col, render, false);
      LT.SaveInputRowLines(LT.Layer(row, col, data[..]), render);
    }

    /**
     * Load: the matrix LayerText.LoadInput reads, in a fresh array; `false`
     * where the source stops on a failed assertion.
     */
    method Load(lines: seq<Bytes>) returns (ok: bool)
      modifies this
      ensures ok <==> LT.LoadInput(lines).Ok?
      ensures ok ==> Valid() && fresh(data) && LT.LoadInput(lines).value == LT.Layer(row, col, data[..])
    {
      var l := LT.ReadInputLayer(lines);
      if l.Err? {
        return false;
      }
      Install(l.value);
      ok := true;
    }

    /** The counts and the values of a loaded layer, in a fresh array. */
    method Install(v: LT.Layer)
      requires LT.Shaped(v) && v.row < S.U32 && v.col < S.U32
      modifies this
      ensures Valid() && fresh(data) && LT.Layer(row, col, data[..]) == v
    {
      var a := NewArray(v.values);
      row, col, data := v.row, v.col, a;
    }
  }
}
