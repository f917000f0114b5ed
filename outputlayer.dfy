/**
 * The output layer of layers/outputlayer.cc: one row of `dim` weights per
 * class, in an array of `row * col` values that starts at zero. Save and
 * Load go through the text of LayerText under a file name made from the
 * model kind and the class tag.
 */
module OutputLayer {
  import opened Bytes
  import opened BasicUtil
  import opened MatrixUtil
  import opened Config
  import opened InputLayerSpec
  import LT = LayerText
  import S = HashTableStore
  import IL = InputLayer

  /** The largest `int`, which bounds the class count handed to the constructor. */
  const INT_MAX: int := 0x7FFF_FFFF

  /** "layer.output." + int(name) + "." + tag: the file both Save and Load use. */
  function FileName(name: ModelName, tag: Bytes): (f: Bytes)
    ensures |f| == 15 + |tag|
    ensures f[..13] == Lit("layer.output.") && f[14] == DOT && f[15..] == tag
    ensures f[13] == DigitByte(name.Code())
  {
    Lit("layer.output.") + IntToString(name.Code()) + [DOT] + tag
  }

  /** Two layers share a file only when they have the same kind and the same tag. */
  lemma FileNameInjective(n1: ModelName, t1: Bytes, n2: ModelName, t2: Bytes)
    ensures FileName(n1, t1) == FileName(n2, t2) <==> n1 == n2 && t1 == t2
  {
    if FileName(n1, t1) == FileName(n2, t2) {
      var f := FileName(n1, t1);
      assert DigitByte(n1.Code()) == f[13] == DigitByte(n2.Code());
      assert n1.Code() == n2.Code();
      assert t1 == f[15..] == t2;
    }
  }

  class OutputLayer {
    const name: ModelName
    const tag: Bytes
    var row: nat
    var col: nat
    var data: array<real>

    /** The matrix holds `row * col` cells; both counts are `uint32_t`. */
    predicate Valid()
      reads this
    {
      data.Length == row * col && row < S.U32 && col < S.U32
    }

    /** OutputLayer(hash_table, conf, n, cls_number, tag) followed by Init: `cls_number > 1` rows of `dim` zeros. */
    constructor (name: ModelName, clsNumber: int, dim: nat, tag: Bytes)
      requires 1 < clsNumber <= INT_MAX && dim < S.U32
      ensures this.name == name && this.tag == tag && row == clsNumber && col == dim
      ensures Valid() && fresh(data) && data[..] == Zeros(row * col)
    {
      this.name := name;
      this.tag := tag;
      row := clsNumber;
      col := dim;
      var a := new real[clsNumber * dim];
      IL.Fill(a, clsNumber, dim, _ => 0.0);
      assert a[..] == Zeros(clsNumber * dim);
      data := a;
    }

    /** Save: the file name and the lines LayerText.SaveOutput describes. */
    method Save(render: LT.Render) returns (file: Bytes, lines: seq<Bytes>)
      requires Valid()
      ensures file == FileName(name, tag)
      ensures lines == LT.SaveOutput(LT.Layer(row, col, data[..]), render)
    {
      lines := LT.SaveRows(data, row, col, render, true);
      LT.SaveOutputRowLines(LT.Layer(row, col, data[..]), render);
      file := FileName(name, tag);
    }

    /**
     * Load: the matrix LayerText.LoadOutput reads from the layer's file, in
     * a fresh array; `false` where the source stops on a failed assertion
     * (no such file, a bad field count, a bad line count).
     */
    method Load(files: map<Bytes, seq<Bytes>>) returns (ok: bool)
      modifies this
      ensures ok <==> FileName(name, tag) in files && LT.LoadOutput(files[FileName(name, tag)]).Ok?
      ensures ok ==> Valid() && fresh(data)
      ensures ok ==> LT.LoadOutput(files[FileName(name, tag)]).value == LT.Layer(row, col, data[..])
    {
      var file := FileName(name, tag);
      if file !in files {
        return false;
      }
      var l := LT.ReadOutputLayer(files[file]);
      if l.Err? {
        return false;
      }
      var a := IL.NewArray(l.value.values);
      row, col, data := l.value.row, l.value.col, a;
      ok := true;
    }
  }
}
