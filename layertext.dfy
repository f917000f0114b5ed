/**
 * The text encoding of an embedding matrix (layers/inputlayer.cc and
 * layers/outputlayer.cc, Save and Load): the row count, the column count,
 * then one line per row holding its values separated by tabs. Files are
 * sequences of lines; a value is written by a rendering function
 * (`std::to_string` of a float) and read back with `atof`.
 */
module LayerText {
  import opened Wrappers
  import opened Bytes
  import opened BasicUtil
  import opened MatrixUtil
  import S = HashTableStore

  /** How a value is written out. */
  type Render = real -> Bytes

  /** A matrix as Load rebuilds it: its shape and its cells in row-major order. */
  datatype Layer = Layer(row: nat, col: nat, values: seq<real>)

  predicate Shaped(l: Layer)
  {
    |l.values| == l.row * l.col
  }

  /** Every value renders as plain decimal text. */
  predicate RendersPlain(values: seq<real>, render: Render)
  {
    forall k :: 0 <= k < |values| ==> S.NumberText(render(values[k]))
  }

  /** The rendered values of one row. */
  function Texts(vals: seq<real>, render: Render): (r: seq<Bytes>)
    ensures |r| == |vals| && forall j :: 0 <= j < |vals| ==> r[j] == render(vals[j])
  {
    seq(|vals|, j requires 0 <= j < |vals| => render(vals[j]))
  }

  /** The input layer's row text: every value followed by a tab. */
  function TabAfter(parts: seq<Bytes>): Bytes
  {
    if parts == [] then [] else TabAfter(parts[..|parts| - 1]) + parts[|parts| - 1] + [TAB]
  }

  /** The output layer's row text: every value preceded by a tab. */
  function TabBefore(parts: seq<Bytes>): Bytes
  {
    if parts == [] then [] else TabBefore(parts[..|parts| - 1]) + [TAB] + parts[|parts| - 1]
  }

  /** Save of the input layer: the two header lines, then each row's line, as WriteLine trims them. */
  function SaveInput(l: Layer, render: Render): (lines: seq<Bytes>)
    requires Shaped(l)
    ensures |lines| == 2 + l.row
    ensures lines[0] == Trimmed(IntToString(l.row)) && lines[1] == Trimmed(IntToString(l.col))
  {
    var rs := Rows(l.values, l.row, l.col);
    [Trimmed(IntToString(l.row)), Trimmed(IntToString(l.col))]
    + seq(l.row, i requires 0 <= i < l.row => Trimmed(TabAfter(Texts(rs[i], render))))
  }

  /** Save of the output layer: as the input layer, with the tab before each value. */
  function SaveOutput(l: Layer, render: Render): (lines: seq<Bytes>)
    requires Shaped(l)
    ensures |lines| == 2 + l.row
    ensures lines[0] == Trimmed(IntToString(l.row)) && lines[1] == Trimmed(IntToString(l.col))
  {
    var rs := Rows(l.values, l.row, l.col);
    [Trimmed(IntToString(l.row)), Trimmed(IntToString(l.col))]
    + seq(l.row, i requires 0 <= i < l.row => Trimmed(TabBefore(Texts(rs[i], render))))
  }

  // ---------------------------------------------------------------------
  // Load

  /**
   * One data line as Load reads it (lower-cased by GetLine, trimmed): a
   * blank line is skipped (`None`); a line whose tab-separated, trimmed
   * fields are not `col` many aborts; otherwise its values, read with
   * `atof`.
   */
  function ParseLine(line: Bytes, col: nat): (r: Result<Option<seq<real>>>)
    ensures r.Ok? && r.value.Some? ==> |r.value.value| == col
  {
    var l := Trimmed(Lowered(line));
    if l == [] then Ok(None)
    else
      var parts := TrimmedAll(Split(l, TAB));
      if |parts| != col then Err("not valid col_ number")
      else Ok(Some(Values(parts)))
  }

  /** The fields of a line read with `atof`. */
  function Values(parts: seq<Bytes>): (r: seq<real>)
    ensures |r| == |parts| && forall j :: 0 <= j < |parts| ==> r[j] == ParseReal(parts[j])
  {
    seq(|parts|, j requires 0 <= j < |parts| => ParseReal(parts[j]))
  }

  /** The rows of the data lines, in order, blank lines skipped. */
  function ParseRows(lines: seq<Bytes>, col: nat): (r: Result<seq<seq<real>>>)
    ensures r.Ok? ==> forall i :: 0 <= i < |r.value| ==> |r.value[i]| == col
  {
    if lines == [] then Ok([])
    else
      var prev :- ParseRows(lines[..|lines| - 1], col);
      var r :- ParseLine(lines[|lines| - 1], col);
      Ok(if r.Some? then prev + [r.value] else prev)
  }

  /** The lines after the two header lines. */
  function DataLines(lines: seq<Bytes>): seq<Bytes>
  {
    if |lines| <= 2 then [] else lines[2..]
  }

  /** The rows of the data lines when there are exactly `row` of them. */
  function Body(lines: seq<Bytes>, row: nat, col: nat): (r: Result<Layer>)
    ensures r.Ok? ==> Shaped(r.value) && r.value.row == row && r.value.col == col
  {
    var rs :- ParseRows(DataLines(lines), col);
    FlatLength(rs, col);
    if |rs| != row then Err("vector size != row_") else Ok(Layer(row, col, Flat(rs)))
  }

  /**
   * Load of the input layer: the header lines are trimmed and read with
   * `atoi` into unsigned 32-bit counts, which must be positive.
   */
  function LoadInput(lines: seq<Bytes>): (r: Result<Layer>)
    ensures r.Ok? ==> Shaped(r.value) && 0 < r.value.row < S.U32 && 0 < r.value.col < S.U32
  {
    var row := S.HeaderValue(lines, 0);
    var col := S.HeaderValue(lines, 1);
    if row == 0 || col == 0 then Err("empty layer") else Body(lines, row, col)
  }

  /** A header line of the output layer: read with `atoi` untrimmed; a missing line reads as 0. */
  function OutputHeader(lines: seq<Bytes>, i: nat): (v: nat)
    ensures v < S.U32
  {
    if i < |lines| then ParseInt(Lowered(lines[i])) % S.U32 else 0
  }

  /** Load of the output layer: no check on the header counts. */
  function LoadOutput(lines: seq<Bytes>): (r: Result<Layer>)
    ensures r.Ok? ==> Shaped(r.value) && r.value.row < S.U32 && r.value.col < S.U32
  {
    Body(lines, OutputHeader(lines, 0), OutputHeader(lines, 1))
  }

  /** What reading back the rendering of each value gives. */
  function Reread(values: seq<real>, render: Render): (r: seq<real>)
    ensures |r| == |values| && forall k :: 0 <= k < |values| ==> r[k] == ParseReal(render(values[k]))
  {
    seq(|values|, k requires 0 <= k < |values| => ParseReal(render(values[k])))
  }

  // ---------------------------------------------------------------------
  // The row lines

  lemma {:induction false} TabAfterJoin(parts: seq<Bytes>)
    requires parts != []
    ensures TabAfter(parts) == Join(parts, TAB) + [TAB]
  {
    var init, last := parts[..|parts| - 1], parts[|parts| - 1];
    if |parts| > 1 {
      TabAfterJoin(init);
      assert TabAfter(parts) == Join(init, TAB) + [TAB] + last + [TAB];
      assert Join(parts, TAB) == Join(init, TAB) + [TAB] + last;
    } else {
      assert TabAfter(init) == [] && Join(parts, TAB) == last;
    }
  }

  lemma {:induction false} TabBeforeJoin(parts: seq<Bytes>)
    requires parts != []
    ensures TabBefore(parts) == [TAB] + Join(parts, TAB)
  {
    var init, last := parts[..|parts| - 1], parts[|parts| - 1];
    if |parts| > 1 {
      TabBeforeJoin(init);
      assert TabBefore(parts) == [TAB] + Join(init, TAB) + [TAB] + last;
      assert Join(parts, TAB) == Join(init, TAB) + [TAB] + last;
    } else {
      assert TabBefore(init) == [] && Join(parts, TAB) == last;
    }
  }

  /** Number texts joined by tabs form a plain, clean, non-empty line. */
  lemma {:induction false} JoinedNumbers(parts: seq<Bytes>)
    requires parts != [] && forall k :: 0 <= k < |parts| ==> S.NumberText(parts[k])
    ensures var j := Join(parts, TAB);
      j != [] && S.Plain(j) && S.NumberByte(j[0]) && S.NumberByte(j[|j| - 1])
  {
    S.NumberTextPlain(parts[|parts| - 1]);
    if |parts| > 1 {
      JoinedNumbers(parts[..|parts| - 1]);
      S.PlainTabJoin(Join(parts[..|parts| - 1], TAB), parts[|parts| - 1]);
    }
  }

  /** A clean line gains nothing from a tab in front once trimmed. */
  lemma TrimmedLeadingTab(s: Bytes)
    requires s != [] && TrimClean(s)
    ensures Trimmed([TAB] + s) == s
  {
    var u := [TAB] + s;
    assert u[1..] == s;
    assert LeadingSpace(u) == 1;
    assert TrailingSpace(u) == 0;
  }

  /** A row line as WriteLine leaves it: the values joined by single tabs, for either layer. */
  lemma SavedRowLine(parts: seq<Bytes>)
    requires parts != [] && forall k :: 0 <= k < |parts| ==> S.NumberText(parts[k])
    ensures Trimmed(TabAfter(parts)) == Join(parts, TAB)
    ensures Trimmed(TabBefore(parts)) == Join(parts, TAB)
  {
    var j := Join(parts, TAB);
    JoinedNumbers(parts);
    assert TrimClean(j);
    TabAfterJoin(parts);
    TabBeforeJoin(parts);
    S.TrimmedTrailingTab(j);
    TrimmedLeadingTab(j);
  }

  /** A saved row line is non-empty and unchanged by lower-casing and trimming. */
  lemma SavedLineClean(parts: seq<Bytes>)
    requires parts != [] && forall k :: 0 <= k < |parts| ==> S.NumberText(parts[k])
    ensures var j := Join(parts, TAB); Trimmed(Lowered(j)) == j && j != []
  {
    var j := Join(parts, TAB);
    JoinedNumbers(parts);
    S.PlainLine(j);
    TrimmedOfClean(j);
  }

  /** Splitting a saved row line at its tabs gives back the rendered values. */
  lemma SavedLineSplit(parts: seq<Bytes>)
    requires parts != [] && forall k :: 0 <= k < |parts| ==> S.NumberText(parts[k])
    ensures Split(Join(parts, TAB), TAB) == parts
    ensures forall k :: 0 <= k < |parts| ==> S.Field(parts[k])
  {
    var j := Join(parts, TAB);
    JoinedNumbers(parts);
    S.PlainLine(j);
    SplitPlain(j, TAB);
    forall k | 0 <= k < |parts|
      ensures S.Field(parts[k])
    {
      S.NumberTextPlain(parts[k]);
    }
    SplitFieldsOfJoin(parts, TAB);
  }

  /** The fields of a saved row line are exactly the rendered values. */
  lemma SavedLineFields(parts: seq<Bytes>)
    requires parts != [] && forall k :: 0 <= k < |parts| ==> S.NumberText(parts[k])
    ensures TrimmedAll(Split(Join(parts, TAB), TAB)) == parts
  {
    SavedLineSplit(parts);
    S.FieldsTrimmed(parts);
  }

  /** Load reads a saved row line back as the values its fields spell. */
  lemma ParseSavedLine(parts: seq<Bytes>)
    requires parts != [] && forall k :: 0 <= k < |parts| ==> S.NumberText(parts[k])
    ensures ParseLine(Join(parts, TAB), |parts|) == Ok(Some(Values(parts)))
  {
    SavedLineClean(parts);
    SavedLineFields(parts);
  }

  /** The rendered values of a row read back with `atof`. */
  lemma ValuesOfTexts(vals: seq<real>, render: Render)
    ensures Values(Texts(vals, render)) == Reread(vals, render)
  {
  }

  // ---------------------------------------------------------------------
  // Load(Save(l))

  /** Each row reread. */
  function RereadRows(rs: seq<seq<real>>, render: Render): (r: seq<seq<real>>)
    ensures |r| == |rs| && forall i :: 0 <= i < |rs| ==> r[i] == Reread(rs[i], render)
  {
    seq(|rs|, i requires 0 <= i < |rs| => Reread(rs[i], render))
  }

  /** The saved lines of a list of rows parse to the reread rows. */
  lemma {:induction false} ParseSavedRows(rs: seq<seq<real>>, col: nat, render: Render, lines: seq<Bytes>)
    requires col > 0 && |lines| == |rs|
    requires forall i :: 0 <= i < |rs| ==> |rs[i]| == col && RendersPlain(rs[i], render)
    requires forall i :: 0 <= i < |rs| ==> lines[i] == Join(Texts(rs[i], render), TAB)
    ensures ParseRows(lines, col) == Ok(RereadRows(rs, render))
  {
    if rs != [] {
      var n := |rs| - 1;
      assert forall i :: 0 <= i < n ==> rs[..n][i] == rs[i] && lines[..n][i] == lines[i];
      ParseSavedRows(rs[..n], col, render, lines[..n]);
      SavedLineParses(rs[n], col, render);
      ParseRowsSnoc(lines, col, RereadRows(rs[..n], render), Reread(rs[n], render));
      RereadRowsSnoc(rs, render);
    }
  }

  /** One saved row line parses to its reread values. */
  lemma SavedLineParses(r: seq<real>, col: nat, render: Render)
    requires col > 0 && |r| == col && RendersPlain(r, render)
    ensures ParseLine(Join(Texts(r, render), TAB), col) == Ok(Some(Reread(r, render)))
  {
    ParseSavedLine(Texts(r, render));
    ValuesOfTexts(r, render);
  }

  /** A last line that parses to a row adds that row to the rows before it. */
  lemma ParseRowsSnoc(lines: seq<Bytes>, col: nat, prev: seq<seq<real>>, r: seq<real>)
    requires lines != []
    requires ParseRows(lines[..|lines| - 1], col) == Ok(prev)
    requires ParseLine(lines[|lines| - 1], col) == Ok(Some(r))
    ensures ParseRows(lines, col) == Ok(prev + [r])
  {
  }

  lemma RereadRowsSnoc(rs: seq<seq<real>>, render: Render)
    requires rs != []
    ensures RereadRows(rs, render) == RereadRows(rs[..|rs| - 1], render) + [Reread(rs[|rs| - 1], render)]
  {
  }

  lemma RereadAppend(a: seq<real>, b: seq<real>, render: Render)
    ensures Reread(a + b, render) == Reread(a, render) + Reread(b, render)
  {
  }

  /** Rereading commutes with laying rows end to end. */
  lemma {:induction false} FlatReread(rs: seq<seq<real>>, render: Render)
    ensures Flat(RereadRows(rs, render)) == Reread(Flat(rs), render)
  {
    if rs != [] {
      var n := |rs| - 1;
      FlatReread(rs[..n], render);
      RereadRowsSnoc(rs, render);
      var rr := RereadRows(rs, render);
      assert rr[..n] == RereadRows(rs[..n], render);
      assert Flat(rr) == Flat(rr[..n]) + rr[n];
      assert Flat(rs) == Flat(rs[..n]) + rs[n];
      RereadAppend(Flat(rs[..n]), rs[n], render);
    }
  }

  /** The data lines of either saved layer read back as its reread cells. */
  lemma SavedBody(l: Layer, render: Render, lines: seq<Bytes>, lead: bool)
    requires Shaped(l) && 0 < l.col && RendersPlain(l.values, render)
    requires DataLines(lines) == RowLines(l.values, l.row, l.col, render, lead)
    ensures Body(lines, l.row, l.col) == Ok(Layer(l.row, l.col, Reread(l.values, render)))
  {
    var rs := Rows(l.values, l.row, l.col);
    var data := DataLines(lines);
    assert ParseRows(data, l.col) == Ok(RereadRows(rs, render)) by {
      SavedDataLines(l, render, lead);
      ParseSavedRows(rs, l.col, render, data);
    }
    assert Flat(RereadRows(rs, render)) == Reread(l.values, render) by {
      FlatReread(rs, render);
      FlatRows(l.values, l.row, l.col);
      assert l.values[..l.row * l.col] == l.values;
    }
  }

  /** Each saved data line is the row's rendered values joined by tabs. */
  lemma SavedDataLines(l: Layer, render: Render, lead: bool)
    requires Shaped(l) && 0 < l.col && RendersPlain(l.values, render)
    ensures var rs := Rows(l.values, l.row, l.col);
      forall i :: 0 <= i < l.row ==>
        RendersPlain(rs[i], render) && RowLines(l.values, l.row, l.col, render, lead)[i] == Join(Texts(rs[i], render), TAB)
  {
    forall i | 0 <= i < l.row
      ensures RendersPlain(Rows(l.values, l.row, l.col)[i], render)
      ensures RowLines(l.values, l.row, l.col, render, lead)[i] == Join(Texts(Rows(l.values, l.row, l.col)[i], render), TAB)
    {
      SavedDataLine(l, render, lead, i);
    }
  }

  lemma SavedDataLine(l: Layer, render: Render, lead: bool, i: nat)
    requires Shaped(l) && 0 < l.col && RendersPlain(l.values, render) && i < l.row
    ensures RendersPlain(Rows(l.values, l.row, l.col)[i], render)
    ensures RowLines(l.values, l.row, l.col, render, lead)[i] == Join(Texts(Rows(l.values, l.row, l.col)[i], render), TAB)
  {
    var r := Rows(l.values, l.row, l.col)[i];
    assert RendersPlain(r, render) by {
      RowPlain(l, render, i);
    }
    assert RowLines(l.values, l.row, l.col, render, lead)[i] == RowLine(r, render, lead) by {
      RowLinesAt(l.values, l.row, l.col, render, lead, i);
    }
    assert RowLine(r, render, lead) == Join(Texts(r, render), TAB) by {
      SavedRowLine(Texts(r, render));
    }
  }

  lemma RowPlain(l: Layer, render: Render, i: nat)
    requires Shaped(l) && i < l.row && RendersPlain(l.values, render)
    ensures RendersPlain(Rows(l.values, l.row, l.col)[i], render)
  {
    var r := Rows(l.values, l.row, l.col)[i];
    forall j | 0 <= j < |r|
      ensures S.NumberText(render(r[j]))
    {
      assert r[j] == l.values[Cell(i, j, l.col)];
    }
  }

  /**
   * Loading what Save wrote for the input layer gives back its shape and,
   * in every cell, what `atof` reads from the rendering of the value.
   */
  lemma LoadInputSave(l: Layer, render: Render)
    requires Shaped(l) && 0 < l.row < S.U32 && 0 < l.col < S.U32 && RendersPlain(l.values, render)
    ensures LoadInput(SaveInput(l, render)) == Ok(Layer(l.row, l.col, Reread(l.values, render)))
  {
    var lines := SaveInput(l, render);
    SavedHeaders(l, render);
    LoadInputIsBody(lines, l.row, l.col);
    SaveInputRowLines(l, render);
    SavedBody(l, render, lines, false);
  }

  lemma SavedHeaders(l: Layer, render: Render)
    requires Shaped(l) && l.row < S.U32 && l.col < S.U32
    ensures S.HeaderValue(SaveInput(l, render), 0) == l.row && S.HeaderValue(SaveInput(l, render), 1) == l.col
  {
    S.HeaderRoundTrip(l.row);
    S.HeaderRoundTrip(l.col);
  }

  lemma LoadInputIsBody(lines: seq<Bytes>, row: nat, col: nat)
    requires S.HeaderValue(lines, 0) == row > 0 && S.HeaderValue(lines, 1) == col > 0
    ensures LoadInput(lines) == Body(lines, row, col)
  {
  }

  /** The same for the output layer, whose header lines are read untrimmed. */
  lemma LoadOutputSave(l: Layer, render: Render)
    requires Shaped(l) && l.row < S.U32 && 0 < l.col < S.U32 && RendersPlain(l.values, render)
    ensures LoadOutput(SaveOutput(l, render)) == Ok(Layer(l.row, l.col, Reread(l.values, render)))
  {
    var lines := SaveOutput(l, render);
    OutputHeaderRoundTrip(l.row);
    OutputHeaderRoundTrip(l.col);
    assert OutputHeader(lines, 0) == l.row && OutputHeader(lines, 1) == l.col;
    SaveOutputRowLines(l, render);
    SavedBody(l, render, lines, true);
  }

  lemma OutputHeaderRoundTrip(n: nat)
    requires n < S.U32
    ensures ParseInt(Lowered(Trimmed(IntToString(n)))) % S.U32 == n
  {
    var s := IntToString(n);
    S.IntText(n);
    S.NumberTextPlain(s);
    S.NumberTextClean(s);
    S.PlainLine(s);
    S.HeaderRoundTrip(n);
  }

  // ---------------------------------------------------------------------
  // The loops of Save and Load

  lemma TextsSnoc(r: seq<real>, j: nat, render: Render)
    requires j < |r|
    ensures Texts(r[..j + 1], render) == Texts(r[..j], render) + [render(r[j])]
  {
  }

  /** The inner loop of the input layer's Save: every value of row `i` followed by a tab. */
  method InputRowLine(data: array<real>, i: nat, col: nat, render: Render) returns (line: Bytes)
    requires RowIn(data.Length, i, col)
    ensures line == TabAfter(Texts(Row(data[..], i, col), render))
  {
    ghost var r := Row(data[..], i, col);
    line := [];
    var j := 0;
    while j < col
      invariant 0 <= j <= col && line == TabAfter(Texts(r[..j], render))
    {
      TextsSnoc(r, j, render);
      assert Texts(r[..j + 1], render)[..j] == Texts(r[..j], render);
      line := line + render(data[Cell(i, j, col)]) + [TAB];
      j := j + 1;
    }
    assert r[..col] == r;
  }

  /** Row `r` as a saved line: the input layer puts a tab after each value, the output layer before it. */
  function RowLine(r: seq<real>, render: Render, before: bool): Bytes
  {
    Trimmed(if before then TabBefore(Texts(r, render)) else TabAfter(Texts(r, render)))
  }

  /** The saved lines of the first `n` rows, in order. */
  function RowLines(m: seq<real>, n: nat, col: nat, render: Render, before: bool): (ls: seq<Bytes>)
    requires n * col <= |m|
    ensures |ls| == n
  {
    if n == 0 then []
    else
      NextRow(n - 1, col);
      RowLines(m, n - 1, col, render, before) + [RowLine(Row(m, n - 1, col), render, before)]
  }

  lemma {:induction false} RowLinesAt(m: seq<real>, n: nat, col: nat, render: Render, before: bool, k: nat)
    requires n * col <= |m| && k < n
    ensures RowIn(|m|, k, col) && RowLines(m, n, col, render, before)[k] == RowLine(Row(m, k, col), render, before)
  {
    AllRowsIn(|m|, n, col);
    assert RowIn(|m|, n - 1, col);
    NextRow(n - 1, col);
    if k < n - 1 {
      RowLinesAt(m, n - 1, col, render, before, k);
    }
  }

  /** One more row adds its line at the end. */
  lemma RowLinesSnoc(m: seq<real>, i: nat, col: nat, render: Render, before: bool)
    requires RowIn(|m|, i, col)
    ensures (i + 1) * col <= |m|
    ensures RowLines(m, i + 1, col, render, before) == RowLines(m, i, col, render, before) + [RowLine(Row(m, i, col), render, before)]
  {
    NextRow(i, col);
  }

  /** SaveInput is the two headers followed by the row lines. */
  lemma SaveInputRowLines(l: Layer, render: Render)
    requires Shaped(l)
    ensures SaveInput(l, render) == [Trimmed(IntToString(l.row)), Trimmed(IntToString(l.col))] + RowLines(l.values, l.row, l.col, render, false)
    ensures DataLines(SaveInput(l, render)) == RowLines(l.values, l.row, l.col, render, false)
  {
    var lines := SaveInput(l, render);
    var ls := RowLines(l.values, l.row, l.col, render, false);
    var rs := Rows(l.values, l.row, l.col);
    forall k | 0 <= k < l.row
      ensures lines[2..][k] == ls[k]
    {
      RowLinesAt(l.values, l.row, l.col, render, false, k);
      assert rs[k] == Row(l.values, k, l.col);
    }
    assert lines[2..] == ls;
    assert lines == [lines[0], lines[1]] + lines[2..];
  }

  /** SaveOutput is the two headers followed by the row lines. */
  lemma SaveOutputRowLines(l: Layer, render: Render)
    requires Shaped(l)
    ensures SaveOutput(l, render) == [Trimmed(IntToString(l.row)), Trimmed(IntToString(l.col))] + RowLines(l.values, l.row, l.col, render, true)
    ensures DataLines(SaveOutput(l, render)) == RowLines(l.values, l.row, l.col, render, true)
  {
    var lines := SaveOutput(l, render);
    var ls := RowLines(l.values, l.row, l.col, render, true);
    var rs := Rows(l.values, l.row, l.col);
    forall k | 0 <= k < l.row
      ensures lines[2..][k] == ls[k]
    {
      RowLinesAt(l.values, l.row, l.col, render, true, k);
      assert rs[k] == Row(l.values, k, l.col);
    }
    assert lines[2..] == ls;
    assert lines == [lines[0], lines[1]] + lines[2..];
  }

  /**
   * The Save loop of both layers: the two counts, then one line per row,
   * with the tab after each value (input layer) or before it (output layer).
   */
  method SaveRows(data: array<real>, row: nat, col: nat, render: Render, before: bool) returns (lines: seq<Bytes>)
    requires data.Length == row * col
    ensures lines == [Trimmed(IntToString(row)), Trimmed(IntToString(col))] + RowLines(data[..], row, col, render, before)
  {
    ghost var m := data[..];
    AllRowsIn(data.Length, row, col);
    var body: seq<Bytes> := [];
    var i := 0;
    while i < row
      invariant 0 <= i <= row && i * col <= |m|
      invariant body == RowLines(m, i, col, render, before)
    {
      assert RowIn(data.Length, i, col);
      RowLinesSnoc(m, i, col, render, before);
      var line;
      if before {
        line := OutputRowLine(data, i, col, render);
      } else {
        line := InputRowLine(data, i, col, render);
      }
      body := body + [Trimmed(line)];
      i := i + 1;
    }
    lines := [Trimmed(IntToString(row)), Trimmed(IntToString(col))] + body;
  }

  /** The inner loop of the output layer's Save: every value of row `i` preceded by a tab. */
  method OutputRowLine(data: array<real>, i: nat, col: nat, render: Render) returns (line: Bytes)
    requires RowIn(data.Length, i, col)
    ensures line == TabBefore(Texts(Row(data[..], i, col), render))
  {
    ghost var r := Row(data[..], i, col);
    line := [];
    var j := 0;
    while j < col
      invariant 0 <= j <= col && line == TabBefore(Texts(r[..j], render))
    {
      TextsSnoc(r, j, render);
      assert Texts(r[..j + 1], render)[..j] == Texts(r[..j], render);
      line := line + [TAB] + render(data[Cell(i, j, col)]);
      j := j + 1;
    }
    assert r[..col] == r;
  }

  /** Once a prefix of the lines fails to parse, so do all the lines. */
  lemma {:induction false} ParseRowsErrStays(lines: seq<Bytes>, col: nat, k: nat)
    requires k <= |lines| && ParseRows(lines[..k], col).Err?
    ensures ParseRows(lines, col) == ParseRows(lines[..k], col)
    decreases |lines| - k
  {
    if k < |lines| {
      assert lines[..k + 1][..k] == lines[..k];
      ParseRowsErrStays(lines, col, k + 1);
    } else {
      assert lines[..k] == lines;
    }
  }

  /** The data-line loop of Load: each line parsed in turn, blank lines skipped; the first bad line aborts. */
  method ReadRows(lines: seq<Bytes>, col: nat) returns (r: Result<seq<seq<real>>>)
    ensures r == ParseRows(DataLines(lines), col)
  {
    var data := DataLines(lines);
    var rs: seq<seq<real>> := [];
    var i := 0;
    while i < |data|
      invariant 0 <= i <= |data| && ParseRows(data[..i], col) == Ok(rs)
    {
      var p := ParseLine(data[i], col);
      assert data[..i + 1][..i] == data[..i];
      if p.Err? {
        ParseRowsErrStays(data, col, i + 1);
        return Err(p.reason);
      }
      if p.value.Some? {
        rs := rs + [p.value.value];
      }
      i := i + 1;
    }
    assert data[..i] == data;
    r := Ok(rs);
  }

  /** InputLayer::Load up to the copy into the matrix: both counts non-zero, then exactly `row` rows of `col` values. */
  method ReadInputLayer(lines: seq<Bytes>) returns (l: Result<Layer>)
    ensures l == LoadInput(lines)
  {
    var r := S.HeaderValue(lines, 0);
    var c := S.HeaderValue(lines, 1);
    if r == 0 || c == 0 {
      return Err("empty layer");
    }
    var rs := ReadRows(lines, c);
    if rs.Err? {
      return Err(rs.reason);
    }
    if |rs.value| != r {
      return Err("vector size != row_");
    }
    l := Ok(Layer(r, c, Flat(rs.value)));
  }

  /** OutputLayer::Load up to the copy into the matrix: the counts as read, then exactly `row` rows of `col` values. */
  method ReadOutputLayer(lines: seq<Bytes>) returns (l: Result<Layer>)
    ensures l == LoadOutput(lines)
  {
    var r := OutputHeader(lines, 0);
    var c := OutputHeader(lines, 1);
    var rs := ReadRows(lines, c);
    if rs.Err? {
      return Err(rs.reason);
    }
    if |rs.value| != r {
      return Err("vector size != row_");
    }
    l := Ok(Layer(r, c, Flat(rs.value)));
  }
}
