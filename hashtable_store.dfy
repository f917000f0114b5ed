/**
 * The text encoding of a Lexicon: Save writes three header lines (capacity,
 * row count, filter floor) and one `word \t freq \t subwords` line per row;
 * Load reads such a file back into a freshly constructed table.
 */
module HashTableStore {
  import opened Wrappers
  import opened Bytes
  import opened BasicUtil
  import opened VectorUtil
  import opened HashTableSpec
  import opened HashTableDiscard

  const U32: int := 0x1_0000_0000

  /** The table `HashTable(conf, cap)` constructs: no rows, every slot empty, filter floor 1. */
  function Fresh(cap: nat, subngram: nat): (t: Table)
    requires cap > 0
    ensures Canonical(t) && t.rows == [] && |t.slots| == cap && t.subngram == subngram
    ensures t.filterFreq == 1 && t.trainWords == 0
  {
    EmptyCountAllEmpty(cap);
    assert Words([]) == [];
    Table([], seq(cap, _ => -1), 0, 1, 0, 0.0, [], subngram)
  }

  // ---------------------------------------------------------------------
  // Save

  /** JoinVector(subwords, "|"): empty for an empty list. */
  function SubwordText(v: seq<int>): Bytes
  {
    if v == [] then [] else JoinWith(Rendered(v), [PIPE])
  }

  /** The text of one row before WriteLine trims it. */
  function RowText(x: Item): Bytes
  {
    x.word + [TAB] + IntegralFloatToString(x.freq) + [TAB] + SubwordText(x.subwords)
  }

  /** The lines Save writes, each trimmed by WriteLine. */
  function SaveLines(t: Table): (lines: seq<Bytes>)
    ensures |lines| == 3 + |t.rows|
  {
    [Trimmed(IntToString(|t.slots|)), Trimmed(IntToString(t.wordsize)), Trimmed(IntToString(t.filterFreq))]
    + seq(|t.rows|, i requires 0 <= i < |t.rows| => Trimmed(RowText(t.rows[i])))
  }

  // ---------------------------------------------------------------------
  // Load

  // GetLine lower-cases the line it reads (Lowered).

  /**
   * A header line read, trimmed and parsed with `atoi` into a `uint32_t`;
   * a missing line reads as the empty string, so as 0.
   */
  function HeaderValue(lines: seq<Bytes>, i: nat): (v: nat)
    ensures v < U32
  {
    if i < |lines| then ParseInt(Trimmed(Lowered(lines[i]))) % U32 else 0
  }

  /** A parsed data line: the word, its frequency and, with a third field, its subword list. */
  datatype Row = Row(word: Bytes, freq: int, subwords: Option<seq<int>>)

  /**
   * One data line: blank lines are skipped (`None`); fewer than two fields
   * or a negative frequency abort. The frequency is read with `atof` and
   * kept as its integer part.
   */
  function ParseRow(line: Bytes): (r: Result<Option<Row>>)
    ensures r.Ok? && r.value.Some? ==> r.value.value.freq >= 0
  {
    var l := Trimmed(Lowered(line));
    if l == [] then Ok(None) else ParseFields(TrimmedAll(Split(l, TAB)))
  }

  /** The fields of a non-blank data line, each trimmed. */
  function ParseFields(parts: seq<Bytes>): (r: Result<Option<Row>>)
    ensures r.Ok? ==> r.value.Some? && r.value.value.freq >= 0
  {
    if |parts| < 2 then Err("hash table not valid col number")
    else
      var f := ParseReal(parts[1]);
      if f < 0.0 then Err("can not parse hash table freq")
      else
        var subs := if |parts| >= 3 then Some(Parsed(Split(parts[2], PIPE))) else None;
        Ok(Some(Row(parts[0], f.Floor, subs)))
  }

  /** Replaces the subword list of row `pos`. */
  function SetSubwords(u: Table, pos: nat, subs: seq<int>): (v: Table)
    requires Canonical(u) && pos < |u.rows|
    ensures Canonical(v) && SameSetup(u, v) && SameEntries(v.rows, u.rows)
    ensures v.rows[pos].subwords == subs
    ensures forall i :: 0 <= i < |u.rows| && i != pos ==> v.rows[i] == u.rows[i]
    ensures v.filterFreq == u.filterFreq && v.trainWords == u.trainWords
  {
    var v := u.(rows := u.rows[pos := u.rows[pos].(subwords := subs)]);
    assert Words(v.rows) == Words(u.rows);
    SameWordsCanonical(u, v);
    v
  }

  /**
   * One parsed row: AddWord(word, freq, false), then, when the word is found
   * and the line had a third field, its subword list is the parsed one.
   * `None` when the index is full and the lookup does not end.
   */
  function ApplyRow(u: Table, r: Row): (v: Option<Table>)
    requires Canonical(u)
    ensures v.Some? ==> Canonical(v.value) && SameSetup(u, v.value)
  {
    var u1 :- AddWord(u, r.word, r.freq, false, true, false);
    var pos :- Find(u1, r.word);
    if pos >= 0 && r.subwords.Some? then
      FindCorrect(u1, r.word);
      Some(SetSubwords(u1, pos, r.subwords.value))
    else Some(u1)
  }

  /** A lookup that does not end, when the index is full, as an error. */
  function Ending(v: Option<Table>): (r: Result<Table>)
    ensures r.Ok? <==> v.Some?
    ensures r.Ok? ==> r.value == v.value
  {
    if v.None? then Err("the index is full") else Ok(v.value)
  }

  /** One data line read into the table and counted; a blank line is neither. */
  function LoadLine(u: Table, count: nat, line: Bytes): (r: Result<(Table, nat)>)
    requires Canonical(u)
    ensures r.Ok? ==> Canonical(r.value.0) && SameSetup(u, r.value.0)
  {
    var row :- ParseRow(line);
    if row.None? then Ok((u, count))
    else
      var v :- Ending(ApplyRow(u, row.value));
      Ok((v, count + 1))
  }

  /** The data lines in order, with the count of non-blank lines. */
  function LoadRows(u: Table, lines: seq<Bytes>): (r: Result<(Table, nat)>)
    requires Canonical(u)
    ensures r.Ok? ==> Canonical(r.value.0) && SameSetup(u, r.value.0)
  {
    if lines == [] then Ok((u, 0))
    else
      var p :- LoadRows(u, lines[..|lines| - 1]);
      LoadLine(p.0, p.1, lines[|lines| - 1])
  }

  /**
   * Load into the table just constructed: each header value must be
   * positive, the capacity read from the file replaces the constructed one,
   * the rows are added in file order with rebuilding off, the non-blank
   * line count must equal the resulting row count, and the discard table
   * is initialised.
   *
   * Probing is modulo the file's capacity while the slot vector keeps the
   * size the constructor gave it. A smaller file capacity leaves the slots
   * past it empty and never read, so the table is one of the file's
   * capacity; a larger one lets a probe index past the vector, which the
   * model refuses.
   */
  function Load(t: Table, lines: seq<Bytes>, sample: real, rate: RateFormula): (r: Result<Table>)
    requires Canonical(t) && t.rows == []
    ensures r.Ok? ==> Canonical(r.value) && |r.value.slots| == HeaderValue(lines, 0) <= |t.slots|
    ensures r.Ok? ==> r.value.subngram == t.subngram
    ensures r.Ok? ==> r.value.trainWords == FreqSum(r.value.rows)
  {
    var cap := HeaderValue(lines, 0);
    if cap == 0 then Err("capacity must be positive")
    else if HeaderValue(lines, 1) == 0 then Err("word size must be positive")
    else if HeaderValue(lines, 2) == 0 then Err("filter frequency must be positive")
    else if cap > |t.slots| then Err("capacity exceeds the constructed index")
    else
      var p :- LoadRows(Fresh(cap, t.subngram).(filterFreq := HeaderValue(lines, 2)), lines[3..]);
      if p.1 != p.0.wordsize then Err("line count differs from word size")
      else Ok(InitDiscard(p.0, sample, rate))
  }

  // ---------------------------------------------------------------------
  // Load(Save(t))

  /** The bytes of a rendered number or subword list. */
  predicate NumberByte(b: Byte) { IsDigit(b) || b == MINUS || b == DOT || b == PIPE }

  predicate NumberText(s: Bytes) { s != [] && forall k :: 0 <= k < |s| ==> NumberByte(s[k]) }

  /** A byte that comes back from the file unchanged inside a word: no stop byte, no tab, no capital. */
  predicate Carried(b: Byte) { !IsStopByte(b) && b != TAB && !(0x41 <= b <= 0x5A) }

  /** A row that Save writes and Load reads back as it was. */
  predicate Storable(x: Item)
  {
    x.word != [] && TrimClean(x.word) && x.freq >= 0 && forall k :: 0 <= k < |x.word| ==> Carried(x.word[k])
  }

  /** The lines Save writes for the rows. */
  function RowLines(rows: seq<Item>): (lines: seq<Bytes>)
    ensures |lines| == |rows|
  {
    seq(|rows|, i requires 0 <= i < |rows| => Trimmed(RowText(rows[i])))
  }

  /** The fields of a saved row line: the third only for a non-empty subword list. */
  function RowFields(x: Item): seq<Bytes>
  {
    if x.subwords == [] then [x.word, IntegralFloatToString(x.freq)]
    else [x.word, IntegralFloatToString(x.freq), SubwordText(x.subwords)]
  }

  /** What Load makes of a saved row line. */
  function RowOf(x: Item): Row
  {
    Row(x.word, x.freq, if x.subwords == [] then None else Some(x.subwords))
  }

  lemma NumberTextClean(s: Bytes)
    requires NumberText(s)
    ensures TrimClean(s) && Trimmed(s) == s && NoStopByte(s) && TAB !in s
  {
    TrimmedOfClean(s);
  }

  lemma IntText(n: int)
    ensures NumberText(IntToString(n))
  {
    IntToStringBytes(n);
  }

  lemma FloatText(n: int)
    ensures NumberText(IntegralFloatToString(n))
  {
    IntText(n);
    SixZeros();
  }

  lemma {:induction false} JoinNumbers(parts: seq<Bytes>)
    requires parts != [] && forall k :: 0 <= k < |parts| ==> NumberText(parts[k])
    ensures NumberText(Join(parts, PIPE))
  {
    if |parts| > 1 {
      JoinNumbers(parts[..|parts| - 1]);
    }
  }

  lemma SubwordTextIsNumber(v: seq<int>)
    requires v != []
    ensures NumberText(SubwordText(v))
  {
    JoinWithOneByte(Rendered(v), PIPE);
    forall k | 0 <= k < |v| ensures NumberText(Rendered(v)[k]) {
      IntText(v[k]);
    }
    JoinNumbers(Rendered(v));
  }

  /** WriteLine drops the tab that ends a row without subwords. */
  lemma TrimmedTrailingTab(s: Bytes)
    requires s != [] && TrimClean(s)
    ensures Trimmed(s + [TAB]) == s
  {
    var u := s + [TAB];
    assert u[..|u| - 1] == s;
    assert LeadingSpace(u) == 0;
    assert TrailingSpace(u) == 1;
  }

  lemma JoinTwo(a: Bytes, b: Bytes)
    ensures Join([a, b], TAB) == a + [TAB] + b
  {
    assert [a, b][..1] == [a];
  }

  lemma JoinThree(a: Bytes, b: Bytes, c: Bytes)
    ensures Join([a, b, c], TAB) == a + [TAB] + b + [TAB] + c
  {
    assert [a, b, c][..2] == [a, b];
    JoinTwo(a, b);
  }

  /** The line Save writes for a row is its fields joined by tabs. */
  lemma SavedRowLine(x: Item)
    requires Storable(x)
    ensures Trimmed(RowText(x)) == Join(RowFields(x), TAB)
  {
    var fs := IntegralFloatToString(x.freq);
    FloatText(x.freq);
    if x.subwords == [] {
      JoinTwo(x.word, fs);
      assert RowText(x) == (x.word + [TAB] + fs) + [TAB];
      TrimmedTrailingTab(x.word + [TAB] + fs);
    } else {
      var js := SubwordText(x.subwords);
      SubwordTextIsNumber(x.subwords);
      JoinThree(x.word, fs, js);
      TrimmedOfClean(RowText(x));
    }
  }

  /** No stop byte and no capital: a line that Load neither cuts short nor lowers. */
  predicate Plain(s: Bytes) { forall k :: 0 <= k < |s| ==> !IsStopByte(s[k]) && !(0x41 <= s[k] <= 0x5A) }

  /** A field that survives splitting at tabs and trimming. */
  predicate Field(s: Bytes) { TAB !in s && Trimmed(s) == s }

  lemma PlainTabJoin(a: Bytes, b: Bytes)
    requires Plain(a) && Plain(b)
    ensures Plain(a + [TAB] + b)
  {
    var l := a + [TAB] + b;
    forall k | 0 <= k < |l| ensures !IsStopByte(l[k]) && !(0x41 <= l[k] <= 0x5A) {
      if k < |a| {
        assert l[k] == a[k];
      } else if k > |a| {
        assert l[k] == b[k - |a| - 1];
      }
    }
  }

  lemma NumberTextPlain(s: Bytes)
    requires NumberText(s)
    ensures Plain(s) && Field(s)
  {
    NumberTextClean(s);
  }

  lemma WordPlain(x: Item)
    requires Storable(x)
    ensures Plain(x.word) && Field(x.word)
  {
    TrimmedOfClean(x.word);
  }

  lemma PlainLine(s: Bytes)
    requires Plain(s)
    ensures NoStopByte(s) && Lowered(s) == s
  {
  }

  /** The saved row line is plain and its fields survive splitting and trimming. */
  lemma SavedRowBytes(x: Item)
    requires Storable(x)
    ensures forall k :: 0 <= k < |RowFields(x)| ==> Field(RowFields(x)[k])
    ensures Join(RowFields(x), TAB) != [] && Plain(Join(RowFields(x), TAB))
  {
    var fs := IntegralFloatToString(x.freq);
    FloatText(x.freq);
    NumberTextPlain(fs);
    WordPlain(x);
    JoinTwo(x.word, fs);
    PlainTabJoin(x.word, fs);
    if x.subwords != [] {
      var js := SubwordText(x.subwords);
      SubwordTextIsNumber(x.subwords);
      NumberTextPlain(js);
      JoinThree(x.word, fs, js);
      PlainTabJoin(x.word + [TAB] + fs, js);
    }
  }

  /** Load parses the line Save wrote for a row back into that row. */
  lemma ParseSavedRow(x: Item)
    requires Storable(x)
    ensures ParseRow(Trimmed(RowText(x))) == Ok(Some(RowOf(x)))
  {
    SavedRowFields(x);
    ParseRealOfIntegralFloat(x.freq);
    if x.subwords != [] {
      SubwordEncodingRoundTrip(x.subwords);
    }
    ParseRowOfFields(Trimmed(RowText(x)), x);
  }

  /** Cleaning and splitting the saved row line gives back the row's fields. */
  lemma SavedRowFields(x: Item)
    requires Storable(x)
    ensures var l := Trimmed(Lowered(Trimmed(RowText(x))));
      l != [] && TrimmedAll(Split(l, TAB)) == RowFields(x)
  {
    var fs := RowFields(x);
    var l := Join(fs, TAB);
    CleanedRowLine(x);
    SavedRowBytes(x);
    SplitPlain(l, TAB);
    SplitFieldsOfJoin(fs, TAB);
    FieldsTrimmed(fs);
  }

  lemma FieldsTrimmed(fs: seq<Bytes>)
    requires forall k :: 0 <= k < |fs| ==> Field(fs[k])
    ensures TrimmedAll(fs) == fs
  {
  }

  /** Lower-casing and trimming leave the saved row line as written. */
  lemma CleanedRowLine(x: Item)
    requires Storable(x)
    ensures var l := Join(RowFields(x), TAB);
      Trimmed(Lowered(Trimmed(RowText(x)))) == l && l != [] && NoStopByte(l)
  {
    var l := Join(RowFields(x), TAB);
    SavedRowLine(x);
    SavedRowBytes(x);
    PlainLine(l);
    TrimmedIdempotent(RowText(x));
  }

  /** ParseRow on a line whose cleaned fields are the row's own fields. */
  lemma ParseRowOfFields(line: Bytes, x: Item)
    requires Trimmed(Lowered(line)) != [] && TrimmedAll(Split(Trimmed(Lowered(line)), TAB)) == RowFields(x)
    requires x.freq >= 0 && ParseReal(IntegralFloatToString(x.freq)) == x.freq as real
    requires x.subwords != [] ==> Parsed(Split(SubwordText(x.subwords), PIPE)) == x.subwords
    ensures ParseRow(line) == Ok(Some(RowOf(x)))
  {
    ParseRowFields(x);
  }

  /** ParseFields on the row's own fields gives the row back. */
  lemma ParseRowFields(x: Item)
    requires x.freq >= 0 && ParseReal(IntegralFloatToString(x.freq)) == x.freq as real
    requires x.subwords != [] ==> Parsed(Split(SubwordText(x.subwords), PIPE)) == x.subwords
    ensures ParseFields(RowFields(x)) == Ok(Some(RowOf(x)))
  {
    var parts := RowFields(x);
    assert (x.freq as real).Floor == x.freq;
  }

  /** AddWord(word, freq, false) on a new word leaves the floor and the training count alone. */
  lemma AddFreshKeeps(u: Table, x: Item)
    requires Canonical(u) && Storable(x) && x.word !in Words(u.rows) && |u.rows| < |u.slots|
    ensures AddWord(u, x.word, x.freq, false, true, false).Some?
    ensures var v := AddWord(u, x.word, x.freq, false, true, false).value;
      v.filterFreq == u.filterFreq && v.trainWords == u.trainWords
  {
    TrimmedOfClean(x.word);
    FindCorrect(u, x.word);
    assert Bump(u.rows, [], x.freq) == u.rows;
  }

  /** A saved row is appended to a table that does not hold its word yet. */
  lemma ApplySavedRow(u: Table, x: Item)
    requires Canonical(u) && Storable(x) && x.word !in Words(u.rows) && |u.rows| < |u.slots|
    ensures ApplyRow(u, RowOf(x)).Some?
    ensures var v := ApplyRow(u, RowOf(x)).value;
      v.rows == u.rows + [x] && v.filterFreq == u.filterFreq && v.trainWords == u.trainWords
  {
    TrimmedOfClean(x.word);
    AddWordFresh(u, x.word, x.freq, false, true);
    AddFreshKeeps(u, x);
    var u1 := AddWord(u, x.word, x.freq, false, true, false).value;
    if x.subwords != [] {
      var v := SetSubwords(u1, |u.rows|, x.subwords);
      assert v.rows[|u.rows|] == x;
      assert v.rows == u.rows + [x];
    }
  }

  /** One saved row line is applied as its row and counted. */
  lemma LoadSavedLine(u: Table, count: nat, x: Item)
    requires Canonical(u) && Storable(x) && x.word !in Words(u.rows) && |u.rows| < |u.slots|
    ensures ApplyRow(u, RowOf(x)).Some?
    ensures LoadLine(u, count, Trimmed(RowText(x))) == Ok((ApplyRow(u, RowOf(x)).value, count + 1))
  {
    ParseSavedRow(x);
    ApplySavedRow(u, x);
  }

  lemma FreshWord(rows: seq<Item>, n: nat)
    requires n < |rows| && Distinct(Words(rows))
    ensures rows[n].word !in Words(rows[..n])
  {
    var init := rows[..n];
    forall i | 0 <= i < n ensures Words(init)[i] != rows[n].word {
      assert Words(init)[i] == Words(rows)[i];
      assert Words(rows)[i] != Words(rows)[n];
    }
  }

  /** Loading the saved rows into an empty table appends them in order and counts them. */
  lemma {:induction false} LoadSavedRows(u: Table, rows: seq<Item>, lines: seq<Bytes>)
    requires Canonical(u) && u.rows == [] && |rows| <= |u.slots| && Distinct(Words(rows))
    requires forall i :: 0 <= i < |rows| ==> Storable(rows[i])
    requires |lines| == |rows| && forall i :: 0 <= i < |rows| ==> lines[i] == Trimmed(RowText(rows[i]))
    ensures LoadRows(u, lines).Ok?
    ensures var p := LoadRows(u, lines).value;
      p.0.rows == rows && p.1 == |rows| && p.0.filterFreq == u.filterFreq && p.0.trainWords == u.trainWords
  {
    if rows != [] {
      var n := |rows| - 1;
      var init := rows[..n];
      DistinctPrefix(rows, n);
      LoadSavedRows(u, init, lines[..n]);
      var p := LoadRows(u, lines[..n]).value;
      FreshWord(rows, n);
      LoadSavedLine(p.0, p.1, rows[n]);
      ApplySavedRow(p.0, rows[n]);
      Snoc(rows);
    }
  }

  lemma Snoc(rows: seq<Item>)
    requires rows != []
    ensures rows[..|rows| - 1] + [rows[|rows| - 1]] == rows
  {
  }

  lemma DistinctPrefix(rows: seq<Item>, n: nat)
    requires n <= |rows| && Distinct(Words(rows))
    ensures Distinct(Words(rows[..n]))
  {
    assert Words(rows[..n]) == Words(rows)[..n];
  }

  /** A number line that Save writes is read back as the same text. */
  lemma HeaderText(n: int)
    ensures Trimmed(Lowered(Trimmed(IntToString(n)))) == IntToString(n)
  {
    var s := IntToString(n);
    IntText(n);
    NumberTextPlain(s);
    PlainLine(s);
  }

  /** A header line Save writes reads back as its value. */
  lemma HeaderRoundTrip(n: nat)
    requires n < U32
    ensures ParseInt(Trimmed(Lowered(Trimmed(IntToString(n))))) % U32 == n
  {
    HeaderText(n);
    ParseIntRoundTrip(n);
    SmallMod(n);
  }

  lemma SmallMod(n: nat)
    requires n < U32
    ensures n % U32 == n
  {
  }

  lemma SavedHeader(t: Table)
    requires |t.slots| < U32 && 0 <= t.wordsize < U32 && 0 <= t.filterFreq < U32
    ensures HeaderValue(SaveLines(t), 0) == |t.slots|
    ensures HeaderValue(SaveLines(t), 1) == t.wordsize
    ensures HeaderValue(SaveLines(t), 2) == t.filterFreq
  {
    var lines := SaveLines(t);
    assert lines[0] == Trimmed(IntToString(|t.slots|));
    assert lines[1] == Trimmed(IntToString(t.wordsize));
    assert lines[2] == Trimmed(IntToString(t.filterFreq));
    HeaderRoundTrip(|t.slots|);
    HeaderRoundTrip(t.wordsize);
    HeaderRoundTrip(t.filterFreq);
  }

  lemma SavedRowLines(t: Table)
    ensures SaveLines(t)[3..] == RowLines(t.rows)
  {
  }

  /**
   * Loading what Save wrote into a table constructed with at least the
   * saved capacity gives back the saved table, its discard table
   * recomputed: same capacity, rows in the same order, index, row count
   * and filter floor.
   */
  lemma LoadSave(t: Table, built: nat, sample: real, rate: RateFormula)
    requires Canonical(t) && t.rows != [] && |t.slots| < U32 && 0 < t.filterFreq < U32
    requires forall i :: 0 <= i < |t.rows| ==> Storable(t.rows[i])
    requires |t.slots| <= built
    ensures Load(Fresh(built, t.subngram), SaveLines(t), sample, rate) == Ok(InitDiscard(t, sample, rate))
  {
    SavedHeader(t);
    var u := Fresh(|t.slots|, t.subngram).(filterFreq := t.filterFreq);
    var lines := SaveLines(t)[3..];
    SavedRowLines(t);
    LoadSavedRows(u, t.rows, lines);
    var p := LoadRows(u, lines).value;
    assert p.0.slots == t.slots;
    LoadOfRows(Fresh(built, t.subngram), SaveLines(t), sample, rate, p);
    InitDiscardSameCore(p.0, t, sample, rate);
  }

  /** Load once its headers are accepted and its data lines read. */
  lemma LoadOfRows(t: Table, lines: seq<Bytes>, sample: real, rate: RateFormula, p: (Table, nat))
    requires Canonical(t) && t.rows == []
    requires 0 < HeaderValue(lines, 0) <= |t.slots| && HeaderValue(lines, 1) > 0 && HeaderValue(lines, 2) > 0
    requires LoadRows(Fresh(HeaderValue(lines, 0), t.subngram).(filterFreq := HeaderValue(lines, 2)), lines[3..]) == Ok(p)
    requires p.1 == p.0.wordsize
    ensures Load(t, lines, sample, rate) == Ok(InitDiscard(p.0, sample, rate))
  {
  }

  /**
   * A file whose capacity exceeds the constructed index is refused; one
   * whose capacity fits loads exactly when its rows read into a table of
   * the file's capacity and their count matches the word size.
   */
  lemma LoadCapacity(t: Table, lines: seq<Bytes>, sample: real, rate: RateFormula)
    requires Canonical(t) && t.rows == []
    requires HeaderValue(lines, 0) > 0 && HeaderValue(lines, 1) > 0 && HeaderValue(lines, 2) > 0
    ensures HeaderValue(lines, 0) > |t.slots| ==> Load(t, lines, sample, rate).Err?
    ensures HeaderValue(lines, 0) <= |t.slots| ==>
      var p := LoadRows(Fresh(HeaderValue(lines, 0), t.subngram).(filterFreq := HeaderValue(lines, 2)), lines[3..]);
      (Load(t, lines, sample, rate).Ok? <==> p.Ok? && p.value.1 == p.value.0.wordsize)
  {
  }

  /** InitDiscardTable overwrites everything but the rows, the index, the counts and the setup. */
  lemma InitDiscardSameCore(a: Table, b: Table, sample: real, rate: RateFormula)
    requires a.rows == b.rows && a.slots == b.slots && a.wordsize == b.wordsize
    requires a.filterFreq == b.filterFreq && a.subngram == b.subngram
    ensures InitDiscard(a, sample, rate) == InitDiscard(b, sample, rate)
  {
  }

  /** A table with no rows saves a word count of 0, which Load refuses. */
  lemma EmptySaveRefused(t: Table, sample: real, rate: RateFormula)
    requires Canonical(t) && t.rows == [] && |t.slots| < U32 && 0 <= t.filterFreq < U32
    ensures Load(Fresh(|t.slots|, t.subngram), SaveLines(t), sample, rate).Err?
  {
    SavedHeader(t);
  }
}
