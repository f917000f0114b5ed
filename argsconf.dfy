/**
 * The configuration of the trainer (utils/argsconf.cc): the typed settings
 * with their defaults, the `key = value` reading of a configuration file,
 * the lookups of free-form keys the models use, and the minimum checks.
 *
 * The source reaches its fields through four maps from key to field
 * pointer; here each family of fields is a map from key to value with a
 * fixed key set, so "a known key" is a key of one of the four maps.
 */
module Config {
  import opened Wrappers
  import opened Bytes
  import opened BasicUtil

  datatype Settings = Settings(
    strs: map<Bytes, Bytes>,
    ints: map<Bytes, int>,
    floats: map<Bytes, real>,
    bools: map<Bytes, bool>,
    extra: map<Bytes, Bytes>)

  /** The four kinds of model, numbered from 1 as in the enumeration. */
  datatype ModelName = Skip | Cls | Kb | Pair
  {
    function Code(): (c: nat)
      ensures 1 <= c <= 4
    {
      match this
      case Skip => 1
      case Cls => 2
      case Kb => 3
      case Pair => 4
    }
  }

  /** The loss of a classifier: negative sampling or full softmax. */
  datatype LossFun = Ng | Softmax

  /** The integer settings with the minimum CheckArgs demands of each. */
  function IntMinimums(): map<Bytes, int>
  {
    map[Lit("minlen") := 1, Lit("maxlen") := 1, Lit("maxvocabsize") := 10000,
        Lit("maxphrasesize") := 10000, Lit("minwordfreq") := 1, Lit("minphrasefreq") := 1,
        Lit("dim") := 1, Lit("ngram") := 1, Lit("subngram") := 1,
        Lit("phrasefreqthreshold") := 1, Lit("windowsize") := 1, Lit("thread") := 1,
        Lit("getlossevery") := 1, Lit("evalevery") := 1, Lit("epoch") := 1]
  }

  function FloatKeys(): set<Bytes>
  {
    {Lit("learnrate"), Lit("freqsample"), Lit("dropoutkeeprate")}
  }

  function BoolKeys(): set<Bytes>
  {
    {Lit("useskipgram"), Lit("usecls"), Lit("usepair")}
  }

  /** Only lower-case free-form keys. */
  predicate LowerKeys(s: Settings)
  {
    forall k :: k in s.extra ==> Lowered(k) == k
  }

  /** Every key CheckArgs reads is present. */
  predicate Checkable(s: Settings)
  {
    IntMinimums().Keys <= s.ints.Keys && FloatKeys() <= s.floats.Keys && BoolKeys() <= s.bools.Keys
  }

  /** The member initialisers of the header and the constructor. */
  function Defaults(): (s: Settings)
    ensures s.extra == map[]
  {
    Settings(
      map[Lit("process") := [], Lit("modeldir") := [], Lit("trainfile") := [], Lit("evalfile") := []],
      map[Lit("minlen") := 3, Lit("maxlen") := 10000, Lit("maxvocabsize") := 30000000,
          Lit("maxphrasesize") := 30000000, Lit("minwordfreq") := 10, Lit("minphrasefreq") := 10,
          Lit("dim") := 64, Lit("ngram") := 2, Lit("subngram") := 2,
          Lit("phrasefreqthreshold") := 3, Lit("windowsize") := 5, Lit("thread") := 20,
          Lit("getlossevery") := 100, Lit("evalevery") := 10000, Lit("epoch") := 1],
      map[Lit("learnrate") := 0.05, Lit("freqsample") := 0.0001, Lit("dropoutkeeprate") := 1.0],
      map[Lit("useskipgram") := true, Lit("usecls") := true, Lit("usepair") := true],
      map[])
  }

  // ---------------------------------------------------------------------
  // Reading the file

  /** A line as GetLine returns it (lower-cased) after StringTrim. */
  function Normalised(raw: Bytes): Bytes
  {
    Trimmed(Lowered(raw))
  }

  /** The trimmed parts of a line cut at `=`. */
  function LineParts(line: Bytes): seq<Bytes>
  {
    TrimmedAll(Split(line, EQUALS))
  }

  /** Stores `value` under `key` by the type of the key; an unknown key goes to the free-form map, lower-cased. */
  function Assign(s: Settings, key: Bytes, value: Bytes): Settings
  {
    if key in s.strs then s.(strs := s.strs[key := value])
    else if key in s.ints then s.(ints := s.ints[key := ParseInt(value)])
    else if key in s.floats then s.(floats := s.floats[key := ParseReal(value)])
    else if key in s.bools then s.(bools := s.bools[key := Lowered(value) == Lit("true")])
    else s.(extra := s.extra[Lowered(key) := Lowered(value)])
  }

  /** One line of the configuration file: comments and lines without exactly two non-empty parts are skipped. */
  function ApplyLine(s: Settings, raw: Bytes): Settings
  {
    var line := Normalised(raw);
    if StartWith(line, [HASH_SIGN]) then s
    else
      var parts := LineParts(line);
      if |parts| != 2 || parts[0] == [] || parts[1] == [] then s
      else Assign(s, parts[0], parts[1])
  }

  function ApplyLines(s: Settings, lines: seq<Bytes>): Settings
  {
    if lines == [] then s else ApplyLine(ApplyLines(s, lines[..|lines| - 1]), lines[|lines| - 1])
  }

  // ---------------------------------------------------------------------
  // Lookups and checks

  /** GetParamNum: the `atof` value of a free-form key as given (not lower-cased), -1 when absent. */
  function ParamNum(s: Settings, key: Bytes): real
  {
    if key in s.extra then ParseReal(s.extra[key]) else -1.0
  }

  /** GetParamStr: the value of the lower-cased key, "NULL" when absent. */
  function ParamStr(s: Settings, key: Bytes): Bytes
  {
    var k := Lowered(key);
    if k in s.extra then s.extra[k] else Lit("NULL")
  }

  /** At least one of the three training tasks is enabled. */
  predicate AnyTask(s: Settings)
    requires BoolKeys() <= s.bools.Keys
  {
    s.bools[Lit("useskipgram")] || s.bools[Lit("usecls")] || s.bools[Lit("usepair")]
  }

  /** CheckArgs: false where the source exits or a CheckMin assert fails. */
  function CheckArgs(s: Settings): (ok: bool)
    requires Checkable(s)
    ensures ok ==> forall k :: k in IntMinimums() ==> s.ints[k] >= IntMinimums()[k] >= 1
    ensures ok ==> forall k :: k in FloatKeys() ==> s.floats[k] >= 0.0
    ensures !AnyTask(s) ==> !ok
  {
    && AnyTask(s)
    && (forall k :: k in IntMinimums() ==> s.ints[k] >= IntMinimums()[k])
    && (forall k :: k in FloatKeys() ==> s.floats[k] >= 0.0)
  }

  // ---------------------------------------------------------------------
  // Properties

  /**
   * One integer setting alone decides against its minimum: set below it,
   * CheckArgs fails whatever the rest; raised from a passing setting, it
   * still passes.
   */
  lemma CheckArgsPerKey(s: Settings, k: Bytes, v: int)
    requires Checkable(s) && k in IntMinimums()
    ensures v < IntMinimums()[k] ==> !CheckArgs(s.(ints := s.ints[k := v]))
    ensures CheckArgs(s) && v >= s.ints[k] ==> CheckArgs(s.(ints := s.ints[k := v]))
  {
    var s' := s.(ints := s.ints[k := v]);
    assert Checkable(s');
    if CheckArgs(s) && v >= s.ints[k] {
      forall j | j in IntMinimums()
        ensures s'.ints[j] >= IntMinimums()[j]
      {
        if j != k {
          assert s'.ints[j] == s.ints[j];
        }
      }
    }
  }

  /** The defaults enable every task and meet every minimum. */
  lemma DefaultsChecked()
    ensures Checkable(Defaults()) && CheckArgs(Defaults())
  {
    var d := Defaults();
    DefaultIntsMeetMinimums();
    assert FloatKeys() <= d.floats.Keys && BoolKeys() <= d.bools.Keys;
    assert AnyTask(d);
  }

  /** Every integer default is present and at least its minimum. */
  lemma DefaultIntsMeetMinimums()
    ensures forall k :: k in IntMinimums() ==> k in Defaults().ints && Defaults().ints[k] >= IntMinimums()[k]
  {
    var d := Defaults().ints;
    var m := IntMinimums();
    forall k | k in m
      ensures k in d && d[k] >= m[k]
    {
    }
  }

  lemma LoweredIdempotent(s: Bytes)
    ensures Lowered(Lowered(s)) == Lowered(s)
  {
  }

  lemma LoweredConcat(a: Bytes, b: Bytes)
    ensures Lowered(a + b) == Lowered(a) + Lowered(b)
  {
  }

  /** Reading lines keeps every key CheckArgs reads and keeps the free-form keys lower-case. */
  lemma {:induction false} ApplyLinesKeys(s: Settings, lines: seq<Bytes>)
    requires Checkable(s) && LowerKeys(s)
    ensures Checkable(ApplyLines(s, lines)) && LowerKeys(ApplyLines(s, lines))
    decreases |lines|
  {
    if lines != [] {
      ApplyLinesKeys(s, lines[..|lines| - 1]);
      var t := ApplyLines(s, lines[..|lines| - 1]);
      var line := Normalised(lines[|lines| - 1]);
      if !StartWith(line, [HASH_SIGN]) {
        var parts := LineParts(line);
        if |parts| == 2 && parts[0] != [] && parts[1] != [] {
          AssignKeys(t, parts[0], parts[1]);
        }
      }
    }
  }

  lemma AssignKeys(s: Settings, key: Bytes, value: Bytes)
    requires Checkable(s) && LowerKeys(s)
    ensures Checkable(Assign(s, key, value)) && LowerKeys(Assign(s, key, value))
  {
    if key !in s.strs && key !in s.ints && key !in s.floats && key !in s.bools {
      LoweredIdempotent(key);
    }
  }

  /** A key or value that survives reading as it is: non-empty, trimmed, lower-case, without `=` or a stop byte. */
  predicate CleanPart(p: Bytes)
  {
    p != [] && TrimClean(p) && Lowered(p) == p && NoStopByte(p) && EQUALS !in p
  }

  /** The line `key=value` is the join of its two parts and is already lower-case and trimmed. */
  lemma CleanLine(key: Bytes, value: Bytes)
    requires CleanPart(key) && CleanPart(value) && key[0] != HASH_SIGN
    ensures var line := key + [EQUALS] + value;
      && line == Join([key, value], EQUALS) && NoStopByte(line) && line != [] && line != [EQUALS]
      && Lowered(line) == line && TrimClean(line) && !StartWith(line, [HASH_SIGN])
  {
    var line := key + [EQUALS] + value;
    LoweredConcat(key + [EQUALS], value);
    LoweredConcat(key, [EQUALS]);
    assert Lowered([EQUALS]) == [EQUALS];
    assert line[0] == key[0] && line[|line| - 1] == value[|value| - 1];
    assert line[..1] == [key[0]];
    forall k | 0 <= k < |line| ensures !IsStopByte(line[k]) {
      if k < |key| { assert line[k] == key[k]; }
      else if k > |key| { assert line[k] == value[k - |key| - 1]; }
    }
    assert [key, value][..1] == [key];
  }

  /** A clean `key=value` line is cut into exactly `key` and `value`. */
  lemma CleanLineParts(key: Bytes, value: Bytes)
    requires CleanPart(key) && CleanPart(value) && key[0] != HASH_SIGN
    ensures Normalised(key + [EQUALS] + value) == key + [EQUALS] + value
    ensures !StartWith(key + [EQUALS] + value, [HASH_SIGN])
    ensures LineParts(key + [EQUALS] + value) == [key, value]
  {
    var line := key + [EQUALS] + value;
    CleanLine(key, value);
    TrimmedOfClean(line);
    SplitPlain(line, EQUALS);
    SplitFieldsOfJoin([key, value], EQUALS);
    TrimmedOfClean(key);
    TrimmedOfClean(value);
    assert TrimmedAll([key, value]) == [key, value];
  }

  /**
   * A clean `key=value` line stores the value by the key's type: verbatim,
   * parsed, `true` iff the value is "true", or under the free-form key, where
   * both lookups then find it. Nothing else changes.
   */
  lemma ApplyCleanLine(s: Settings, key: Bytes, value: Bytes)
    requires CleanPart(key) && CleanPart(value) && key[0] != HASH_SIGN
    ensures var r := ApplyLine(s, key + [EQUALS] + value);
      && (key in s.strs ==> r == s.(strs := s.strs[key := value]))
      && (key !in s.strs && key in s.ints ==> r == s.(ints := s.ints[key := ParseInt(value)]))
      && (key !in s.strs && key !in s.ints && key in s.floats ==>
            r == s.(floats := s.floats[key := ParseReal(value)]))
      && (key !in s.strs && key !in s.ints && key !in s.floats && key in s.bools ==>
            r == s.(bools := s.bools[key := value == Lit("true")]))
      && (key !in s.strs && key !in s.ints && key !in s.floats && key !in s.bools ==>
            r == s.(extra := s.extra[key := value])
            && ParamStr(r, key) == value && ParamNum(r, key) == ParseReal(value))
  {
    CleanLineParts(key, value);
  }

  lemma ApplyLinesSnoc(s: Settings, lines: seq<Bytes>, line: Bytes)
    ensures ApplyLines(s, lines + [line]) == ApplyLine(ApplyLines(s, lines), line)
  {
    assert (lines + [line])[..|lines|] == lines;
  }

  /** A later line for the same free-form key overrides an earlier one. */
  lemma LaterLineOverrides(s: Settings, key: Bytes, v1: Bytes, v2: Bytes)
    requires CleanPart(key) && key[0] != HASH_SIGN && CleanPart(v1) && CleanPart(v2)
    requires key !in s.strs && key !in s.ints && key !in s.floats && key !in s.bools
    ensures ParamStr(ApplyLines(s, [key + [EQUALS] + v1, key + [EQUALS] + v2]), key) == v2
  {
    var l1 := key + [EQUALS] + v1;
    var l2 := key + [EQUALS] + v2;
    var t := ApplyLine(s, l1);
    ApplyLinesSnoc(s, [], l1);
    ApplyLinesSnoc(s, [l1], l2);
    assert [] + [l1] == [l1] && [l1] + [l2] == [l1, l2];
    ApplyCleanLine(s, key, v1);
    assert t.strs == s.strs && t.ints == s.ints && t.floats == s.floats && t.bools == s.bools;
    ApplyCleanLine(t, key, v2);
  }

  /** Lines that do not cut into exactly two parts at `=` (such as a value holding `=`) change nothing. */
  lemma LineWithoutOneEquals(s: Settings, raw: Bytes)
    requires NoStopByte(Normalised(raw)) && CountByte(Normalised(raw), EQUALS) != 1
    ensures ApplyLine(s, raw) == s
  {
    var line := Normalised(raw);
    if line != [] && line != [EQUALS] {
      SplitPlain(line, EQUALS);
      SplitFieldsCount(line, EQUALS);
    }
  }

  /** GetParamStr ignores the case of its key. */
  lemma ParamStrIgnoresCase(s: Settings, key: Bytes)
    ensures ParamStr(s, key) == ParamStr(s, Lowered(key))
  {
    LoweredIdempotent(key);
  }

  /** GetParamNum does not lower-case: a key with an upper-case letter is never found once read from a file. */
  lemma ParamNumIsCaseSensitive(s: Settings, key: Bytes)
    requires LowerKeys(s) && Lowered(key) != key
    ensures ParamNum(s, key) == -1.0
  {
  }

  /** The configuration object: five maps the reading loop assigns through. */
  class ArgsConf {
    var strs: map<Bytes, Bytes>
    var ints: map<Bytes, int>
    var floats: map<Bytes, real>
    var bools: map<Bytes, bool>
    var extra: map<Bytes, Bytes>

    function State(): Settings
      reads this
    {
      Settings(strs, ints, floats, bools, extra)
    }

    constructor()
      ensures State() == Defaults()
    {
      var d := Defaults();
      strs, ints, floats, bools, extra := d.strs, d.ints, d.floats, d.bools, d.extra;
    }

    /** Init: the lines of the file in order, or false when it cannot be opened. */
    method Init(file: Option<seq<Bytes>>) returns (ok: bool)
      modifies this
      ensures ok == file.Some?
      ensures file.None? ==> State() == old(State())
      ensures file.Some? ==> State() == ApplyLines(old(State()), file.value)
    {
      if file.None? {
        return false;
      }
      var lines := file.value;
      ghost var s0 := State();
      var i := 0;
      while i < |lines|
        invariant 0 <= i <= |lines|
        invariant State() == ApplyLines(s0, lines[..i])
      {
        assert lines[..i + 1][..i] == lines[..i];
        ReadLine(lines[i]);
        i := i + 1;
      }
      assert lines[..i] == lines;
      return true;
    }

    /** The body of the reading loop for one line. */
    method ReadLine(raw: Bytes)
      modifies this
      ensures State() == ApplyLine(old(State()), raw)
    {
      var line := StringToLower(raw);
      line := StringTrim(line);
      if StartWith(line, [HASH_SIGN]) {
        return;
      }
      var parts := StringSplit(line, [EQUALS]);
      parts := TrimVector(parts);
      if |parts| != 2 || parts[0] == [] || parts[1] == [] {
        return;
      }
      Store(parts[0], parts[1]);
    }

    /** The dispatch on the key's type through the four pointer maps. */
    method Store(key: Bytes, value: Bytes)
      modifies this
      ensures State() == Assign(old(State()), key, value)
    {
      if key in strs {
        strs := strs[key := value];
      } else if key in ints {
        ints := ints[key := ParseInt(value)];
      } else if key in floats {
        floats := floats[key := ParseReal(value)];
      } else if key in bools {
        var v := StringToLower(value);
        bools := bools[key := v == Lit("true")];
      } else {
        var k := StringToLower(key);
        var v := StringToLower(value);
        extra := extra[k := v];
      }
    }
  }
}
