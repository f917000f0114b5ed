/** String helpers of `utils/basicutil.cc`: trimming, case folding, splitting, prefixes. */
module BasicUtil {
  import opened Bytes

  // ---------------------------------------------------------------------
  // Trimming

  /** The bytes StringTrim removes: ' ', '\t' and '\n'. A '\r' is kept. */
  predicate IsTrimSpace(b: Byte) { b == SPACE || b == TAB || b == NEWLINE }

  predicate AllTrimSpace(s: Bytes) { forall k :: 0 <= k < |s| ==> IsTrimSpace(s[k]) }

  /** Neither end of `s` is a trimmed byte (the empty string counts as clean). */
  predicate TrimClean(s: Bytes) { s == [] || (!IsTrimSpace(s[0]) && !IsTrimSpace(s[|s| - 1])) }

  /** `r` is `s` with an all-space prefix of length `i` and an all-space suffix removed. */
  predicate TrimSplit(s: Bytes, i: int, r: Bytes)
  {
    0 <= i && i + |r| <= |s| && s[i..i + |r|] == r
    && AllTrimSpace(s[..i]) && AllTrimSpace(s[i + |r|..])
  }

  function LeadingSpace(s: Bytes): (k: nat)
    ensures k <= |s|
    ensures forall i :: 0 <= i < k ==> IsTrimSpace(s[i])
    ensures k < |s| ==> !IsTrimSpace(s[k])
  {
    if |s| > 0 && IsTrimSpace(s[0]) then 1 + LeadingSpace(s[1..]) else 0
  }

  function TrailingSpace(s: Bytes): (k: nat)
    ensures k <= |s|
    ensures forall i :: |s| - k <= i < |s| ==> IsTrimSpace(s[i])
    ensures k < |s| ==> !IsTrimSpace(s[|s| - k - 1])
  {
    if |s| > 0 && IsTrimSpace(s[|s| - 1]) then 1 + TrailingSpace(s[..|s| - 1]) else 0
  }

  /**
   * The const overload `StringTrim(const string&)`: a trimmed copy. The
   * result is the unique clean substring left after removing an all-space
   * prefix and an all-space suffix.
   */
  function Trimmed(s: Bytes): (r: Bytes)
    ensures AllTrimSpace(s) <==> r == []
    ensures TrimClean(r)
    ensures exists i :: TrimSplit(s, i, r)
  {
    var a := LeadingSpace(s);
    if a == |s| then
      assert TrimSplit(s, 0, []);
      []
    else
      var b := |s| - TrailingSpace(s);
      assert a < b;
      assert TrimSplit(s, a, s[a..b]);
      s[a..b]
  }

  /** The pointer overload `StringTrim(string*)`: the two index walks of the source. */
  method StringTrim(s: Bytes) returns (r: Bytes)
    ensures r == Trimmed(s)
  {
    var start := 0;
    var end := |s|;
    while start != end && IsTrimSpace(s[start])
      invariant 0 <= start <= end == |s|
      invariant forall k :: 0 <= k < start ==> IsTrimSpace(s[k])
    {
      start := start + 1;
    }
    if start == end {
      return [];
    }
    end := end - 1;
    while IsTrimSpace(s[end])
      invariant start <= end < |s|
      invariant forall k :: end < k < |s| ==> IsTrimSpace(s[k])
      decreases end
    {
      end := end - 1;
    }
    assert LeadingSpace(s) == start;
    assert TrailingSpace(s) == |s| - 1 - end;
    r := s[start..end + 1];
  }

  /** Trimming a string with a space at either end makes it strictly shorter. */
  lemma TrimmedShorter(s: Bytes)
    requires s != [] && !TrimClean(s)
    ensures |Trimmed(s)| < |s|
  {
    var a :| TrimSplit(s, a, Trimmed(s));
  }

  lemma TrimmedOfClean(s: Bytes)
    requires TrimClean(s)
    ensures Trimmed(s) == s
  {
    if s != [] {
      assert LeadingSpace(s) == 0;
      assert TrailingSpace(s) == 0;
    }
  }

  /** Trimming twice is trimming once. */
  lemma TrimmedIdempotent(s: Bytes)
    ensures Trimmed(Trimmed(s)) == Trimmed(s)
  {
    TrimmedOfClean(Trimmed(s));
  }

  // ---------------------------------------------------------------------
  // Case folding and vectors of strings

  /** Every byte of `s` through C-locale `tolower`. */
  function Lowered(s: Bytes): (r: Bytes)
    ensures |r| == |s|
    ensures forall k :: 0 <= k < |s| ==> r[k] == LowerByte(s[k])
  {
    seq(|s|, k requires 0 <= k < |s| => LowerByte(s[k]))
  }

  /** StringToLower: C-locale `tolower` on every byte. */
  method StringToLower(s: Bytes) returns (r: Bytes)
    ensures |r| == |s|
    ensures forall k :: 0 <= k < |s| ==> r[k] == LowerByte(s[k])
    ensures r == Lowered(s)
  {
    r := s;
    var i := 0;
    while i < |r|
      invariant 0 <= i <= |r| == |s|
      invariant forall k :: 0 <= k < i ==> r[k] == LowerByte(s[k])
      invariant forall k :: i <= k < |r| ==> r[k] == s[k]
    {
      r := r[i := LowerByte(r[i])];
      i := i + 1;
    }
  }

  /** Every element of `v` trimmed. */
  function TrimmedAll(v: seq<Bytes>): (r: seq<Bytes>)
    ensures |r| == |v|
    ensures forall k :: 0 <= k < |v| ==> r[k] == Trimmed(v[k])
  {
    seq(|v|, k requires 0 <= k < |v| => Trimmed(v[k]))
  }

  /** TrimVector: every element trimmed, the length kept. */
  method TrimVector(v: seq<Bytes>) returns (r: seq<Bytes>)
    ensures |r| == |v|
    ensures forall k :: 0 <= k < |v| ==> r[k] == Trimmed(v[k])
    ensures r == TrimmedAll(v)
  {
    r := v;
    var i := 0;
    while i < |r|
      invariant 0 <= i <= |r| == |v|
      invariant forall k :: 0 <= k < i ==> r[k] == Trimmed(v[k])
      invariant forall k :: i <= k < |r| ==> r[k] == v[k]
    {
      var t := StringTrim(r[i]);
      r := r[i := t];
      i := i + 1;
    }
  }

  // ---------------------------------------------------------------------
  // Splitting

  /**
   * The split loop reads the string through `c_str()`, which ends at the
   * first NUL byte, and stores each byte in a `char` compared with EOF, so a
   * 0xFF byte also ends the input.
   */
  predicate IsStopByte(b: Byte) { b == 0x00 || b == 0xFF }

  predicate NoStopByte(s: Bytes) { forall k :: 0 <= k < |s| ==> !IsStopByte(s[k]) }

  function ReadExtent(s: Bytes): (n: nat)
    ensures n <= |s| && NoStopByte(s[..n])
    ensures n < |s| ==> IsStopByte(s[n])
  {
    if |s| == 0 || IsStopByte(s[0]) then 0
    else
      var n := 1 + ReadExtent(s[1..]);
      assert s[..n] == [s[0]] + s[1..][..n - 1];
      n
  }

  /** The fields of `s` cut at every `sep`, built from the front as the loop does. */
  function SplitFields(s: Bytes, sep: Byte): (r: seq<Bytes>)
    ensures |r| >= 1
  {
    if s == [] then [[]]
    else
      var r := SplitFields(s[..|s| - 1], sep);
      if s[|s| - 1] == sep then r + [[]]
      else r[..|r| - 1] + [r[|r| - 1] + [s[|s| - 1]]]
  }

  /** StringSplit on a one-byte separator, with the two special cases of the source. */
  function Split(s: Bytes, sep: Byte): seq<Bytes>
  {
    if s == [] then [[]]
    else if s == [sep] then [[], []]
    else SplitFields(s[..ReadExtent(s)], sep)
  }

  /** The StringSplit loop stops at the read extent, where the fields are Split's. */
  lemma SplitEnd(s: Bytes, splitor: Bytes, i: nat, q: seq<Bytes>)
    requires |splitor| == 1 && s != [] && s != splitor
    requires i == ReadExtent(s) && q == SplitFields(s[..i], splitor[0])
    ensures q == Split(s, splitor[0])
  {
    assert splitor == [splitor[0]];
  }

  /** The first stop byte, or the end, is the read extent. */
  lemma StopAtExtent(s: Bytes, i: nat)
    requires i <= ReadExtent(s) && (i == |s| || IsStopByte(s[i]))
    ensures i == ReadExtent(s)
  {
    var n := ReadExtent(s);
    forall k | 0 <= k < n ensures !IsStopByte(s[k]) {
      assert s[..n][k] == s[k];
    }
  }

  /** One more byte read by the StringSplit loop. */
  lemma SplitFieldsNext(s: Bytes, i: nat, c: Byte, r: seq<Bytes>, word: Bytes)
    requires i < |s| && r + [word] == SplitFields(s[..i], c)
    ensures s[i] == c ==> SplitFields(s[..i + 1], c) == (r + [word]) + [[]]
    ensures s[i] != c ==> SplitFields(s[..i + 1], c) == r + [word + [s[i]]]
  {
    assert s[..i + 1][..i] == s[..i];
    var q := r + [word];
    assert q[..|q| - 1] == r;
  }

  method StringSplit(s: Bytes, splitor: Bytes) returns (r: seq<Bytes>)
    requires |splitor| == 1
    ensures r == Split(s, splitor[0])
  {
    if s == [] {
      r := [[]];
    } else if s == splitor {
      r := [[], []];
    } else {
      var c := splitor[0];
      var n := ReadExtent(s);
      r := [];
      var word: Bytes := [];
      var i := 0;
      while i < |s| && !IsStopByte(s[i])
        invariant 0 <= i <= n
        invariant r + [word] == SplitFields(s[..i], c)
        decreases |s| - i
      {
        SplitFieldsNext(s, i, c, r, word);
        if s[i] == c {
          r := r + [word];
          word := [];
        } else {
          word := word + [s[i]];
        }
        i := i + 1;
      }
      StopAtExtent(s, i);
      SplitEnd(s, splitor, i, r + [word]);
      r := r + [word];
    }
  }

  /** `parts` joined with `sep` (the inverse of SplitFields). */
  function Join(parts: seq<Bytes>, sep: Byte): Bytes
  {
    if parts == [] then []
    else if |parts| == 1 then parts[0]
    else Join(parts[..|parts| - 1], sep) + [sep] + parts[|parts| - 1]
  }

  function CountByte(s: Bytes, b: Byte): nat
  {
    if s == [] then 0 else CountByte(s[..|s| - 1], b) + (if s[|s| - 1] == b then 1 else 0)
  }

  /** Without stop bytes, Split is SplitFields on the whole string. */
  lemma SplitPlain(s: Bytes, sep: Byte)
    requires NoStopByte(s)
    ensures Split(s, sep) == SplitFields(s, sep)
  {
    if s != [] {
      assert ReadExtent(s) == |s|;
      assert s[..|s|] == s;
      if s == [sep] {
        assert [sep][..0] == [];
      }
    }
  }

  /** One more field than separators. */
  lemma {:induction false} SplitFieldsCount(s: Bytes, sep: Byte)
    ensures |SplitFields(s, sep)| == CountByte(s, sep) + 1
  {
    if s != [] {
      SplitFieldsCount(s[..|s| - 1], sep);
    }
  }

  /** No field holds the separator. */
  lemma {:induction false} SplitFieldsNoSep(s: Bytes, sep: Byte)
    ensures forall k :: 0 <= k < |SplitFields(s, sep)| ==> sep !in SplitFields(s, sep)[k]
  {
    if s != [] {
      SplitFieldsNoSep(s[..|s| - 1], sep);
    }
  }

  /** Joining the fields with the separator gives the input back. */
  lemma {:induction false} JoinSplitFields(s: Bytes, sep: Byte)
    ensures Join(SplitFields(s, sep), sep) == s
  {
    if s != [] {
      var p := s[..|s| - 1];
      var x := s[|s| - 1];
      var r := SplitFields(p, sep);
      JoinSplitFields(p, sep);
      assert s == p + [x];
      JoinLast(r, [x], sep);
    }
  }

  lemma JoinLast(r: seq<Bytes>, extra: Bytes, sep: Byte)
    requires |r| >= 1
    ensures Join(r[..|r| - 1] + [r[|r| - 1] + extra], sep) == Join(r, sep) + extra
    ensures Join(r + [[]], sep) == Join(r, sep) + [sep]
  {
    var q := r[..|r| - 1] + [r[|r| - 1] + extra];
    assert q[..|q| - 1] == r[..|r| - 1];
    assert (r + [[]])[..|r|] == r;
    if |r| == 1 {
      assert q == [r[0] + extra];
    }
  }

  /** Extends the last field by one byte `x` that is not a separator. */
  function ExtendLast(r: seq<Bytes>, x: Bytes): (q: seq<Bytes>)
    requires |r| >= 1
    ensures |q| == |r| && q[..|q| - 1] == r[..|r| - 1] && q[|q| - 1] == r[|r| - 1] + x
  {
    r[..|r| - 1] + [r[|r| - 1] + x]
  }

  lemma SplitFieldsStep(s: Bytes, x: Byte, sep: Byte)
    requires x != sep
    ensures SplitFields(s + [x], sep) == ExtendLast(SplitFields(s, sep), [x])
  {
    assert (s + [x])[..|s|] == s;
  }

  /** A field without the separator extends the last field. */
  lemma {:induction false} SplitFieldsAppend(a: Bytes, b: Bytes, sep: Byte)
    requires sep !in b
    ensures SplitFields(a + b, sep) == ExtendLast(SplitFields(a, sep), b)
    decreases |b|
  {
    if b == [] {
      assert a + b == a;
      var r := SplitFields(a, sep);
      assert r[|r| - 1] + b == r[|r| - 1];
      assert r[..|r| - 1] + [r[|r| - 1]] == r;
    } else {
      var b' := b[..|b| - 1];
      var x := b[|b| - 1];
      assert x != sep by { assert x in b; }
      SplitFieldsAppend(a, b', sep);
      SplitFieldsStep(a + b', x, sep);
      var r := SplitFields(a, sep);
      var q := SplitFields(a + b', sep);
      assert q == ExtendLast(r, b');
      ConcatSnoc(a, b);
      assert SplitFields(a + b, sep) == ExtendLast(q, [x]);
      ExtendLastTwice(r, b', [x]);
    }
  }

  lemma ConcatSnoc(a: Bytes, b: Bytes)
    requires |b| > 0
    ensures a + b == (a + b[..|b| - 1]) + [b[|b| - 1]]
    ensures b[..|b| - 1] + [b[|b| - 1]] == b
  {
    assert b == b[..|b| - 1] + [b[|b| - 1]];
  }

  lemma ExtendLastTwice(r: seq<Bytes>, x: Bytes, y: Bytes)
    requires |r| >= 1
    ensures ExtendLast(ExtendLast(r, x), y) == ExtendLast(r, x + y)
  {
    var q := ExtendLast(r, x);
    assert q[|q| - 1] + y == r[|r| - 1] + (x + y);
  }

  /** Cutting at every separator undoes a join of separator-free fields. */
  lemma {:induction false} SplitFieldsOfJoin(parts: seq<Bytes>, sep: Byte)
    requires |parts| >= 1
    requires forall k :: 0 <= k < |parts| ==> sep !in parts[k]
    ensures SplitFields(Join(parts, sep), sep) == parts
    decreases |parts|
  {
    if |parts| == 1 {
      SplitFieldsAppend([], parts[0], sep);
      assert [] + parts[0] == parts[0];
    } else {
      var init := parts[..|parts| - 1];
      var last := parts[|parts| - 1];
      SplitFieldsOfJoin(init, sep);
      var j := Join(init, sep) + [sep];
      assert j[..|j| - 1] == Join(init, sep);
      assert SplitFields(j, sep) == init + [[]];
      SplitFieldsAppend(j, last, sep);
      assert Join(parts, sep) == j + last;
      assert (init + [[]])[..|init|] == init;
      assert (init + [[]])[|init|] + last == last;
      assert ExtendLast(init + [[]], last) == init + [last];
      assert init + [last] == parts;
    }
  }

  // ---------------------------------------------------------------------
  // Prefixes

  /** StartWith: false when either string is empty or the prefix is longer. */
  function StartWith(source: Bytes, prefix: Bytes): bool
  {
    if source == [] || prefix == [] || |prefix| > |source| then false
    else source[..|prefix|] == prefix
  }

  /** StartWith holds exactly when a non-empty `prefix` followed by something gives `source`. */
  lemma StartWithIsPrefix(source: Bytes, prefix: Bytes)
    ensures StartWith(source, prefix) <==> prefix != [] && exists rest :: source == prefix + rest
  {
    if prefix != [] && |prefix| <= |source| && source[..|prefix|] == prefix {
      assert source == prefix + source[|prefix|..];
    }
    if prefix != [] && exists rest :: source == prefix + rest {
      var rest :| source == prefix + rest;
      assert source[..|prefix|] == prefix;
    }
  }
}
