/** The `JoinVector` and `ParseVec` templates of `utils/vectorutil.h`, for int elements. */
module VectorUtil {
  import opened Bytes
  import opened BasicUtil

  /** `parts` separated by `connector` (no leading connector). */
  function JoinWith(parts: seq<Bytes>, connector: Bytes): Bytes
  {
    if parts == [] then []
    else if |parts| == 1 then parts[0]
    else JoinWith(parts[..|parts| - 1], connector) + connector + parts[|parts| - 1]
  }

  /** Every element rendered with `std::to_string`. */
  function Rendered(v: seq<int>): (r: seq<Bytes>)
    ensures |r| == |v|
  {
    seq(|v|, i requires 0 <= i < |v| => IntToString(v[i]))
  }

  /** Every string read with `atoi`. */
  function Parsed(strs: seq<Bytes>): (r: seq<int>)
    ensures |r| == |strs|
  {
    seq(|strs|, i requires 0 <= i < |strs| => ParseInt(strs[i]))
  }

  /** What the accumulation loop builds: `connector + to_string(x)` for each element. */
  function Prefixed(v: seq<int>, connector: Bytes): Bytes
  {
    if v == [] then [] else Prefixed(v[..|v| - 1], connector) + connector + IntToString(v[|v| - 1])
  }

  /**
   * JoinVector: "" for an empty vector; otherwise the rendered elements
   * separated by the connector.
   */
  method JoinVector(v: seq<int>, connector: Bytes) returns (r: Bytes)
    ensures v == [] ==> r == []
    ensures v != [] ==> r == JoinWith(Rendered(v), connector)
  {
    r := [];
    var i := 0;
    while i < |v|
      invariant 0 <= i <= |v|
      invariant r == Prefixed(v[..i], connector)
    {
      assert v[..i + 1][..i] == v[..i];
      r := r + connector + IntToString(v[i]);
      i := i + 1;
    }
    assert v[..i] == v;
    if |r| >= |connector| {
      PrefixedIsJoin(v, connector);
      r := r[|connector|..];
    }
  }

  lemma {:induction false} PrefixedIsJoin(v: seq<int>, connector: Bytes)
    ensures v != [] ==> Prefixed(v, connector) == connector + JoinWith(Rendered(v), connector)
  {
    if |v| == 1 {
      PrefixedSingle(v, connector);
    } else if |v| > 1 {
      PrefixedIsJoin(v[..|v| - 1], connector);
      PrefixedStep(v, connector);
    }
  }

  /** One more element keeps Prefixed one connector ahead of the join. */
  lemma PrefixedStep(v: seq<int>, connector: Bytes)
    requires |v| > 1
    requires Prefixed(v[..|v| - 1], connector) == connector + JoinWith(Rendered(v[..|v| - 1]), connector)
    ensures Prefixed(v, connector) == connector + JoinWith(Rendered(v), connector)
  {
    var init := v[..|v| - 1];
    var r := Rendered(v);
    assert r[..|v| - 1] == Rendered(init);
    var j := JoinWith(Rendered(init), connector);
    var x := IntToString(v[|v| - 1]);
    assert JoinWith(r, connector) == j + connector + x;
    assert Prefixed(v, connector) == (connector + j) + connector + x;
    assert (connector + j) + connector + x == connector + (j + connector + x);
  }

  lemma PrefixedSingle(v: seq<int>, connector: Bytes)
    requires |v| == 1
    ensures Prefixed(v, connector) == connector + JoinWith(Rendered(v), connector)
  {
    assert v[..0] == [];
    assert Prefixed(v, connector) == [] + connector + IntToString(v[0]);
    assert JoinWith(Rendered(v), connector) == IntToString(v[0]);
  }

  /** ParseVec: one number per string, in order. */
  method ParseVec(strs: seq<Bytes>) returns (nums: seq<int>)
    ensures nums == Parsed(strs)
  {
    nums := [];
    var i := 0;
    while i < |strs|
      invariant 0 <= i <= |strs|
      invariant nums == Parsed(strs[..i])
    {
      assert Parsed(strs[..i + 1]) == Parsed(strs[..i]) + [ParseInt(strs[i])];
      nums := nums + [ParseInt(strs[i])];
      i := i + 1;
    }
    assert strs[..i] == strs;
  }

  function TotalLength(parts: seq<Bytes>): nat
  {
    if parts == [] then 0 else TotalLength(parts[..|parts| - 1]) + |parts[|parts| - 1]|
  }

  /** The join is as long as its parts plus (n-1) connectors. */
  lemma {:induction false} JoinWithLength(parts: seq<Bytes>, connector: Bytes)
    requires parts != []
    ensures |JoinWith(parts, connector)| == TotalLength(parts) + (|parts| - 1) * |connector|
  {
    if |parts| == 1 {
      assert parts[..0] == [];
    } else {
      JoinWithLength(parts[..|parts| - 1], connector);
    }
  }

  lemma {:induction false} JoinWithOneByte(parts: seq<Bytes>, c: Byte)
    ensures JoinWith(parts, [c]) == Join(parts, c)
  {
    if |parts| > 1 {
      JoinWithOneByte(parts[..|parts| - 1], c);
    }
  }

  lemma {:induction false} JoinNoStopByte(parts: seq<Bytes>, c: Byte)
    requires !IsStopByte(c)
    requires forall k :: 0 <= k < |parts| ==> NoStopByte(parts[k])
    ensures NoStopByte(Join(parts, c))
  {
    if |parts| > 1 {
      JoinNoStopByte(parts[..|parts| - 1], c);
    }
  }

  /** A rendered integer holds neither the separator '|' nor a stop byte. */
  lemma RenderedBytes(v: seq<int>)
    ensures forall k :: 0 <= k < |v| ==> PIPE !in Rendered(v)[k] && NoStopByte(Rendered(v)[k])
  {
    forall k | 0 <= k < |v|
      ensures PIPE !in Rendered(v)[k] && NoStopByte(Rendered(v)[k])
    {
      IntToStringBytes(v[k]);
    }
  }

  /** The subword-list encoding: ParseVec(StringSplit(JoinVector(v, "|"), "|")) == v for non-empty v. */
  lemma SubwordEncodingRoundTrip(v: seq<int>)
    requires v != []
    ensures Parsed(Split(JoinWith(Rendered(v), [PIPE]), PIPE)) == v
  {
    var parts := Rendered(v);
    JoinWithOneByte(parts, PIPE);
    RenderedBytes(v);
    JoinNoStopByte(parts, PIPE);
    SplitPlain(Join(parts, PIPE), PIPE);
    SplitFieldsOfJoin(parts, PIPE);
    forall k | 0 <= k < |v|
      ensures Parsed(parts)[k] == v[k]
    {
      ParseIntRoundTrip(v[k]);
    }
  }
}
