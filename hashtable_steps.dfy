/**
 * Facts about the functions of HashTableSpec that the loops of the
 * HashTable class step through: prefixes of a successful lookup or build
 * succeed, and each function unfolded by one element.
 */
module HashTableSteps {
  import opened Wrappers
  import opened Bytes
  import opened BasicUtil
  import opened Sorting
  import opened HashTableSpec

  lemma {:induction false} PositionsPrefix(t: Table, ws: seq<Bytes>, keepout: bool, n: nat)
    requires Canonical(t) && n <= |ws| && Positions(t, ws, keepout).Some?
    ensures Positions(t, ws[..n], keepout).Some?
    decreases |ws|
  {
    if n < |ws| {
      var init := ws[..|ws| - 1];
      assert ws[..n] == init[..n];
      PositionsPrefix(t, init, keepout, n);
    } else {
      assert ws[..n] == ws;
    }
  }

  /** One outer iteration of the scan. */
  lemma PiecesStep(t: Bytes, w: Bytes, n: nat, i: nat)
    requires i < |t|
    ensures PiecesFrom(t, w, n, i) == (if IsContinuation(t[i]) then [] else InnerPieces(t, w, n, i, i)) + PiecesFrom(t, w, n, i + 1)
  {
  }

  /** Step `i` of the scan: the runs from byte `i` follow the pieces found so far. */
  lemma ScanStep(t: Bytes, w: Bytes, n: nat, i: nat, ps: seq<Bytes>, runs: seq<Bytes>)
    requires i < |t| && ps + PiecesFrom(t, w, n, i) == Pieces(w, n) && t == Token(w)
    requires runs == if IsContinuation(t[i]) then [] else InnerPieces(t, w, n, i, i)
    ensures (ps + runs) + PiecesFrom(t, w, n, i + 1) == Pieces(w, n)
  {
    PiecesStep(t, w, n, i);
    assert ps + (runs + PiecesFrom(t, w, n, i + 1)) == (ps + runs) + PiecesFrom(t, w, n, i + 1);
  }

  /** One inner iteration of the scan. */
  lemma InnerStep(t: Bytes, w: Bytes, n: nat, i: nat, j: nat)
    requires i <= j < |t| && Gram(t, i, j) <= n
    ensures InnerPieces(t, w, n, i, j) == (if Emits(t, w, i, j) then [t[i..j]] else []) + InnerPieces(t, w, n, i, j + 1)
    ensures Gram(t, i, j + 1) == Gram(t, i, j) + (if j > i && !IsContinuation(t[j]) then 1 else 0)
    ensures (t[i..j] != []) == (j > i) && t[i..j] + [t[j]] == t[i..j + 1]
  {
  }

  lemma BuildPiecesPrefix(t: Table, ps: seq<Bytes>, n: nat)
    requires Canonical(t) && n <= |ps| && BuildPieces(t, ps).Some?
    ensures BuildPieces(t, ps[..n]).Some?
  {
    var ok := (q: seq<Bytes>) => Canonical(t) && BuildPieces(t, q).Some?;
    forall q | q != [] && ok(q) ensures ok(q[..|q| - 1]) {
      BuildPiecesLast(t, q);
    }
    PrefixClosed(ok, ps, n);
  }

  /** A property of sequences that survives dropping the last element holds of every prefix. */
  lemma {:induction false} PrefixClosed<T>(ok: seq<T> -> bool, ps: seq<T>, n: nat)
    requires forall q :: q != [] && ok(q) ==> ok(q[..|q| - 1])
    requires n <= |ps| && ok(ps)
    ensures ok(ps[..n])
    decreases |ps|
  {
    if n < |ps| {
      var init := ps[..|ps| - 1];
      assert ps[..n] == init[..n];
      PrefixClosed(ok, init, n);
    } else {
      assert ps[..n] == ps;
    }
  }

  lemma {:induction false} QueryPiecesPrefix(t: Table, ps: seq<Bytes>, n: nat)
    requires Canonical(t) && n <= |ps| && QueryPieces(t, ps).Some?
    ensures QueryPieces(t, ps[..n]).Some?
    decreases |ps|
  {
    if n < |ps| {
      var init := ps[..|ps| - 1];
      assert ps[..n] == init[..n];
      QueryPiecesPrefix(t, init, n);
    } else {
      assert ps[..n] == ps;
    }
  }

  lemma {:induction false} ResolvedPrefix(t: Table, rows: seq<Item>, n: nat)
    requires Canonical(t) && n <= |rows| && Resolved(t, rows).Some?
    ensures Resolved(t, rows[..n]).Some?
    decreases |rows|
  {
    if n < |rows| {
      var init := rows[..|rows| - 1];
      assert rows[..n] == init[..n];
      ResolvedPrefix(t, init, n);
    } else {
      assert rows[..n] == rows;
    }
  }

  /** Inserting row `i` of the rebuild loop fills the slot its probe finds. */
  lemma ReindexStep(words: seq<Bytes>, cap: nat, i: nat)
    requires 0 < cap && |words| <= cap && Distinct(words) && i < |words|
    ensures Distinct(words[..i]) && Distinct(words[..i + 1])
    ensures SlotsInRange(|words|, Reindex(words[..i], cap))
    ensures Probe(words, Reindex(words[..i], cap), words[i]).Some?
    ensures Reindex(words[..i + 1], cap)
         == Reindex(words[..i], cap)[Probe(words, Reindex(words[..i], cap), words[i]).value := i]
  {
    DistinctPrefixes(words, i);
    var prev := Reindex(words[..i], cap);
    SlotsWiden(i, |words|, prev);
    SlotsWiden(i, i + 1, prev);
    EmptyCountPositive(prev);
    var e0 :| 0 <= e0 < cap && prev[e0] < 0;
    ProbeTerminates(words, prev, words[i], e0);
    assert words[..i + 1] + words[i + 1..] == words;
    ProbeFromExtendWords(words[..i + 1], words[i + 1..], prev, words[i], Hash(words[i], cap), 0);
    ReindexLast(words[..i + 1], cap);
  }

  lemma DistinctPrefixes(words: seq<Bytes>, i: nat)
    requires Distinct(words) && i < |words|
    ensures Distinct(words[..i]) && Distinct(words[..i + 1])
    ensures words[..i + 1][..i] == words[..i] && words[..i + 1][i] == words[i]
  {
  }

  /** Reindex unfolded at its last word. */
  lemma ReindexLast(ws: seq<Bytes>, cap: nat)
    requires 0 < cap && |ws| <= cap && Distinct(ws) && ws != []
    requires Distinct(ws[..|ws| - 1])
    requires SlotsInRange(|ws|, Reindex(ws[..|ws| - 1], cap))
    requires Probe(ws, Reindex(ws[..|ws| - 1], cap), ws[|ws| - 1]).Some?
    ensures Reindex(ws, cap)
         == Reindex(ws[..|ws| - 1], cap)[Probe(ws, Reindex(ws[..|ws| - 1], cap), ws[|ws| - 1]).value := |ws| - 1]
  {
  }

  lemma SlotsWiden(n: nat, m: nat, slots: seq<int>)
    requires n <= m && SlotsInRange(n, slots)
    ensures SlotsInRange(m, slots)
  {
  }

  /** The piece lookups of a row are the same in the table whose subword lists are being re-resolved. */
  lemma ResolveAcross(t1: Table, u: Table, x: Item)
    requires Canonical(t1) && Canonical(u) && Words(u.rows) == Words(t1.rows) && u.slots == t1.slots
    requires u.subngram == t1.subngram && x.subwords != [] && ResolveRow(t1, x).Some?
    requires x.word in Words(u.rows)
    ensures SubWordList(u, x.word, true, false) == Some((ResolveRow(t1, x).value.subwords, u))
  {
    QueryPiecesSameIndex(t1, u, Pieces(x.word, t1.subngram));
    FindCorrect(u, x.word);
  }

  /** A placement that succeeds found a slot for the word. */
  lemma PlaceProbe(t: Table, w: Bytes, subs: seq<int>, f: int, rebuild: bool)
    requires Canonical(t) && w != [] && TrimClean(w) && w !in Words(t.rows)
    requires forall k :: 0 <= k < |subs| ==> 0 <= subs[k] < |t.rows|
    requires Place(t, w, subs, f, rebuild).Some?
    ensures Probe(Words(t.rows), t.slots, w).Some?
  {
  }

  /** The appended table is canonical again. */
  lemma AppendedCanonical(t: Table, w: Bytes, subs: seq<int>, f: int, e: nat)
    requires Canonical(t) && w != [] && TrimClean(w) && w !in Words(t.rows)
    requires Probe(Words(t.rows), t.slots, w) == Some(e) && e < |t.slots|
    ensures Canonical(Appended(t, w, subs, f, e))
  {
    AppendKeepsCanonical(t, Appended(t, w, subs, f, e), w, subs, f, e);
  }

  /** Place in two stages: the append at the probed slot `e`, then the rebuild past 70% occupancy. */
  lemma PlaceSteps(t: Table, w: Bytes, subs: seq<int>, f: int, rebuild: bool, e: nat)
    requires Canonical(t) && w != [] && TrimClean(w) && w !in Words(t.rows)
    requires forall k :: 0 <= k < |subs| ==> 0 <= subs[k] < |t.rows|
    requires Probe(Words(t.rows), t.slots, w) == Some(e) && e < |t.slots|
    requires Canonical(Appended(t, w, subs, f, e))
    ensures Place(t, w, subs, f, rebuild) == Grown(Appended(t, w, subs, f, e), rebuild)
  {
  }

  /** Past 70% occupancy the growth step is the rebuild with the raised floor. */
  lemma GrownRebuilds(u: Table)
    requires Rebuildable(u) && 10 * u.wordsize > 7 * |u.slots|
    ensures Rebuildable(RaiseFloor(u))
    ensures Grown(u, true) == Rebuild(RaiseFloor(u), u.filterFreq + 1)
  {
  }

  /** Step `k` of the query loop: piece `k` is looked up and, when present, its row appended. */
  lemma QueryStep(t: Table, ps: seq<Bytes>, k: nat, acc: seq<int>)
    requires Canonical(t) && k < |ps| && QueryPieces(t, ps[..k]) == Some(acc)
    requires QueryPieces(t, ps[..k + 1]).Some?
    ensures Find(t, ps[k]).Some?
    ensures QueryPieces(t, ps[..k + 1])
         == Some(if Find(t, ps[k]).value >= 0 then acc + [Find(t, ps[k]).value] else acc)
  {
    assert ps[..k + 1][..k] == ps[..k];
  }

  /** Step `k` of the build loop is one BuildNext on the table the first `k` pieces left. */
  lemma BuildStepFacts(t0: Table, ps: seq<Bytes>, k: nat, acc: seq<int>, u: Table)
    requires Canonical(t0) && k < |ps| && BuildPieces(t0, ps[..k]) == Some((acc, u))
    requires BuildPieces(t0, ps[..k + 1]).Some?
    ensures Canonical(u) && Extends(t0, u, ps[..k + 1][..k])
    ensures forall j :: 0 <= j < |acc| ==> 0 <= acc[j] < |u.rows|
    ensures ps[..k + 1] != [] && ps[..k + 1][k] == ps[k]
    ensures BuildPieces(t0, ps[..k + 1]) == BuildNext(t0, acc, u, ps[..k + 1])
  {
    assert ps[..k + 1][..k] == ps[..k];
    BuildPiecesLast(t0, ps[..k + 1]);
  }

  /** BuildPieces unfolded once: the prefix, then one BuildNext step. */
  lemma BuildPiecesLast(t: Table, q: seq<Bytes>)
    requires Canonical(t) && q != [] && BuildPieces(t, q).Some?
    ensures BuildPieces(t, q[..|q| - 1]).Some?
    ensures var prev := BuildPieces(t, q[..|q| - 1]).value;
      BuildPieces(t, q) == BuildNext(t, prev.0, prev.1, q)
  {
  }

  /**
   * One turn of the resolve loop: row `i` still holds its sorted form, and
   * giving it the resolved list extends the resolved prefix by one row.
   */
  lemma ResolveStep(t1: Table, i: nat, rows: seq<Item>)
    requires Canonical(t1) && i < |t1.rows| && Resolved(t1, t1.rows).Some?
    requires Resolved(t1, t1.rows[..i]).Some? && rows == Resolved(t1, t1.rows[..i]).value + t1.rows[i..]
    ensures Resolved(t1, t1.rows[..i + 1]).Some? && ResolveRow(t1, t1.rows[i]).Some?
    ensures |rows| == |t1.rows| && rows[i] == t1.rows[i] && Words(rows) == Words(t1.rows)
    ensures t1.rows[i].word in Words(t1.rows)
    ensures t1.rows[i].subwords == [] ==> rows == Resolved(t1, t1.rows[..i + 1]).value + t1.rows[i + 1..]
    ensures rows[i := rows[i].(subwords := ResolveRow(t1, t1.rows[i]).value.subwords)]
         == Resolved(t1, t1.rows[..i + 1]).value + t1.rows[i + 1..]
  {
    var sorted := t1.rows;
    ResolvedLastRow(t1, i);
    var prev := Resolved(t1, sorted[..i]).value;
    var y := ResolveRow(t1, sorted[i]).value;
    SpliceRow(prev, sorted, i, y);
    ResolvedWords(|sorted|, sorted[..i], prev);
    SpliceWords(prev, sorted, i);
  }

  /** Resolved unfolded once at row `i`; the resolved row differs from the sorted one in its list only. */
  lemma ResolvedLastRow(t1: Table, i: nat)
    requires Canonical(t1) && i < |t1.rows| && Resolved(t1, t1.rows).Some?
    ensures Resolved(t1, t1.rows[..i]).Some? && Resolved(t1, t1.rows[..i + 1]).Some?
    ensures ResolveRow(t1, t1.rows[i]).Some?
    ensures Resolved(t1, t1.rows[..i + 1]).value
         == Resolved(t1, t1.rows[..i]).value + [ResolveRow(t1, t1.rows[i]).value]
    ensures ResolveRow(t1, t1.rows[i]).value
         == t1.rows[i].(subwords := ResolveRow(t1, t1.rows[i]).value.subwords)
    ensures t1.rows[i].subwords == [] ==> ResolveRow(t1, t1.rows[i]).value == t1.rows[i]
  {
    ResolvedPrefix(t1, t1.rows, i + 1);
    assert t1.rows[..i + 1][..i] == t1.rows[..i];
  }

  lemma SpliceRow(prev: seq<Item>, sorted: seq<Item>, i: nat, y: Item)
    requires |prev| == i < |sorted| && y == sorted[i].(subwords := y.subwords)
    ensures |prev + sorted[i..]| == |sorted| && (prev + sorted[i..])[i] == sorted[i]
    ensures (prev + sorted[i..])[i := sorted[i].(subwords := y.subwords)] == (prev + [y]) + sorted[i + 1..]
    ensures y == sorted[i] ==> prev + sorted[i..] == (prev + [y]) + sorted[i + 1..]
  {
  }

  lemma SpliceWords(prev: seq<Item>, sorted: seq<Item>, i: nat)
    requires i <= |sorted| && Words(prev) == Words(sorted[..i])
    ensures Words(prev + sorted[i..]) == Words(sorted)
  {
    assert sorted == sorted[..i] + sorted[i..];
    WordsAppend(prev, sorted[i..]);
    WordsAppend(sorted[..i], sorted[i..]);
  }

  lemma WordsAppend(a: seq<Item>, b: seq<Item>)
    ensures Words(a + b) == Words(a) + Words(b)
  {
  }

  /** Rebuild in stages: the sorted, re-indexed table, then the resolve, then the recount. */
  lemma RebuildStages(t: Table, m: int, u: Table)
    requires Rebuildable(t) && Rebuild(t, m).Some?
    requires u.rows == SortDesc(Kept(t.rows, m), FreqKey) && u.wordsize == |u.rows|
    requires u == t.(rows := u.rows, slots := u.slots, wordsize := u.wordsize)
    requires |t.rows| <= |t.slots|
    requires |u.rows| <= |t.slots| && Distinct(Words(u.rows)) && u.slots == Reindex(Words(u.rows), |t.slots|)
    ensures Canonical(u) && Resolved(u, u.rows).Some?
    ensures Rebuild(t, m).value
         == u.(rows := Resolved(u, u.rows).value, trainWords := FreqSum(Resolved(u, u.rows).value))
  {
    RebuildOrderReady(t, m);
  }
}
