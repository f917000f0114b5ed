/**
 * AddWord's new-word branch as `utils/hashtable.cc` writes it: the slot for
 * the word is probed before its subwords are resolved, and resolving them
 * in build mode can insert pieces that take that very slot. The model in
 * HashTableSpec probes again after the insertion (Place); this module keeps
 * the written order and exhibits an input where it loses a piece.
 */
module HashTableFinding {
  import opened Wrappers
  import opened Bytes
  import opened BasicUtil
  import opened HashTableSpec

  /**
   * The new-word branch with the slot `idx` taken from the table as it was
   * before the subwords were resolved. A rebuild it would start from more
   * rows than slots would never finish; that case is `None`.
   */
  function AddNewAsWritten(t: Table, w: Bytes, f: int, rebuild: bool, addSub: bool): (r: Option<Table>)
    requires Canonical(t) && w != [] && TrimClean(w) && w !in Words(t.rows)
    ensures r.Some? && !rebuild ==>
      |r.value.rows| > |t.rows| && r.value.rows[|r.value.rows| - 1].word == w
      && r.value.wordsize == |r.value.rows| && SlotsInRange(|r.value.rows|, r.value.slots)
  {
    var idx :- Probe(Words(t.rows), t.slots, w);
    var res :- NewSubwords(t, w, addSub);
    assert |t.rows| <= |res.1.rows| by {
      if addSub {
        assert Extends(t, res.1, Pieces(w, t.subngram));
      }
    }
    var u := PlaceAt(res.1, w, res.0, f, idx);
    if 10 * u.wordsize > 7 * |u.slots| && rebuild then
      if |u.rows| <= |u.slots| then Rebuild(u.(filterFreq := u.filterFreq + 1), u.filterFreq + 1)
      else None
    else Some(u)
  }

  /** The subword rows gain `f`, the row is appended and slot `idx` is set to it, whatever the slot holds. */
  function PlaceAt(t: Table, w: Bytes, subs: seq<int>, f: int, idx: nat): (u: Table)
    requires Canonical(t) && w != [] && TrimClean(w) && w !in Words(t.rows) && idx < |t.slots|
    requires forall k :: 0 <= k < |subs| ==> 0 <= subs[k] < |t.rows|
    ensures |u.rows| == |t.rows| + 1 && u.rows[|t.rows|].word == w && u.wordsize == |u.rows|
    ensures SlotsInRange(|u.rows|, u.slots) && |u.slots| == |t.slots| && 0 < |u.slots|
    ensures Distinct(Words(u.rows)) && WordsClean(u.rows)
  {
    var rows := Bump(t.rows, subs, f) + [Item(w, subs, f)];
    assert Words(rows) == Words(t.rows) + [w];
    t.(rows := rows, slots := t.slots[idx := t.wordsize], wordsize := t.wordsize + 1)
  }

  /** The empty table of capacity 5 that resolves subwords of up to 2 characters. */
  function Empty5(): (t: Table)
    ensures Canonical(t) && t.subngram == 2 && t.rows == []
  {
    EmptyCountAllEmpty(5);
    Table([], seq(5, _ => -1), 0, 0, 0, 0.0, [], 2)
  }

  /** The pieces cut from the start `i` of "<a>>". */
  lemma PiecesOfAFrom0()
    ensures InnerPieces(Token([0x61]), [0x61], 2, 0, 0) == [[0x3C, 0x61]]
  {
    var w: Bytes := [0x61];
    var tok := Token(w);
    assert tok == [0x3C, 0x61, 0x3E, 0x3E];
    assert Gram(tok, 0, 1) == 1 && Gram(tok, 0, 2) == 2 && Gram(tok, 0, 3) == 3;
    assert !Emits(tok, w, 0, 1) && Emits(tok, w, 0, 2) && tok[0..2] == [0x3C, 0x61];
    assert InnerPieces(tok, w, 2, 0, 3) == [];
    assert InnerPieces(tok, w, 2, 0, 2) == [[0x3C, 0x61]];
    assert InnerPieces(tok, w, 2, 0, 1) == [[0x3C, 0x61]];
  }

  lemma PiecesOfAFrom1()
    ensures InnerPieces(Token([0x61]), [0x61], 2, 1, 1) == [[0x61, 0x3E]]
  {
    var w: Bytes := [0x61];
    var tok := Token(w);
    assert tok == [0x3C, 0x61, 0x3E, 0x3E];
    assert Gram(tok, 1, 2) == 1 && Gram(tok, 1, 3) == 2 && Gram(tok, 1, 4) == 3;
    assert !Emits(tok, w, 1, 2) && Emits(tok, w, 1, 3) && tok[1..3] == [0x61, 0x3E];
    assert InnerPieces(tok, w, 2, 1, 4) == [];
    assert InnerPieces(tok, w, 2, 1, 3) == [[0x61, 0x3E]];
    assert InnerPieces(tok, w, 2, 1, 2) == [[0x61, 0x3E]];
  }

  lemma PiecesOfAFrom2()
    ensures InnerPieces(Token([0x61]), [0x61], 2, 2, 2) == []
    ensures InnerPieces(Token([0x61]), [0x61], 2, 3, 3) == []
  {
    var w: Bytes := [0x61];
    var tok := Token(w);
    assert tok == [0x3C, 0x61, 0x3E, 0x3E];
    assert Gram(tok, 2, 3) == 1 && Gram(tok, 2, 4) == 2 && Gram(tok, 3, 4) == 1;
    assert !Emits(tok, w, 2, 3);
    assert InnerPieces(tok, w, 2, 2, 4) == [];
  }

  /** "a" has the two pieces "<a" and "a>"; "a" and "<a" both hash to slot 0, "a>" to slot 1. */
  lemma PiecesOfA()
    ensures Pieces([0x61], 2) == [[0x3C, 0x61], [0x61, 0x3E]]
    ensures Hash([0x61], 5) == 0 && Hash([0x3C, 0x61], 5) == 0 && Hash([0x61, 0x3E], 5) == 1
  {
    PiecesOfAFrom0();
    PiecesOfAFrom1();
    PiecesOfAFrom2();
    assert Token([0x61]) == [0x3C, 0x61, 0x3E, 0x3E];
  }

  /** Overwriting an occupied slot with a row number leaves the number of empty slots as it was. */
  lemma {:induction false} EmptyCountOverwrite(slots: seq<int>, e: nat, v: int)
    requires e < |slots| && slots[e] >= 0 && v >= 0
    ensures EmptyCount(slots[e := v]) == EmptyCount(slots)
  {
    var n := |slots| - 1;
    if e == n {
      assert slots[e := v][..n] == slots[..n];
    } else {
      assert slots[e := v][..n] == slots[..n][e := v];
      EmptyCountOverwrite(slots[..n], e, v);
    }
  }

  /** A probe that ends at an occupied slot started from an occupied home slot. */
  lemma HomeTaken(words: seq<Bytes>, slots: seq<int>, q: Bytes)
    requires SlotsInRange(|words|, slots) && 0 < |slots|
    requires Probe(words, slots, q).Some? && slots[Probe(words, slots, q).value] >= 0
    ensures slots[Hash(q, |slots|)] >= 0
  {
    assert At(Hash(q, |slots|), 0, |slots|) == Hash(q, |slots|);
  }

  /** An empty home slot is where the probe for a word stops. */
  lemma HomeEmpty(words: seq<Bytes>, slots: seq<int>, q: Bytes)
    requires SlotsInRange(|words|, slots) && 0 < |slots| && slots[Hash(q, |slots|)] < 0
    ensures Probe(words, slots, q) == Some(Hash(q, |slots|))
  {
    assert At(Hash(q, |slots|), 0, |slots|) == Hash(q, |slots|);
  }

  /** Every row of a canonical table occupies the home slot of its word or lies behind it. */
  lemma CanonicalHomeTaken(t: Table, i: nat)
    requires Canonical(t) && i < |t.rows|
    ensures t.slots[Hash(t.rows[i].word, |t.slots|)] >= 0
  {
    var words := Words(t.rows);
    ReindexIndexes(words, |t.slots|);
    assert Located(words, t.slots, i);
    HomeTaken(words, t.slots, words[i]);
  }

  /** The words of a prefix of the rows are among the words of all of them. */
  lemma PrefixWords(a: seq<Item>, b: seq<Item>)
    requires |a| <= |b| && b[..|a|] == a
    ensures forall q :: q in Words(a) ==> q in Words(b)
  {
    forall q | q in Words(a) ensures q in Words(b) {
      var i :| 0 <= i < |a| && Words(a)[i] == q;
      assert Words(b)[i] == q;
    }
  }

  /** Rows that are kept or extended by a row for `x`, when `x` is new, keep their words and hold `x`. */
  lemma RowsKeep(a: seq<Item>, b: seq<Item>, x: Bytes, f: int)
    requires b == a || b == a + [Item(x, [], f)]
    requires x !in Words(a) ==> b == a + [Item(x, [], f)]
    ensures forall q :: q in Words(a) ==> q in Words(b)
    ensures x in Words(b)
  {
    if b != a {
      assert Words(b) == Words(a) + [x];
    }
  }

  /** AddPlain keeps the rows already there and leaves the trimmed word among the words. */
  lemma AddPlainKeeps(t1: Table, p: Bytes)
    requires Canonical(t1) && AddPlain(t1, p, 0).Some? && Trimmed(p) != []
    ensures forall q :: q in Words(t1.rows) ==> q in Words(AddPlain(t1, p, 0).value.rows)
    ensures Trimmed(p) in Words(AddPlain(t1, p, 0).value.rows)
  {
    RowsKeep(t1.rows, AddPlain(t1, p, 0).value.rows, Trimmed(p), 0);
  }

  /** Adding a missing piece keeps the rows already there and leaves its trimmed form among the words. */
  lemma BuildMissingKeeps(t: Table, acc: seq<int>, t1: Table, ps: seq<Bytes>)
    requires ps != [] && Canonical(t1) && Extends(t, t1, ps[..|ps| - 1])
    requires forall k :: 0 <= k < |acc| ==> 0 <= acc[k] < |t1.rows|
    requires BuildMissing(t, acc, t1, ps).Some?
    ensures forall q :: q in Words(t1.rows) ==> q in Words(BuildMissing(t, acc, t1, ps).value.1.rows)
    ensures Trimmed(ps[|ps| - 1]) != [] ==>
      Trimmed(ps[|ps| - 1]) in Words(BuildMissing(t, acc, t1, ps).value.1.rows)
  {
    var p := ps[|ps| - 1];
    BuildMissingTable(t, acc, t1, ps);
    if Trimmed(p) != [] {
      AddPlainKeeps(t1, p);
    }
  }

  /** The table BuildMissing leaves is the one AddPlain makes. */
  lemma BuildMissingTable(t: Table, acc: seq<int>, t1: Table, ps: seq<Bytes>)
    requires ps != [] && Canonical(t1) && Extends(t, t1, ps[..|ps| - 1])
    requires forall k :: 0 <= k < |acc| ==> 0 <= acc[k] < |t1.rows|
    requires BuildMissing(t, acc, t1, ps).Some?
    ensures AddPlain(t1, ps[|ps| - 1], 0).Some?
    ensures BuildMissing(t, acc, t1, ps).value.1 == AddPlain(t1, ps[|ps| - 1], 0).value
  {
  }

  /** One more piece keeps the rows already there and leaves the piece's trimmed form among the words. */
  lemma BuildNextKeeps(t: Table, acc: seq<int>, t1: Table, ps: seq<Bytes>)
    requires ps != [] && Canonical(t1) && Extends(t, t1, ps[..|ps| - 1])
    requires forall k :: 0 <= k < |acc| ==> 0 <= acc[k] < |t1.rows|
    requires BuildNext(t, acc, t1, ps).Some?
    ensures forall q :: q in Words(t1.rows) ==> q in Words(BuildNext(t, acc, t1, ps).value.1.rows)
    ensures Trimmed(ps[|ps| - 1]) != [] ==>
      Trimmed(ps[|ps| - 1]) in Words(BuildNext(t, acc, t1, ps).value.1.rows)
  {
    var p := ps[|ps| - 1];
    FindCorrect(t1, p);
    if Find(t1, p).value >= 0 {
      assert TrimClean(p) by {
        assert t1.rows[Find(t1, p).value].word == p;
      }
      TrimmedOfClean(p);
    } else {
      BuildMissingKeeps(t, acc, t1, ps);
    }
  }

  /** An element other than the last is in the sequence without its last element. */
  lemma InInit(ps: seq<Bytes>, p: Bytes)
    requires p in ps && p != ps[|ps| - 1]
    ensures p in ps[..|ps| - 1]
  {
    var i :| 0 <= i < |ps| && ps[i] == p;
    assert ps[..|ps| - 1][i] == p;
  }

  /** Every non-blank piece ends up among the words once BuildPieces succeeds. */
  lemma {:induction false} BuildPiecesHas(t: Table, ps: seq<Bytes>, p: Bytes)
    requires Canonical(t) && BuildPieces(t, ps).Some? && p in ps && Trimmed(p) != []
    ensures Trimmed(p) in Words(BuildPieces(t, ps).value.1.rows)
  {
    var init := ps[..|ps| - 1];
    var prev := BuildPieces(t, init).value;
    BuildNextKeeps(t, prev.0, prev.1, ps);
    if p != ps[|ps| - 1] {
      InInit(ps, p);
      BuildPiecesHas(t, init, p);
    }
  }

  /** With a spare slot for every piece, BuildPieces succeeds and adds at most one row per piece. */
  lemma {:induction false} BuildPiecesRoom(t: Table, ps: seq<Bytes>)
    requires Canonical(t) && |t.rows| + |ps| < |t.slots|
    ensures BuildPieces(t, ps).Some?
    ensures |BuildPieces(t, ps).value.1.rows| <= |t.rows| + |ps|
  {
    if ps != [] {
      var init := ps[..|ps| - 1];
      BuildPiecesRoom(t, init);
      var prev := BuildPieces(t, init).value;
      BuildNextRoom(t, prev.0, prev.1, ps);
    }
  }

  /** With a spare slot beyond the next piece, one step succeeds and adds at most one row. */
  lemma BuildNextRoom(t: Table, acc: seq<int>, t1: Table, ps: seq<Bytes>)
    requires ps != [] && Canonical(t1) && Extends(t, t1, ps[..|ps| - 1])
    requires forall k :: 0 <= k < |acc| ==> 0 <= acc[k] < |t1.rows|
    requires |t1.rows| + 1 < |t1.slots|
    ensures BuildNext(t, acc, t1, ps).Some?
    ensures |BuildNext(t, acc, t1, ps).value.1.rows| <= |t1.rows| + 1
  {
    FindCorrect(t1, ps[|ps| - 1]);
    if Find(t1, ps[|ps| - 1]).value < 0 {
      BuildMissingRoom(t, acc, t1, ps);
    }
  }

  lemma BuildMissingRoom(t: Table, acc: seq<int>, t1: Table, ps: seq<Bytes>)
    requires ps != [] && Canonical(t1) && Extends(t, t1, ps[..|ps| - 1])
    requires forall k :: 0 <= k < |acc| ==> 0 <= acc[k] < |t1.rows|
    requires |t1.rows| + 1 < |t1.slots|
    ensures BuildMissing(t, acc, t1, ps).Some?
    ensures |BuildMissing(t, acc, t1, ps).value.1.rows| <= |t1.rows| + 1
  {
    var p := ps[|ps| - 1];
    var t2 := AddPlain(t1, p, 0).value;
    FindCorrect(t2, p);
  }

  /** With room for the word and all its pieces, resolving them in build mode succeeds. */
  lemma NewSubwordsRoom(t: Table, w: Bytes)
    requires Canonical(t) && w != [] && TrimClean(w) && w !in Words(t.rows)
    requires |t.rows| + |Pieces(w, t.subngram)| < |t.slots|
    ensures NewSubwords(t, w, true).Some?
    ensures NewSubwords(t, w, true) == BuildPieces(t, Pieces(w, t.subngram))
    ensures |NewSubwords(t, w, true).value.1.rows| < |t.slots|
  {
    FindCorrect(t, w);
    BuildPiecesRoom(t, Pieces(w, t.subngram));
  }

  /**
   * When the empty home slot of a new word is also the home slot of one of
   * its own non-blank pieces, the as-written insertion leaves one more row
   * than there are occupied slots: the row of whichever piece had taken
   * the slot is no longer indexed.
   */
  lemma StaleSlotDropsRow(t: Table, w: Bytes, f: int, p: Bytes)
    requires Canonical(t) && w != [] && TrimClean(w) && w !in Words(t.rows)
    requires |t.rows| + |Pieces(w, t.subngram)| < |t.slots|
    requires t.slots[Hash(w, |t.slots|)] < 0
    requires p in Pieces(w, t.subngram) && Trimmed(p) != [] && Hash(Trimmed(p), |t.slots|) == Hash(w, |t.slots|)
    ensures AddNewAsWritten(t, w, f, false, true).Some?
    ensures var u := AddNewAsWritten(t, w, f, false, true).value;
      EmptyCount(u.slots) + |u.rows| == |u.slots| + 1
  {
    var h := Hash(w, |t.slots|);
    HomeEmpty(Words(t.rows), t.slots, w);
    NewSubwordsRoom(t, w);
    var res := NewSubwords(t, w, true).value;
    assert res.1.slots[h] >= 0 by {
      BuildPiecesHas(t, Pieces(w, t.subngram), p);
      var i :| 0 <= i < |res.1.rows| && Words(res.1.rows)[i] == Trimmed(p);
      CanonicalHomeTaken(res.1, i);
    }
    var u := PlaceAt(res.1, w, res.0, f, h);
    assert AddNewAsWritten(t, w, f, false, true) == Some(u);
    EmptyCountOverwrite(res.1.slots, h, res.1.wordsize);
  }

  /** "<a" has no trim space at either end. */
  lemma LessAClean()
    ensures TrimClean([0x3C, 0x61]) && Trimmed([0x3C, 0x61]) == [0x3C, 0x61]
  {
    TrimmedOfClean([0x3C, 0x61]);
  }

  /**
   * As written, AddWord("a") with subwords on an empty table of five slots
   * puts "a" in slot 0, which its piece "<a" has just taken: three rows
   * remain but only two slots are occupied.
   */
  lemma StaleSlotLosesPiece()
    ensures AddNewAsWritten(Empty5(), [0x61], 1, false, true).Some?
    ensures var u := AddNewAsWritten(Empty5(), [0x61], 1, false, true).value;
      |u.slots| == 5 && EmptyCount(u.slots) + |u.rows| == 6
  {
    var t0 := Empty5();
    PiecesOfA();
    LessAClean();
    var p: Bytes := [0x3C, 0x61];
    assert p in Pieces([0x61], t0.subngram);
    StaleSlotDropsRow(t0, [0x61], 1, p);
  }

  /** Probing for the word after its pieces are in keeps every row indexed. */
  lemma PlaceKeepsIndex(t: Table, w: Bytes, f: int, addSub: bool)
    requires Canonical(t) && w != [] && TrimClean(w) && w !in Words(t.rows)
    requires |t.rows| + |Pieces(w, t.subngram)| < |t.slots|
    ensures AddNew(t, w, f, false, addSub).Some?
    ensures var u := AddNew(t, w, f, false, addSub).value;
      EmptyCount(u.slots) + |u.rows| == |u.slots| && |u.slots| == |t.slots|
  {
    if addSub {
      NewSubwordsRoom(t, w);
    }
  }

  /** With the slot probed after the insertion, the same call keeps all three rows indexed. */
  lemma PlaceKeepsPiece()
    ensures AddNew(Empty5(), [0x61], 1, false, true).Some?
    ensures var u := AddNew(Empty5(), [0x61], 1, false, true).value;
      |u.slots| == 5 && EmptyCount(u.slots) + |u.rows| == 5
  {
    PiecesOfA();
    PlaceKeepsIndex(Empty5(), [0x61], 1, true);
  }
}
