/**
 * The line grouper: words are walked in reading order and clustered into
 * visual rows by their measured vertical offsets. The measurements are data:
 * one top per word and a threshold.
 */
module LineGrouping {
  import opened Seqs

  datatype Option<T> = None | Some(value: T)

  /**
   * A word opens a new row when no row is open yet or when its top lies at
   * least `threshold` below the current row's offset. The difference is
   * signed, so a word lying above the offset stays on the current row.
   */
  predicate StartsRow(lineOffset: Option<real>, top: real, threshold: real)
  {
    lineOffset.None? || top - lineOffset.value >= threshold
  }

  /** The distance below a row's offset at which a word opens the next row: a fifth of the font size. */
  function LineThreshold(fontSize: real): (threshold: real)
    ensures threshold > 0.0 <==> fontSize > 0.0
    ensures fontSize > 0.0 ==> threshold < fontSize
  {
    fontSize * 0.2
  }

  /** The value of `lineOffset` after walking the words whose tops are `tops`. */
  function LineOffset(tops: seq<real>, threshold: real): (offset: Option<real>)
    ensures offset.None? <==> |tops| == 0
  {
    if |tops| == 0 then None
    else
      var n := |tops| - 1;
      var prev := LineOffset(tops[..n], threshold);
      if StartsRow(prev, tops[n], threshold) then Some(tops[n]) else prev
  }

  /** The rows the walk produces: each word opens a row or joins the open one. */
  function Rows<W>(words: seq<W>, tops: seq<real>, threshold: real): (rows: seq<seq<W>>)
    requires |tops| == |words|
    ensures |rows| <= |words|
    ensures |rows| == 0 <==> |words| == 0
    ensures forall k :: 0 <= k < |rows| ==> rows[k] != []
    decreases |words|
  {
    if |words| == 0 then []
    else
      var n := |words| - 1;
      var prev := Rows(words[..n], tops[..n], threshold);
      if StartsRow(LineOffset(tops[..n], threshold), tops[n], threshold) then prev + [[words[n]]]
      else prev[..|prev| - 1] + [prev[|prev| - 1] + [words[n]]]
  }

  /** The rows are the words in order, cut into pieces: flattening them gives back the words. */
  lemma {:induction false} RowsPartition<W>(words: seq<W>, tops: seq<real>, threshold: real)
    requires |tops| == |words|
    ensures Flatten(Rows(words, tops, threshold)) == words
    decreases |words|
  {
    if |words| > 0 {
      var n := |words| - 1;
      var prev := Rows(words[..n], tops[..n], threshold);
      var rows := Rows(words, tops, threshold);
      var w := words[n];
      RowsPartition(words[..n], tops[..n], threshold);
      if StartsRow(LineOffset(tops[..n], threshold), tops[n], threshold) {
        assert rows == prev + [[w]];
        FlattenPush(prev, w);
      } else {
        assert rows == prev[..|prev| - 1] + [prev[|prev| - 1] + [w]];
        FlattenExtendLast(prev, w);
      }
      SplitAt(words, n);
    }
  }

  /** The rows only depend on the measurements: words of the same count are cut alike. */
  lemma {:induction false} RowsShape<V, W>(vs: seq<V>, ws: seq<W>, tops: seq<real>, threshold: real)
    requires |vs| == |ws| == |tops|
    ensures SameShape(Rows(vs, tops, threshold), Rows(ws, tops, threshold))
    decreases |tops|
  {
    if |tops| > 0 {
      var n := |tops| - 1;
      var pv, pw := Rows(vs[..n], tops[..n], threshold), Rows(ws[..n], tops[..n], threshold);
      RowsShape(vs[..n], ws[..n], tops[..n], threshold);
      if StartsRow(LineOffset(tops[..n], threshold), tops[n], threshold) {
        assert Rows(vs, tops, threshold) == pv + [[vs[n]]] && Rows(ws, tops, threshold) == pw + [[ws[n]]];
        SameShapePush(pv, pw, vs[n], ws[n]);
      } else {
        assert Rows(vs, tops, threshold) == pv[..|pv| - 1] + [pv[|pv| - 1] + [vs[n]]];
        assert Rows(ws, tops, threshold) == pw[..|pw| - 1] + [pw[|pw| - 1] + [ws[n]]];
        SameShapeExtendLast(pv, pw, vs[n], ws[n]);
      }
    }
  }

  /** Two sequences of rows with the same row count and row lengths. */
  predicate SameShape<V, W>(a: seq<seq<V>>, b: seq<seq<W>>)
  {
    |a| == |b| && forall k :: 0 <= k < |a| ==> |a[k]| == |b[k]|
  }

  /** Opening a one-word row on both sides keeps the shapes equal. */
  lemma SameShapePush<V, W>(a: seq<seq<V>>, b: seq<seq<W>>, v: V, w: W)
    requires SameShape(a, b)
    ensures SameShape(a + [[v]], b + [[w]])
  {
    assert forall k :: 0 <= k < |a| ==> (a + [[v]])[k] == a[k] && (b + [[w]])[k] == b[k];
  }

  /** Extending the last row by one word on both sides keeps the shapes equal. */
  lemma SameShapeExtendLast<V, W>(a: seq<seq<V>>, b: seq<seq<W>>, v: V, w: W)
    requires SameShape(a, b) && a != []
    ensures SameShape(a[..|a| - 1] + [a[|a| - 1] + [v]], b[..|b| - 1] + [b[|b| - 1] + [w]])
  {
    var m := |a| - 1;
    assert forall k :: 0 <= k < m ==> (a[..m] + [a[m] + [v]])[k] == a[k] && (b[..m] + [b[m] + [w]])[k] == b[k];
  }

  /**
   * The offset kept by the walk is the top of the first word of the last
   * (still open) row; the measurements are grouped as the words are.
   */
  lemma {:induction false} OffsetIsRowTop(tops: seq<real>, threshold: real)
    requires |tops| > 0
    ensures var rows := Rows(tops, tops, threshold);
      LineOffset(tops, threshold) == Some(rows[|rows| - 1][0])
    decreases |tops|
  {
    var n := |tops| - 1;
    if n > 0 && !StartsRow(LineOffset(tops[..n], threshold), tops[n], threshold) {
      OffsetIsRowTop(tops[..n], threshold);
    }
  }

  /** Row k + 1 begins at least `threshold` below the first word of row k. */
  ghost predicate BreaksBelow(rows: seq<seq<real>>, threshold: real, k: int)
    requires 0 <= k && k + 1 < |rows| && rows[k] != [] && rows[k + 1] != []
  {
    rows[k + 1][0] - rows[k][0] >= threshold
  }

  /** Every word of row k lies less than `threshold` below the row's first word. */
  ghost predicate StaysOnRow(rows: seq<seq<real>>, threshold: real, k: int)
    requires 0 <= k < |rows| && rows[k] != []
  {
    forall p | 0 < p < |rows[k]| :: rows[k][p] - rows[k][0] < threshold
  }

  /**
   * The grouping rule, stated on the rows of measurements (grouped as the
   * words are, RowsShape): within a row every word lies less than `threshold`
   * below the row's first word, and each row after the first begins with a
   * word at least `threshold` below the first word of the row before it.
   * Together with RowsPartition this says that a word opens a row exactly
   * when the walk's test succeeds.
   */
  lemma {:induction false} RowsRule(tops: seq<real>, threshold: real)
    ensures forall k | 0 <= k < |Rows(tops, tops, threshold)| :: StaysOnRow(Rows(tops, tops, threshold), threshold, k)
    ensures forall k | 0 <= k < |Rows(tops, tops, threshold)| - 1 :: BreaksBelow(Rows(tops, tops, threshold), threshold, k)
    decreases |tops|
  {
    if |tops| > 0 {
      var n := |tops| - 1;
      var t := tops[n];
      var prev := Rows(tops[..n], tops[..n], threshold);
      var rows := Rows(tops, tops, threshold);
      RowsRule(tops[..n], threshold);
      if n > 0 {
        OffsetIsRowTop(tops[..n], threshold);
      }
      if StartsRow(LineOffset(tops[..n], threshold), t, threshold) {
        RowsRuleOpen(prev, t, threshold);
        assert rows == prev + [[t]];
      } else {
        RowsRuleJoin(prev, t, threshold);
        assert rows == prev[..|prev| - 1] + [prev[|prev| - 1] + [t]];
      }
    }
  }

  /** RowsRule's step when the next word opens a row. */
  lemma RowsRuleOpen(prev: seq<seq<real>>, t: real, threshold: real)
    requires forall k | 0 <= k < |prev| :: prev[k] != [] && StaysOnRow(prev, threshold, k)
    requires forall k | 0 <= k < |prev| - 1 :: BreaksBelow(prev, threshold, k)
    requires prev != [] ==> t - prev[|prev| - 1][0] >= threshold
    ensures var rows := prev + [[t]];
      (forall k | 0 <= k < |rows| :: StaysOnRow(rows, threshold, k)) &&
      (forall k | 0 <= k < |rows| - 1 :: BreaksBelow(rows, threshold, k))
  {
    var rows := prev + [[t]];
    forall k | 0 <= k < |rows| ensures StaysOnRow(rows, threshold, k) {
      if k < |prev| {
        assert rows[k] == prev[k];
        assert StaysOnRow(prev, threshold, k);
      }
    }
    forall k | 0 <= k < |rows| - 1 ensures BreaksBelow(rows, threshold, k) {
      if k < |prev| - 1 {
        assert BreaksBelow(prev, threshold, k);
      }
    }
  }

  /** RowsRule's step when the next word joins the open row. */
  lemma RowsRuleJoin(prev: seq<seq<real>>, t: real, threshold: real)
    requires prev != []
    requires forall k | 0 <= k < |prev| :: prev[k] != [] && StaysOnRow(prev, threshold, k)
    requires forall k | 0 <= k < |prev| - 1 :: BreaksBelow(prev, threshold, k)
    requires t - prev[|prev| - 1][0] < threshold
    ensures var m := |prev| - 1; var rows := prev[..m] + [prev[m] + [t]];
      (forall k | 0 <= k < |rows| :: rows[k] != [] && StaysOnRow(rows, threshold, k)) &&
      (forall k | 0 <= k < |rows| - 1 :: BreaksBelow(rows, threshold, k))
  {
    var m := |prev| - 1;
    var rows := prev[..m] + [prev[m] + [t]];
    forall k | 0 <= k < |rows| ensures rows[k] != [] && StaysOnRow(rows, threshold, k) {
      assert StaysOnRow(prev, threshold, k);
      if k == m {
        assert rows[k] == prev[m] + [t];
      }
    }
    forall k | 0 <= k < |rows| - 1 ensures BreaksBelow(rows, threshold, k) {
      assert BreaksBelow(prev, threshold, k);
    }
  }

  /**
   * With a positive threshold, each row's first word lies strictly below the
   * first word of the row before it: a word above the current offset never
   * opens a row.
   */
  lemma RowTopsDescend(tops: seq<real>, threshold: real)
    requires threshold > 0.0
    ensures forall k | 0 < k < |Rows(tops, tops, threshold)| ::
      Rows(tops, tops, threshold)[k - 1][0] < Rows(tops, tops, threshold)[k][0]
  {
    RowsRule(tops, threshold);
    var rows := Rows(tops, tops, threshold);
    forall k | 0 < k < |rows| ensures rows[k - 1][0] < rows[k][0] {
      assert BreaksBelow(rows, threshold, k - 1);
    }
  }

  /** The grouping walk itself: `lineOffset` and the open row advance word by word. */
  method GroupRows<W>(words: seq<W>, tops: seq<real>, threshold: real) returns (rows: seq<seq<W>>)
    requires |tops| == |words|
    ensures rows == Rows(words, tops, threshold)
  {
    var lineOffset: Option<real> := None;
    rows := [];
    var i := 0;
    while i < |words|
      invariant 0 <= i <= |words|
      invariant rows == Rows(words[..i], tops[..i], threshold)
      invariant lineOffset == LineOffset(tops[..i], threshold)
    {
      var top := tops[i];
      assert words[..i + 1][..i] == words[..i] && tops[..i + 1][..i] == tops[..i];
      ghost var prev := rows;
      ghost var opens := StartsRow(lineOffset, top, threshold);
      if lineOffset.None? || top - lineOffset.value >= threshold {
        lineOffset := Some(top);
        rows := rows + [[]];
        assert rows[..|rows| - 1] == prev && rows[|rows| - 1] == [];
      }
      rows := rows[..|rows| - 1] + [rows[|rows| - 1] + [words[i]]];
      if opens {
        assert rows == prev + [[] + [words[i]]];
        assert [] + [words[i]] == [words[i]];
      } else {
        assert rows == prev[..|prev| - 1] + [prev[|prev| - 1] + [words[i]]];
      }
      i := i + 1;
    }
    assert words[..i] == words && tops[..i] == tops;
  }

  /** Tops 10, 10, 34 with threshold 4: the first two words share a row. */
  lemma GroupingExample<W>(w1: W, w2: W, w3: W)
    ensures Rows([w1, w2, w3], [10.0, 10.0, 34.0], 4.0) == [[w1, w2], [w3]]
  {
    var ws: seq<W> := [w1, w2, w3];
    var ts: seq<real> := [10.0, 10.0, 34.0];
    assert ws[..2] == [w1, w2] && ts[..2] == [10.0, 10.0];
    GroupingExampleFirstRow(w1, w2);
    assert LineOffset([10.0, 10.0], 4.0) == Some(10.0) by {
      assert [10.0, 10.0][..1] == [10.0];
      assert [10.0][..0] == [];
    }
  }

  lemma GroupingExampleFirstRow<W>(w1: W, w2: W)
    ensures Rows([w1, w2], [10.0, 10.0], 4.0) == [[w1, w2]]
  {
    var ws: seq<W> := [w1, w2];
    var ts: seq<real> := [10.0, 10.0];
    assert ws[..1] == [w1] && ts[..1] == [10.0];
    assert [w1][..0] == [] && [10.0][..0] == [];
    assert Rows([w1], [10.0], 4.0) == [[w1]];
    assert LineOffset([10.0], 4.0) == Some(10.0);
    assert [w1] + [w2] == [w1, w2];
  }
}
