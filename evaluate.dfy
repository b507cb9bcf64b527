/** Classification statistics (code/evaluate_classification.py): the
    highest score of each book, the labels at or above a threshold, and how
    many books carry each label. Plotting and printing are not modelled. */
module Evaluation {
  import opened Common

  /** A `classifications` cell: a dict (its items in insertion order) or
      some other value. */
  datatype Cell = Dict(items: seq<(string, real)>) | NotDict

  const DefaultThreshold: real := 0.7

  /** The keys of a dict are distinct. */
  predicate DistinctKeys(items: seq<(string, real)>)
  {
    forall i, j :: 0 <= i < j < |items| ==> items[i].0 != items[j].0
  }

  predicate Distinct(xs: seq<string>)
  {
    forall i, j :: 0 <= i < j < |xs| ==> xs[i] != xs[j]
  }

  function MaxOf(items: seq<(string, real)>): real
    requires items != []
    decreases |items|
  {
    if |items| == 1 then items[0].1
    else
      var m := MaxOf(items[..|items| - 1]);
      if items[|items| - 1].1 > m then items[|items| - 1].1 else m
  }

  /** The `max_score` lambda of line 22. */
  function MaxScore(cell: Cell): real
  {
    if cell.Dict? && cell.items != [] then MaxOf(cell.items) else 0.0
  }

  /** The maximum score of a non-empty dict is one of its values and no
      value exceeds it; any other cell scores 0. */
  lemma {:induction false} MaxOfSpec(items: seq<(string, real)>)
    requires items != []
    ensures forall i :: 0 <= i < |items| ==> items[i].1 <= MaxOf(items)
    ensures exists i :: 0 <= i < |items| && items[i].1 == MaxOf(items)
    decreases |items|
  {
    if |items| > 1 {
      var init := items[..|items| - 1];
      MaxOfSpec(init);
      assert forall i :: 0 <= i < |init| ==> init[i] == items[i];
      var i :| 0 <= i < |init| && init[i].1 == MaxOf(init);
      if items[|items| - 1].1 > MaxOf(init) {
        assert items[|items| - 1].1 == MaxOf(items);
      } else {
        assert items[i].1 == MaxOf(items);
      }
    } else {
      assert items[0].1 == MaxOf(items);
    }
  }

  lemma MaxScoreSpec(cell: Cell)
    ensures cell.Dict? && cell.items != [] ==>
      (forall i :: 0 <= i < |cell.items| ==> cell.items[i].1 <= MaxScore(cell))
      && exists i :: 0 <= i < |cell.items| && cell.items[i].1 == MaxScore(cell)
    ensures cell.NotDict? || cell.items == [] ==> MaxScore(cell) == 0.0
  {
    if cell.Dict? && cell.items != [] {
      MaxOfSpec(cell.items);
    }
  }

  /** The `max_score` column. */
  function MaxScores(cells: seq<Cell>): (r: seq<real>)
    ensures |r| == |cells| && forall i :: 0 <= i < |cells| ==> r[i] == MaxScore(cells[i])
  {
    seq(|cells|, i requires 0 <= i < |cells| => MaxScore(cells[i]))
  }

  /** The labels of the items scoring at least `threshold`, in order. */
  function Above(items: seq<(string, real)>, threshold: real): seq<string>
    decreases |items|
  {
    if items == [] then []
    else
      var last := items[|items| - 1];
      Above(items[..|items| - 1], threshold) + (if last.1 >= threshold then [last.0] else [])
  }

  /** The `top_labels` lambda of lines 33-35. */
  function TopLabels(cell: Cell, threshold: real): seq<string>
  {
    if cell.Dict? then Above(cell.items, threshold) else []
  }

  /** A label is listed exactly when its score is at least the threshold
      (the comparison includes the threshold itself); with distinct keys no
      label is listed twice. */
  lemma AboveSpec(items: seq<(string, real)>, threshold: real)
    ensures forall l :: l in Above(items, threshold) <==>
      exists i :: 0 <= i < |items| && items[i].0 == l && items[i].1 >= threshold
    ensures DistinctKeys(items) ==> Distinct(Above(items, threshold))
    ensures |Above(items, threshold)| <= |items|
  {
    forall l ensures l in Above(items, threshold) <==>
      exists i :: 0 <= i < |items| && items[i].0 == l && items[i].1 >= threshold
    {
      AboveMembers(items, threshold, l);
    }
    if DistinctKeys(items) {
      AboveDistinct(items, threshold);
    }
    AboveLength(items, threshold);
  }

  lemma {:induction false} AboveMembers(items: seq<(string, real)>, threshold: real, l: string)
    ensures l in Above(items, threshold) <==>
      exists i :: 0 <= i < |items| && items[i].0 == l && items[i].1 >= threshold
    decreases |items|
  {
    if items != [] {
      var n := |items| - 1;
      var init := items[..n];
      AboveMembers(init, threshold, l);
      var tail := if items[n].1 >= threshold then [items[n].0] else [];
      assert Above(items, threshold) == Above(init, threshold) + tail;
      assert l in Above(items, threshold) <==> l in Above(init, threshold) || l in tail;
      if exists i :: 0 <= i < |init| && init[i].0 == l && init[i].1 >= threshold {
        var i :| 0 <= i < |init| && init[i].0 == l && init[i].1 >= threshold;
        assert items[i] == init[i];
      }
      if exists i :: 0 <= i < |items| && items[i].0 == l && items[i].1 >= threshold {
        var i :| 0 <= i < |items| && items[i].0 == l && items[i].1 >= threshold;
        if i < n { assert init[i] == items[i]; }
      }
    }
  }

  lemma {:induction false} AboveDistinct(items: seq<(string, real)>, threshold: real)
    requires DistinctKeys(items)
    ensures Distinct(Above(items, threshold))
    decreases |items|
  {
    if items != [] {
      var n := |items| - 1;
      var init := items[..n];
      assert DistinctKeys(init);
      AboveDistinct(init, threshold);
      var last := items[n];
      if last.1 >= threshold {
        forall i | 0 <= i < |init| ensures init[i].0 != last.0 {
          assert init[i] == items[i];
        }
        AboveMembers(init, threshold, last.0);
      }
    }
  }

  lemma {:induction false} AboveLength(items: seq<(string, real)>, threshold: real)
    ensures |Above(items, threshold)| <= |items|
    decreases |items|
  {
    if items != [] {
      AboveLength(items[..|items| - 1], threshold);
    }
  }

  /** A score equal to the threshold is listed, although the heading and
      the plot title describe the labels as strictly above it. */
  lemma ThresholdIsInclusive(name: string)
    ensures TopLabels(Dict([(name, DefaultThreshold)]), DefaultThreshold) == [name]
  {
    var items := [(name, DefaultThreshold)];
    assert items[..0] == [];
    assert Above(items, DefaultThreshold) == Above([], DefaultThreshold) + [name];
  }

  /** Number of occurrences of `l` in `xs`. */
  function Occurrences(l: string, xs: seq<string>): nat
    decreases |xs|
  {
    if xs == [] then 0 else (if xs[0] == l then 1 else 0) + Occurrences(l, xs[1..])
  }

  lemma {:induction false} OccurrencesAppend(l: string, a: seq<string>, b: seq<string>)
    ensures Occurrences(l, a + b) == Occurrences(l, a) + Occurrences(l, b)
    decreases |a|
  {
    if a != [] {
      assert (a + b)[1..] == a[1..] + b;
      OccurrencesAppend(l, a[1..], b);
    } else {
      assert a + b == b;
    }
  }

  lemma {:induction false} OccurrencesDistinct(l: string, xs: seq<string>)
    requires Distinct(xs)
    ensures Occurrences(l, xs) == if l in xs then 1 else 0
    decreases |xs|
  {
    if xs != [] {
      assert Distinct(xs[1..]) by {
        forall i, j | 0 <= i < j < |xs[1..]| ensures xs[1..][i] != xs[1..][j] {
          assert xs[1..][i] == xs[i + 1] && xs[1..][j] == xs[j + 1];
        }
      }
      OccurrencesDistinct(l, xs[1..]);
      if xs[0] == l {
        assert l !in xs[1..] by {
          forall k | 0 <= k < |xs[1..]| ensures xs[1..][k] != l { assert xs[1..][k] == xs[k + 1]; }
        }
      }
    }
  }

  lemma {:induction false} OccurrencesPositive(l: string, xs: seq<string>)
    requires l in xs
    ensures Occurrences(l, xs) >= 1
    decreases |xs|
  {
    if xs[0] != l {
      assert l in xs[1..] by {
        var k :| 0 <= k < |xs| && xs[k] == l;
        assert xs[1..][k - 1] == l;
      }
      OccurrencesPositive(l, xs[1..]);
    }
  }

  /** All listed labels of all books, book by book (line 36). */
  function AllTopLabels(cells: seq<Cell>, threshold: real): seq<string>
    decreases |cells|
  {
    if cells == [] then [] else TopLabels(cells[0], threshold) + AllTopLabels(cells[1..], threshold)
  }

  /** Number of books that list `l`. */
  function BooksWithLabel(cells: seq<Cell>, l: string, threshold: real): nat
    decreases |cells|
  {
    if cells == [] then 0
    else (if l in TopLabels(cells[0], threshold) then 1 else 0) + BooksWithLabel(cells[1..], l, threshold)
  }

  predicate WellFormed(cells: seq<Cell>)
  {
    forall i :: 0 <= i < |cells| && cells[i].Dict? ==> DistinctKeys(cells[i].items)
  }

  /** `value_counts()`: how often each listed label occurs. */
  function LabelCounts(cells: seq<Cell>, threshold: real): map<string, nat>
  {
    var all := AllTopLabels(cells, threshold);
    map l | l in all :: Occurrences(l, all)
  }

  /** Counting every listed label counts books: each label's count is the
      number of books that list it, and is at least 1. */
  lemma {:induction false} CountsAreBooks(cells: seq<Cell>, l: string, threshold: real)
    requires WellFormed(cells)
    ensures Occurrences(l, AllTopLabels(cells, threshold)) == BooksWithLabel(cells, l, threshold)
    decreases |cells|
  {
    if cells != [] {
      var first := TopLabels(cells[0], threshold);
      OccurrencesAppend(l, first, AllTopLabels(cells[1..], threshold));
      if cells[0].Dict? {
        AboveSpec(cells[0].items, threshold);
      }
      OccurrencesDistinct(l, first);
      assert WellFormed(cells[1..]) by {
        forall i | 0 <= i < |cells[1..]| && cells[1..][i].Dict? ensures DistinctKeys(cells[1..][i].items) {
          assert cells[1..][i] == cells[i + 1];
        }
      }
      CountsAreBooks(cells[1..], l, threshold);
    }
  }

  lemma LabelCountsSpec(cells: seq<Cell>, l: string, threshold: real)
    requires WellFormed(cells)
    requires l in LabelCounts(cells, threshold)
    ensures LabelCounts(cells, threshold)[l] == BooksWithLabel(cells, l, threshold)
    ensures LabelCounts(cells, threshold)[l] >= 1
  {
    CountsAreBooks(cells, l, threshold);
    OccurrencesPositive(l, AllTopLabels(cells, threshold));
  }

  /** A label is listed by some book exactly when some book scores it at
      least the threshold. */
  lemma {:induction false} AllTopLabelsSpec(cells: seq<Cell>, l: string, threshold: real)
    ensures l in AllTopLabels(cells, threshold) <==>
      exists b :: 0 <= b < |cells| && cells[b].Dict? &&
        exists i :: 0 <= i < |cells[b].items| && cells[b].items[i].0 == l && cells[b].items[i].1 >= threshold
    decreases |cells|
  {
    if cells != [] {
      AllTopLabelsSpec(cells[1..], l, threshold);
      if cells[0].Dict? {
        AboveSpec(cells[0].items, threshold);
      }
      assert forall b :: 1 <= b < |cells| ==> cells[b] == cells[1..][b - 1];
    }
  }

  /** `analyze_label_distribution`: the label counts, or None (the early
      return) when no label reaches the threshold. */
  function AnalyzeLabelDistribution(cells: seq<Cell>, threshold: real): (r: Option<map<string, nat>>)
  {
    var counts := LabelCounts(cells, threshold);
    if counts == map[] then None else Some(counts)
  }

  /** The analysis returns early exactly when no book scores any label at or
      above the threshold, and otherwise its counts hold every label that
      some book scores that high. */
  lemma AnalyzeSpec(cells: seq<Cell>, threshold: real)
    ensures AnalyzeLabelDistribution(cells, threshold).None? <==>
      forall b :: 0 <= b < |cells| && cells[b].Dict? ==>
        forall i :: 0 <= i < |cells[b].items| ==> cells[b].items[i].1 < threshold
    ensures forall b, i :: 0 <= b < |cells| && cells[b].Dict? && 0 <= i < |cells[b].items| && cells[b].items[i].1 >= threshold ==>
      cells[b].items[i].0 in LabelCounts(cells, threshold)
  {
    var all := AllTopLabels(cells, threshold);
    forall b, i | 0 <= b < |cells| && cells[b].Dict? && 0 <= i < |cells[b].items| && cells[b].items[i].1 >= threshold
      ensures cells[b].items[i].0 in LabelCounts(cells, threshold)
    {
      AllTopLabelsSpec(cells, cells[b].items[i].0, threshold);
    }
    if all != [] {
      AllTopLabelsSpec(cells, all[0], threshold);
      assert all[0] in LabelCounts(cells, threshold);
    }
  }
}
