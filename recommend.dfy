/** Recommendation scoring and ranking (api/recommendation_logic.py, with
    the constants of api/config.py).

    A book's `classifications` map each label to a score. Personalised
    relevance is the mean score over the labels the user asked for (a
    missing label counts 0); the top-rated score is the plain sum over a
    fixed list of seven categories. Both modes write their score as a new
    column of the table they receive, sort by it descending and keep the
    first seven rows. */
module Recommendation {
  import opened Common

  /** `config.N_RECOMMENDATIONS` */
  const NRecommendations: nat := 7

  /** `config.TOP_RATED_CATEGORIES` */
  const TopRatedCategories: seq<string> := [
    "Personal Development", "Career Success", "Productivity Enhancement",
    "Happiness and Well-Being", "Finance and Investment", "Leadership",
    "Critical Thinking"
  ]

  const HabitLabel: string := "Habit Improvement"

  /** One row of the classified table: its id (the index), title, cover
      URL (None when the table has no `cover_url` column), content, the
      label scores, and the score columns added by the ranking functions. */
  datatype BookRow = BookRow(bookId: int, title: string, coverUrl: Option<string>, content: Value,
                             classifications: map<string, real>, added: map<string, real>)

  /** The table the ranking functions receive and write a column into. */
  class BooksTable {
    var rows: seq<BookRow>

    constructor (rows: seq<BookRow>)
      ensures this.rows == rows
    {
      this.rows := rows;
    }
  }

  /** The user preferences, with the defaults of the request model. */
  datatype Preferences = Preferences(goals: seq<string>, skills: seq<string>, contentTypes: seq<string>, habitBuilding: bool)

  // ---------------------------------------------------------------------
  // The requested label set
  // ---------------------------------------------------------------------

  predicate Distinct<T(==)>(xs: seq<T>)
  {
    forall i, j :: 0 <= i < j < |xs| ==> xs[i] != xs[j]
  }

  /** `set(xs)` written as a list without repeats, in first-occurrence order. */
  function Dedup(xs: seq<string>): (d: seq<string>)
    ensures Distinct(d)
    ensures forall x :: x in d <==> x in xs
    decreases |xs|
  {
    if xs == [] then []
    else
      var front := Dedup(xs[..|xs| - 1]);
      var last := xs[|xs| - 1];
      assert forall x :: x in xs <==> x in xs[..|xs| - 1] || x == last by {
        assert xs == xs[..|xs| - 1] + [last];
      }
      if last in front then front else front + [last]
  }

  /** Lines 6-8: the union of goals, skills and content types, plus the
      habit label when habit building is asked for; each label once. */
  function UserLabels(p: Preferences): (labels: seq<string>)
    ensures Distinct(labels)
    ensures forall l :: l in labels <==>
      l in p.goals || l in p.skills || l in p.contentTypes || (p.habitBuilding && l == HabitLabel)
  {
    var union := Dedup(p.goals + p.skills + p.contentTypes);
    if p.habitBuilding && HabitLabel !in union then union + [HabitLabel] else union
  }

  // ---------------------------------------------------------------------
  // Scores
  // ---------------------------------------------------------------------

  /** `scores.get(label, 0)` */
  function Get(scores: map<string, real>, l: string): real
  {
    if l in scores then scores[l] else 0.0
  }

  function Gets(scores: map<string, real>, labels: seq<string>): (r: seq<real>)
    ensures |r| == |labels|
    ensures forall i :: 0 <= i < |labels| ==> r[i] == Get(scores, labels[i])
  {
    seq(|labels|, i requires 0 <= i < |labels| => Get(scores, labels[i]))
  }

  /** Line 14 for a non-empty label set. */
  function Relevance(scores: map<string, real>, labels: seq<string>): real
    requires labels != []
  {
    Sum(Gets(scores, labels)) / (|labels| as real)
  }

  /** Line 27: the unnormalised sum over the top-rated categories. */
  function TopRatedScore(scores: map<string, real>): real
  {
    Sum(Gets(scores, TopRatedCategories))
  }

  /** A book scoring 0.8 on A, 0.4 on B and 0.0 on C has relevance 0.6 for
      the labels A and B. */
  lemma RelevanceExample(scores: map<string, real>, labels: seq<string>)
    requires scores == map["A" := 0.8, "B" := 0.4, "C" := 0.0] && labels == ["A", "B"]
    ensures Relevance(scores, labels) == 0.6
  {
    var xs := Gets(scores, labels);
    assert xs == [0.8, 0.4];
    assert Sum(xs) == 0.8 + Sum(xs[1..]);
    assert Sum(xs[1..]) == 0.4 + Sum(xs[2..]);
  }

  predicate UnitScores(scores: map<string, real>)
  {
    forall l :: l in scores ==> 0.0 <= scores[l] <= 1.0
  }

  lemma GetsBounds(scores: map<string, real>, labels: seq<string>)
    requires UnitScores(scores)
    ensures AllIn(Gets(scores, labels), 0.0, 1.0)
  {
  }

  /** With stored scores in [0, 1], relevance lies in [0, 1]. */
  lemma RelevanceBounds(scores: map<string, real>, labels: seq<string>)
    requires labels != [] && UnitScores(scores)
    ensures 0.0 <= Relevance(scores, labels) <= 1.0
  {
    GetsBounds(scores, labels);
    MeanBounds(Gets(scores, labels), 0.0, 1.0);
  }

  /** With stored scores in [0, 1], the top-rated score lies in [0, 7]. */
  lemma TopRatedScoreBounds(scores: map<string, real>)
    requires UnitScores(scores)
    ensures 0.0 <= TopRatedScore(scores) <= 7.0
  {
    GetsBounds(scores, TopRatedCategories);
    SumBounds(Gets(scores, TopRatedCategories), 0.0, 1.0);
  }

  /** In a repeat-free list every element occurs once. */
  lemma {:induction false} DistinctMultiplicity(a: seq<string>, y: string)
    requires Distinct(a)
    ensures multiset(a)[y] == if y in a then 1 else 0
    decreases |a|
  {
    if a != [] {
      assert a == [a[0]] + a[1..];
      assert Distinct(a[1..]) by {
        forall i, j | 0 <= i < j < |a[1..]| ensures a[1..][i] != a[1..][j] {
          assert a[1..][i] == a[i + 1] && a[1..][j] == a[j + 1];
        }
      }
      DistinctMultiplicity(a[1..], y);
      assert a[0] !in a[1..] by {
        forall k | 0 <= k < |a[1..]| ensures a[1..][k] != a[0] {
          assert a[1..][k] == a[k + 1];
        }
      }
      assert y in a <==> y == a[0] || y in a[1..];
    }
  }

  /** Two repeat-free lists of the same labels hold the same labels with
      the same multiplicities. */
  lemma DistinctSameElements(a: seq<string>, b: seq<string>)
    requires Distinct(a) && Distinct(b)
    requires forall x :: x in a <==> x in b
    ensures multiset(a) == multiset(b)
  {
    forall y ensures multiset(a)[y] == multiset(b)[y] {
      DistinctMultiplicity(a, y);
      DistinctMultiplicity(b, y);
    }
  }

  /** Taking label j out of the list takes its score out of the scores. */
  lemma GetsRemove(scores: map<string, real>, b: seq<string>, j: nat)
    requires j < |b|
    ensures multiset(Gets(scores, b)) == multiset(Gets(scores, b[..j] + b[j + 1..])) + multiset{Get(scores, b[j])}
  {
    var g := Gets(scores, b);
    assert g == g[..j] + [g[j]] + g[j + 1..];
    assert Gets(scores, b[..j] + b[j + 1..]) == g[..j] + g[j + 1..];
  }

  lemma {:induction false} GetsPermutation(scores: map<string, real>, a: seq<string>, b: seq<string>)
    requires multiset(a) == multiset(b)
    ensures multiset(Gets(scores, a)) == multiset(Gets(scores, b))
    decreases |a|
  {
    if a == [] {
      assert |b| == |multiset(b)| == 0;
    } else {
      var x := a[0];
      assert a == [x] + a[1..];
      assert x in multiset(b);
      var j :| 0 <= j < |b| && b[j] == x;
      var rest := b[..j] + b[j + 1..];
      MultisetRemove(b, j);
      GetsPermutation(scores, a[1..], rest);
      GetsRemove(scores, b, j);
      GetsCons(scores, a);
    }
  }

  lemma GetsCons(scores: map<string, real>, a: seq<string>)
    requires a != []
    ensures multiset(Gets(scores, a)) == multiset{Get(scores, a[0])} + multiset(Gets(scores, a[1..]))
  {
    assert Gets(scores, a) == [Get(scores, a[0])] + Gets(scores, a[1..]);
  }

  /** A Python set has no fixed iteration order; any repeat-free listing of
      the requested labels gives the same relevance. */
  lemma RelevanceOrderIrrelevant(scores: map<string, real>, a: seq<string>, b: seq<string>)
    requires a != [] && Distinct(a) && Distinct(b)
    requires forall l :: l in a <==> l in b
    ensures b != [] && Relevance(scores, a) == Relevance(scores, b)
  {
    DistinctSameElements(a, b);
    assert |a| == |multiset(a)| == |multiset(b)| == |b|;
    GetsPermutation(scores, a, b);
    SumPermutation(Gets(scores, a), Gets(scores, b));
  }

  // ---------------------------------------------------------------------
  // Ranking: sort descending, keep the first n
  // ---------------------------------------------------------------------

  predicate Descending<T>(xs: seq<T>, key: T -> real)
  {
    forall i, j :: 0 <= i < j < |xs| ==> key(xs[i]) >= key(xs[j])
  }

  predicate AtMost<T>(xs: seq<T>, key: T -> real, v: real)
  {
    forall i :: 0 <= i < |xs| ==> key(xs[i]) <= v
  }

  function Insert<T>(x: T, xs: seq<T>, key: T -> real): (r: seq<T>)
    ensures |r| == |xs| + 1
    decreases |xs|
  {
    if xs == [] || key(x) >= key(xs[0]) then [x] + xs
    else [xs[0]] + Insert(x, xs[1..], key)
  }

  lemma {:induction false} InsertAtMost<T>(x: T, xs: seq<T>, key: T -> real, v: real)
    requires AtMost(xs, key, v) && key(x) <= v
    ensures AtMost(Insert(x, xs, key), key, v)
    decreases |xs|
  {
    if xs != [] && key(x) < key(xs[0]) {
      InsertAtMost(x, xs[1..], key, v);
    }
  }

  lemma {:induction false} InsertDescending<T>(x: T, xs: seq<T>, key: T -> real)
    requires Descending(xs, key)
    ensures Descending(Insert(x, xs, key), key)
    decreases |xs|
  {
    if xs != [] && key(x) < key(xs[0]) {
      InsertDescending(x, xs[1..], key);
      InsertAtMost(x, xs[1..], key, key(xs[0]));
    }
  }

  lemma {:induction false} InsertMultiset<T>(x: T, xs: seq<T>, key: T -> real)
    ensures multiset(Insert(x, xs, key)) == multiset(xs) + multiset{x}
    decreases |xs|
  {
    if xs != [] && key(x) < key(xs[0]) {
      InsertMultiset(x, xs[1..], key);
      assert xs == [xs[0]] + xs[1..];
    }
  }

  /** The sort of line 18 and line 31 (descending by the key). */
  function SortDescending<T>(xs: seq<T>, key: T -> real): (r: seq<T>)
    ensures |r| == |xs|
    decreases |xs|
  {
    if xs == [] then [] else Insert(xs[0], SortDescending(xs[1..], key), key)
  }

  /** The sort orders by the key, descending, and keeps every row. */
  lemma {:induction false} SortDescendingSpec<T>(xs: seq<T>, key: T -> real)
    ensures Descending(SortDescending(xs, key), key)
    ensures multiset(SortDescending(xs, key)) == multiset(xs)
    decreases |xs|
  {
    if xs != [] {
      SortDescendingSpec(xs[1..], key);
      InsertDescending(xs[0], SortDescending(xs[1..], key), key);
      InsertMultiset(xs[0], SortDescending(xs[1..], key), key);
      assert xs == [xs[0]] + xs[1..];
    }
  }

  function Min(a: nat, b: nat): nat
  {
    if a < b then a else b
  }

  /** `sort_values(ascending=False).head(n)` */
  function TopN<T>(xs: seq<T>, key: T -> real, n: nat): (r: seq<T>)
    ensures |r| == Min(n, |xs|)
  {
    SortDescending(xs, key)[..Min(n, |xs|)]
  }

  /** The rows `head(n)` leaves out. */
  function Dropped<T>(xs: seq<T>, key: T -> real, n: nat): seq<T>
  {
    SortDescending(xs, key)[Min(n, |xs|)..]
  }

  /** The kept rows are in descending order, kept and dropped rows together
      are the input rows, and no dropped row scores higher than a kept one. */
  lemma TopNSpec<T>(xs: seq<T>, key: T -> real, n: nat)
    ensures Descending(TopN(xs, key, n), key)
    ensures multiset(TopN(xs, key, n)) + multiset(Dropped(xs, key, n)) == multiset(xs)
    ensures forall i, j :: 0 <= i < |TopN(xs, key, n)| && 0 <= j < |Dropped(xs, key, n)| ==>
      key(TopN(xs, key, n)[i]) >= key(Dropped(xs, key, n)[j])
  {
    var sorted := SortDescending(xs, key);
    SortDescendingSpec(xs, key);
    var k := Min(n, |xs|);
    assert sorted == sorted[..k] + sorted[k..];
    forall i, j | 0 <= i < k && 0 <= j < |sorted| - k ensures key(sorted[..k][i]) >= key(sorted[k..][j]) {
      assert sorted[k..][j] == sorted[k + j];
    }
  }

  /** Every kept row is an input row. */
  lemma TopNMembers<T>(xs: seq<T>, key: T -> real, n: nat)
    ensures forall i :: 0 <= i < |TopN(xs, key, n)| ==> TopN(xs, key, n)[i] in xs
  {
    TopNSpec(xs, key, n);
    forall i | 0 <= i < |TopN(xs, key, n)| ensures TopN(xs, key, n)[i] in xs {
      assert TopN(xs, key, n)[i] in multiset(TopN(xs, key, n));
      assert TopN(xs, key, n)[i] in multiset(xs);
    }
  }

  // ---------------------------------------------------------------------
  // The two ranking functions
  // ---------------------------------------------------------------------

  /** The table with score column `column` set to `score` of each row's classifications. */
  function WithScore(rows: seq<BookRow>, column: string, score: map<string, real> -> real): (r: seq<BookRow>)
    ensures |r| == |rows|
  {
    seq(|rows|, i requires 0 <= i < |rows| =>
      rows[i].(added := rows[i].added[column := score(rows[i].classifications)]))
  }

  function AddedScore(column: string): BookRow -> real
  {
    (b: BookRow) => if column in b.added then b.added[column] else 0.0
  }

  /** `get_for_you_recommendations`: writes `relevance_score` into the table
      it receives and returns its seven most relevant rows; with no
      requested label it returns no rows and leaves the table alone. */
  method GetForYouRecommendations(df: BooksTable, preferences: Preferences) returns (result: seq<BookRow>)
    modifies df
    ensures var labels := UserLabels(preferences);
      && (labels == [] ==> result == [] && df.rows == old(df.rows))
      && (labels != [] ==>
            && df.rows == WithScore(old(df.rows), "relevance_score", s => Relevance(s, labels))
            && result == TopN(df.rows, AddedScore("relevance_score"), NRecommendations))
  {
    var userLabels := UserLabels(preferences);
    if userLabels == [] {
      return [];
    }
    df.rows := WithScore(df.rows, "relevance_score", s => Relevance(s, userLabels));
    result := TopN(df.rows, AddedScore("relevance_score"), NRecommendations);
  }

  /** `get_top_rated_books`: writes `top_rated_score` into the table it
      receives and returns its seven highest-scoring rows. */
  method GetTopRatedBooks(df: BooksTable) returns (result: seq<BookRow>)
    modifies df
    ensures df.rows == WithScore(old(df.rows), "top_rated_score", TopRatedScore)
    ensures result == TopN(df.rows, AddedScore("top_rated_score"), NRecommendations)
  {
    df.rows := WithScore(df.rows, "top_rated_score", TopRatedScore);
    result := TopN(df.rows, AddedScore("top_rated_score"), NRecommendations);
  }

  /** Every scored row carries its score in `column`. */
  lemma WithScoreSpec(rows: seq<BookRow>, column: string, score: map<string, real> -> real)
    ensures forall b :: b in WithScore(rows, column, score) ==>
      AddedScore(column)(b) == score(b.classifications) && column in b.added
  {
  }

  /** The personalised ranking keeps min(7, n) input rows, each carrying its
      relevance, in descending relevance, and no dropped row is more
      relevant than a kept one. */
  lemma ForYouRanking(rows: seq<BookRow>, labels: seq<string>)
    requires labels != []
    ensures var scored := WithScore(rows, "relevance_score", s => Relevance(s, labels));
      var top := TopN(scored, AddedScore("relevance_score"), NRecommendations);
      && |top| == Min(7, |rows|)
      && (forall i :: 0 <= i < |top| ==>
            top[i] in scored && top[i].added["relevance_score"] == Relevance(top[i].classifications, labels))
      && forall i, j :: 0 <= i < j < |top| ==>
           Relevance(top[i].classifications, labels) >= Relevance(top[j].classifications, labels)
  {
    var scored := WithScore(rows, "relevance_score", s => Relevance(s, labels));
    TopNSpec(scored, AddedScore("relevance_score"), NRecommendations);
    TopNMembers(scored, AddedScore("relevance_score"), NRecommendations);
    WithScoreSpec(rows, "relevance_score", s => Relevance(s, labels));
  }

  /** The top-rated ranking keeps min(7, n) input rows, each carrying its
      top-rated score, in descending order of that score. */
  lemma TopRatedRanking(rows: seq<BookRow>)
    ensures var scored := WithScore(rows, "top_rated_score", TopRatedScore);
      var top := TopN(scored, AddedScore("top_rated_score"), NRecommendations);
      && |top| == Min(7, |rows|)
      && (forall i :: 0 <= i < |top| ==>
            top[i] in scored && top[i].added["top_rated_score"] == TopRatedScore(top[i].classifications))
      && forall i, j :: 0 <= i < j < |top| ==>
           TopRatedScore(top[i].classifications) >= TopRatedScore(top[j].classifications)
  {
    var scored := WithScore(rows, "top_rated_score", TopRatedScore);
    TopNSpec(scored, AddedScore("top_rated_score"), NRecommendations);
    TopNMembers(scored, AddedScore("top_rated_score"), NRecommendations);
    WithScoreSpec(rows, "top_rated_score", TopRatedScore);
  }
}
