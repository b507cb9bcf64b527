/** Zero-shot classification of books (code/classify_books.py).

    Each book's content is cleaned; books left blank are dropped. Every
    remaining book is cut into text chunks, each chunk is scored against
    the candidate labels, the per-chunk scores are collected per label in a
    dictionary of lists, and each label's value is the mean of its list, or
    exactly 0.0 when the list is empty. The tokenizer that cuts the chunks
    and the classifier are abstract inputs: `chunker` gives the chunk texts
    of a content string and `classify` gives the (label, score) pairs of a
    chunk, or None when the classifier call raises. */
module Classify {
  import opened Common
  import opened Text
  import Cleaning

  // ---------------------------------------------------------------------
  // Cleaning before classification
  // ---------------------------------------------------------------------

  /** `clean_text_for_classification`: blank or non-string content becomes
      "", anything else goes through the cleaning regex chain. */
  function CleanTextForClassification(text: Value, getText: string -> string): (r: string)
    ensures text.NotStr? ==> r == ""
    ensures text.Str? && Strip(text.s) == [] ==> r == ""
    ensures Cleaning.CleanShape(r)
  {
    if text.NotStr? || Strip(text.s) == [] then ""
    else Cleaning.CleanPipeline(getText(text.s))
  }

  /** The classification cleaner is the corpus cleaner with one extra
      guard: content that is only whitespace is not handed to the HTML
      parser at all. */
  lemma CleanersAgree(text: Value, getText: string -> string)
    ensures text.Str? && Strip(text.s) != [] ==>
      CleanTextForClassification(text, getText) == Cleaning.CleanText(text, getText)
    ensures text.NotStr? ==> CleanTextForClassification(text, getText) == Cleaning.CleanText(text, getText)
  {
  }

  // ---------------------------------------------------------------------
  // Data
  // ---------------------------------------------------------------------

  /** The abstract model pair: the tokenizer's chunk texts for a content
      string, and the classifier's (label, score) pairs for one chunk
      (None when the call raises). */
  datatype Models = Models(chunker: string -> seq<string>, classify: string -> Option<seq<(string, real)>>)

  /** One input record: its `content` and every other column, carried along unchanged. */
  datatype InputBook = InputBook(other: map<string, Value>, content: Value)

  /** A row of the table after cleaning: cleaned content and its word count. */
  datatype Row = Row(other: map<string, Value>, content: string, wordCount: nat)

  /** A row with its `classifications` column. */
  datatype ClassifiedRow = ClassifiedRow(row: Row, classifications: map<string, real>)

  /** A temporary save: the first rows of the table with their vectors. */
  datatype Checkpoint = Checkpoint(rows: seq<ClassifiedRow>)

  function LabelSet(labels: seq<string>): set<string>
  {
    set l | l in labels
  }

  /** `{label: [] for label in candidate_labels}` */
  function InitScores(labels: seq<string>): (m: map<string, seq<real>>)
    ensures m.Keys == LabelSet(labels)
    ensures forall l :: l in m ==> m[l] == []
  {
    map l | l in labels :: []
  }

  /** `{label: 0.0 for label in candidate_labels}` */
  function ZeroVector(labels: seq<string>): (v: map<string, real>)
    ensures v.Keys == LabelSet(labels)
    ensures forall l :: l in v ==> v[l] == 0.0
  {
    map l | l in labels :: 0.0
  }

  // ---------------------------------------------------------------------
  // The dictionary of per-label score lists
  // ---------------------------------------------------------------------

  /** The inner `for label, score in zip(...)` loop: each score is appended
      to its label's list; a label that is not a key raises KeyError, which
      the chunk's `except` swallows, so the remaining pairs are dropped and
      the appends already made stay. */
  function AppendPairs(m: map<string, seq<real>>, pairs: seq<(string, real)>): map<string, seq<real>>
    decreases |pairs|
  {
    if pairs == [] || pairs[0].0 !in m then m
    else AppendPairs(m[pairs[0].0 := m[pairs[0].0] + [pairs[0].1]], pairs[1..])
  }

  /** The pairs a chunk contributes: none when the classifier raises. */
  function ChunkPairs(c: string, classify: string -> Option<seq<(string, real)>>): seq<(string, real)>
  {
    match classify(c)
    case None => []
    case Some(pairs) => pairs
  }

  /** The dictionary after classifying the chunks in order. */
  function ScoresAfter(m: map<string, seq<real>>, chunks: seq<string>,
                       classify: string -> Option<seq<(string, real)>>): map<string, seq<real>>
    decreases |chunks|
  {
    if chunks == [] then m
    else AppendPairs(ScoresAfter(m, chunks[..|chunks| - 1], classify), ChunkPairs(chunks[|chunks| - 1], classify))
  }

  /** The aggregation loop: the mean of each non-empty list, 0.0 otherwise. */
  function Aggregate(labels: seq<string>, m: map<string, seq<real>>): map<string, real>
  {
    map l | l in labels :: if l in m && m[l] != [] then Mean(m[l]) else 0.0
  }

  // ---------------------------------------------------------------------
  // Reference definition: the scores of one label, chunk by chunk
  // ---------------------------------------------------------------------

  /** The scores that label `l` receives from one classifier answer: those
      of its pairs before the first pair whose label is not a candidate. */
  function PairScores(l: string, labels: seq<string>, pairs: seq<(string, real)>): seq<real>
    decreases |pairs|
  {
    if pairs == [] || pairs[0].0 !in labels then []
    else (if pairs[0].0 == l then [pairs[0].1] else []) + PairScores(l, labels, pairs[1..])
  }

  /** The scores that label `l` receives from a sequence of chunks. */
  function ScoresFor(l: string, labels: seq<string>, chunks: seq<string>,
                     classify: string -> Option<seq<(string, real)>>): seq<real>
    decreases |chunks|
  {
    if chunks == [] then []
    else PairScores(l, labels, ChunkPairs(chunks[0], classify)) + ScoresFor(l, labels, chunks[1..], classify)
  }

  /** Appending an answer's pairs keeps the keys. */
  lemma {:induction false} AppendPairsKeys(m: map<string, seq<real>>, pairs: seq<(string, real)>)
    ensures AppendPairs(m, pairs).Keys == m.Keys
    decreases |pairs|
  {
    if pairs != [] && pairs[0].0 in m {
      AppendPairsKeys(m[pairs[0].0 := m[pairs[0].0] + [pairs[0].1]], pairs[1..]);
    }
  }

  /** Label l's list grows by the scores the answer gives l. */
  lemma {:induction false} AppendPairsAt(m: map<string, seq<real>>, labels: seq<string>, pairs: seq<(string, real)>, l: string)
    requires m.Keys == LabelSet(labels) && l in m
    ensures l in AppendPairs(m, pairs) && AppendPairs(m, pairs)[l] == m[l] + PairScores(l, labels, pairs)
    decreases |pairs|
  {
    if pairs != [] && pairs[0].0 in m {
      var k := pairs[0].0;
      var m' := m[k := m[k] + [pairs[0].1]];
      AppendPairsAt(m', labels, pairs[1..], l);
      if l == k {
        assert m'[l] + PairScores(l, labels, pairs[1..]) == m[l] + ([pairs[0].1] + PairScores(l, labels, pairs[1..]));
      } else {
        assert [] + PairScores(l, labels, pairs[1..]) == PairScores(l, labels, pairs[1..]);
      }
    }
  }

  lemma AppendPairsSpec(m: map<string, seq<real>>, labels: seq<string>, pairs: seq<(string, real)>)
    requires m.Keys == LabelSet(labels)
    ensures AppendPairs(m, pairs).Keys == m.Keys
    ensures forall l :: l in m ==> AppendPairs(m, pairs)[l] == m[l] + PairScores(l, labels, pairs)
  {
    AppendPairsKeys(m, pairs);
    forall l | l in m ensures AppendPairs(m, pairs)[l] == m[l] + PairScores(l, labels, pairs) {
      AppendPairsAt(m, labels, pairs, l);
    }
  }

  /** The chunk loop keeps the keys. */
  lemma {:induction false} ScoresAfterKeys(m: map<string, seq<real>>, chunks: seq<string>,
                                           classify: string -> Option<seq<(string, real)>>)
    ensures ScoresAfter(m, chunks, classify).Keys == m.Keys
    decreases |chunks|
  {
    if chunks != [] {
      ScoresAfterKeys(m, chunks[..|chunks| - 1], classify);
      AppendPairsKeys(ScoresAfter(m, chunks[..|chunks| - 1], classify), ChunkPairs(chunks[|chunks| - 1], classify));
    }
  }

  /** Label l's list after the chunk loop. */
  lemma {:induction false} ScoresAfterAt(m: map<string, seq<real>>, labels: seq<string>, chunks: seq<string>,
                                         classify: string -> Option<seq<(string, real)>>, l: string)
    requires m.Keys == LabelSet(labels) && l in m
    ensures l in ScoresAfter(m, chunks, classify)
    ensures ScoresAfter(m, chunks, classify)[l] == m[l] + ScoresFor(l, labels, chunks, classify)
    decreases |chunks|
  {
    if chunks == [] {
      assert m[l] + [] == m[l];
    } else {
      var front := chunks[..|chunks| - 1];
      var ps := PairScores(l, labels, ChunkPairs(chunks[|chunks| - 1], classify));
      ScoresAfterAt(m, labels, front, classify, l);
      ScoresAfterKeys(m, front, classify);
      ScoresAfterLast(m, labels, chunks, classify, l);
      ScoresForLast(l, labels, chunks, classify);
      AppendAssoc(m[l], ScoresFor(l, labels, front, classify), ps);
    }
  }

  /** The last chunk appends its scores to label l's list. */
  lemma ScoresAfterLast(m: map<string, seq<real>>, labels: seq<string>, chunks: seq<string>,
                        classify: string -> Option<seq<(string, real)>>, l: string)
    requires chunks != []
    requires ScoresAfter(m, chunks[..|chunks| - 1], classify).Keys == LabelSet(labels)
    requires l in ScoresAfter(m, chunks[..|chunks| - 1], classify)
    ensures l in ScoresAfter(m, chunks, classify)
    ensures ScoresAfter(m, chunks, classify)[l]
         == ScoresAfter(m, chunks[..|chunks| - 1], classify)[l]
            + PairScores(l, labels, ChunkPairs(chunks[|chunks| - 1], classify))
  {
    AppendPairsAt(ScoresAfter(m, chunks[..|chunks| - 1], classify), labels, ChunkPairs(chunks[|chunks| - 1], classify), l);
  }

  /** The dictionary the chunk loop builds holds, for every label, exactly
      the label's scores from the reference definition: the loop keeps the
      candidate labels as keys, a failing chunk adds nothing, and the
      chunks after a failing one are still classified. */
  lemma ScoresAfterSpec(m: map<string, seq<real>>, labels: seq<string>, chunks: seq<string>,
                        classify: string -> Option<seq<(string, real)>>)
    requires m.Keys == LabelSet(labels)
    ensures ScoresAfter(m, chunks, classify).Keys == LabelSet(labels)
    ensures forall l :: l in m ==> ScoresAfter(m, chunks, classify)[l] == m[l] + ScoresFor(l, labels, chunks, classify)
  {
    ScoresAfterKeys(m, chunks, classify);
    forall l | l in m ensures ScoresAfter(m, chunks, classify)[l] == m[l] + ScoresFor(l, labels, chunks, classify) {
      ScoresAfterAt(m, labels, chunks, classify, l);
    }
  }

  lemma {:induction false} ScoresForAppend(l: string, labels: seq<string>, a: seq<string>, b: seq<string>,
                                           classify: string -> Option<seq<(string, real)>>)
    ensures ScoresFor(l, labels, a + b, classify) == ScoresFor(l, labels, a, classify) + ScoresFor(l, labels, b, classify)
    decreases |a|
  {
    if a == [] {
      assert a + b == b;
    } else {
      assert (a + b)[1..] == a[1..] + b;
      ScoresForAppend(l, labels, a[1..], b, classify);
    }
  }

  /** One chunk contributes the scores of its answer. */
  lemma ScoresForSingle(l: string, labels: seq<string>, c: string, classify: string -> Option<seq<(string, real)>>)
    ensures ScoresFor(l, labels, [c], classify) == PairScores(l, labels, ChunkPairs(c, classify))
  {
    assert [c][1..] == [];
  }

  /** The last chunk's scores come last. */
  lemma ScoresForLast(l: string, labels: seq<string>, chunks: seq<string>, classify: string -> Option<seq<(string, real)>>)
    requires chunks != []
    ensures ScoresFor(l, labels, chunks, classify)
         == ScoresFor(l, labels, chunks[..|chunks| - 1], classify) + PairScores(l, labels, ChunkPairs(chunks[|chunks| - 1], classify))
  {
    var last := chunks[|chunks| - 1];
    assert chunks == chunks[..|chunks| - 1] + [last];
    ScoresForAppend(l, labels, chunks[..|chunks| - 1], [last], classify);
    ScoresForSingle(l, labels, last, classify);
  }

  /** Removing chunk j: its scores come out of the label's list. */
  lemma ScoresForRemove(l: string, labels: seq<string>, b: seq<string>, j: nat,
                        classify: string -> Option<seq<(string, real)>>)
    requires j < |b|
    ensures multiset(ScoresFor(l, labels, b, classify))
         == multiset(ScoresFor(l, labels, b[..j] + b[j + 1..], classify))
          + multiset(PairScores(l, labels, ChunkPairs(b[j], classify)))
  {
    var left, right := b[..j], b[j + 1..];
    assert b == left + ([b[j]] + right);
    ScoresForAppend(l, labels, left, [b[j]] + right, classify);
    assert ([b[j]] + right)[1..] == right;
    ScoresForAppend(l, labels, left, right, classify);
  }

  /** The multiset of a label's scores does not depend on the order of the chunks. */
  lemma {:induction false} ScoresForPermutation(l: string, labels: seq<string>, a: seq<string>, b: seq<string>,
                                                classify: string -> Option<seq<(string, real)>>)
    requires multiset(a) == multiset(b)
    ensures multiset(ScoresFor(l, labels, a, classify)) == multiset(ScoresFor(l, labels, b, classify))
    decreases |a|
  {
    if a == [] {
      assert |b| == |multiset(b)| == 0;
    } else {
      var x := a[0];
      assert a == [x] + a[1..];
      assert x in multiset(b);
      var j :| 0 <= j < |b| && b[j] == x;
      MultisetRemove(b, j);
      ScoresForPermutation(l, labels, a[1..], b[..j] + b[j + 1..], classify);
      ScoresForRemove(l, labels, b, j, classify);
    }
  }

  // ---------------------------------------------------------------------
  // One book's vector
  // ---------------------------------------------------------------------

  /** Whether a book takes the aggregation path: non-blank content that the
      tokenizer cuts into at least one chunk. */
  predicate Aggregated(content: string, models: Models)
  {
    Strip(content) != [] && models.chunker(content) != []
  }

  /** The vector the loop appends for a book. */
  function BookVector(content: string, labels: seq<string>, models: Models): (v: map<string, real>)
    ensures v.Keys == LabelSet(labels)
  {
    if !Aggregated(content, models) then ZeroVector(labels)
    else Aggregate(labels, ScoresAfter(InitScores(labels), models.chunker(content), models.classify))
  }

  /** A label's value is the mean of its scores over all chunks, and
      exactly 0.0 when no chunk scored it; blank content and content
      without chunks give the all-zero vector. */
  lemma BookVectorValue(content: string, labels: seq<string>, models: Models, l: string)
    requires l in labels
    ensures !Aggregated(content, models) ==> BookVector(content, labels, models)[l] == 0.0
    ensures Aggregated(content, models) ==>
      var scores := ScoresFor(l, labels, models.chunker(content), models.classify);
      BookVector(content, labels, models)[l] == if scores == [] then 0.0 else Mean(scores)
  {
    if Aggregated(content, models) {
      ScoresAfterSpec(InitScores(labels), labels, models.chunker(content), models.classify);
      assert InitScores(labels)[l] == [];
      assert [] + ScoresFor(l, labels, models.chunker(content), models.classify)
          == ScoresFor(l, labels, models.chunker(content), models.classify);
    }
  }

  /** Every classifier answer scores within [0, 1]. */
  predicate UnitScores(classify: string -> Option<seq<(string, real)>>, chunks: seq<string>)
  {
    forall c, i :: c in chunks && 0 <= i < |ChunkPairs(c, classify)| ==> 0.0 <= ChunkPairs(c, classify)[i].1 <= 1.0
  }

  lemma {:induction false} PairScoresBounds(l: string, labels: seq<string>, pairs: seq<(string, real)>)
    requires forall i :: 0 <= i < |pairs| ==> 0.0 <= pairs[i].1 <= 1.0
    ensures AllIn(PairScores(l, labels, pairs), 0.0, 1.0)
    decreases |pairs|
  {
    if pairs != [] && pairs[0].0 in labels {
      PairScoresBounds(l, labels, pairs[1..]);
    }
  }

  lemma {:induction false} ScoresForBounds(l: string, labels: seq<string>, chunks: seq<string>,
                                           classify: string -> Option<seq<(string, real)>>)
    requires UnitScores(classify, chunks)
    ensures AllIn(ScoresFor(l, labels, chunks, classify), 0.0, 1.0)
    decreases |chunks|
  {
    if chunks != [] {
      var rest := chunks[1..];
      assert UnitScores(classify, rest) by {
        forall c | c in rest ensures c in chunks {
          var k :| 0 <= k < |rest| && rest[k] == c;
          assert chunks[k + 1] == c;
        }
      }
      ScoresForBounds(l, labels, rest, classify);
      var pairs := ChunkPairs(chunks[0], classify);
      assert forall i :: 0 <= i < |pairs| ==> 0.0 <= pairs[i].1 <= 1.0 by {
        assert chunks[0] in chunks;
      }
      PairScoresBounds(l, labels, pairs);
    }
  }

  /** With classifier scores in [0, 1], every aggregated value lies in [0, 1]. */
  lemma BookVectorBounds(content: string, labels: seq<string>, models: Models)
    requires UnitScores(models.classify, models.chunker(content))
    ensures forall l :: l in BookVector(content, labels, models) ==> 0.0 <= BookVector(content, labels, models)[l] <= 1.0
  {
    forall l | l in BookVector(content, labels, models)
      ensures 0.0 <= BookVector(content, labels, models)[l] <= 1.0
    {
      BookVectorValue(content, labels, models, l);
      var scores := ScoresFor(l, labels, models.chunker(content), models.classify);
      ScoresForBounds(l, labels, models.chunker(content), models.classify);
      if Aggregated(content, models) && scores != [] {
        MeanBounds(scores, 0.0, 1.0);
      }
    }
  }

  /** Classifying the same chunks in another order gives the same vector. */
  lemma ChunkOrderIrrelevant(labels: seq<string>, a: seq<string>, b: seq<string>,
                             classify: string -> Option<seq<(string, real)>>)
    requires multiset(a) == multiset(b)
    ensures Aggregate(labels, ScoresAfter(InitScores(labels), a, classify))
         == Aggregate(labels, ScoresAfter(InitScores(labels), b, classify))
  {
    var init := InitScores(labels);
    forall l | l in labels
      ensures Aggregate(labels, ScoresAfter(init, a, classify))[l] == Aggregate(labels, ScoresAfter(init, b, classify))[l]
    {
      ChunkOrderAt(labels, a, b, classify, l);
    }
  }

  /** One label's mean does not depend on the order of the chunks. */
  lemma ChunkOrderAt(labels: seq<string>, a: seq<string>, b: seq<string>,
                     classify: string -> Option<seq<(string, real)>>, l: string)
    requires multiset(a) == multiset(b) && l in labels
    ensures Aggregate(labels, ScoresAfter(InitScores(labels), a, classify))[l]
         == Aggregate(labels, ScoresAfter(InitScores(labels), b, classify))[l]
  {
    var init := InitScores(labels);
    var sa := ScoresFor(l, labels, a, classify);
    var sb := ScoresFor(l, labels, b, classify);
    assert l in init && init[l] == [];
    ScoresAfterAt(init, labels, a, classify, l);
    ScoresAfterAt(init, labels, b, classify, l);
    assert ScoresAfter(init, a, classify)[l] == sa;
    assert ScoresAfter(init, b, classify)[l] == sb;
    ScoresForPermutation(l, labels, a, b, classify);
    if sa != [] {
      MeanPermutation(sa, sb);
    } else {
      assert |sb| == |multiset(sb)| == |multiset(sa)| == 0;
    }
  }

  // ---------------------------------------------------------------------
  // The loops of `classify_books`
  // ---------------------------------------------------------------------

  /** Lines 139-140: append one answer's scores to the dictionary. */
  method AppendChunkScores(chunkScores: map<string, seq<real>>, pairs: seq<(string, real)>)
    returns (updated: map<string, seq<real>>)
    ensures updated == AppendPairs(chunkScores, pairs)
  {
    updated := chunkScores;
    var k := 0;
    while k < |pairs|
      invariant 0 <= k <= |pairs|
      invariant AppendPairs(chunkScores, pairs) == AppendPairs(updated, pairs[k..])
    {
      var name := pairs[k].0;
      var score := pairs[k].1;
      assert pairs[k..][1..] == pairs[k + 1..];
      if name !in updated {
        // KeyError: the rest of this answer is lost
        return;
      }
      updated := updated[name := updated[name] + [score]];
      k := k + 1;
    }
  }

  /** Lines 131-142: classify every chunk; a raising call adds nothing. */
  method ClassifyChunks(labels: seq<string>, chunks: seq<string>, classify: string -> Option<seq<(string, real)>>)
    returns (chunkScores: map<string, seq<real>>)
    ensures chunkScores == ScoresAfter(InitScores(labels), chunks, classify)
  {
    chunkScores := InitScores(labels);
    var i := 0;
    while i < |chunks|
      invariant 0 <= i <= |chunks|
      invariant chunkScores == ScoresAfter(InitScores(labels), chunks[..i], classify)
    {
      assert chunks[..i + 1][..i] == chunks[..i];
      match classify(chunks[i]) {
        case None =>
        case Some(pairs) =>
          chunkScores := AppendChunkScores(chunkScores, pairs);
      }
      i := i + 1;
    }
    assert chunks[..|chunks|] == chunks;
  }

  /** Lines 145-148: the mean of each non-empty list over a zero vector. */
  method AggregateScores(labels: seq<string>, chunkScores: map<string, seq<real>>)
    returns (aggregated: map<string, real>)
    requires chunkScores.Keys == LabelSet(labels)
    ensures aggregated == Aggregate(labels, chunkScores)
  {
    aggregated := ZeroVector(labels);
    var k := 0;
    while k < |labels|
      invariant 0 <= k <= |labels|
      invariant aggregated.Keys == LabelSet(labels)
      invariant forall l :: l in aggregated ==>
        aggregated[l] == if l in labels[..k] && chunkScores[l] != [] then Mean(chunkScores[l]) else 0.0
    {
      var name := labels[k];
      var scores := chunkScores[name];
      assert labels[..k + 1] == labels[..k] + [name];
      if scores != [] {
        aggregated := aggregated[name := Mean(scores)];
      }
      k := k + 1;
    }
    assert labels[..|labels|] == labels;
  }

  /** Lines 99-150 for one book: the vector it receives, and whether it
      took the aggregation path (the other two paths `continue`). */
  method ClassifyContent(content: string, labels: seq<string>, models: Models)
    returns (vector: map<string, real>, aggregated: bool)
    ensures vector == BookVector(content, labels, models)
    ensures aggregated == Aggregated(content, models)
  {
    if Strip(content) == [] {
      return ZeroVector(labels), false;
    }
    var chunks := models.chunker(content);
    if |chunks| == 0 {
      return ZeroVector(labels), false;
    }
    var chunkScores := ClassifyChunks(labels, chunks, models.classify);
    ScoresAfterSpec(InitScores(labels), labels, chunks, models.classify);
    vector := AggregateScores(labels, chunkScores);
    aggregated := true;
  }

  /** The table with its `classifications` column. */
  function ClassifiedTable(rows: seq<Row>, labels: seq<string>, models: Models): seq<ClassifiedRow>
  {
    seq(|rows|, i requires 0 <= i < |rows| => ClassifiedRow(rows[i], BookVector(rows[i].content, labels, models)))
  }

  /** The row counts after which a checkpoint is written: after a book that
      took the aggregation path, when the count is a multiple of the
      interval or equals the table size `n`. */
  function SaveCounts(rows: seq<Row>, models: Models, saveInterval: nat, n: nat): (counts: seq<nat>)
    requires saveInterval > 0
    ensures forall k :: 0 <= k < |counts| ==> 1 <= counts[k] <= |rows|
    ensures forall j, k :: 0 <= j < k < |counts| ==> counts[j] < counts[k]
    decreases |rows|
  {
    if rows == [] then []
    else
      var c := |rows|;
      SaveCounts(rows[..c - 1], models, saveInterval, n)
        + (if Aggregated(rows[c - 1].content, models) && (c % saveInterval == 0 || c == n) then [c] else [])
  }

  /** A checkpoint follows row count c exactly when row c took the
      aggregation path and c is a multiple of the interval or the last count. */
  lemma {:induction false} SaveCountsMembers(rows: seq<Row>, models: Models, saveInterval: nat, n: nat, c: nat)
    requires saveInterval > 0
    ensures c in SaveCounts(rows, models, saveInterval, n) <==>
      1 <= c <= |rows| && Aggregated(rows[c - 1].content, models) && (c % saveInterval == 0 || c == n)
    decreases |rows|
  {
    if rows != [] {
      var m := |rows|;
      var front := rows[..m - 1];
      var due := Aggregated(rows[m - 1].content, models) && (m % saveInterval == 0 || m == n);
      var before := SaveCounts(front, models, saveInterval, n);
      assert SaveCounts(rows, models, saveInterval, n) == before + (if due then [m] else []);
      SaveCountsMembers(front, models, saveInterval, n, c);
      if c == m {
        assert c !in before;
      } else if 1 <= c < m {
        assert front[c - 1] == rows[c - 1];
      }
    }
  }

  /** Checkpoint k holds the first counts[k] rows of the table. */
  predicate SavesMatch(saves: seq<Checkpoint>, table: seq<ClassifiedRow>, counts: seq<nat>)
  {
    && |saves| == |counts|
    && forall k :: 0 <= k < |saves| ==> counts[k] <= |table| && saves[k] == Checkpoint(table[..counts[k]])
  }

  lemma SaveCountsStep(rows: seq<Row>, models: Models, saveInterval: nat, n: nat, i: nat)
    requires saveInterval > 0 && i < |rows|
    ensures SaveCounts(rows[..i + 1], models, saveInterval, n)
         == SaveCounts(rows[..i], models, saveInterval, n)
          + (if Aggregated(rows[i].content, models) && ((i + 1) % saveInterval == 0 || i + 1 == n) then [i + 1] else [])
  {
    assert rows[..i + 1][..i] == rows[..i];
  }

  lemma SavesMatchExtend(saves: seq<Checkpoint>, table: seq<ClassifiedRow>, counts: seq<nat>, c: nat)
    requires SavesMatch(saves, table, counts) && c <= |table|
    ensures SavesMatch(saves + [Checkpoint(table[..c])], table, counts + [c])
  {
  }

  /** `df.iloc[:len(vectors)]` with the column `classifications = vectors`. */
  function Attach(rows: seq<Row>, vectors: seq<map<string, real>>): (t: seq<ClassifiedRow>)
    requires |vectors| <= |rows|
    ensures |t| == |vectors|
  {
    seq(|vectors|, j requires 0 <= j < |vectors| => ClassifiedRow(rows[j], vectors[j]))
  }

  lemma AttachStep(rows: seq<Row>, vectors: seq<map<string, real>>, spec: seq<ClassifiedRow>, v: map<string, real>)
    requires |vectors| < |rows| && |vectors| < |spec|
    requires Attach(rows, vectors) == spec[..|vectors|]
    requires spec[|vectors|] == ClassifiedRow(rows[|vectors|], v)
    ensures Attach(rows, vectors + [v]) == spec[..|vectors| + 1]
  {
    var n := |vectors|;
    assert Attach(rows, vectors + [v]) == Attach(rows, vectors) + [ClassifiedRow(rows[n], v)];
  }

  /** Lines 98-159 over the rows that survived cleaning: exactly one vector
      per row in row order, and a checkpoint of the first rows with their
      vectors after each count in `SaveCounts`. */
  method ClassifyRows(rows: seq<Row>, labels: seq<string>, models: Models, saveInterval: nat)
    returns (table: seq<ClassifiedRow>, saves: seq<Checkpoint>)
    requires saveInterval > 0
    ensures table == ClassifiedTable(rows, labels, models)
    ensures SavesMatch(saves, table, SaveCounts(rows, models, saveInterval, |rows|))
  {
    var finalClassifications: seq<map<string, real>> := [];
    saves := [];
    var i := 0;
    ghost var spec := ClassifiedTable(rows, labels, models);
    while i < |rows|
      invariant 0 <= i <= |rows|
      invariant |finalClassifications| == i
      invariant Attach(rows, finalClassifications) == spec[..i]
      invariant SavesMatch(saves, spec, SaveCounts(rows[..i], models, saveInterval, |rows|))
    {
      SaveCountsStep(rows, models, saveInterval, |rows|, i);
      var vector, aggregated := ClassifyContent(rows[i].content, labels, models);
      AttachStep(rows, finalClassifications, spec, vector);
      finalClassifications := finalClassifications + [vector];
      var count := |finalClassifications|;
      if aggregated && (count % saveInterval == 0 || count == |rows|) {
        var temp := Attach(rows, finalClassifications);
        SavesMatchExtend(saves, spec, SaveCounts(rows[..i], models, saveInterval, |rows|), count);
        saves := saves + [Checkpoint(temp)];
      }
      i := i + 1;
    }
    assert rows[..|rows|] == rows;
    assert spec[..|rows|] == spec;
    table := Attach(rows, finalClassifications);
  }

  /** A row that survives line 92, with the word count of line 93. */
  predicate SurvivingRow(r: Row)
  {
    Strip(r.content) != [] && r.wordCount == WordCount(r.content)
  }

  /** Lines 91-93 for one book: its cleaned row, or None when the cleaned content is blank. */
  function PrepareRow(book: InputBook, getText: string -> string): (r: Option<Row>)
    ensures r.None? <==> Strip(CleanTextForClassification(book.content, getText)) == []
    ensures r.Some? ==> && SurvivingRow(r.value)
                        && r.value.content == CleanTextForClassification(book.content, getText)
                        && r.value.other == book.other
  {
    var cleaned := CleanTextForClassification(book.content, getText);
    if Strip(cleaned) == [] then None else Some(Row(book.other, cleaned, WordCount(cleaned)))
  }

  /** Lines 91-93: clean every content, drop blank ones, count words. */
  function PrepareRows(books: seq<InputBook>, getText: string -> string): (rows: seq<Row>)
    ensures |rows| <= |books|
    ensures forall i :: 0 <= i < |rows| ==> SurvivingRow(rows[i])
  {
    var f := (b: InputBook) => PrepareRow(b, getText);
    var rows := FilterMap(books, f);
    FilterMapLength(books, f);
    forall i | 0 <= i < |rows| ensures SurvivingRow(rows[i]) {
      FilterMapSound(books, f, rows[i]);
    }
    rows
  }

  /** Rows are prepared book by book, so input order is kept: the rows of
      a concatenation are those of each part, in order. */
  lemma PrepareRowsAppend(a: seq<InputBook>, b: seq<InputBook>, getText: string -> string)
    ensures PrepareRows(a + b, getText) == PrepareRows(a, getText) + PrepareRows(b, getText)
  {
    FilterMapAppend(a, b, (x: InputBook) => PrepareRow(x, getText));
  }

  /** Every book whose cleaned content is not blank has its row in the table. */
  lemma PrepareRowsComplete(books: seq<InputBook>, getText: string -> string, i: nat)
    requires i < |books| && PrepareRow(books[i], getText).Some?
    ensures PrepareRow(books[i], getText).value in PrepareRows(books, getText)
  {
    FilterMapComplete(books, (x: InputBook) => PrepareRow(x, getText), i);
  }

  /** Every row of the table is the row of some book. */
  lemma PrepareRowsSound(books: seq<InputBook>, getText: string -> string, r: Row)
    requires r in PrepareRows(books, getText)
    ensures exists i :: 0 <= i < |books| && PrepareRow(books[i], getText) == Some(r)
  {
    FilterMapSound(books, (x: InputBook) => PrepareRow(x, getText), r);
  }



  /** `classify_books`: None when the models fail to load or the input is
      empty (before any book is looked at); otherwise the classified table
      of the surviving rows and the checkpoints written on the way. */
  method ClassifyBooks(books: seq<InputBook>, labels: seq<string>, models: Option<Models>,
                       getText: string -> string, saveInterval: nat)
    returns (result: Option<seq<ClassifiedRow>>, saves: seq<Checkpoint>)
    requires saveInterval > 0
    ensures models.None? || books == [] ==> result.None? && saves == []
    ensures models.Some? && books != [] ==>
      var rows := PrepareRows(books, getText);
      && result == Some(ClassifiedTable(rows, labels, models.value))
      && SavesMatch(saves, result.value, SaveCounts(rows, models.value, saveInterval, |rows|))
  {
    if models.None? {
      return None, [];
    }
    if |books| == 0 {
      return None, [];
    }
    var rows := PrepareRows(books, getText);
    var table;
    table, saves := ClassifyRows(rows, labels, models.value, saveInterval);
    result := Some(table);
  }
}
