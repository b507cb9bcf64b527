/** The web API (api/main.py): start-up loading into a shared state, the
    two recommendation endpoints and the summary endpoint.

    Routing, request parsing and JSON encoding are not modelled: an
    endpoint is a method from the shared state and the already validated
    request to a response, which is either an HTTP error (status and
    detail) or the endpoint's payload. */
module Api {
  import opened Common
  import opened Text
  import opened Recommendation
  import opened Summarization

  const NotReady: string := "Service not ready."
  const BookNotFound: string := "Book ID not found."
  const InternalError: string := "Failed to generate summary due to an internal error."

  /** One listed book: `{"book_id", "title", "cover_url"}`. */
  datatype BookItem = BookItem(bookId: int, title: string, coverUrl: string)

  datatype Response =
    | HttpError(status: int, detail: string)
    | BookList(items: seq<BookItem>)
    | SummaryPayload(bookId: int, summary: string)

  /** One record of the classified books file, before indexing. */
  datatype Record = Record(bookId: Option<int>, title: string, coverUrl: Option<string>,
                           content: Value, classifications: map<string, real>)

  /** The request body of the summary endpoint. */
  datatype SummaryRequest = SummaryRequest(bookId: int, readingTime: string)

  /** The module-level `state` dict: a missing key is None (or null). */
  class ApiState {
    var dfClassified: Option<seq<BookRow>>
    var summarizer: SummarizationModelHandler?
    var bestSummaryParams: Option<Params>

    /** `state = {}` */
    constructor ()
      ensures dfClassified.None? && summarizer == null && bestSummaryParams.None?
    {
      dfClassified := None;
      summarizer := null;
      bestSummaryParams := None;
    }
  }

  // ---------------------------------------------------------------------
  // Start-up
  // ---------------------------------------------------------------------

  predicate HasIdColumn(records: seq<Record>)
  {
    exists i :: 0 <= i < |records| && records[i].bookId.Some?
  }

  /** Lines 21-24: the table indexed by `book_id`; without that column the
      ids are the positions 0, 1, 2, ... */
  function IndexRecords(records: seq<Record>): (rows: seq<BookRow>)
    requires HasIdColumn(records) ==> forall i :: 0 <= i < |records| ==> records[i].bookId.Some?
    ensures |rows| == |records|
    ensures forall i :: 0 <= i < |rows| ==>
      && rows[i].bookId == (if HasIdColumn(records) then records[i].bookId.value else i)
      && rows[i].title == records[i].title && rows[i].coverUrl == records[i].coverUrl
      && rows[i].content == records[i].content && rows[i].classifications == records[i].classifications
      && rows[i].added == map[]
  {
    var withIds := HasIdColumn(records);
    seq(|records|, i requires 0 <= i < |records| =>
      BookRow(if withIds then records[i].bookId.value else i, records[i].title, records[i].coverUrl,
              records[i].content, records[i].classifications, map[]))
  }

  /** Without a `book_id` column every id from 0 to n-1 is the id of exactly one row. */
  lemma AssignedIdsAreUnique(records: seq<Record>, id: int)
    requires !HasIdColumn(records)
    ensures |RowsWithId(IndexRecords(records), id)| == (if 0 <= id < |records| then 1 else 0)
  {
    var rows := IndexRecords(records);
    RowsWithIdSpec(rows, id);
    if 0 <= id < |records| {
      RowsWithIdCount(rows, id, id);
    } else {
      RowsWithIdNone(rows, id);
    }
  }

  /** `load_all`: the indexed table, the best parameters and the handler
      (built once per process by the handler's class) go into the state. */
  method LoadAll(state: ApiState, handlerClass: HandlerClass, records: seq<Record>, params: Params, load: LoadOutcome)
    requires HasIdColumn(records) ==> forall i :: 0 <= i < |records| ==> records[i].bookId.Some?
    requires handlerClass.Valid()
    modifies state, handlerClass
    ensures state.dfClassified == Some(IndexRecords(records))
    ensures state.bestSummaryParams == Some(params)
    ensures state.summarizer != null && state.summarizer == handlerClass.instance
    ensures handlerClass.Valid() && state.summarizer.Valid()
    ensures old(handlerClass.instance) != null ==> state.summarizer == old(handlerClass.instance)
    ensures old(handlerClass.instance) == null ==>
      && fresh(state.summarizer)
      && state.summarizer.summarizerPipeline == (if load.Loaded? then Some(load.pipeline) else None)
      && state.summarizer.tokenizer == (if load.TokenizerFailed? then None else Some(load.tokenizer))
  {
    state.dfClassified := Some(IndexRecords(records));
    state.bestSummaryParams := Some(params);
    var handler := handlerClass.New(load);
    state.summarizer := handler;
  }

  /** Start-up whose model failed to load, then a summary request for a
      known book: the handler exists, so the answer is 500 and not 503. */
  method StartupThenSummary(state: ApiState, handlerClass: HandlerClass, records: seq<Record>,
                            params: Params, load: LoadOutcome, request: SummaryRequest,
                            readingTimeMap: map<string, real>)
    returns (resp: Response)
    requires HasIdColumn(records) ==> forall i :: 0 <= i < |records| ==> records[i].bookId.Some?
    requires handlerClass.instance == null && !load.Loaded?
    requires ValidReadingTime(request.readingTime)
    requires LookupContent(IndexRecords(records), request.bookId).Some?
    modifies state, handlerClass
    ensures resp == HttpError(500, InternalError)
  {
    LoadAll(state, handlerClass, records, params, load);
    resp := GetSummaryEndpoint(state, request, readingTimeMap);
    SummaryOutcomeCases(state.dfClassified, Some((state.summarizer.summarizerPipeline, state.summarizer.tokenizer)),
                        state.bestSummaryParams, request, readingTimeMap);
  }

  // ---------------------------------------------------------------------
  // Recommendation endpoints
  // ---------------------------------------------------------------------

  /** The response list of lines 48 and 56; a missing `cover_url` column gives "". */
  function Items(rows: seq<BookRow>): (items: seq<BookItem>)
    ensures |items| == |rows|
    ensures forall i :: 0 <= i < |rows| ==>
      items[i] == BookItem(rows[i].bookId, rows[i].title, match rows[i].coverUrl case None => "" case Some(u) => u)
  {
    seq(|rows|, i requires 0 <= i < |rows| =>
      BookItem(rows[i].bookId, rows[i].title, match rows[i].coverUrl case None => "" case Some(u) => u))
  }

  /** Lines 43-49: 503 without a (non-empty) table; otherwise the seven
      top-rated books of a copy of the table. The shared table is not
      written to. */
  method GetTopRatedEndpoint(state: ApiState) returns (resp: Response)
    ensures state.dfClassified.None? || state.dfClassified.value == [] ==> resp == HttpError(503, NotReady)
    ensures state.dfClassified.Some? && state.dfClassified.value != [] ==>
      resp == BookList(Items(TopN(WithScore(state.dfClassified.value, "top_rated_score", TopRatedScore),
                                  AddedScore("top_rated_score"), NRecommendations)))
  {
    if state.dfClassified.None? || |state.dfClassified.value| == 0 {
      return HttpError(503, NotReady);
    }
    var copy := new BooksTable(state.dfClassified.value);
    var topRated := GetTopRatedBooks(copy);
    resp := BookList(Items(topRated));
  }

  /** Lines 51-57: 503 without a (non-empty) table; otherwise the seven
      most relevant books of a copy of the table, or none when no label
      was asked for. */
  method GetForYouEndpoint(state: ApiState, preferences: Preferences) returns (resp: Response)
    ensures state.dfClassified.None? || state.dfClassified.value == [] ==> resp == HttpError(503, NotReady)
    ensures state.dfClassified.Some? && state.dfClassified.value != [] && UserLabels(preferences) == [] ==>
      resp == BookList([])
    ensures state.dfClassified.Some? && state.dfClassified.value != [] && UserLabels(preferences) != [] ==>
      var labels := UserLabels(preferences);
      resp == BookList(Items(TopN(WithScore(state.dfClassified.value, "relevance_score", s => Relevance(s, labels)),
                                  AddedScore("relevance_score"), NRecommendations)))
  {
    if state.dfClassified.None? || |state.dfClassified.value| == 0 {
      return HttpError(503, NotReady);
    }
    var copy := new BooksTable(state.dfClassified.value);
    var recommended := GetForYouRecommendations(copy, preferences);
    resp := BookList(Items(recommended));
  }

  /** A ready table lists min(7, n) of its books, best first. */
  lemma TopRatedResponse(rows: seq<BookRow>)
    ensures var scored := WithScore(rows, "top_rated_score", TopRatedScore);
      var items := Items(TopN(scored, AddedScore("top_rated_score"), NRecommendations));
      && |items| == Min(7, |rows|)
      && forall i :: 0 <= i < |items| ==> exists j :: 0 <= j < |rows| && items[i].bookId == rows[j].bookId && items[i].title == rows[j].title
  {
    var scored := WithScore(rows, "top_rated_score", TopRatedScore);
    var top := TopN(scored, AddedScore("top_rated_score"), NRecommendations);
    TopRatedRanking(rows);
    forall i | 0 <= i < |top|
      ensures exists j :: 0 <= j < |rows| && Items(top)[i].bookId == rows[j].bookId && Items(top)[i].title == rows[j].title
    {
      var j :| 0 <= j < |scored| && scored[j] == top[i];
      assert Items(top)[i].bookId == rows[j].bookId;
    }
  }

  // ---------------------------------------------------------------------
  // Summary endpoint
  // ---------------------------------------------------------------------

  /** The request validation pattern of line 39. */
  predicate ValidReadingTime(t: string)
  {
    t == "5 minutes" || t == "10 minutes" || t == "15+ minutes"
  }

  /** Line 74 as written: the last key is a plain (non-raw) string literal
      in which the unknown escape leaves a backslash before the plus sign. */
  const ReadingTimeMapAsWritten: map<string, real> := map["5 minutes" := 0.3, "10 minutes" := 0.5, "15\\+ minutes" := 0.7]

  /** Line 74 as evidently intended: the keys are exactly the validated values. */
  const ReadingTimeMap: map<string, real> := map["5 minutes" := 0.3, "10 minutes" := 0.5, "15+ minutes" := 0.7]

  /** `reading_time_map.get(reading_time)` */
  function Ratio(readingTimeMap: map<string, real>, t: string): Option<real>
  {
    if t in readingTimeMap then Some(readingTimeMap[t]) else None
  }

  /** The rows whose index equals `id`. */
  function RowsWithId(rows: seq<BookRow>, id: int): seq<BookRow>
    decreases |rows|
  {
    if rows == [] then []
    else (if rows[0].bookId == id then [rows[0]] else []) + RowsWithId(rows[1..], id)
  }

  lemma {:induction false} RowsWithIdSpec(rows: seq<BookRow>, id: int)
    ensures forall r :: r in RowsWithId(rows, id) ==> r in rows && r.bookId == id
    ensures RowsWithId(rows, id) == [] <==> forall i :: 0 <= i < |rows| ==> rows[i].bookId != id
    decreases |rows|
  {
    if rows != [] {
      RowsWithIdSpec(rows[1..], id);
      assert forall i :: 1 <= i < |rows| ==> rows[i] == rows[1..][i - 1];
    }
  }

  lemma {:induction false} RowsWithIdCount(rows: seq<BookRow>, id: int, k: nat)
    requires k < |rows| && rows[k].bookId == id
    requires forall i :: 0 <= i < |rows| ==> rows[i].bookId == i + (id - k)
    ensures |RowsWithId(rows, id)| == 1
    decreases |rows|
  {
    if k == 0 {
      assert forall i :: 0 <= i < |rows[1..]| ==> rows[1..][i].bookId != id by {
        forall i | 0 <= i < |rows[1..]| ensures rows[1..][i].bookId != id {
          assert rows[1..][i] == rows[i + 1];
        }
      }
      RowsWithIdSpec(rows[1..], id);
    } else {
      assert rows[0].bookId != id;
      RowsWithIdCount(rows[1..], id, k - 1);
    }
  }

  lemma RowsWithIdNone(rows: seq<BookRow>, id: int)
    requires forall i :: 0 <= i < |rows| ==> rows[i].bookId == i
    requires !(0 <= id < |rows|)
    ensures RowsWithId(rows, id) == []
  {
    RowsWithIdSpec(rows, id);
  }

  /** `df.loc[book_id, 'content']`: None when the id is not in the index
      (KeyError); with several rows under the id the result is a Series,
      which is not a string. */
  function LookupContent(rows: seq<BookRow>, id: int): Option<Value>
  {
    var found := RowsWithId(rows, id);
    if found == [] then None
    else if |found| == 1 then Some(found[0].content)
    else Some(NotStr)
  }

  /** Lines 59-90 on the state's contents. The handler is given by its two
      fields (None when the state holds no handler). */
  function SummaryOutcome(df: Option<seq<BookRow>>, handler: Option<(Option<Pipeline>, Option<Tokenizer>)>,
                          params: Option<Params>, request: SummaryRequest,
                          readingTimeMap: map<string, real>): (resp: Response)
    requires handler.Some? && handler.value.0.Some? ==> handler.value.1.Some?
  {
    if df.None? || handler.None? then HttpError(503, NotReady)
    else match LookupContent(df.value, request.bookId)
      case None => HttpError(404, BookNotFound)
      case Some(content) =>
        var ratio := Ratio(readingTimeMap, request.readingTime);
        match Summarize(handler.value.0, handler.value.1, content, params, ratio)
        case Raised => HttpError(500, InternalError)
        case Returned(summary) =>
          // the HTTPException raised for an error summary is caught by `except Exception`
          if Contains(summary, "Error") then HttpError(500, InternalError)
          else SummaryPayload(request.bookId, summary)
  }

  /** The summary endpoint, proved against `SummaryOutcome`. */
  method GetSummaryEndpoint(state: ApiState, request: SummaryRequest, readingTimeMap: map<string, real>)
    returns (resp: Response)
    requires ValidReadingTime(request.readingTime)
    requires state.summarizer != null ==> state.summarizer.Valid()
    ensures resp == SummaryOutcome(state.dfClassified,
                                   if state.summarizer == null then None
                                   else Some((state.summarizer.summarizerPipeline, state.summarizer.tokenizer)),
                                   state.bestSummaryParams, request, readingTimeMap)
  {
    var df := state.dfClassified;
    var summarizer := state.summarizer;
    var bestParams := state.bestSummaryParams;
    if df.None? || summarizer == null {
      return HttpError(503, NotReady);
    }
    var content := LookupContent(df.value, request.bookId);
    if content.None? {
      return HttpError(404, BookNotFound);
    }
    var ratio := Ratio(readingTimeMap, request.readingTime);
    var summary := summarizer.SummarizeText(content.value, bestParams, ratio);
    if summary.Raised? {
      return HttpError(500, InternalError);
    }
    if Contains(summary.text, "Error") {
      return HttpError(500, InternalError);
    }
    resp := SummaryPayload(request.bookId, summary.text);
  }

  lemma ErrorMessagesContainError(s: string)
    requires s == NotInitialized || s == CouldNotGenerate
    ensures Contains(s, "Error")
  {
    assert s[..5] == "Error";
  }

  /** The outcomes of the summary endpoint: 503 exactly when the table or
      the handler is missing, else 404 exactly when the id is not in the
      index, else 500 or a summary free of the word "Error"; every 500
      carries the internal-error detail, never the detail of the
      HTTPException raised for an error summary. */
  lemma SummaryOutcomeCases(df: Option<seq<BookRow>>, handler: Option<(Option<Pipeline>, Option<Tokenizer>)>,
                            params: Option<Params>, request: SummaryRequest, readingTimeMap: map<string, real>)
    requires handler.Some? && handler.value.0.Some? ==> handler.value.1.Some?
    ensures var resp := SummaryOutcome(df, handler, params, request, readingTimeMap);
      && (resp == HttpError(503, NotReady) <==> df.None? || handler.None?)
      && (df.Some? && handler.Some? ==>
            (resp == HttpError(404, BookNotFound) <==> forall i :: 0 <= i < |df.value| ==> df.value[i].bookId != request.bookId))
      && (resp.HttpError? ==> resp.status in {404, 500, 503} && (resp.status == 500 ==> resp.detail == InternalError))
      && (resp.SummaryPayload? ==> resp.bookId == request.bookId && !Contains(resp.summary, "Error"))
      && (df.Some? && handler.Some? && handler.value.0.None? && LookupContent(df.value, request.bookId).Some? ==>
            resp == HttpError(500, InternalError))
  {
    if df.Some? {
      RowsWithIdSpec(df.value, request.bookId);
    }
    if df.Some? && handler.Some? && handler.value.0.None? {
      ErrorMessagesContainError(NotInitialized);
    }
  }

  /** The as-written map never yields a ratio for the validated value
      "15+ minutes", so a request for it on a known book always fails with
      500, whether or not the model loaded. */
  lemma FifteenMinutesAlwaysFails(df: seq<BookRow>, handler: (Option<Pipeline>, Option<Tokenizer>),
                                  params: Option<Params>, request: SummaryRequest)
    requires handler.0.Some? ==> handler.1.Some?
    requires request.readingTime == "15+ minutes"
    requires LookupContent(df, request.bookId).Some?
    ensures ValidReadingTime(request.readingTime)
    ensures Ratio(ReadingTimeMapAsWritten, request.readingTime) == None
    ensures SummaryOutcome(Some(df), Some(handler), params, request, ReadingTimeMapAsWritten) == HttpError(500, InternalError)
  {
    assert |"15\\+ minutes"| != |request.readingTime|;
    assert request.readingTime !in ReadingTimeMapAsWritten;
    if handler.0.None? {
      ErrorMessagesContainError(NotInitialized);
    }
  }

  /** With the intended keys every validated reading time has its ratio:
      0.3, 0.5 and 0.7. */
  lemma ValidReadingTimesHaveRatio(t: string)
    requires ValidReadingTime(t)
    ensures Ratio(ReadingTimeMap, t).Some?
    ensures t == "5 minutes" ==> Ratio(ReadingTimeMap, t) == Some(0.3)
    ensures t == "10 minutes" ==> Ratio(ReadingTimeMap, t) == Some(0.5)
    ensures t == "15+ minutes" ==> Ratio(ReadingTimeMap, t) == Some(0.7)
  {
  }

  /** With the intended map, a loaded model whose generator and decoder
      succeed on a known book gives the summary for every validated
      reading time, unless the summary itself contains "Error". */
  lemma IntendedMapSucceeds(df: seq<BookRow>, pipeline: Pipeline, tokenizer: Tokenizer,
                            params: Params, request: SummaryRequest, content: Value, ids: seq<int>, s: string)
    requires ValidReadingTime(request.readingTime)
    requires LookupContent(df, request.bookId) == Some(content)
    requires tokenizer.encode(content) == Some(ids)
    requires Generate(pipeline, tokenizer, Truncate(ids), Some(params), Ratio(ReadingTimeMap, request.readingTime).value) == Returned(s)
    requires !Contains(s, "Error")
    ensures SummaryOutcome(Some(df), Some((Some(pipeline), Some(tokenizer))), Some(params), request, ReadingTimeMap)
         == SummaryPayload(request.bookId, s)
  {
    ValidReadingTimesHaveRatio(request.readingTime);
  }
}
