# Book recommendation project: a verified model

This project models the data pipeline and the web API of a book
recommendation service. The pipeline has four stages:

1. A scraper collects book summaries from a summary site.
2. The corpus is cleaned and filtered: HTML-free, URL-free, ASCII, lower-case text. Short, long and non-English books are dropped, and so are duplicates.
3. The books are enriched with cover images looked up in a volumes search service.
4. Each book is classified against a list of labels by a zero-shot classifier. The text is cut into chunks, and the chunk scores are averaged per label.

The API serves two rankings over the classified table:

- "for you": the mean score over the labels a user asks for;
- "top rated": the sum over seven fixed categories.

It also serves on-demand summaries of a book, sized to a reading time.

Modules, one per source file (plus two shared ones):

| module | file | source |
|---|---|---|
| `Common` | `common.dfy` | shared: `Option`, a "string or other value" cell, sums and means |
| `Text` | `text.dfy` | Python string primitives: `strip`, `\s` runs, `lower` on ASCII, `join`/`split`, decimal numerals |
| `Scraper` | `spider.dfy` | `book_scraper/book_scraper/spiders/book_spider.py` |
| `Cleaning` | `cleaning.dfy` | `code/cleaning_and_preprocessing.py` |
| `Metadata` | `metadata.dfy` | `code/metadata_enrichment.py` |
| `Classify` | `classify.dfy` | `code/classify_books.py` |
| `Evaluation` | `evaluate.dfy` | `code/evaluate_classification.py` |
| `Recommendation` | `recommend.dfy` | `api/recommendation_logic.py`, `api/config.py` |
| `Summarization` | `summarizer.dfy` | `api/summarization_model_handler.py` |
| `Api` | `api.dfy` | `api/main.py` |

The model follows the source's own form:

- **Text transformations** (the cleaners, title normalisation, scoring, the parsing rules) are functions, with lemmas about them.
- **Loops that build lists or dictionaries** are methods with loop invariants, each proved equal to a specification function:
  - the preprocessing loop;
  - the chunk and aggregation loops of the classifier;
  - the retry loop of the cover lookup;
  - the file-name collision loop;
  - the enrichment loop;
  - the scraper's link loop.
- **Objects whose fields change** are classes:
  - the summarization handler, a per-class singleton;
  - the API's shared state;
  - the table the ranking functions write a score column into.

Outside services are parameters of the model:

- the HTML parser, the language detector, the keyword extractor;
- the tokenizer and the models;
- `fuzz.ratio`, Unicode `lower` and NFKD;
- HTTP responses;
- the set of existing files.

Where the specification and the code disagree, the model follows the code:

- **Ranking ties.** The rankings use pandas' default (unstable) sort. Only descending order and membership are stated, not that ties keep corpus order.
- **Unknown label during classification.** A classifier answer that names an unknown label raises `KeyError` partway through the inner loop. The scores appended before that label stay in the dictionary (`Classify.AppendPairs`); the rest of the answer is lost, not the whole chunk.
- **Summarizer that failed to load.** A handler whose load failed still exists. For a known book the summary endpoint therefore answers 500, not 503 "not ready" (`Api.StartupThenSummary`).

## Model

| member | source | states |
|---|---|---|
| `Scraper.Parse` | book_scraper/book_scraper/spiders/book_spider.py:8-16 | a URL is requested iff it is an index link that starts with the site prefix and ends in "-summary/"; each such URL is requested once |
| `Scraper.TitleOfHeading` | book_scraper/book_scraper/spiders/book_spider.py:19 | a heading "<name> Summary" yields exactly the trimmed name; only one suffix is removed |
| `Scraper.TitleWithoutSuffix` | book_scraper/book_scraper/spiders/book_spider.py:19 | a heading without the suffix is only stripped |
| `Scraper.EndIndex` | book_scraper/book_scraper/spiders/book_spider.py:23 | the index of the first element aligned "center", or the element count when none is |
| `Scraper.PartsSpec` | book_scraper/book_scraper/spiders/book_spider.py:24-28 | every content part comes from a kept element (not formkit-background, with text) of the window, and every kept element contributes its stripped text; no parts iff no kept element |
| `Scraper.ContentStopsAtCenter` | book_scraper/book_scraper/spiders/book_spider.py:22-28 | nothing after the first centered element changes the content |
| `Scraper.SkippedElementInvisible` | book_scraper/book_scraper/spiders/book_spider.py:27 | inserting a skipped element anywhere before the end of the window leaves the content unchanged |
| `Scraper.ContentSplitsIntoParts` | book_scraper/book_scraper/spiders/book_spider.py:24-28 | splitting the content at newlines gives back the parts when no part holds a newline |
| `Scraper.ParseBookSpec` | book_scraper/book_scraper/spiders/book_spider.py:18-34 | an item is produced iff the page has an h1 text; it carries the page URL and a trimmed title |
| `Cleaning.CleanText` | code/cleaning_and_preprocessing.py:24-39 | "" for a non-string; otherwise only lower-case ASCII letters, digits, space and . , ! ? ' " -, with no leading or trailing whitespace and no whitespace runs |
| `Cleaning.UrlMatch` | code/cleaning_and_preprocessing.py:29 | a match is found whenever the text starts with "http" or "www" followed by a non-space; every match starts with one of them, is longer than 3, holds no whitespace and runs up to the next whitespace or the end |
| `Cleaning.ReplaceNonAscii` | code/cleaning_and_preprocessing.py:31 | the result is ASCII; ASCII input is unchanged |
| `Cleaning.KeepAllowed` | code/cleaning_and_preprocessing.py:33 | only whitelisted characters remain; text made only of them is unchanged |
| `Cleaning.CleanPipelineNotIdempotent` | code/cleaning_and_preprocessing.py:29-37 | "HTTPfoo" cleans to "httpfoo", which cleans to "": the URL pass is case-sensitive and runs before lower-casing |
| `Cleaning.LettersOnlyLowered` | code/cleaning_and_preprocessing.py:29-37 | an ASCII word without 'h' or 'w' is only lower-cased |
| `Cleaning.IsEnglish` | code/cleaning_and_preprocessing.py:41-50 | true iff a string of at least 20 characters that the detector labels "en" without raising |
| `Cleaning.ExtractKeywords` | code/cleaning_and_preprocessing.py:52-57 | a prefix of the ranked phrases, of length min(n, count) for n >= 0 (Python slicing for negative n) |
| `Cleaning.PreprocessBooksData` | code/cleaning_and_preprocessing.py:59-92 | the table is the kept books in input order, de-duplicated on (title, content) |
| `Cleaning.KeptBooksMembers` | code/cleaning_and_preprocessing.py:66-81 | a row is kept iff some input book passes the length, language and title test and prepares to it |
| `Cleaning.KeptBooksAppend` | code/cleaning_and_preprocessing.py:66-81 | filtering works book by book: the rows kept from a + b are those from a followed by those from b |
| `Cleaning.DropDuplicatesKeepsFirst` | code/cleaning_and_preprocessing.py:90 | every row left is the first row with its (title, content) pair |
| `Cleaning.DropDuplicatesDistinct` | code/cleaning_and_preprocessing.py:90 | no two rows left share a (title, content) pair |
| `Cleaning.DropDuplicatesKeys` | code/cleaning_and_preprocessing.py:90 | de-duplication loses no (title, content) pair |
| `Metadata.NormalizedIsAscii` | code/metadata_enrichment.py:38-44 | a normalised title is ASCII |
| `Metadata.NormalizeAsciiTitle` | code/metadata_enrichment.py:38-44 | an ASCII title is lowered, stripped and has its whitespace runs collapsed to one space |
| `Metadata.NormalizeCanLeaveSpaceRun` | code/metadata_enrichment.py:41-43 | dropping non-ASCII characters after the collapse can leave two adjacent spaces ("a 中 b", whose CJK character has no NFKD decomposition and is its own lower case, gives "a  b") |
| `Metadata.CoverChoiceSpec` | code/metadata_enrichment.py:95-100 | the cover is the link of the first size, from extraLarge down to smallThumbnail, that is present and non-empty; a non-empty cover is found iff some size has a non-empty link |
| `Metadata.AuthorScoreSpec` | code/metadata_enrichment.py:85-89 | the author score is the maximum of 0 and each author's ratio |
| `Metadata.ScoreBounds` | code/metadata_enrichment.py:76-91 | with ratios in 0..100 the overall score lies in [0, 100] and is at least 0.9 times the title ratio |
| `Metadata.ScoreVolume` | code/metadata_enrichment.py:76-91 | the loop computes 0.9 × max(title, subtitle) ratio + 0.1 × author score |
| `Metadata.MaxAuthorRatio` | code/metadata_enrichment.py:86-89 | the author loop ends with the largest author ratio, or 0 (its bounds are `Metadata.AuthorScoreSpec`) |
| `Metadata.MatchesSpec` | code/metadata_enrichment.py:70-101 | the k-th match is the match of the k-th BOOK item, so there are exactly as many matches as BOOK items, in input order; every match is some BOOK item's and every BOOK item has its match; no matches iff no item is a BOOK |
| `Metadata.CollectMatches` | code/metadata_enrichment.py:68-101 | the loop builds exactly the match list |
| `Metadata.BestIndex` | code/metadata_enrichment.py:104 | the first match with the maximum score |
| `Metadata.AttemptOutcomeSpec` | code/metadata_enrichment.py:62-131 | an attempt returns a URL iff the best BOOK match scores at least 75 and has a cover; a body without items ends the search with None; a failed request or a body with no BOOK item tries again |
| `Metadata.CoverLookupFirstDecision` | code/metadata_enrichment.py:51-133 | the lookup returns the outcome of the first attempt that decides, or None when every attempt tries again |
| `Metadata.GetBookCover` | code/metadata_enrichment.py:46-133 | the retry loop returns the lookup over the first `retries` responses |
| `Metadata.SafeTitleChars` | code/metadata_enrichment.py:144-148 | the stem has at most 150 characters, all word characters, '-' or '_' |
| `Metadata.SplitExtSuffix` | code/metadata_enrichment.py:150 | the extension is empty or a suffix of the path that starts with '.' and holds no other '.' or '/' |
| `Metadata.ExtensionIsImage` | code/metadata_enrichment.py:150-152 | the chosen extension is an image extension (case-insensitive) of 4 or 5 characters, and a valid image extension of the URL's path (query removed) is kept with its own letter case |
| `Metadata.SuffixedInjective` | code/metadata_enrichment.py:159 | different counters give different file names |
| `Metadata.ChooseFileName` | code/metadata_enrichment.py:154-161 | the name is the plain name when it is free, else the one with the smallest free counter |
| `Metadata.DownloadCoverImage` | code/metadata_enrichment.py:135-177 | a path is returned iff the URL is non-empty and the fetch succeeds; it is a free name |
| `Metadata.EnrichBooksWithCovers` | code/metadata_enrichment.py:179-202 | one URL and one path per book, each URL being that book's lookup; each path is the first free name for that book's title stem and URL extension, among the existing files and the earlier books' paths; no existing file is overwritten and no two books share a path |
| `Metadata.EnrichOne` | code/metadata_enrichment.py:185-194 | one book: its URL is the lookup result, a path exists iff the URL is non-empty and fetched, and the path is the first free name for the book's title stem and the URL's extension |
| `Classify.CleanTextForClassification` | code/classify_books.py:51-60 | "" for a non-string or blank text; otherwise the same clean shape as the corpus cleaner |
| `Classify.CleanersAgree` | code/classify_books.py:53-60 | apart from the blank-text guard, it is the corpus cleaner |
| `Classify.InitScores` | code/classify_books.py:103 | one (empty) list per candidate label |
| `Classify.ZeroVector` | code/classify_books.py:105-108 | every candidate label scores 0.0 |
| `Classify.AppendPairsSpec` | code/classify_books.py:139-140 | each label's list grows by exactly the scores the answer gives it before the first unknown label; the keys are unchanged |
| `Classify.ScoresAfterSpec` | code/classify_books.py:131-142 | after the chunk loop each label's list holds its scores from every chunk, in order; a raising chunk adds nothing |
| `Classify.ScoresForPermutation` | code/classify_books.py:131-142 | reordering the chunks permutes each label's scores |
| `Classify.BookVectorValue` | code/classify_books.py:105-148 | a label's value is the mean of its chunk scores, or 0.0 when it has none or the book takes an early exit |
| `Classify.BookVectorBounds` | code/classify_books.py:145-148 | with classifier scores in [0, 1] every value lies in [0, 1] |
| `Classify.ChunkOrderIrrelevant` | code/classify_books.py:131-148 | the vector does not depend on the order of the chunks |
| `Classify.ClassifyChunks` | code/classify_books.py:131-142 | the loop builds the specified score lists |
| `Classify.AggregateScores` | code/classify_books.py:145-148 | the loop builds the specified mean vector |
| `Classify.ClassifyContent` | code/classify_books.py:99-150 | the vector a book receives, and whether it took the aggregation path |
| `Classify.SaveCounts` | code/classify_books.py:153-157 | checkpoint counts lie in 1..n and strictly increase |
| `Classify.SaveCountsMembers` | code/classify_books.py:153 | a checkpoint follows count c iff book c took the aggregation path and c is a multiple of the interval or the last count |
| `Classify.ClassifyRows` | code/classify_books.py:96-159 | the table gets one vector per row; checkpoint k holds the first counts[k] rows |
| `Classify.PrepareRows` | code/classify_books.py:91-93 | at most one row per book, every row non-blank with its word count |
| `Classify.PrepareRowsSound` | code/classify_books.py:91-93 | every row of the table is the row of some book |
| `Classify.PrepareRowsComplete` | code/classify_books.py:91-93 | every book whose cleaned content is not blank has its row in the table |
| `Classify.PrepareRowsAppend` | code/classify_books.py:91-93 | the rows of a concatenation are those of each part, in order, so input order is kept |
| `Classify.PrepareRow` | code/classify_books.py:91-93 | a book yields no row iff its cleaned content is blank; otherwise the row keeps the book's other columns, holds the cleaned content and its word count |
| `Classify.ClassifyBooks` | code/classify_books.py:62-162 | None (and no checkpoint) when the models fail to load or the input is empty; otherwise the classified table of the cleaned rows |
| `Evaluation.MaxScoreSpec` | code/evaluate_classification.py:22 | a non-empty dict's maximum is one of its values and bounds them all; any other cell scores 0 |
| `Evaluation.AboveSpec` | code/evaluate_classification.py:33-35 | a label is listed iff its score is at least the threshold; listed once when keys are distinct |
| `Evaluation.ThresholdIsInclusive` | code/evaluate_classification.py:32-35 | a score equal to the threshold is listed, although the heading and the plot title say "above" it |
| `Evaluation.LabelCountsSpec` | code/evaluate_classification.py:36 | each label's count is the number of books listing it, and at least 1 |
| `Evaluation.AllTopLabelsSpec` | code/evaluate_classification.py:33-36 | a label is listed by some book iff some book scores it at least the threshold |
| `Evaluation.AnalyzeSpec` | code/evaluate_classification.py:31-39 | the early return happens iff no book scores any label at the threshold; otherwise every such label is counted |
| `Recommendation.UserLabels` | api/recommendation_logic.py:6-8 | the requested labels are the union of goals, skills and content types, plus the habit label when asked; each label appears once |
| `Recommendation.RelevanceBounds` | api/recommendation_logic.py:13-15 | with scores in [0, 1] relevance lies in [0, 1] |
| `Recommendation.RelevanceOrderIrrelevant` | api/recommendation_logic.py:14 | relevance depends on the label set, not on its order |
| `Recommendation.RelevanceExample` | api/recommendation_logic.py:14 | scores A 0.8, B 0.4 for labels {A, B} give 0.6 |
| `Recommendation.TopRatedScoreBounds` | api/recommendation_logic.py:26-28 | with scores in [0, 1] the top-rated score lies in [0, 7] |
| `Recommendation.SortDescendingSpec` | api/recommendation_logic.py:18 | sorting gives a descending permutation |
| `Recommendation.TopNSpec` | api/recommendation_logic.py:18 | the kept rows are descending, kept and dropped rows together are the input, and no dropped row outscores a kept one |
| `Recommendation.GetForYouRecommendations` | api/recommendation_logic.py:4-19 | with no labels, no rows and the table untouched; otherwise the relevance column is written and the 7 best rows returned |
| `Recommendation.GetTopRatedBooks` | api/recommendation_logic.py:21-31 | the top-rated column is written and the 7 best rows returned |
| `Recommendation.ForYouRanking` | api/recommendation_logic.py:13-18 | min(7, n) input rows, each carrying its relevance, in descending relevance |
| `Recommendation.TopRatedRanking` | api/recommendation_logic.py:26-31 | min(7, n) input rows, each carrying its top-rated score, in descending order |
| `Summarization.Truncate` | api/summarization_model_handler.py:45-49 | the truncated encoding has at most 1024 ids, and the whole encoding is kept when short enough; its length is what the bounds read |
| `Summarization.Trunc` | api/summarization_model_handler.py:50 | `int()` truncates toward zero |
| `Summarization.LengthBoundsOrdered` | api/summarization_model_handler.py:49-56 | the minimum length is at least 30, the maximum at least 40, and for a non-negative ratio min ≤ max |
| `Summarization.TargetMonotone` | api/summarization_model_handler.py:50 | a larger reading-time ratio never gives a smaller target |
| `Summarization.LengthBoundsLong` | api/summarization_model_handler.py:49-56 | 1000 tokens at ratio 0.5 give lengths (350, 650) |
| `Summarization.LengthBoundsShort` | api/summarization_model_handler.py:53-56 | 50 tokens at ratio 0.3 give the floors (30, 40) |
| `Summarization.SummarizeSuccess` | api/summarization_model_handler.py:37-70 | a summary that is neither error text comes from a loaded model, a known ratio, and generation over the truncated input with the computed bounds |
| `Summarization.SummarizationModelHandler.constructor` | api/summarization_model_handler.py:14-17 | fields start empty; a failed tokenizer load leaves both empty, and a failed pipeline load keeps only the tokenizer |
| `Summarization.SummarizationModelHandler.InitializeModel` | api/summarization_model_handler.py:20-35 | the tokenizer and the pipeline are set in order; an exception leaves what was set before it |
| `Summarization.SummarizationModelHandler.SummarizeText` | api/summarization_model_handler.py:37-70 | the result is the specified summary, the not-initialized message, or a raised error |
| `Summarization.HandlerClass.New` | api/summarization_model_handler.py:12-18 | the first call builds and initialises the instance, with the tokenizer and pipeline the load gave; every later call returns it unchanged; the returned handler keeps the handler invariant (a pipeline only after a tokenizer) |
| `Summarization.ConstructTwice` | api/summarization_model_handler.py:12-18 | two constructions give the same object, and the second load outcome is ignored |
| `Api.IndexRecords` | api/main.py:21-24 | a row's id is its book_id, or its position when the table has no book_id column |
| `Api.AssignedIdsAreUnique` | api/main.py:22-23 | ids assigned by position are distinct |
| `Api.LoadAll` | api/main.py:18-31 | the state holds the indexed table, the best parameters and the class's single handler, which keeps the handler invariant; on first start-up the handler is new and holds exactly the tokenizer and pipeline that loaded |
| `Api.StartupThenSummary` | api/main.py:18-31 | after a start-up whose model failed to load, a summary request for a known book answers 500, not 503 |
| `Api.GetTopRatedEndpoint` | api/main.py:43-49 | 503 when the table is missing or empty; otherwise the 7 top-rated books of a copy, with "" for a missing cover column |
| `Api.GetForYouEndpoint` | api/main.py:51-57 | 503 when the table is missing or empty; an empty list when no label is asked for; otherwise the 7 most relevant books |
| `Api.TopRatedResponse` | api/main.py:43-49 | a ready table lists min(7, n) of its own books |
| `Api.RowsWithIdSpec` | api/main.py:69 | the rows found are exactly those whose index equals the id |
| `Api.GetSummaryEndpoint` | api/main.py:59-90 | the response is the specified summary outcome |
| `Api.SummaryOutcomeCases` | api/main.py:59-90 | 503 iff the table or handler is missing; else 404 iff the id is absent; every 500 carries the internal-error detail; a returned summary never contains "Error"; an unloaded model on a known book gives 500 |
| `Api.FifteenMinutesAlwaysFails` | api/main.py:39-90 | the validated reading time "15+ minutes" has no ratio in the map as written, so a known book always answers 500 |
| `Api.ValidReadingTimesHaveRatio` | api/main.py:39-75 | with the intended keys every validated reading time has a ratio: 0.3, 0.5, 0.7 |
| `Api.IntendedMapSucceeds` | api/main.py:59-83 | with the intended map a loaded model that generates a summary free of "Error" answers with that summary |

## Left out

- HTML-to-text (BeautifulSoup), language detection, RAKE keywords, tokenizers, model inference and decoding: these are parameters of the model. Their results are given by functions, not computed.
- `fuzz.ratio`, Unicode `str.lower` and NFKD normalisation: these are abstract functions. Only their ASCII behaviour is fixed where a lemma needs it.
- Unicode `\w` outside ASCII: this is an abstract predicate.
- HTTP requests, timeouts, `time.sleep` delays and the streaming download: each request is a given response. A failed download may leave a partial file in the source; this is not modelled.
- File reading and writing, JSON encoding, logging, `print`, and the plots of the evaluation script: these are I/O.
- The `print` of a summary that contains "Error" is left out. The response is modelled.
- FastAPI routing and pydantic validation: the reading-time pattern is a precondition of the summary endpoint.
- Scrapy scheduling, CSS and XPath selection: a page is given by the values its selectors yield. The set iteration order in `parse` is arbitrary in the model.
- Tokenizer windowing (stride, overflow) in the classifier: the chunks are given by an abstract chunker.
- Floating point: scores, means and ratios are reals.
- `Recommendation.SortDescendingSpec`: pandas' sort is not stable. Tie order is therefore unspecified, and the model's insertion sort is one admissible order.
- `Evaluation.LabelCountsSpec`: `value_counts` orders labels by count. The model states the counts as a map, without that order.
- `Summarization.Truncate`: takes the first 1024 ids of the full encoding. The loaded tokenizer may instead end a truncated encoding with its closing token, so the ids can differ from the source's in the last position; their number is the same, and only the number feeds the length bounds.
- `Metadata.SplitExtSuffix`: models POSIX `os.path.splitext`; the Windows variant is not modelled.
- `Metadata.ExtensionIsImage`: `ext.lower()` lower-cases ASCII letters only.
- `Metadata.DownloadCoverImage`: returns the file name. The `os.path.join` with the covers directory is not modelled.
- `Api.LoadAll`: requires book_id to be present in every record or in none. A column with missing cells (NaN ids) is not modelled.
- `Api.IndexRecords`: carries the same all-or-none book_id precondition as `Api.LoadAll`, for the same reason.
- `Api.GetTopRatedEndpoint`: a cover_url cell that is null in a present column is not modelled. Only a present URL or a missing column is. Enrichment writes None for books without a cover, so such cells are common.
- `Api.GetForYouEndpoint`: the same null cover_url cell (main.py:56) is not modelled, for the same reason.
- `Classify.ClassifyBooks`: a failing chunk of a book whose table has no `title` column raises `KeyError` out of `classify_books`, because the handler at classify_books.py:142 reads `row['title']` to log the error. The model treats every chunk failure as logged, so it does not capture that raise. The other columns of a book are an untyped map, and the title is needed only for the log.
- `Cleaning.PreprocessBooksData`: titles are strings. A null or non-string `title` of a book that passes the content tests makes `title.strip()` (cleaning_and_preprocessing.py:76) raise `AttributeError`, which ends `preprocess_books_data`. The model does not capture that raise.
- `Classify.ClassifyBooks`: the `device` choice (GPU or CPU), `torch.cuda.empty_cache` and the checkpoint file names are not modelled. The checkpoints are their contents.
- code/analyzing_content.py is not part of this model.

## Findings

| source | as written | input that shows it | evidently intended | confidence | as-written member | corrected member |
|---|---|---|---|---|---|---|
| api/main.py:74 | the map key `'15\+ minutes'` keeps the backslash, because `\+` is not a Python escape | request `{"book_id": <a known id>, "reading_time": "15+ minutes"}`, which the pattern of line 39 accepts: the ratio is None, `int(n * None)` raises, and the endpoint answers 500 | the key `'15+ minutes'` maps to 0.7 | high, not executed | `Api.FifteenMinutesAlwaysFails` | `Api.ValidReadingTimesHaveRatio` |
