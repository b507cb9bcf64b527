/** Text cleaning and corpus filtering (code/cleaning_and_preprocessing.py).

    The four regular-expression passes of `clean_text` are written out as
    functions over `string`; the HTML-to-text step (BeautifulSoup), the
    language detector (langdetect) and the keyword ranker (RAKE) are
    outside code and enter as function-typed parameters. */
module Cleaning {
  import opened Common
  import opened Text

  /** Length of a match of `http\S+|www\S+|https\S+` at the start of `s`,
      0 when there is none. The third alternative never matches where the
      first fails: `https` followed by a non-space is `http` followed by a
      non-space. The match is case-sensitive. */
  function UrlMatch(s: string): (k: nat)
    ensures k <= |s|
    ensures k > 0 ==> (StartsWith(s, "http") || StartsWith(s, "www")) && k > 3
    ensures forall i :: 0 <= i < k ==> !IsSpace(s[i])
    ensures 0 < k < |s| ==> IsSpace(s[k])
    ensures (StartsWith(s, "http") && |s| > 4 && !IsSpace(s[4])) || (StartsWith(s, "www") && |s| > 3 && !IsSpace(s[3]))
            ==> k > 0 && (k == |s| || IsSpace(s[k]))
  {
    if StartsWith(s, "http") && |s| > 4 && !IsSpace(s[4]) then 4 + NonSpaceRun(s[4..])
    else if StartsWith(s, "www") && |s| > 3 && !IsSpace(s[3]) then 3 + NonSpaceRun(s[3..])
    else 0
  }

  /** `re.sub(r"http\S+|www\S+|https\S+", "", s)`: scanning left to right,
      each match is deleted and the scan resumes after it. */
  function StripUrls(s: string): (r: string)
    ensures |r| <= |s|
    decreases |s|
  {
    if s == [] then []
    else if UrlMatch(s) > 0 then StripUrls(s[UrlMatch(s)..])
    else [s[0]] + StripUrls(s[1..])
  }

  /** Length of the run of non-ASCII characters `s` starts with. */
  function NonAsciiRun(s: string): (k: nat)
    ensures k <= |s|
    ensures forall i :: 0 <= i < k ==> !IsAscii(s[i])
    ensures k < |s| ==> IsAscii(s[k])
  {
    if s != [] && !IsAscii(s[0]) then 1 + NonAsciiRun(s[1..]) else 0
  }

  /** `re.sub(r"[^\x00-\x7F]+", " ", s)`: each run of non-ASCII characters
      becomes one space. */
  function ReplaceNonAscii(s: string): (r: string)
    ensures AllAscii(r)
    ensures AllAscii(s) ==> r == s
    decreases |s|
  {
    if s == [] then []
    else if !IsAscii(s[0]) then " " + ReplaceNonAscii(s[NonAsciiRun(s)..])
    else [s[0]] + ReplaceNonAscii(s[1..])
  }

  /** The characters the third pass keeps: `[a-zA-Z0-9\s.,!?'"-]`. */
  predicate Allowed(c: char)
  {
    IsLetter(c) || IsDigit(c) || IsSpace(c) || IsPunct(c)
  }

  /** The punctuation both cleaning functions keep: `. , ! ? ' " -`. */
  predicate IsPunct(c: char)
  {
    c == '.' || c == ',' || c == '!' || c == '?' || c == '\'' || c == '"' || c == '-'
  }

  /** `re.sub(r"[^a-zA-Z0-9\s.,!?\'\"-]", "", s)`: deletes every character
      that is not allowed and keeps the others in order. */
  function KeepAllowed(s: string): (r: string)
    ensures |r| <= |s|
    ensures forall i :: 0 <= i < |r| ==> Allowed(r[i])
    ensures AllAscii(s) ==> AllAscii(r)
    ensures (forall i :: 0 <= i < |s| ==> Allowed(s[i])) ==> r == s
  {
    if s == [] then []
    else if Allowed(s[0]) then [s[0]] + KeepAllowed(s[1..])
    else KeepAllowed(s[1..])
  }

  /** The alphabet of cleaned text: lower-case letters, digits, the space
      and `. , ! ? ' " -`. */
  predicate CleanChar(c: char)
  {
    IsLower(c) || IsDigit(c) || c == ' ' || IsPunct(c)
  }

  /** What both cleaning functions promise of their output. */
  predicate CleanShape(r: string)
  {
    && (forall i :: 0 <= i < |r| ==> CleanChar(r[i]))
    && Trimmed(r)
    && NoSpaceRuns(r)
  }

  /** A character left after the whitespace pass: the space, or an allowed
      ASCII character that is not whitespace. */
  predicate CollapsedChar(c: char)
  {
    c == ' ' || (Allowed(c) && IsAscii(c) && !IsSpace(c))
  }

  predicate AllowedAscii(c: char) { Allowed(c) && IsAscii(c) }

  /** The passes that follow BeautifulSoup in `clean_text` (lines 29-37):
      URL removal, non-ASCII runs to a space, the character whitelist,
      whitespace runs to one space, strip, lower-case. */
  function CleanPipeline(text: string): (r: string)
    ensures CleanShape(r)
  {
    var kept := KeepAllowed(ReplaceNonAscii(StripUrls(text)));
    FinishingPassesShape(kept);
    LowerAscii(Strip(ReplaceSpaceRuns(kept, ' ')))
  }

  /** The last three passes turn whitelisted ASCII text into clean text. */
  lemma FinishingPassesShape(kept: string)
    requires forall i :: 0 <= i < |kept| ==> AllowedAscii(kept[i])
    ensures CleanShape(LowerAscii(Strip(ReplaceSpaceRuns(kept, ' '))))
  {
    CollapseShape(kept);
    StripShape(ReplaceSpaceRuns(kept, ' '));
    LowerShape(Strip(ReplaceSpaceRuns(kept, ' ')));
  }

  lemma CollapseShape(kept: string)
    requires forall i :: 0 <= i < |kept| ==> AllowedAscii(kept[i])
    ensures forall i :: 0 <= i < |ReplaceSpaceRuns(kept, ' ')| ==> CollapsedChar(ReplaceSpaceRuns(kept, ' ')[i])
    ensures NoSpaceRuns(ReplaceSpaceRuns(kept, ' '))
  {
    ReplaceSpaceRunsAlphabet(kept, ' ', AllowedAscii);
  }

  lemma StripShape(collapsed: string)
    requires forall i :: 0 <= i < |collapsed| ==> CollapsedChar(collapsed[i])
    requires NoSpaceRuns(collapsed)
    ensures forall i :: 0 <= i < |Strip(collapsed)| ==> CollapsedChar(Strip(collapsed)[i])
    ensures NoSpaceRuns(Strip(collapsed)) && Trimmed(Strip(collapsed))
  {
    var stripped := Strip(collapsed);
    StripChars(collapsed);
    forall i | 0 <= i < |stripped| ensures CollapsedChar(stripped[i]) {
      assert stripped[i] == collapsed[SpaceRun(collapsed) + i];
    }
  }

  lemma LowerShape(stripped: string)
    requires forall i :: 0 <= i < |stripped| ==> CollapsedChar(stripped[i])
    requires NoSpaceRuns(stripped) && Trimmed(stripped)
    ensures CleanShape(LowerAscii(stripped))
  {
    LowerKeepsShape(stripped);
  }

  /** `clean_text` (lines 24-39): "" for anything that is not a string,
      otherwise the cleaning passes applied to the HTML-free text. */
  function CleanText(text: Value, getText: string -> string): (r: string)
    ensures text.NotStr? ==> r == ""
    ensures CleanShape(r)
  {
    match text
    case NotStr => ""
    case Str(s) => CleanPipeline(getText(s))
  }

  /** Cleaning is not idempotent: "HTTPfoo" escapes the case-sensitive URL
      pass and is then lower-cased to "httpfoo", which a second cleaning
      deletes as a URL. */
  lemma CleanPipelineNotIdempotent()
    ensures CleanPipeline("HTTPfoo") == "httpfoo"
    ensures CleanPipeline(CleanPipeline("HTTPfoo")) == ""
  {
    HttpUpperSurvives("HTTPfoo");
    HttpLowerRemoved("httpfoo");
  }

  lemma HttpUpperSurvives(s: string)
    requires s == "HTTPfoo"
    ensures CleanPipeline(s) == "httpfoo"
  {
    assert forall i :: 0 <= i < |s| ==> IsLetter(s[i]) && s[i] != 'h' && s[i] != 'w';
    LettersOnlyLowered(s);
    LowerHttp(s);
  }

  lemma LowerHttp(s: string)
    requires s == "HTTPfoo"
    ensures LowerAscii(s) == "httpfoo"
  {
    var l, t := LowerAscii(s), "httpfoo";
    assert |l| == |t|;
    forall i | 0 <= i < 7 ensures l[i] == t[i] {
      assert l[i] == LowerChar(s[i]);
    }
  }

  /** A word of ASCII letters without a lower-case 'h' or 'w' is only
      lower-cased. */
  lemma LettersOnlyLowered(s: string)
    requires forall i :: 0 <= i < |s| ==> IsLetter(s[i]) && s[i] != 'h' && s[i] != 'w'
    ensures CleanPipeline(s) == LowerAscii(s)
  {
    NoUrlUnchanged(s);
    assert ReplaceNonAscii(s) == s;
    assert KeepAllowed(s) == s;
    NoSpaceUnchanged(s);
  }

  lemma HttpLowerRemoved(s: string)
    requires s == "httpfoo"
    ensures CleanPipeline(s) == ""
  {
    assert StartsWith(s, "http") && NonSpaceRun(s[4..]) == 3;
    assert UrlMatch(s) == 7;
    assert StripUrls(s) == StripUrls("");
  }

  /** Text without a lower-case 'h' or 'w' holds no URL match. */
  lemma {:induction false} NoUrlUnchanged(s: string)
    requires forall i :: 0 <= i < |s| ==> s[i] != 'h' && s[i] != 'w'
    ensures StripUrls(s) == s
    decreases |s|
  {
    if s != [] {
      assert !StartsWith(s, "http") && !StartsWith(s, "www") by {
        if |s| >= 3 { assert s[..3][0] == s[0]; }
        if |s| >= 4 { assert s[..4][0] == s[0]; }
      }
      NoUrlUnchanged(s[1..]);
    }
  }

  lemma {:induction false} NoSpaceUnchanged(s: string)
    requires forall i :: 0 <= i < |s| ==> !IsSpace(s[i])
    ensures ReplaceSpaceRuns(s, ' ') == s
    ensures Strip(s) == s
    decreases |s|
  {
    if s != [] {
      NoSpaceUnchanged(s[1..]);
    }
  }

  /** `is_english` (lines 41-50): False for a non-string, for text shorter
      than 20 characters, and when the detector raises (`None`); otherwise
      whether the detected language is 'en'. */
  function IsEnglish(text: Value, detect: string -> Option<string>): (b: bool)
    ensures b <==> text.Str? && |text.s| >= 20 && detect(text.s) == Some("en")
  {
    match text
    case NotStr => false
    case Str(s) =>
      if |s| < 20 then false
      else match detect(s)
        case None => false
        case Some(lang) => lang == "en"
  }

  /** Python's `xs[:n]` for any integer `n`. */
  function SlicePrefix<T>(xs: seq<T>, n: int): (r: seq<T>)
    ensures |r| <= |xs| && r == xs[..|r|]
    ensures n >= 0 ==> |r| == if n < |xs| then n else |xs|
    ensures n < 0 ==> |r| == if |xs| + n > 0 then |xs| + n else 0
  {
    if n >= |xs| then xs
    else if n >= 0 then xs[..n]
    else if |xs| + n > 0 then xs[..|xs| + n]
    else []
  }

  /** `extract_keywords` (lines 52-57): the first `numKeywords` phrases of
      RAKE's ranking (the default is 7). */
  function ExtractKeywords(text: string, numKeywords: int, rankedPhrases: string -> seq<string>): (r: seq<string>)
    ensures |r| <= |rankedPhrases(text)| && r == rankedPhrases(text)[..|r|]
    ensures numKeywords >= 0 ==>
      |r| == if numKeywords < |rankedPhrases(text)| then numKeywords else |rankedPhrases(text)|
    ensures numKeywords < 0 ==>
      |r| == if |rankedPhrases(text)| + numKeywords > 0 then |rankedPhrases(text)| + numKeywords else 0
  {
    SlicePrefix(rankedPhrases(text), numKeywords)
  }

  const DefaultNumKeywords := 7
  const DefaultMinLength := 100
  const DefaultMaxLength := 6000

  /** The outside text libraries `preprocess_books_data` calls. */
  datatype TextLibs = TextLibs(
    getText: string -> string,
    detect: string -> Option<string>,
    rankedPhrases: string -> seq<string>)

  /** One record of the scraped input (`title` and `url` default to "",
      a missing `content` is the string ""). */
  datatype RawBook = RawBook(title: string, url: string, content: Value)

  /** One row of the preprocessed table. */
  datatype PreparedBook = PreparedBook(title: string, url: string, content: string, keywords: seq<string>)

  /** The test of lines 73-76 on a book's cleaned content and title. */
  predicate Keep(cleaned: string, title: string, minLength: int, maxLength: int, libs: TextLibs)
  {
    && cleaned != ""
    && minLength <= |cleaned| <= maxLength
    && IsEnglish(Str(cleaned), libs.detect)
    && Strip(title) != ""
  }

  /** Whether the loop keeps book `b`. */
  predicate Passes(b: RawBook, minLength: int, maxLength: int, libs: TextLibs)
  {
    Keep(CleanText(b.content, libs.getText), b.title, minLength, maxLength, libs)
  }

  /** The row the loop appends for book `b`: its title and url, its cleaned
      content and the keywords of that content. */
  function Prepare(b: RawBook, libs: TextLibs): PreparedBook
  {
    var cleaned := CleanText(b.content, libs.getText);
    PreparedBook(b.title, b.url, cleaned, ExtractKeywords(cleaned, DefaultNumKeywords, libs.rankedPhrases))
  }

  /** The rows the loop of lines 66-81 appends, in input order. */
  function KeptBooks(books: seq<RawBook>, minLength: int, maxLength: int, libs: TextLibs): seq<PreparedBook>
  {
    if books == [] then []
    else
      var b := books[|books| - 1];
      var front := KeptBooks(books[..|books| - 1], minLength, maxLength, libs);
      if Passes(b, minLength, maxLength, libs) then front + [Prepare(b, libs)] else front
  }

  function Key(b: PreparedBook): (string, string) { (b.title, b.content) }

  /** `df.drop_duplicates(subset=['title', 'content'])`, keeping the first
      row of each (title, content) pair; `seen` holds the pairs already kept. */
  function DropDuplicates(rows: seq<PreparedBook>, seen: set<(string, string)>): seq<PreparedBook>
    decreases |rows|
  {
    if rows == [] then []
    else if Key(rows[0]) in seen then DropDuplicates(rows[1..], seen)
    else [rows[0]] + DropDuplicates(rows[1..], seen + {Key(rows[0])})
  }

  /** Every row de-duplication keeps is the first input row with its
      (title, content) pair, and no pair already seen is kept. */
  lemma {:induction false} DropDuplicatesKeepsFirst(rows: seq<PreparedBook>, seen: set<(string, string)>)
    ensures forall j :: 0 <= j < |DropDuplicates(rows, seen)| ==>
      Key(DropDuplicates(rows, seen)[j]) !in seen &&
      exists i :: 0 <= i < |rows| && rows[i] == DropDuplicates(rows, seen)[j]
        && forall i' :: 0 <= i' < i ==> Key(rows[i']) != Key(rows[i])
    decreases |rows|
  {
    if rows != [] {
      var k := Key(rows[0]);
      var r := DropDuplicates(rows, seen);
      var seen' := if k in seen then seen else seen + {k};
      var rest := DropDuplicates(rows[1..], seen');
      DropDuplicatesKeepsFirst(rows[1..], seen');
      forall j | 0 <= j < |r|
        ensures Key(r[j]) !in seen &&
          exists i :: 0 <= i < |rows| && rows[i] == r[j] && forall i' :: 0 <= i' < i ==> Key(rows[i']) != Key(rows[i])
      {
        if k !in seen && j == 0 {
          assert rows[0] == r[0];
        } else {
          var jr := if k in seen then j else j - 1;
          assert r[j] == rest[jr];
          var i :| 0 <= i < |rows[1..]| && rows[1..][i] == rest[jr]
                   && forall i' :: 0 <= i' < i ==> Key(rows[1..][i']) != Key(rows[1..][i]);
          assert rows[i + 1] == r[j];
          forall i' | 0 <= i' < i + 1 ensures Key(rows[i']) != Key(rows[i + 1]) {
            if i' > 0 { assert rows[i'] == rows[1..][i' - 1]; }
          }
        }
      }
    }
  }

  /** No two rows left after de-duplication share a (title, content) pair. */
  lemma {:induction false} DropDuplicatesDistinct(rows: seq<PreparedBook>, seen: set<(string, string)>)
    ensures forall i, j :: 0 <= i < j < |DropDuplicates(rows, seen)| ==>
      Key(DropDuplicates(rows, seen)[i]) != Key(DropDuplicates(rows, seen)[j])
    decreases |rows|
  {
    if rows != [] {
      var k := Key(rows[0]);
      if k in seen {
        DropDuplicatesDistinct(rows[1..], seen);
      } else {
        DropDuplicatesDistinct(rows[1..], seen + {k});
        DropDuplicatesKeepsFirst(rows[1..], seen + {k});
      }
    }
  }

  function KeySet(rows: seq<PreparedBook>): set<(string, string)>
  {
    set i | 0 <= i < |rows| :: Key(rows[i])
  }

  /** De-duplication loses no (title, content) pair that was not already seen. */
  lemma {:induction false} DropDuplicatesKeys(rows: seq<PreparedBook>, seen: set<(string, string)>)
    ensures KeySet(DropDuplicates(rows, seen)) == KeySet(rows) - seen
    decreases |rows|
  {
    if rows != [] {
      var k := Key(rows[0]);
      assert KeySet(rows) == {k} + KeySet(rows[1..]) by {
        forall x | x in KeySet(rows) ensures x in {k} + KeySet(rows[1..]) {
          var i :| 0 <= i < |rows| && Key(rows[i]) == x;
          if i > 0 { assert rows[i] == rows[1..][i - 1]; }
        }
        forall x | x in KeySet(rows[1..]) ensures x in KeySet(rows) {
          var i :| 0 <= i < |rows[1..]| && Key(rows[1..][i]) == x;
          assert rows[1..][i] == rows[i + 1];
        }
      }
      if k in seen {
        DropDuplicatesKeys(rows[1..], seen);
      } else {
        var rest := DropDuplicates(rows[1..], seen + {k});
        DropDuplicatesKeys(rows[1..], seen + {k});
        assert KeySet([rows[0]] + rest) == {k} + KeySet(rest) by {
          var r := [rows[0]] + rest;
          forall x | x in KeySet(r) ensures x in {k} + KeySet(rest) {
            var i :| 0 <= i < |r| && Key(r[i]) == x;
            if i > 0 { assert r[i] == rest[i - 1]; }
          }
          forall x | x in KeySet(rest) ensures x in KeySet(r) {
            var i :| 0 <= i < |rest| && Key(rest[i]) == x;
            assert r[i + 1] == rest[i];
          }
          assert Key(r[0]) == k;
        }
      }
    }
  }

  /** `preprocess_books_data` (lines 59-92): cleans each book, appends the
      four columns of the books that pass the filter, and drops duplicate
      (title, content) pairs. */
  method PreprocessBooksData(books: seq<RawBook>, minLength: int, maxLength: int, libs: TextLibs)
    returns (df: seq<PreparedBook>)
    ensures df == DropDuplicates(KeptBooks(books, minLength, maxLength, libs), {})
  {
    var titles: seq<string> := [];
    var urls: seq<string> := [];
    var contents: seq<string> := [];
    var keywordsList: seq<seq<string>> := [];
    ghost var kept: seq<PreparedBook> := [];
    var i := 0;
    while i < |books|
      invariant 0 <= i <= |books|
      invariant kept == KeptBooks(books[..i], minLength, maxLength, libs)
      invariant Columns(kept, titles, urls, contents, keywordsList)
    {
      var book := books[i];
      var cleanedContent := CleanText(book.content, libs.getText);
      KeptBooksStep(books, i, minLength, maxLength, libs);
      if Keep(cleanedContent, book.title, minLength, maxLength, libs) {
        var keywords := ExtractKeywords(cleanedContent, DefaultNumKeywords, libs.rankedPhrases);
        ColumnsAppend(kept, titles, urls, contents, keywordsList, book.title, book.url, cleanedContent, keywords);
        titles := titles + [book.title];
        urls := urls + [book.url];
        contents := contents + [cleanedContent];
        keywordsList := keywordsList + [keywords];
        kept := kept + [PreparedBook(book.title, book.url, cleanedContent, keywords)];
      }
      i := i + 1;
    }
    assert books[..|books|] == books;
    var table := seq(|titles|, j requires 0 <= j < |titles| => PreparedBook(titles[j], urls[j], contents[j], keywordsList[j]));
    ColumnsTable(kept, titles, urls, contents, keywordsList, table);
    df := DropDuplicates(table, {});
  }

  /** The four column lists of lines 61-64 hold, row by row, the fields of `kept`. */
  ghost predicate Columns(kept: seq<PreparedBook>, titles: seq<string>, urls: seq<string>,
                          contents: seq<string>, keywordsList: seq<seq<string>>)
  {
    && |titles| == |urls| == |contents| == |keywordsList| == |kept|
    && forall j :: 0 <= j < |kept| ==>
         kept[j] == PreparedBook(titles[j], urls[j], contents[j], keywordsList[j])
  }

  lemma ColumnsAppend(kept: seq<PreparedBook>, titles: seq<string>, urls: seq<string>,
                      contents: seq<string>, keywordsList: seq<seq<string>>,
                      title: string, url: string, content: string, keywords: seq<string>)
    requires Columns(kept, titles, urls, contents, keywordsList)
    ensures Columns(kept + [PreparedBook(title, url, content, keywords)], titles + [title],
                    urls + [url], contents + [content], keywordsList + [keywords])
  {
  }

  lemma ColumnsTable(kept: seq<PreparedBook>, titles: seq<string>, urls: seq<string>,
                     contents: seq<string>, keywordsList: seq<seq<string>>, table: seq<PreparedBook>)
    requires Columns(kept, titles, urls, contents, keywordsList)
    requires |table| == |titles|
    requires forall j :: 0 <= j < |table| ==> table[j] == PreparedBook(titles[j], urls[j], contents[j], keywordsList[j])
    ensures table == kept
  {
  }

  /** One more input row appends its prepared form exactly when it passes. */
  lemma KeptBooksStep(books: seq<RawBook>, i: nat, minLength: int, maxLength: int, libs: TextLibs)
    requires i < |books|
    ensures KeptBooks(books[..i + 1], minLength, maxLength, libs)
            == KeptBooks(books[..i], minLength, maxLength, libs)
               + (if Passes(books[i], minLength, maxLength, libs) then [Prepare(books[i], libs)] else [])
  {
    assert books[..i + 1][..i] == books[..i];
  }

  /** Row b yields the prepared record p: it passes the filter and p is its prepared form. */
  predicate Yields(b: RawBook, minLength: int, maxLength: int, libs: TextLibs, p: PreparedBook)
  {
    Passes(b, minLength, maxLength, libs) && p == Prepare(b, libs)
  }

  lemma {:induction false} KeptBooksSound(books: seq<RawBook>, minLength: int, maxLength: int, libs: TextLibs, p: PreparedBook)
    requires p in KeptBooks(books, minLength, maxLength, libs)
    ensures exists i :: 0 <= i < |books| && Yields(books[i], minLength, maxLength, libs, p)
    decreases |books|
  {
    var n := |books| - 1;
    var front := books[..n];
    if p in KeptBooks(front, minLength, maxLength, libs) {
      KeptBooksSound(front, minLength, maxLength, libs, p);
      var i :| 0 <= i < |front| && Yields(front[i], minLength, maxLength, libs, p);
      assert front[i] == books[i];
    } else {
      assert Yields(books[n], minLength, maxLength, libs, p);
    }
  }

  lemma {:induction false} KeptBooksComplete(books: seq<RawBook>, minLength: int, maxLength: int, libs: TextLibs, i: nat)
    requires i < |books| && Passes(books[i], minLength, maxLength, libs)
    ensures Prepare(books[i], libs) in KeptBooks(books, minLength, maxLength, libs)
    decreases |books|
  {
    var n := |books| - 1;
    var x := Prepare(books[i], libs);
    var front := KeptBooks(books[..n], minLength, maxLength, libs);
    var tail := if Passes(books[n], minLength, maxLength, libs) then [Prepare(books[n], libs)] else [];
    assert KeptBooks(books, minLength, maxLength, libs) == front + tail;
    if i < n {
      assert books[..n][i] == books[i];
      KeptBooksComplete(books[..n], minLength, maxLength, libs, i);
      InAppendLeft(x, front, tail);
    } else {
      assert i == n && |tail| == 1 && tail[0] == x;
      InAppendRight(x, front, tail);
    }
  }

  /** A prepared record is kept exactly when some input row passes the filter and prepares to it. */
  lemma KeptBooksMembers(books: seq<RawBook>, minLength: int, maxLength: int, libs: TextLibs, p: PreparedBook)
    ensures p in KeptBooks(books, minLength, maxLength, libs) <==>
      exists i :: 0 <= i < |books| && Yields(books[i], minLength, maxLength, libs, p)
  {
    if p in KeptBooks(books, minLength, maxLength, libs) {
      KeptBooksSound(books, minLength, maxLength, libs, p);
    }
    if exists i :: 0 <= i < |books| && Yields(books[i], minLength, maxLength, libs, p) {
      var i :| 0 <= i < |books| && Yields(books[i], minLength, maxLength, libs, p);
      KeptBooksComplete(books, minLength, maxLength, libs, i);
    }
  }

  /** The filter works row by row, so input order is kept: the rows kept
      from a concatenation are those kept from each part, in order. */
  lemma {:induction false} KeptBooksAppend(a: seq<RawBook>, b: seq<RawBook>, minLength: int, maxLength: int, libs: TextLibs)
    ensures KeptBooks(a + b, minLength, maxLength, libs)
            == KeptBooks(a, minLength, maxLength, libs) + KeptBooks(b, minLength, maxLength, libs)
    decreases |b|
  {
    if b == [] {
      assert a + b == a;
    } else {
      assert (a + b)[..|a + b| - 1] == a + b[..|b| - 1];
      KeptBooksAppend(a, b[..|b| - 1], minLength, maxLength, libs);
    }
  }
}
