/** Cover enrichment (code/metadata_enrichment.py): title normalisation,
    choosing a Google Books volume for a title, and naming the downloaded
    cover file.

    The HTTP service, `fuzz.ratio`, Unicode case mapping and NFKD
    decomposition, and the file system are external: a book's responses
    (one per attempt), the ratio, the Unicode services and the set of
    existing file names are parameters. */
module Metadata {
  import opened Common
  import opened Text

  // ---------------------------------------------------------------------
  // Title normalisation
  // ---------------------------------------------------------------------

  /** External Unicode services: `str.lower` and NFKD decomposition. */
  datatype Unicode = Unicode(lower: string -> string, nfkd: string -> string)

  /** `.encode('ascii', 'ignore').decode()`: the ASCII characters, in order. */
  function KeepAscii(s: string): (r: string)
    ensures AllAscii(r)
    ensures |r| <= |s|
    decreases |s|
  {
    if s == [] then [] else (if IsAscii(s[0]) then [s[0]] else []) + KeepAscii(s[1..])
  }

  /** Dropping non-ASCII characters changes nothing in an ASCII string. */
  lemma {:induction false} KeepAsciiOfAscii(s: string)
    requires AllAscii(s)
    ensures KeepAscii(s) == s
    decreases |s|
  {
    if s != [] {
      assert AllAscii(s[1..]) by {
        forall i | 0 <= i < |s[1..]| ensures IsAscii(s[1..][i]) { assert s[1..][i] == s[i + 1]; }
      }
      KeepAsciiOfAscii(s[1..]);
    }
  }

  /** `normalize_title_for_comparison`: "" for a non-string; otherwise
      lowercase, strip, collapse whitespace runs to one space, decompose
      and drop what is not ASCII. */
  function NormalizeTitle(title: Value, u: Unicode): (r: string)
    ensures title.NotStr? ==> r == ""
  {
    if title.NotStr? then "" else KeepAscii(u.nfkd(ReplaceSpaceRuns(Strip(u.lower(title.s)), ' ')))
  }

  /** Every normalised title is ASCII only. */
  lemma NormalizedIsAscii(title: Value, u: Unicode)
    ensures AllAscii(NormalizeTitle(title, u))
  {
  }

  /** On a title whose lowercase form is ASCII (where NFKD changes nothing),
      normalisation is strip-and-collapse, so no two whitespace characters
      are adjacent. */
  lemma NormalizeAsciiTitle(t: string, u: Unicode)
    requires forall x :: AllAscii(x) ==> u.nfkd(x) == x
    requires AllAscii(u.lower(t))
    ensures NormalizeTitle(Str(t), u) == ReplaceSpaceRuns(Strip(u.lower(t)), ' ')
    ensures NoSpaceRuns(NormalizeTitle(Str(t), u))
  {
    var stripped := Strip(u.lower(t));
    StripChars(u.lower(t));
    assert forall i :: 0 <= i < |stripped| ==> IsSpace(stripped[i]) || IsAscii(stripped[i]) by {
      forall i | 0 <= i < |stripped| ensures IsAscii(stripped[i]) {
        var c := stripped[i];
        assert c in u.lower(t);
        var j :| 0 <= j < |u.lower(t)| && u.lower(t)[j] == c;
      }
    }
    ReplaceSpaceRunsAlphabet(stripped, ' ', IsAscii);
    var collapsed := ReplaceSpaceRuns(stripped, ' ');
    assert AllAscii(collapsed);
    KeepAsciiOfAscii(collapsed);
  }

  /** Collapsing happens before the non-ASCII characters are dropped, so a
      dropped character between two spaces leaves a run of two spaces. The
      example uses U+4E2D, which NFKD leaves alone and lower() keeps. */
  lemma NormalizeCanLeaveSpaceRun(t: string, u: Unicode)
    requires t == "a \U{4E2D} b"
    requires u.lower(t) == t && u.nfkd(t) == t
    ensures NormalizeTitle(Str(t), u) == "a  b"
    ensures !NoSpaceRuns(NormalizeTitle(Str(t), u))
  {
    StripUnchanged(t);
    ReplaceSpaceRunsUnchanged(t);
    KeepAsciiExample(t);
    var r := NormalizeTitle(Str(t), u);
    assert r[1] == ' ' && r[2] == ' ';
  }

  lemma KeepAsciiExample(t: string)
    requires t == "a \U{4E2D} b"
    ensures KeepAscii(t) == "a  b"
  {
    assert KeepAscii(t[4..]) == "b" by { assert t[4..][1..] == []; }
    assert KeepAscii(t[3..]) == " b" by { assert t[3..][1..] == t[4..]; }
    assert KeepAscii(t[2..]) == " b" by { assert t[2..][1..] == t[3..]; }
    assert KeepAscii(t[1..]) == "  b" by { assert t[1..][1..] == t[2..]; }
  }

  /** Collapsing whitespace runs changes nothing when every whitespace
      character is a lone space. */
  lemma {:induction false} ReplaceSpaceRunsUnchanged(s: string)
    requires NoSpaceRuns(s)
    requires forall i :: 0 <= i < |s| && IsSpace(s[i]) ==> s[i] == ' '
    ensures ReplaceSpaceRuns(s, ' ') == s
    decreases |s|
  {
    if s != [] {
      assert NoSpaceRuns(s[1..]) by {
        forall i | 0 <= i < |s[1..]| - 1 ensures !(IsSpace(s[1..][i]) && IsSpace(s[1..][i + 1])) {
          assert s[1..][i] == s[i + 1] && s[1..][i + 1] == s[i + 2];
        }
      }
      assert forall i :: 0 <= i < |s[1..]| && IsSpace(s[1..][i]) ==> s[1..][i] == ' ' by {
        forall i | 0 <= i < |s[1..]| && IsSpace(s[1..][i]) ensures s[1..][i] == ' ' { assert s[1..][i] == s[i + 1]; }
      }
      ReplaceSpaceRunsUnchanged(s[1..]);
      if IsSpace(s[0]) {
        assert SpaceRun(s) == 1 by {
          if |s| > 1 { assert !IsSpace(s[1]); }
        }
      }
    }
  }

  // ---------------------------------------------------------------------
  // Choosing a volume
  // ---------------------------------------------------------------------

  /** `fuzz.ratio`: an external similarity score of two strings. */
  type Ratio = (string, string) -> int

  /** The `volumeInfo` of a search result. A missing title is "", missing
      authors are [] and missing image links are the empty map. */
  datatype Volume = Volume(printType: Option<string>, title: Value, subtitle: Option<Value>,
                           authors: seq<Value>, imageLinks: map<string, string>)

  predicate IsBook(v: Volume) { v.printType == Some("BOOK") }

  /** The image sizes, largest first. */
  const ImageSizes: seq<string> := ["extraLarge", "large", "medium", "small", "thumbnail", "smallThumbnail"]

  /** `links.get(k0) or links.get(k1) or ...`: the first non-empty link;
      when there is none, the value of the last lookup. */
  function CoverChoice(links: map<string, string>, keys: seq<string>): Option<string>
    requires keys != []
    decreases |keys|
  {
    var v := if keys[0] in links then Some(links[keys[0]]) else None;
    if |keys| == 1 || (v.Some? && v.value != "") then v else CoverChoice(links, keys[1..])
  }

  function CoverUrl(links: map<string, string>): Option<string>
  {
    CoverChoice(links, ImageSizes)
  }

  predicate HasLink(links: map<string, string>, key: string)
  {
    key in links && links[key] != ""
  }

  /** The chosen link is non-empty exactly when some key has a non-empty
      link, and it is then the link of the first such key. */
  lemma {:induction false} CoverChoiceSpec(links: map<string, string>, keys: seq<string>)
    requires keys != []
    ensures var r := CoverChoice(links, keys);
      && ((r.Some? && r.value != "") <==> exists i :: 0 <= i < |keys| && HasLink(links, keys[i]))
      && forall i :: 0 <= i < |keys| && HasLink(links, keys[i]) && (forall j :: 0 <= j < i ==> !HasLink(links, keys[j])) ==>
           r == Some(links[keys[i]])
    decreases |keys|
  {
    if |keys| > 1 && !HasLink(links, keys[0]) {
      CoverChoiceSpec(links, keys[1..]);
      assert forall i :: 1 <= i < |keys| ==> keys[i] == keys[1..][i - 1];
    }
  }

  /** A volume's cover URL is its largest non-empty image link. */
  lemma CoverUrlLargestFirst(links: map<string, string>, i: nat)
    requires i < |ImageSizes| && HasLink(links, ImageSizes[i])
    requires forall j :: 0 <= j < i ==> !HasLink(links, ImageSizes[j])
    ensures CoverUrl(links) == Some(links[ImageSizes[i]])
  {
    CoverChoiceSpec(links, ImageSizes);
  }

  function MaxInt(a: int, b: int): int { if a >= b then a else b }

  /** The running maximum of the author ratios, starting from 0. */
  function AuthorScore(search: string, authors: seq<string>, ratio: Ratio): int
    decreases |authors|
  {
    if authors == [] then 0
    else MaxInt(AuthorScore(search, authors[..|authors| - 1], ratio), ratio(search, authors[|authors| - 1]))
  }

  /** The author score is the largest author ratio, or 0 when that is
      smaller or there are no authors. */
  lemma {:induction false} AuthorScoreSpec(search: string, authors: seq<string>, ratio: Ratio)
    ensures AuthorScore(search, authors, ratio) >= 0
    ensures forall i :: 0 <= i < |authors| ==> ratio(search, authors[i]) <= AuthorScore(search, authors, ratio)
    ensures AuthorScore(search, authors, ratio) == 0
         || exists i :: 0 <= i < |authors| && AuthorScore(search, authors, ratio) == ratio(search, authors[i])
    decreases |authors|
  {
    if authors != [] {
      var init := authors[..|authors| - 1];
      AuthorScoreSpec(search, init, ratio);
      assert forall i :: 0 <= i < |init| ==> init[i] == authors[i];
    }
  }

  function NormalizeAll(xs: seq<Value>, u: Unicode): (r: seq<string>)
    ensures |r| == |xs| && forall i :: 0 <= i < |xs| ==> r[i] == NormalizeTitle(xs[i], u)
  {
    seq(|xs|, i requires 0 <= i < |xs| => NormalizeTitle(xs[i], u))
  }

  /** The title ratio, raised to the subtitle ratio when there is a subtitle. */
  function TitleScore(search: string, v: Volume, ratio: Ratio, u: Unicode): int
  {
    var t := ratio(search, NormalizeTitle(v.title, u));
    match v.subtitle
    case None => t
    case Some(sub) => MaxInt(t, ratio(search, NormalizeTitle(sub, u)))
  }

  /** Lines 76-91: 90% title, 10% author. */
  function Score(search: string, v: Volume, ratio: Ratio, u: Unicode): real
  {
    0.9 * TitleScore(search, v, ratio, u) as real + 0.1 * AuthorScore(search, NormalizeAll(v.authors, u), ratio) as real
  }

  ghost predicate PercentRatio(ratio: Ratio)
  {
    forall a, b :: 0 <= ratio(a, b) <= 100
  }

  /** With ratios in [0, 100] the score is in [0, 100], and it is at least
      90% of the title ratio. */
  lemma ScoreBounds(search: string, v: Volume, ratio: Ratio, u: Unicode)
    requires PercentRatio(ratio)
    ensures 0.0 <= Score(search, v, ratio, u) <= 100.0
    ensures Score(search, v, ratio, u) >= 0.9 * ratio(search, NormalizeTitle(v.title, u)) as real
  {
    var authors := NormalizeAll(v.authors, u);
    AuthorScoreSpec(search, authors, ratio);
    var a := AuthorScore(search, authors, ratio);
    assert 0 <= a <= 100 by {
      if a != 0 {
        var i :| 0 <= i < |authors| && a == ratio(search, authors[i]);
      }
    }
    assert 0 <= TitleScore(search, v, ratio, u) <= 100;
  }

  /** The score of a volume, with the author loop of lines 86-89. */
  method ScoreVolume(search: string, v: Volume, ratio: Ratio, u: Unicode) returns (score: real)
    ensures score == Score(search, v, ratio, u)
  {
    var titleScore := ratio(search, NormalizeTitle(v.title, u));
    if v.subtitle.Some? {
      var subtitleScore := ratio(search, NormalizeTitle(v.subtitle.value, u));
      titleScore := MaxInt(titleScore, subtitleScore);
    }
    assert titleScore == TitleScore(search, v, ratio, u);
    var authorScore := MaxAuthorRatio(search, NormalizeAll(v.authors, u), ratio);
    score := titleScore as real * 0.9 + authorScore as real * 0.1;
  }

  /** The author loop of lines 86-89: the running maximum of the author
      ratios, starting from 0. */
  method MaxAuthorRatio(search: string, authors: seq<string>, ratio: Ratio) returns (authorScore: int)
    ensures authorScore == AuthorScore(search, authors, ratio)
  {
    authorScore := 0;
    var k := 0;
    while k < |authors|
      invariant 0 <= k <= |authors|
      invariant authorScore == AuthorScore(search, authors[..k], ratio)
    {
      assert authors[..k + 1][..k] == authors[..k];
      authorScore := MaxInt(authorScore, ratio(search, authors[k]));
      k := k + 1;
    }
    assert authors[..k] == authors;
  }

  datatype Match = Match(score: real, coverUrl: Option<string>)

  function MatchOf(search: string, v: Volume, ratio: Ratio, u: Unicode): Match
  {
    Match(Score(search, v, ratio, u), CoverUrl(v.imageLinks))
  }

  /** `potential_matches`: one match per BOOK volume, in order. */
  function Matches(search: string, items: seq<Volume>, ratio: Ratio, u: Unicode): seq<Match>
    decreases |items|
  {
    if items == [] then []
    else
      var last := items[|items| - 1];
      Matches(search, items[..|items| - 1], ratio, u) + (if IsBook(last) then [MatchOf(search, last, ratio, u)] else [])
  }

  /** The BOOK volumes of `items`, in their order. */
  function BookItems(items: seq<Volume>): (r: seq<Volume>)
    ensures |r| <= |items|
    ensures forall k :: 0 <= k < |r| ==> IsBook(r[k]) && r[k] in items
    decreases |items|
  {
    if items == [] then []
    else
      var front := items[..|items| - 1];
      var last := items[|items| - 1];
      assert forall v :: v in front ==> v in items;
      BookItems(front) + (if IsBook(last) then [last] else [])
  }

  /** Only BOOK volumes become matches, every one of them does, and in order:
      there are as many matches as BOOK volumes, the k-th match is the k-th
      BOOK volume's, and there is none exactly when no volume is a BOOK. */
  lemma MatchesSpec(search: string, items: seq<Volume>, ratio: Ratio, u: Unicode)
    ensures |Matches(search, items, ratio, u)| == |BookItems(items)| <= |items|
    ensures forall k :: 0 <= k < |BookItems(items)| ==>
      Matches(search, items, ratio, u)[k] == MatchOf(search, BookItems(items)[k], ratio, u)
    ensures forall m :: m in Matches(search, items, ratio, u) ==>
      exists i :: 0 <= i < |items| && IsBook(items[i]) && m == MatchOf(search, items[i], ratio, u)
    ensures forall i :: 0 <= i < |items| && IsBook(items[i]) ==> MatchOf(search, items[i], ratio, u) in Matches(search, items, ratio, u)
    ensures Matches(search, items, ratio, u) == [] <==> forall i :: 0 <= i < |items| ==> !IsBook(items[i])
  {
    MatchesInOrder(search, items, ratio, u);
    forall m | m in Matches(search, items, ratio, u)
      ensures exists i :: 0 <= i < |items| && IsBook(items[i]) && m == MatchOf(search, items[i], ratio, u)
    {
      MatchesSound(search, items, ratio, u, m);
    }
    forall i | 0 <= i < |items| && IsBook(items[i])
      ensures MatchOf(search, items[i], ratio, u) in Matches(search, items, ratio, u)
    {
      MatchesComplete(search, items, ratio, u, i);
    }
  }

  /** The matches are the matches of the BOOK volumes, one each, in order. */
  lemma {:induction false} MatchesInOrder(search: string, items: seq<Volume>, ratio: Ratio, u: Unicode)
    ensures |Matches(search, items, ratio, u)| == |BookItems(items)|
    ensures forall k :: 0 <= k < |BookItems(items)| ==>
      Matches(search, items, ratio, u)[k] == MatchOf(search, BookItems(items)[k], ratio, u)
    decreases |items|
  {
    if items != [] {
      var front, last := items[..|items| - 1], items[|items| - 1];
      MatchesInOrder(search, front, ratio, u);
      var ms, bs := Matches(search, front, ratio, u), BookItems(front);
      if IsBook(last) {
        var ms', bs' := ms + [MatchOf(search, last, ratio, u)], bs + [last];
        assert Matches(search, items, ratio, u) == ms' && BookItems(items) == bs';
        forall k | 0 <= k < |bs'| ensures ms'[k] == MatchOf(search, bs'[k], ratio, u) {
          if k < |bs| { assert ms'[k] == ms[k] && bs'[k] == bs[k]; }
        }
      } else {
        assert Matches(search, items, ratio, u) == ms + [] == ms;
        assert BookItems(items) == bs + [] == bs;
      }
    }
  }

  /** Every match is the match of some BOOK volume. */
  lemma {:induction false} MatchesSound(search: string, items: seq<Volume>, ratio: Ratio, u: Unicode, m: Match)
    requires m in Matches(search, items, ratio, u)
    ensures exists i :: 0 <= i < |items| && IsBook(items[i]) && m == MatchOf(search, items[i], ratio, u)
    decreases |items|
  {
    var n := |items| - 1;
    var init := items[..n];
    if m in Matches(search, init, ratio, u) {
      MatchesSound(search, init, ratio, u, m);
      var i :| 0 <= i < |init| && IsBook(init[i]) && m == MatchOf(search, init[i], ratio, u);
      assert init[i] == items[i];
    } else {
      assert IsBook(items[n]) && m == MatchOf(search, items[n], ratio, u);
    }
  }

  /** Every BOOK volume has its match in the list. */
  lemma {:induction false} MatchesComplete(search: string, items: seq<Volume>, ratio: Ratio, u: Unicode, i: nat)
    requires i < |items| && IsBook(items[i])
    ensures MatchOf(search, items[i], ratio, u) in Matches(search, items, ratio, u)
    decreases |items|
  {
    var n := |items| - 1;
    var init := items[..n];
    var front := Matches(search, init, ratio, u);
    var x := MatchOf(search, items[i], ratio, u);
    var tail := MatchesLast(search, items, ratio, u);
    if i < n {
      assert init[i] == items[i];
      MatchesComplete(search, init, ratio, u, i);
      InAppendLeft(x, front, tail);
    } else {
      assert i == n && |tail| == 1 && tail[0] == x;
      InAppendRight(x, front, tail);
    }
  }

  /** The last volume adds its match, if it is a BOOK, after those of the others. */
  lemma MatchesLast(search: string, items: seq<Volume>, ratio: Ratio, u: Unicode) returns (tail: seq<Match>)
    requires items != []
    ensures tail == if IsBook(items[|items| - 1]) then [MatchOf(search, items[|items| - 1], ratio, u)] else []
    ensures Matches(search, items, ratio, u) == Matches(search, items[..|items| - 1], ratio, u) + tail
  {
    tail := if IsBook(items[|items| - 1]) then [MatchOf(search, items[|items| - 1], ratio, u)] else [];
  }

  /** Python's `max(..., key=score)`: the first match of greatest score. */
  function BestIndex(ms: seq<Match>): (i: nat)
    requires ms != []
    ensures i < |ms|
    ensures forall j :: 0 <= j < |ms| ==> ms[j].score <= ms[i].score
    ensures forall j :: 0 <= j < i ==> ms[j].score < ms[i].score
    decreases |ms|
  {
    if |ms| == 1 then 0
    else
      var b := BestIndex(ms[..|ms| - 1]);
      if ms[|ms| - 1].score > ms[b].score then |ms| - 1 else b
  }

  const StrongMatch: real := 90.0
  const MediumMatch: real := 75.0

  /** The answer of one request: the attempt raised (a timeout, connection
      or HTTP error, undecodable JSON, or a body whose shape makes the
      matching code raise) or a body whose `items` may be missing. */
  datatype Response = RequestFailed | Body(items: Option<seq<Volume>>)

  /** What one attempt decides: return a URL (or None), or go on to the next attempt. */
  datatype Attempt = Done(url: Option<string>) | TryAgain

  /** The body of the attempt loop, lines 52-131. */
  function AttemptOutcome(search: string, resp: Response, ratio: Ratio, u: Unicode): Attempt
  {
    match resp
    case RequestFailed => TryAgain
    case Body(items) =>
      if items.None? || items.value == [] then Done(None)
      else
        var ms := Matches(search, items.value, ratio, u);
        if ms == [] then TryAgain
        else
          var best := ms[BestIndex(ms)];
          if best.score >= StrongMatch then Done(best.coverUrl)
          else if best.score >= MediumMatch then Done(best.coverUrl)
          else Done(None)
  }

  /** The attempts in order: the first one that decides gives the answer;
      None when none does. */
  function CoverLookup(search: string, responses: seq<Response>, ratio: Ratio, u: Unicode): Option<string>
    decreases |responses|
  {
    if responses == [] then None
    else match AttemptOutcome(search, responses[0], ratio, u)
      case Done(url) => url
      case TryAgain => CoverLookup(search, responses[1..], ratio, u)
  }

  /** An attempt returns a URL exactly when the body has items, some of
      them BOOK volumes, and the first best-scoring one scores at least 75
      and has a URL; the strong and the medium band return the same URL.
      A body without items ends the search with None; a body without BOOK
      volumes and a failed request move on to the next attempt. */
  lemma AttemptOutcomeSpec(search: string, resp: Response, ratio: Ratio, u: Unicode, url: string)
    ensures AttemptOutcome(search, resp, ratio, u) == Done(Some(url)) <==>
      && resp.Body? && resp.items.Some? && resp.items.value != []
      && var ms := Matches(search, resp.items.value, ratio, u);
         && ms != [] && ms[BestIndex(ms)].score >= MediumMatch && ms[BestIndex(ms)].coverUrl == Some(url)
    ensures resp.Body? && (resp.items.None? || resp.items.value == []) ==> AttemptOutcome(search, resp, ratio, u) == Done(None)
    ensures AttemptOutcome(search, resp, ratio, u) == TryAgain <==>
      resp.RequestFailed? || (resp.items.Some? && resp.items.value != [] && forall i :: 0 <= i < |resp.items.value| ==> !IsBook(resp.items.value[i]))
  {
    if resp.Body? && resp.items.Some? {
      MatchesSpec(search, resp.items.value, ratio, u);
    }
  }

  /** The lookup answers what the first deciding attempt answers, and
      None when every attempt asks for another. */
  lemma {:induction false} CoverLookupFirstDecision(search: string, responses: seq<Response>, ratio: Ratio, u: Unicode)
    ensures (forall k :: 0 <= k < |responses| ==> AttemptOutcome(search, responses[k], ratio, u) == TryAgain) ==>
      CoverLookup(search, responses, ratio, u) == None
    ensures forall k :: (0 <= k < |responses| && AttemptOutcome(search, responses[k], ratio, u).Done? &&
                         forall j :: 0 <= j < k ==> AttemptOutcome(search, responses[j], ratio, u) == TryAgain) ==>
      CoverLookup(search, responses, ratio, u) == AttemptOutcome(search, responses[k], ratio, u).url
    decreases |responses|
  {
    if responses != [] {
      CoverLookupFirstDecision(search, responses[1..], ratio, u);
      assert forall k :: 1 <= k < |responses| ==> responses[k] == responses[1..][k - 1];
    }
  }

  /** The matches of a body, built by the loop of lines 70-101. */
  method CollectMatches(search: string, items: seq<Volume>, ratio: Ratio, u: Unicode) returns (potentialMatches: seq<Match>)
    ensures potentialMatches == Matches(search, items, ratio, u)
  {
    potentialMatches := [];
    var k := 0;
    while k < |items|
      invariant 0 <= k <= |items|
      invariant potentialMatches == Matches(search, items[..k], ratio, u)
    {
      assert items[..k + 1][..k] == items[..k];
      var volume := items[k];
      if volume.printType == Some("BOOK") {
        var score := ScoreVolume(search, volume, ratio, u);
        potentialMatches := potentialMatches + [Match(score, CoverUrl(volume.imageLinks))];
      }
      k := k + 1;
    }
    assert items[..k] == items;
  }

  const DefaultRetries: nat := 5

  /** `get_book_cover_from_google_books`: at most `retries` attempts, the
      k-th answered by `responses[k]`. */
  method GetBookCover(title: Value, retries: nat, responses: seq<Response>, ratio: Ratio, u: Unicode)
    returns (url: Option<string>)
    requires retries <= |responses|
    ensures url == CoverLookup(NormalizeTitle(title, u), responses[..retries], ratio, u)
  {
    var search := NormalizeTitle(title, u);
    url := None;
    var attempt := 0;
    while attempt < retries
      invariant 0 <= attempt <= retries
      invariant CoverLookup(search, responses[..retries], ratio, u) == CoverLookup(search, responses[attempt..retries], ratio, u)
    {
      assert responses[attempt..retries][1..] == responses[attempt + 1..retries];
      var response := responses[attempt];
      assert responses[attempt..retries][0] == response;
      if response.Body? {
        if response.items.Some? && response.items.value != [] {
          var potentialMatches := CollectMatches(search, response.items.value, ratio, u);
          if potentialMatches != [] {
            var best := potentialMatches[BestIndex(potentialMatches)];
            if best.score >= StrongMatch {
              return best.coverUrl;
            } else if best.score >= MediumMatch {
              return best.coverUrl;
            } else {
              return None;
            }
          }
        } else {
          return None;
        }
      }
      attempt := attempt + 1;
    }
  }

  // ---------------------------------------------------------------------
  // Naming the cover file
  // ---------------------------------------------------------------------

  /** `\w`: ASCII letters, digits and '_', and beyond ASCII the characters
      an external Unicode table calls alphanumeric. */
  predicate IsWordChar(c: char, unicodeWord: char -> bool)
  {
    IsLetter(c) || IsDigit(c) || c == '_' || (!IsAscii(c) && unicodeWord(c))
  }

  predicate NameChar(c: char, unicodeWord: char -> bool)
  {
    IsWordChar(c, unicodeWord) || IsSpace(c) || c == '-'
  }

  /** `re.sub(r'[^\w\s-]', '', s)` */
  function KeepNameChars(s: string, unicodeWord: char -> bool): (r: string)
    ensures forall i :: 0 <= i < |r| ==> NameChar(r[i], unicodeWord)
    decreases |s|
  {
    if s == [] then []
    else (if NameChar(s[0], unicodeWord) then [s[0]] else []) + KeepNameChars(s[1..], unicodeWord)
  }

  const MaxStemLength: nat := 150

  /** `str(book_title)`: a string is itself, anything else goes through an
      external rendering. */
  function TitleText(title: Value, render: Value -> string): string
  {
    if title.Str? then title.s else render(title)
  }

  /** Lines 144-148: the title's word characters, spaces and hyphens,
      stripped, with whitespace runs turned into '_', cut to 150 characters. */
  function SafeTitle(title: string, unicodeWord: char -> bool): string
  {
    var s := ReplaceSpaceRuns(Strip(KeepNameChars(title, unicodeWord)), '_');
    if |s| > MaxStemLength then s[..MaxStemLength] else s
  }

  /** A file stem is at most 150 characters of word characters and hyphens:
      no whitespace and nothing a path could interpret. */
  lemma SafeTitleChars(title: string, unicodeWord: char -> bool)
    ensures |SafeTitle(title, unicodeWord)| <= MaxStemLength
    ensures forall i :: 0 <= i < |SafeTitle(title, unicodeWord)| ==>
      (IsWordChar(SafeTitle(title, unicodeWord)[i], unicodeWord) || SafeTitle(title, unicodeWord)[i] == '-')
      && !IsSpace(SafeTitle(title, unicodeWord)[i])
  {
    var stripped := Strip(KeepNameChars(title, unicodeWord));
    StrippedNameChars(title, unicodeWord);
    CollapsedStemChars(stripped, unicodeWord);
    var s := ReplaceSpaceRuns(stripped, '_');
    if |s| > MaxStemLength {
      assert forall i :: 0 <= i < MaxStemLength ==> s[..MaxStemLength][i] == s[i];
    }
  }

  /** A character a file stem may hold: a word character or a hyphen, never whitespace. */
  predicate StemChar(c: char, unicodeWord: char -> bool)
  {
    (IsWordChar(c, unicodeWord) || c == '-') && !IsSpace(c)
  }

  lemma StrippedNameChars(title: string, unicodeWord: char -> bool)
    ensures forall i :: 0 <= i < |Strip(KeepNameChars(title, unicodeWord))| ==>
      NameChar(Strip(KeepNameChars(title, unicodeWord))[i], unicodeWord)
  {
    var kept := KeepNameChars(title, unicodeWord);
    StripChars(kept);
    forall i | 0 <= i < |Strip(kept)| ensures NameChar(Strip(kept)[i], unicodeWord) {
      var j :| 0 <= j < |kept| && kept[j] == Strip(kept)[i];
    }
  }

  lemma CollapsedStemChars(stripped: string, unicodeWord: char -> bool)
    requires forall i :: 0 <= i < |stripped| ==> NameChar(stripped[i], unicodeWord)
    ensures forall i :: 0 <= i < |ReplaceSpaceRuns(stripped, '_')| ==>
      StemChar(ReplaceSpaceRuns(stripped, '_')[i], unicodeWord)
  {
    var p := (c: char) => IsWordChar(c, unicodeWord) || c == '-';
    assert forall i :: 0 <= i < |stripped| ==> IsSpace(stripped[i]) || p(stripped[i]);
    ReplaceSpaceRunsAlphabet(stripped, '_', p);
  }

  /** Index of the last `c` in `s`, -1 when there is none (`str.rfind`). */
  function RFind(s: string, c: char): (r: int)
    ensures -1 <= r < |s|
    ensures r >= 0 ==> s[r] == c
    ensures forall j :: r < j < |s| ==> s[j] != c
    decreases |s|
  {
    if s == [] then -1 else if s[|s| - 1] == c then |s| - 1 else RFind(s[..|s| - 1], c)
  }

  /** Number of dots `s` starts with. */
  function LeadingDots(s: string): (k: nat)
    ensures k <= |s|
    ensures forall i :: 0 <= i < k ==> s[i] == '.'
    ensures k < |s| ==> s[k] != '.'
    decreases |s|
  {
    if s != [] && s[0] == '.' then 1 + LeadingDots(s[1..]) else 0
  }

  /** The extension part of `os.path.splitext(p)` (POSIX separators): from
      the last dot of the last path component, provided that component has
      a character other than a dot before it; "" otherwise. */
  function SplitExt(p: string): string
  {
    var sepIndex := RFind(p, '/');
    var dotIndex := RFind(p, '.');
    if dotIndex > sepIndex && sepIndex + 1 + LeadingDots(p[sepIndex + 1..]) < dotIndex then p[dotIndex..] else ""
  }

  /** A non-empty extension is a suffix of the path that starts with its
      only dot and lies within the last path component. */
  lemma SplitExtSuffix(p: string)
    ensures var ext := SplitExt(p);
      ext == [] || (|ext| <= |p| && ext == p[|p| - |ext|..] && ext[0] == '.' &&
                    forall j :: 1 <= j < |ext| ==> ext[j] != '.' && ext[j] != '/')
  {
    var ext := SplitExt(p);
    if ext != [] {
      var sepIndex := RFind(p, '/');
      var dotIndex := RFind(p, '.');
      assert 0 <= dotIndex && ext == p[dotIndex..];
      AfterLastDot(p, dotIndex, sepIndex);
    }
  }

  lemma AfterLastDot(p: string, dotIndex: int, sepIndex: int)
    requires 0 <= dotIndex < |p| && -1 <= sepIndex < dotIndex
    requires forall j :: dotIndex < j < |p| ==> p[j] != '.'
    requires forall j :: sepIndex < j < |p| ==> p[j] != '/'
    ensures forall j :: 1 <= j < |p[dotIndex..]| ==> p[dotIndex..][j] != '.' && p[dotIndex..][j] != '/'
  {
    forall j | 1 <= j < |p[dotIndex..]| ensures p[dotIndex..][j] != '.' && p[dotIndex..][j] != '/' {
      assert p[dotIndex..][j] == p[dotIndex + j];
    }
  }

  const ImageExtensions: seq<string> := [".jpg", ".jpeg", ".png", ".gif"]

  /** Lines 150-152: the URL's extension (query string removed) when it is
      one of the image extensions in any letter case, else ".jpg". */
  function Extension(imageUrl: string): string
  {
    var ext := SplitExt(Split(imageUrl, '?')[0]);
    if ext == "" || |ext| > 5 || LowerAscii(ext) !in ImageExtensions then ".jpg" else ext
  }

  /** The extension is an image extension, up to letter case, and a valid
      extension of the URL's path is kept as written. */
  lemma ExtensionIsImage(imageUrl: string)
    ensures LowerAscii(Extension(imageUrl)) in ImageExtensions
    ensures 4 <= |Extension(imageUrl)| <= 5
    ensures var e := SplitExt(Split(imageUrl, '?')[0]);
      e != "" && |e| <= 5 && LowerAscii(e) in ImageExtensions ==> Extension(imageUrl) == e
  {
    var x := Extension(imageUrl);
    if x == ".jpg" {
      LowerJpg(x);
    } else {
      var l := LowerAscii(x);
      assert |l| == |x| && l in ImageExtensions;
      assert |ImageExtensions[0]| == |ImageExtensions[2]| == |ImageExtensions[3]| == 4;
      assert |ImageExtensions[1]| == 5;
    }
  }

  lemma LowerJpg(x: string)
    requires x == ".jpg"
    ensures LowerAscii(x) == x && x in ImageExtensions
  {
    var l := LowerAscii(x);
    forall i | 0 <= i < 4 ensures l[i] == x[i] {
      assert l[i] == LowerChar(x[i]);
    }
    assert ImageExtensions[0] == x;
  }

  /** The name tried after `k` collisions: `{stem}_{k}{ext}`. */
  function Suffixed(stem: string, k: nat, ext: string): string
  {
    stem + "_" + NatToString(k) + ext
  }

  lemma SuffixedInjective(stem: string, j: nat, k: nat, ext: string)
    requires Suffixed(stem, j, ext) == Suffixed(stem, k, ext)
    ensures j == k
  {
    var a := Suffixed(stem, j, ext);
    var b := Suffixed(stem, k, ext);
    assert |NatToString(j)| == |NatToString(k)|;
    var lo := |stem| + 1;
    var hi := lo + |NatToString(j)|;
    assert a[lo..hi] == NatToString(j);
    assert b[lo..hi] == NatToString(k);
    NatToStringInjective(j, k);
  }

  /** `name` is what the collision loop of lines 157-161 ends on: the plain
      name when it is free, else `{stem}_{k}{ext}` for the smallest k >= 1
      that is free. */
  ghost predicate FirstFreeName(name: string, stem: string, ext: string, existing: set<string>)
  {
    && name !in existing
    && (stem + ext !in existing ==> name == stem + ext)
    && (stem + ext in existing ==>
          exists k: nat :: 1 <= k && name == Suffixed(stem, k, ext) &&
            forall j: nat :: 1 <= j < k ==> Suffixed(stem, j, ext) in existing)
  }

  /** The k-th name the collision loop tries: the plain name, then the suffixed ones. */
  function Candidate(stem: string, ext: string, k: nat): string
  {
    if k == 0 then stem + ext else Suffixed(stem, k, ext)
  }

  lemma CandidateInjective(stem: string, ext: string, i: nat, j: nat)
    ensures Candidate(stem, ext, i) == Candidate(stem, ext, j) ==> i == j
  {
    if i != 0 && j != 0 {
      if Suffixed(stem, i, ext) == Suffixed(stem, j, ext) {
        SuffixedInjective(stem, i, j, ext);
      }
    } else if i != 0 || j != 0 {
      assert |Candidate(stem, ext, i)| != |Candidate(stem, ext, j)|;
    }
  }

  /** The names tried before the n-th one. */
  ghost function Tried(stem: string, ext: string, n: nat): set<string>
  {
    if n == 0 then {} else Tried(stem, ext, n - 1) + {Candidate(stem, ext, n - 1)}
  }

  lemma {:induction false} TriedFresh(stem: string, ext: string, n: nat, m: nat)
    requires n <= m
    ensures Candidate(stem, ext, m) !in Tried(stem, ext, n)
    ensures |Tried(stem, ext, n)| == n
  {
    if n > 0 {
      TriedFresh(stem, ext, n - 1, m);
      TriedFresh(stem, ext, n - 1, n - 1);
      CandidateInjective(stem, ext, m, n - 1);
    }
  }

  lemma {:induction false} TriedMembers(stem: string, ext: string, n: nat, i: nat)
    requires i < n
    ensures Candidate(stem, ext, i) in Tried(stem, ext, n)
  {
    if i < n - 1 {
      TriedMembers(stem, ext, n - 1, i);
    }
  }

  /** The collision loop of lines 154-161, over a finite set of existing names. */
  method ChooseFileName(stem: string, ext: string, existing: set<string>) returns (fileName: string)
    ensures FirstFreeName(fileName, stem, ext, existing)
  {
    fileName := stem + ext;
    var counter: nat := 1;
    while fileName in existing
      invariant counter >= 1
      invariant fileName == Candidate(stem, ext, counter - 1)
      invariant Tried(stem, ext, counter - 1) <= existing
      decreases |existing| - (counter - 1)
    {
      TriedFresh(stem, ext, counter - 1, counter - 1);
      TriedFresh(stem, ext, counter, counter);
      assert Tried(stem, ext, counter) <= existing;
      assert |Tried(stem, ext, counter)| <= |existing| by {
        SubsetSize(Tried(stem, ext, counter), existing);
      }
      fileName := Suffixed(stem, counter, ext);
      counter := counter + 1;
    }
    if counter > 1 {
      TriedMembers(stem, ext, counter - 1, 0);
      forall j: nat | 1 <= j < counter - 1 ensures Suffixed(stem, j, ext) in existing {
        TriedMembers(stem, ext, counter - 1, j);
      }
    }
  }

  lemma SubsetSize(a: set<string>, b: set<string>)
    requires a <= b
    ensures |a| <= |b|
  {
    assert b == a + (b - a);
  }

  /** `download_cover_image`: None for an empty URL or a failed download;
      otherwise the name of the new file, which collides with no existing one. */
  method DownloadCoverImage(imageUrl: string, bookTitle: Value, render: Value -> string, unicodeWord: char -> bool,
                            existing: set<string>, fetched: bool) returns (path: Option<string>)
    ensures path.Some? <==> imageUrl != "" && fetched
    ensures path.Some? ==>
      FirstFreeName(path.value, SafeTitle(TitleText(bookTitle, render), unicodeWord), Extension(imageUrl), existing)
  {
    if imageUrl == "" {
      return None;
    }
    var safeTitle := SafeTitle(TitleText(bookTitle, render), unicodeWord);
    var ext := Extension(imageUrl);
    var fileName := ChooseFileName(safeTitle, ext, existing);
    if fetched {
      path := Some(fileName);
    } else {
      path := None;
    }
  }

  predicate DistinctPaths(paths: seq<Option<string>>)
  {
    forall i, j :: 0 <= i < j < |paths| && paths[i].Some? && paths[j].Some? ==> paths[i].value != paths[j].value
  }

  /** A path that is new to `files` keeps the paths distinct when every earlier path is in `files`. */
  lemma DistinctPathsAppend(paths: seq<Option<string>>, p: Option<string>, files: set<string>)
    requires DistinctPaths(paths)
    requires forall i :: 0 <= i < |paths| && paths[i].Some? ==> paths[i].value in files
    requires p.Some? ==> p.value !in files
    ensures DistinctPaths(paths + [p])
  {
    var q := paths + [p];
    forall i, j | 0 <= i < j < |q| && q[i].Some? && q[j].Some? ensures q[i].value != q[j].value {
      assert q[i] == paths[i];
      if j < |paths| { assert q[j] == paths[j]; }
    }
  }

  /** The file names among the paths. */
  function PathsOf(paths: seq<Option<string>>): (r: set<string>)
    ensures forall i :: 0 <= i < |paths| && paths[i].Some? ==> paths[i].value in r
    ensures forall f :: f in r ==> exists i :: 0 <= i < |paths| && paths[i] == Some(f)
  {
    set i | 0 <= i < |paths| && paths[i].Some? :: paths[i].value
  }

  /** Appending a path adds its file name, if any, and nothing else. */
  lemma PathsOfAppend(paths: seq<Option<string>>, p: Option<string>)
    ensures PathsOf(paths + [p]) == PathsOf(paths) + (if p.Some? then {p.value} else {})
  {
    var q := paths + [p];
    forall f | f in PathsOf(q) ensures f in PathsOf(paths) + (if p.Some? then {p.value} else {}) {
      var i :| 0 <= i < |q| && q[i] == Some(f);
      if i < |paths| { assert q[i] == paths[i]; }
    }
    forall f | f in PathsOf(paths) ensures f in PathsOf(q) {
      var i :| 0 <= i < |paths| && paths[i] == Some(f);
      assert q[i] == paths[i];
    }
    if p.Some? {
      assert q[|paths|] == p;
    }
  }

  /** One pass of the loop of lines 184-194: the cover lookup, then a
      download when the URL is not empty. */
  method EnrichOne(title: Value, responses: seq<Response>, fetched: bool, files: set<string>,
                   ratio: Ratio, u: Unicode, render: Value -> string, unicodeWord: char -> bool)
    returns (coverUrl: Option<string>, localPath: Option<string>)
    requires DefaultRetries <= |responses|
    ensures coverUrl == CoverLookup(NormalizeTitle(title, u), responses[..DefaultRetries], ratio, u)
    ensures localPath.Some? <==> coverUrl.Some? && coverUrl.value != "" && fetched
    ensures localPath.Some? ==> localPath.value !in files
    ensures localPath.Some? ==>
      FirstFreeName(localPath.value, SafeTitle(TitleText(title, render), unicodeWord), Extension(coverUrl.value), files)
  {
    coverUrl := GetBookCover(title, DefaultRetries, responses, ratio, u);
    localPath := None;
    if coverUrl.Some? && coverUrl.value != "" {
      localPath := DownloadCoverImage(coverUrl.value, title, render, unicodeWord, files, fetched);
    }
  }

  /** `enrich_books_with_covers`: a lookup per title and a download for each
      non-empty URL; each downloaded file joins the existing names. No two
      books get the same file and no existing file is overwritten. */
  method EnrichBooksWithCovers(titles: seq<Value>, responses: seq<seq<Response>>, fetched: seq<bool>,
                               existing: set<string>, ratio: Ratio, u: Unicode,
                               render: Value -> string, unicodeWord: char -> bool)
    returns (coverUrls: seq<Option<string>>, coverLocalPaths: seq<Option<string>>)
    requires |responses| == |titles| && |fetched| == |titles|
    requires forall i :: 0 <= i < |titles| ==> DefaultRetries <= |responses[i]|
    ensures |coverUrls| == |titles| && |coverLocalPaths| == |titles|
    ensures forall i :: 0 <= i < |titles| ==>
      coverUrls[i] == CoverLookup(NormalizeTitle(titles[i], u), responses[i][..DefaultRetries], ratio, u)
    ensures forall i :: 0 <= i < |titles| ==>
      (coverLocalPaths[i].Some? <==> coverUrls[i].Some? && coverUrls[i].value != "" && fetched[i])
    ensures forall i :: 0 <= i < |titles| && coverLocalPaths[i].Some? ==> coverLocalPaths[i].value !in existing
    ensures DistinctPaths(coverLocalPaths)
    ensures forall i :: 0 <= i < |titles| && coverLocalPaths[i].Some? ==>
      FirstFreeName(coverLocalPaths[i].value, SafeTitle(TitleText(titles[i], render), unicodeWord),
                    Extension(coverUrls[i].value), existing + PathsOf(coverLocalPaths[..i]))
  {
    coverUrls := [];
    coverLocalPaths := [];
    var files := existing;
    var k := 0;
    while k < |titles|
      invariant 0 <= k <= |titles|
      invariant |coverUrls| == k && |coverLocalPaths| == k
      invariant existing <= files
      invariant forall i :: 0 <= i < k ==>
        coverUrls[i] == CoverLookup(NormalizeTitle(titles[i], u), responses[i][..DefaultRetries], ratio, u)
      invariant forall i :: 0 <= i < k ==>
        (coverLocalPaths[i].Some? <==> coverUrls[i].Some? && coverUrls[i].value != "" && fetched[i])
      invariant forall i :: 0 <= i < k && coverLocalPaths[i].Some? ==>
        coverLocalPaths[i].value !in existing && coverLocalPaths[i].value in files
      invariant DistinctPaths(coverLocalPaths)
      invariant files == existing + PathsOf(coverLocalPaths)
      invariant forall i :: 0 <= i < k && coverLocalPaths[i].Some? ==>
        FirstFreeName(coverLocalPaths[i].value, SafeTitle(TitleText(titles[i], render), unicodeWord),
                      Extension(coverUrls[i].value), existing + PathsOf(coverLocalPaths[..i]))
    {
      var coverApiUrl, localCoverPath := EnrichOne(titles[k], responses[k], fetched[k], files, ratio, u, render, unicodeWord);
      DistinctPathsAppend(coverLocalPaths, localCoverPath, files);
      PathsOfAppend(coverLocalPaths, localCoverPath);
      EnrichStep(coverUrls, coverLocalPaths, titles, existing, coverApiUrl, localCoverPath, render, unicodeWord);
      if localCoverPath.Some? {
        files := files + {localCoverPath.value};
      }
      coverUrls := coverUrls + [coverApiUrl];
      coverLocalPaths := coverLocalPaths + [localCoverPath];
      k := k + 1;
    }
  }

  /** The naming invariant of the enrichment loop survives one more book. */
  lemma EnrichStep(urls: seq<Option<string>>, paths: seq<Option<string>>, titles: seq<Value>, existing: set<string>,
                   url: Option<string>, path: Option<string>, render: Value -> string, unicodeWord: char -> bool)
    requires |urls| == |paths| < |titles|
    requires forall i :: 0 <= i < |paths| && paths[i].Some? ==>
      && urls[i].Some?
      && FirstFreeName(paths[i].value, SafeTitle(TitleText(titles[i], render), unicodeWord),
                       Extension(urls[i].value), existing + PathsOf(paths[..i]))
    requires path.Some? ==>
      && url.Some?
      && FirstFreeName(path.value, SafeTitle(TitleText(titles[|paths|], render), unicodeWord),
                       Extension(url.value), existing + PathsOf(paths))
    ensures var ps := paths + [path]; var us := urls + [url];
      forall i :: 0 <= i < |ps| && ps[i].Some? ==>
        && us[i].Some?
        && FirstFreeName(ps[i].value, SafeTitle(TitleText(titles[i], render), unicodeWord),
                         Extension(us[i].value), existing + PathsOf(ps[..i]))
  {
    var ps := paths + [path];
    var us := urls + [url];
    forall i | 0 <= i < |ps| && ps[i].Some?
      ensures us[i].Some? && FirstFreeName(ps[i].value, SafeTitle(TitleText(titles[i], render), unicodeWord),
                                         Extension(us[i].value), existing + PathsOf(ps[..i]))
    {
      if i < |paths| {
        assert ps[..i] == paths[..i];
        assert ps[i] == paths[i] && us[i] == urls[i];
      } else {
        assert ps[..i] == paths;
      }
    }
  }
}
