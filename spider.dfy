/** The scraper's parsing rules (book_scraper/book_scraper/spiders/book_spider.py):
    which links of the index page are followed, and how a summary page
    becomes an item. CSS/XPath evaluation is not modelled: a page is given
    by the values those selectors yield. */
module Scraper {
  import opened Common
  import opened Text

  const SitePrefix: string := "https://fourminutebooks.com/"
  const SummarySuffix: string := "-summary/"

  predicate IsSummaryLink(link: string)
  {
    StartsWith(link, SitePrefix) && EndsWith(link, SummarySuffix)
  }

  /** `parse`: the links of the index page that are book summaries are
      gathered in a set and each is requested, in the set's (unspecified)
      order. The result is the sequence of requested URLs. */
  method Parse(links: seq<string>) returns (requests: seq<string>)
    ensures forall l :: l in requests <==> l in links && IsSummaryLink(l)
    ensures forall i, j :: 0 <= i < j < |requests| ==> requests[i] != requests[j]
  {
    var filteredLinks := set l | l in links && IsSummaryLink(l);
    requests := [];
    var remaining := filteredLinks;
    while remaining != {}
      invariant remaining <= filteredLinks
      invariant forall l :: l in requests <==> l in filteredLinks && l !in remaining
      invariant forall i, j :: 0 <= i < j < |requests| ==> requests[i] != requests[j]
      decreases |remaining|
    {
      var link :| link in remaining;
      requests := requests + [link];
      remaining := remaining - {link};
    }
  }

  /** An element following the `su-note` div: its `align` attribute,
      whether it is the `formkit-background` div, and its text nodes. */
  datatype Element = Element(align: Option<string>, isFormkitBackground: bool, texts: seq<string>)

  /** A summary page: its URL, the first `h1` text node (if any) and the
      elements following the `su-note` div. */
  datatype Page = Page(url: string, h1: Option<string>, afterNote: seq<Element>)

  /** A scraped item has exactly these three fields. */
  datatype Item = Item(title: string, url: string, content: string)

  /** Line 19 after the `h1` text: strip, drop one trailing " Summary", strip. */
  function Title(h1: string): string
  {
    Strip(RemoveSuffix(Strip(h1), " Summary"))
  }

  /** A heading "<name> Summary" gives back the name, for any trimmed
      non-empty name; only one " Summary" is removed. */
  lemma TitleOfHeading(name: string)
    requires name != [] && Trimmed(name)
    ensures Title(name + " Summary") == name
  {
    var h := name + " Summary";
    assert h[|h| - 1] == 'y';
    StripUnchanged(h);
    assert EndsWith(h, " Summary") by { assert h[|h| - |" Summary"|..] == " Summary"; }
    assert RemoveSuffix(h, " Summary") == name;
    StripUnchanged(name);
  }

  /** A heading that does not end in " Summary" once stripped is only stripped. */
  lemma TitleWithoutSuffix(h1: string)
    requires !EndsWith(Strip(h1), " Summary")
    ensures Title(h1) == Strip(h1)
  {
    StripUnchanged(Strip(h1));
  }

  /** Line 23: the index of the first element aligned "center", or the
      number of elements when there is none. */
  function EndIndex(elements: seq<Element>): (k: nat)
    ensures k <= |elements|
    ensures forall i :: 0 <= i < k ==> elements[i].align != Some("center")
    ensures k < |elements| ==> elements[k].align == Some("center")
    decreases |elements|
  {
    if elements == [] || elements[0].align == Some("center") then 0
    else
      var k := EndIndex(elements[1..]);
      assert forall i :: 1 <= i < k + 1 ==> elements[i] == elements[1..][i - 1];
      1 + k
  }

  /** Line 27: formkit-background divs and elements without text nodes are skipped. */
  predicate Kept(el: Element)
  {
    !el.isFormkitBackground && el.texts != []
  }

  /** Line 25: an element's text nodes, concatenated and stripped. */
  function Part(el: Element): string
  {
    Strip(Join("", el.texts))
  }

  function Parts(window: seq<Element>): seq<string>
    decreases |window|
  {
    if window == [] then []
    else (if Kept(window[0]) then [Part(window[0])] else []) + Parts(window[1..])
  }

  /** Lines 22-28: the parts of the kept elements before the first centered
      one, joined with newlines. */
  function Content(elements: seq<Element>): string
  {
    Join("\n", Parts(elements[..EndIndex(elements)]))
  }

  /** `parse_book`: None when the page has no `h1` text (the callback raises
      on `None.strip()` and yields nothing). */
  function ParseBook(page: Page): (item: Option<Item>)
  {
    match page.h1
    case None => None
    case Some(h1) => Some(Item(Title(h1), page.url, Content(page.afterNote)))
  }

  /** Every part comes from a kept element of the window and every kept
      element contributes its part; there are no more parts than elements. */
  lemma {:induction false} PartsSpec(window: seq<Element>)
    ensures |Parts(window)| <= |window|
    ensures forall p :: p in Parts(window) ==> exists i :: 0 <= i < |window| && Kept(window[i]) && p == Part(window[i])
    ensures forall i :: 0 <= i < |window| && Kept(window[i]) ==> Part(window[i]) in Parts(window)
    ensures Parts(window) == [] <==> forall i :: 0 <= i < |window| ==> !Kept(window[i])
    decreases |window|
  {
    if window != [] {
      PartsSpec(window[1..]);
      assert forall i :: 1 <= i < |window| ==> window[i] == window[1..][i - 1];
    }
  }

  lemma {:induction false} PartsAppend(a: seq<Element>, b: seq<Element>)
    ensures Parts(a + b) == Parts(a) + Parts(b)
    decreases |a|
  {
    if a == [] {
      assert a + b == b;
    } else {
      assert (a + b)[1..] == a[1..] + b;
      PartsAppend(a[1..], b);
    }
  }

  /** Nothing after the first centered element reaches the content: the
      window ends there. */
  lemma ContentStopsAtCenter(elements: seq<Element>, rest: seq<Element>)
    requires EndIndex(elements) < |elements|
    ensures Content(elements + rest) == Content(elements)
  {
    EndIndexPrefix(elements, rest);
    assert (elements + rest)[..EndIndex(elements)] == elements[..EndIndex(elements)];
  }

  lemma {:induction false} EndIndexPrefix(a: seq<Element>, b: seq<Element>)
    requires EndIndex(a) < |a|
    ensures EndIndex(a + b) == EndIndex(a)
    decreases |a|
  {
    if a[0].align != Some("center") {
      assert (a + b)[1..] == a[1..] + b;
      EndIndexPrefix(a[1..], b);
    }
  }

  /** Elements that are skipped do not change the content, wherever they are
      in the window. */
  lemma SkippedElementInvisible(before: seq<Element>, el: Element, after: seq<Element>)
    requires !Kept(el) && el.align != Some("center")
    requires EndIndex(before) == |before|
    ensures Content(before + [el] + after) == Content(before + after)
  {
    var tail := after[..EndIndex(after)];
    WindowOf(before + [el], after);
    WindowOf(before, after);
    SkippedPart(before, el, tail);
  }

  /** The window of `a + b` when `a` holds no centered element. */
  lemma WindowOf(a: seq<Element>, b: seq<Element>)
    requires EndIndex(a) == |a|
    ensures (a + b)[..EndIndex(a + b)] == a + b[..EndIndex(b)]
  {
    EndIndexAppend(a, b);
  }

  lemma SkippedPart(before: seq<Element>, el: Element, tail: seq<Element>)
    requires !Kept(el)
    ensures Parts(before + [el] + tail) == Parts(before + tail)
  {
    PartsAppend(before + [el], tail);
    PartsAppend(before, [el]);
    PartsAppend(before, tail);
    assert Parts([el]) == [] by { assert [el][1..] == []; }
  }

  lemma {:induction false} EndIndexAppend(a: seq<Element>, b: seq<Element>)
    requires EndIndex(a) == |a|
    ensures EndIndex(a + b) == |a| + EndIndex(b)
    decreases |a|
  {
    if a == [] {
      assert a + b == b;
    } else {
      assert (a + b)[1..] == a[1..] + b;
      assert EndIndex(a[1..]) == |a| - 1;
      EndIndexAppend(a[1..], b);
    }
  }

  /** Splitting the content at newlines gives back the parts when no part
      holds a newline: the join loses nothing. */
  lemma ContentSplitsIntoParts(elements: seq<Element>)
    requires Parts(elements[..EndIndex(elements)]) != []
    requires forall p :: p in Parts(elements[..EndIndex(elements)]) ==> '\n' !in p
    ensures Split(Content(elements), '\n') == Parts(elements[..EndIndex(elements)])
  {
    var parts := Parts(elements[..EndIndex(elements)]);
    assert forall i :: 0 <= i < |parts| ==> '\n' !in parts[i] by {
      forall i | 0 <= i < |parts| ensures '\n' !in parts[i] { assert parts[i] in parts; }
    }
    SplitJoin(parts, '\n');
  }

  /** An item is produced exactly when the page has an `h1` text; its URL is
      the page's and its title is trimmed. */
  lemma ParseBookSpec(page: Page)
    ensures ParseBook(page).Some? <==> page.h1.Some?
    ensures ParseBook(page).Some? ==>
      ParseBook(page).value.url == page.url && Trimmed(ParseBook(page).value.title)
  {
  }
}
