/**
 * The text handling of the search-and-scrape overview builder (research_agent/test.py):
 * the post-processing of the search result links, the clean-up of the scraped page
 * text, the four cleaners and their composition into the company overview.
 * The search request and the page fetches are inputs: the links the search returned,
 * and a function giving what fetching each URL produced.
 */
module Scrape {
  import opened Strings

  // ---------------------------------------------------------------------------
  // search_google: the top links, with the first Wikipedia link inserted in front

  const MaxLinks := 5
  const WikipediaDomain := "wikipedia.org"

  predicate IsWikipedia(link: string)
  {
    Contains(link, WikipediaDomain)
  }

  /** The index of the first Wikipedia link, or |links| when there is none. */
  function FirstWikipedia(links: seq<string>): (k: nat)
    ensures k <= |links|
    ensures k < |links| ==> IsWikipedia(links[k])
    ensures forall j :: 0 <= j < k ==> !IsWikipedia(links[j])
  {
    if links == [] then 0
    else if IsWikipedia(links[0]) then 0
    else 1 + FirstWikipedia(links[1..])
  }

  /**
   * The links `search_google` returns, given the links of the items the search API gave.
   * At most five are kept; when one of them is a Wikipedia link, the first such link is
   * inserted in front, so it then appears twice and the top five follow unchanged.
   */
  function PrioritizedLinks(items: seq<string>): (links: seq<string>)
    ensures var top := items[..Min(|items|, MaxLinks)];
      && |links| <= MaxLinks + 1
      && ((forall i :: 0 <= i < |top| ==> !IsWikipedia(top[i])) ==> links == top)
      && ((exists i :: 0 <= i < |top| && IsWikipedia(top[i])) ==>
            && |links| == |top| + 1 && links[1..] == top
            && exists k :: 0 <= k < |top| && links[0] == top[k] && IsWikipedia(top[k])
                 && forall j :: 0 <= j < k ==> !IsWikipedia(top[j]))
  {
    var top := items[..Min(|items|, MaxLinks)];
    var k := FirstWikipedia(top);
    if k < |top| then [top[k]] + top else top
  }

  /** `search_google` after the request: the slice, the `next(...)` scan and `links.insert(0, ...)`. */
  method SearchGoogleLinks(items: seq<string>) returns (links: seq<string>)
    ensures links == PrioritizedLinks(items)
  {
    links := items[..Min(|items|, MaxLinks)];
    var k := 0;
    while k < |links| && !IsWikipedia(links[k])
      invariant 0 <= k <= |links|
      invariant forall j :: 0 <= j < k ==> !IsWikipedia(links[j])
    {
      k := k + 1;
    }
    assert k == FirstWikipedia(links) by {
      FirstWikipediaUnique(links, k);
    }
    if k < |links| {
      links := [links[k]] + links;
    }
  }

  lemma FirstWikipediaUnique(links: seq<string>, k: nat)
    requires k <= |links|
    requires k < |links| ==> IsWikipedia(links[k])
    requires forall j :: 0 <= j < k ==> !IsWikipedia(links[j])
    ensures k == FirstWikipedia(links)
  {
  }

  // ---------------------------------------------------------------------------
  // extract_text_from_url, after the fetch and the HTML parsing

  const UnwantedPhrases: seq<string> := [
    "Read more", "Learn more", "Click here", "Subscribe", "Sign up",
    "Follow us", "Contact us", "Get started", "All rights reserved"
  ]
  const ScrapeCap := 1500
  const NoRelevantContent := "No relevant content found."
  const ExtractionErrorPrefix := "Error extracting content: "

  /** What fetching one URL gave: the texts of its paragraph elements, or the exception's text. */
  datatype Page = Paragraphs(texts: seq<string>) | FetchFailed(error: string)

  predicate NonEmptyPhrases(phrases: seq<string>)
  {
    forall i :: 0 <= i < |phrases| ==> phrases[i] != ""
  }

  /**
   * Each phrase removed in turn with one `str.replace(phrase, "")`. The text never
   * grows, and a text holding none of the phrases is left as it is.
   */
  function RemovePhrases(text: string, phrases: seq<string>): (r: string)
    requires NonEmptyPhrases(phrases)
    ensures |r| <= |text|
    ensures (forall i :: 0 <= i < |phrases| ==> !Contains(text, phrases[i])) ==> r == text
    decreases |phrases|
  {
    if phrases == [] then text else RemovePhrases(Remove(text, phrases[0]), phrases[1..])
  }

  /**
   * The text `extract_text_from_url` returns. A page that was fetched gives a non-empty
   * text of at most 1500 characters: the placeholder when nothing is left once the
   * boilerplate is removed, and otherwise the first 1500 characters of what is left.
   */
  function ScrapedText(page: Page): (r: string)
    ensures match page
      case FetchFailed(e) => r == ExtractionErrorPrefix + e
      case Paragraphs(texts) =>
        var t := RemovePhrases(Join(texts, " "), UnwantedPhrases);
        && 0 < |r| <= ScrapeCap
        && (t == "" ==> r == NoRelevantContent)
        && (t != "" ==> |r| == Min(|t|, ScrapeCap) && r == t[..|r|])
  {
    match page
    case FetchFailed(e) => ExtractionErrorPrefix + e
    case Paragraphs(texts) =>
      UnwantedPhrasesNonEmpty();
      var t := RemovePhrases(Join(texts, " "), UnwantedPhrases);
      if t == "" then NoRelevantContent else t[..Min(|t|, ScrapeCap)]
  }

  lemma UnwantedPhrasesNonEmpty()
    ensures NonEmptyPhrases(UnwantedPhrases)
  {
  }

  /** The `for phrase in ...: text = text.replace(phrase, "")` loop. */
  method RemoveEachPhrase(text: string, phrases: seq<string>) returns (r: string)
    requires NonEmptyPhrases(phrases)
    ensures r == RemovePhrases(text, phrases)
  {
    r := text;
    for k := 0 to |phrases|
      invariant RemovePhrases(text, phrases) == RemovePhrases(r, phrases[k..])
    {
      assert phrases[k..][1..] == phrases[k + 1..];
      r := Remove(r, phrases[k]);
    }
  }

  /** `extract_text_from_url` after the fetch: the boilerplate removal and the cap. */
  method ExtractText(page: Page) returns (r: string)
    ensures r == ScrapedText(page)
  {
    match page {
      case FetchFailed(e) =>
        r := ExtractionErrorPrefix + e;
      case Paragraphs(texts) =>
        UnwantedPhrasesNonEmpty();
        var text := RemoveEachPhrase(Join(texts, " "), UnwantedPhrases);
        var n := if |text| <= ScrapeCap then |text| else ScrapeCap;
        if text == "" {
          r := NoRelevantContent;
        } else {
          r := text[..n];
        }
    }
  }

  // ---------------------------------------------------------------------------
  // remove_duplicates

  const SentenceBreak := ". "

  /** The index of the first occurrence of x in xs. */
  function FirstIndex(xs: seq<string>, x: string): (k: nat)
    requires x in xs
    ensures k < |xs| && xs[k] == x && x !in xs[..k]
    ensures forall j :: 0 <= j < k ==> xs[j] != x
  {
    if xs[0] == x then 0
    else
      var k := 1 + FirstIndex(xs[1..], x);
      assert xs[..k] == [xs[0]] + xs[1..][..k - 1];
      k
  }

  /**
   * `list(dict.fromkeys(xs))`: each distinct element once, at its first occurrence.
   * It keeps every element of xs and no other, and repeats none.
   */
  function Dedupe(xs: seq<string>): (r: seq<string>)
    ensures forall x :: x in r <==> x in xs
    ensures forall i, j :: 0 <= i < j < |r| ==> r[i] != r[j]
    ensures |r| <= |xs|
    decreases |xs|
  {
    if xs == [] then []
    else
      var init := xs[..|xs| - 1];
      var last := xs[|xs| - 1];
      assert xs == init + [last];
      var d := Dedupe(init);
      if last in d then d else d + [last]
  }

  lemma FirstIndexInPrefix(init: seq<string>, y: string, x: string)
    requires x in init
    ensures FirstIndex(init + [y], x) == FirstIndex(init, x)
  {
    var xs := init + [y];
    assert forall i :: 0 <= i < |init| ==> xs[i] == init[i];
  }

  /** The elements `dict.fromkeys` keeps stand in the order of their first occurrences. */
  lemma {:induction false} DedupeKeepsFirstOccurrenceOrder(xs: seq<string>, i: nat, j: nat)
    requires i < j < |Dedupe(xs)|
    ensures FirstIndex(xs, Dedupe(xs)[i]) < FirstIndex(xs, Dedupe(xs)[j])
    decreases |xs|
  {
    var init := xs[..|xs| - 1];
    var last := xs[|xs| - 1];
    assert xs == init + [last];
    var d := Dedupe(init);
    var r := Dedupe(xs);
    if j < |d| {
      assert r[i] == d[i] && r[j] == d[j];
      DedupeKeepsFirstOccurrenceOrder(init, i, j);
      FirstIndexInPrefix(init, last, d[i]);
      FirstIndexInPrefix(init, last, d[j]);
    } else {
      assert last !in d && r == d + [last] && r[j] == last;
      assert last !in init;
      FirstIndexInPrefix(init, last, d[i]);
      assert FirstIndex(xs, last) == |init| by {
        assert xs[|init|] == last && last !in xs[..|init|];
      }
    }
  }

  /** Dropping repeated pieces never lengthens their join. */
  lemma {:induction false} JoinDedupeShorter(xs: seq<string>, sep: string)
    ensures |Join(Dedupe(xs), sep)| <= |Join(xs, sep)|
    decreases |xs|
  {
    if xs != [] {
      var init := xs[..|xs| - 1];
      var last := xs[|xs| - 1];
      assert xs == init + [last];
      var d := Dedupe(init);
      JoinDedupeShorter(init, sep);
      if init != [] {
        JoinSnoc(init, last, sep);
        assert d != [];
        if last !in d {
          JoinSnoc(d, last, sep);
        }
      } else {
        assert xs == [last];
      }
    }
  }

  /** The sentences `remove_duplicates` splits its whitespace-normalised input into. */
  function Sentences(text: string): seq<string>
  {
    Split(CollapseSpaces(text), SentenceBreak)
  }

  /**
   * `remove_duplicates`: whitespace runs collapsed to one space, split at ". ", each
   * distinct sentence kept once at its first occurrence, joined again with ". ".
   * The result is never longer than the input.
   */
  function RemoveDuplicates(text: string): (r: string)
    ensures |r| <= |text|
  {
    var pieces := Sentences(text);
    JoinSplit(CollapseSpaces(text), SentenceBreak);
    JoinDedupeShorter(pieces, SentenceBreak);
    Join(Dedupe(pieces), SentenceBreak)
  }

  /**
   * The sentences of the result are exactly the distinct sentences of the input, each
   * once, standing in the order of their first occurrences.
   */
  lemma SentencesOfRemoveDuplicates(text: string)
    ensures Split(RemoveDuplicates(text), SentenceBreak) == Dedupe(Sentences(text))
    ensures forall x :: x in Split(RemoveDuplicates(text), SentenceBreak) <==> x in Sentences(text)
  {
    var pieces := Sentences(text);
    var d := Dedupe(pieces);
    SplitPiecesFree(CollapseSpaces(text), SentenceBreak);
    DedupeFree(pieces, SentenceBreak);
    SentenceBreakNoSelfOverlap();
    assert d != [] by {
      assert pieces[0] in d;
    }
    SplitJoin(d, SentenceBreak);
  }

  /** What Dedupe keeps is free of p when every element was. */
  lemma DedupeFree(xs: seq<string>, p: string)
    requires forall i :: 0 <= i < |xs| ==> !Contains(xs[i], p)
    ensures forall i :: 0 <= i < |Dedupe(xs)| ==> !Contains(Dedupe(xs)[i], p)
  {
    var d := Dedupe(xs);
    forall i | 0 <= i < |d|
      ensures !Contains(d[i], p)
    {
      assert d[i] in xs;
    }
  }

  lemma SentenceBreakNoSelfOverlap()
    ensures NoSelfOverlap(SentenceBreak)
  {
    assert SentenceBreak[1..][0] != SentenceBreak[..1][0];
  }

  // ---------------------------------------------------------------------------
  // truncate_text

  const DefaultLimit := 3000

  /**
   * `truncate_text(text, limit)`: the text itself when it fits; otherwise a prefix of at
   * most `limit` characters that ends at the "." of the last ". " inside the first
   * `limit` characters, or exactly those `limit` characters when there is no ". ".
   */
  function TruncateText(text: string, limit: nat): (r: string)
    ensures |text| <= limit ==> r == text
    ensures |text| > limit ==> |r| <= limit && r == text[..|r|]
    ensures |text| > limit && Contains(text[..limit], SentenceBreak) ==>
      && 0 < |r|
      && OccursAt(text[..limit], SentenceBreak, |r| - 1)
      && forall j :: |r| - 1 < j ==> !OccursAt(text[..limit], SentenceBreak, j)
    ensures |text| > limit && !Contains(text[..limit], SentenceBreak) ==> r == text[..limit]
  {
    if |text| <= limit then text
    else
      var i := RFind(text[..limit], SentenceBreak);
      if i != -1 then text[..i + 1] else text[..limit]
  }

  // ---------------------------------------------------------------------------
  // clean_text

  /** A citation marker, what `\[\d+\]` matches: "[", one or more digits, "]". */
  predicate IsCitation(m: string)
  {
    |m| >= 3 && m[0] == '[' && m[|m| - 1] == ']' && forall i :: 1 <= i < |m| - 1 ==> IsDigit(m[i])
  }

  function DigitRun(s: string): (n: nat)
    ensures n <= |s| && (forall i :: 0 <= i < n ==> IsDigit(s[i])) && (n == |s| || !IsDigit(s[n]))
  {
    if s == "" || !IsDigit(s[0]) then 0 else 1 + DigitRun(s[1..])
  }

  /**
   * The length of the citation marker s starts with, or 0 when it starts with none.
   * At most one length can match, as the digits cannot include the closing "]".
   */
  function CitationAt(s: string): (n: nat)
    ensures n <= |s|
    ensures n > 0 ==> IsCitation(s[..n])
    ensures n == 0 ==> forall k :: 0 < k <= |s| ==> !IsCitation(s[..k])
  {
    if s != "" && s[0] == '[' then
      var d := DigitRun(s[1..]);
      if d > 0 && 1 + d < |s| && s[1 + d] == ']' then
        assert forall i :: 0 <= i < d ==> s[..d + 2][i + 1] == s[1..][i];
        d + 2
      else
        assert forall k :: 0 < k <= |s| && IsCitation(s[..k]) ==> s[..k][d + 1] == s[1..][d] && k - 2 == d by {
          forall k | 0 < k <= |s| && IsCitation(s[..k])
            ensures s[..k][d + 1] == s[1..][d] && k - 2 == d
          {
            CitationDigits(s, k, d);
          }
        }
        0
    else 0
  }

  lemma CitationDigits(s: string, k: nat, d: nat)
    requires 0 < k <= |s| && IsCitation(s[..k]) && s != ""
    requires d <= |s| - 1 && (forall i :: 0 <= i < d ==> IsDigit(s[1..][i])) && (d == |s| - 1 || !IsDigit(s[1..][d]))
    ensures k - 2 == d && d + 1 < |s| && s[..k][d + 1] == s[1..][d]
  {
    var m := s[..k];
    assert forall i :: 0 <= i < k ==> m[i] == s[i];
    assert forall i :: 0 <= i < |s| - 1 ==> s[1..][i] == s[i + 1];
  }

  /**
   * `re.sub(r"\[\d+\]", "", text)`: one left-to-right pass that deletes each citation
   * marker where the scan finds one. The text never grows, and a text without "[" is
   * returned as it is.
   */
  function CleanText(text: string): (r: string)
    ensures |r| <= |text|
    ensures (forall i :: 0 <= i < |text| ==> text[i] != '[') ==> r == text
    decreases |text|
  {
    if text == "" then ""
    else
      var n := CitationAt(text);
      if n > 0 then CleanText(text[n..]) else [text[0]] + CleanText(text[1..])
  }

  /** A text in which the scan finds no citation marker at any position is unchanged. */
  lemma {:induction false} CleanTextWithoutCitations(text: string)
    requires forall i :: 0 <= i < |text| ==> CitationAt(text[i..]) == 0
    ensures CleanText(text) == text
    decreases |text|
  {
    if text != "" {
      assert CitationAt(text[0..]) == 0 && text[0..] == text;
      forall i | 0 <= i < |text| - 1
        ensures CitationAt(text[1..][i..]) == 0
      {
        assert text[1..][i..] == text[i + 1..];
      }
      CleanTextWithoutCitations(text[1..]);
    }
  }

  /** A citation marker at the front is deleted and the scan resumes right after it. */
  lemma CleanTextDeletesMarker(digits: string, rest: string)
    requires digits != "" && forall i :: 0 <= i < |digits| ==> IsDigit(digits[i])
    ensures CleanText("[" + digits + "]" + rest) == CleanText(rest)
  {
    var s := "[" + digits + "]" + rest;
    var m := "[" + digits + "]";
    assert s[..|m|] == m;
    assert IsCitation(m);
    var n := CitationAt(s);
    assert n > 0;
    CitationLengthUnique(s, n, |m|);
    assert s[|m|..] == rest;
  }

  lemma CitationLengthUnique(s: string, a: nat, b: nat)
    requires 0 < a <= |s| && 0 < b <= |s|
    requires IsCitation(s[..a]) && IsCitation(s[..b])
    ensures a == b
  {
    assert forall i :: 0 <= i < a ==> s[..a][i] == s[i];
    assert forall i :: 0 <= i < b ==> s[..b][i] == s[i];
  }

  // ---------------------------------------------------------------------------
  // clean_irrelevant_content

  const StopPhrases: seq<string> := [
    "Newsletter", "Privacy Policy", "Terms of Service", "Sign In", "Founder first", "Start your day"
  ]

  lemma StopPhrasesNonEmpty()
    ensures NonEmptyPhrases(StopPhrases)
  {
  }

  lemma NoneInPrefix(s: string, p: string, k: nat)
    requires k <= |s| && !Contains(s, p)
    ensures !Contains(s[..k], p)
  {
    if Contains(s[..k], p) {
      ContainsShift(s, s[..k], 0, p);
    }
  }

  /** `text.split(phrase)[0]`: the prefix before the first occurrence of the phrase. */
  function CutAt(text: string, phrase: string): (r: string)
    requires phrase != ""
    ensures |r| <= |text| && r == text[..|r|]
    ensures !Contains(r, phrase)
    ensures !Contains(text, phrase) ==> r == text
    ensures Contains(text, phrase) ==> |r| == Find(text, phrase) && OccursAt(text, phrase, |r|)
  {
    SplitPiecesFree(text, phrase);
    if Contains(text, phrase) then
      SplitAtFind(text, phrase, Find(text, phrase));
      Split(text, phrase)[0]
    else
      Split(text, phrase)[0]
  }

  /**
   * The cuts at each phrase in turn: a prefix of the text containing none of the phrases,
   * either the whole text or ending where one of the phrases occurs in the text.
   */
  function CutAll(text: string, phrases: seq<string>): (r: string)
    requires NonEmptyPhrases(phrases)
    ensures |r| <= |text| && r == text[..|r|]
    ensures forall i :: 0 <= i < |phrases| ==> !Contains(r, phrases[i])
    ensures |r| == |text| || exists i :: 0 <= i < |phrases| && OccursAt(text, phrases[i], |r|)
    ensures (forall i :: 0 <= i < |phrases| ==> !Contains(text, phrases[i])) ==> r == text
    decreases |phrases|
  {
    if phrases == [] then text
    else
      var c := CutAt(text, phrases[0]);
      var r := CutAll(c, phrases[1..]);
      assert r == c[..|r|];
      NoneInPrefix(c, phrases[0], |r|);
      assert forall i :: 1 <= i < |phrases| ==> phrases[i] == phrases[1..][i - 1];
      CutPoint(text, c, r, phrases);
      r
  }

  /**
   * A cut of c, a cut of the text at its first phrase, ends where one of the phrases occurs
   * in the text, or at the text's end.
   */
  lemma CutPoint(text: string, c: string, r: string, phrases: seq<string>)
    requires phrases != [] && |r| <= |c| <= |text| && c == text[..|c|]
    requires |c| == |text| || OccursAt(text, phrases[0], |c|)
    requires |r| == |c| || exists i :: 0 <= i < |phrases[1..]| && OccursAt(c, phrases[1..][i], |r|)
    ensures |r| == |text| || exists i :: 0 <= i < |phrases| && OccursAt(text, phrases[i], |r|)
  {
    if |r| == |c| {
      if |c| < |text| {
        assert OccursAt(text, phrases[0], |r|);
      }
    } else {
      var i :| 0 <= i < |phrases[1..]| && OccursAt(c, phrases[1..][i], |r|);
      assert phrases[1..][i] == phrases[i + 1];
      assert forall k :: 0 <= k < |c| ==> c[k] == text[k];
      assert OccursAt(text, phrases[i + 1], |r|);
    }
  }

  /**
   * The text `clean_irrelevant_content` returns: a stripped prefix of the input in which
   * none of the six stop phrases occurs, cut either at the end of the text or where a stop
   * phrase occurs in it; a text without stop phrases is only stripped.
   */
  function IrrelevantCut(text: string): (r: string)
    ensures IsStripped(r)
    ensures forall i :: 0 <= i < |StopPhrases| ==> !Contains(r, StopPhrases[i])
    ensures exists k :: (0 <= k <= |text| && r == Strip(text[..k])
      && (k == |text| || exists i :: 0 <= i < |StopPhrases| && OccursAt(text, StopPhrases[i], k)))
    ensures (forall i :: 0 <= i < |StopPhrases| ==> !Contains(text, StopPhrases[i])) ==> r == Strip(text)
  {
    StopPhrasesNonEmpty();
    var c := CutAll(text, StopPhrases);
    var r := Strip(c);
    forall i | 0 <= i < |StopPhrases|
      ensures !Contains(r, StopPhrases[i])
    {
      if Contains(r, StopPhrases[i]) {
        StripContains(c, StopPhrases[i]);
      }
    }
    r
  }

  /** Cleaning twice gives what cleaning once gives. */
  lemma IrrelevantCutIdempotent(text: string)
    ensures IrrelevantCut(IrrelevantCut(text)) == IrrelevantCut(text)
  {
    var r := IrrelevantCut(text);
    StopPhrasesNonEmpty();
    StripStripped(r);
  }

  /** `clean_irrelevant_content`: the `for phrase in stop_phrases` loop, then `strip()`. */
  method CleanIrrelevantContent(text: string) returns (r: string)
    ensures r == IrrelevantCut(text)
  {
    StopPhrasesNonEmpty();
    r := CutEachPhrase(text, StopPhrases);
    r := Strip(r);
  }

  /** The `for phrase in ...: text = text.split(phrase)[0]` loop. */
  method CutEachPhrase(text: string, phrases: seq<string>) returns (r: string)
    requires NonEmptyPhrases(phrases)
    ensures r == CutAll(text, phrases)
  {
    r := text;
    for k := 0 to |phrases|
      invariant CutAll(text, phrases) == CutAll(r, phrases[k..])
    {
      assert phrases[k..][1..] == phrases[k + 1..];
      r := Split(r, phrases[k])[0];
    }
  }

  // ---------------------------------------------------------------------------
  // get_company_info

  /** The scraped texts of the links, in order. */
  function ScrapeAll(links: seq<string>, fetch: string -> Page): (texts: seq<string>)
    ensures |texts| == |links|
    ensures forall i :: 0 <= i < |links| ==> texts[i] == ScrapedText(fetch(links[i]))
  {
    seq(|links|, i requires 0 <= i < |links| => ScrapedText(fetch(links[i])))
  }

  /**
   * The overview text `get_company_info` returns for the links the search gave and what
   * each fetch produced: the scraped texts joined with spaces, cut at the stop phrases,
   * truncated to the default limit and freed of repeated sentences. It never exceeds
   * 3000 characters.
   */
  function CompanyInfo(items: seq<string>, fetch: string -> Page): (r: string)
    ensures |r| <= DefaultLimit
  {
    var texts := ScrapeAll(PrioritizedLinks(items), fetch);
    RemoveDuplicates(TruncateText(IrrelevantCut(Join(texts, " ")), DefaultLimit))
  }

  /** `get_company_info`: scrape each link in turn, then clean the combined text. */
  method GetCompanyInfo(items: seq<string>, fetch: string -> Page) returns (info: string)
    ensures info == CompanyInfo(items, fetch)
    ensures |info| <= DefaultLimit
  {
    var links := SearchGoogleLinks(items);
    var texts := ScrapeEach(links, fetch);
    var cleaned := CleanIrrelevantContent(Join(texts, " "));
    info := RemoveDuplicates(TruncateText(cleaned, DefaultLimit));
  }

  /** The `for link in links` loop of `get_company_info`, one extraction per link. */
  method ScrapeEach(links: seq<string>, fetch: string -> Page) returns (texts: seq<string>)
    ensures texts == ScrapeAll(links, fetch)
  {
    texts := [];
    for k := 0 to |links|
      invariant |texts| == k
      invariant forall i :: 0 <= i < k ==> texts[i] == ScrapedText(fetch(links[i]))
    {
      var t := ExtractText(fetch(links[k]));
      texts := texts + [t];
    }
  }
}
