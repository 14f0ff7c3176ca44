/**
 * The deterministic part of the industry research step (research_agent/research.py):
 * the greedy word chunker, the summary fallback, the shaping of search results into
 * the raw record, and the combined summary with its short-text caveats.
 * The search request and the model requests are inputs: the search response as a value,
 * the environment keys as optional strings and the model as a function of the prompt.
 */
module Research {
  import opened Wrappers
  import opened Strings

  /** Python truthiness of an environment variable: set and non-empty. */
  predicate Truthy(s: Option<string>)
  {
    s.Some? && s.value != ""
  }

  // ---------------------------------------------------------------------------
  // chunk_text

  const DefaultChunkLength := 1500

  /** Words as `split()` yields them: non-empty and free of whitespace. */
  predicate IsWordList(words: seq<string>)
  {
    forall i :: 0 <= i < |words| ==> words[i] != "" && NoSpace(words[i])
  }

  /**
   * The condition under which the chunker terminates: every word leaves room for the
   * separating space. A word with |w| + 1 > max is never taken, the inner loop adds
   * nothing and the outer loop runs forever (see OversizedWordStalls).
   */
  predicate WordsFit(words: seq<string>, max: int)
  {
    forall i :: 0 <= i < |words| ==> |words[i]| + 1 <= max
  }

  /** Appending a word to a chunk adds the word and, after the first word, one space. */
  lemma JoinSnocLength(chunk: seq<string>, w: string)
    ensures |Join(chunk + [w], " ")| == if chunk == [] then |w| else |Join(chunk, " ")| + 1 + |w|
  {
    if chunk == [] {
      assert chunk + [w] == [w];
    } else {
      JoinSnoc(chunk, w, " ");
    }
  }

  /**
   * The inner `while` loop of `chunk_text`: words are moved from the front of `words` to
   * the end of `chunk` while `len(" ".join(chunk)) + len(words[0]) + 1 <= max`.
   * The chunk grows by a prefix of the words and the rest of the words is left.
   */
  function Fill(chunk: seq<string>, words: seq<string>, max: int): (r: (seq<string>, seq<string>))
    ensures r.0 + r.1 == chunk + words
    ensures |chunk| <= |r.0| && r.0[..|chunk|] == chunk
    decreases |words|
  {
    if words != [] && |Join(chunk, " ")| + |words[0]| + 1 <= max then
      var r := Fill(chunk + [words[0]], words[1..], max);
      assert chunk + words == (chunk + [words[0]]) + words[1..] by {
        assert words == [words[0]] + words[1..];
        AppendAssoc(chunk, [words[0]], words[1..]);
      }
      assert r.0[..|chunk|] == r.0[..|chunk| + 1][..|chunk|];
      assert (chunk + [words[0]])[..|chunk|] == chunk;
      r
    else
      (chunk, words)
  }

  /** A chunk whose join is within max stays within max. */
  lemma {:induction false} FillWithin(chunk: seq<string>, words: seq<string>, max: int)
    requires |Join(chunk, " ")| <= max
    ensures |Join(Fill(chunk, words, max).0, " ")| <= max
    decreases |words|
  {
    if words != [] && |Join(chunk, " ")| + |words[0]| + 1 <= max {
      JoinSnocLength(chunk, words[0]);
      FillWithin(chunk + [words[0]], words[1..], max);
    }
  }

  /** The inner loop stops only when no word is left or the next one does not fit. */
  lemma {:induction false} FillGreedy(chunk: seq<string>, words: seq<string>, max: int)
    ensures var r := Fill(chunk, words, max);
      r.1 == [] || |Join(r.0, " ")| + |r.1[0]| + 1 > max
    decreases |words|
  {
    if words != [] && |Join(chunk, " ")| + |words[0]| + 1 <= max {
      FillGreedy(chunk + [words[0]], words[1..], max);
    }
  }

  /** A first word that fits is taken, so a round starting from an empty chunk is never empty. */
  lemma FillTakesFirst(words: seq<string>, max: int)
    requires words != [] && |words[0]| + 1 <= max
    ensures Fill([], words, max).0 != []
  {
    assert |Join([], " ")| == 0;
  }

  /**
   * The outer `while` loop of `chunk_text` on a word list: one chunk per round, the
   * words of the chunk joined with single spaces. Each chunk is non-empty and at most
   * max characters long, and there are chunks exactly when there are words.
   */
  function Pack(words: seq<string>, max: int): (r: seq<string>)
    requires IsWordList(words) && WordsFit(words, max)
    ensures r == [] <==> words == []
    ensures forall i :: 0 <= i < |r| ==> r[i] != "" && |r[i]| <= max
    decreases |words|
  {
    if words == [] then []
    else
      var f := Fill([], words, max);
      FillTakesFirst(words, max);
      FillWithin([], words, max);
      JoinStartsWithFirst(f.0, " ");
      assert [] + words == words;
      SplitWordList(words, f.0, f.1, max);
      [Join(f.0, " ")] + Pack(f.1, max)
  }

  /** Both parts of a word list cut in two are word lists whose words fit. */
  lemma SplitWordList(words: seq<string>, front: seq<string>, rest: seq<string>, max: int)
    requires words == front + rest && IsWordList(words) && WordsFit(words, max)
    ensures IsWordList(front) && WordsFit(front, max)
    ensures IsWordList(rest) && WordsFit(rest, max)
  {
    assert forall i :: 0 <= i < |front| ==> front[i] == words[i];
    assert forall i :: 0 <= i < |rest| ==> rest[i] == words[|front| + i];
  }

  /** `chunk_text(text, max_length)`, defined when every word of the text fits. */
  function Chunks(text: string, max: int): (r: seq<string>)
    requires WordsFit(Words(text), max)
  {
    Pack(Words(text), max)
  }

  /** `chunk_text`: `text.split()`, then the packing loops. */
  method ChunkText(text: string, maxLength: int) returns (chunks: seq<string>)
    requires WordsFit(Words(text), maxLength)
    ensures chunks == Chunks(text, maxLength)
  {
    var words := Words(text);
    chunks := PackWords(words, maxLength);
  }

  /** The outer loop of `chunk_text`: one chunk per round until no word is left. */
  method PackWords(words0: seq<string>, maxLength: int) returns (chunks: seq<string>)
    requires IsWordList(words0) && WordsFit(words0, maxLength)
    ensures chunks == Pack(words0, maxLength)
  {
    var words := words0;
    chunks := [];
    while words != []
      invariant IsWordList(words) && WordsFit(words, maxLength)
      invariant chunks + Pack(words, maxLength) == Pack(words0, maxLength)
      decreases |words|
    {
      ghost var start := words;
      var chunk;
      chunk, words := FillChunk(words, maxLength);
      PackStep(chunks, start, chunk, words, maxLength);
      chunks := chunks + [Join(chunk, " ")];
    }
  }

  /** One round of the outer loop emits the first chunk of the packing and leaves the rest. */
  lemma PackStep(chunks: seq<string>, start: seq<string>, chunk: seq<string>, words: seq<string>, max: int)
    requires start != [] && IsWordList(start) && WordsFit(start, max)
    requires (chunk, words) == Fill([], start, max)
    ensures |words| < |start| && IsWordList(words) && WordsFit(words, max)
    ensures chunks + Pack(start, max) == (chunks + [Join(chunk, " ")]) + Pack(words, max)
  {
    assert [] + start == start;
    FillTakesFirst(start, max);
    SplitWordList(start, chunk, words, max);
    assert Pack(start, max) == [Join(chunk, " ")] + Pack(words, max);
    AppendAssoc(chunks, [Join(chunk, " ")], Pack(words, max));
  }

  /** The inner loop of `chunk_text`: `chunk.append(words.pop(0))` while the next word fits. */
  method FillChunk(words0: seq<string>, maxLength: int) returns (chunk: seq<string>, words: seq<string>)
    ensures (chunk, words) == Fill([], words0, maxLength)
  {
    words := words0;
    chunk := [];
    while words != [] && |Join(chunk, " ")| + |words[0]| + 1 <= maxLength
      invariant Fill(chunk, words, maxLength) == Fill([], words0, maxLength)
      decreases |words|
    {
      chunk := chunk + [words[0]];
      words := words[1..];
    }
  }

  /** The words of each chunk, in order of the chunks. */
  function WordsOfChunks(chunks: seq<string>): seq<string>
  {
    if chunks == [] then [] else Words(chunks[0]) + WordsOfChunks(chunks[1..])
  }

  /** No word is split or lost: the chunks' words, in order, are the words packed. */
  lemma {:induction false} PackKeepsWords(words: seq<string>, max: int)
    requires IsWordList(words) && WordsFit(words, max)
    ensures WordsOfChunks(Pack(words, max)) == words
    decreases |words|
  {
    if words != [] {
      var f := Fill([], words, max);
      var c := f.0;
      var rest := f.1;
      assert [] + words == words;
      SplitWordList(words, c, rest, max);
      WordsOfJoin(c);
      PackKeepsWords(rest, max);
      var r := Pack(words, max);
      assert r[1..] == Pack(rest, max);
    }
  }

  /** The chunks of a text hold exactly the words of `text.split()`, in order. */
  lemma ChunksKeepWords(text: string, max: int)
    requires WordsFit(Words(text), max)
    ensures WordsOfChunks(Chunks(text, max)) == Words(text)
  {
    PackKeepsWords(Words(text), max);
  }

  /** Every chunk is non-empty and at most max characters long. */
  lemma ChunksBounded(text: string, max: int)
    requires WordsFit(Words(text), max)
    ensures forall i :: 0 <= i < |Chunks(text, max)| ==> 0 < |Chunks(text, max)[i]| <= max
  {
  }

  /** An empty or all-whitespace text gives no chunks. */
  lemma BlankTextNoChunks(text: string, max: int)
    requires WordsFit(Words(text), max)
    ensures AllSpace(text) ==> Chunks(text, max) == []
  {
    WordsBlank(text);
  }

  /** Any other text gives at least one chunk. */
  lemma NoChunksOnlyForBlankText(text: string, max: int)
    requires WordsFit(Words(text), max)
    ensures Chunks(text, max) == [] ==> AllSpace(text)
  {
    WordsBlank(text);
  }

  /**
   * A first word with no room for its space is never taken: the inner loop returns the
   * empty chunk and every word, so the outer loop repeats the same round forever.
   */
  lemma OversizedWordStalls(words: seq<string>, max: int)
    requires words != [] && |words[0]| + 1 > max
    ensures Fill([], words, max) == ([], words)
  {
  }

  /** Every word the inner loop moves onto the chunk has room for its space. */
  lemma {:induction false} FillTakesFitting(chunk: seq<string>, words: seq<string>, max: int)
    ensures forall i :: |chunk| <= i < |Fill(chunk, words, max).0| ==> |Fill(chunk, words, max).0[i]| + 1 <= max
    decreases |words|
  {
    if words != [] && |Join(chunk, " ")| + |words[0]| + 1 <= max {
      var r := Fill(chunk + [words[0]], words[1..], max);
      assert Fill(chunk, words, max) == r;
      FillTakesFitting(chunk + [words[0]], words[1..], max);
      assert r.0[|chunk|] == words[0] by {
        assert r.0[..|chunk| + 1] == chunk + [words[0]];
        assert r.0[..|chunk| + 1][|chunk|] == r.0[|chunk|];
      }
      forall i | |chunk| <= i < |r.0|
        ensures |r.0[i]| + 1 <= max
      {
        if i > |chunk| {
          assert |chunk + [words[0]]| <= i;
        } else {
          assert r.0[i] == words[0];
          assert |Join(chunk, " ")| >= 0;
        }
      }
    }
  }

  /**
   * The words still to be chunked after n rounds of the outer loop of `chunk_text`, for
   * any words: each round leaves what the inner loop did not take.
   */
  function Remaining(words: seq<string>, max: int, n: nat): seq<string>
    decreases n
  {
    if n == 0 || words == [] then words else Remaining(Fill([], words, max).1, max, n - 1)
  }

  /** A word with no room for its space, wherever it stands, is left by a round of the outer loop. */
  lemma OversizedWordLeft(words: seq<string>, max: int, k: nat) returns (k2: nat)
    requires k < |words| && |words[k]| + 1 > max
    ensures var r := Fill([], words, max);
      k2 < |r.1| && r.1[k2] == words[k]
  {
    var r := Fill([], words, max);
    FillTakesFitting([], words, max);
    assert r.0 + r.1 == words;
    assert (r.0 + r.1)[k] == words[k];
    assert |r.0| <= k;
    k2 := k - |r.0|;
    assert r.1[k2] == (r.0 + r.1)[k];
  }

  /**
   * With a word that has no room for its space anywhere among them, the words are never
   * used up: after any number of rounds of the outer loop that word is still left, so
   * `while words` never ends.
   */
  lemma {:induction false} OversizedWordLoopsForever(words: seq<string>, max: int, k: nat, n: nat)
    requires k < |words| && |words[k]| + 1 > max
    ensures words[k] in Remaining(words, max, n)
    ensures Remaining(words, max, n) != []
    decreases n
  {
    if n > 0 {
      var k2 := OversizedWordLeft(words, max, k);
      OversizedWordLoopsForever(Fill([], words, max).1, max, k2, n - 1);
    }
  }

  // ---------------------------------------------------------------------------
  // query_forefront and summarize_with_forefront

  const NoSummary := "No summary available."
  const ForefrontKeyMissing := "FOREFRONT_API_KEY environment variable is not set."
  const SummaryPreamble :=
    "You are an expert in market research. "
    + "Summarize the following information clearly and concisely without repetition or redundancy:\n\n"

  /** The prompt `summarize_with_forefront` sends for a text. */
  function SummaryPrompt(text: string): (p: string)
    ensures |p| == |SummaryPreamble| + |text|
    ensures p[..|SummaryPreamble|] == SummaryPreamble && p[|SummaryPreamble|..] == text
  {
    SummaryPreamble + text
  }

  /**
   * The response text used as a summary: the model's reply when it is a non-empty
   * string, and "No summary available." when the request gave `None` or "".
   */
  function SummaryOrFallback(reply: Option<string>): (r: string)
    ensures Truthy(reply) ==> r == reply.value
    ensures !Truthy(reply) ==> r == NoSummary
    ensures r != ""
  {
    if reply.Some? && reply.value != "" then reply.value else NoSummary
  }

  /**
   * `query_forefront` given the reply the request produced (`None` when the request
   * failed or the reply had no content): it raises before any request when the
   * Forefront key is missing, and otherwise returns the reply.
   */
  function QueryForefront(forefrontKey: Option<string>, reply: Option<string>): (r: Result<Option<string>, Error>)
    ensures !Truthy(forefrontKey) <==> r.Failure?
    ensures r.Failure? ==> r.error == ValueError(ForefrontKeyMissing)
    ensures r.Success? ==> r.value == reply
  {
    if !Truthy(forefrontKey) then Failure(ValueError(ForefrontKeyMissing)) else Success(reply)
  }

  /**
   * `summarize_with_forefront(text)`: the query for the prompt of the text, with the
   * fallback applied to its reply.
   */
  function Summarize(forefrontKey: Option<string>, model: string -> Option<string>, text: string): (r: Result<string, Error>)
    ensures !Truthy(forefrontKey) <==> r == Failure(ValueError(ForefrontKeyMissing))
    ensures r.Success? ==> r.value == SummaryOrFallback(model(SummaryPrompt(text)))
  {
    match QueryForefront(forefrontKey, model(SummaryPrompt(text)))
    case Failure(e) => Failure(e)
    case Success(reply) => Success(SummaryOrFallback(reply))
  }

  /** The summaries of the chunks in order, or the first error raised. */
  function SummarizeAll(forefrontKey: Option<string>, model: string -> Option<string>, chunks: seq<string>): Result<seq<string>, Error>
    decreases |chunks|
  {
    if chunks == [] then Success([])
    else
      match SummarizeAll(forefrontKey, model, chunks[..|chunks| - 1])
      case Failure(e) => Failure(e)
      case Success(xs) =>
        match Summarize(forefrontKey, model, chunks[|chunks| - 1])
        case Failure(e) => Failure(e)
        case Success(x) => Success(xs + [x])
  }

  /**
   * Summarising a list of chunks fails exactly when there is a chunk and no Forefront
   * key; otherwise it gives one summary per chunk, each the fallback of the model's reply.
   */
  lemma {:induction false} SummarizeAllSpec(forefrontKey: Option<string>, model: string -> Option<string>, chunks: seq<string>)
    ensures var r := SummarizeAll(forefrontKey, model, chunks);
      && (r.Failure? <==> chunks != [] && !Truthy(forefrontKey))
      && (r.Failure? ==> r.error == ValueError(ForefrontKeyMissing))
      && (r.Success? ==>
            && |r.value| == |chunks|
            && forall i :: 0 <= i < |chunks| ==> r.value[i] == SummaryOrFallback(model(SummaryPrompt(chunks[i]))))
    decreases |chunks|
  {
    if chunks != [] {
      var init := chunks[..|chunks| - 1];
      SummarizeAllSpec(forefrontKey, model, init);
      assert forall i :: 0 <= i < |init| ==> chunks[i] == init[i];
    }
  }

  // ---------------------------------------------------------------------------
  // research_industry, after the request

  const SerpKeyMissing := "SERPAPI_API_KEY environment variable is not set."
  const NoData := "No data found"
  const NoTrends := "No trends found"
  const NoCompanyInfo := "No company info available"
  const NoSnippet := "No snippet"
  const MaxTrends := 3

  /** One organic search result; `snippet` is absent when the result has no such key. */
  datatype OrganicResult = OrganicResult(snippet: Option<string>)

  /** What the search request gave: an exception, or the `organic_results` list (empty when missing). */
  datatype SearchResponse = RequestFailed | Organic(results: seq<OrganicResult>)

  /** `industry_trends` is the string "No trends found" when there is no data, a list of snippets otherwise. */
  datatype Trends = TrendsMessage(message: string) | TrendSnippets(snippets: seq<string>)

  /** The dictionary `research_industry` returns. */
  datatype IndustryRecord = IndustryRecord(companyInfo: string, industryTrends: Trends)

  /** `result.get("snippet", default)`. */
  function SnippetOr(result: OrganicResult, default: string): string
  {
    if result.snippet.Some? then result.snippet.value else default
  }

  /**
   * `research_industry` once the request is done. A missing key raises; a failed
   * request or an empty result list gives the no-data record; otherwise the company
   * info is the first result's snippet and the trends are the snippets of the first
   * three results, in order.
   */
  function ResearchIndustry(serpKey: Option<string>, response: SearchResponse): (r: Result<IndustryRecord, Error>)
    ensures !Truthy(serpKey) <==> r == Failure(ValueError(SerpKeyMissing))
    ensures Truthy(serpKey) && (response.RequestFailed? || response.results == []) ==>
      r == Success(IndustryRecord(NoData, TrendsMessage(NoTrends)))
    ensures Truthy(serpKey) && response.Organic? && response.results != [] ==>
      && r.Success?
      && r.value.companyInfo == SnippetOr(response.results[0], NoCompanyInfo)
      && r.value.industryTrends.TrendSnippets?
      && |r.value.industryTrends.snippets| == Min(|response.results|, MaxTrends)
      && forall i :: 0 <= i < |r.value.industryTrends.snippets| ==>
           r.value.industryTrends.snippets[i] == SnippetOr(response.results[i], NoSnippet)
  {
    if !Truthy(serpKey) then Failure(ValueError(SerpKeyMissing))
    else if response.RequestFailed? || response.results == [] then
      Success(IndustryRecord(NoData, TrendsMessage(NoTrends)))
    else
      var results := response.results;
      var top := results[..Min(|results|, MaxTrends)];
      Success(IndustryRecord(
        SnippetOr(results[0], NoCompanyInfo),
        TrendSnippets(seq(|top|, i requires 0 <= i < |top| => SnippetOr(top[i], NoSnippet)))))
  }

  // ---------------------------------------------------------------------------
  // research_industry_with_summary

  const CaveatThreshold := 50
  const InfoCaveat := " (Info may be limited; please verify sources.)"
  const TrendsCaveat := " (Trends may be incomplete; please verify sources.)"

  /** The characters of s, each as a one-character string (iterating over a `str`). */
  function Characters(s: string): (r: seq<string>)
    ensures |r| == |s| && forall i :: 0 <= i < |s| ==> r[i] == [s[i]]
  {
    seq(|s|, i requires 0 <= i < |s| => [s[i]])
  }

  /**
   * `" ".join(raw_data["industry_trends"])`: the snippets joined with spaces, or, when
   * the trends are the "No trends found" string, its characters joined with spaces.
   */
  function CombinedTrends(trends: Trends): string
  {
    match trends
    case TrendSnippets(xs) => Join(xs, " ")
    case TrendsMessage(m) => Join(Characters(m), " ")
  }

  /** Joining the characters of a string spaces them out: character i lands at 2i, a space between. */
  lemma {:induction false} SpacedCharacters(s: string)
    requires s != ""
    ensures var r := Join(Characters(s), " ");
      && |r| == 2 * |s| - 1
      && (forall i :: 0 <= i < |s| ==> r[2 * i] == s[i])
      && (forall i :: 0 <= i < |s| - 1 ==> r[2 * i + 1] == ' ')
    decreases |s|
  {
    if |s| > 1 {
      SpacedCharacters(s[1..]);
      assert Characters(s)[1..] == Characters(s[1..]);
      var t := Join(Characters(s[1..]), " ");
      assert Join(Characters(s), " ") == [s[0]] + " " + t;
      forall i | 1 <= i < |s|
        ensures Join(Characters(s), " ")[2 * i] == s[i]
      {
        assert t[2 * (i - 1)] == s[1..][i - 1];
      }
      forall i | 1 <= i < |s| - 1
        ensures Join(Characters(s), " ")[2 * i + 1] == ' '
      {
        assert t[2 * (i - 1) + 1] == ' ';
      }
    }
  }

  /** A text long enough to stand alone, or one that ends in the caveat. */
  predicate Caveated(text: string, caveat: string)
  {
    |text| >= CaveatThreshold || (|caveat| <= |text| && text[|text| - |caveat|..] == caveat)
  }

  /**
   * The caveat rule: a summary shorter than 50 characters gets the caveat appended,
   * a longer one is left as it is.
   */
  function WithCaveat(summary: string, caveat: string): (r: string)
    requires caveat != ""
    ensures |summary| <= |r| && r[..|summary|] == summary
    ensures r == summary <==> |summary| >= CaveatThreshold
    ensures |summary| < CaveatThreshold ==> r[|summary|..] == caveat
    ensures Caveated(r, caveat)
  {
    if |summary| < CaveatThreshold then summary + caveat else summary
  }

  /** The dictionary `research_industry_with_summary` returns. */
  datatype IndustrySummary = IndustrySummary(companyInfo: string, industryTrends: string)

  /** The raw record can be chunked: the loops of `chunk_text` terminate on both texts. */
  predicate Summarizable(raw: IndustryRecord)
  {
    && WordsFit(Words(raw.companyInfo), DefaultChunkLength)
    && WordsFit(Words(CombinedTrends(raw.industryTrends)), DefaultChunkLength)
  }

  /**
   * `research_industry_with_summary`: the raw record, each of its two texts cut into
   * chunks and each chunk summarised, the summaries joined with spaces and stripped,
   * then the caveat rule applied to each.
   */
  function ResearchSummary(serpKey: Option<string>, response: SearchResponse,
                           forefrontKey: Option<string>, model: string -> Option<string>): Result<IndustrySummary, Error>
    requires ResearchIndustry(serpKey, response).Success? ==> Summarizable(ResearchIndustry(serpKey, response).value)
  {
    match ResearchIndustry(serpKey, response)
    case Failure(e) => Failure(e)
    case Success(raw) => SummarizedRecord(forefrontKey, model, raw)
  }

  /** The summary of a raw record: both texts summarised, then the caveat rule on each. */
  function SummarizedRecord(forefrontKey: Option<string>, model: string -> Option<string>, raw: IndustryRecord): Result<IndustrySummary, Error>
    requires Summarizable(raw)
  {
    match SummarizedText(forefrontKey, model, raw.companyInfo)
    case Failure(e) => Failure(e)
    case Success(info) =>
      match SummarizedText(forefrontKey, model, CombinedTrends(raw.industryTrends))
      case Failure(e) => Failure(e)
      case Success(trends) =>
        Success(IndustrySummary(WithCaveat(info, InfoCaveat), WithCaveat(trends, TrendsCaveat)))
  }

  /** One text chunked, each chunk summarised, the summaries joined with spaces and stripped. */
  function SummarizedText(forefrontKey: Option<string>, model: string -> Option<string>, text: string): Result<string, Error>
    requires WordsFit(Words(text), DefaultChunkLength)
  {
    match SummarizeAll(forefrontKey, model, Chunks(text, DefaultChunkLength))
    case Failure(e) => Failure(e)
    case Success(xs) => Success(Strip(Join(xs, " ")))
  }

  /**
   * The combined research fails only for a missing key: the search key always, the
   * Forefront key when there is something to summarise. A successful result has each
   * text either at least 50 characters long or ending in its caveat.
   */
  lemma ResearchSummaryOutcome(serpKey: Option<string>, response: SearchResponse,
                               forefrontKey: Option<string>, model: string -> Option<string>)
    requires ResearchIndustry(serpKey, response).Success? ==> Summarizable(ResearchIndustry(serpKey, response).value)
    ensures var r := ResearchSummary(serpKey, response, forefrontKey, model);
      && (!Truthy(serpKey) ==> r == Failure(ValueError(SerpKeyMissing)))
      && (Truthy(serpKey) && Truthy(forefrontKey) ==> r.Success?)
      && (r.Failure? ==> r.error == ValueError(SerpKeyMissing) || r.error == ValueError(ForefrontKeyMissing))
      && (r.Success? ==>
            && Caveated(r.value.companyInfo, InfoCaveat)
            && Caveated(r.value.industryTrends, TrendsCaveat))
  {
    var raw := ResearchIndustry(serpKey, response);
    if raw.Success? {
      SummarizeAllSpec(forefrontKey, model, Chunks(raw.value.companyInfo, DefaultChunkLength));
      SummarizeAllSpec(forefrontKey, model, Chunks(CombinedTrends(raw.value.industryTrends), DefaultChunkLength));
    }
  }

  /** The summary loop over one list of chunks, appending each summary in turn. */
  method SummarizeChunks(forefrontKey: Option<string>, model: string -> Option<string>, chunks: seq<string>)
    returns (r: Result<seq<string>, Error>)
    ensures r == SummarizeAll(forefrontKey, model, chunks)
  {
    var summaries := [];
    for k := 0 to |chunks|
      invariant SummarizeAll(forefrontKey, model, chunks[..k]) == Success(summaries)
    {
      assert chunks[..k + 1][..k] == chunks[..k];
      var s := Summarize(forefrontKey, model, chunks[k]);
      if s.Failure? {
        r := Failure(s.error);
        PrefixFailure(forefrontKey, model, chunks, k + 1);
        return;
      }
      summaries := summaries + [s.value];
    }
    assert chunks[..|chunks|] == chunks;
    r := Success(summaries);
  }

  /** Chunk one text, summarise each chunk in turn, join the summaries and strip. */
  method SummarizeText(forefrontKey: Option<string>, model: string -> Option<string>, text: string)
    returns (r: Result<string, Error>)
    requires WordsFit(Words(text), DefaultChunkLength)
    ensures r == SummarizedText(forefrontKey, model, text)
  {
    var chunks := ChunkText(text, DefaultChunkLength);
    var summaries := SummarizeChunks(forefrontKey, model, chunks);
    if summaries.Failure? {
      return Failure(summaries.error);
    }
    r := Success(Strip(Join(summaries.value, " ")));
  }

  /** Once a prefix of the chunks fails, the whole list fails with the same error. */
  lemma {:induction false} PrefixFailure(forefrontKey: Option<string>, model: string -> Option<string>, chunks: seq<string>, k: nat)
    requires k <= |chunks| && SummarizeAll(forefrontKey, model, chunks[..k]).Failure?
    ensures SummarizeAll(forefrontKey, model, chunks) == SummarizeAll(forefrontKey, model, chunks[..k])
    decreases |chunks| - k
  {
    if k < |chunks| {
      assert chunks[..k + 1][..k] == chunks[..k];
      PrefixFailure(forefrontKey, model, chunks, k + 1);
    } else {
      assert chunks[..k] == chunks;
    }
  }

  /** `research_industry_with_summary`: the two summary loops and the conditional `+=`. */
  method ResearchIndustryWithSummary(serpKey: Option<string>, response: SearchResponse,
                                     forefrontKey: Option<string>, model: string -> Option<string>)
    returns (r: Result<IndustrySummary, Error>)
    requires ResearchIndustry(serpKey, response).Success? ==> Summarizable(ResearchIndustry(serpKey, response).value)
    ensures r == ResearchSummary(serpKey, response, forefrontKey, model)
  {
    var raw := ResearchIndustry(serpKey, response);
    if raw.Failure? {
      return Failure(raw.error);
    }
    r := SummarizeRecord(forefrontKey, model, raw.value);
  }

  /** The summary part of `research_industry_with_summary`, given the raw record. */
  method SummarizeRecord(forefrontKey: Option<string>, model: string -> Option<string>, raw: IndustryRecord)
    returns (r: Result<IndustrySummary, Error>)
    requires Summarizable(raw)
    ensures r == SummarizedRecord(forefrontKey, model, raw)
  {
    var combinedTrends := CombinedTrends(raw.industryTrends);
    var info := SummarizeText(forefrontKey, model, raw.companyInfo);
    if info.Failure? {
      return Failure(info.error);
    }
    var trends := SummarizeText(forefrontKey, model, combinedTrends);
    if trends.Failure? {
      return Failure(trends.error);
    }
    var summarizedInfo := info.value;
    var summarizedTrends := trends.value;
    if |summarizedInfo| < CaveatThreshold {
      summarizedInfo := summarizedInfo + InfoCaveat;
    }
    assert summarizedInfo == WithCaveat(info.value, InfoCaveat);
    if |summarizedTrends| < CaveatThreshold {
      summarizedTrends := summarizedTrends + TrendsCaveat;
    }
    assert summarizedTrends == WithCaveat(trends.value, TrendsCaveat);
    r := Success(IndustrySummary(summarizedInfo, summarizedTrends));
  }
}
