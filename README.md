# Research agent text pipeline, modelled in Dafny

This project models the deterministic core of the Research_agent pipeline. The pipeline
researches a company, asks language models for AI use cases and gathers resources for each
use case. Every network call is an input of the model, not something it performs: a search
response, a model reply or a function from request to response.

One module per source file, and a second one for the parser's behaviour on incomplete entries:

- `Scrape` (research_agent/test.py)
  - `search_google`: keeps the top five links and puts the first Wikipedia link in front.
  - `extract_text_from_url`: removes boilerplate phrases, caps the text at 1500 characters and falls back to a placeholder.
  - `remove_duplicates`, `truncate_text`, `clean_text` and `clean_irrelevant_content`.
  - `get_company_info`: composes the text helpers above.
- `Research` (research_agent/research.py)
  - The greedy word chunker `chunk_text`.
  - `query_forefront` and `summarize_with_forefront`, with the "No summary available." fallback.
  - The shaping of search results in `research_industry`.
  - `research_industry_with_summary`, with its two summary loops and the caveat rule for texts under 50 characters.
- `UseCaseFormat` (research_agent/usecase.py)
  - The line filter of `generate_use_cases`.
  - `format_use_cases`.
- `UseCaseParser` (research_agent/usecase_main.py)
  - `parse_usecases`, modelled as the exact semantics of its regular expression run with `re.S` under `findall`:
    - the title and explanation groups are lazy;
    - the labels have alternatives;
    - the scan is leftmost and non-overlapping.
  - Each record is then stripped and split into lines.
- `UseCaseMerge` (research_agent/usecase_main.py)
  - What `parse_usecases` makes of a reply in which an entry lacks its application line.
- `Resources` (research_agent/resources_main.py)
  - The request, status check and shaping in the Hugging Face, Kaggle and GitHub search helpers.
  - The collection loop of `collect_resources_for_usecases`.

Two helper modules support these:

- `Wrappers`: `Option`, `Result` and the `ValueError` exception.
- `Strings`: the Python string operations the code uses. These are
  - `find` and `rfind`, `split` and `join`;
  - `strip` and `split()`, with the Unicode whitespace set of `str.isspace`;
  - `replace(p, "")`, slicing, and `re.sub(r'\s+', ' ', ...)`.

Each loop of the source is a method with its loop invariants. Each method is proved equal to a
specification function, and the properties are proved as lemmas about those functions.

## Model

| member | source | states |
|---|---|---|
| Scrape.FirstWikipedia | research_agent/test.py:24 | the index of the first link containing "wikipedia.org", or the length when there is none |
| Scrape.PrioritizedLinks | research_agent/test.py:21-28 | at most the top 5 links; unchanged when none is a Wikipedia link, otherwise the first Wikipedia link inserted in front of the unchanged top 5 |
| Scrape.SearchGoogleLinks | research_agent/test.py:21-28 | the slice, the `next(...)` scan and the insert compute PrioritizedLinks |
| Scrape.RemovePhrases | research_agent/test.py:46-47 | removing the phrases in turn never lengthens the text and leaves a text without them unchanged |
| Scrape.RemoveEachPhrase | research_agent/test.py:46-47 | the replace loop computes RemovePhrases |
| Scrape.ScrapedText | research_agent/test.py:30-53 | a fetch error gives the error text; otherwise the result is non-empty and at most 1500 characters, the placeholder when nothing is left, else the first 1500 characters of what is left |
| Scrape.ExtractText | research_agent/test.py:37-50 | the extraction steps compute ScrapedText |
| Scrape.Dedupe | research_agent/test.py:75 | `dict.fromkeys` keeps exactly the elements of the list, none twice, and is never longer |
| Scrape.DedupeKeepsFirstOccurrenceOrder | research_agent/test.py:75 | the kept elements stand in the order of their first occurrences |
| Scrape.JoinDedupeShorter | research_agent/test.py:75-76 | dropping repeated pieces never lengthens their join |
| Scrape.RemoveDuplicates | research_agent/test.py:73-76 | the result is never longer than the input |
| Scrape.SentencesOfRemoveDuplicates | research_agent/test.py:73-76 | the sentences of the result are the distinct sentences of the whitespace-normalised input, in first-occurrence order |
| Scrape.TruncateText | research_agent/test.py:79-85 | a text within the limit is returned whole; otherwise a prefix within the limit ending at the "." of the last ". " before the limit, or the first `limit` characters when there is none |
| Scrape.CitationAt | research_agent/test.py:89 | the length of the citation marker at the front, or 0 when no prefix is one |
| Scrape.CleanText | research_agent/test.py:87-89 | deleting citation markers never lengthens the text; a text without "[" is unchanged |
| Scrape.CleanTextWithoutCitations | research_agent/test.py:89 | a text where no marker starts anywhere is unchanged |
| Scrape.CleanTextDeletesMarker | research_agent/test.py:89 | a marker "[digits]" at the front is deleted and the scan resumes after it |
| Scrape.CutAt | research_agent/test.py:95 | `split(phrase)[0]` is a prefix free of the phrase: the whole text when the phrase is absent, otherwise the text up to the phrase's first occurrence |
| Scrape.CutAll | research_agent/test.py:94-95 | the cuts in turn give a prefix containing none of the phrases, ending at the text's end or where one of the phrases occurs in the text; a text containing none of the phrases is not cut |
| Scrape.IrrelevantCut | research_agent/test.py:91-96 | the result is a stripped prefix of the input containing none of the six stop phrases, cut at the input's end or where a stop phrase occurs in it; an input without stop phrases is only stripped |
| Scrape.IrrelevantCutIdempotent | research_agent/test.py:91-96 | cleaning twice equals cleaning once |
| Scrape.CleanIrrelevantContent | research_agent/test.py:91-96 | the loop and the strip compute IrrelevantCut |
| Scrape.CutEachPhrase | research_agent/test.py:94-95 | the split loop computes CutAll |
| Scrape.ScrapeAll | research_agent/test.py:102 | one extracted text per link, in link order |
| Scrape.ScrapeEach | research_agent/test.py:102 | the per-link loop computes ScrapeAll |
| Scrape.CompanyInfo | research_agent/test.py:99-107 | the overview text never exceeds 3000 characters |
| Scrape.GetCompanyInfo | research_agent/test.py:99-107 | the driver computes CompanyInfo and stays within 3000 characters |
| Research.Fill | research_agent/research.py:112-113 | the inner loop moves a prefix of the words onto the chunk, losing and reordering none |
| Research.FillWithin | research_agent/research.py:112-113 | a chunk within the maximum stays within it |
| Research.FillGreedy | research_agent/research.py:112 | the inner loop stops only when no word is left or the next word does not fit |
| Research.FillChunk | research_agent/research.py:111-113 | the pop-and-append loop computes Fill |
| Research.Pack | research_agent/research.py:108-115 | chunks exist exactly when words do; every chunk is non-empty and at most max characters |
| Research.PackWords | research_agent/research.py:110-114 | the outer loop computes Pack |
| Research.PackStep | research_agent/research.py:110-114 | each round emits the next chunk of the packing and strictly shrinks the word list |
| Research.ChunkText | research_agent/research.py:104-115 | `chunk_text` computes Chunks |
| Research.PackKeepsWords | research_agent/research.py:108-115 | the words of the chunks, in order, are the words packed |
| Research.ChunksKeepWords | research_agent/research.py:104-115 | the words of the chunks are exactly `text.split()` |
| Research.ChunksBounded | research_agent/research.py:112-114 | every chunk has between 1 and max characters |
| Research.BlankTextNoChunks | research_agent/research.py:108-110 | a blank text gives no chunks |
| Research.NoChunksOnlyForBlankText | research_agent/research.py:108-114 | no chunks means the text was blank |
| Research.OversizedWordStalls | research_agent/research.py:110-113 | a first word with no room takes nothing, so the outer loop repeats forever |
| Research.FillTakesFitting | research_agent/research.py:112-113 | every word the inner loop moves onto the chunk has room for its space |
| Research.OversizedWordLeft | research_agent/research.py:110-113 | a word with no room for its space, wherever it stands, is still among the words after a round |
| Research.OversizedWordLoopsForever | research_agent/research.py:110-114 | with such a word anywhere in the text, the word list is non-empty and still holds it after any number of rounds, so `while words` never ends |
| Research.SummaryPrompt | research_agent/research.py:95-99 | the prompt is the fixed preamble followed by the text |
| Research.SummaryOrFallback | research_agent/research.py:101 | a non-empty reply is kept; `None` or "" gives "No summary available." |
| Research.QueryForefront | research_agent/research.py:24-26 | a missing or empty key raises the ValueError; otherwise the reply is returned |
| Research.Summarize | research_agent/research.py:91-101 | fails exactly without the key; otherwise the fallback of the model's reply to the prompt |
| Research.SummarizeAllSpec | research_agent/research.py:169-170 | fails exactly when there is a chunk and no key; otherwise one summary per chunk, in order |
| Research.SummarizeChunks | research_agent/research.py:169-170 | the summary loop computes SummarizeAll |
| Research.PrefixFailure | research_agent/research.py:169-170 | an exception on one chunk ends the whole loop with that exception |
| Research.SummarizeText | research_agent/research.py:168-172 | chunk, summarise, join and strip compute SummarizedText |
| Research.ResearchIndustry | research_agent/research.py:57-88 | a missing key raises; a failed request or no results gives the no-data record; otherwise the first snippet (default text) and the snippets of the first three results, in order |
| Research.Characters | research_agent/research.py:164 | iterating over a string gives its characters, one per element |
| Research.SpacedCharacters | research_agent/research.py:164 | joining the characters of "No trends found" with spaces puts character i at 2i with spaces between |
| Research.WithCaveat | research_agent/research.py:183-186 | a summary under 50 characters gets the caveat appended, and only then; the result is long or ends in the caveat |
| Research.ResearchSummaryOutcome | research_agent/research.py:160-191 | fails only for a missing key; a result has each text at least 50 characters long or ending in its caveat |
| Research.ResearchIndustryWithSummary | research_agent/research.py:160-191 | the driver computes ResearchSummary |
| Research.SummarizeRecord | research_agent/research.py:164-191 | the two summary loops and the conditional appends compute SummarizedRecord |
| UseCaseFormat.UseCaseLines | research_agent/usecase.py:36-41 | a missing or empty reply gives the single fallback line; every line is non-empty and stripped |
| UseCaseFormat.UseCaseLinesNoBreak | research_agent/usecase.py:38 | no line holds a line break |
| UseCaseFormat.GenerateUseCases | research_agent/usecase.py:34-41 | raises exactly when the Forefront key is missing; otherwise the line filter of the reply |
| UseCaseFormat.UseCaseLinesOfText | research_agent/usecase.py:36-39 | a non-empty reply is filtered line by line |
| UseCaseFormat.UseCaseLinesOfJoin | research_agent/usecase.py:38 | clean lines joined by line breaks come back unchanged |
| UseCaseFormat.UseCaseLinesOfTwoParts | research_agent/usecase.py:38 | two replies glued at a line break give the concatenation of their lines |
| UseCaseFormat.FormatUseCases | research_agent/usecase.py:44-50 | the enumerate loop computes FormattedUseCases |
| UseCaseFormat.NoMarkerNoSections | research_agent/usecase.py:47-50 | a reply without "1. " formats to the empty text |
| UseCaseFormat.IntroDiscarded | research_agent/usecase.py:47-48 | what stands before the first "1. " is dropped |
| UseCaseFormat.ItemsRenumbered | research_agent/usecase.py:44-50 | stripped items introduced by "1. " come back as sections "#### i. item" numbered 1, 2, ... and joined by the rule |
| UseCaseParser.DigitRun | research_agent/usecase_main.py:34 | the greedy `\d+` stays within the text |
| UseCaseParser.SpaceRun | research_agent/usecase_main.py:34 | the greedy `\s*` stays within the text |
| UseCaseParser.HeaderEnd | research_agent/usecase_main.py:34 | the header `**`, digits, "." and one whitespace ends after i, within the text |
| UseCaseParser.LabelAt | research_agent/usecase_main.py:34 | a label found is one of the two alternatives, and its bold tag stands at i |
| UseCaseParser.TailAt | research_agent/usecase_main.py:34 | an application part that matches lies after its line break, within the text |
| UseCaseParser.FirstTail | research_agent/usecase_main.py:34 | where the lazy explanation group stops, the application part matches |
| UseCaseParser.RestAt | research_agent/usecase_main.py:34 | the part after the title has its groups in order within the text |
| UseCaseParser.RestFrom | research_agent/usecase_main.py:34 | the explanation and application groups follow the title end in order |
| UseCaseParser.FirstRest | research_agent/usecase_main.py:34 | where the lazy title group stops, the part after the title matches |
| UseCaseParser.MatchAt | research_agent/usecase_main.py:34 | a match at i starts at i and ends after it, within the text |
| UseCaseParser.Table | research_agent/usecase_main.py:34-35 | one entry per index, each match recorded at its start |
| UseCaseParser.ToUseCase | research_agent/usecase_main.py:38-40 | title and explanation stripped; every application line non-empty and stripped |
| UseCaseParser.Records | research_agent/usecase_main.py:37-46 | one record per match |
| UseCaseParser.ParseUseCases | research_agent/usecase_main.py:30-48 | `parse_usecases` computes UseCasesOf |
| UseCaseParser.RecordsOfMatches | research_agent/usecase_main.py:37-46 | the append loop computes Records |
| UseCaseParser.SelectSound | research_agent/usecase_main.py:35 | every match of the scan is the one recorded at its start |
| UseCaseParser.SelectOrdered | research_agent/usecase_main.py:35 | the matches of the scan stand in text order without overlap |
| UseCaseParser.SelectLeftmost | research_agent/usecase_main.py:35 | every index where a match starts lies inside a match of the scan |
| UseCaseParser.SelectSkip | research_agent/usecase_main.py:35 | indices where nothing matches are skipped |
| UseCaseParser.FindAllSound | research_agent/usecase_main.py:35 | every match `findall` returns is the pattern's match at its start |
| UseCaseParser.FindAllOrdered | research_agent/usecase_main.py:35 | the matches `findall` returns do not overlap and stand in order |
| UseCaseParser.FindAllLeftmost | research_agent/usecase_main.py:35 | `findall` misses no match: each lies within a returned one |
| UseCaseParser.FindAllNone | research_agent/usecase_main.py:35 | where the pattern matches nowhere, `findall` returns nothing |
| UseCaseParser.FirstTailLeast | research_agent/usecase_main.py:34 | the lazy explanation group is as short as it can be |
| UseCaseParser.FirstRestLeast | research_agent/usecase_main.py:34 | the lazy title group is as short as it can be |
| UseCaseParser.FirstTailAt | research_agent/usecase_main.py:34 | the explanation group stops at the first place the application part matches |
| UseCaseParser.FirstRestAt | research_agent/usecase_main.py:34 | the title group stops at the first place the part after it matches |
| UseCaseParser.TailParts | research_agent/usecase_main.py:34 | the application label is one of the two, its tag stands in the text, and group 5 runs to the next line break |
| UseCaseParser.RestParts | research_agent/usecase_main.py:34 | the title end and an explanation tag stand in the text, followed by the application part |
| UseCaseParser.MatchParts | research_agent/usecase_main.py:34 | a match's groups 2 to 5 are the slices of its parts |
| UseCaseParser.MatchNeedsTags | research_agent/usecase_main.py:34 | a match needs the title end, an explanation tag and an application tag, and records which labels it found |
| UseCaseParser.NoUseCasesWithoutTags | research_agent/usecase_main.py:34-46 | a reply lacking the title end, both explanation tags or both application tags gives no records |
| UseCaseParser.MatchOneApplication | research_agent/usecase_main.py:34-40 | group 5 holds no line break, so a record has at most one practical application |
| UseCaseParser.AtMostOneApplication | research_agent/usecase_main.py:34-46 | every record has at most one practical application |
| UseCaseParser.EntryMatch | research_agent/usecase_main.py:34 | an entry written in the pattern's format is matched in full at its header, with its parts as the groups |
| UseCaseParser.EntryRecord | research_agent/usecase_main.py:38-40 | the record read from such an entry is the record it was written from |
| UseCaseParser.EntryScanned | research_agent/usecase_main.py:34-40 | the n-th entry at i is matched there, ends where the entry does and gives back its record |
| UseCaseParser.JoinedPlaced | research_agent/usecase_main.py:35 | entries written one after another stand each after the one before |
| UseCaseParser.ScanEntries | research_agent/usecase_main.py:35 | entries placed one after another to the end give a chain of matches, one per entry |
| UseCaseParser.ScansRecords | research_agent/usecase_main.py:35-46 | such a chain is what the scan finds, and its records are the entries' records |
| UseCaseParser.ParseEntries | research_agent/usecase_main.py:30-48 | an introduction without asterisks, then entries numbered from 1, parses back to exactly the records written |
| UseCaseMerge.MergedTail | research_agent/usecase_main.py:34 | after an explanation line with no application line, the application part first matches at the next entry's application line |
| UseCaseMerge.MergedMatch | research_agent/usecase_main.py:34-35 | the match of an entry without its application line runs through the next entry, with the first title, the second header inside group 3 and the second application as group 5 |
| UseCaseMerge.MissingApplicationMerges | research_agent/usecase_main.py:34-46 | an entry without its application line followed by a full entry gives one record: the first title, an explanation holding the second header, the second entry's applications |
| Strings.StripSlice | research_agent/test.py:96 | `strip` leaves a slice of the text with only whitespace before and after it |
| Strings.StripBlank | research_agent/usecase_main.py:40 | `strip` gives the empty string exactly for a blank text, the test of `if app.strip()` |
| Strings.StripKeepsInner | research_agent/usecase_main.py:39 | an occurrence that starts with, and is followed by, non-whitespace is kept by `strip` |
| Resources.SearchHuggingFace | research_agent/resources_main.py:9-22 | status 200 gives one link per item, named by its id, at "https://huggingface.co/" + id; any other status gives none |
| Resources.HubLinksNameTheirPages | research_agent/resources_main.py:18-20 | each link starts with the site, and its name is read back from the address |
| Resources.KaggleDatasets | research_agent/resources_main.py:33-47 | status 200 gives one link per dataset with its title, at "https://kaggle.com/" + ref; any other status gives none |
| Resources.SearchKaggle | research_agent/resources_main.py:25-47 | given that the request returns a response, raises the ValueError exactly when the key is missing or empty; otherwise the datasets found |
| Resources.KaggleLinksNameTheirPages | research_agent/resources_main.py:43-45 | each link starts with the site and its reference is read back from the address |
| Resources.SearchGitHub | research_agent/resources_main.py:69-80 | status 200 gives the first five items as received, each field copied; any other status gives none |
| Resources.GitHubTopFive | research_agent/resources_main.py:74-78 | at most five repositories, in received order, and all of them when five or fewer came |
| Resources.CollectResources | research_agent/resources_main.py:83-107 | the loop computes Collected, including the abort on a missing Kaggle key |
| Resources.CollectedFailsIff | research_agent/resources_main.py:29-31 | given that every request returns a response, the collection raises exactly when there is a use case and no Kaggle key, with the Kaggle error |
| Resources.CollectedOnePerUseCase | research_agent/resources_main.py:88-105 | one bundle per use case, in order, with its title and the three searches for that title |
| Resources.CollectedConcat | research_agent/resources_main.py:88-105 | bundles depend only on their own use case: collecting a concatenation concatenates the bundles |
| Resources.CollectedFewRepositories | research_agent/resources_main.py:94-102 | every bundle holds at most five repositories |

## Left out

- Network and I/O: every HTTP request, the Gemini and Forefront model calls, `input`, `print`, logging, `load_dotenv` and file writing. Their results are inputs of the model. Each of the three resource services is one fixed function from request to response for the whole run, so a repeated request gets the same answer; a real service may answer differently from one call to the next, and Resources.CollectedConcat relies on this assumption.
- Connection errors and timeouts of four requests: `requests.get` in `search_huggingface` (research_agent/resources_main.py:15), `search_kaggle_datasets` (research_agent/resources_main.py:40), `search_github_repositories` (research_agent/resources_main.py:72) and `search_google` (research_agent/test.py:18) has no `try`, so such an exception escapes `collect_resources_for_usecases` and `get_company_info`. The model assumes each of these requests returns a response. The requests of `extract_text_from_url` and `research_industry` catch these exceptions and are modelled with their error paths.
- The HTML parsing of `extract_text_from_url`: a page is modelled as the texts of its paragraphs, or a fetch error.
- JSON decoding is assumed to succeed and to yield the fields the code reads. A `KeyError` on a missing field is not modelled.
- The JSON text that `parse_usecases` returns is not modelled either; the model returns the records.
- `generate_company_overview`, `generate_ai_usecases`, `clean_and_display_response` and `generate_markdown_file`: only prompts, I/O and printing.
- `search_arxiv_papers`: its call is commented out in the collector, and it parses XML.
- research_agent/resource.py, views.py, pdf_generator.py, urls.py, agentch/ and UI/app.py are not part of this model.
- `\d` is modelled as the ASCII digits only; Python also accepts other Unicode decimal digits.
- The model temperature, token limits and request payloads are not modelled, since they only shape the remote call.
- Research.ChunkText: requires every word to have room for its separating space (`len(word) + 1 <= max_length`). For any other input the source loops forever (see Research.OversizedWordLoopsForever), so no result is modelled there.
- Research.ResearchIndustryWithSummary: has the same precondition, for both texts it chunks.
- Scrape.CleanText is modelled although `get_company_info` never calls it.

## Notes on the source

In each of these points the code behaves differently from what its design suggests. The model follows the code:

- `search_google` copies the first Wikipedia link to the front without removing it. The link then appears twice, and up to six links are returned (Scrape.PrioritizedLinks).
- With no search data, `industry_trends` is the string "No trends found". `" ".join` of that string joins its characters: "N o   t r e n d s ..." (Research.SpacedCharacters).
- `chunk_text` never terminates on a word longer than `max_length - 1`, wherever the word stands (Research.OversizedWordLoopsForever).
- An entry of the model's reply that lacks its application line is not skipped. The lazy explanation group runs on to the next entry's application line, and both entries merge into one record (UseCaseMerge.MissingApplicationMerges, shown for a next entry whose title is on one line).
- Empty use cases with a missing Kaggle key return an empty collection. One or more use cases abort the whole collection with the ValueError (Resources.CollectedFailsIff).
- views.py passes the JSON text returned by `parse_usecases` to `collect_resources_for_usecases`, which indexes it as a dictionary. The model takes the decoded list of records instead.
