/**
 * The resource collector (research_agent/resources_main.py): one search on Hugging Face,
 * Kaggle and GitHub for the title of each use case, each search reply shaped into a list
 * of links, and the lists bundled per use case.
 * The HTTP requests are inputs: a function from the request sent to the response it got,
 * with the JSON body already decoded into the records the code reads.
 */
module Resources {
  import opened Wrappers
  import opened Strings
  import Research
  import UseCaseParser

  // ---------------------------------------------------------------------------
  // Requests and responses

  /** A query parameter or a header: a name and its value. */
  datatype Field = Field(name: string, value: string)

  /** A GET request: its URL, its query parameters and its headers. */
  datatype Request = Get(url: string, params: seq<Field>, headers: seq<Field>)

  /** A response: its status code and, decoded from its JSON body, the listed items. */
  datatype Response<T> = Response(status: int, items: seq<T>)

  const StatusOk := 200

  // ---------------------------------------------------------------------------
  // search_huggingface

  /** An item of the Hugging Face listing, of which the code reads the id. */
  datatype HubItem = HubItem(id: string)

  /** A model found: its id and its page. */
  datatype HubLink = HubLink(name: string, url: string)

  const HubSite := "https://huggingface.co/"

  /** The listing request for the query: the API path is the search type made plural. */
  function HubRequest(query: string, searchType: string): Request
  {
    Get(HubSite + "api/" + searchType + "s", [Field("search", query)], [])
  }

  /** `search_huggingface(query)`, models being the default search type. */
  const DefaultSearchType := "model"

  /**
   * `search_huggingface(query, search_type)`: on status 200, one link per item in the order
   * listed, named by the item's id and pointing at the site's page for that id; otherwise
   * no link.
   */
  function SearchHuggingFace(query: string, searchType: string, fetch: Request -> Response<HubItem>): (r: seq<HubLink>)
    ensures var resp := fetch(HubRequest(query, searchType));
      && (resp.status != StatusOk ==> r == [])
      && (resp.status == StatusOk ==>
            |r| == |resp.items|
            && forall i :: 0 <= i < |r| ==> r[i].name == resp.items[i].id && r[i].url == HubSite + resp.items[i].id)
  {
    var resp := fetch(HubRequest(query, searchType));
    if resp.status == StatusOk then
      seq(|resp.items|, i requires 0 <= i < |resp.items| => HubLink(resp.items[i].id, HubSite + resp.items[i].id))
    else []
  }

  /** The id of a model is what follows the site in its page address. */
  function PagePath(site: string, url: string): string
  {
    if |site| <= |url| then url[|site|..] else ""
  }

  /** Each Hugging Face link is the site followed by the name it carries, so the name can be read back from it. */
  lemma HubLinksNameTheirPages(query: string, searchType: string, fetch: Request -> Response<HubItem>)
    ensures forall l :: l in SearchHuggingFace(query, searchType, fetch) ==>
      OccursAt(l.url, HubSite, 0) && PagePath(HubSite, l.url) == l.name
  {
    forall l | l in SearchHuggingFace(query, searchType, fetch)
      ensures OccursAt(l.url, HubSite, 0) && PagePath(HubSite, l.url) == l.name
    {
      assert l.url[..|HubSite|] == HubSite;
      assert l.url[|HubSite|..] == l.name;
    }
  }

  // ---------------------------------------------------------------------------
  // search_kaggle_datasets

  /** An item of the Kaggle dataset listing, of which the code reads the title and the reference. */
  datatype KaggleItem = KaggleItem(title: string, ref: string)

  /** A dataset found: its title and its page. */
  datatype DatasetLink = DatasetLink(title: string, url: string)

  const KaggleSite := "https://kaggle.com/"
  const KaggleKeyMissing := "KAGGLE_API_KEY environment variable is not set."

  /** The listing request for the query, authorised by the token. */
  function KaggleRequest(query: string, token: string): Request
  {
    Get("https://www.kaggle.com/api/v1/datasets/list", [Field("search", query)],
        [Field("Authorization", "Bearer " + token), Field("Content-Type", "application/json")])
  }

  /**
   * The request and the shaping of `search_kaggle_datasets` once the token is there: on status
   * 200, one link per dataset in the order listed, with its title and the site's page for its
   * reference; otherwise no link.
   */
  function KaggleDatasets(query: string, token: string, fetch: Request -> Response<KaggleItem>): (r: seq<DatasetLink>)
    ensures var resp := fetch(KaggleRequest(query, token));
      && (resp.status != StatusOk ==> r == [])
      && (resp.status == StatusOk ==>
            |r| == |resp.items|
            && forall i :: 0 <= i < |r| ==> r[i].title == resp.items[i].title && r[i].url == KaggleSite + resp.items[i].ref)
  {
    var resp := fetch(KaggleRequest(query, token));
    if resp.status == StatusOk then
      seq(|resp.items|, i requires 0 <= i < |resp.items| => DatasetLink(resp.items[i].title, KaggleSite + resp.items[i].ref))
    else []
  }

  /**
   * `search_kaggle_datasets(query)` with the value of KAGGLE_API_KEY: a missing or empty key
   * raises before any request is sent; otherwise the datasets found. The request is taken to
   * return a response: a connection error it raises is not modelled.
   */
  function SearchKaggle(query: string, kaggleKey: Option<string>, fetch: Request -> Response<KaggleItem>): (r: Result<seq<DatasetLink>, Error>)
    ensures !Research.Truthy(kaggleKey) <==> r.Failure?
    ensures r.Failure? ==> r.error == ValueError(KaggleKeyMissing)
    ensures r.Success? ==> r.value == KaggleDatasets(query, kaggleKey.value, fetch)
  {
    if !Research.Truthy(kaggleKey) then Failure(ValueError(KaggleKeyMissing))
    else Success(KaggleDatasets(query, kaggleKey.value, fetch))
  }

  /** Each Kaggle link is the site followed by the reference of its dataset. */
  lemma KaggleLinksNameTheirPages(query: string, token: string, fetch: Request -> Response<KaggleItem>)
    ensures var resp := fetch(KaggleRequest(query, token));
      resp.status == StatusOk ==>
      forall i :: 0 <= i < |KaggleDatasets(query, token, fetch)| ==>
        var l := KaggleDatasets(query, token, fetch)[i];
        OccursAt(l.url, KaggleSite, 0) && PagePath(KaggleSite, l.url) == resp.items[i].ref
  {
    var resp := fetch(KaggleRequest(query, token));
    var r := KaggleDatasets(query, token, fetch);
    if resp.status == StatusOk {
      forall i | 0 <= i < |r|
        ensures OccursAt(r[i].url, KaggleSite, 0) && PagePath(KaggleSite, r[i].url) == resp.items[i].ref
      {
        assert r[i].url[..|KaggleSite|] == KaggleSite;
        assert r[i].url[|KaggleSite|..] == resp.items[i].ref;
      }
    }
  }

  // ---------------------------------------------------------------------------
  // search_github_repositories

  /** An item of the GitHub search result, of which the code reads three fields. */
  datatype GitHubItem = GitHubItem(fullName: string, htmlUrl: string, stargazersCount: int)

  /** A repository found: its full name, its page and its star count. */
  datatype RepositoryLink = RepositoryLink(name: string, url: string, stars: int)

  /** How many repositories the search keeps. */
  const TopRepositories := 5

  /** The search request for the query, most starred first. */
  function GitHubRequest(query: string): Request
  {
    Get("https://api.github.com/search/repositories",
        [Field("q", query), Field("sort", "stars"), Field("order", "desc")], [])
  }

  /**
   * `search_github_repositories(query)`: on status 200, the first five items as received,
   * each with its full name, page and star count copied; otherwise no repository.
   */
  function SearchGitHub(query: string, fetch: Request -> Response<GitHubItem>): (r: seq<RepositoryLink>)
    ensures var resp := fetch(GitHubRequest(query));
      && (resp.status != StatusOk ==> r == [])
      && (resp.status == StatusOk ==>
            |r| == Min(TopRepositories, |resp.items|)
            && forall i :: 0 <= i < |r| ==> r[i] == RepositoryLink(resp.items[i].fullName, resp.items[i].htmlUrl, resp.items[i].stargazersCount))
  {
    var resp := fetch(GitHubRequest(query));
    if resp.status == StatusOk then
      var top := resp.items[..Min(TopRepositories, |resp.items|)];
      seq(|top|, i requires 0 <= i < |top| => RepositoryLink(top[i].fullName, top[i].htmlUrl, top[i].stargazersCount))
    else []
  }

  /** The repository kept from an item. */
  function RepositoryOf(item: GitHubItem): RepositoryLink
  {
    RepositoryLink(item.fullName, item.htmlUrl, item.stargazersCount)
  }

  /**
   * The repositories are at most five, and they are the items received, in their order, up to
   * the cut: all of them when there are five or fewer.
   */
  lemma GitHubTopFive(query: string, fetch: Request -> Response<GitHubItem>)
    ensures var resp := fetch(GitHubRequest(query));
      var r := SearchGitHub(query, fetch);
      && |r| <= TopRepositories
      && (resp.status == StatusOk ==> forall i :: 0 <= i < |r| ==> r[i] == RepositoryOf(resp.items[i]))
      && (resp.status == StatusOk && |resp.items| <= TopRepositories ==>
          forall i :: 0 <= i < |resp.items| ==> RepositoryOf(resp.items[i]) in r)
  {
    var resp := fetch(GitHubRequest(query));
    var r := SearchGitHub(query, fetch);
    if resp.status == StatusOk && |resp.items| <= TopRepositories {
      forall i | 0 <= i < |resp.items|
        ensures RepositoryOf(resp.items[i]) in r
      {
        assert r[i] == RepositoryOf(resp.items[i]);
      }
    }
  }

  // ---------------------------------------------------------------------------
  // collect_resources_for_usecases

  /** What was found for one use case, under the three keys the code fills. */
  datatype Found = Found(huggingfaceModels: seq<HubLink>, kaggleDatasets: seq<DatasetLink>, githubRepositories: seq<RepositoryLink>)

  /** The entry for one use case: its title and what was found for it. */
  datatype Bundle = Bundle(title: string, resources: Found)

  /** The result, `{"use_cases_resources": [...]}`. */
  datatype Collection = UseCasesResources(bundles: seq<Bundle>)

  /**
   * The three network calls the collector makes, as functions of the request: each service
   * answers the same request the same way for the whole run.
   */
  datatype Services = Services(
    hub: Request -> Response<HubItem>,
    kaggle: Request -> Response<KaggleItem>,
    github: Request -> Response<GitHubItem>)

  /** The bundle for a title once the Kaggle token is there: the three searches for that title. */
  function BundleFor(title: string, token: string, net: Services): Bundle
  {
    Bundle(title, Found(SearchHuggingFace(title, DefaultSearchType, net.hub),
                        KaggleDatasets(title, token, net.kaggle),
                        SearchGitHub(title, net.github)))
  }

  /**
   * What `collect_resources_for_usecases` returns or raises for the use cases, the value of
   * KAGGLE_API_KEY and the services: the Kaggle search of the first use case raises when the
   * key is missing or empty, which aborts the collection; with no use case nothing is searched
   * and the collection is empty.
   */
  function Collected(useCases: seq<UseCaseParser.UseCase>, kaggleKey: Option<string>, net: Services): (r: Result<Collection, Error>)
  {
    if useCases == [] then Success(UseCasesResources([]))
    else if !Research.Truthy(kaggleKey) then Failure(ValueError(KaggleKeyMissing))
    else
      Success(UseCasesResources(
        seq(|useCases|, i requires 0 <= i < |useCases| => BundleFor(useCases[i].title, kaggleKey.value, net))))
  }

  /** `collect_resources_for_usecases(use_cases_json)`: the loop appending one bundle per use case. */
  method CollectResources(useCases: seq<UseCaseParser.UseCase>, kaggleKey: Option<string>, net: Services)
    returns (r: Result<Collection, Error>)
    ensures r == Collected(useCases, kaggleKey, net)
  {
    var resourceCollection: seq<Bundle> := [];
    for k := 0 to |useCases|
      invariant k > 0 ==> Research.Truthy(kaggleKey)
      invariant |resourceCollection| == k
      invariant forall j :: 0 <= j < k ==> resourceCollection[j] == BundleFor(useCases[j].title, kaggleKey.value, net)
    {
      var title := useCases[k].title;
      var models := SearchHuggingFace(title, DefaultSearchType, net.hub);
      var datasets := SearchKaggle(title, kaggleKey, net.kaggle);
      if datasets.Failure? {
        assert useCases != [] && !Research.Truthy(kaggleKey);
        return Failure(datasets.error);
      }
      var githubRepos := SearchGitHub(title, net.github);
      resourceCollection := resourceCollection + [Bundle(title, Found(models, datasets.value, githubRepos))];
    }
    if useCases != [] {
      assert resourceCollection
          == seq(|useCases|, i requires 0 <= i < |useCases| => BundleFor(useCases[i].title, kaggleKey.value, net));
    }
    r := Success(UseCasesResources(resourceCollection));
  }

  /**
   * Given that every request returns a response, the collection fails exactly when there is a
   * use case and the Kaggle key is missing or empty, and then with the Kaggle error.
   */
  lemma CollectedFailsIff(useCases: seq<UseCaseParser.UseCase>, kaggleKey: Option<string>, net: Services)
    ensures Collected(useCases, kaggleKey, net).Failure? <==> useCases != [] && !Research.Truthy(kaggleKey)
    ensures Collected(useCases, kaggleKey, net).Failure? ==>
      Collected(useCases, kaggleKey, net).error == ValueError(KaggleKeyMissing)
  {
  }

  /**
   * A collection that succeeds holds one bundle per use case, in their order; each bundle has
   * its use case's title and the three searches for that title.
   */
  lemma CollectedOnePerUseCase(useCases: seq<UseCaseParser.UseCase>, kaggleKey: Option<string>, net: Services)
    requires Collected(useCases, kaggleKey, net).Success?
    ensures var bs := Collected(useCases, kaggleKey, net).value.bundles;
      && |bs| == |useCases|
      && forall i :: 0 <= i < |bs| ==>
        && bs[i].title == useCases[i].title
        && bs[i].resources.huggingfaceModels == SearchHuggingFace(useCases[i].title, DefaultSearchType, net.hub)
        && bs[i].resources.kaggleDatasets == KaggleDatasets(useCases[i].title, kaggleKey.value, net.kaggle)
        && bs[i].resources.githubRepositories == SearchGitHub(useCases[i].title, net.github)
  {
  }

  /**
   * The bundles depend on nothing but their own use case: collecting two lists one after the
   * other gives the bundles of the first list followed by those of the second.
   */
  lemma CollectedConcat(xs: seq<UseCaseParser.UseCase>, ys: seq<UseCaseParser.UseCase>, kaggleKey: Option<string>, net: Services)
    requires Research.Truthy(kaggleKey)
    ensures Collected(xs + ys, kaggleKey, net).Success?
    ensures Collected(xs + ys, kaggleKey, net).value.bundles
         == Collected(xs, kaggleKey, net).value.bundles + Collected(ys, kaggleKey, net).value.bundles
  {
    var a := Collected(xs, kaggleKey, net).value.bundles;
    var b := Collected(ys, kaggleKey, net).value.bundles;
    var c := Collected(xs + ys, kaggleKey, net).value.bundles;
    assert |c| == |a + b|;
    forall i | 0 <= i < |c|
      ensures c[i] == (a + b)[i]
    {
      if i < |xs| {
        assert (xs + ys)[i] == xs[i];
      } else {
        assert (xs + ys)[i] == ys[i - |xs|];
      }
    }
  }

  /** Every bundle of a successful collection has at most five repositories. */
  lemma CollectedFewRepositories(useCases: seq<UseCaseParser.UseCase>, kaggleKey: Option<string>, net: Services)
    requires Collected(useCases, kaggleKey, net).Success?
    ensures forall b :: b in Collected(useCases, kaggleKey, net).value.bundles ==>
      |b.resources.githubRepositories| <= TopRepositories
  {
    forall b | b in Collected(useCases, kaggleKey, net).value.bundles
      ensures |b.resources.githubRepositories| <= TopRepositories
    {
      GitHubTopFive(b.title, net.github);
    }
  }
}
