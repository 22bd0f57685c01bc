/** The market insights analyzer's web-search budget, the parsing of a search
    page into results, and the competitor search context with its fallback. The
    search engine's page and the language model's replies are inputs. */
module MarketInsightsAnalyzer {
  import opened Wrappers
  import opened Text

  /** A search result as the analyzer keeps it. */
  datatype SearchResult = SearchResult(title: string, snippet: string, url: string)

  /** A result block of the search page: its title link (its text, and its
      address when it has one) and its snippet, each possibly missing. */
  datatype TitleLink = TitleLink(text: string, href: Option<string>)
  datatype ResultBlock = ResultBlock(titleLink: Option<TitleLink>, snippet: Option<string>)

  /** What the search request came to: a page of result blocks, or any failure
      of the request, its status or its parsing. */
  datatype SearchResponse = RequestFailed | Page(blocks: seq<ResultBlock>)

  /** The result a block yields, if it has a title link; a missing address or
      snippet becomes the empty string. */
  function ResultOf(block: ResultBlock): Option<SearchResult> {
    match block.titleLink
    case None => None
    case Some(link) => Some(SearchResult(link.text, block.snippet.GetOr(""), link.href.GetOr("")))
  }

  /** The results of the blocks that have a title link, in page order. */
  function Entries(blocks: seq<ResultBlock>): (r: seq<SearchResult>)
    ensures |r| <= |blocks|
  {
    if blocks == [] then []
    else
      var last := ResultOf(blocks[|blocks| - 1]);
      Entries(blocks[..|blocks| - 1]) + (if last.Some? then [last.value] else [])
  }

  /** The results a search returns below budget: those of the first `numResults`
      blocks, or none when the request failed. */
  function ResultsOf(response: SearchResponse, numResults: nat): seq<SearchResult> {
    match response
    case RequestFailed => []
    case Page(blocks) => Entries(if |blocks| <= numResults then blocks else blocks[..numResults])
  }

  /** No more results than were asked for. */
  lemma ResultsBounded(response: SearchResponse, numResults: nat)
    ensures |ResultsOf(response, numResults)| <= numResults
  {
  }

  /** Every result comes from a block with a title link: its title and address are
      that link's, its snippet that block's. */
  lemma {:induction false} EntriesFromTitleLinks(blocks: seq<ResultBlock>, k: int)
    requires 0 <= k < |Entries(blocks)|
    ensures exists i :: 0 <= i < |blocks| && blocks[i].titleLink.Some? && ResultOf(blocks[i]) == Some(Entries(blocks)[k])
    decreases |blocks|
  {
    var n := |blocks| - 1;
    var init := Entries(blocks[..n]);
    if k < |init| {
      EntriesFromTitleLinks(blocks[..n], k);
      var i :| 0 <= i < n && blocks[..n][i].titleLink.Some? && ResultOf(blocks[..n][i]) == Some(init[k]);
      assert blocks[i] == blocks[..n][i];
    } else {
      assert blocks[n].titleLink.Some?;
    }
  }

  /** Blocks with a title link each give one result; the others none. */
  lemma {:induction false} EntriesCount(blocks: seq<ResultBlock>)
    ensures |Entries(blocks)| == |set i | 0 <= i < |blocks| && blocks[i].titleLink.Some?|
    decreases |blocks|
  {
    if blocks != [] {
      var n := |blocks| - 1;
      EntriesCount(blocks[..n]);
      var before := set i | 0 <= i < n && blocks[..n][i].titleLink.Some?;
      var all := set i | 0 <= i < |blocks| && blocks[i].titleLink.Some?;
      assert before == set i | 0 <= i < n && blocks[i].titleLink.Some?;
      if blocks[n].titleLink.Some? {
        assert all == before + {n};
      } else {
        assert all == before;
      }
    }
  }

  /** The number of web searches one analysis may make. */
  const MaxWebSearches := 3

  class Analyzer {
    /** Searches made since the last reset. */
    var webSearchCount: int
    const maxWebSearches: int

    /** The budget is three searches and is never exceeded. */
    predicate Valid()
      reads this
    {
      maxWebSearches == MaxWebSearches && 0 <= webSearchCount <= maxWebSearches
    }

    constructor ()
      ensures webSearchCount == 0 && maxWebSearches == MaxWebSearches
      ensures Valid()
    {
      webSearchCount := 0;
      maxWebSearches := MaxWebSearches;
    }

    /** `perform_web_search` for a request answered by `response`: once the
        budget is spent nothing is searched; otherwise the search is counted
        before it is made, so a failed search uses up budget too. */
    method PerformWebSearch(query: string, numResults: nat, response: SearchResponse)
      returns (results: seq<SearchResult>)
      requires Valid()
      modifies this
      ensures Valid()
      ensures old(webSearchCount) >= maxWebSearches ==>
        webSearchCount == old(webSearchCount) && results == []
      ensures old(webSearchCount) < maxWebSearches ==>
        webSearchCount == old(webSearchCount) + 1 && results == ResultsOf(response, numResults)
    {
      if webSearchCount >= maxWebSearches {
        return [];
      }
      webSearchCount := webSearchCount + 1;
      match response
      case RequestFailed =>
        results := [];
      case Page(page) =>
        var blocks := if |page| <= numResults then page else page[..numResults];
        results := [];
        for i := 0 to |blocks|
          invariant results == Entries(blocks[..i])
        {
          assert blocks[..i + 1][..i] == blocks[..i];
          var block := blocks[i];
          if block.titleLink.Some? {
            var link := block.titleLink.value;
            var snippet := if block.snippet.Some? then block.snippet.value else "";
            results := results + [SearchResult(link.text, snippet, link.href.GetOr(""))];
          }
        }
        assert blocks[..|blocks|] == blocks;
    }

    /** `map_competitors`: one search for the industry's competitors, whose first
        five titles are handed to the model as context; a reply that cannot be
        used gives three empty tiers. */
    method MapCompetitors(industry: string, regions: string, response: SearchResponse, reply: Option<Landscape>)
      returns (landscape: Landscape, context: string)
      requires Valid()
      modifies this
      ensures Valid()
      ensures webSearchCount == if old(webSearchCount) < maxWebSearches then old(webSearchCount) + 1 else old(webSearchCount)
      ensures context == SearchContext(if old(webSearchCount) < maxWebSearches then ResultsOf(response, CompetitorResults) else [])
      ensures landscape == reply.GetOr(EmptyLandscape)
    {
      var results := PerformWebSearch(CompetitorQuery(industry, regions), CompetitorResults, response);
      context := SearchContext(results);
      landscape := if reply.Some? then reply.value else EmptyLandscape;
    }

    /** `analyze_market`: the budget is reset, then the steps run in order; only
        the competitor mapping searches the web. The replies of the model are
        inputs, `None` where a step falls back. */
    method AnalyzeMarket(industry: string, regions: string, response: SearchResponse, replies: Replies)
      returns (report: MarketReport)
      requires Valid()
      modifies this
      ensures Valid() && webSearchCount == 1
      ensures report.segments == replies.segments.GetOr([])
      ensures report.personas == replies.personas.GetOr([])
      ensures report.competitors == replies.competitors.GetOr(EmptyLandscape)
      ensures report.marketGaps == replies.marketGaps.GetOr([])
      ensures report.positioning == replies.positioning.GetOr(PositioningFallback)
    {
      webSearchCount := 0;
      var segments := replies.segments.GetOr([]);
      var personas := replies.personas.GetOr([]);
      var competitors, _ := MapCompetitors(industry, regions, response, replies.competitors);
      var gaps := replies.marketGaps.GetOr([]);
      var positioning := replies.positioning.GetOr(PositioningFallback);
      report := MarketReport(segments, personas, competitors, gaps, positioning);
    }
  }

  /** How many results the competitor search asks for, and how many titles it uses. */
  const CompetitorResults := 8
  const ContextTitles := 5

  /** The competitor search query. */
  function CompetitorQuery(industry: string, regions: string): (q: string)
    ensures StartsWith(q, industry)
  {
    industry + " companies " + regions + " competitors"
  }

  /** One line per result title, for at most the first five results, or "None". */
  function SearchContext(results: seq<SearchResult>): (r: string)
    ensures results == [] <==> r == "None"
  {
    if results == [] then "None"
    else
      var lines := TitleLines(if |results| <= ContextTitles then results else results[..ContextTitles]);
      assert lines[0][0] == '-';
      assert Join(lines, "\n")[0] == '-' by { JoinStartsWithFirst(lines, "\n"); }
      Join(lines, "\n")
  }

  function TitleLines(results: seq<SearchResult>): (r: seq<string>)
    ensures |r| == |results|
    ensures forall i :: 0 <= i < |r| ==> r[i] == "- " + results[i].title
  {
    if results == [] then [] else TitleLines(results[..|results| - 1]) + ["- " + results[|results| - 1].title]
  }

  lemma JoinStartsWithFirst(parts: seq<string>, sep: string)
    requires parts != [] && parts[0] != []
    ensures Join(parts, sep) != [] && Join(parts, sep)[0] == parts[0][0]
  {
  }

  /** The context lists exactly the first (at most five) titles, one per line,
      when no title spans several lines. */
  lemma SearchContextLines(results: seq<SearchResult>)
    requires results != []
    requires forall i :: 0 <= i < |results| ==> '\n' !in results[i].title
    ensures var n := if |results| <= ContextTitles then |results| else ContextTitles;
      Split(SearchContext(results), '\n') == seq(n, i requires 0 <= i < n => "- " + results[i].title)
  {
    var shown := if |results| <= ContextTitles then results else results[..ContextTitles];
    var lines := TitleLines(shown);
    forall i | 0 <= i < |lines| ensures '\n' !in lines[i] {
      assert lines[i] == "- " + shown[i].title;
      assert shown[i] == results[i];
    }
    SplitJoin(lines, '\n');
  }

  /** The competitors in their three tiers. */
  datatype Competitor = Competitor(name: string, description: string)
  datatype Landscape = Landscape(direct: seq<Competitor>, adjacent: seq<Competitor>, indirect: seq<Competitor>)

  const EmptyLandscape := Landscape([], [], [])

  const PositioningFallback := "Unable to generate positioning insights."

  /** The model's usable replies for each step, `None` where the step failed. */
  datatype Segment = Segment(name: string, description: string, size: string)
  datatype Replies = Replies(segments: Option<seq<Segment>>, personas: Option<seq<string>>,
                             competitors: Option<Landscape>, marketGaps: Option<seq<string>>,
                             positioning: Option<string>)

  datatype MarketReport = MarketReport(segments: seq<Segment>, personas: seq<string>, competitors: Landscape,
                                       marketGaps: seq<string>, positioning: string)
}
