/** The search side of the job tools: the parser for the search provider's text
    reply (`_parse_serper_results`), the mock fallback (`_search_site`) and the
    per-site loop of `job_search_tool` with the provider as a parameter. */
module Search {
  import opened Seqs
  import opened Text
  import opened Jobs
  import opened Extract

  /** The regular-expression extractors for a snippet's location, posting date and
      salary range. They are defined by Python's `re` module and are parameters here. */
  datatype SnippetExtractors = SnippetExtractors(
    location: string -> string,
    postedDate: string -> string,
    salaryRange: string -> string)

  const SectionSeparator: string := "---"
  const MaxSections: nat := 10
  const TitleTag: string := "Title:"
  const LinkTag: string := "Link:"
  const SnippetTag: string := "Snippet:"

  // ---------------------------------------------------------------------------
  // Parsing the provider's reply

  /** `line.replace(tag, "").strip()`. */
  function TagValue(line: string, tag: string): string
    requires |tag| > 0
  {
    Strip(Replace(line, tag, ""))
  }

  /** What the per-line loop leaves in the variable for `tag`: the value of the last
      line that starts with `tag` once stripped, or "" when there is none. */
  function LastTagged(lines: seq<string>, tag: string): string
    requires |tag| > 0
  {
    if lines == [] then ""
    else
      var line := Strip(lines[|lines| - 1]);
      if StartsWith(line, tag) then TagValue(line, tag) else LastTagged(lines[..|lines| - 1], tag)
  }

  /** `section.strip().split('\n')`. */
  function SectionLines(section: string): seq<string> {
    Split(Strip(section), "\n")
  }

  /** The job record built from a section's title, link and snippet. */
  function MakeJob(title: string, link: string, snippet: string, site: string, x: SnippetExtractors): Job {
    Job(
      title := title,
      company := ExtractCompany(title),
      location := x.location(snippet),
      url := link,
      description := snippet,
      postedDate := x.postedDate(snippet),
      salaryRange := x.salaryRange(snippet),
      site := site,
      jobType := ExtractJobType(snippet),
      matchScore := None,
      evaluationDate := None)
  }

  /** One section of the reply: nothing for a blank section or one without a title or
      a link, else its job. */
  function ParseSection(section: string, site: string, x: SnippetExtractors): Option<Job> {
    if Strip(section) == "" then None
    else
      var lines := SectionLines(section);
      var title := LastTagged(lines, TitleTag);
      var link := LastTagged(lines, LinkTag);
      var snippet := LastTagged(lines, SnippetTag);
      if title == "" || link == "" then None
      else Some(MakeJob(title, link, snippet, site, x))
  }

  /** The sections of the reply. */
  function Sections(searchResults: string): seq<string> {
    if Contains(searchResults, SectionSeparator) then Split(searchResults, SectionSeparator)
    else [searchResults]
  }

  /** `result_sections[:10]`. */
  function FirstSections(searchResults: string): seq<string> {
    var sections := Sections(searchResults);
    if |sections| > MaxSections then sections[..MaxSections] else sections
  }

  /** The jobs one section contributes: none or one. */
  function SectionJobs(section: string, site: string, x: SnippetExtractors): seq<Job> {
    match ParseSection(section, site, x)
    case Some(job) => [job]
    case None => []
  }

  /** The jobs of the given sections, in order. */
  function CollectJobs(sections: seq<string>, site: string, x: SnippetExtractors): seq<Job> {
    if sections == [] then []
    else CollectJobs(sections[..|sections| - 1], site, x) + SectionJobs(sections[|sections| - 1], site, x)
  }

  lemma CollectJobsStep(sections: seq<string>, i: nat, site: string, x: SnippetExtractors)
    requires i < |sections|
    ensures CollectJobs(sections[..i + 1], site, x) == CollectJobs(sections[..i], site, x) + SectionJobs(sections[i], site, x)
  {
    assert sections[..i + 1][..i] == sections[..i];
  }

  function ParsedJobs(searchResults: string, site: string, x: SnippetExtractors): seq<Job> {
    CollectJobs(FirstSections(searchResults), site, x)
  }

  /** The tags are told apart by their first character, so at most one applies to a line. */
  lemma TagsExclusive(line: string)
    ensures StartsWith(line, TitleTag) ==> !StartsWith(line, LinkTag) && !StartsWith(line, SnippetTag)
    ensures StartsWith(line, LinkTag) ==> !StartsWith(line, SnippetTag)
  {
    if StartsWith(line, TitleTag) {
      assert line[0] == line[..|TitleTag|][0] == 'T';
    }
    if StartsWith(line, LinkTag) {
      assert line[0] == line[..|LinkTag|][0] == 'L';
    }
    if StartsWith(line, SnippetTag) {
      assert line[0] == line[..|SnippetTag|][0] == 'S';
    }
  }

  /** The per-line loop of `_parse_serper_results`: each stripped line that starts
      with a tag overwrites that tag's value. */
  method ReadTaggedLines(lines: seq<string>) returns (title: string, link: string, snippet: string)
    ensures title == LastTagged(lines, TitleTag)
    ensures link == LastTagged(lines, LinkTag)
    ensures snippet == LastTagged(lines, SnippetTag)
  {
    title, link, snippet := "", "", "";
    var k := 0;
    while k < |lines|
      invariant 0 <= k <= |lines|
      invariant title == LastTagged(lines[..k], TitleTag)
      invariant link == LastTagged(lines[..k], LinkTag)
      invariant snippet == LastTagged(lines[..k], SnippetTag)
    {
      assert lines[..k + 1][..k] == lines[..k];
      var line := Strip(lines[k]);
      TagsExclusive(line);
      if StartsWith(line, TitleTag) {
        title := TagValue(line, TitleTag);
      } else if StartsWith(line, LinkTag) {
        link := TagValue(line, LinkTag);
      } else if StartsWith(line, SnippetTag) {
        snippet := TagValue(line, SnippetTag);
      }
      k := k + 1;
    }
    assert lines[..k] == lines;
  }

  /** `_parse_serper_results` (the query argument is unused by the source). */
  method ParseSerperResults(searchResults: string, site: string, query: string, x: SnippetExtractors)
    returns (jobs: seq<Job>)
    ensures jobs == ParsedJobs(searchResults, site, x)
  {
    jobs := [];
    var limited := SplitSections(searchResults);
    var i := 0;
    while i < |limited|
      invariant 0 <= i <= |limited|
      invariant jobs == CollectJobs(limited[..i], site, x)
    {
      CollectJobsStep(limited, i, site, x);
      var parsed := ParseOneSection(limited[i], site, x);
      jobs := jobs + parsed;
      i := i + 1;
    }
    assert limited[..i] == limited;
  }

  /** The sections `_parse_serper_results` walks: the reply split at "---" when it
      contains one, cut to the first 10. */
  method SplitSections(searchResults: string) returns (limited: seq<string>)
    ensures limited == FirstSections(searchResults)
  {
    var sections := if Contains(searchResults, SectionSeparator) then Split(searchResults, SectionSeparator)
                    else [searchResults];
    limited := if |sections| > MaxSections then sections[..MaxSections] else sections;
  }

  /** The loop body of `_parse_serper_results` for one section: skip a blank section
      and one without a title or a link, else build its job. */
  method ParseOneSection(section: string, site: string, x: SnippetExtractors) returns (parsed: seq<Job>)
    ensures parsed == SectionJobs(section, site, x)
  {
    if Strip(section) == "" {
      return [];
    }
    var lines := Split(Strip(section), "\n");
    var title, link, snippet := ReadTaggedLines(lines);
    if title == "" || link == "" {
      return [];
    }
    parsed := [MakeJob(title, link, snippet, site, x)];
  }

  /** No line carrying the tag: the value stays "". */
  lemma {:induction false} LastTaggedAbsent(lines: seq<string>, tag: string)
    requires |tag| > 0
    requires forall k :: 0 <= k < |lines| ==> !StartsWith(Strip(lines[k]), tag)
    ensures LastTagged(lines, tag) == ""
  {
    if lines != [] {
      var init := lines[..|lines| - 1];
      assert forall k :: 0 <= k < |init| ==> init[k] == lines[k];
      LastTaggedAbsent(init, tag);
    }
  }

  /** A later tagged line overrides an earlier one: the value is that of the last line
      carrying the tag. */
  lemma {:induction false} LastTaggedWins(lines: seq<string>, tag: string, k: nat)
    requires |tag| > 0 && k < |lines|
    requires StartsWith(Strip(lines[k]), tag)
    requires forall j :: k < j < |lines| ==> !StartsWith(Strip(lines[j]), tag)
    ensures LastTagged(lines, tag) == TagValue(Strip(lines[k]), tag)
  {
    var last := Strip(lines[|lines| - 1]);
    if k < |lines| - 1 {
      var init := lines[..|lines| - 1];
      assert init[k] == lines[k];
      assert forall j :: k < j < |init| ==> init[j] == lines[j];
      assert !StartsWith(last, tag);
      LastTaggedWins(init, tag, k);
      assert LastTagged(lines, tag) == LastTagged(init, tag);
    } else {
      assert StartsWith(last, tag);
    }
  }

  /** Every job of a list of sections comes from one of them, has a non-empty title
      and URL, carries the site, and takes its fields from that section's tagged
      lines; there is at most one job per section. */
  lemma {:induction false} CollectJobsRule(sections: seq<string>, site: string, x: SnippetExtractors)
    ensures |CollectJobs(sections, site, x)| <= |sections|
    ensures forall j :: j in CollectJobs(sections, site, x) ==>
      exists k :: 0 <= k < |sections| && JobOfSection(j, sections[k], site, x)
  {
    if sections != [] {
      var init := sections[..|sections| - 1];
      CollectJobsRule(init, site, x);
      forall j | j in CollectJobs(sections, site, x)
        ensures exists k :: 0 <= k < |sections| && JobOfSection(j, sections[k], site, x)
      {
        if j in CollectJobs(init, site, x) {
          var k :| 0 <= k < |init| && JobOfSection(j, init[k], site, x);
          assert sections[k] == init[k];
        } else {
          assert JobOfSection(j, sections[|sections| - 1], site, x);
        }
      }
    }
  }

  /** Nothing a section yields is dropped: the job of any section of the list is
      among the collected jobs. */
  lemma {:induction false} CollectJobsComplete(sections: seq<string>, site: string, x: SnippetExtractors, k: nat, j: Job)
    requires k < |sections| && j in SectionJobs(sections[k], site, x)
    ensures j in CollectJobs(sections, site, x)
  {
    var n := |sections| - 1;
    if k < n {
      var init := sections[..n];
      assert init[k] == sections[k];
      CollectJobsComplete(init, site, x, k, j);
    } else {
      assert k == n;
    }
  }

  /** `job` is what a section yields for `site`. */
  ghost predicate JobOfSection(job: Job, section: string, site: string, x: SnippetExtractors) {
    var lines := SectionLines(section);
    && job.title != "" && job.url != "" && job.site == site
    && job.title == LastTagged(lines, TitleTag)
    && job.url == LastTagged(lines, LinkTag)
    && job.description == LastTagged(lines, SnippetTag)
    && job.company == ExtractCompany(job.title)
    && job.jobType == ExtractJobType(job.description)
    && job.location == x.location(job.description)
    && job.postedDate == x.postedDate(job.description)
    && job.salaryRange == x.salaryRange(job.description)
    && job.matchScore.None? && job.evaluationDate.None?
  }

  /** The parser yields at most 10 jobs, each from one of the first 10 sections of the
      reply, with a non-empty title and URL, the given site, and the section's snippet
      as its description. */
  lemma ParsedJobsRule(searchResults: string, site: string, x: SnippetExtractors)
    ensures |ParsedJobs(searchResults, site, x)| <= MaxSections
    ensures forall j :: j in ParsedJobs(searchResults, site, x) ==>
      exists k :: 0 <= k < |FirstSections(searchResults)| && k < MaxSections
        && JobOfSection(j, Sections(searchResults)[k], site, x)
  {
    var first := FirstSections(searchResults);
    CollectJobsRule(first, site, x);
    assert forall k :: 0 <= k < |first| ==> first[k] == Sections(searchResults)[k];
  }

  /** The parser keeps every good record: a section among the first 10 of the reply
      that is not blank and has a title and a link yields its job in the result. */
  lemma ParsedJobsComplete(searchResults: string, site: string, x: SnippetExtractors, k: nat)
    requires k < |FirstSections(searchResults)|
    requires ParseSection(FirstSections(searchResults)[k], site, x).Some?
    ensures ParseSection(FirstSections(searchResults)[k], site, x).value in ParsedJobs(searchResults, site, x)
  {
    var first := FirstSections(searchResults);
    var job := ParseSection(first[k], site, x).value;
    assert SectionJobs(first[k], site, x) == [job];
    CollectJobsComplete(first, site, x, k, job);
  }

  /** The `"---" in text` guard changes nothing: without a separator the split is the whole text. */
  lemma SectionsIsSplit(searchResults: string)
    ensures Sections(searchResults) == Split(searchResults, SectionSeparator)
  {
    SplitFirstPiece(searchResults, SectionSeparator);
  }

  // ---------------------------------------------------------------------------
  // The mock fallback

  const MockJobsCap: nat := 5

  function DigitChar(d: nat): char
    requires d < 10
  {
    ('0' as int + d) as char
  }

  /** `str(n)` for a natural number. */
  function NatToString(n: nat): string
    decreases n
  {
    if n < 10 then [DigitChar(n)] else NatToString(n / 10) + [DigitChar(n % 10)]
  }

  function MockUrl(site: string, i: nat): string {
    "https://" + site + "/job/" + NatToString(i)
  }

  /** The `i`-th placeholder posting for a site. */
  function MockJob(query: string, site: string, i: nat): Job {
    Job(
      title := "Senior " + query + " Engineer",
      company := "Tech Company " + NatToString(i),
      location := "San Francisco, CA",
      url := MockUrl(site, i),
      description := "Looking for a senior " + query + " engineer with 5+ years experience...",
      postedDate := "2024-01-15",
      salaryRange := "$120,000 - $180,000",
      site := site,
      jobType := "Full-time",
      matchScore := None,
      evaluationDate := None)
  }

  /** `len(range(1, min(max_results + 1, 6)))`. */
  function MockCount(maxResults: int): nat {
    if maxResults <= 0 then 0 else if maxResults >= MockJobsCap then MockJobsCap else maxResults
  }

  /** `_search_site`: postings 1 to `MockCount(maxResults)`. */
  function SearchSite(query: string, site: string, maxResults: int): seq<Job> {
    seq(MockCount(maxResults), k requires 0 <= k < MockCount(maxResults) => MockJob(query, site, k + 1))
  }

  /** The fallback yields `max(0, min(max_results, 5))` postings for the site, the
      `k`-th at `https://{site}/job/{k+1}`, their URLs pairwise distinct. */
  lemma SearchSiteRule(query: string, site: string, maxResults: int)
    ensures |SearchSite(query, site, maxResults)| == (if maxResults < 0 then 0 else if maxResults < 5 then maxResults else 5)
    ensures forall k :: 0 <= k < |SearchSite(query, site, maxResults)| ==>
      SearchSite(query, site, maxResults)[k].url == "https://" + site + "/job/" + [DigitChar(k + 1)]
      && SearchSite(query, site, maxResults)[k].site == site
      && SearchSite(query, site, maxResults)[k].title != ""
    ensures forall i, j :: 0 <= i < j < |SearchSite(query, site, maxResults)| ==>
      SearchSite(query, site, maxResults)[i].url != SearchSite(query, site, maxResults)[j].url
  {
    var r := SearchSite(query, site, maxResults);
    forall i, j | 0 <= i < j < |r| ensures r[i].url != r[j].url {
      var a, b := r[i].url, r[j].url;
      assert |a| == |b|;
      assert a[|a| - 1] == DigitChar(i + 1) && b[|b| - 1] == DigitChar(j + 1);
    }
  }

  // ---------------------------------------------------------------------------
  // The per-site search loop

  /** The boards searched when no list of sites is given. */
  const DefaultSites: seq<string> := [
    "indeed.com", "linkedin.com/jobs", "glassdoor.com", "monster.com",
    "ziprecruiter.com", "dice.com", "angel.co", "remote.co"]

  /** The external search provider: given a query and a result count, its text reply,
      or None when the call raises. */
  type Provider = (string, int) -> Option<string>

  /** `f'site:{site} "{query}" jobs'`. */
  function SiteQuery(site: string, query: string): string {
    "site:" + site + " \"" + query + "\" jobs"
  }

  /** One site's share: the parsed reply, or the mock postings when the provider fails. */
  function SiteResults(query: string, site: string, maxResults: int, provider: Provider, x: SnippetExtractors): seq<Job> {
    match provider(SiteQuery(site, query), maxResults)
    case Some(reply) => ParsedJobs(reply, site, x)
    case None => SearchSite(query, site, maxResults)
  }

  function AllSiteResults(query: string, sites: seq<string>, maxResults: int, provider: Provider, x: SnippetExtractors): seq<Job> {
    if sites == [] then []
    else AllSiteResults(query, sites[..|sites| - 1], maxResults, provider, x)
         + SiteResults(query, sites[|sites| - 1], maxResults, provider, x)
  }

  lemma AllSiteResultsStep(query: string, sites: seq<string>, i: nat, maxResults: int, provider: Provider, x: SnippetExtractors)
    requires i < |sites|
    ensures AllSiteResults(query, sites[..i + 1], maxResults, provider, x)
      == AllSiteResults(query, sites[..i], maxResults, provider, x) + SiteResults(query, sites[i], maxResults, provider, x)
  {
    assert sites[..i + 1][..i] == sites[..i];
  }

  function SitesOrDefault(sites: Option<seq<string>>): seq<string> {
    match sites
    case Some(s) => s
    case None => DefaultSites
  }

  /** The default of `job_search_tool`'s `max_results`. */
  const DefaultMaxResults: int := 20

  function MaxResultsOrDefault(maxResults: Option<int>): int {
    match maxResults
    case Some(n) => n
    case None => DefaultMaxResults
  }

  /** `job_search_tool` without the one-second pauses and the JSON encoding: every
      site in turn, falling back to the mock postings when the provider fails. An
      absent argument takes the source's default: the eight boards, 20 results. */
  method JobSearch(query: string, sites: Option<seq<string>>, maxResultsArg: Option<int>, provider: Provider, x: SnippetExtractors)
    returns (results: seq<Job>)
    ensures results == AllSiteResults(query, SitesOrDefault(sites), MaxResultsOrDefault(maxResultsArg), provider, x)
  {
    var targets := SitesOrDefault(sites);
    var maxResults := MaxResultsOrDefault(maxResultsArg);
    results := [];
    var i := 0;
    while i < |targets|
      invariant 0 <= i <= |targets|
      invariant results == AllSiteResults(query, targets[..i], maxResults, provider, x)
    {
      AllSiteResultsStep(query, targets, i, maxResults, provider, x);
      var siteResults := SearchOneSite(query, targets[i], maxResults, provider, x);
      results := results + siteResults;
      i := i + 1;
    }
    assert targets[..i] == targets;
  }

  /** The loop body of `job_search_tool` for one site: ask the provider, parse its
      reply, or fall back to the mock postings when it fails. */
  method SearchOneSite(query: string, site: string, maxResults: int, provider: Provider, x: SnippetExtractors)
    returns (siteResults: seq<Job>)
    ensures siteResults == SiteResults(query, site, maxResults, provider, x)
  {
    var reply := provider(SiteQuery(site, query), maxResults);
    if reply.Some? {
      siteResults := ParseSerperResults(reply.value, site, query, x);
    } else {
      siteResults := SearchSite(query, site, maxResults);
    }
  }

  /** One site's share, whatever the provider does: at most 10 jobs, each with a
      non-empty title and URL and that site. */
  lemma SiteResultsRule(query: string, site: string, maxResults: int, provider: Provider, x: SnippetExtractors)
    ensures |SiteResults(query, site, maxResults, provider, x)| <= MaxSections
    ensures forall j :: j in SiteResults(query, site, maxResults, provider, x) ==>
      j.title != "" && j.url != "" && j.site == site
  {
    var mine := SiteResults(query, site, maxResults, provider, x);
    match provider(SiteQuery(site, query), maxResults)
    case Some(reply) =>
      ParsedJobsRule(reply, site, x);
    case None =>
      SearchSiteRule(query, site, maxResults);
      forall j | j in mine ensures j.title != "" && j.url != "" && j.site == site {
        var k :| 0 <= k < |mine| && mine[k] == j;
      }
  }

  /** Whatever the provider does, every result has a non-empty title and URL and the
      site it was found for, no site contributes more than 10 results, and so there are
      at most 10 per site in all. */
  lemma {:induction false} AllSiteResultsRule(query: string, sites: seq<string>, maxResults: int, provider: Provider, x: SnippetExtractors)
    ensures forall i :: 0 <= i < |sites| ==> |SiteResults(query, sites[i], maxResults, provider, x)| <= MaxSections
    ensures |AllSiteResults(query, sites, maxResults, provider, x)| <= MaxSections * |sites|
    ensures forall j :: j in AllSiteResults(query, sites, maxResults, provider, x) ==>
      j.title != "" && j.url != "" && j.site in sites
  {
    if sites != [] {
      var init := sites[..|sites| - 1];
      var site := sites[|sites| - 1];
      AllSiteResultsRule(query, init, maxResults, provider, x);
      SiteResultsRule(query, site, maxResults, provider, x);
      forall i | 0 <= i < |sites| ensures |SiteResults(query, sites[i], maxResults, provider, x)| <= MaxSections {
        SiteResultsRule(query, sites[i], maxResults, provider, x);
      }
      forall j | j in AllSiteResults(query, init, maxResults, provider, x) ensures j.site in sites {
        assert j.site in init;
      }
    }
  }
}
