/** `report_generation_tool` and the selection logic of `_generate_markdown_report`:
    keep the jobs scoring at least 70, render the first ten, each with at most 300
    characters of its description. */
module Report {
  import opened Seqs
  import opened Jobs
  import opened Scoring
  import opened Evaluate

  const ReportThreshold: real := 70.0
  const MaxCards: nat := 10
  const ExcerptLength: nat := 300

  /** One rendered opportunity: its 1-based rank, the job and the description excerpt. */
  datatype Card = Card(rank: nat, job: Job, excerpt: string)

  /** What the report states: how many opportunities were found and the rendered cards. */
  datatype JobReport = JobReport(found: nat, cards: seq<Card>)

  predicate IsTop(job: Job) {
    ScoreOf(job) >= ReportThreshold
  }

  /** `[job for job in jobs if job.get('match_score', 0) >= 70]`. */
  function TopOpportunities(jobs: seq<Job>): seq<Job> {
    Filter(IsTop, jobs)
  }

  /** `description[:300]`. */
  function Excerpt(description: string): string {
    if |description| <= ExcerptLength then description else description[..ExcerptLength]
  }

  /** The cards for `jobs[:10]`, ranked from 1. */
  function Cards(jobs: seq<Job>): seq<Card> {
    var shown := if |jobs| <= MaxCards then |jobs| else MaxCards;
    seq(shown, k requires 0 <= k < shown => Card(k + 1, jobs[k], Excerpt(jobs[k].description)))
  }

  /** The selection part of `_generate_markdown_report` (the profile summary, the date
      and the markdown text are presentation). */
  method RenderReport(jobs: seq<Job>) returns (report: JobReport)
    ensures report == JobReport(|jobs|, Cards(jobs))
  {
    var cards: seq<Card> := [];
    var i := 0;
    while i < |jobs| && i < MaxCards
      invariant 0 <= i <= |jobs| && i <= MaxCards
      invariant |cards| == i
      invariant forall k :: 0 <= k < i ==> cards[k] == Card(k + 1, jobs[k], Excerpt(jobs[k].description))
    {
      var job := jobs[i];
      var description := job.description;
      var excerpt := if |description| > ExcerptLength then description[..ExcerptLength] else description;
      cards := cards + [Card(i + 1, job, excerpt)];
      i := i + 1;
    }
    report := JobReport(|jobs|, cards);
  }

  /** `report_generation_tool`: filter, then render. */
  method ReportGeneration(jobs: seq<Job>) returns (report: JobReport)
    ensures report == JobReport(|TopOpportunities(jobs)|, Cards(TopOpportunities(jobs)))
  {
    var topJobs := TopOpportunities(jobs);
    report := RenderReport(topJobs);
  }

  /** An excerpt is the first 300 characters of the description, or the whole
      description when it is shorter. */
  lemma ExcerptRule(description: string)
    ensures |Excerpt(description)| <= ExcerptLength
    ensures Excerpt(description) <= description
    ensures |description| <= ExcerptLength <==> Excerpt(description) == description
    ensures |description| > ExcerptLength ==> Excerpt(description) == description[..ExcerptLength]
  {
  }

  /** The report counts the opportunities scoring at least 70 and renders the first
      ten of them in input order, ranked from 1, each with its excerpt; every rendered
      job came from the input and scores at least 70. */
  lemma ReportRule(jobs: seq<Job>)
    ensures var top := TopOpportunities(jobs);
      var r := JobReport(|top|, Cards(top));
      && r.found == |top| <= |jobs|
      && |r.cards| == (if |top| < MaxCards then |top| else MaxCards)
      && (forall k :: 0 <= k < |r.cards| ==>
            r.cards[k].rank == k + 1 && r.cards[k].job == top[k]
            && r.cards[k].job in jobs && ScoreOf(r.cards[k].job) >= ReportThreshold
            && |r.cards[k].excerpt| <= ExcerptLength && r.cards[k].excerpt <= r.cards[k].job.description)
      && (forall k :: 0 <= k < |jobs| && ScoreOf(jobs[k]) >= ReportThreshold ==> jobs[k] in top)
  {
    var top := TopOpportunities(jobs);
    FilterMembers(IsTop, jobs);
    forall k | 0 <= k < |Cards(top)|
      ensures |Cards(top)[k].excerpt| <= ExcerptLength
      ensures Cards(top)[k].excerpt <= Cards(top)[k].job.description
    {
      ExcerptRule(top[k].description);
    }
  }

  /** On a list ordered by non-increasing score the threshold keeps a prefix: the `n`
      jobs before the first one scoring under 70. */
  lemma {:induction false} TopOfSortedIsPrefix(jobs: seq<Job>) returns (n: nat)
    requires SortedByScore(jobs)
    ensures n <= |jobs| && TopOpportunities(jobs) == jobs[..n]
    ensures forall k :: 0 <= k < n ==> ScoreOf(jobs[k]) >= ReportThreshold
    ensures n < |jobs| ==> ScoreOf(jobs[n]) < ReportThreshold
  {
    if jobs == [] {
      n := 0;
    } else {
      var init := jobs[..|jobs| - 1];
      assert SortedByScore(init);
      var m := TopOfSortedIsPrefix(init);
      n := TopPrefixStep(jobs, m);
    }
  }

  /** The induction step: the prefix of `jobs` from the prefix of all but its last entry. */
  lemma TopPrefixStep(jobs: seq<Job>, m: nat) returns (n: nat)
    requires jobs != [] && SortedByScore(jobs)
    requires var init := jobs[..|jobs| - 1];
      && m <= |init| && TopOpportunities(init) == init[..m]
      && (forall k :: 0 <= k < m ==> ScoreOf(init[k]) >= ReportThreshold)
      && (m < |init| ==> ScoreOf(init[m]) < ReportThreshold)
    ensures n <= |jobs| && TopOpportunities(jobs) == jobs[..n]
    ensures forall k :: 0 <= k < n ==> ScoreOf(jobs[k]) >= ReportThreshold
    ensures n < |jobs| ==> ScoreOf(jobs[n]) < ReportThreshold
  {
    var init := jobs[..|jobs| - 1];
    var last := jobs[|jobs| - 1];
    assert TopOpportunities(jobs) == TopOpportunities(init) + (if IsTop(last) then [last] else []);
    if IsTop(last) {
      assert forall k :: 0 <= k < |init| ==> init[k] == jobs[k] && ScoreOf(init[k]) >= ReportThreshold;
      assert m == |init|;
      n := |jobs|;
      assert init[..m] == init;
      assert jobs == init + [last];
    } else {
      n := m;
      assert jobs[..n] == init[..m];
    }
  }

  /** Past the prefix every job of a sorted list scores under 70. */
  lemma TopOfSortedTail(jobs: seq<Job>) returns (n: nat)
    requires SortedByScore(jobs)
    ensures n <= |jobs| && TopOpportunities(jobs) == jobs[..n]
    ensures forall k :: 0 <= k < n ==> ScoreOf(jobs[k]) >= ReportThreshold
    ensures forall k :: n <= k < |jobs| ==> ScoreOf(jobs[k]) < ReportThreshold
  {
    n := TopOfSortedIsPrefix(jobs);
  }

  /** Evaluating and then reporting shows the highest-scoring jobs: the cards are the
      first entries of the ranked list, and every ranked job left out of the report
      either scores under 70 or scores no more than any rendered one. */
  lemma EvaluateThenReport(jobs: seq<Job>, profile: Profile, stamps: nat -> string)
    ensures var ranked := SortByScore(Annotated(jobs, Scorer(profile), stamps));
      var cards := Cards(TopOpportunities(ranked));
      && (forall k :: 0 <= k < |cards| ==> cards[k].job == ranked[k])
      && (forall k, m :: 0 <= k < |cards| && |cards| <= m < |ranked| ==>
            ScoreOf(ranked[m]) <= ScoreOf(cards[k].job))
      && (forall m :: 0 <= m < |ranked| && ScoreOf(ranked[m]) >= ReportThreshold && m >= MaxCards ==>
            |cards| == MaxCards)
  {
    var ranked := SortByScore(Annotated(jobs, Scorer(profile), stamps));
    SortOrdered(Annotated(jobs, Scorer(profile), stamps));
    var n := TopOfSortedTail(ranked);
  }
}
