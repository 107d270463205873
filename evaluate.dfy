/** `job_evaluation_tool`: stamp every job with its match score and evaluation time,
    then order the jobs by score, highest first, as Python's stable
    `list.sort(key=..., reverse=True)` does. */
module Evaluate {
  import opened Seqs
  import opened Jobs
  import opened Scoring

  /** The scorer for one profile, as a function of the job. */
  function Scorer(profile: Profile): Job -> real {
    job => MatchScore(job, profile)
  }

  /** The job with `match_score` set to its score and `evaluation_date` to `stamp`. */
  function Annotate(job: Job, score: Job -> real, stamp: string): Job {
    job.(matchScore := Some(score(job)), evaluationDate := Some(stamp))
  }

  /** The jobs in input order, the `k`-th stamped with the clock reading `stamps(k)`. */
  function Annotated(jobs: seq<Job>, score: Job -> real, stamps: nat -> string): seq<Job> {
    seq(|jobs|, k requires 0 <= k < |jobs| => Annotate(jobs[k], score, stamps(k)))
  }

  predicate SortedByScore(s: seq<Job>) {
    forall i, j :: 0 <= i < j < |s| ==> ScoreOf(s[i]) >= ScoreOf(s[j])
  }

  /** The test selecting the jobs with score `v`. */
  function ScoreIs(v: real): Job -> bool {
    j => ScoreOf(j) == v
  }

  /** Put `x` into a list ordered by non-increasing score, after every job scoring at least as much. */
  function Insert(sorted: seq<Job>, x: Job): seq<Job> {
    if sorted == [] || ScoreOf(sorted[|sorted| - 1]) >= ScoreOf(x) then sorted + [x]
    else Insert(sorted[..|sorted| - 1], x) + [sorted[|sorted| - 1]]
  }

  /** The result of the stable sort by descending score. */
  function SortByScore(s: seq<Job>): seq<Job> {
    if s == [] then [] else Insert(SortByScore(s[..|s| - 1]), s[|s| - 1])
  }

  /** `job_evaluation_tool` without the JSON decoding and encoding; the clock is the parameter `stamps`. */
  method EvaluateJobs(jobs: seq<Job>, profile: Profile, stamps: nat -> string) returns (ranked: seq<Job>)
    ensures ranked == SortByScore(Annotated(jobs, Scorer(profile), stamps))
  {
    var evaluated: seq<Job> := [];
    var i := 0;
    while i < |jobs|
      invariant 0 <= i <= |jobs|
      invariant evaluated == Annotated(jobs[..i], Scorer(profile), stamps)
    {
      var job := ScoreJob(jobs[i], profile, stamps(i));
      AnnotatedStep(jobs, Scorer(profile), stamps, i);
      evaluated := evaluated + [job];
      i := i + 1;
    }
    assert jobs[..i] == jobs;
    ranked := SortByScore(evaluated);
  }

  lemma AnnotatedStep(jobs: seq<Job>, score: Job -> real, stamps: nat -> string, i: nat)
    requires i < |jobs|
    ensures Annotated(jobs[..i + 1], score, stamps)
      == Annotated(jobs[..i], score, stamps) + [Annotate(jobs[i], score, stamps(i))]
  {
    var a, b := Annotated(jobs[..i + 1], score, stamps), Annotated(jobs[..i], score, stamps);
    assert |a| == |b| + 1;
    forall k | 0 <= k < i ensures a[k] == b[k] {
      assert jobs[..i + 1][k] == jobs[..i][k];
    }
  }

  /** The loop body: score the job and write the two fields. */
  method ScoreJob(job: Job, profile: Profile, stamp: string) returns (scored: Job)
    ensures scored == Annotate(job, Scorer(profile), stamp)
  {
    var score := CalculateMatchScore(job, profile);
    scored := job.(matchScore := Some(score), evaluationDate := Some(stamp));
  }

  // ---------------------------------------------------------------------------
  // Insertion

  lemma {:induction false} InsertMultiset(sorted: seq<Job>, x: Job)
    ensures multiset(Insert(sorted, x)) == multiset(sorted) + multiset{x}
  {
    if !(sorted == [] || ScoreOf(sorted[|sorted| - 1]) >= ScoreOf(x)) {
      var init := sorted[..|sorted| - 1];
      InsertMultiset(init, x);
      MultisetSnoc(sorted);
    }
  }

  lemma {:induction false} InsertLowerBound(sorted: seq<Job>, x: Job, b: real)
    requires forall k :: 0 <= k < |sorted| ==> ScoreOf(sorted[k]) >= b
    requires ScoreOf(x) >= b
    ensures forall k :: 0 <= k < |Insert(sorted, x)| ==> ScoreOf(Insert(sorted, x)[k]) >= b
  {
    if !(sorted == [] || ScoreOf(sorted[|sorted| - 1]) >= ScoreOf(x)) {
      var init := sorted[..|sorted| - 1];
      InsertLowerBound(init, x, b);
    }
  }

  lemma {:induction false} InsertSorted(sorted: seq<Job>, x: Job)
    requires SortedByScore(sorted)
    ensures SortedByScore(Insert(sorted, x))
  {
    if !(sorted == [] || ScoreOf(sorted[|sorted| - 1]) >= ScoreOf(x)) {
      var init := sorted[..|sorted| - 1];
      var last := sorted[|sorted| - 1];
      InsertSorted(init, x);
      InsertLowerBound(init, x, ScoreOf(last));
    }
  }

  /** Insertion puts `x` after every job already there with the same score. */
  lemma {:induction false} InsertStable(sorted: seq<Job>, x: Job, v: real)
    ensures Filter(ScoreIs(v), Insert(sorted, x)) == Filter(ScoreIs(v), sorted) + Filter(ScoreIs(v), [x])
  {
    var p := ScoreIs(v);
    if sorted == [] || ScoreOf(sorted[|sorted| - 1]) >= ScoreOf(x) {
      FilterAppend(p, sorted, [x]);
    } else {
      var init := sorted[..|sorted| - 1];
      var last := sorted[|sorted| - 1];
      var fx, fl := Filter(p, [x]), Filter(p, [last]);
      InsertStable(init, x, v);
      FilterAppend(p, Insert(init, x), [last]);
      FilterSnoc(p, sorted);
      assert fx == [] || fl == [] by {
        FilterSingleton(p, x);
        FilterSingleton(p, last);
      }
      calc {
        Filter(p, Insert(sorted, x));
        Filter(p, Insert(init, x)) + fl;
        Filter(p, init) + fx + fl;
        Filter(p, init) + fl + fx;
        Filter(p, sorted) + fx;
      }
    }
  }

  // ---------------------------------------------------------------------------
  // The sort

  /** The sort returns a permutation of its input. */
  lemma {:induction false} SortPermutation(s: seq<Job>)
    ensures multiset(SortByScore(s)) == multiset(s)
  {
    if s != [] {
      var init := s[..|s| - 1];
      SortPermutation(init);
      InsertMultiset(SortByScore(init), s[|s| - 1]);
      MultisetSnoc(s);
    }
  }

  /** The sort orders by non-increasing score. */
  lemma {:induction false} SortOrdered(s: seq<Job>)
    ensures SortedByScore(SortByScore(s))
  {
    if s != [] {
      SortOrdered(s[..|s| - 1]);
      InsertSorted(SortByScore(s[..|s| - 1]), s[|s| - 1]);
    }
  }

  /** The sort is stable: the jobs with any one score keep their input order. */
  lemma {:induction false} SortStable(s: seq<Job>, v: real)
    ensures Filter(ScoreIs(v), SortByScore(s)) == Filter(ScoreIs(v), s)
  {
    if s != [] {
      var init := s[..|s| - 1];
      SortStable(init, v);
      InsertStable(SortByScore(init), s[|s| - 1], v);
      FilterSnoc(ScoreIs(v), s);
    }
  }

  /** The evaluator returns the stamped jobs, each scored by the scorer and so within
      [0, 100], as a permutation ordered by non-increasing score in which equal scores
      keep their input order. */
  lemma EvaluationRule(jobs: seq<Job>, profile: Profile, stamps: nat -> string, v: real)
    ensures var ranked := SortByScore(Annotated(jobs, Scorer(profile), stamps));
      && multiset(ranked) == multiset(Annotated(jobs, Scorer(profile), stamps))
      && SortedByScore(ranked)
      && Filter(ScoreIs(v), ranked) == Filter(ScoreIs(v), Annotated(jobs, Scorer(profile), stamps))
      && (forall j :: j in ranked ==> exists k :: 0 <= k < |jobs| && j == Annotate(jobs[k], Scorer(profile), stamps(k)))
      && (forall j :: j in ranked ==> 0.0 <= ScoreOf(j) <= MaxScore)
  {
    var annotated := Annotated(jobs, Scorer(profile), stamps);
    var ranked := SortByScore(annotated);
    SortPermutation(annotated);
    SortOrdered(annotated);
    SortStable(annotated, v);
    forall j | j in ranked
      ensures exists k :: 0 <= k < |jobs| && j == Annotate(jobs[k], Scorer(profile), stamps(k))
      ensures 0.0 <= ScoreOf(j) <= MaxScore
    {
      assert j in multiset(annotated);
      var k :| 0 <= k < |annotated| && annotated[k] == j;
      MatchScoreBounds(jobs[k], profile);
    }
  }
}
