/** The records the job tools pass around: a job posting and the job seeker's profile. */
module Jobs {
  import opened Seqs

  /** A job posting. A key missing from the source's dictionary is represented by the
      default the scorer reads it with (the empty string); `matchScore` and
      `evaluationDate` are absent until the evaluator stamps them. */
  datatype Job = Job(
    title: string,
    company: string,
    location: string,
    url: string,
    description: string,
    postedDate: string,
    salaryRange: string,
    site: string,
    jobType: string,
    matchScore: Option<real>,
    evaluationDate: Option<string>)

  /** The job seeker's profile; absent keys read as 0, the empty list or the empty string. */
  datatype Profile = Profile(
    name: string,
    currentRole: string,
    yearsExperience: int,
    skills: seq<string>,
    preferredLocations: seq<string>,
    expectedSalary: int,
    preferredCompanyType: string)

  /** `job.get('match_score', 0)`. */
  function ScoreOf(j: Job): real {
    match j.matchScore
    case Some(v) => v
    case None => 0.0
  }
}
