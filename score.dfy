/** The weighted match scorer `_calculate_match_score`: five non-negative
    components (skills 40, experience 25, location 15 or 10, salary 10, company
    type 10) added up and capped at 100. Scores are exact reals. */
module Scoring {
  import opened Seqs
  import opened Text
  import opened Jobs
  import opened Extract

  const MaxScore: real := 100.0

  /** `len(set(job_skills) & set(user_skills)) / max(len(job_skills), 1) * 40`. */
  function SkillComponent(jobSkills: seq<string>, userSkills: seq<string>): real {
    var matched := |(set t | t in jobSkills) * (set t | t in userSkills)|;
    var mentioned := if |jobSkills| > 1 then |jobSkills| else 1;
    matched as real / mentioned as real * 40.0
  }

  /** 25 when the profile has the required years, else 25 less 5 per missing year, never below 0. */
  function ExperienceComponent(required: int, userYears: int): real {
    if required <= userYears then 25.0
    else
      var falloff := 25 - (required - userYears) * 5;
      (if falloff > 0 then falloff else 0) as real
  }

  /** Some lowered preferred location occurs in the lowered job location. */
  predicate PreferredLocationHit(jobLocation: string, preferred: seq<string>) {
    exists i :: 0 <= i < |preferred| && Contains(Lower(jobLocation), Lower(preferred[i]))
  }

  /** 15 for a preferred location, else 10 for a remote or anywhere posting, else 0. */
  function LocationComponent(jobLocation: string, preferred: seq<string>): real {
    var location := Lower(jobLocation);
    if PreferredLocationHit(jobLocation, preferred) then 15.0
    else if Contains(location, "remote") || Contains(location, "anywhere") then 10.0
    else 0.0
  }

  /** Counted only when both salaries are known (non-zero): 10 when the job pays at
      least the expectation, else `max(0, 10 - (expected - job) / expected * 10)`. */
  function SalaryComponent(jobSalary: int, expected: int): real {
    if jobSalary != 0 && expected != 0 then
      if jobSalary >= expected then 10.0
      else
        var falloff := 10.0 - (expected - jobSalary) as real / expected as real * 10.0;
        if falloff > 0.0 then falloff else 0.0
    else 0.0
  }

  /** 10 when the preferred company type is non-empty and occurs, lowered, in the lowered company name. */
  function CompanyComponent(companyType: string, company: string): real {
    if companyType != "" && Contains(Lower(company), Lower(companyType)) then 10.0 else 0.0
  }

  /** The five components before the cap. */
  function ComponentSum(job: Job, profile: Profile): real {
    SkillComponent(SkillsIn(Lower(job.description)), profile.skills)
    + ExperienceComponent(RequiredYears(job.description), profile.yearsExperience)
    + LocationComponent(job.location, profile.preferredLocations)
    + SalaryComponent(ExtractSalary(job.salaryRange), profile.expectedSalary)
    + CompanyComponent(profile.preferredCompanyType, job.company)
  }

  /** `min(score, max_score)`. */
  function MatchScore(job: Job, profile: Profile): real {
    var total := ComponentSum(job, profile);
    if total <= MaxScore then total else MaxScore
  }

  /** `_calculate_match_score`: accumulate the components one after the other. */
  method CalculateMatchScore(job: Job, profile: Profile) returns (score: real)
    ensures score == MatchScore(job, profile)
    ensures 0.0 <= score <= MaxScore
  {
    score := 0.0;

    var jobSkills := ExtractSkills(job.description);
    score := score + SkillComponent(jobSkills, profile.skills);

    var requiredExp := ExtractExperience(job.description);
    score := score + ExperienceComponent(requiredExp, profile.yearsExperience);

    score := score + LocationComponent(job.location, profile.preferredLocations);

    var jobSalary := ExtractSalary(job.salaryRange);
    score := score + SalaryComponent(jobSalary, profile.expectedSalary);

    score := score + CompanyComponent(profile.preferredCompanyType, job.company);

    MatchScoreBounds(job, profile);
    if score > MaxScore {
      score := MaxScore;
    }
  }

  // ---------------------------------------------------------------------------
  // The components, one rule each

  /** The skill share lies in [0, 40], and no skill in common gives 0. */
  lemma SkillComponentRule(jobSkills: seq<string>, userSkills: seq<string>)
    ensures 0.0 <= SkillComponent(jobSkills, userSkills) <= 40.0
    ensures (forall t :: t in jobSkills ==> t !in userSkills) ==> SkillComponent(jobSkills, userSkills) == 0.0
  {
    var js := set t | t in jobSkills;
    var us := set t | t in userSkills;
    var matched := |js * us|;
    var mentioned := if |jobSkills| > 1 then |jobSkills| else 1;
    assert matched <= mentioned by {
      SetOfSeqCard(jobSkills);
      SubsetCard(js * us, js);
    }
    FractionAtMostOne(matched, mentioned);
    if forall t :: t in jobSkills ==> t !in userSkills {
      assert js * us == {};
    }
  }

  /** A non-empty, duplicate-free list of posting skills all held by the user gives the full 40. */
  lemma SkillComponentFull(jobSkills: seq<string>, userSkills: seq<string>)
    requires Distinct(jobSkills) && jobSkills != []
    requires forall t :: t in jobSkills ==> t in userSkills
    ensures SkillComponent(jobSkills, userSkills) == 40.0
  {
    var js := set t | t in jobSkills;
    var us := set t | t in userSkills;
    assert js * us == js;
    SetOfSeqCard(jobSkills);
    var mentioned := if |jobSkills| > 1 then |jobSkills| else 1;
    assert |js * us| == mentioned;
    var m := |js * us|;
    assert m == mentioned && m > 0;
    SelfRatio(m as real);
    assert SkillComponent(jobSkills, userSkills) == m as real / mentioned as real * 40.0;
  }

  lemma SelfRatio(x: real)
    requires x > 0.0
    ensures x / x == 1.0
  {
  }

  lemma FractionAtMostOne(part: nat, whole: nat)
    requires 0 < whole && part <= whole
    ensures 0.0 <= part as real / whole as real <= 1.0
  {
  }

  /** The experience component lies in [0, 25], is 25 exactly when the profile has the
      required years, and never grows as the requirement rises or the profile's years fall. */
  lemma ExperienceComponentRule(required: int, userYears: int)
    ensures 0.0 <= ExperienceComponent(required, userYears) <= 25.0
    ensures ExperienceComponent(required, userYears) == 25.0 <==> required <= userYears
    ensures required >= userYears + 5 ==> ExperienceComponent(required, userYears) == 0.0
    ensures forall r :: required <= r ==> ExperienceComponent(r, userYears) <= ExperienceComponent(required, userYears)
    ensures forall u :: u <= userYears ==> ExperienceComponent(required, u) <= ExperienceComponent(required, userYears)
  {
  }

  /** A preferred location scores 15 (so an empty preferred entry always does, and a
      "remote" preference outranks the remote bonus); failing that, "remote" or
      "anywhere" scores 10; otherwise 0. */
  lemma LocationComponentRule(jobLocation: string, preferred: seq<string>)
    ensures LocationComponent(jobLocation, preferred) == 15.0 <==> PreferredLocationHit(jobLocation, preferred)
    ensures LocationComponent(jobLocation, preferred) == 10.0 <==>
      !PreferredLocationHit(jobLocation, preferred)
      && (Contains(Lower(jobLocation), "remote") || Contains(Lower(jobLocation), "anywhere"))
    ensures "" in preferred ==> LocationComponent(jobLocation, preferred) == 15.0
    ensures "remote" in preferred && Contains(Lower(jobLocation), "remote") ==>
      LocationComponent(jobLocation, preferred) == 15.0
  {
    if "" in preferred {
      var i :| 0 <= i < |preferred| && preferred[i] == "";
      assert OccursAt(Lower(jobLocation), Lower(preferred[i]), 0);
    }
    if "remote" in preferred && Contains(Lower(jobLocation), "remote") {
      var i :| 0 <= i < |preferred| && preferred[i] == "remote";
      assert Lower(preferred[i]) == "remote";
    }
  }

  /** An unknown (zero) salary on either side contributes nothing. With a known,
      non-negative job salary the component is 10 when it meets the expectation and
      otherwise the fraction `job / expected` of 10, so in [0, 10). */
  lemma SalaryComponentRule(jobSalary: int, expected: int)
    requires jobSalary >= 0
    ensures jobSalary == 0 || expected == 0 ==> SalaryComponent(jobSalary, expected) == 0.0
    ensures jobSalary != 0 && expected != 0 && jobSalary >= expected ==> SalaryComponent(jobSalary, expected) == 10.0
    ensures jobSalary != 0 && jobSalary < expected ==>
      SalaryComponent(jobSalary, expected) == jobSalary as real / expected as real * 10.0
      && 0.0 <= SalaryComponent(jobSalary, expected) < 10.0
    ensures 0.0 <= SalaryComponent(jobSalary, expected) <= 10.0
  {
    if jobSalary != 0 && jobSalary < expected {
      var j, e := jobSalary as real, expected as real;
      assert (e - j) / e == e / e - j / e;
      assert (j / e) * e == j;
      assert 0.0 < j / e < 1.0;
    }
  }

  /** The company component is 10 exactly for a non-empty preferred type found in the company name. */
  lemma CompanyComponentRule(companyType: string, company: string)
    ensures CompanyComponent(companyType, company) == 10.0 <==>
      companyType != "" && Contains(Lower(company), Lower(companyType))
    ensures CompanyComponent(companyType, company) == 0.0 || CompanyComponent(companyType, company) == 10.0
  {
  }

  /** The score lies in [0, 100]. The components can add up to at most 100, so the
      cap never changes the sum. */
  lemma MatchScoreBounds(job: Job, profile: Profile)
    ensures 0.0 <= ComponentSum(job, profile) <= MaxScore
    ensures MatchScore(job, profile) == ComponentSum(job, profile)
    ensures 0.0 <= MatchScore(job, profile) <= MaxScore
  {
    SkillComponentRule(SkillsIn(Lower(job.description)), profile.skills);
    ExperienceComponentRule(RequiredYears(job.description), profile.yearsExperience);
    SalaryRule(job.salaryRange);
    SalaryComponentRule(ExtractSalary(job.salaryRange), profile.expectedSalary);
  }
}
