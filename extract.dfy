/** The text-field extractors: first-match rules over a title, snippet or
    description, each with a fixed default when nothing matches. */
module Extract {
  import opened Seqs
  import opened Text

  // ---------------------------------------------------------------------------
  // Company from title

  const UnknownCompany: string := "Unknown Company"

  /** `_extract_company_from_title`. */
  function ExtractCompany(title: string): string {
    if Contains(title, " at ") then
      var parts := Split(title, " at ");
      Strip(parts[|parts| - 1])
    else if Contains(title, " - ") then
      Strip(Split(title, " - ")[0])
    else
      UnknownCompany
  }

  /** " at " wins over " - ": with " at " the company is the stripped text after some
      " at " such that no " at " starts in that text; otherwise with " - " it is the
      stripped text before the first " - "; otherwise the sentinel. When occurrences
      of " at " overlap, more than one such " at " can exist; CompanyAfterAt fixes the
      one where the left-to-right split stops. */
  lemma CompanyRule(title: string)
    ensures Contains(title, " at ") ==>
      exists m: nat :: 4 <= m <= |title| && OccursAt(title, " at ", m - 4)
        && NoOccurrenceFrom(title, " at ", m)
        && ExtractCompany(title) == Strip(title[m..])
    ensures !Contains(title, " at ") && Contains(title, " - ") ==>
      exists k: nat :: OccursAt(title, " - ", k)
        && (forall j :: 0 <= j < k ==> !OccursAt(title, " - ", j))
        && ExtractCompany(title) == Strip(title[..k])
    ensures !Contains(title, " at ") && !Contains(title, " - ") ==>
      ExtractCompany(title) == UnknownCompany
  {
    if Contains(title, " at ") {
      CompanyAfterAt(title);
      var m := LastPieceStart(title, " at ", 0);
      assert 4 <= m <= |title| && OccursAt(title, " at ", m - 4)
        && NoOccurrenceFrom(title, " at ", m) && ExtractCompany(title) == Strip(title[m..]);
    } else if Contains(title, " - ") {
      CompanyBeforeDash(title);
      var k := IndexFrom(title, " - ", 0).value;
      assert OccursAt(title, " - ", k) && (forall j :: 0 <= j < k ==> !OccursAt(title, " - ", j))
        && ExtractCompany(title) == Strip(title[..k]);
    }
  }

  lemma CompanyAfterAt(title: string)
    requires Contains(title, " at ")
    ensures var m := LastPieceStart(title, " at ", 0);
      4 <= m <= |title| && OccursAt(title, " at ", m - 4)
      && NoOccurrenceFrom(title, " at ", m)
      && ExtractCompany(title) == Strip(title[m..])
  {
    LastPieceOfSplit(title, " at ");
    var m := LastPieceStart(title, " at ", 0);
    CompanyOfLastPiece(title, title[m..]);
  }

  lemma CompanyOfLastPiece(title: string, last: string)
    requires Contains(title, " at ")
    requires var parts := Split(title, " at "); parts[|parts| - 1] == last
    ensures ExtractCompany(title) == Strip(last)
  {
  }

  lemma CompanyBeforeDash(title: string)
    requires !Contains(title, " at ") && Contains(title, " - ")
    ensures var k := IndexFrom(title, " - ", 0).value;
      OccursAt(title, " - ", k) && (forall j :: 0 <= j < k ==> !OccursAt(title, " - ", j))
      && ExtractCompany(title) == Strip(title[..k])
  {
    IndexFromFirst(title, " - ", 0);
    SplitFirstPiece(title, " - ");
  }

  // ---------------------------------------------------------------------------
  // Job type from snippet

  const FullTimeWords: seq<string> := ["full-time", "full time", "permanent"]
  const PartTimeWords: seq<string> := ["part-time", "part time"]
  const ContractWords: seq<string> := ["contract", "contractor"]
  const RemoteWords: seq<string> := ["remote", "work from home", "wfh"]

  /** `any(word in text for word in words)`. */
  predicate MentionsAny(text: string, words: seq<string>) {
    exists i :: 0 <= i < |words| && Contains(text, words[i])
  }

  /** `_extract_job_type_from_snippet`. */
  function ExtractJobType(snippet: string): string {
    var text := Lower(snippet);
    if MentionsAny(text, FullTimeWords) then "Full-time"
    else if MentionsAny(text, PartTimeWords) then "Part-time"
    else if MentionsAny(text, ContractWords) then "Contract"
    else if MentionsAny(text, RemoteWords) then "Remote"
    else "Full-time"
  }

  /** Lowering twice is lowering once. */
  lemma LowerIdempotent(s: string)
    ensures Lower(Lower(s)) == Lower(s)
  {
  }

  /** "contractor" contains "contract", so the second contract keyword never decides anything. */
  lemma ContractorIsContract(text: string)
    ensures MentionsAny(text, ContractWords) <==> Contains(text, "contract")
  {
    if Contains(text, "contractor") {
      var i: nat :| OccursAt(text, "contractor", i);
      assert text[i..i + 10][..8] == text[i..i + 8];
      assert OccursAt(text, "contract", i);
    }
    if Contains(text, "contract") {
      assert Contains(text, ContractWords[0]);
    }
  }

  /** The job type is one of four labels, and each label is characterised in both
      directions: Part-time, Contract and Remote each need their own keyword and the
      absence of every higher-priority keyword; Full-time is what is left. */
  lemma JobTypeRule(snippet: string)
    ensures var r := ExtractJobType(snippet);
      r == "Full-time" || r == "Part-time" || r == "Contract" || r == "Remote"
    ensures var text := Lower(snippet);
      ExtractJobType(snippet) == "Part-time" <==>
        !MentionsAny(text, FullTimeWords) && MentionsAny(text, PartTimeWords)
    ensures var text := Lower(snippet);
      ExtractJobType(snippet) == "Contract" <==>
        !MentionsAny(text, FullTimeWords) && !MentionsAny(text, PartTimeWords)
        && Contains(text, "contract")
    ensures var text := Lower(snippet);
      ExtractJobType(snippet) == "Remote" <==>
        !MentionsAny(text, FullTimeWords) && !MentionsAny(text, PartTimeWords)
        && !Contains(text, "contract") && MentionsAny(text, RemoteWords)
    ensures ExtractJobType(snippet) == ExtractJobType(Lower(snippet))
  {
    var text := Lower(snippet);
    LowerIdempotent(snippet);
    ContractorIsContract(text);
  }

  // ---------------------------------------------------------------------------
  // Skills from description

  /** The fixed skill vocabulary of `_extract_skills`, in its order. */
  const Vocabulary: seq<string> := [
    "python", "javascript", "java", "react", "node.js", "aws", "docker",
    "kubernetes", "machine learning", "ai", "tensorflow", "pytorch",
    "sql", "mongodb", "postgresql", "git", "linux", "api", "rest",
    "graphql", "microservices", "agile", "scrum", "ci/cd", "jenkins",
    "terraform", "puppet", "ansible", "devops", "security", "hipaa",
    "hitrust", "finops", "azure", "gcp", "snowflake"]

  /** The test selecting the terms that occur in `text`. */
  function OccursIn(text: string): string -> bool {
    term => Contains(text, term)
  }

  /** The vocabulary terms that occur in `text`, in vocabulary order. */
  function SkillsIn(text: string): seq<string> {
    Filter(OccursIn(text), Vocabulary)
  }

  /** `_extract_skills`: one pass over the vocabulary, appending each term that
      occurs in the lowered description. */
  method ExtractSkills(description: string) returns (found: seq<string>)
    ensures found == SkillsIn(Lower(description))
  {
    found := TermsOccurring(Lower(description), Vocabulary);
  }

  /** The loop of `_extract_skills`, over any list of terms. */
  method TermsOccurring(text: string, terms: seq<string>) returns (found: seq<string>)
    ensures found == Filter(OccursIn(text), terms)
  {
    var p := OccursIn(text);
    found := [];
    var i := 0;
    while i < |terms|
      invariant 0 <= i <= |terms|
      invariant found == Filter(p, terms[..i])
    {
      var term := terms[i];
      assert terms[..i + 1] == terms[..i] + [term];
      FilterAppend(p, terms[..i], [term]);
      FilterSingleton(p, term);
      if Contains(text, term) {
        found := found + [term];
      }
      i := i + 1;
    }
    assert terms[..i] == terms;
  }

  /** The vocabulary has no repeated term; checked term by term for the first six,
      whose neighbours share prefixes ("java", "javascript"; "python", "pytorch"),
      and in blocks of six after that. */
  lemma VocabularyDistinct()
    ensures Distinct(Vocabulary)
  {
    var v := Vocabulary;
    VocabularyTermUnique0(); assert UniqueFrom(v, 0, 1);
    VocabularyTermUnique1(); assert UniqueFrom(v, 1, 2);
    VocabularyTermUnique2(); assert UniqueFrom(v, 2, 3);
    VocabularyTermUnique3(); assert UniqueFrom(v, 3, 4);
    VocabularyTermUnique4(); assert UniqueFrom(v, 4, 5);
    VocabularyTermUnique5(); assert UniqueFrom(v, 5, 6);
    VocabularyBlockUnique6(); assert UniqueFrom(v, 6, 12);
    VocabularyBlockUnique12(); assert UniqueFrom(v, 12, 18);
    VocabularyBlockUnique18(); assert UniqueFrom(v, 18, 24);
    VocabularyBlockUnique24(); assert UniqueFrom(v, 24, 30);
    VocabularyBlockUnique30(); assert UniqueFrom(v, 30, 36);
    UniqueFromJoin(v, 0, 1, 2);
    UniqueFromJoin(v, 0, 2, 3);
    UniqueFromJoin(v, 0, 3, 4);
    UniqueFromJoin(v, 0, 4, 5);
    UniqueFromJoin(v, 0, 5, 6);
    UniqueFromJoin(v, 0, 6, 12);
    UniqueFromJoin(v, 0, 12, 18);
    UniqueFromJoin(v, 0, 18, 24);
    UniqueFromJoin(v, 0, 24, 30);
    UniqueFromJoin(v, 0, 30, 36);
    UniqueFromAll(v);
  }

  lemma VocabularyTermUnique0()
    ensures forall i, j :: 0 <= i < 1 && i < j < |Vocabulary| ==> Vocabulary[i] != Vocabulary[j]
  {
  }

  lemma VocabularyTermUnique1()
    ensures forall i, j :: 1 <= i < 2 && i < j < |Vocabulary| ==> Vocabulary[i] != Vocabulary[j]
  {
  }

  lemma VocabularyTermUnique2()
    ensures forall i, j :: 2 <= i < 3 && i < j < |Vocabulary| ==> Vocabulary[i] != Vocabulary[j]
  {
  }

  lemma VocabularyTermUnique3()
    ensures forall i, j :: 3 <= i < 4 && i < j < |Vocabulary| ==> Vocabulary[i] != Vocabulary[j]
  {
  }

  lemma VocabularyTermUnique4()
    ensures forall i, j :: 4 <= i < 5 && i < j < |Vocabulary| ==> Vocabulary[i] != Vocabulary[j]
  {
  }

  lemma VocabularyTermUnique5()
    ensures forall i, j :: 5 <= i < 6 && i < j < |Vocabulary| ==> Vocabulary[i] != Vocabulary[j]
  {
  }

  lemma VocabularyBlockUnique6()
    ensures forall i, j :: 6 <= i < 12 && i < j < |Vocabulary| ==> Vocabulary[i] != Vocabulary[j]
  {
  }

  lemma VocabularyBlockUnique12()
    ensures forall i, j :: 12 <= i < 18 && i < j < |Vocabulary| ==> Vocabulary[i] != Vocabulary[j]
  {
  }

  lemma VocabularyBlockUnique18()
    ensures forall i, j :: 18 <= i < 24 && i < j < |Vocabulary| ==> Vocabulary[i] != Vocabulary[j]
  {
  }

  lemma VocabularyBlockUnique24()
    ensures forall i, j :: 24 <= i < 30 && i < j < |Vocabulary| ==> Vocabulary[i] != Vocabulary[j]
  {
  }

  lemma VocabularyBlockUnique30()
    ensures forall i, j :: 30 <= i < 36 && i < j < |Vocabulary| ==> Vocabulary[i] != Vocabulary[j]
  {
  }

  /** The skills found are duplicate-free, drawn from the vocabulary, and a term is
      among them exactly when it occurs in the lowered description. */
  lemma SkillsRule(description: string)
    ensures Distinct(SkillsIn(Lower(description)))
    ensures forall t :: t in SkillsIn(Lower(description)) <==>
      t in Vocabulary && Contains(Lower(description), t)
  {
    VocabularyDistinct();
    var p := OccursIn(Lower(description));
    FilterDistinct(p, Vocabulary);
    FilterMembers(p, Vocabulary);
  }

  // ---------------------------------------------------------------------------
  // Years of experience from description

  /** One element of a regular expression that follows the leading `(\d+)` group. */
  datatype Piece =
    | Literal(text: string)     // the characters themselves
    | Spaces                    // `\s*`
    | OptionalChar(c: char)     // `c?`

  /** The three patterns of `_extract_experience_requirement`, each after its `(\d+)`:
      `\+?\s*years?\s*of\s*experience`, `\+?\s*years?\s*in\s*the\s*field` and
      `\+?\s*years?\s*of\s*relevant\s*experience`.
      In each, the characters an optional or starred element may consume can never
      begin what follows it, so matching greedily without backtracking accepts exactly
      what the regular-expression engine accepts. */
  const ExperiencePatterns: seq<seq<Piece>> := [
    [OptionalChar('+'), Spaces, Literal("year"), OptionalChar('s'), Spaces, Literal("of"),
     Spaces, Literal("experience")],
    [OptionalChar('+'), Spaces, Literal("year"), OptionalChar('s'), Spaces, Literal("in"),
     Spaces, Literal("the"), Spaces, Literal("field")],
    [OptionalChar('+'), Spaces, Literal("year"), OptionalChar('s'), Spaces, Literal("of"),
     Spaces, Literal("relevant"), Spaces, Literal("experience")]]

  /** The default number of years when no pattern matches. */
  const DefaultYears: nat := 3

  /** The end of the run of whitespace starting at `i`. */
  function SpacesEnd(s: string, i: nat): (e: nat)
    requires i <= |s|
    ensures i <= e <= |s|
    ensures forall k :: i <= k < e ==> IsSpace(s[k])
    ensures e == |s| || !IsSpace(s[e])
    decreases |s| - i
  {
    if i < |s| && IsSpace(s[i]) then SpacesEnd(s, i + 1) else i
  }

  /** The end of the run of decimal digits starting at `i`. */
  function DigitsEnd(s: string, i: nat): (e: nat)
    requires i <= |s|
    ensures i <= e <= |s|
    ensures forall k :: i <= k < e ==> IsDigit(s[k])
    ensures e == |s| || !IsDigit(s[e])
    decreases |s| - i
  {
    if i < |s| && IsDigit(s[i]) then DigitsEnd(s, i + 1) else i
  }

  /** The value of a string of decimal digits, as Python's `int`. */
  function DecimalValue(ds: string): nat {
    if ds == [] then 0
    else DecimalValue(ds[..|ds| - 1]) * 10 + (if IsDigit(ds[|ds| - 1]) then ds[|ds| - 1] as int - '0' as int else 0)
  }

  /** Where `pieces` stop matching when started at `i`, or None. */
  function MatchPieces(s: string, i: nat, pieces: seq<Piece>): (r: Option<nat>)
    requires i <= |s|
    ensures r.Some? ==> i <= r.value <= |s|
    decreases |pieces|
  {
    if pieces == [] then Some(i)
    else match pieces[0]
      case Literal(t) =>
        if OccursAt(s, t, i) then MatchPieces(s, i + |t|, pieces[1..]) else None
      case Spaces =>
        MatchPieces(s, SpacesEnd(s, i), pieces[1..])
      case OptionalChar(c) =>
        MatchPieces(s, if i < |s| && s[i] == c then i + 1 else i, pieces[1..])
  }

  /** `(\d+)` followed by `pieces` matches when started at `p`. */
  predicate MatchesAt(s: string, pieces: seq<Piece>, p: nat) {
    p < |s| && IsDigit(s[p]) && MatchPieces(s, DigitsEnd(s, p), pieces).Some?
  }

  /** The number `(\d+)` captures at `p`. */
  function CapturedAt(s: string, p: nat): nat
    requires p <= |s|
  {
    DecimalValue(s[p..DigitsEnd(s, p)])
  }

  /** `re.search`: try every start position from `from` on, left to right. */
  function SearchFrom(s: string, pieces: seq<Piece>, from: nat): Option<nat>
    decreases |s| - from
  {
    if from >= |s| then None
    else if MatchesAt(s, pieces, from) then Some(CapturedAt(s, from))
    else SearchFrom(s, pieces, from + 1)
  }

  function Search(s: string, pieces: seq<Piece>): Option<nat> {
    SearchFrom(s, pieces, 0)
  }

  /** `re.search` reports the number captured at the leftmost position where the
      pattern matches, and reports nothing exactly when it matches nowhere. */
  lemma SearchFromLeftmost(s: string, pieces: seq<Piece>, from: nat)
    ensures SearchFrom(s, pieces, from).None? <==>
      forall p :: from <= p ==> !MatchesAt(s, pieces, p)
    ensures SearchFrom(s, pieces, from).Some? ==>
      exists p :: from <= p < |s| && MatchesAt(s, pieces, p)
        && SearchFrom(s, pieces, from).value == CapturedAt(s, p)
        && forall q :: from <= q < p ==> !MatchesAt(s, pieces, q)
  {
    SearchFromMissing(s, pieces, from);
    if SearchFrom(s, pieces, from).Some? {
      var p := SearchFromFound(s, pieces, from);
      assert from <= p < |s| && MatchesAt(s, pieces, p);
    }
  }

  /** The search reports nothing exactly when the pattern matches nowhere from `from` on. */
  lemma {:induction false} SearchFromMissing(s: string, pieces: seq<Piece>, from: nat)
    ensures SearchFrom(s, pieces, from).None? <==>
      forall p :: from <= p ==> !MatchesAt(s, pieces, p)
    decreases |s| - from
  {
    if from < |s| && !MatchesAt(s, pieces, from) {
      SearchFromMissing(s, pieces, from + 1);
    } else if from < |s| {
      assert !(forall p :: from <= p ==> !MatchesAt(s, pieces, p));
    }
  }

  /** A reported number was captured at the leftmost matching position. */
  lemma {:induction false} SearchFromFound(s: string, pieces: seq<Piece>, from: nat) returns (p: nat)
    requires SearchFrom(s, pieces, from).Some?
    ensures from <= p < |s| && MatchesAt(s, pieces, p)
    ensures SearchFrom(s, pieces, from).value == CapturedAt(s, p)
    ensures forall q :: from <= q < p ==> !MatchesAt(s, pieces, q)
    decreases |s| - from
  {
    if MatchesAt(s, pieces, from) {
      p := from;
    } else {
      p := SearchFromFound(s, pieces, from + 1);
    }
  }

  /** The first pattern in `patterns` that matches anywhere decides. */
  function FirstMatch(text: string, patterns: seq<seq<Piece>>): Option<nat>
    decreases |patterns|
  {
    if patterns == [] then None
    else match Search(text, patterns[0])
      case Some(n) => Some(n)
      case None => FirstMatch(text, patterns[1..])
  }

  /** The years a description asks for. */
  function RequiredYears(description: string): nat {
    match FirstMatch(Lower(description), ExperiencePatterns)
    case Some(n) => n
    case None => DefaultYears
  }

  /** `_extract_experience_requirement`: try the patterns in order, returning as soon
      as one matches, else the default. */
  method ExtractExperience(description: string) returns (years: nat)
    ensures years == RequiredYears(description)
  {
    var text := Lower(description);
    var k := 0;
    while k < |ExperiencePatterns|
      invariant 0 <= k <= |ExperiencePatterns|
      invariant FirstMatch(text, ExperiencePatterns) == FirstMatch(text, ExperiencePatterns[k..])
    {
      var m := Search(text, ExperiencePatterns[k]);
      if m.Some? {
        return m.value;
      }
      assert ExperiencePatterns[k..][1..] == ExperiencePatterns[k + 1..];
      k := k + 1;
    }
    return DefaultYears;
  }

  /** The required years are those of the first pattern that matches anywhere in the
      lowered description, and the default 3 when none does. */
  lemma RequiredYearsRule(description: string)
    ensures var text := Lower(description);
      (forall k :: 0 <= k < |ExperiencePatterns| ==> Search(text, ExperiencePatterns[k]).None?)
        ==> RequiredYears(description) == DefaultYears
    ensures var text := Lower(description);
      forall k :: 0 <= k < |ExperiencePatterns| && Search(text, ExperiencePatterns[k]).Some?
        && (forall j :: 0 <= j < k ==> Search(text, ExperiencePatterns[j]).None?)
        ==> RequiredYears(description) == Search(text, ExperiencePatterns[k]).value
  {
    var text := Lower(description);
    var P := ExperiencePatterns;
    assert P[1..] == [P[1], P[2]];
    assert P[1..][1..] == [P[2]];
    assert P[1..][1..][1..] == [];
  }

  // ---------------------------------------------------------------------------
  // Average salary from a salary-range string

  /** Where `\d{1,3}` stops when started at the digit `q`. */
  function LeadingDigitsEnd(s: string, q: nat): (e: nat)
    requires q < |s| && IsDigit(s[q])
    ensures q < e <= q + 3 && e <= |s|
  {
    if !(q + 1 < |s| && IsDigit(s[q + 1])) then q + 1
    else if !(q + 2 < |s| && IsDigit(s[q + 2])) then q + 2
    else q + 3
  }

  /** Where `(?:,\d{3})*` stops when started at `e`. */
  function GroupsEnd(s: string, e: nat): (r: nat)
    requires e <= |s|
    ensures e <= r <= |s|
    decreases |s| - e
  {
    if e + 4 <= |s| && s[e] == ',' && IsDigit(s[e + 1]) && IsDigit(s[e + 2]) && IsDigit(s[e + 3])
    then GroupsEnd(s, e + 4)
    else e
  }

  /** `num.replace(',', '')`. */
  function WithoutCommas(t: string): string {
    if t == [] then []
    else (if t[0] == ',' then [] else [t[0]]) + WithoutCommas(t[1..])
  }

  /** `re.findall(r'\$?(\d{1,3}(?:,\d{3})*)', s)` from position `p` on, each group
      read as `int(num.replace(',', ''))`. A match never ends before it starts, so
      the scan resumes at the end of each match. */
  function SalaryNumbersFrom(s: string, p: nat): seq<nat>
    decreases |s| - p
  {
    if p >= |s| then []
    else
      var q := if s[p] == '$' then p + 1 else p;
      if q < |s| && IsDigit(s[q]) then
        var e := GroupsEnd(s, LeadingDigitsEnd(s, q));
        [DecimalValue(WithoutCommas(s[q..e]))] + SalaryNumbersFrom(s, e)
      else
        SalaryNumbersFrom(s, p + 1)
  }

  function SalaryNumbers(s: string): seq<nat> {
    SalaryNumbersFrom(s, 0)
  }

  /** `_extract_salary`: the floor of the average of the numbers, 0 when there are none. */
  function ExtractSalary(salaryRange: string): int {
    if salaryRange == "" then 0
    else
      var numbers := SalaryNumbers(salaryRange);
      if numbers == [] then 0 else Sum(numbers) / |numbers|
  }

  /** Unknown salary reads as 0; otherwise the average lies between the smallest and
      the largest number in the string, and is never negative. */
  lemma SalaryRule(salaryRange: string)
    ensures salaryRange == "" ==> ExtractSalary(salaryRange) == 0
    ensures SalaryNumbers(salaryRange) == [] ==> ExtractSalary(salaryRange) == 0
    ensures SalaryNumbers(salaryRange) != [] ==>
      Min(SalaryNumbers(salaryRange)) <= ExtractSalary(salaryRange) <= Max(SalaryNumbers(salaryRange))
    ensures ExtractSalary(salaryRange) >= 0
  {
    var numbers: seq<int> := SalaryNumbers(salaryRange);
    if numbers != [] {
      assert salaryRange != "";
      var lo, hi := Min(numbers), Max(numbers);
      SumBounds(numbers, lo, hi);
      var n := |numbers|;
      var avg := Sum(numbers) / n;
      assert n * lo <= Sum(numbers) <= n * hi;
      assert lo <= avg <= hi by {
        DivBounds(Sum(numbers), n, lo, hi);
      }
      assert lo >= 0;
    }
  }

  /** `g` is matched in full by `(?:,\d{3})*`: a run of groups of a comma and three digits. */
  predicate CommaGroups(g: string)
    decreases |g|
  {
    g == [] || (|g| >= 4 && g[0] == ',' && IsDigit(g[1]) && IsDigit(g[2]) && IsDigit(g[3]) && CommaGroups(g[4..]))
  }

  /** `lead + groups` is a well-formed `\d{1,3}(?:,\d{3})*` amount, such as `140,000`. */
  predicate WellFormedAmount(lead: string, groups: string) {
    1 <= |lead| <= 3 && (forall k :: 0 <= k < |lead| ==> IsDigit(lead[k])) && CommaGroups(groups)
  }

  /** Nothing at `end` could extend a match: the string ends, or neither a digit nor a
      comma follows. */
  predicate AmountBoundary(s: string, end: nat) {
    end == |s| || (end < |s| && !IsDigit(s[end]) && s[end] != ',')
  }

  /** What `int(num.replace(',', ''))` reads from a well-formed amount. */
  function AmountValue(lead: string, groups: string): nat {
    DecimalValue(WithoutCommas(lead + groups))
  }

  /** `(?:,\d{3})*` started at `e` consumes exactly the groups found there when
      nothing after them could extend the match. */
  lemma {:induction false} GroupsEndAt(s: string, e: nat, g: string)
    requires e + |g| <= |s| && s[e..e + |g|] == g && CommaGroups(g)
    requires AmountBoundary(s, e + |g|)
    ensures GroupsEnd(s, e) == e + |g|
    decreases |g|
  {
    if g != [] {
      assert s[e] == g[0] && s[e + 1] == g[1] && s[e + 2] == g[2] && s[e + 3] == g[3];
      assert s[e + 4..e + |g|] == g[4..];
      GroupsEndAt(s, e + 4, g[4..]);
    }
  }

  /** `\d{1,3}` started at `q` consumes exactly a run of one to three digits found there
      when no digit follows it. */
  lemma {:induction false} LeadingEndAt(s: string, q: nat, lead: string)
    requires 1 <= |lead| <= 3 && (forall k :: 0 <= k < |lead| ==> IsDigit(lead[k]))
    requires q + |lead| <= |s| && s[q..q + |lead|] == lead
    requires q + |lead| == |s| || !IsDigit(s[q + |lead|])
    ensures q < |s| && IsDigit(s[q])
    ensures LeadingDigitsEnd(s, q) == q + |lead|
  {
    assert forall k :: 0 <= k < |lead| ==> lead[k] == s[q + k];
  }

  lemma {:induction false} GroupsStartWithComma(s: string, m: nat, groups: string)
    requires groups != [] && CommaGroups(groups)
    requires m + |groups| <= |s| && s[m..m + |groups|] == groups
    ensures s[m] == ','
  {
    assert s[m..m + |groups|][0] == s[m];
  }

  /** The leading run of a well-formed amount is where `\d{1,3}` stops. */
  lemma {:induction false} AmountLeadEnd(s: string, q: nat, lead: string, groups: string)
    requires WellFormedAmount(lead, groups)
    requires q + |lead| + |groups| <= |s|
    requires s[q..q + |lead|] == lead && s[q + |lead|..q + |lead| + |groups|] == groups
    requires AmountBoundary(s, q + |lead| + |groups|)
    ensures q < |s| && IsDigit(s[q])
    ensures LeadingDigitsEnd(s, q) == q + |lead|
  {
    var m := q + |lead|;
    assert m == |s| || !IsDigit(s[m]) by {
      if groups == [] {
        assert AmountBoundary(s, m);
      } else {
        GroupsStartWithComma(s, m, groups);
      }
    }
    LeadingEndAt(s, q, lead);
  }

  /** A well-formed amount at `p`, with or without its `$`, is the next number reported,
      and the scan resumes right after it. */
  lemma {:induction false} AmountNext(s: string, p: nat, q: nat, lead: string, groups: string)
    requires (q == p + 1 && p < |s| && s[p] == '$') || q == p
    requires WellFormedAmount(lead, groups)
    requires q + |lead| + |groups| <= |s| && s[q..q + |lead| + |groups|] == lead + groups
    requires AmountBoundary(s, q + |lead| + |groups|)
    ensures SalaryNumbersFrom(s, p) == [AmountValue(lead, groups)] + SalaryNumbersFrom(s, q + |lead| + |groups|)
  {
    SliceHalves(s, q, lead, groups);
    AmountLeadEnd(s, q, lead, groups);
    GroupsEndAt(s, q + |lead|, groups);
    MatchEnd(s, q, q + |lead|, q + |lead| + |groups|);
    NumberAt(s, p, q, q + |lead| + |groups|, lead, groups);
  }

  lemma {:induction false} MatchEnd(s: string, q: nat, m: nat, end: nat)
    requires q < |s| && IsDigit(s[q])
    requires LeadingDigitsEnd(s, q) == m && GroupsEnd(s, m) == end
    ensures GroupsEnd(s, LeadingDigitsEnd(s, q)) == end
  {
  }

  /** The scan at `p` reports the match from the digit `q` to `end`, then resumes there. */
  lemma {:induction false} NumberAt(s: string, p: nat, q: nat, end: nat, lead: string, groups: string)
    requires (q == p + 1 && p < |s| && s[p] == '$') || q == p
    requires q < |s| && IsDigit(s[q])
    requires GroupsEnd(s, LeadingDigitsEnd(s, q)) == end && s[q..end] == lead + groups
    ensures SalaryNumbersFrom(s, p) == [AmountValue(lead, groups)] + SalaryNumbersFrom(s, end)
  {
  }

  /** A stretch without digits reports no number: the scan passes over it. */
  lemma {:induction false} SkipNoDigits(s: string, p: nat, r: nat)
    requires p <= r <= |s|
    requires forall k :: p <= k < r ==> !IsDigit(s[k])
    requires r == |s| || !IsDigit(s[r])
    ensures SalaryNumbersFrom(s, p) == SalaryNumbersFrom(s, r)
    decreases r - p
  {
    if p < r {
      SkipNoDigits(s, p + 1, r);
    }
  }

  /** A string without digits holds no salary number. */
  lemma {:induction false} NoDigitsNoNumbers(s: string)
    requires forall k :: 0 <= k < |s| ==> !IsDigit(s[k])
    ensures SalaryNumbers(s) == [] && ExtractSalary(s) == 0
  {
    SkipNoDigits(s, 0, |s|);
  }

  /** The numbers of a string laid out as `$`, an amount ending at `e1`, a stretch
      without digits up to `r`, then `$` and an amount ending the string. */
  lemma {:induction false} RangeNumbers(s: string, e1: nat, r: nat, lead1: string, groups1: string, lead2: string, groups2: string)
    requires WellFormedAmount(lead1, groups1) && WellFormedAmount(lead2, groups2)
    requires e1 == 1 + |lead1| + |groups1| && e1 <= r < |s| && r + 1 + |lead2| + |groups2| == |s|
    requires s[0] == '$' && s[1..e1] == lead1 + groups1
    requires !IsDigit(s[e1]) && s[e1] != ','
    requires forall k :: e1 <= k < r ==> !IsDigit(s[k])
    requires s[r] == '$' && s[r + 1..|s|] == lead2 + groups2
    ensures SalaryNumbers(s) == [AmountValue(lead1, groups1), AmountValue(lead2, groups2)]
  {
    AmountNext(s, 0, 1, lead1, groups1);
    SkipNoDigits(s, e1, r);
    AmountNext(s, r, r + 1, lead2, groups2);
    TwoNumbers(s, e1, r, AmountValue(lead1, groups1), AmountValue(lead2, groups2));
  }

  lemma {:induction false} TwoNumbers(s: string, e1: nat, r: nat, v1: nat, v2: nat)
    requires SalaryNumbersFrom(s, 0) == [v1] + SalaryNumbersFrom(s, e1)
    requires SalaryNumbersFrom(s, e1) == SalaryNumbersFrom(s, r)
    requires SalaryNumbersFrom(s, r) == [v2] + SalaryNumbersFrom(s, |s|)
    ensures SalaryNumbers(s) == [v1, v2]
  {
    assert SalaryNumbersFrom(s, |s|) == [];
    assert SalaryNumbersFrom(s, r) == [v2];
  }

  /** A range `$a<sep>$b` of two well-formed amounts, whose separator holds no digit and
      does not start with a comma, reports the two amounts with their commas removed,
      and the salary is their integer average. */
  lemma {:induction false} SalaryRangeRule(s: string, lead1: string, groups1: string, sep: string, lead2: string, groups2: string)
    requires WellFormedAmount(lead1, groups1) && WellFormedAmount(lead2, groups2)
    requires forall k :: 0 <= k < |sep| ==> !IsDigit(sep[k])
    requires sep == [] || sep[0] != ','
    requires s == "$" + (lead1 + groups1) + sep + "$" + (lead2 + groups2)
    ensures SalaryNumbers(s) == [AmountValue(lead1, groups1), AmountValue(lead2, groups2)]
    ensures ExtractSalary(s) == (AmountValue(lead1, groups1) + AmountValue(lead2, groups2)) / 2
  {
    var e1, r := 1 + |lead1| + |groups1|, 1 + |lead1| + |groups1| + |sep|;
    ConcatParts(s, "$", lead1 + groups1, sep, "$", lead2 + groups2);
    assert s[..1][0] == s[0] && s[r..r + 1][0] == s[r];
    forall k | e1 <= k < r ensures !IsDigit(s[k]) {
      assert s[k] == s[e1..r][k - e1];
    }
    assert !IsDigit(s[e1]) && s[e1] != ',' by {
      if sep != [] {
        assert s[e1] == s[e1..r][0];
      } else {
        assert s[e1] == s[r..r + 1][0];
      }
    }
    RangeNumbers(s, e1, r, lead1, groups1, lead2, groups2);
    PairAverage(s, AmountValue(lead1, groups1), AmountValue(lead2, groups2));
  }

  /** Two numbers average to their floored half-sum. */
  lemma {:induction false} PairAverage(s: string, v1: nat, v2: nat)
    requires SalaryNumbers(s) == [v1, v2]
    ensures ExtractSalary(s) == (v1 + v2) / 2
  {
    assert s != "";
    var pair: seq<int> := [v1, v2];
    assert pair[..1][..0] == [];
    assert Sum(pair[..1]) == v1;
    assert Sum(pair) == v1 + v2;
  }

  lemma DivBounds(total: int, n: int, lo: int, hi: int)
    requires n > 0 && n * lo <= total <= n * hi
    ensures lo <= total / n <= hi
  {
    var a, r := total / n, total % n;
    assert total == n * a + r && 0 <= r < n;
    if a < lo {
      MulMonotone(n, a + 1, lo);
    }
    if a > hi {
      MulMonotone(n, hi + 1, a);
    }
  }

  lemma MulMonotone(n: int, x: int, y: int)
    requires n >= 0 && x <= y
    ensures n * x <= n * y
  {
    assert n * y - n * x == n * (y - x);
  }
}
