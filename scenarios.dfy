/** Worked examples: the extractors and the scorer on concrete inputs. Each
    literal fact sits in its own small lemma so that the verifier evaluates it
    on the literal alone. */
module Scenarios {
  import opened Seqs
  import opened Text
  import opened Jobs
  import opened Extract
  import opened Scoring

  // ---------------------------------------------------------------------------
  // Company from title: " at "

  const AtTitle: string := "Senior Engineer at Acme Corp"

  lemma AtTitleOccurrences()
    ensures forall i: nat :: OccursAt(AtTitle, " at ", i) <==> i == 15
  {
    assert forall k :: 0 <= k < |AtTitle| && AtTitle[k] == 't' ==> k == 17;
    forall i: nat | OccursAt(AtTitle, " at ", i) ensures i == 15 {
      assert AtTitle[i..i + 4][2] == AtTitle[i + 2];
    }
    assert forall k :: 0 <= k < 4 ==> AtTitle[15..19][k] == AtTitle[15 + k];
    assert AtTitle[15..19] == " at ";
  }

  lemma AtTitleSplit()
    ensures Split(AtTitle, " at ") == [AtTitle[..15], AtTitle[19..]]
  {
    AtTitleOccurrences();
    assert OccursAt(AtTitle, " at ", 15);
    IndexFromFirst(AtTitle, " at ", 0);
    IndexFromFirst(AtTitle, " at ", 19);
    assert IndexFrom(AtTitle, " at ", 0) == Some(15);
    assert IndexFrom(AtTitle, " at ", 19).None?;
    assert SplitFrom(AtTitle, " at ", 19) == [AtTitle[19..]];
    assert SplitFrom(AtTitle, " at ", 0) == [AtTitle[0..15]] + SplitFrom(AtTitle, " at ", 19);
    assert AtTitle[0..15] == AtTitle[..15];
  }

  lemma AtTitleTail() ensures Strip(AtTitle[19..]) == "Acme Corp" {
    var tail := AtTitle[19..];
    assert tail == "Acme Corp";
    assert tail[0] == 'A' && tail[|tail| - 1] == 'p';
    StripUnpadded(tail);
  }

  /** The company is the text after " at ". */
  lemma CompanyAtExample()
    ensures ExtractCompany(AtTitle) == "Acme Corp"
  {
    AtTitleSplit();
    AtTitleOccurrences();
    assert OccursAt(AtTitle, " at ", 15);
    var tail := AtTitle[19..];
    assert ExtractCompany(AtTitle) == Strip(tail);
    AtTitleTail();
  }

  // ---------------------------------------------------------------------------
  // Company from title: overlapping " at "

  const OverlapTitle: string := "Lead at at Scale"

  lemma OverlapOccurrences()
    ensures forall i: nat :: OccursAt(OverlapTitle, " at ", i) <==> i == 4 || i == 7
  {
    assert forall k :: 0 <= k < |OverlapTitle| && OverlapTitle[k] == 't' ==> k == 6 || k == 9;
    forall i: nat | OccursAt(OverlapTitle, " at ", i) ensures i == 4 || i == 7 {
      assert OverlapTitle[i..i + 4][2] == OverlapTitle[i + 2];
    }
    assert forall k :: 0 <= k < 4 ==> OverlapTitle[4..8][k] == OverlapTitle[4 + k];
    assert OverlapTitle[4..8] == " at ";
    assert forall k :: 0 <= k < 4 ==> OverlapTitle[7..11][k] == OverlapTitle[7 + k];
    assert OverlapTitle[7..11] == " at ";
  }

  lemma OverlapSplit()
    ensures Split(OverlapTitle, " at ") == [OverlapTitle[..4], OverlapTitle[8..]]
  {
    OverlapOccurrences();
    assert OccursAt(OverlapTitle, " at ", 4);
    IndexFromFirst(OverlapTitle, " at ", 0);
    IndexFromFirst(OverlapTitle, " at ", 8);
    assert IndexFrom(OverlapTitle, " at ", 0) == Some(4);
    assert IndexFrom(OverlapTitle, " at ", 8).None?;
    assert SplitFrom(OverlapTitle, " at ", 8) == [OverlapTitle[8..]];
    assert SplitFrom(OverlapTitle, " at ", 0) == [OverlapTitle[0..4]] + SplitFrom(OverlapTitle, " at ", 8);
    assert OverlapTitle[0..4] == OverlapTitle[..4];
  }

  lemma OverlapTail() ensures Strip(OverlapTitle[8..]) == "at Scale" {
    var tail := OverlapTitle[8..];
    assert tail == "at Scale";
    assert tail[0] == 'a' && tail[|tail| - 1] == 'e';
    StripUnpadded(tail);
  }

  /** When two " at " overlap, the left-to-right split consumes the first and never
      sees the second, so the company keeps the word "at". */
  lemma CompanyOverlapExample()
    ensures ExtractCompany(OverlapTitle) == "at Scale"
  {
    OverlapSplit();
    OverlapOccurrences();
    assert OccursAt(OverlapTitle, " at ", 4);
    var tail := OverlapTitle[8..];
    assert ExtractCompany(OverlapTitle) == Strip(tail);
    OverlapTail();
  }

  // ---------------------------------------------------------------------------
  // Company from title: " - " and neither

  const DashTitle: string := "Acme - Backend Engineer"

  lemma DashTitleFacts()
    ensures 't' !in DashTitle
    ensures forall i: nat :: OccursAt(DashTitle, " - ", i) <==> i == 4
  {
    assert forall k :: 0 <= k < |DashTitle| && DashTitle[k] == '-' ==> k == 5;
    forall i: nat | OccursAt(DashTitle, " - ", i) ensures i == 4 {
      assert DashTitle[i..i + 3][1] == DashTitle[i + 1];
    }
    assert forall k :: 0 <= k < 3 ==> DashTitle[4..7][k] == DashTitle[4 + k];
    assert DashTitle[4..7] == " - ";
  }

  lemma DashTitleHead() ensures Strip(DashTitle[..4]) == "Acme" {
    var head := DashTitle[..4];
    assert head == "Acme";
    assert head[0] == 'A' && head[|head| - 1] == 'e';
    StripUnpadded(head);
  }

  /** Without " at ", the company is the text before the first " - ". */
  lemma CompanyDashExample()
    ensures ExtractCompany(DashTitle) == "Acme"
  {
    DashTitleFacts();
    AbsentChar(DashTitle, " at ", 't');
    assert OccursAt(DashTitle, " - ", 4);
    IndexFromFirst(DashTitle, " - ", 0);
    assert IndexFrom(DashTitle, " - ", 0) == Some(4);
    SplitFirstPiece(DashTitle, " - ");
    var head := DashTitle[..4];
    assert ExtractCompany(DashTitle) == Strip(head);
    DashTitleHead();
  }

  const PlainTitle: string := "Senior Engineer"

  lemma PlainTitleFacts() ensures 'a' !in PlainTitle && '-' !in PlainTitle {}

  /** With neither separator the sentinel is returned. */
  lemma CompanyUnknownExample()
    ensures ExtractCompany(PlainTitle) == UnknownCompany
  {
    PlainTitleFacts();
    AbsentChar(PlainTitle, " at ", 'a');
    AbsentChar(PlainTitle, " - ", '-');
  }

  // ---------------------------------------------------------------------------
  // Average salary

  const ExampleRange: string := "$140,000-$160,000"

  lemma Digits140000() ensures DecimalValue("140000") == 140000 {
    assert DecimalValue("1") == 1;
    assert "14"[..1] == "1";
    assert DecimalValue("14") == 14;
    assert "140"[..2] == "14";
    assert DecimalValue("140") == 140;
    assert "1400"[..3] == "140";
    assert DecimalValue("1400") == 1400;
    assert "14000"[..4] == "1400";
    assert DecimalValue("14000") == 14000;
    assert "140000"[..5] == "14000";
  }

  lemma Digits160000() ensures DecimalValue("160000") == 160000 {
    assert DecimalValue("1") == 1;
    assert "16"[..1] == "1";
    assert DecimalValue("16") == 16;
    assert "160"[..2] == "16";
    assert DecimalValue("160") == 160;
    assert "1600"[..3] == "160";
    assert DecimalValue("1600") == 1600;
    assert "16000"[..4] == "1600";
    assert DecimalValue("16000") == 16000;
    assert "160000"[..5] == "16000";
  }

  lemma FirstAmountEnds()
    ensures ExampleRange[0] == '$' && IsDigit(ExampleRange[1])
    ensures LeadingDigitsEnd(ExampleRange, 1) == 4 && GroupsEnd(ExampleRange, 4) == 8
  {
    assert GroupsEnd(ExampleRange, 8) == 8;
  }

  lemma FirstAmountText()
    ensures WithoutCommas(ExampleRange[1..8]) == "140000"
  {
    assert forall k :: 0 <= k < 7 ==> ExampleRange[1..8][k] == ExampleRange[1 + k];
    assert ExampleRange[1..8] == "140,000";
    assert WithoutCommas("140,000") == "140000";
  }

  /** The first match is `$140,000`; the scan resumes at the `-`. */
  lemma FirstAmount()
    ensures SalaryNumbersFrom(ExampleRange, 0) == [140000] + SalaryNumbersFrom(ExampleRange, 8)
  {
    FirstAmountEnds();
    FirstAmountText();
    Digits140000();
  }

  lemma SecondAmountEnds()
    ensures ExampleRange[8] == '-' && ExampleRange[9] == '$' && IsDigit(ExampleRange[10])
    ensures LeadingDigitsEnd(ExampleRange, 10) == 13 && GroupsEnd(ExampleRange, 13) == 17
  {
    assert GroupsEnd(ExampleRange, 17) == 17;
  }

  lemma SecondAmountText()
    ensures WithoutCommas(ExampleRange[10..17]) == "160000"
  {
    assert forall k :: 0 <= k < 7 ==> ExampleRange[10..17][k] == ExampleRange[10 + k];
    assert ExampleRange[10..17] == "160,000";
    assert WithoutCommas("160,000") == "160000";
  }

  /** The `-` is skipped and the second match is `$160,000`, which ends the string. */
  lemma SecondAmount()
    ensures SalaryNumbersFrom(ExampleRange, 8) == [160000]
  {
    SecondAmountEnds();
    SecondAmountText();
    Digits160000();
    assert SalaryNumbersFrom(ExampleRange, 17) == [];
    assert SalaryNumbersFrom(ExampleRange, 9) == [160000];
  }

  /** "$140,000-$160,000" averages to 150000. */
  lemma SalaryExample()
    ensures SalaryNumbers(ExampleRange) == [140000, 160000]
    ensures ExtractSalary(ExampleRange) == 150000
  {
    FirstAmount();
    SecondAmount();
    var numbers: seq<int> := [140000, 160000];
    assert SalaryNumbers(ExampleRange) == numbers;
    assert numbers[..1] == [140000];
    assert Sum(numbers) == 300000;
  }

  // ---------------------------------------------------------------------------
  // Years of experience

  const ExampleDescription: string := "5 years of experience with python and aws"

  lemma ExampleIsLower()
    ensures Lower(ExampleDescription) == ExampleDescription
  {
    assert forall k :: 0 <= k < |ExampleDescription| ==> !('A' <= ExampleDescription[k] <= 'Z');
  }

  lemma ExampleWords()
    ensures ExampleDescription[0..1] == "5" && ExampleDescription[2..6] == "year"
    ensures ExampleDescription[8..10] == "of" && ExampleDescription[11..21] == "experience"
  {
    var s := ExampleDescription;
    assert s[0..1][0] == s[0];
    assert forall k :: 0 <= k < 4 ==> s[2..6][k] == s[2 + k];
    assert forall k :: 0 <= k < 2 ==> s[8..10][k] == s[8 + k];
    assert forall k :: 0 <= k < 10 ==> s[11..21][k] == s[11 + k];
  }

  lemma ExampleSpaceAt1() ensures SpacesEnd(ExampleDescription, 1) == 2 {
    assert IsSpace(ExampleDescription[1]) && !IsSpace(ExampleDescription[2]);
  }

  lemma ExampleSpaceAt7() ensures SpacesEnd(ExampleDescription, 7) == 8 {
    assert IsSpace(ExampleDescription[7]) && !IsSpace(ExampleDescription[8]);
  }

  lemma ExampleSpaceAt10() ensures SpacesEnd(ExampleDescription, 10) == 11 {
    assert IsSpace(ExampleDescription[10]) && !IsSpace(ExampleDescription[11]);
  }

  lemma ExampleLeadingDigit()
    ensures DigitsEnd(ExampleDescription, 0) == 1
    ensures ExampleDescription[1] != '+' && ExampleDescription[6] == 's'
  {
    assert !IsDigit(ExampleDescription[1]);
  }

  lemma ExampleSpaces()
    ensures SpacesEnd(ExampleDescription, 1) == 2 && SpacesEnd(ExampleDescription, 7) == 8
    ensures SpacesEnd(ExampleDescription, 10) == 11 && DigitsEnd(ExampleDescription, 0) == 1
    ensures ExampleDescription[1] != '+' && ExampleDescription[6] == 's'
  {
    ExampleSpaceAt1();
    ExampleSpaceAt7();
    ExampleSpaceAt10();
    ExampleLeadingDigit();
  }

  /** After the `5`, the first pattern ` years of experience` runs up to index 21. */
  lemma FirstPatternMatches()
    ensures MatchPieces(ExampleDescription, 1, ExperiencePatterns[0]).Some?
  {
    var s, P := ExampleDescription, ExperiencePatterns[0];
    assert P[1..] == [Spaces, Literal("year"), OptionalChar('s'), Spaces, Literal("of"), Spaces, Literal("experience")];
    assert P[1..][1..] == P[2..];
    assert P[2..][1..] == P[3..];
    assert P[3..][1..] == P[4..];
    assert P[4..][1..] == P[5..];
    assert P[5..][1..] == P[6..];
    assert P[6..][1..] == P[7..];
    assert P[7..][1..] == [];
    ExampleWords();
    ExampleSpaces();
    assert MatchPieces(s, 11, P[7..]) == Some(21);
    assert MatchPieces(s, 10, P[6..]) == Some(21);
    assert MatchPieces(s, 8, P[5..]) == Some(21);
    assert MatchPieces(s, 7, P[4..]) == Some(21);
    assert MatchPieces(s, 6, P[3..]) == Some(21);
    assert MatchPieces(s, 2, P[2..]) == Some(21);
    assert MatchPieces(s, 1, P[1..]) == Some(21);
  }

  /** "5 years of experience ..." asks for 5 years. */
  lemma ExperienceExample()
    ensures RequiredYears(ExampleDescription) == 5
  {
    var s := ExampleDescription;
    ExampleIsLower();
    FirstPatternMatches();
    ExampleSpaces();
    ExampleWords();
    assert MatchesAt(s, ExperiencePatterns[0], 0);
    assert CapturedAt(s, 0) == 5;
    assert Search(s, ExperiencePatterns[0]) == Some(5);
  }

  // ---------------------------------------------------------------------------
  // Skills: of the vocabulary only "python" and "aws" occur in the example
  // description; every other term holds a character, or a pair of adjacent
  // characters, that the description lacks.

  /** The vocabulary between "python" and "aws", and after "aws" in runs of five. */
  const Chunk1: seq<string> := ["javascript", "java", "react", "node.js"]
  const Chunk2: seq<string> := ["docker", "kubernetes", "machine learning", "ai", "tensorflow"]
  const Chunk3: seq<string> := ["pytorch", "sql", "mongodb", "postgresql", "git"]
  const Chunk4: seq<string> := ["linux", "api", "rest", "graphql", "microservices"]
  const Chunk5: seq<string> := ["agile", "scrum", "ci/cd", "jenkins", "terraform"]
  const Chunk6: seq<string> := ["puppet", "ansible", "devops", "security", "hipaa"]
  const Chunk7: seq<string> := ["hitrust", "finops", "azure", "gcp", "snowflake"]

  /** Every character of the example description. */
  predicate InExampleAlphabet(c: char) {
    c == '5' || c == ' ' || c == 'a' || 'c' <= c <= 'f' || c == 'h' || c == 'i' || c == 'n' || c == 'o'
    || c == 'p' || c == 'r' || c == 's' || c == 't' || c == 'w' || c == 'x' || c == 'y'
  }

  /** The characters that follow `c` somewhere in the example description. */
  function ExampleSuccessors(c: char): string {
    match c
    case ' ' => "aeopwy"
    case '5' => " "
    case 'a' => "nrw"
    case 'c' => "e"
    case 'd' => " "
    case 'e' => " anrx"
    case 'f' => " "
    case 'h' => " o"
    case 'i' => "et"
    case 'n' => " cd"
    case 'o' => "fn"
    case 'p' => "ey"
    case 'r' => "is"
    case 's' => " "
    case 't' => "h"
    case 'w' => "is"
    case 'x' => "p"
    case 'y' => "et"
    case _ => ""
  }

  lemma ExampleAlphabet()
    ensures forall k :: 0 <= k < |ExampleDescription| ==> InExampleAlphabet(ExampleDescription[k])
  {
  }

  lemma ExampleAdjacent0()
    ensures var d := ExampleDescription;
      forall i :: 0 <= i < 10 ==> d[i + 1] in ExampleSuccessors(d[i])
  {
  }

  lemma ExampleAdjacent10()
    ensures var d := ExampleDescription;
      forall i :: 10 <= i < 20 ==> d[i + 1] in ExampleSuccessors(d[i])
  {
  }

  lemma ExampleAdjacent20()
    ensures var d := ExampleDescription;
      forall i :: 20 <= i < 30 ==> d[i + 1] in ExampleSuccessors(d[i])
  {
  }

  lemma ExampleAdjacent30()
    ensures var d := ExampleDescription;
      forall i :: 30 <= i < 40 ==> d[i + 1] in ExampleSuccessors(d[i])
  {
  }

  lemma ExampleAdjacent()
    ensures var d := ExampleDescription;
      forall i :: 0 <= i < |d| - 1 ==> d[i + 1] in ExampleSuccessors(d[i])
  {
    ExampleAdjacent0();
    ExampleAdjacent10();
    ExampleAdjacent20();
    ExampleAdjacent30();
  }

  /** At index `j` the term holds a character outside the example's alphabet, or two
      characters never adjacent in the example. */
  predicate MissingAt(term: string, j: nat) {
    j < |term| && (!InExampleAlphabet(term[j]) || (j + 1 < |term| && term[j + 1] !in ExampleSuccessors(term[j])))
  }

  lemma ExampleLacksTerm(term: string, j: nat)
    requires MissingAt(term, j)
    ensures !Contains(ExampleDescription, term)
  {
    var d := ExampleDescription;
    if !InExampleAlphabet(term[j]) {
      ExampleAlphabet();
      AbsentChar(d, term, term[j]);
    } else {
      ExampleAdjacent();
      AbsentPair(d, term, j);
    }
  }

  /** No vocabulary term occurs in the example description when each is missing there
      at the index `marks` gives. */
  lemma {:induction false} ExampleLacksTerms(terms: seq<string>, marks: seq<nat>)
    requires |marks| == |terms|
    requires forall k :: 0 <= k < |terms| ==> MissingAt(terms[k], marks[k])
    ensures Filter(OccursIn(ExampleDescription), terms) == []
  {
    if terms != [] {
      var n := |terms| - 1;
      ExampleLacksTerms(terms[..n], marks[..n]);
      ExampleLacksTerm(terms[n], marks[n]);
    }
  }

  lemma ExampleChunk1()
    ensures Filter(OccursIn(ExampleDescription), Chunk1) == []
  {
    ExampleLacksTerms(Chunk1, [0, 0, 0, 0]);
  }

  lemma ExampleChunk2()
    ensures Filter(OccursIn(ExampleDescription), Chunk2) == []
  {
    ExampleLacksTerms(Chunk2, [0, 0, 0, 0, 0]);
  }

  lemma ExampleChunk3()
    ensures Filter(OccursIn(ExampleDescription), Chunk3) == []
  {
    ExampleLacksTerms(Chunk3, [2, 0, 0, 0, 0]);
  }

  lemma ExampleChunk4()
    ensures Filter(OccursIn(ExampleDescription), Chunk4) == []
  {
    ExampleLacksTerms(Chunk4, [0, 0, 0, 0, 0]);
  }

  lemma ExampleChunk5()
    ensures Filter(OccursIn(ExampleDescription), Chunk5) == []
  {
    ExampleLacksTerms(Chunk5, [0, 0, 0, 0, 0]);
  }

  lemma ExampleChunk6()
    ensures Filter(OccursIn(ExampleDescription), Chunk6) == []
  {
    ExampleLacksTerms(Chunk6, [0, 1, 0, 0, 0]);
  }

  lemma ExampleChunk7()
    ensures Filter(OccursIn(ExampleDescription), Chunk7) == []
  {
    ExampleLacksTerms(Chunk7, [0, 0, 0, 0, 0]);
  }

  lemma ExamplePresent()
    ensures Contains(ExampleDescription, "python") && Contains(ExampleDescription, "aws")
  {
    var d := ExampleDescription;
    assert forall k :: 0 <= k < 6 ==> d[27..33][k] == d[27 + k];
    assert d[27..33] == "python";
    assert OccursAt(d, "python", 27);
    assert forall k :: 0 <= k < 3 ==> d[38..41][k] == d[38 + k];
    assert d[38..41] == "aws";
    assert OccursAt(d, "aws", 38);
  }

  /** Where the chunks sit in the vocabulary, around "python" (at 0) and "aws" (at 5). */
  lemma VocabularyChunk1()
    ensures Vocabulary[1..5] == Chunk1
  {
    assert forall k :: 0 <= k < 4 ==> Vocabulary[1..5][k] == Vocabulary[1 + k];
  }

  lemma VocabularyChunk2()
    ensures Vocabulary[6..11] == Chunk2
  {
    assert forall k :: 0 <= k < 5 ==> Vocabulary[6..11][k] == Vocabulary[6 + k];
  }

  lemma VocabularyChunk3()
    ensures Vocabulary[11..16] == Chunk3
  {
    assert forall k :: 0 <= k < 5 ==> Vocabulary[11..16][k] == Vocabulary[11 + k];
  }

  lemma VocabularyChunk4()
    ensures Vocabulary[16..21] == Chunk4
  {
    assert forall k :: 0 <= k < 5 ==> Vocabulary[16..21][k] == Vocabulary[16 + k];
  }

  lemma VocabularyChunk5()
    ensures Vocabulary[21..26] == Chunk5
  {
    assert forall k :: 0 <= k < 5 ==> Vocabulary[21..26][k] == Vocabulary[21 + k];
  }

  lemma VocabularyChunk6()
    ensures Vocabulary[26..31] == Chunk6
  {
    assert forall k :: 0 <= k < 5 ==> Vocabulary[26..31][k] == Vocabulary[26 + k];
  }

  lemma VocabularyChunk7()
    ensures Vocabulary[31..36] == Chunk7
  {
    assert forall k :: 0 <= k < 5 ==> Vocabulary[31..36][k] == Vocabulary[31 + k];
  }

  lemma VocabularyEnds()
    ensures Vocabulary[0] == "python" && Vocabulary[5] == "aws" && Vocabulary[36..] == []
  {
  }

  /** Skipping a run of the list where nothing passes. */
  lemma FilterSkip<T>(p: T -> bool, s: seq<T>, i: nat, j: nat, run: seq<T>)
    requires i <= j <= |s| && s[i..j] == run && Filter(p, run) == []
    ensures Filter(p, s[i..]) == Filter(p, s[j..])
  {
    FilterAt(p, s, i, j);
  }

  /** Keeping one element of the list that passes. */
  lemma FilterKeep<T>(p: T -> bool, s: seq<T>, i: nat)
    requires i < |s| && p(s[i])
    ensures Filter(p, s[i..]) == [s[i]] + Filter(p, s[i + 1..])
  {
    FilterAt(p, s, i, i + 1);
    assert s[i..i + 1] == [s[i]];
    FilterSingleton(p, s[i]);
  }

  /** No term after "aws" occurs in the example description. */
  lemma SkillsAfterAws()
    ensures Filter(OccursIn(ExampleDescription), Vocabulary[6..]) == []
  {
    var v, p := Vocabulary, OccursIn(ExampleDescription);
    VocabularyChunk2(); ExampleChunk2(); FilterSkip(p, v, 6, 11, Chunk2);
    VocabularyChunk3(); ExampleChunk3(); FilterSkip(p, v, 11, 16, Chunk3);
    VocabularyChunk4(); ExampleChunk4(); FilterSkip(p, v, 16, 21, Chunk4);
    VocabularyChunk5(); ExampleChunk5(); FilterSkip(p, v, 21, 26, Chunk5);
    VocabularyChunk6(); ExampleChunk6(); FilterSkip(p, v, 26, 31, Chunk6);
    VocabularyChunk7(); ExampleChunk7(); FilterSkip(p, v, 31, 36, Chunk7);
    VocabularyEnds();
  }

  /** From "aws" on, only "aws" occurs. */
  lemma SkillsFromAws()
    ensures Filter(OccursIn(ExampleDescription), Vocabulary[5..]) == ["aws"]
  {
    var v, p := Vocabulary, OccursIn(ExampleDescription);
    ExamplePresent();
    VocabularyEnds();
    SkillsAfterAws();
    FilterKeep(p, v, 5);
  }

  /** Past "python", only "aws" occurs. */
  lemma SkillsAfterPython()
    ensures Filter(OccursIn(ExampleDescription), Vocabulary[1..]) == ["aws"]
  {
    var v, p := Vocabulary, OccursIn(ExampleDescription);
    SkillsFromAws();
    VocabularyChunk1();
    ExampleChunk1();
    FilterSkip(p, v, 1, 5, Chunk1);
  }

  /** The example description mentions exactly python and aws, in that order. */
  lemma SkillsExample()
    ensures SkillsIn(Lower(ExampleDescription)) == ["python", "aws"]
  {
    var v, p := Vocabulary, OccursIn(ExampleDescription);
    ExampleIsLower();
    ExamplePresent();
    VocabularyEnds();
    SkillsAfterPython();
    FilterKeep(p, v, 0);
    assert v[0..] == v;
  }

  // ---------------------------------------------------------------------------
  // The whole score

  /** A remote posting asking five years of python and aws at $140,000-$160,000. */
  const ExampleJob: Job := Job("", "", "Remote", "", ExampleDescription, "", ExampleRange, "", "", None, None)

  /** Five years of python and aws, $150,000 expected, remote preferred, no company type. */
  const ExampleProfile: Profile := Profile("", "", 5, ["python", "aws"], ["Remote"], 150000, "")

  lemma LowerRemote()
    ensures Lower("Remote") == "remote"
  {
    assert LowerChar('R') == 'r';
  }

  lemma LocationExample()
    ensures LocationComponent("Remote", ["Remote"]) == 15.0
    ensures LocationComponent("Remote", ["New York"]) == 10.0
  {
    LowerRemote();
    assert OccursAt(Lower("Remote"), Lower(["Remote"][0]), 0);
    assert OccursAt("remote", "remote", 0);
    assert |Lower("New York")| == 8;
    assert !PreferredLocationHit("Remote", ["New York"]);
  }

  /** The preferred location "Remote" is found before the remote bonus is considered,
      so the example scores 40 + 25 + 15 + 10 + 0 = 90. With another preferred
      location the same posting takes the remote bonus of 10 and scores 85. */
  lemma ScoreExample()
    ensures MatchScore(ExampleJob, ExampleProfile) == 90.0
    ensures MatchScore(ExampleJob, ExampleProfile.(preferredLocations := ["New York"])) == 85.0
  {
    SkillsExample();
    assert Distinct(["python", "aws"]);
    SkillComponentFull(["python", "aws"], ["python", "aws"]);
    ExperienceExample();
    LocationExample();
    SalaryExample();
  }
}
