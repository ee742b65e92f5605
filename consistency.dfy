/**
 * How the three eligibility rules of the portal relate — the server's
 * `is_eligible`, the student dashboard's `checkEligibility` and the company
 * dashboard's cut-off badge — and what the dashboard makes of the analysis
 * record the server sends when every model fails.
 */
module Consistency {
  import opened Wrappers
  import opened Js
  import opened Schema
  import opened AiAnalysis
  import opened StudentDashboard
  import opened StudentRoutes
  import opened CompanyDashboard

  // ---------------------------------------------------------------------
  // The job listing as the student dashboard receives it

  /** A listed job as JSON reaches the dashboard: `required_cgpa` is the number the server computed. */
  function ToClientJob(e: EnrichedJob): ClientJob {
    ClientJob(e.job.title, e.job.description, Some(e.companyName), None, e.isEligible,
              Num(e.requiredCgpa), e.job.eligibilityCriteria, e.applicationStatus, false)
  }

  function ClientJobs(es: seq<EnrichedJob>): (r: seq<ClientJob>)
    ensures |r| == |es|
    ensures forall i | 0 <= i < |es| :: r[i] == ToClientJob(es[i])
  {
    seq(|es|, i requires 0 <= i < |es| => ToClientJob(es[i]))
  }

  /** The number of listed jobs the server flagged eligible. */
  function FlaggedCount(es: seq<EnrichedJob>): (r: nat)
    ensures r <= |es|
  {
    if es == [] then 0 else (if es[0].isEligible then 1 else 0) + FlaggedCount(es[1..])
  }

  /** The dashboard reads back the criterion the server computed, whether or not it is zero. */
  lemma ClientCriterionIsServerCriterion(row: JoinedJob, cgpa: JsValue, apps: seq<Application>)
    ensures JobCriterion(ToClientJob(Enrich(row, cgpa, apps))) == CoerceNumber(row.job.eligibilityCriteria)
  {
    var e := Enrich(row, cgpa, apps);
    if e.requiredCgpa == 0.0 {
      assert !Truthy(Num(e.requiredCgpa));
      assert Or(Num(e.requiredCgpa), e.job.eligibilityCriteria) == row.job.eligibilityCriteria;
    } else {
      assert Truthy(Num(e.requiredCgpa));
    }
  }

  /**
   * On a listed job, with the profile's CGPA being the one the server read,
   * `checkEligibility` is exactly the server's flag: its own comparison
   * never adds a job the server did not flag.
   */
  lemma ClientAgreesWithServer(row: JoinedJob, cgpa: JsValue, apps: seq<Application>)
    ensures CheckEligibility(cgpa, ToClientJob(Enrich(row, cgpa, apps))) <==> Enrich(row, cgpa, apps).isEligible
  {
    ClientCriterionIsServerCriterion(row, cgpa, apps);
  }

  lemma {:induction false} EligibleCountOfFlags(cgpa: JsValue, es: seq<EnrichedJob>)
    requires forall i | 0 <= i < |es| :: CheckEligibility(cgpa, ToClientJob(es[i])) <==> es[i].isEligible
    ensures EligibleCount(cgpa, ClientJobs(es)) == FlaggedCount(es)
    decreases |es|
  {
    if es != [] {
      assert ClientJobs(es)[1..] == ClientJobs(es[1..]);
      EligibleCountOfFlags(cgpa, es[1..]);
    }
  }

  /** The "eligible jobs" figure of the student dashboard counts the jobs the server flagged. */
  lemma EligibleCountIsServerCount(
    students: seq<StudentRow>, companies: seq<CompanyRow>, jobs: seq<Job>, applications: seq<Application>, caller: Caller)
    requires StudentJobs(students, companies, jobs, applications, caller).JobsList?
    ensures var s := StudentOfUser(students, caller.id).value;
      var listed := StudentJobs(students, companies, jobs, applications, caller).jobs;
      EligibleCount(s.cgpa, ClientJobs(listed)) == FlaggedCount(listed)
  {
    var s := StudentOfUser(students, caller.id).value;
    var listed := StudentJobs(students, companies, jobs, applications, caller).jobs;
    var rows := OpenJobsJoined(jobs, companies);
    forall i | 0 <= i < |listed| ensures CheckEligibility(s.cgpa, ToClientJob(listed[i])) <==> listed[i].isEligible {
      ClientAgreesWithServer(rows[i], s.cgpa, ApplicationsOf(applications, s.id));
    }
    EligibleCountOfFlags(s.cgpa, listed);
  }

  // ---------------------------------------------------------------------
  // The server's rule against the company dashboard's

  /** For a number written `<digits>.<digits>`, the server and the company dashboard draw the same line. */
  lemma DecimalCriterionAgrees(row: JoinedJob, c: real, apps: seq<Application>, a: string, b: string)
    requires a != []
    requires forall i | 0 <= i < |a| :: IsDigit(a[i])
    requires forall i | 0 <= i < |b| :: IsDigit(b[i])
    requires row.job.eligibilityCriteria == Str(a + "." + b)
    ensures Enrich(row, Num(c), apps).isEligible <==> ApplicantEligible(Num(c), row.job.eligibilityCriteria)
  {
    DecimalTextReadsAlike(a, b);
    SameCutoff(row, c, apps, DecimalValue(a, b));
  }

  /** Where both conversions read the criterion as the same number, the two rules coincide. */
  lemma SameCutoff(row: JoinedJob, c: real, apps: seq<Application>, v: real)
    requires ToNumber(row.job.eligibilityCriteria) == Some(v) && ParseFloat(row.job.eligibilityCriteria) == Some(v)
    ensures Enrich(row, Num(c), apps).isEligible <==> ApplicantEligible(Num(c), row.job.eligibilityCriteria)
  {
  }

  /**
   * A criterion with text after the number ("7.5 CGPA") is NaN to the
   * server, so every student with a non-negative CGPA is flagged eligible,
   * while the company dashboard still reads the cut-off 7.5.
   */
  lemma SuffixedCriterionDisagrees(row: JoinedJob, c: real, apps: seq<Application>, a: string, b: string, rest: string)
    requires a != []
    requires forall i | 0 <= i < |a| :: IsDigit(a[i])
    requires forall i | 0 <= i < |b| :: IsDigit(b[i])
    requires rest != [] && !IsDigit(rest[0]) && !IsSpace(rest[|rest| - 1])
    requires row.job.eligibilityCriteria == Str(a + "." + b + rest)
    requires c >= 0.0
    ensures Enrich(row, Num(c), apps).requiredCgpa == 0.0
    ensures Enrich(row, Num(c), apps).isEligible
    ensures ApplicantEligible(Num(c), row.job.eligibilityCriteria) <==> c >= DecimalValue(a, b)
  {
    DecimalTextWithSuffixIsNaN(a, b, rest);
    DecimalTextParseFloat(a, b, rest);
    NaNCriterion(row, c, apps, DecimalValue(a, b));
  }

  /** A criterion `Number` cannot read but `parseFloat` reads as `v`. */
  lemma NaNCriterion(row: JoinedJob, c: real, apps: seq<Application>, v: real)
    requires ToNumber(row.job.eligibilityCriteria) == None && ParseFloat(row.job.eligibilityCriteria) == Some(v)
    requires c >= 0.0
    ensures Enrich(row, Num(c), apps).requiredCgpa == 0.0
    ensures Enrich(row, Num(c), apps).isEligible
    ensures ApplicantEligible(Num(c), row.job.eligibilityCriteria) <==> c >= v
  {
  }

  /** A job posted without a criterion is open to every student on the server and to none on the company dashboard. */
  lemma MissingCriterionDisagrees(row: JoinedJob, c: real, apps: seq<Application>)
    requires row.job.eligibilityCriteria == Null || row.job.eligibilityCriteria == Str("")
    requires c >= 0.0
    ensures Enrich(row, Num(c), apps).isEligible
    ensures !ApplicantEligible(Num(c), row.job.eligibilityCriteria)
  {
    BlankAndNullDiffer();
    NoCriterionNobodyEligible(Num(c));
  }

  // ---------------------------------------------------------------------
  // The analysis record of a run in which every model failed

  /** As written: the record has no `categorizedSkills`, so every job match throws and the feed cannot render. */
  lemma DegradedRecordBreaksFeed(lastError: Option<string>, job: ClientJob, internal: seq<ClientJob>, external: seq<ClientJob>)
    requires internal + external != []
    ensures CalculateJobMatch(DegradedRecord(lastError), job) == MatchCrashed
    ensures BlendedFeed(DegradedRecord(lastError), internal, external) == RenderError
  {
    var d := DegradedRecord(lastError);
    assert Truthy(d) && ResumeTerms(d) == None by {
      assert "categorizedSkills" !in d.fields;
    }
    BlendedFeedOutcomes(d, internal, external);
    var j := (internal + external)[0];
    assert j in internal + external;
    assert CalculateJobMatch(d, j).MatchCrashed?;
  }

  /**
   * Corrected: the record with the analysis shape gives every job a match
   * (its only resume term is the role "unavailable"), so the feed renders.
   */
  lemma DegradedRecordFullKeepsFeed(lastError: Option<string>, job: ClientJob, internal: seq<ClientJob>, external: seq<ClientJob>)
    ensures CalculateJobMatch(DegradedRecordFull(lastError), job).Computed?
    ensures BlendedFeed(DegradedRecordFull(lastError), internal, external).Feed?
  {
    var d := DegradedRecordFull(lastError);
    DegradedRecordFullTerms(lastError);
    BlendedFeedOutcomes(d, internal, external);
  }

  /** The resume terms of the corrected record: the one role "unavailable". */
  lemma DegradedRecordFullTerms(lastError: Option<string>)
    ensures Truthy(DegradedRecordFull(lastError))
    ensures ResumeTerms(DegradedRecordFull(lastError)) == Some(["unavailable"])
  {
    var d := DegradedRecordFull(lastError);
    DegradedRecordFullFields(lastError);
    var skills := OptGet(d, "categorizedSkills");
    assert Spread(OptGet(skills, "technical")) == Some([]);
    assert Spread(OptGet(skills, "tools")) == Some([]);
    var xs := [] + [] + [Str("Unavailable")];
    assert xs == [Str("Unavailable")];
    LowerUnavailable(xs);
  }

  lemma DegradedRecordFullFields(lastError: Option<string>)
    ensures OptGet(DegradedRecordFull(lastError), "categorizedSkills") == AnalysisDefaults["categorizedSkills"]
    ensures OptGet(DegradedRecordFull(lastError), "suitableRoles") == Arr([Str("Unavailable")])
  {
  }

  lemma LowerUnavailable(xs: seq<JsValue>)
    requires xs == [Str("Unavailable")]
    ensures LowerAll(xs) == Some(["unavailable"])
  {
    assert Lower("Unavailable") == "unavailable";
    var r := LowerAll(xs).value;
    assert |r| == 1 && r[0] == "unavailable";
    assert r == ["unavailable"];
  }

  /**
   * End to end, as written: when every model fails and some job is listed,
   * the analysis the server returns stops the dashboard's feed from
   * rendering.
   */
  lemma AllFailuresBreakFeed(outcomes: seq<CallOutcome>, parse: string -> ParseOutcome, internal: seq<ClientJob>, external: seq<ClientJob>)
    requires |outcomes| == |Candidates|
    requires FailsUpTo(outcomes, parse, |outcomes|)
    requires internal + external != []
    ensures BlendedFeed(Analyze(outcomes, parse).result, internal, external) == RenderError
  {
    AllFailDegrades(outcomes, parse);
    var e := Some(TryCandidate(outcomes[|outcomes| - 1], parse).message);
    DegradedRecordBreaksFeed(e, (internal + external)[0], internal, external);
  }

  /** End to end, corrected: the analyzer with the full record still lets the dashboard rank the jobs. */
  lemma AllFailuresStillRankJobs(outcomes: seq<CallOutcome>, parse: string -> ParseOutcome, internal: seq<ClientJob>, external: seq<ClientJob>)
    requires |outcomes| == |Candidates|
    requires FailsUpTo(outcomes, parse, |outcomes|)
    ensures BlendedFeed(AnalyzeCorrected(outcomes, parse).result, internal, external).Feed?
  {
    AllFailDegrades(outcomes, parse);
    var e := Some(TryCandidate(outcomes[|outcomes| - 1], parse).message);
    var j := ClientJob("", None, None, None, false, Null, Null, None, false);
    DegradedRecordFullKeepsFeed(e, j, internal, external);
  }
}
