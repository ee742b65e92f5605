/**
 * The decision logic of the student dashboard: the eligibility badge, the
 * application timeline, the resume-to-job match score and the blended,
 * ranked feed of internal and external openings.
 *
 * A job as the dashboard sees it is a `ClientJob`: the JSON of an enriched
 * `/jobs` row, or an external listing, which has no eligibility flag, no
 * criteria and nests its company name under `company.display_name`.
 */
module StudentDashboard {
  import opened Wrappers
  import opened Js
  import opened Schema

  datatype ClientJob = ClientJob(
    title: string,
    description: Option<string>,
    companyName: Option<string>,          // `company_name`
    companyDisplayName: Option<string>,   // `company?.display_name`
    isEligible: bool,                     // `is_eligible`, absent (false) on external jobs
    requiredCgpa: JsValue,                // `required_cgpa`
    eligibilityCriteria: JsValue,         // `eligibility_criteria`
    applicationStatus: Option<AppStatus>, // `application_status`
    isAiMatched: bool)                    // `is_ai_matched`

  // ---------------------------------------------------------------------
  // Eligibility

  /** `Number(job.required_cgpa || job.eligibility_criteria) || 0` */
  function JobCriterion(job: ClientJob): real {
    CoerceNumber(Or(job.requiredCgpa, job.eligibilityCriteria))
  }

  /**
   * `checkEligibility`: the server's flag, or else a positive criterion that
   * the profile's CGPA (NaN counting as 0) reaches.
   */
  predicate CheckEligibility(profileCgpa: JsValue, job: ClientJob) {
    job.isEligible || (CoerceNumber(profileCgpa) >= JobCriterion(job) && JobCriterion(job) > 0.0)
  }

  /** `jobs.filter(checkEligibility)` */
  function EligibleJobs(profileCgpa: JsValue, jobs: seq<ClientJob>): (r: seq<ClientJob>)
    ensures |r| <= |jobs|
    ensures forall j :: j in r <==> j in jobs && CheckEligibility(profileCgpa, j)
  {
    if jobs == [] then []
    else
      (if CheckEligibility(profileCgpa, jobs[0]) then [jobs[0]] else [])
      + EligibleJobs(profileCgpa, jobs[1..])
  }

  /** `getEligibleCount` */
  function EligibleCount(profileCgpa: JsValue, jobs: seq<ClientJob>): nat {
    |EligibleJobs(profileCgpa, jobs)|
  }

  /** A job without the server's flag and with no positive criterion is never eligible. */
  lemma ZeroCriterionNeverEligible(profileCgpa: JsValue, job: ClientJob)
    requires !job.isEligible && JobCriterion(job) <= 0.0
    ensures !CheckEligibility(profileCgpa, job)
  {
  }

  /** A job the server flagged is eligible, whatever the criterion and the profile. */
  lemma FlaggedAlwaysEligible(profileCgpa: JsValue, job: ClientJob)
    requires job.isEligible
    ensures CheckEligibility(profileCgpa, job)
  {
  }

  /** When every job is flagged, every job is counted; when none qualifies, none is. */
  lemma {:induction false} EligibleCountExtremes(profileCgpa: JsValue, jobs: seq<ClientJob>)
    ensures (forall i | 0 <= i < |jobs| :: jobs[i].isEligible) ==> EligibleCount(profileCgpa, jobs) == |jobs|
    ensures (forall i | 0 <= i < |jobs| :: !CheckEligibility(profileCgpa, jobs[i])) ==> EligibleCount(profileCgpa, jobs) == 0
    decreases |jobs|
  {
    if jobs != [] {
      EligibleCountExtremes(profileCgpa, jobs[1..]);
      assert forall i | 0 <= i < |jobs[1..]| :: jobs[1..][i] == jobs[i + 1];
    }
  }

  // ---------------------------------------------------------------------
  // Timeline

  /** The steps of the timeline, in order. */
  const Steps: seq<AppStatus> := [Applied, Shortlisted, Interview, Placed]

  /** `xs.indexOf(x)` */
  function IndexOf(xs: seq<AppStatus>, x: AppStatus): (r: int)
    ensures -1 <= r < |xs|
    ensures r == -1 <==> x !in xs
    ensures r >= 0 ==> xs[r] == x && x !in xs[..r]
  {
    if xs == [] then -1
    else if xs[0] == x then 0
    else
      var r := IndexOf(xs[1..], x);
      assert xs == [xs[0]] + xs[1..];
      if r == -1 then -1
      else
        assert xs[..r + 1] == [xs[0]] + xs[1..][..r];
        r + 1
  }

  /** `steps.indexOf(status || 'applied')`: -1 for a rejected application. */
  function CurrentStep(status: Option<AppStatus>): int {
    IndexOf(Steps, status.GetOr(Applied))
  }

  /** Which of the four step circles are ticked (`i <= currentIdx`). */
  function StepMarks(status: Option<AppStatus>): (r: seq<bool>)
    ensures |r| == |Steps|
  {
    seq(|Steps|, i requires 0 <= i < |Steps| => i <= CurrentStep(status))
  }

  /** Which of the three connectors between steps are green (`i < currentIdx`). */
  function ConnectorMarks(status: Option<AppStatus>): (r: seq<bool>)
    ensures |r| == |Steps| - 1
  {
    seq(|Steps| - 1, i requires 0 <= i < |Steps| - 1 => i < CurrentStep(status))
  }

  /**
   * The timeline ticks exactly the steps up to the application's status: a
   * prefix of the steps, each connector green exactly when the step after it
   * is ticked; nothing for a rejection, everything for a placement, only the
   * first step for a missing status.
   */
  lemma TimelineProgress(status: Option<AppStatus>)
    ensures forall i | 0 <= i < |Steps| ::
      StepMarks(status)[i] <==> status.GetOr(Applied) in Steps[i..]
    ensures forall i, j | 0 <= i < j < |Steps| :: StepMarks(status)[j] ==> StepMarks(status)[i]
    ensures forall i | 0 <= i < |Steps| - 1 :: ConnectorMarks(status)[i] <==> StepMarks(status)[i + 1]
  {
    var s := status.GetOr(Applied);
    var idx := CurrentStep(status);
    forall i | 0 <= i < |Steps|
      ensures StepMarks(status)[i] <==> s in Steps[i..]
    {
      if i <= idx {
        assert Steps[i..][idx - i] == s;
      }
      if s in Steps[i..] {
        var k :| 0 <= k < |Steps[i..]| && Steps[i..][k] == s;
        assert Steps[i + k] == s;
      }
    }
  }

  /** Nothing is ticked for a rejection, everything for a placement, only the first step for a missing status. */
  lemma TimelineCases(status: Option<AppStatus>)
    ensures status == None ==> StepMarks(status) == [true, false, false, false]
    ensures status == Some(Rejected) ==> StepMarks(status) == [false, false, false, false]
    ensures status == Some(Placed) ==> StepMarks(status) == [true, true, true, true]
  {
    if status == None || status == Some(Applied) {
      assert CurrentStep(status) == 0;
    } else if status == Some(Placed) {
      assert CurrentStep(status) == 3;
    } else if status == Some(Rejected) {
      assert CurrentStep(status) == -1;
    }
  }

  // ---------------------------------------------------------------------
  // Match score

  /** `[...v]`: arrays give their elements, strings their characters, anything else throws. */
  function Spread(v: JsValue): (r: Option<seq<JsValue>>)
    ensures r.Some? <==> v.Arr? || v.Str?
    ensures v.Arr? ==> r == Some(v.items)
  {
    match v
    case Arr(xs) => Some(xs)
    case Str(s) => Some(seq(|s|, i requires 0 <= i < |s| => Str([s[i]])))
    case _ => None
  }

  /** `xs.map(s => s.toLowerCase())`: throws on an element that is not a string. */
  function LowerAll(xs: seq<JsValue>): (r: Option<seq<string>>)
    ensures r.Some? <==> forall i | 0 <= i < |xs| :: xs[i].Str?
    ensures r.Some? ==> |r.value| == |xs| && forall i | 0 <= i < |xs| :: r.value[i] == Lower(xs[i].s)
  {
    if forall i | 0 <= i < |xs| :: xs[i].Str? then
      Some(seq(|xs|, i requires 0 <= i < |xs| => Lower(xs[i].s)))
    else None
  }

  /**
   * The resume terms: technical skills, tools and suitable roles, lower-cased.
   * None when the expression throws: `categorizedSkills` missing, one of the
   * lists not iterable, or an element not a string.
   */
  function ResumeTerms(analysis: JsValue): Option<seq<string>>
    requires NotNullish(analysis)
  {
    var skills := OptGet(analysis, "categorizedSkills");
    if !NotNullish(skills) then None
    else
      match (Spread(OptGet(skills, "technical")), Spread(OptGet(skills, "tools")), Spread(OptGet(analysis, "suitableRoles")))
      case (Some(a), Some(b), Some(c)) => LowerAll(a + b + c)
      case _ => None
  }

  /** `job.company_name || job.company?.display_name || ''` */
  function CompanyText(job: ClientJob): string {
    if job.companyName.Some? && job.companyName.value != "" then job.companyName.value
    else job.companyDisplayName.GetOr("")
  }

  /** The lower-cased text a job is matched against: title, description and company. */
  function Haystack(job: ClientJob): string {
    Lower(job.title + " " + job.description.GetOr("") + " " + CompanyText(job))
  }

  /** `jobTerms.split(' ').length` */
  function WordCount(hay: string): (r: nat)
    ensures r >= 1
  {
    |Split(hay, ' ')|
  }

  /** The terms the job text contains, in order. */
  function MatchedTerms(terms: seq<string>, hay: string): (r: seq<string>)
    ensures |r| <= |terms|
    ensures forall t :: t in r <==> t in terms && Includes(hay, t)
  {
    if terms == [] then []
    else (if Includes(hay, terms[0]) then [terms[0]] else []) + MatchedTerms(terms[1..], hay)
  }

  /** The terms the job text lacks, in order. */
  function UnmatchedTerms(terms: seq<string>, hay: string): (r: seq<string>)
    ensures |r| <= |terms|
    ensures forall t :: t in r <==> t in terms && !Includes(hay, t)
  {
    if terms == [] then []
    else (if Includes(hay, terms[0]) then [] else [terms[0]]) + UnmatchedTerms(terms[1..], hay)
  }

  /** Every term is either matched or missing, once: the two lists split the terms. */
  lemma {:induction false} MatchedUnmatchedSplit(terms: seq<string>, hay: string)
    ensures multiset(MatchedTerms(terms, hay)) + multiset(UnmatchedTerms(terms, hay)) == multiset(terms)
    ensures |MatchedTerms(terms, hay)| + |UnmatchedTerms(terms, hay)| == |terms|
    decreases |terms|
  {
    if terms != [] {
      MatchedUnmatchedSplit(terms[1..], hay);
      assert terms == [terms[0]] + terms[1..];
    }
  }

  /**
   * `Math.round(num / den)` for non-negative operands: the nearest integer,
   * halves rounded up, stated as `r - 1/2 <= num/den < r + 1/2`.
   */
  function RoundHalfUp(num: nat, den: nat): (r: nat)
    requires den > 0
    ensures 2 * den * r <= 2 * num + den < 2 * den * (r + 1)
  {
    var q := (2 * num + den) / (2 * den);
    DivBounds(2 * num + den, 2 * den);
    q
  }

  lemma DivBounds(n: nat, d: nat)
    requires d > 0
    ensures d * (n / d) <= n < d * (n / d + 1)
  {
  }

  /**
   * `Math.min(100, Math.round(matches / (words / 5) * 100) || 40)`:
   * `matches / (words / 5) * 100` is `500 * matches / words`.
   */
  function BaseScore(matched: nat, words: nat): int
    requires words > 0
  {
    var rounded := RoundHalfUp(500 * matched, words);
    if rounded == 0 then 40 else if rounded > 100 then 100 else rounded
  }

  /** AI-matched roles are lifted to at least 85. */
  function FinalScore(matched: nat, words: nat, aiMatched: bool): int
    requires words > 0
  {
    var base := BaseScore(matched, words);
    if aiMatched && base < 85 then 85 else base
  }

  /** The score lies in 1..100, at least 85 for AI-matched roles; no match at all scores the 40 floor. */
  lemma ScoreBounds(matched: nat, words: nat, aiMatched: bool)
    requires words > 0
    ensures 1 <= FinalScore(matched, words, aiMatched) <= 100
    ensures aiMatched ==> FinalScore(matched, words, aiMatched) >= 85
    ensures matched == 0 ==> FinalScore(matched, words, aiMatched) == (if aiMatched then 85 else 40)
    ensures 5 * matched >= words ==> FinalScore(matched, words, aiMatched) == 100
  {
    var rounded := RoundHalfUp(500 * matched, words);
    if matched == 0 {
      assert 2 * words * rounded < 2 * words * 1;
      MulLtCancel(2 * words, rounded, 1);
    }
    if 5 * matched >= words {
      assert 2 * words * 100 < 2 * words * (rounded + 1);
      MulLtCancel(2 * words, 100, rounded + 1);
    }
  }

  lemma MulLtCancel(c: int, a: int, b: int)
    requires c > 0 && c * a < c * b
    ensures a < b
  {
  }

  /**
   * The floor of 40 rewards having no match at all: in a job text of 300
   * words, no matched term scores 40 but one matched term scores 2.
   */
  lemma OneMatchScoresBelowNone()
    ensures FinalScore(0, 300, false) == 40
    ensures FinalScore(1, 300, false) == 2
  {
    assert RoundHalfUp(500, 300) == 2;
  }

  datatype MatchResult = MatchResult(score: int, missing: seq<string>)

  /** No analysis yet, the computation threw a TypeError, or the match. */
  datatype MatchOutcome = NoAnalysis | MatchCrashed | Computed(result: MatchResult)

  const FillerMissing: seq<string> := ["Cloud Services", "System Design", "Team Leadership"]

  /** `missing.slice(0, 3)`, replaced by the filler list when empty. */
  function MissingShown(unmatched: seq<string>): (r: seq<string>)
    ensures 1 <= |r| <= 3
    ensures unmatched != [] ==> r == unmatched[..if |unmatched| < 3 then |unmatched| else 3]
    ensures unmatched == [] ==> r == FillerMissing
  {
    if unmatched == [] then FillerMissing
    else if |unmatched| > 3 then unmatched[..3]
    else unmatched
  }

  /** `calculateJobMatch` */
  function CalculateJobMatch(analysis: JsValue, job: ClientJob): (r: MatchOutcome)
    ensures r.NoAnalysis? <==> !Truthy(analysis)
    ensures r.Computed? ==> 1 <= r.result.score <= 100 && 1 <= |r.result.missing| <= 3
    ensures r.Computed? && job.isAiMatched ==> r.result.score >= 85
  {
    if !Truthy(analysis) then NoAnalysis
    else
      match ResumeTerms(analysis)
      case None => MatchCrashed
      case Some(terms) =>
        var hay := Haystack(job);
        var matched := |MatchedTerms(terms, hay)|;
        ScoreBounds(matched, WordCount(hay), job.isAiMatched);
        Computed(MatchResult(FinalScore(matched, WordCount(hay), job.isAiMatched),
                             MissingShown(UnmatchedTerms(terms, hay))))
  }

  /** The match of an analysis whose terms are known: its score counts the matched terms, its missing list the unmatched ones. */
  lemma MatchFromTerms(analysis: JsValue, job: ClientJob, terms: seq<string>)
    requires Truthy(analysis) && ResumeTerms(analysis) == Some(terms)
    ensures CalculateJobMatch(analysis, job).Computed?
    ensures var r := CalculateJobMatch(analysis, job).result; var hay := Haystack(job);
      && r.score == FinalScore(|MatchedTerms(terms, hay)|, WordCount(hay), job.isAiMatched)
      && (forall t | t in r.missing :: (t in terms && !Includes(hay, t)) || t in FillerMissing)
      && (MatchedTerms(terms, hay) == terms ==> r.missing == FillerMissing)
  {
    var hay := Haystack(job);
    MatchedUnmatchedSplit(terms, hay);
    if MatchedTerms(terms, hay) == terms {
      assert |UnmatchedTerms(terms, hay)| == 0;
    }
  }

  // ---------------------------------------------------------------------
  // The blended feed

  datatype Source = Internal | External

  /** `{ ...job, type, match }` */
  datatype FeedEntry = FeedEntry(job: ClientJob, source: Source, result: MatchResult)

  function Key(e: FeedEntry): int {
    e.result.score
  }

  /** `jobs.map(j => ({ ...j, type, match: calculateJobMatch(j) }))`; None when one of the matches throws. */
  function ScoreAll(analysis: JsValue, jobs: seq<ClientJob>, source: Source): (r: Option<seq<FeedEntry>>)
    ensures r.Some? <==> forall i | 0 <= i < |jobs| :: CalculateJobMatch(analysis, jobs[i]).Computed?
    ensures r.Some? ==> |r.value| == |jobs|
    ensures r.Some? ==>
      forall i | 0 <= i < |jobs| :: r.value[i] == FeedEntry(jobs[i], source, CalculateJobMatch(analysis, jobs[i]).result)
  {
    if forall i | 0 <= i < |jobs| :: CalculateJobMatch(analysis, jobs[i]).Computed? then
      Some(seq(|jobs|, i requires 0 <= i < |jobs| => FeedEntry(jobs[i], source, CalculateJobMatch(analysis, jobs[i]).result)))
    else None
  }

  predicate SortedDesc(es: seq<FeedEntry>) {
    forall i, j | 0 <= i < j < |es| :: Key(es[i]) >= Key(es[j])
  }

  /** The entries with score `k`, in order. */
  function WithKey(es: seq<FeedEntry>, k: int): seq<FeedEntry> {
    if es == [] then [] else (if Key(es[0]) == k then [es[0]] else []) + WithKey(es[1..], k)
  }

  /** `e` placed before the first entry that does not score higher. */
  function Insert(e: FeedEntry, es: seq<FeedEntry>): seq<FeedEntry> {
    if es == [] || Key(es[0]) <= Key(e) then [e] + es else [es[0]] + Insert(e, es[1..])
  }

  /**
   * `sort((a, b) => b.match.score - a.match.score)`: a stable sort by
   * descending score (the engine's sort is stable).
   */
  function SortByScore(es: seq<FeedEntry>): seq<FeedEntry> {
    if es == [] then [] else Insert(es[0], SortByScore(es[1..]))
  }

  /** `filter(job => job.match.score > 10)` */
  function Visible(es: seq<FeedEntry>): seq<FeedEntry> {
    if es == [] then [] else (if Key(es[0]) > 10 then [es[0]] else []) + Visible(es[1..])
  }

  /** A sequence headed by an entry that scores at least as much as every later one stays sorted. */
  lemma SortedCons(h: FeedEntry, t: seq<FeedEntry>)
    requires SortedDesc(t)
    requires forall x | x in t :: Key(x) <= Key(h)
    ensures SortedDesc([h] + t)
  {
    var r := [h] + t;
    forall i, j | 0 <= i < j < |r|
      ensures Key(r[i]) >= Key(r[j])
    {
      assert r[j] == t[j - 1];
      if i > 0 {
        assert r[i] == t[i - 1];
      } else {
        assert r[j] in t;
      }
    }
  }

  lemma {:induction false} InsertMembers(e: FeedEntry, es: seq<FeedEntry>)
    ensures multiset(Insert(e, es)) == multiset(es) + multiset{e}
    ensures forall x :: x in Insert(e, es) <==> x == e || x in es
    decreases |es|
  {
    if es != [] && Key(es[0]) > Key(e) {
      InsertMembers(e, es[1..]);
      assert es == [es[0]] + es[1..];
    }
  }

  lemma {:induction false} InsertSorted(e: FeedEntry, es: seq<FeedEntry>)
    requires SortedDesc(es)
    ensures SortedDesc(Insert(e, es))
    decreases |es|
  {
    if es == [] || Key(es[0]) <= Key(e) {
      forall x | x in es
        ensures Key(x) <= Key(e)
      {
        var m :| 0 <= m < |es| && es[m] == x;
        assert Key(es[0]) >= Key(es[m]);
      }
      SortedCons(e, es);
    } else {
      assert SortedDesc(es[1..]);
      InsertSorted(e, es[1..]);
      InsertMembers(e, es[1..]);
      forall x | x in Insert(e, es[1..])
        ensures Key(x) <= Key(es[0])
      {
        if x != e {
          var m :| 0 <= m < |es[1..]| && es[1..][m] == x;
          assert Key(es[0]) >= Key(es[m + 1]);
        }
      }
      SortedCons(es[0], Insert(e, es[1..]));
    }
  }

  /** Inserting does not reorder the entries of any one score; `e` goes before those equal to it. */
  lemma {:induction false} InsertWithKey(e: FeedEntry, es: seq<FeedEntry>, k: int)
    ensures WithKey(Insert(e, es), k) == (if Key(e) == k then [e] else []) + WithKey(es, k)
    decreases |es|
  {
    if es == [] || Key(es[0]) <= Key(e) {
      var r := [e] + es;
      assert r[0] == e && r[1..] == es;
      assert WithKey(r, k) == (if Key(e) == k then [e] else []) + WithKey(es, k);
    } else {
      var t := Insert(e, es[1..]);
      var r := [es[0]] + t;
      assert r[0] == es[0] && r[1..] == t;
      InsertWithKey(e, es[1..], k);
      var h := if Key(es[0]) == k then [es[0]] else [];
      assert WithKey(r, k) == h + WithKey(t, k);
      assert WithKey(es, k) == h + WithKey(es[1..], k);
      assert Key(e) == k ==> h == [];
    }
  }

  /** The feed order: sorted by descending score and a permutation. */
  lemma {:induction false} SortByScoreSorted(es: seq<FeedEntry>)
    ensures SortedDesc(SortByScore(es))
    ensures multiset(SortByScore(es)) == multiset(es)
    decreases |es|
  {
    if es != [] {
      SortByScoreSorted(es[1..]);
      InsertSorted(es[0], SortByScore(es[1..]));
      InsertMembers(es[0], SortByScore(es[1..]));
      assert es == [es[0]] + es[1..];
    }
  }

  /** The sort is stable: the entries of each score keep their order. */
  lemma {:induction false} SortByScoreStable(es: seq<FeedEntry>, k: int)
    ensures WithKey(SortByScore(es), k) == WithKey(es, k)
    decreases |es|
  {
    if es != [] {
      SortByScoreStable(es[1..], k);
      InsertWithKey(es[0], SortByScore(es[1..]), k);
    }
  }

  lemma {:induction false} WithKeyAppend(a: seq<FeedEntry>, b: seq<FeedEntry>, k: int)
    ensures WithKey(a + b, k) == WithKey(a, k) + WithKey(b, k)
    decreases |a|
  {
    if a == [] {
      assert a + b == b;
    } else {
      var h := if Key(a[0]) == k then [a[0]] else [];
      assert (a + b)[0] == a[0] && (a + b)[1..] == a[1..] + b;
      WithKeyAppend(a[1..], b, k);
      assert WithKey(a + b, k) == h + WithKey(a[1..] + b, k);
      assert WithKey(a, k) == h + WithKey(a[1..], k);
    }
  }

  lemma {:induction false} VisibleMembers(es: seq<FeedEntry>)
    ensures forall e :: e in Visible(es) <==> e in es && Key(e) > 10
    decreases |es|
  {
    if es != [] {
      VisibleMembers(es[1..]);
      assert es == [es[0]] + es[1..];
    }
  }

  lemma {:induction false} VisibleSorted(es: seq<FeedEntry>)
    requires SortedDesc(es)
    ensures SortedDesc(Visible(es))
    decreases |es|
  {
    if es != [] {
      assert SortedDesc(es[1..]);
      VisibleSorted(es[1..]);
      if Key(es[0]) > 10 {
        VisibleMembers(es[1..]);
        forall x | x in Visible(es[1..])
          ensures Key(x) <= Key(es[0])
        {
          var m :| 0 <= m < |es[1..]| && es[1..][m] == x;
          assert Key(es[0]) >= Key(es[m + 1]);
        }
        SortedCons(es[0], Visible(es[1..]));
      }
    }
  }

  lemma {:induction false} VisibleWithKey(es: seq<FeedEntry>, k: int)
    ensures WithKey(Visible(es), k) == if k > 10 then WithKey(es, k) else []
    decreases |es|
  {
    if es != [] {
      VisibleWithKey(es[1..], k);
      var v := Visible(es);
      if Key(es[0]) > 10 {
        assert v[0] == es[0] && v[1..] == Visible(es[1..]);
        assert WithKey(v, k) == (if Key(es[0]) == k then [es[0]] else []) + WithKey(Visible(es[1..]), k);
      } else {
        assert v == Visible(es[1..]);
      }
    }
  }

  /** What the "Global Opportunities" tab shows. */
  datatype FeedView =
    | UploadPrompt            // no analysis yet
    | RenderError             // a match threw while building the list
    | Feed(entries: seq<FeedEntry>)

  /** The internal jobs, then the external ones, scored, sorted by score and cut at 10. */
  function BlendedFeed(analysis: JsValue, internal: seq<ClientJob>, external: seq<ClientJob>): FeedView {
    if !Truthy(analysis) then UploadPrompt
    else
      match (ScoreAll(analysis, internal, Internal), ScoreAll(analysis, external, External))
      case (Some(a), Some(b)) => Feed(Visible(SortByScore(a + b)))
      case _ => RenderError
  }

  /**
   * The feed is the scored jobs above 10, highest score first; among equal
   * scores the internal jobs come first and each source keeps its own order.
   */
  lemma BlendedFeedOrder(analysis: JsValue, internal: seq<ClientJob>, external: seq<ClientJob>)
    requires BlendedFeed(analysis, internal, external).Feed?
    ensures var es := BlendedFeed(analysis, internal, external).entries;
      var a := ScoreAll(analysis, internal, Internal).value;
      var b := ScoreAll(analysis, external, External).value;
      && SortedDesc(es)
      && (forall e :: e in es <==> (e in a || e in b) && Key(e) > 10)
      && (forall k :: WithKey(es, k) == if k > 10 then WithKey(a, k) + WithKey(b, k) else [])
  {
    var a := ScoreAll(analysis, internal, Internal).value;
    var b := ScoreAll(analysis, external, External).value;
    var sorted := SortByScore(a + b);
    SortByScoreSorted(a + b);
    VisibleSorted(sorted);
    VisibleMembers(sorted);
    forall k
      ensures WithKey(Visible(sorted), k) == if k > 10 then WithKey(a, k) + WithKey(b, k) else []
    {
      VisibleWithKey(sorted, k);
      SortByScoreStable(a + b, k);
      WithKeyAppend(a, b, k);
    }
    forall e
      ensures e in sorted <==> e in a || e in b
    {
      assert e in sorted <==> e in multiset(a + b);
    }
  }

  /** No analysis means the upload prompt; a match that throws means the list does not render. */
  lemma BlendedFeedOutcomes(analysis: JsValue, internal: seq<ClientJob>, external: seq<ClientJob>)
    ensures BlendedFeed(analysis, internal, external).UploadPrompt? <==> !Truthy(analysis)
    ensures BlendedFeed(analysis, internal, external).RenderError? <==>
      Truthy(analysis) && exists j | j in internal + external :: CalculateJobMatch(analysis, j).MatchCrashed?
  {
    if Truthy(analysis) {
      var ok := forall j | j in internal + external :: CalculateJobMatch(analysis, j).Computed?;
      if ok {
        assert forall i | 0 <= i < |internal| :: (internal + external)[i] == internal[i];
        assert forall i | 0 <= i < |external| :: (internal + external)[|internal| + i] == external[i];
      } else {
        var j :| j in internal + external && !CalculateJobMatch(analysis, j).Computed?;
      }
    }
  }
}
