/**
 * The company dashboard's cut-off badge in the applicants table: the
 * applicant's CGPA against the job's criterion read with `parseFloat`.
 */
module CompanyDashboard {
  import opened Wrappers
  import opened Js

  /**
   * `app.cgpa >= parseFloat(selectedJob.eligibility_criteria)`. The CGPA side
   * converts with `Number`; a NaN on either side makes the comparison false.
   */
  predicate ApplicantEligible(appCgpa: JsValue, criterion: JsValue) {
    match (ToNumber(appCgpa), ParseFloat(criterion))
    case (Some(a), Some(b)) => a >= b
    case _ => false
  }

  /** Without a readable criterion (none, null, blank text) every applicant shows as below the cut-off. */
  lemma NoCriterionNobodyEligible(appCgpa: JsValue)
    ensures !ApplicantEligible(appCgpa, Undefined)
    ensures !ApplicantEligible(appCgpa, Null)
    ensures !ApplicantEligible(appCgpa, Str(""))
  {
    BlankAndNullDiffer();
  }

  /** A criterion written `<digits>.<digits>` and then anything else is met exactly by the CGPAs that reach the number. */
  lemma DecimalCriterionCutoff(cgpa: real, a: string, b: string, rest: string)
    requires a != []
    requires forall i | 0 <= i < |a| :: IsDigit(a[i])
    requires forall i | 0 <= i < |b| :: IsDigit(b[i])
    requires rest == [] || !IsDigit(rest[0])
    ensures ApplicantEligible(Num(cgpa), Str(a + "." + b + rest)) <==> cgpa >= DecimalValue(a, b)
  {
    DecimalTextParseFloat(a, b, rest);
  }

  /** A higher CGPA never loses the badge a lower one has. */
  lemma EligibleUpwardClosed(lo: real, hi: real, criterion: JsValue)
    requires lo <= hi && ApplicantEligible(Num(lo), criterion)
    ensures ApplicantEligible(Num(hi), criterion)
  {
  }
}
