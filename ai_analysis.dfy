/**
 * The resume analyzer: ask each candidate model in turn, clean the reply of
 * Markdown code fences, parse it as JSON and fill in a default for every
 * missing or falsy key; when every candidate fails, answer with a degraded
 * record that carries the last error.
 *
 * The model calls are not modelled: `outcomes[i]` is what candidate
 * `Candidates[i]` produced (a thrown error or the reply text), and `parse`
 * stands for `JSON.parse`.
 */
module AiAnalysis {
  import opened Wrappers
  import opened Js

  /** The candidate models, in the order they are tried. */
  const Candidates: seq<string> := [
    "gemini-2.0-flash-lite",
    "gemini-2.5-flash-lite",
    "gemini-2.5-flash",
    "gemini-2.5-pro",
    "gemini-2.0-flash-001",
    "gemini-2.0-flash"
  ]

  /** What asking one candidate produced: the call threw, or the reply text. */
  datatype CallOutcome = CallFailed(message: string) | Responded(text: string)

  /** `JSON.parse`: a value, or a SyntaxError with its message. */
  datatype ParseOutcome = Parsed(value: JsValue) | SyntaxError(message: string)

  // ---------------------------------------------------------------------
  // Cleaning the reply

  /**
   * Global replacement of `/```json\n?|```/` by nothing: scanning left to
   * right, a "```json" (with the newline after it, if any) or a bare "```" is
   * dropped and every other character is kept.
   */
  function StripFences(s: string): (r: string)
    ensures |r| <= |s|
    decreases |s|
  {
    if StartsWith(s, "```json") then
      var rest := s[7..];
      if rest != [] && rest[0] == '\n' then StripFences(rest[1..]) else StripFences(rest)
    else if StartsWith(s, "```") then StripFences(s[3..])
    else if s == [] then []
    else [s[0]] + StripFences(s[1..])
  }

  /** The text handed to `JSON.parse`. */
  function CleanResponse(text: string): string {
    Trim(StripFences(text))
  }

  /** Text without backticks passes through the fence stripping unchanged, whatever follows it. */
  lemma {:induction false} StripFencesPlainPrefix(a: string, b: string)
    requires '`' !in a
    ensures StripFences(a + b) == a + StripFences(b)
    decreases |a|
  {
    if a == [] {
      assert a + b == b;
    } else {
      var s := a + b;
      assert s[0] == a[0] && a[0] in a;
      NoFenceAtStart(s);
      assert s[1..] == a[1..] + b;
      assert StripFences(s) == [s[0]] + StripFences(s[1..]);
      StripFencesPlainPrefix(a[1..], b);
      assert a == [a[0]] + a[1..];
    }
  }

  /** Text that does not start with a backtick starts no fence. */
  lemma NoFenceAtStart(s: string)
    requires s != [] && s[0] != '`'
    ensures !StartsWith(s, "```json") && !StartsWith(s, "```")
  {
    if |s| >= 3 {
      assert s[..3][0] == s[0];
    }
    if |s| >= 7 {
      assert s[..7][0] == s[0];
    }
  }

  /** A reply with no backticks is only trimmed. */
  lemma CleanPlainReply(text: string)
    requires '`' !in text
    ensures CleanResponse(text) == Trim(text)
  {
    StripFencesPlainPrefix(text, "");
    assert text + "" == text;
  }

  /** Trimming ignores one more white-space character at the end. */
  lemma {:induction false} TrimStartAppendSpace(s: string, c: char)
    requires IsSpace(c)
    ensures TrimStart(s + [c]) == if TrimStart(s) == [] then [] else TrimStart(s) + [c]
    decreases |s|
  {
    if s == [] {
      assert s + [c] == [c];
    } else if IsSpace(s[0]) {
      assert (s + [c])[1..] == s[1..] + [c];
      TrimStartAppendSpace(s[1..], c);
    } else {
      assert TrimStart(s) == s;
    }
  }

  lemma TrimAppendSpace(s: string, c: char)
    requires IsSpace(c)
    ensures Trim(s + [c]) == Trim(s)
  {
    TrimStartAppendSpace(s, c);
    var t := TrimStart(s);
    if t != [] {
      assert (t + [c])[..|t|] == t;
    }
  }

  /** A reply fenced as a JSON code block parses as the text inside the fence. */
  lemma CleanFencedReply(body: string)
    requires '`' !in body
    ensures CleanResponse("```json\n" + body + "\n```") == Trim(body)
  {
    var s := "```json\n" + body + "\n```";
    assert StartsWith(s, "```json");
    assert s[7..][0] == '\n';
    assert s[7..][1..] == (body + "\n") + "```";
    StripFencesPlainPrefix(body + "\n", "```");
    assert StartsWith("```", "```") && "```"[3..] == [];
    assert StripFences(s) == body + "\n";
    TrimAppendSpace(body, '\n');
  }

  // ---------------------------------------------------------------------
  // Normalising a parsed reply

  /** The default of each key of an analysis, used when the parsed value is missing or falsy. */
  const AnalysisDefaults: map<string, JsValue> := map[
    "summaryCritique" := Obj(map["summary" := Str(""), "feedback" := Arr([])]),
    "scoreBreakdown" := Obj(map["education" := Num(0.0), "skills" := Num(0.0), "projects" := Num(0.0), "experience" := Num(0.0)]),
    "categorizedSkills" := Obj(map["technical" := Arr([]), "tools" := Arr([]), "soft" := Arr([])]),
    "placementProbability" := Num(0.0),
    "suitableRoles" := Arr([]),
    "companyTypes" := Arr([]),
    "roadmap" := Arr([]),
    "atsCheck" := Obj(map["keywords" := Str("Low"), "formatting" := Str("Good"), "readability" := Str("Good")])
  ]

  /**
   * The analysis built from a parsed reply: exactly the eight keys, each the
   * parsed value where that is truthy and the default otherwise.
   */
  function Normalize(parsed: JsValue): (r: JsValue)
    requires NotNullish(parsed)
    ensures r.Obj? && r.fields.Keys == AnalysisDefaults.Keys
    ensures forall k | k in AnalysisDefaults ::
      if Truthy(OptGet(parsed, k)) then r.fields[k] == OptGet(parsed, k) else r.fields[k] == AnalysisDefaults[k]
  {
    Obj(map k | k in AnalysisDefaults :: Or(OptGet(parsed, k), AnalysisDefaults[k]))
  }

  /** Normalising a normalised analysis changes nothing. */
  lemma NormalizeIdempotent(parsed: JsValue)
    requires NotNullish(parsed)
    ensures Normalize(Normalize(parsed)) == Normalize(parsed)
  {
    var once := Normalize(parsed);
    var twice := Normalize(once);
    assert twice.fields == once.fields by {
      forall k | k in AnalysisDefaults
        ensures twice.fields[k] == once.fields[k]
      {
        assert OptGet(once, k) == once.fields[k];
      }
    }
  }

  /** A reply whose every key is present and truthy is returned as it is, restricted to the eight keys. */
  lemma NormalizeKeepsCompleteReply(parsed: JsValue)
    requires parsed.Obj?
    requires forall k | k in AnalysisDefaults :: k in parsed.fields && Truthy(parsed.fields[k])
    ensures Normalize(parsed).fields == map k | k in AnalysisDefaults :: parsed.fields[k]
  {
  }

  // ---------------------------------------------------------------------
  // One attempt

  /** The TypeError raised by reading `summaryCritique` of a parsed null. */
  function NullAccessMessage(v: JsValue): string {
    "Cannot read properties of " + (if v.Null? then "null" else "undefined") + " (reading 'summaryCritique')"
  }

  datatype Attempt = Succeeded(analysis: JsValue) | Failed(message: string)

  /** The fate of one candidate: its call, the cleaning, the parse and the normalisation. */
  function TryCandidate(o: CallOutcome, parse: string -> ParseOutcome): (r: Attempt)
    ensures r.Succeeded? ==> r.analysis.Obj? && r.analysis.fields.Keys == AnalysisDefaults.Keys
  {
    match o
    case CallFailed(m) => Failed(m)
    case Responded(text) =>
      match parse(CleanResponse(text))
      case SyntaxError(m) => Failed(m)
      case Parsed(v) => if NotNullish(v) then Succeeded(Normalize(v)) else Failed(NullAccessMessage(v))
  }

  // ---------------------------------------------------------------------
  // The degraded record

  /** `lastError?.message?.includes('429')` */
  predicate IsQuota(lastError: Option<string>) {
    lastError.Some? && Includes(lastError.value, "429")
  }

  const QuotaAdvice: string := "The AI limit is reached. Please wait 1 minute."
  const KeyAdvice: string := "Check API key permissions in Google AI Studio."

  function Advice(lastError: Option<string>): string {
    if IsQuota(lastError) then QuotaAdvice else KeyAdvice
  }

  /** The `summary` text: the quota notice, or the last error's message ("undefined" when there is none). */
  function ErrorSummary(lastError: Option<string>): (r: string)
    ensures IsQuota(lastError) ==> r == "Error: Quota Reached (429)"
    ensures !IsQuota(lastError) && lastError.Some? ==> r == "Error: " + lastError.value
  {
    "Error: " + (if IsQuota(lastError) then "Quota Reached (429)" else lastError.GetOr("undefined"))
  }

  /**
   * The record returned when every candidate failed, as the source writes it:
   * six keys, none of them among `categorizedSkills`, `scoreBreakdown` and
   * `summaryCritique`.
   */
  function DegradedRecord(lastError: Option<string>): (r: JsValue)
    ensures r.Obj? && r.fields.Keys == {"skills", "suitableRoles", "placementProbability", "companyTypes", "recommendations", "summary"}
    ensures r.fields["recommendations"] == Arr([Str(Advice(lastError))])
    ensures r.fields["summary"] == Str(ErrorSummary(lastError))
  {
    Obj(map[
      "skills" := Arr([Str("Extraction failed")]),
      "suitableRoles" := Arr([Str("Unavailable")]),
      "placementProbability" := Num(0.0),
      "companyTypes" := Arr([Str("Offline")]),
      "recommendations" := Arr([Str(Advice(lastError))]),
      "summary" := Str(ErrorSummary(lastError))
    ])
  }

  /**
   * The degraded record with the shape of a successful analysis: every key
   * of the as-written record with the same value, plus the eight analysis
   * keys, `summaryCritique` carrying the error summary and the advice.
   */
  function DegradedRecordFull(lastError: Option<string>): (r: JsValue)
    ensures r.Obj? && AnalysisDefaults.Keys <= r.fields.Keys
    ensures DegradedRecord(lastError).fields.Keys <= r.fields.Keys
    ensures forall k | k in DegradedRecord(lastError).fields :: r.fields[k] == DegradedRecord(lastError).fields[k]
    ensures r.fields["summaryCritique"]
      == Obj(map["summary" := Str(ErrorSummary(lastError)), "feedback" := Arr([Str(Advice(lastError))])])
  {
    Obj(AnalysisDefaults + DegradedRecord(lastError).fields
        + map["summaryCritique" := Obj(map["summary" := Str(ErrorSummary(lastError)), "feedback" := Arr([Str(Advice(lastError))])])])
  }

  // ---------------------------------------------------------------------
  // The fallback loop

  /** The analysis and how many candidates were asked. */
  datatype Run = Run(result: JsValue, attempted: nat)

  /**
   * Which record answers a total failure: the six-key record the source
   * builds, or the corrected record with the analysis shape.
   */
  datatype Fallback = AsWritten | Corrected

  function DegradedFor(f: Fallback, lastError: Option<string>): (r: JsValue)
    ensures r.Obj?
    ensures f == AsWritten ==> r == DegradedRecord(lastError)
    ensures f == Corrected ==> r == DegradedRecordFull(lastError)
  {
    match f
    case AsWritten => DegradedRecord(lastError)
    case Corrected => DegradedRecordFull(lastError)
  }

  /**
   * The loop from candidate `i` on, `lastError` being the message of the
   * last failure so far: the first candidate that succeeds answers, and
   * after the last one the degraded record does.
   */
  function AnalyzeFrom(
    outcomes: seq<CallOutcome>, parse: string -> ParseOutcome, i: nat, lastError: Option<string>, f: Fallback): (r: Run)
    requires i <= |outcomes|
    ensures i <= r.attempted <= |outcomes|
    ensures i < |outcomes| ==> i < r.attempted
    ensures r.result.Obj?
    decreases |outcomes| - i
  {
    if i == |outcomes| then Run(DegradedFor(f, lastError), i)
    else
      match TryCandidate(outcomes[i], parse)
      case Succeeded(a) => Run(a, i + 1)
      case Failed(m) => AnalyzeFrom(outcomes, parse, i + 1, Some(m), f)
  }

  /** `analyzeResumeText` as the source writes it, one outcome per candidate. */
  function Analyze(outcomes: seq<CallOutcome>, parse: string -> ParseOutcome): (r: Run)
    requires |outcomes| == |Candidates|
    ensures 1 <= r.attempted <= |Candidates|
    ensures r.result.Obj?
  {
    AnalyzeFrom(outcomes, parse, 0, None, AsWritten)
  }

  /** The same loop answering a total failure with the corrected record. */
  function AnalyzeCorrected(outcomes: seq<CallOutcome>, parse: string -> ParseOutcome): (r: Run)
    requires |outcomes| == |Candidates|
    ensures 1 <= r.attempted <= |Candidates|
    ensures r.result.Obj?
  {
    AnalyzeFrom(outcomes, parse, 0, None, Corrected)
  }

  /** The loop itself: it stops at the first candidate that succeeds. */
  method AnalyzeResumeText(outcomes: seq<CallOutcome>, parse: string -> ParseOutcome) returns (result: JsValue, attempted: nat)
    requires |outcomes| == |Candidates|
    ensures Run(result, attempted) == Analyze(outcomes, parse)
  {
    var lastError: Option<string> := None;
    var i := 0;
    while i < |outcomes|
      invariant 0 <= i <= |outcomes|
      invariant AnalyzeFrom(outcomes, parse, i, lastError, AsWritten) == Analyze(outcomes, parse)
    {
      match outcomes[i] {
        case CallFailed(m) =>
          lastError := Some(m);
        case Responded(text) =>
          var jsonStr := CleanResponse(text);
          match parse(jsonStr) {
            case SyntaxError(m) =>
              lastError := Some(m);
            case Parsed(v) =>
              if NotNullish(v) {
                return Normalize(v), i + 1;
              }
              lastError := Some(NullAccessMessage(v));
          }
      }
      i := i + 1;
    }
    return DegradedRecord(lastError), i;
  }

  // ---------------------------------------------------------------------
  // What the loop promises

  predicate FailsUpTo(outcomes: seq<CallOutcome>, parse: string -> ParseOutcome, n: nat)
    requires n <= |outcomes|
  {
    forall j | 0 <= j < n :: TryCandidate(outcomes[j], parse).Failed?
  }

  lemma {:induction false} AnalyzeFromFirstSuccess(
    outcomes: seq<CallOutcome>, parse: string -> ParseOutcome, i: nat, lastError: Option<string>, f: Fallback, w: nat)
    requires i <= w < |outcomes|
    requires forall j | i <= j < w :: TryCandidate(outcomes[j], parse).Failed?
    requires TryCandidate(outcomes[w], parse).Succeeded?
    ensures AnalyzeFrom(outcomes, parse, i, lastError, f) == Run(TryCandidate(outcomes[w], parse).analysis, w + 1)
    decreases w - i
  {
    if i < w {
      AnalyzeFromFirstSuccess(outcomes, parse, i + 1, Some(TryCandidate(outcomes[i], parse).message), f, w);
    }
  }

  /** The first candidate that succeeds gives the analysis; none after it is asked. */
  lemma FirstSuccessWins(outcomes: seq<CallOutcome>, parse: string -> ParseOutcome, w: nat)
    requires |outcomes| == |Candidates| && w < |outcomes|
    requires FailsUpTo(outcomes, parse, w)
    requires TryCandidate(outcomes[w], parse).Succeeded?
    ensures Analyze(outcomes, parse) == Run(TryCandidate(outcomes[w], parse).analysis, w + 1)
    ensures AnalyzeCorrected(outcomes, parse) == Analyze(outcomes, parse)
  {
    AnalyzeFromFirstSuccess(outcomes, parse, 0, None, AsWritten, w);
    AnalyzeFromFirstSuccess(outcomes, parse, 0, None, Corrected, w);
  }

  lemma {:induction false} AnalyzeFromAllFail(
    outcomes: seq<CallOutcome>, parse: string -> ParseOutcome, i: nat, lastError: Option<string>, f: Fallback)
    requires i < |outcomes|
    requires forall j | i <= j < |outcomes| :: TryCandidate(outcomes[j], parse).Failed?
    ensures AnalyzeFrom(outcomes, parse, i, lastError, f)
      == Run(DegradedFor(f, Some(TryCandidate(outcomes[|outcomes| - 1], parse).message)), |outcomes|)
    decreases |outcomes| - i
  {
    var m := TryCandidate(outcomes[i], parse).message;
    assert AnalyzeFrom(outcomes, parse, i, lastError, f) == AnalyzeFrom(outcomes, parse, i + 1, Some(m), f);
    if i + 1 < |outcomes| {
      AnalyzeFromAllFail(outcomes, parse, i + 1, Some(m), f);
    }
  }

  /**
   * When every candidate fails, all are asked and the source answers with
   * the six-key record carrying the LAST failure's message (the corrected
   * loop with the full record).
   */
  lemma AllFailDegrades(outcomes: seq<CallOutcome>, parse: string -> ParseOutcome)
    requires |outcomes| == |Candidates|
    requires FailsUpTo(outcomes, parse, |outcomes|)
    ensures var last := Some(TryCandidate(outcomes[|outcomes| - 1], parse).message);
      && Analyze(outcomes, parse) == Run(DegradedRecord(last), |Candidates|)
      && AnalyzeCorrected(outcomes, parse) == Run(DegradedRecordFull(last), |Candidates|)
  {
    AnalyzeFromAllFail(outcomes, parse, 0, None, AsWritten);
    AnalyzeFromAllFail(outcomes, parse, 0, None, Corrected);
  }

  /** The two loops differ only in the answer to a total failure. */
  lemma AnalyzersAgreeUnlessAllFail(outcomes: seq<CallOutcome>, parse: string -> ParseOutcome)
    requires |outcomes| == |Candidates|
    requires !FailsUpTo(outcomes, parse, |outcomes|)
    ensures AnalyzeCorrected(outcomes, parse) == Analyze(outcomes, parse)
  {
    var w := FirstSucceeding(outcomes, parse, 0);
    FirstSuccessWins(outcomes, parse, w);
  }

  /** The first candidate from `i` on that succeeds, when some candidate does. */
  lemma {:induction false} FirstSucceeding(outcomes: seq<CallOutcome>, parse: string -> ParseOutcome, i: nat) returns (w: nat)
    requires i <= |outcomes| && FailsUpTo(outcomes, parse, i)
    requires !FailsUpTo(outcomes, parse, |outcomes|)
    ensures i <= w < |outcomes| && FailsUpTo(outcomes, parse, w) && TryCandidate(outcomes[w], parse).Succeeded?
    decreases |outcomes| - i
  {
    if i == |outcomes| {
      assert false;
    } else if TryCandidate(outcomes[i], parse).Succeeded? {
      w := i;
    } else {
      assert FailsUpTo(outcomes, parse, i + 1) by {
        forall j | 0 <= j < i + 1
          ensures TryCandidate(outcomes[j], parse).Failed?
        {
          if j < i {
            assert TryCandidate(outcomes[j], parse).Failed?;
          }
        }
      }
      w := FirstSucceeding(outcomes, parse, i + 1);
    }
  }

  /**
   * After a total failure the quota advice is given exactly when the last
   * candidate's error mentions 429; what the earlier candidates said does
   * not matter.
   */
  lemma QuotaAdviceFollowsLastError(outcomes: seq<CallOutcome>, parse: string -> ParseOutcome)
    requires |outcomes| == |Candidates|
    requires FailsUpTo(outcomes, parse, |outcomes|)
    ensures var rec := Analyze(outcomes, parse).result;
      var last := TryCandidate(outcomes[|outcomes| - 1], parse).message;
      && "recommendations" in rec.fields && "summary" in rec.fields
      && (rec.fields["recommendations"] == Arr([Str(QuotaAdvice)]) <==> Includes(last, "429"))
      && (rec.fields["summary"] == Str("Error: Quota Reached (429)") <== Includes(last, "429"))
      && (!Includes(last, "429") ==> rec.fields["summary"] == Str("Error: " + last))
  {
    AllFailDegrades(outcomes, parse);
    assert QuotaAdvice != KeyAdvice;
  }

  /** Two total failures that end with the same outcome give the same record. */
  lemma OnlyLastFailureMatters(xs: seq<CallOutcome>, ys: seq<CallOutcome>, parse: string -> ParseOutcome)
    requires |xs| == |Candidates| && |ys| == |Candidates|
    requires FailsUpTo(xs, parse, |xs|) && FailsUpTo(ys, parse, |ys|)
    requires xs[|xs| - 1] == ys[|ys| - 1]
    ensures Analyze(xs, parse) == Analyze(ys, parse)
  {
    AllFailDegrades(xs, parse);
    AllFailDegrades(ys, parse);
  }

  /** A reply parsed as null is a failure, not an analysis. */
  lemma NullReplyFails(text: string, parse: string -> ParseOutcome)
    requires parse(CleanResponse(text)) == Parsed(Null)
    ensures TryCandidate(Responded(text), parse).Failed?
    ensures TryCandidate(Responded(text), parse).message == NullAccessMessage(Null)
  {
  }
}
