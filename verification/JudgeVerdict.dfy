/**
  How src/lib/submission-jobs.ts turns an answer of the judge into the terminal update
  of a submission row. Runtimes are exact reals.
 */
module Verdicts {
  import opened Wrappers
  import opened Quotients

  datatype Verdict =
    | Accepted | WrongAnswer | RuntimeError | CompileError
    | MemoryLimitExceeded | TimeLimitExceeded | SecurityError

  /** A non-empty error message with what its text matches. */
  datatype ErrorText = ErrorText(text: string, looksLikeCompileError: bool, looksLikeMemoryError: bool)

  datatype CaseResult =
    CaseResult(passed: bool, error: Option<ErrorText>, runtime: Option<real>, actual: Option<string>)

  datatype TerminalUpdate =
    TerminalUpdate(verdict: Verdict, runtime: Option<int>, error: Option<string>, output: Option<string>)

  function TrustedVerdict(judgeStatus: string): Option<Verdict> {
    if judgeStatus == "compile_error" then Some(CompileError)
    else if judgeStatus == "memory_limit_exceeded" then Some(MemoryLimitExceeded)
    else if judgeStatus == "time_limit_exceeded" then Some(TimeLimitExceeded)
    else if judgeStatus == "security_error" then Some(SecurityError)
    else None
  }

  function FirstError(results: seq<CaseResult>): Option<ErrorText> {
    if results == [] then None
    else if results[0].error.Some? then results[0].error
    else FirstError(results[1..])
  }

  /** The standard output of the first failing case. */
  function FirstFailingOutput(results: seq<CaseResult>): Option<string> {
    if results == [] then None
    else if !results[0].passed then results[0].actual
    else FirstFailingOutput(results[1..])
  }

  function TotalRuntime(results: seq<CaseResult>): real {
    if results == [] then 0.0
    else (if results[0].runtime.Some? then results[0].runtime.value else 0.0) + TotalRuntime(results[1..])
  }

  function AtLeastOne(n: nat): (m: nat)
    ensures m >= 1
  {
    if n < 1 then 1 else n
  }

  function AverageRuntime(results: seq<CaseResult>): real {
    TotalRuntime(results) / AtLeastOne(|results|) as real
  }

  /** What `String.prototype.trim` removes. */
  predicate IsSpace(c: char) {
    var n := c as int;
    9 <= n <= 13 || n == 0x20 || n == 0xA0 || n == 0x1680 || 0x2000 <= n <= 0x200A
    || n == 0x2028 || n == 0x2029 || n == 0x202F || n == 0x205F || n == 0x3000 || n == 0xFEFF
  }

  predicate Blank(s: string) {
    forall c | c in s :: IsSpace(c)
  }

  function TrimLeft(s: string): string {
    if s != "" && IsSpace(s[0]) then TrimLeft(s[1..]) else s
  }

  function TrimRight(s: string): string {
    if s != "" && IsSpace(s[|s| - 1]) then TrimRight(s[..|s| - 1]) else s
  }

  function Trim(s: string): string { TrimRight(TrimLeft(s)) }

  /** The verdict chosen from the text of an error. */
  function VerdictOf(error: ErrorText): Verdict {
    if error.looksLikeCompileError then CompileError
    else if error.looksLikeMemoryError then MemoryLimitExceeded
    else RuntimeError
  }

  /** The row update for an answer of the judge. */
  function Judge(results: seq<CaseResult>, judgeStatus: string): TerminalUpdate {
    var allPassed := forall r | r in results :: r.passed;
    var first := FirstError(results);
    var verdict :=
      if TrustedVerdict(judgeStatus).Some? then TrustedVerdict(judgeStatus).value
      else if first.Some? && !allPassed then
        VerdictOf(first.value)
      else if allPassed then Accepted
      else WrongAnswer;
    var output := FirstFailingOutput(results);
    TerminalUpdate(
      verdict,
      Some(Round(AverageRuntime(results))),
      if first.Some? then Some(first.value.text) else None,
      if verdict == Accepted || output.None? || Trim(output.value) == "" then None else Some(Trim(output.value)))
  }

  /** The row update when the judge fails for another reason than being unavailable. */
  function Crash(message: Option<string>): TerminalUpdate {
    TerminalUpdate(RuntimeError, None, if message.Some? then message else Some("Internal judging error"), None)
  }

  // ---- what the update says ----

  lemma {:induction false} FirstErrorNone(results: seq<CaseResult>)
    ensures FirstError(results).None? <==> forall r | r in results :: r.error.None?
  {
    if results != [] {
      FirstErrorNone(results[1..]);
      assert forall r | r in results :: r == results[0] || r in results[1..];
    }
  }

  /** Case `i` is the first with an error. */
  predicate ErrsFirst(results: seq<CaseResult>, i: nat) {
    i < |results| && results[i].error.Some? && forall j :: 0 <= j < i ==> results[j].error.None?
  }

  lemma {:induction false} FirstErrorIs(results: seq<CaseResult>, i: nat)
    requires ErrsFirst(results, i)
    ensures FirstError(results) == results[i].error
    decreases i
  {
    if i > 0 {
      assert forall j :: 0 <= j < i - 1 ==> results[1..][j] == results[j + 1];
      FirstErrorIs(results[1..], i - 1);
    }
  }

  predicate AllPassed(results: seq<CaseResult>) {
    forall r | r in results :: r.passed
  }

  /** The verdict an answer calls for: four statuses are taken over, all others are judged by the cases. */
  ghost predicate VerdictFits(verdict: Verdict, results: seq<CaseResult>, judgeStatus: string) {
    if judgeStatus == "compile_error" then verdict == CompileError
    else if judgeStatus == "memory_limit_exceeded" then verdict == MemoryLimitExceeded
    else if judgeStatus == "time_limit_exceeded" then verdict == TimeLimitExceeded
    else if judgeStatus == "security_error" then verdict == SecurityError
    else
      && (verdict == Accepted <==> AllPassed(results))
      && (verdict == WrongAnswer <==> !AllPassed(results) && forall r | r in results :: r.error.None?)
      && (forall i: nat | ErrsFirst(results, i) && !AllPassed(results) ::
            var error := results[i].error.value;
            && (verdict == CompileError <==> error.looksLikeCompileError)
            && (verdict == MemoryLimitExceeded <==> !error.looksLikeCompileError && error.looksLikeMemoryError)
            && (verdict == RuntimeError <==> !error.looksLikeCompileError && !error.looksLikeMemoryError))
  }

  /** Which answers lead to which verdict. */
  lemma JudgeMeaning(results: seq<CaseResult>, judgeStatus: string)
    ensures VerdictFits(Judge(results, judgeStatus).verdict, results, judgeStatus)
  {
    FirstErrorNone(results);
    forall i: nat | ErrsFirst(results, i) ensures FirstError(results) == results[i].error {
      FirstErrorIs(results, i);
    }
  }

  /** The text of the first error, if there is one. */
  ghost predicate ErrorFits(error: Option<string>, results: seq<CaseResult>) {
    && ((forall r | r in results :: r.error.None?) ==> error.None?)
    && (forall i: nat | ErrsFirst(results, i) :: error == Some(results[i].error.value.text))
  }

  lemma ErrorMeaning(results: seq<CaseResult>, judgeStatus: string)
    ensures ErrorFits(Judge(results, judgeStatus).error, results)
  {
    FirstErrorNone(results);
    forall i: nat | ErrsFirst(results, i) ensures FirstError(results) == results[i].error {
      FirstErrorIs(results, i);
    }
  }

  /** Case `i` fails and all before it pass. */
  predicate FailsFirst(results: seq<CaseResult>, i: nat) {
    i < |results| && !results[i].passed && forall j :: 0 <= j < i ==> results[j].passed
  }

  lemma {:induction false} FirstFailingOutputIs(results: seq<CaseResult>, i: nat)
    requires FailsFirst(results, i)
    ensures FirstFailingOutput(results) == results[i].actual
    decreases i
  {
    if i > 0 {
      assert forall j :: 0 <= j < i - 1 ==> results[1..][j] == results[j + 1];
      FirstFailingOutputIs(results[1..], i - 1);
    }
  }

  lemma {:induction false} NoFailingOutput(results: seq<CaseResult>)
    requires forall r | r in results :: r.passed
    ensures FirstFailingOutput(results).None?
  {
    if results != [] {
      assert results[0] in results && forall r | r in results[1..] :: r in results;
      NoFailingOutput(results[1..]);
    }
  }

  /** Trimming cuts blanks off both ends and stops at the first character that is none. */
  lemma {:induction false} TrimLeftMeaning(s: string) returns (front: string)
    ensures s == front + TrimLeft(s) && Blank(front)
    ensures TrimLeft(s) != "" ==> !IsSpace(TrimLeft(s)[0])
  {
    if s != "" && IsSpace(s[0]) {
      front := TrimLeftMeaning(s[1..]);
      assert s == [s[0]] + s[1..];
      front := [s[0]] + front;
    } else {
      front := "";
    }
  }

  lemma {:induction false} TrimRightMeaning(s: string) returns (back: string)
    ensures s == TrimRight(s) + back && Blank(back)
    ensures TrimRight(s) != "" ==> !IsSpace(TrimRight(s)[|TrimRight(s)| - 1])
  {
    if s != "" && IsSpace(s[|s| - 1]) {
      back := TrimRightMeaning(s[..|s| - 1]);
      assert s == s[..|s| - 1] + [s[|s| - 1]];
      back := back + [s[|s| - 1]];
    } else {
      back := "";
    }
  }

  lemma TrimMeaning(s: string) returns (front: string, back: string)
    ensures s == front + Trim(s) + back && Blank(front) && Blank(back)
    ensures Trim(s) != "" ==> !IsSpace(Trim(s)[0]) && !IsSpace(Trim(s)[|Trim(s)| - 1])
    ensures Trim(s) == "" <==> Blank(s)
  {
    front := TrimLeftMeaning(s);
    back := TrimRightMeaning(TrimLeft(s));
    if Trim(s) != "" {
      assert TrimLeft(s)[0] == Trim(s)[0];
      assert Trim(s)[0] in s;
    }
  }

  /** Among the ASCII characters the blanks are tab to carriage return and space. */
  lemma BlanksOfAscii(c: char)
    requires c as int < 128
    ensures IsSpace(c) <==> c == ' ' || c == '\t' || c == '\n' || c == '\r' || c as int == 11 || c as int == 12
  {
  }

  /**
    The output stored for the user: that of the first failing case without the blanks around it,
    unless the submission is accepted, every case passes, or there is nothing but blanks.
   */
  ghost predicate OutputFits(output: Option<string>, verdict: Verdict, results: seq<CaseResult>) {
    && (verdict == Accepted || AllPassed(results) ==> output.None?)
    && (forall i: nat | FailsFirst(results, i) && verdict != Accepted ::
          if results[i].actual.Some? && !Blank(results[i].actual.value)
          then output == Some(Trim(results[i].actual.value)) else output.None?)
  }

  lemma OutputMeaning(results: seq<CaseResult>, judgeStatus: string)
    ensures OutputFits(Judge(results, judgeStatus).output, Judge(results, judgeStatus).verdict, results)
  {
    if AllPassed(results) {
      NoFailingOutput(results);
    }
    forall i: nat | FailsFirst(results, i) ensures FirstFailingOutput(results) == results[i].actual {
      FirstFailingOutputIs(results, i);
    }
    if FirstFailingOutput(results).Some? {
      var front, back := TrimMeaning(FirstFailingOutput(results).value);
    }
  }

  /** The total is a sum over the cases in which a missing runtime counts 0. */
  lemma {:induction false} TotalRuntimeMeaning(r: CaseResult, a: seq<CaseResult>, b: seq<CaseResult>)
    ensures TotalRuntime([]) == 0.0
    ensures TotalRuntime([r]) == if r.runtime.Some? then r.runtime.value else 0.0
    ensures TotalRuntime(a + b) == TotalRuntime(a) + TotalRuntime(b)
    decreases |a|
  {
    assert [r][1..] == [];
    if a == [] {
      assert a + b == b;
    } else {
      assert (a + b)[1..] == a[1..] + b;
      TotalRuntimeMeaning(r, a[1..], b);
    }
  }

  /** The average over all cases, to the nearest integer, a half upwards. */
  predicate RuntimeFits(runtime: Option<int>, results: seq<CaseResult>) {
    && runtime.Some?
    && var n, cases := runtime.value as real, (if results == [] then 1 else |results|) as real;
       cases * (n - 0.5) <= TotalRuntime(results) < cases * (n + 0.5)
  }

  lemma RoundedQuotient(total: real, m: real, n: int, lo: real, hi: real)
    requires m > 0.0 && n == Round(total / m) && lo == n as real - 0.5 && hi == n as real + 0.5
    ensures m * lo <= total < m * hi
  {
    QuotientAtLeast(total, m, lo);
    QuotientBelow(total, m, hi);
  }

  lemma RuntimeMeaning(results: seq<CaseResult>, judgeStatus: string)
    ensures RuntimeFits(Judge(results, judgeStatus).runtime, results)
  {
    var m := AtLeastOne(|results|) as real;
    var n := Round(AverageRuntime(results));
    RoundedQuotient(TotalRuntime(results), m, n, n as real - 0.5, n as real + 0.5);
  }

  /** The update reports the answer of the judge. */
  ghost predicate Reports(update: TerminalUpdate, results: seq<CaseResult>, judgeStatus: string) {
    && VerdictFits(update.verdict, results, judgeStatus)
    && RuntimeFits(update.runtime, results)
    && ErrorFits(update.error, results)
    && OutputFits(update.output, update.verdict, results)
  }

  lemma JudgeReports(results: seq<CaseResult>, judgeStatus: string)
    ensures Reports(Judge(results, judgeStatus), results, judgeStatus)
  {
    JudgeMeaning(results, judgeStatus);
    RuntimeMeaning(results, judgeStatus);
    ErrorMeaning(results, judgeStatus);
    OutputMeaning(results, judgeStatus);
  }
}
