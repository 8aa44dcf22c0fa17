/**
 * The per-step loop of `main` in src/solve.ts:141-207. Steps 1..30 run in order;
 * step s submits `codes[s]` through `__dispatchAndSubmit`, waits for the address of
 * the next step (or the finish page after step 30) and retries once when it did not
 * arrive. What the page does in each step is given by an oracle; the loop's own
 * decisions, the code it submits and the messages it reports are the model.
 */
module StepDriver {
  import opened Wrappers
  import Injection
  import SessionCodec

  /** The number of challenge steps. */
  const StepCount: nat := 30

  /** The length of an error excerpt, `substring(0, 80)`. */
  const ExcerptLength: nat := 80

  /** A page address the loop waits for: `step<n>` or `finish`. */
  datatype Address = StepAddress(n: nat) | FinishAddress

  /** `nextPattern` of src/solve.ts:177-178. */
  function NextTarget(step: nat): (a: Address)
    ensures step < StepCount ==> a == StepAddress(step + 1)
    ensures step >= StepCount ==> a == FinishAddress
  {
    if step < StepCount then StepAddress(step + 1) else FinishAddress
  }

  /** `codes[step]`: `undefined` (None) past the end of the array. */
  function CodeAt(codes: seq<string>, step: nat): (c: Option<string>)
    ensures c.Some? <==> step < |codes|
    ensures c.Some? ==> c.value == codes[step]
  {
    if step < |codes| then Some(codes[step]) else None
  }

  /** `String.prototype.includes`. */
  predicate Contains(text: string, fragment: string)
    decreases |text|
  {
    (|fragment| <= |text| && text[..|fragment|] == fragment)
    || (|text| > 0 && Contains(text[1..], fragment))
  }

  /** The fragment occurs in the text at position i. */
  predicate OccursAt(text: string, fragment: string, i: nat) {
    i + |fragment| <= |text| && text[i..i + |fragment|] == fragment
  }

  /** Contains agrees with "the fragment occurs at some position". */
  lemma {:induction false} ContainsAt(text: string, fragment: string)
    ensures Contains(text, fragment) <==> exists i: nat :: OccursAt(text, fragment, i)
    decreases |text|
  {
    if |fragment| <= |text| && text[..|fragment|] == fragment {
      assert OccursAt(text, fragment, 0);
    }
    if |text| > 0 {
      ContainsAt(text[1..], fragment);
      if Contains(text[1..], fragment) {
        var i: nat :| OccursAt(text[1..], fragment, i);
        assert OccursAt(text, fragment, i + 1);
      }
      if exists i: nat :: OccursAt(text, fragment, i) {
        var i: nat :| OccursAt(text, fragment, i);
        if i > 0 {
          assert OccursAt(text[1..], fragment, i - 1);
        } else {
          assert text[..|fragment|] == fragment;
        }
      }
    } else {
      if exists i: nat :: OccursAt(text, fragment, i) {
        var i: nat :| OccursAt(text, fragment, i);
        assert i == 0 && fragment == [];
      }
    }
  }

  /** An error whose message shows that the page navigated while the call ran
      (src/solve.ts:167-171 and the regular expression of 192). */
  function IsNavigationRace(message: string): (race: bool)
    ensures race <==> exists i: nat ::
      OccursAt(message, "detached", i) || OccursAt(message, "Execution context", i) || OccursAt(message, "navigation", i)
  {
    ContainsAt(message, "detached");
    ContainsAt(message, "Execution context");
    ContainsAt(message, "navigation");
    Contains(message, "detached") || Contains(message, "Execution context") || Contains(message, "navigation")
  }

  /** `message.substring(0, 80)`. */
  function Excerpt(message: string): (e: string)
    ensures |e| == (if |message| < ExcerptLength then |message| else ExcerptLength)
    ensures e <= message
  {
    if |message| <= ExcerptLength then message else message[..ExcerptLength]
  }

  /** How a `page.evaluate` of `__dispatchAndSubmit` settles: it returns an outcome
      or rejects with an error whose `message` may be missing. */
  datatype EvalResult = Returned(outcome: Injection.Outcome) | Threw(message: Option<string>)

  /** How `page.waitForURL` settles. */
  datatype WaitResult = Reached | WaitThrew(message: Option<string>)

  /** What the page does during one step, in the order the loop asks. */
  datatype StepScript = StepScript(
    first: EvalResult,           // the first evaluate
    firstWait: WaitResult,       // the first waitForURL
    matchedAfterFirst: bool,     // nextPattern.test(page.url()) after it timed out
    retry: EvalResult,           // the retry's evaluate
    retryWait: WaitResult,       // the retry's waitForURL
    matchedAfterRetry: bool)     // nextPattern.test(page.url()) after the retry

  /** A console line the loop writes, apart from the timing line. */
  datatype Report =
    | OutcomeReport(step: nat, outcome: Injection.Outcome)  // `Step s: no_input`
    | ErrorReport(step: nat, excerpt: string)              // `Step s error: ...`
    | RetryReport(step: nat, retryExcerpt: Option<string>)    // `Step s retry: ...`
    | FailureReport(step: nat)                             // `Step s: FAILED at ...`

  /** What one step did: the code it submitted, the address it waited for, how many
      times it called `__dispatchAndSubmit`, and whether the address was reached. */
  datatype StepRecord = StepRecord(step: nat, code: Option<string>, target: Address, submissions: nat, reached: bool)

  /** One step either completes or throws out of the loop. */
  datatype StepResult = Completed(record: StepRecord, reports: seq<Report>) | Crashed(reports: seq<Report>)

  /** The loop so far; `crashedAt` names the step whose exception ended it. */
  datatype Run = Run(steps: seq<StepRecord>, reports: seq<Report>, crashedAt: Option<nat>)

  /** The first catch block reads `err.message.substring` without `?.`: an error
      without a message makes the catch block itself throw. */
  predicate CrashesStep(script: StepScript) {
    script.first == Threw(None)
  }

  /** What the retry's catch block reports for an error. */
  function RetryReports(step: nat, message: Option<string>): seq<Report> {
    if message.Some? && IsNavigationRace(message.value) then []
    else [RetryReport(step, if message.Some? then Some(Excerpt(message.value)) else None)]
  }

  /** What the first attempt's `try`/`catch` reports (src/solve.ts:157-174). */
  function FirstReports(step: nat, first: EvalResult): seq<Report> {
    match first
    case Returned(outcome) => if outcome != Injection.Ok then [OutcomeReport(step, outcome)] else []
    case Threw(message) =>
      if message.None? || IsNavigationRace(message.value) then [] else [ErrorReport(step, Excerpt(message.value))]
  }

  /** The retry runs when the first wait failed and the address did not match. */
  predicate Retries(script: StepScript) {
    script.firstWait != Reached && !script.matchedAfterFirst
  }

  /** The rejection the retry's `catch` receives (src/solve.ts:184-190): its evaluate's,
      or else its waitForURL's; the evaluate's returned outcome is ignored. */
  function RetryError(script: StepScript): Option<Option<string>> {
    match script.retry
    case Threw(message) => Some(message)
    case Returned(_) =>
      match script.retryWait
      case Reached => None
      case WaitThrew(message) => Some(message)
  }

  /** The record of step s: it has number s, submitted `codes[s]`, waited for the
      address after s, called `__dispatchAndSubmit` a second time exactly when it
      retried, and reached its address exactly when the first wait, the first URL
      test or the retry's URL test succeeded. */
  predicate RecordedAs(codes: seq<string>, script: StepScript, record: StepRecord, s: nat) {
    && record.step == s
    && record.code == CodeAt(codes, s)
    && record.target == NextTarget(s)
    && record.submissions == (if Retries(script) then 2 else 1)
    && (record.reached <==> script.firstWait == Reached || script.matchedAfterFirst || script.matchedAfterRetry)
  }

  /** One iteration of the loop body. */
  function RunStep(codes: seq<string>, step: nat, script: StepScript): (r: StepResult)
    ensures r.Crashed? <==> CrashesStep(script)
    ensures r.Crashed? ==> r.reports == []
    ensures r.Completed? ==> RecordedAs(codes, script, r.record, step)
  {
    if CrashesStep(script) then Crashed([])
    else
      var firstReports := FirstReports(step, script.first);
      if !Retries(script) then
        Completed(StepRecord(step, CodeAt(codes, step), NextTarget(step), 1, true), firstReports)
      else
        var retryReports := if RetryError(script).Some? then RetryReports(step, RetryError(script).value) else [];
        var failure := if script.matchedAfterRetry then [] else [FailureReport(step)];
        Completed(StepRecord(step, CodeAt(codes, step), NextTarget(step), 2, script.matchedAfterRetry),
                  firstReports + retryReports + failure)
  }

  /** Every line a step writes carries its own step number, and it writes the
      `FAILED` line exactly when it completed without reaching its address. */
  lemma StepReports(codes: seq<string>, step: nat, script: StepScript)
    ensures var r := RunStep(codes, step, script);
      && (forall rep :: rep in r.reports ==> rep.step == step)
      && (FailureReport(step) in r.reports <==> r.Completed? && !r.record.reached)
  {
    var r := RunStep(codes, step, script);
    if r.Completed? {
      var first := FirstReports(step, script.first);
      assert forall rep :: rep in first ==> rep.step == step;
      if Retries(script) {
        var e := RetryError(script);
        var retryReports := if e.Some? then RetryReports(step, e.value) else [];
        assert forall rep :: rep in retryReports ==> rep.step == step && !rep.FailureReport?;
      }
    }
  }

  /** Steps 1..n of the loop. */
  function RunUpTo(codes: seq<string>, oracle: nat -> StepScript, n: nat): (run: Run)
    ensures |run.steps| <= n
    ensures run.crashedAt.None? ==> |run.steps| == n
    ensures run.crashedAt.Some? ==> run.crashedAt.value == |run.steps| + 1 <= n
    decreases n
  {
    if n == 0 then Run([], [], None)
    else
      var prev := RunUpTo(codes, oracle, n - 1);
      if prev.crashedAt.Some? then prev else Extend(prev, n, RunStep(codes, n, oracle(n)))
  }

  /** The run after step n, from the run before it and what step n did. */
  function Extend(prev: Run, n: nat, result: StepResult): Run {
    match result
    case Completed(record, reports) => Run(prev.steps + [record], prev.reports + reports, None)
    case Crashed(reports) => Run(prev.steps, prev.reports + reports, Some(n))
  }

  /** Step s of the run records step number s, submits `codes[s]`, waits for the
      address after s and calls `__dispatchAndSubmit` a second time exactly when the
      first wait failed and the address did not match. */
  predicate WellRecorded(codes: seq<string>, oracle: nat -> StepScript, steps: seq<StepRecord>) {
    forall k :: 0 <= k < |steps| ==> RecordedAs(codes, oracle(k + 1), steps[k], k + 1)
  }

  /** Appending the record of the next step keeps the records well formed. */
  lemma WellRecordedExtend(codes: seq<string>, oracle: nat -> StepScript, steps: seq<StepRecord>, record: StepRecord)
    requires WellRecorded(codes, oracle, steps)
    requires RecordedAs(codes, oracle(|steps| + 1), record, |steps| + 1)
    ensures WellRecorded(codes, oracle, steps + [record])
  {
    var all := steps + [record];
    forall k | 0 <= k < |all|
      ensures RecordedAs(codes, oracle(k + 1), all[k], k + 1)
    {
      if k < |steps| {
        assert all[k] == steps[k];
      }
    }
  }

  /** Steps run in increasing order from 1; a run that did not crash ran all n. */
  lemma {:induction false} RunShape(codes: seq<string>, oracle: nat -> StepScript, n: nat)
    ensures var run := RunUpTo(codes, oracle, n);
      && |run.steps| <= n
      && WellRecorded(codes, oracle, run.steps)
      && (run.crashedAt.None? ==> |run.steps| == n)
      && (run.crashedAt.Some? ==> run.crashedAt.value == |run.steps| + 1 <= n)
    decreases n
  {
    if n > 0 {
      RunShape(codes, oracle, n - 1);
      var prev := RunUpTo(codes, oracle, n - 1);
      if prev.crashedAt.None? {
        StepRecorded(codes, oracle, n);
      }
    }
  }

  /** Step n of a run still going after step n - 1 keeps the records well formed. */
  lemma StepRecorded(codes: seq<string>, oracle: nat -> StepScript, n: nat)
    requires n > 0
    requires var prev := RunUpTo(codes, oracle, n - 1);
      prev.crashedAt.None? && |prev.steps| == n - 1 && WellRecorded(codes, oracle, prev.steps)
    ensures WellRecorded(codes, oracle, RunUpTo(codes, oracle, n).steps)
  {
    var prev := RunUpTo(codes, oracle, n - 1);
    var result := RunStep(codes, n, oracle(n));
    if result.Completed? {
      WellRecordedExtend(codes, oracle, prev.steps, result.record);
    }
  }

  /** The loop stops early only on a first-attempt error without a message, and then at
      the first such step; a step that fails (the address never matched) or reports
      no_input/no_form never stops it. */
  lemma RunCrashesOnlyOnMessagelessError(codes: seq<string>, oracle: nat -> StepScript, n: nat)
    ensures var run := RunUpTo(codes, oracle, n);
      run.crashedAt.None? <==> forall s :: 1 <= s <= n ==> !CrashesStep(oracle(s))
    ensures var run := RunUpTo(codes, oracle, n);
      run.crashedAt.Some? ==>
        && 1 <= run.crashedAt.value <= n
        && CrashesStep(oracle(run.crashedAt.value))
        && forall s :: 1 <= s < run.crashedAt.value ==> !CrashesStep(oracle(s))
  {
    FirstCrashStops(codes, oracle, n);
    var run := RunUpTo(codes, oracle, n);
    if run.crashedAt.Some? {
      var c := run.crashedAt.value;
      assert 1 <= c <= n && CrashesStep(oracle(c));
    }
  }

  /** Induction for `RunCrashesOnlyOnMessagelessError`: a run that did not stop saw no
      crashing step, and one that stopped did so at its first crashing step. */
  lemma {:induction false} FirstCrashStops(codes: seq<string>, oracle: nat -> StepScript, n: nat)
    ensures var run := RunUpTo(codes, oracle, n);
      run.crashedAt.None? ==> forall s :: 1 <= s <= n ==> !CrashesStep(oracle(s))
    ensures var run := RunUpTo(codes, oracle, n);
      run.crashedAt.Some? ==>
        && 1 <= run.crashedAt.value <= n
        && CrashesStep(oracle(run.crashedAt.value))
        && forall s :: 1 <= s < run.crashedAt.value ==> !CrashesStep(oracle(s))
    decreases n
  {
    if n > 0 {
      FirstCrashStops(codes, oracle, n - 1);
      var prev := RunUpTo(codes, oracle, n - 1);
      if prev.crashedAt.Some? {
        assert RunUpTo(codes, oracle, n) == prev;
      } else {
        CrashAtStep(codes, oracle, n);
      }
    }
  }

  /** A run still going after step n - 1 stops at step n exactly when step n throws
      without a message. */
  lemma CrashAtStep(codes: seq<string>, oracle: nat -> StepScript, n: nat)
    requires n > 0 && RunUpTo(codes, oracle, n - 1).crashedAt.None?
    ensures RunUpTo(codes, oracle, n).crashedAt == if CrashesStep(oracle(n)) then Some(n) else None
  {
    var result := RunStep(codes, n, oracle(n));
    assert result.Crashed? <==> CrashesStep(oracle(n));
  }

  /** Once a step has thrown, later steps never run. */
  lemma {:induction false} CrashIsFinal(codes: seq<string>, oracle: nat -> StepScript, m: nat, n: nat)
    requires m <= n && RunUpTo(codes, oracle, m).crashedAt.Some?
    ensures RunUpTo(codes, oracle, n) == RunUpTo(codes, oracle, m)
    decreases n
  {
    if m < n {
      CrashIsFinal(codes, oracle, m, n - 1);
      CrashPersists(codes, oracle, n);
    }
  }

  /** A run that has stopped stays as it is for one more step. */
  lemma CrashPersists(codes: seq<string>, oracle: nat -> StepScript, n: nat)
    requires n > 0 && RunUpTo(codes, oracle, n - 1).crashedAt.Some?
    ensures RunUpTo(codes, oracle, n) == RunUpTo(codes, oracle, n - 1)
  {
  }

  /** The FAILED reports name exactly the steps that missed their address. */
  lemma {:induction false} FailedStepsAreReported(codes: seq<string>, oracle: nat -> StepScript, n: nat)
    ensures var run := RunUpTo(codes, oracle, n);
      forall k :: 0 <= k < |run.steps| && !run.steps[k].reached ==> FailureReport(k + 1) in run.reports
    ensures var run := RunUpTo(codes, oracle, n);
      forall s: nat :: FailureReport(s) in run.reports ==> 1 <= s <= |run.steps| && !run.steps[s - 1].reached
    decreases n
  {
    if n > 0 {
      FailedStepsAreReported(codes, oracle, n - 1);
      var prev := RunUpTo(codes, oracle, n - 1);
      var run := RunUpTo(codes, oracle, n);
      if prev.crashedAt.Some? {
        assert run == prev;
      } else {
        var result := RunStep(codes, n, oracle(n));
        StepReports(codes, n, oracle(n));
        FailureReportsOfStep(prev, result, n);
        if result.Completed? {
          assert run == Run(prev.steps + [result.record], prev.reports + result.reports, None);
        } else {
          assert run == Run(prev.steps, prev.reports + result.reports, Some(n));
        }
      }
    }
  }

  /** One step extends a run whose FAILED reports name exactly its missed steps into
      another such run. */
  lemma FailureReportsOfStep(prev: Run, result: StepResult, n: nat)
    requires |prev.steps| == n - 1 && n >= 1
    requires forall k :: 0 <= k < |prev.steps| && !prev.steps[k].reached ==> FailureReport(k + 1) in prev.reports
    requires forall s: nat :: FailureReport(s) in prev.reports ==> 1 <= s <= |prev.steps| && !prev.steps[s - 1].reached
    requires forall rep :: rep in result.reports ==> rep.step == n
    requires FailureReport(n) in result.reports <==> result.Completed? && !result.record.reached
    ensures var steps := if result.Completed? then prev.steps + [result.record] else prev.steps;
      var reports := prev.reports + result.reports;
      && (forall k :: 0 <= k < |steps| && !steps[k].reached ==> FailureReport(k + 1) in reports)
      && (forall s: nat :: FailureReport(s) in reports ==> 1 <= s <= |steps| && !steps[s - 1].reached)
  {
    var steps := if result.Completed? then prev.steps + [result.record] else prev.steps;
    var reports := prev.reports + result.reports;
    forall s: nat | FailureReport(s) in reports
      ensures 1 <= s <= |steps| && !steps[s - 1].reached
    {
      if FailureReport(s) !in prev.reports {
        assert FailureReport(s) in result.reports;
        assert FailureReport(s).step == n;
      }
    }
  }

  /** The first attempt writes an error line exactly when it rejected with a message
      mentioning none of "detached", "Execution context" and "navigation", and then
      writes the message's excerpt; it writes an outcome line exactly when it returned
      something other than "ok", and then writes that outcome. */
  lemma NavigationRaceNotReported(codes: seq<string>, step: nat, script: StepScript)
    requires !CrashesStep(script)
    ensures var reports := RunStep(codes, step, script).reports;
      (exists x :: ErrorReport(step, x) in reports) <==>
        script.first.Threw? && script.first.message.Some? && !IsNavigationRace(script.first.message.value)
    ensures var reports := RunStep(codes, step, script).reports;
      script.first.Threw? && script.first.message.Some? && !IsNavigationRace(script.first.message.value) ==>
        ErrorReport(step, Excerpt(script.first.message.value)) in reports
    ensures var reports := RunStep(codes, step, script).reports;
      (exists o :: OutcomeReport(step, o) in reports) <==> script.first.Returned? && script.first.outcome != Injection.Ok
    ensures var reports := RunStep(codes, step, script).reports;
      script.first.Returned? && script.first.outcome != Injection.Ok ==> OutcomeReport(step, script.first.outcome) in reports
  {
    var reports := RunStep(codes, step, script).reports;
    var first := FirstReports(step, script.first);
    FirstThenRetryReports(codes, step, script);
    FirstReportsContent(step, script.first);
    assert forall rep :: rep in reports && (rep.ErrorReport? || rep.OutcomeReport?) ==> rep in first by {
      forall rep | rep in reports && (rep.ErrorReport? || rep.OutcomeReport?)
        ensures rep in first
      {
        var i :| 0 <= i < |reports| && reports[i] == rep;
        assert i < |first|;
      }
    }
    assert forall rep :: rep in first ==> rep in reports;
  }

  /** What `FirstReports` holds: at most one line, an outcome line exactly for a returned
      outcome other than "ok", an error line exactly for a non-race message. */
  lemma FirstReportsContent(step: nat, first: EvalResult)
    ensures var f := FirstReports(step, first);
      && (first.Threw? && first.message.Some? && !IsNavigationRace(first.message.value) ==>
            f == [ErrorReport(step, Excerpt(first.message.value))])
      && (first.Returned? && first.outcome != Injection.Ok ==> f == [OutcomeReport(step, first.outcome)])
      && (first.Threw? && (first.message.None? || IsNavigationRace(first.message.value)) ==> f == [])
      && (first.Returned? && first.outcome == Injection.Ok ==> f == [])
  {
  }

  /** A step's reports are the first attempt's, followed only by retry and FAILED lines. */
  lemma FirstThenRetryReports(codes: seq<string>, step: nat, script: StepScript)
    requires !CrashesStep(script)
    ensures var reports := RunStep(codes, step, script).reports; var first := FirstReports(step, script.first);
      && |first| <= |reports| && reports[..|first|] == first
      && forall i :: |first| <= i < |reports| ==> reports[i].RetryReport? || reports[i].FailureReport?
  {
    var reports := RunStep(codes, step, script).reports;
    var first := FirstReports(step, script.first);
    if Retries(script) {
      var e := RetryError(script);
      var retryReports := if e.Some? then RetryReports(step, e.value) else [];
      var failure := if script.matchedAfterRetry then [] else [FailureReport(step)];
      assert reports == first + (retryReports + failure);
    } else {
      assert reports == first;
    }
  }

  /** The retry's catch block swallows navigation races only: a retry warning is written
      exactly when the retry ran and was rejected by an error whose message is missing
      or mentions none of the three fragments; a missing message prints as `undefined`. */
  lemma RetryNavigationRaceNotReported(codes: seq<string>, step: nat, script: StepScript)
    requires !CrashesStep(script)
    ensures var reports := RunStep(codes, step, script).reports; var e := RetryError(script);
      (exists x :: RetryReport(step, x) in reports) <==>
        Retries(script) && e.Some? && !(e.value.Some? && IsNavigationRace(e.value.value))
    ensures var reports := RunStep(codes, step, script).reports; var e := RetryError(script);
      Retries(script) && e == Some(None) ==> RetryReport(step, None) in reports
    ensures var reports := RunStep(codes, step, script).reports; var e := RetryError(script);
      Retries(script) && e.Some? && e.value.Some? && !IsNavigationRace(e.value.value) ==>
        RetryReport(step, Some(Excerpt(e.value.value))) in reports
  {
    var reports := RunStep(codes, step, script).reports;
    var e := RetryError(script);
    var first := FirstReports(step, script.first);
    assert forall x :: RetryReport(step, x) !in first;
    if Retries(script) {
      var retryReports := if e.Some? then RetryReports(step, e.value) else [];
      var failure := if script.matchedAfterRetry then [] else [FailureReport(step)];
      assert reports == first + retryReports + failure;
      if e.Some? && !(e.value.Some? && IsNavigationRace(e.value.value)) {
        assert retryReports[0] in reports;
      }
    }
  }

  /** With the 30 stored codes plus the sentinel, every step submits a code, step s
      submits `codes[s]`, and step 30 submits the sentinel and waits for the finish page. */
  lemma SentinelReachesLastStep(stored: seq<string>, oracle: nat -> StepScript)
    requires |stored| == StepCount
    requires forall s :: 1 <= s <= StepCount ==> !CrashesStep(oracle(s))
    ensures var codes := stored + [SessionCodec.Sentinel]; var run := RunUpTo(codes, oracle, StepCount);
      && |run.steps| == StepCount
      && (forall k :: 0 <= k < StepCount ==> run.steps[k].code == Some(codes[k + 1]))
      && run.steps[StepCount - 1].code == Some(SessionCodec.Sentinel)
      && run.steps[StepCount - 1].target == FinishAddress
  {
    var codes := stored + [SessionCodec.Sentinel];
    RunShape(codes, oracle, StepCount);
    RunCrashesOnlyOnMessagelessError(codes, oracle, StepCount);
  }

  /** The codes the session rewrite returns, when the page stored 30, drive every step:
      step s submits the s-th rewritten code and step 30 submits the sentinel. */
  lemma RewrittenCodesCoverAllSteps(b: SessionCodec.Builtins, raw: Option<string>, oracle: nat -> StepScript)
    requires SessionCodec.Rewrite(b, raw).Success?
    requires |SessionCodec.Decode(b, raw).value.codes| == StepCount
    requires forall s :: 1 <= s <= StepCount ==> !CrashesStep(oracle(s))
    ensures var codes := SessionCodec.Rewrite(b, raw).value.codes; var run := RunUpTo(codes, oracle, StepCount);
      && |run.steps| == StepCount
      && (forall k :: 0 <= k < StepCount ==> run.steps[k].code == Some(codes[k + 1]))
      && run.steps[StepCount - 1].code == Some(SessionCodec.Sentinel)
  {
    SessionCodec.RewriteAppendsSentinel(b, raw);
    SentinelReachesLastStep(SessionCodec.Decode(b, raw).value.codes, oracle);
  }

  /** The body of the loop for one step (src/solve.ts:144-203). */
  method SolveStep(codes: seq<string>, step: nat, script: StepScript) returns (result: StepResult)
    ensures result == RunStep(codes, step, script)
  {
    var code := CodeAt(codes, step);
    var reports, crashed := FirstAttempt(step, script.first);
    if crashed {
      return Crashed([]);
    }
    var target := NextTarget(step);
    var submissions := 1;
    var reached := true;
    if script.firstWait != Reached && !script.matchedAfterFirst {
      submissions := 2;
      var retryReports := RetryAttempt(step, script);
      reports := reports + retryReports;
      reached := script.matchedAfterRetry;
      if !reached {
        reports := reports + [FailureReport(step)];
      }
    }
    result := Completed(StepRecord(step, code, target, submissions, reached), reports);
  }

  /** The first attempt's `try`/`catch` (src/solve.ts:157-174): what it reports, and
      whether its catch block throws. */
  method FirstAttempt(step: nat, first: EvalResult) returns (reports: seq<Report>, crashed: bool)
    ensures crashed <==> first == Threw(None)
    ensures !crashed ==> reports == FirstReports(step, first)
  {
    reports := [];
    crashed := false;
    match first {
      case Returned(outcome) =>
        if outcome != Injection.Ok {
          reports := [OutcomeReport(step, outcome)];
        }
      case Threw(message) =>
        if message.None? {
          crashed := true;
          return;
        }
        if !IsNavigationRace(message.value) {
          reports := [ErrorReport(step, Excerpt(message.value))];
        }
    }
  }

  /** The retry's `try`/`catch` (src/solve.ts:184-198): what it reports. */
  method RetryAttempt(step: nat, script: StepScript) returns (reports: seq<Report>)
    ensures reports == if RetryError(script).Some? then RetryReports(step, RetryError(script).value) else []
  {
    reports := [];
    var retryError: Option<Option<string>> := None;
    match script.retry {
      case Threw(message) =>
        retryError := Some(message);
      case Returned(_) =>
        if script.retryWait.WaitThrew? {
          retryError := Some(script.retryWait.message);
        }
    }
    if retryError.Some? {
      var message := retryError.value;
      if !(message.Some? && IsNavigationRace(message.value)) {
        reports := [RetryReport(step, if message.Some? then Some(Excerpt(message.value)) else None)];
      }
    }
  }


  /** The loop of src/solve.ts:141-207: it never leaves early except when a step throws. */
  method SolveSteps(codes: seq<string>, oracle: nat -> StepScript) returns (run: Run)
    ensures run == RunUpTo(codes, oracle, StepCount)
  {
    var steps: seq<StepRecord> := [];
    var reports: seq<Report> := [];
    var step := 1;
    while step <= StepCount
      invariant 1 <= step <= StepCount + 1
      invariant Run(steps, reports, None) == RunUpTo(codes, oracle, step - 1)
    {
      var result := SolveStep(codes, step, oracle(step));
      assert RunUpTo(codes, oracle, step) == Extend(Run(steps, reports, None), step, result);
      if result.Crashed? {
        run := Run(steps, reports + result.reports, Some(step));
        CrashIsFinal(codes, oracle, step, StepCount);
        return;
      }
      steps := steps + [result.record];
      reports := reports + result.reports;
      step := step + 1;
    }
    run := Run(steps, reports, None);
  }
}
