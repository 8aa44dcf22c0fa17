# Browser-challenge solver: a Dafny model of its core rules

The solver drives a browser through a 30-step web challenge. Around the browser
orchestration sit four small rules, and this project models and proves them:

- **Session codec** (`session_codec.dfy`, module `SessionCodec`). The page keeps its answer
  codes in `sessionStorage["wo_session"]`: base64 of a JSON text whose UTF-16 code units
  were XORed with the repeating key `"WO_2024_CHALLENGE"`. The solver reads the value,
  decrypts it, appends the sentinel `"FINISH"` to `codes`, re-encrypts it and writes it
  back. The XOR is a function on `seq<bv16>` (`Xor`). The two `+=` loops are methods
  (`Decrypt` and `Encrypt`) proved equal to it. The whole callback is `RewriteSession`,
  which is proved equal to the specification function `Rewrite`. Code units are `bv16`
  because JavaScript's `^` on two units below 2^16 stays below 2^16, so
  `String.fromCharCode` never truncates.
- **Map lookup shim** (`map_shim.dfy`, module `MapShim`). The replacement
  `Map.prototype.get` answers `"FINISH"` for key `31` on a map of exactly 30 entries.
  Every other lookup goes to the original `get`.
- **Dispatch and submit** (`injection.dfy`, module `Injection`). `__dispatchAndSubmit`
  works on an abstract page of fibers and hooks. The walk covers the input's fiber and its
  `return` ancestors, at most 30 of them. It looks for the first hook whose state is a
  string and which has a `dispatch`. If none is found, the native value setter and the
  `input`/`change` events are used instead. Then the procedure waits one animation frame
  and fires `submit` on the form. The side effects are a log of `Action`s. The
  nested-loop method `DispatchAndSubmit` is proved equal to the specification `Expected`.
- **Step loop** (`step_driver.dfy`, module `StepDriver`). Steps 1..30 run in order, and
  step `s` submits `codes[s]`. Each step waits for `step<s+1>`, or for `finish` after step
  30. If the address does not arrive, the step retries once. An oracle (`StepScript` per
  step) gives what the page does at each step. The loop method `SolveSteps` is proved
  equal to the specification `RunUpTo`.

`wrappers.dfy` holds `Option` and `Result`.

## Model

| member | source | states |
|---|---|---|
| `SessionCodec.XorKeySpellsKeyText` | src/solve.ts:99 | the key constant is the 17 ASCII code units of "WO_2024_CHALLENGE" |
| `SessionCodec.Xor` | src/solve.ts:104-109 | the XOR transform keeps the length of its input |
| `SessionCodec.XorAt` | src/solve.ts:105-108 | output unit i is input unit i XOR key unit i mod key length |
| `SessionCodec.XorInvolution` | src/solve.ts:104-122 | XORing twice with the same key gives back the input, so encrypting the decrypted text restores it |
| `SessionCodec.XorPrefix` | src/solve.ts:118-121 | the transform of a prefix is the prefix of the transform, so output i is fixed once units 0..i are known |
| `SessionCodec.XorKeepsLatin1` | src/solve.ts:117-123 | with the ASCII key, the encrypted text is Latin-1 exactly when the JSON text is |
| `SessionCodec.Decrypt` | src/solve.ts:104-109 | the decrypt loop builds exactly the XOR of the decoded text with the key |
| `SessionCodec.Encrypt` | src/solve.ts:117-122 | the encrypt loop builds exactly the XOR of the JSON text, and XORing its result again gives the JSON text back |
| `SessionCodec.Decode` | src/solve.ts:100-110 | reading fails with NoSessionData exactly when the value is null or empty, with InvalidBase64 exactly when atob then throws, with MalformedJson exactly when atob succeeds and JSON.parse of the XORed text throws, and succeeds exactly when both succeed, with the record JSON.parse gives |
| `SessionCodec.WithSentinel` | src/solve.ts:113 | the push grows codes by exactly one, keeps every earlier entry, puts "FINISH" last and leaves the record's other members alone |
| `SessionCodec.Encode` | src/solve.ts:116-123 | re-encoding fails, with NotLatin1 (btoa throws), exactly when the JSON text has a code unit above 0xFF; otherwise the blob is btoa of the XORed JSON text |
| `SessionCodec.Rewrite` | src/solve.ts:98-125 | a decode error is passed on unchanged; after a successful decode the rewrite succeeds exactly when the JSON of the record with the sentinel is Latin-1, and then returns that record's codes and stores btoa of its XORed JSON |
| `SessionCodec.RewriteAppendsSentinel` | src/solve.ts:110-124 | a successful rewrite returns the stored codes followed by "FINISH" and nothing else |
| `SessionCodec.EncodeThenDecode` | src/solve.ts:100-123 | if base64 and JSON round-trip on the values involved, decoding an encoded payload gives it back |
| `SessionCodec.RewriteIsReadable` | src/solve.ts:98-125 | under the same condition, reading the rewritten store yields a record whose codes are the returned codes and whose other members are those read |
| `SessionCodec.RewriteSession` | src/solve.ts:98-125 | the callback computes `Rewrite` on the store value, writes the new blob under "wo_session" on success and leaves the store untouched on every error |
| `MapShim.OriginalGet` | src/solve.ts:133 | the original get returns the stored value exactly for keys in the map, otherwise undefined |
| `MapShim.ShimmedGet` | src/solve.ts:134-137 | the patched get differs from the original only for key 31 on a 30-entry map, and there it answers "FINISH" |
| `MapShim.ShimSuppliesMissingCode` | src/solve.ts:129-135 | on a 30-entry map without key 31, the lookup of 31 turns from undefined into "FINISH" |
| `MapShim.ShimHidesStoredKey31` | src/solve.ts:135 | the guard tests only the size, so a stored value under 31 in a 30-entry map is hidden |
| `Injection.HopBound` | src/solve.ts:31 | the walk reaches at most 30 fibers, and fewer only when the return chain ends sooner |
| `Injection.FirstUsableHook` | src/solve.ts:34-44 | the hook scan returns the first hook with string state and a dispatch, and returns nothing only when no hook of the list qualifies |
| `Injection.SearchFrom` | src/solve.ts:31-48 | the walk from fiber i returns a qualifying hook within the hop bound with none before it, or nothing when none of fibers i to the bound has one |
| `Injection.FindDispatcher` | src/solve.ts:27-48 | the search returns the first qualifying hook in walk order within 30 fibers, or nothing when there is none |
| `Injection.FirstUsableUnique` | src/solve.ts:35-45 | at most one hook is the first qualifying one |
| `Injection.Fallback` | src/solve.ts:52-63 | without the setter the fallback does nothing; with it, it performs exactly three actions, or four with a value tracker: it sets the value first, resets the tracker exactly when there is one, then fires input and change; it never dispatches, waits or submits |
| `Injection.CountFallback` | src/solve.ts:52-63 | the fallback's log holds no dispatch and no submit, and holds a setter or event action exactly when the setter exists |
| `Injection.Update` | src/solve.ts:27-63 | the state update is the single dispatch on the hook found when the walk finds one, and exactly the fallback otherwise; it dispatches once or never, performs fallback actions exactly when nothing was found and the setter exists, and never waits or submits |
| `Injection.Expected` | src/solve.ts:20-76 | "no_input" exactly when there is no input, with nothing done; "no_form" exactly when there is an input but no form; the frame wait happens whenever there is an input |
| `Injection.FallbackOrder` | src/solve.ts:52-66 | without a usable hook but with the setter, the log starts with setting the value, has the tracker reset second exactly when there is a tracker, and continues with input, change and then the frame wait |
| `Injection.DispatchAtMostOnce` | src/solve.ts:27-63 | dispatch is called once when the search finds a hook, on that hook and within 30 fibers, otherwise never; the fallback runs exactly when nothing was dispatched and the setter exists |
| `Injection.SubmitExactlyOnceWhenOk` | src/solve.ts:65-75 | one submit event exactly when the outcome is "ok", none otherwise; the frame wait comes before it; "no_form" exactly when there is an input but no form |
| `Injection.SearchFibers` | src/solve.ts:27-48 | the nested loops over fibers and hooks, with their early exits, return exactly the hook `FindDispatcher` specifies |
| `Injection.DispatchAndSubmit` | src/solve.ts:20-76 | the procedure produces exactly the outcome and action log of `Expected` |
| `StepDriver.NextTarget` | src/solve.ts:177-178 | step s below 30 waits for step s+1, step 30 for finish |
| `StepDriver.CodeAt` | src/solve.ts:144 | the code of step s is codes[s], and undefined exactly when s is past the end |
| `StepDriver.ContainsAt` | src/solve.ts:167-171 | the includes test holds exactly when the fragment occurs at some position |
| `StepDriver.IsNavigationRace` | src/solve.ts:167-171 | a message counts as a navigation race exactly when "detached", "Execution context" or "navigation" occurs in it at some position |
| `StepDriver.Excerpt` | src/solve.ts:172 | a reported message is its prefix of length min(length, 80) |
| `StepDriver.RunStep` | src/solve.ts:144-203 | a step throws out of the loop exactly on a first-attempt error without a message; otherwise it records step s, codes[s] and the next address, submits twice exactly when it retries, reaches the address exactly when the first wait, the first URL test or the retry's URL test succeeds |
| `StepDriver.StepReports` | src/solve.ts:157-201 | every line a step writes names that step, and it writes FAILED exactly when it completed without reaching its address |
| `StepDriver.RunUpTo` | src/solve.ts:141-207 | the run has at most n records, all n unless it crashed, and a crash is at the step after the last record |
| `StepDriver.RunShape` | src/solve.ts:141-189 | records come in order 1, 2, ...; record s submitted codes[s], waited for the next address and submitted a second time exactly when the first wait failed and the address did not match, and reached its address exactly when the first wait, the first URL test or the retry's URL test succeeded; a run that did not crash ran every step |
| `StepDriver.RunCrashesOnlyOnMessagelessError` | src/solve.ts:165-174 | the loop ends early exactly when some first-attempt error has no message, and then at the first such step; failed steps and no_input/no_form outcomes never stop it |
| `StepDriver.FirstCrashStops` | src/solve.ts:141-174 | a run that did not stop met no message-less first-attempt error, and a run that stopped did so at the first one |
| `StepDriver.CrashAtStep` | src/solve.ts:165-174 | a run still going after step n-1 stops at step n exactly when that step's first attempt rejects without a message |
| `StepDriver.CrashIsFinal` | src/solve.ts:141-207 | after a step has thrown, no later step runs |
| `StepDriver.FailedStepsAreReported` | src/solve.ts:199-201 | the FAILED reports name exactly the steps whose address never matched |
| `StepDriver.NavigationRaceNotReported` | src/solve.ts:157-174 | a step that does not crash writes an error line exactly when its first attempt rejected with a message mentioning none of "detached", "Execution context", "navigation", and then with the message's excerpt; it writes an outcome line exactly when the first attempt returned something other than "ok", and then with that outcome |
| `StepDriver.FirstReportsContent` | src/solve.ts:162-173 | the first attempt's report, which `FirstAttempt` computes, is one outcome line exactly for a returned outcome other than "ok", one error line with the excerpt exactly for a rejection whose message is not a navigation race, and nothing otherwise |
| `StepDriver.RetryNavigationRaceNotReported` | src/solve.ts:184-198 | a retry warning is written exactly when the retry ran and its evaluate or wait rejected with a message that is missing (printed as undefined) or mentions none of the three fragments |
| `StepDriver.SentinelReachesLastStep` | src/solve.ts:141-144 | with 30 stored codes plus the sentinel, and no step rejecting its first attempt with a message-less error, all 30 steps run, step s submits codes[s], and step 30 submits "FINISH" while waiting for finish |
| `StepDriver.RewrittenCodesCoverAllSteps` | src/solve.ts:113-144 | the codes returned by the session rewrite of a 30-code payload drive every step when no step rejects its first attempt with a message-less error, and the last step submits the sentinel |
| `StepDriver.FirstAttempt` | src/solve.ts:157-174 | the first attempt's catch block throws exactly on an error without a message; otherwise the attempt reports exactly `FirstReports` |
| `StepDriver.RetryAttempt` | src/solve.ts:184-198 | the retry's catch block reports exactly `RetryReports` of the retry's error, and nothing when the retry did not reject |
| `StepDriver.SolveStep` | src/solve.ts:144-203 | one loop iteration computes exactly `RunStep`: the first attempt, the reports, the single retry and the failure report |
| `StepDriver.SolveSteps` | src/solve.ts:141-207 | the loop over steps 1..30 computes exactly `RunUpTo` for 30 steps |

## Where the code and its description differ

The model follows the code in each case:

- The shim's guard tests only the size. On a 30-entry map it replaces the result for key
  31 even when that key is present, not only when the result would be absent
  (`MapShim.ShimHidesStoredKey31`).
- The first `catch` reads `err.message.substring(...)` without optional chaining. An
  error with no `message` therefore makes the handler itself throw, and the loop ends.
  The model records this as `crashedAt`. Every other failure that the model represents,
  including a step that never reaches its address, lets the loop go on
  (`StepDriver.RunCrashesOnlyOnMessagelessError`). A rejecting 200 ms pause also ends the
  loop; see "## Left out".
- `!raw` rejects an empty string as well as `null`. Both are `NoSessionData`.
- On the retry, the returned outcome (`no_input`/`no_form`) is not reported. A
  `waitForURL` timeout on the retry goes to the same handler as an evaluate error. It is
  reported as a retry warning unless its message mentions "detached", "Execution context"
  or "navigation".

## Left out

- `StepDriver.Excerpt`: it counts 80 Unicode characters, because Dafny strings are
  sequences of Unicode scalar values. JavaScript's `substring(0, 80)` counts UTF-16 code
  units. For a message with characters outside the Basic Multilingual Plane, the source
  keeps fewer characters and can split a surrogate pair. Error messages are not carried
  as code units here.
- The parsed record's members other than `codes` are opaque name and JSON-text pairs
  (`Payload.otherFields`). The model says they are written back unchanged. It does not
  model their contents or how `JSON.stringify` formats them.

- The browser lifecycle, navigation and waiting (`chromium.launch`, `goto`, the start
  button, `waitForSelector` with its 200 ms pause, `waitForURL`, `waitForTimeout`,
  `browser.close`). These are I/O over Playwright. What a wait returns and whether the
  address matches come from the per-step `StepScript` oracle.
- The 200 ms `waitForTimeout` in the selector wait's `catch` (src/solve.ts:152-153) has no
  `try` around it. If it rejects, for example once the page or browser has closed, the
  exception leaves the loop just as a message-less first-attempt error does. `StepScript`
  has no such outcome, so the model never ends a run this way, and
  `StepDriver.RunCrashesOnlyOnMessagelessError` holds only for runs whose pauses settle.
- `performance.now` timing and the per-step and final timing lines. These are floats and
  logging only. The exit code and the `Fatal` line are also left out.
- `atob`, `btoa`, `JSON.parse` and `JSON.stringify` are not implemented. They are function
  fields of `SessionCodec.Builtins`. `atob` and `parse` return None where they throw; a
  payload without a `codes` array counts as a parse failure. `btoa`'s throw is modelled by
  the Latin-1 check before it is called. No JSON or base64 round trip is claimed.
  `EncodeThenDecode` and `RewriteIsReadable` take it as a hypothesis on the specific values
  involved.
- `sessionStorage` is a `map<string, string>` value that `RewriteSession` reads and returns
  updated.
- DOM and React internals are left out (`querySelector`, property descriptors,
  `_valueTracker`, event construction, `requestAnimationFrame`). A page is the input's hook
  lists along its fiber path, a flag for the value setter and a flag for the form. The form
  flag is the one seen after the animation frame. A `return` chain with a cycle cannot be
  written as a sequence, so such a chain is not modelled. A class component's state object
  counts as a one-hook list.
- Installing the shim by patching the prototype is left out; only its decision is modelled.
  Map keys are integers or "other values". A fractional number or the string "31" is
  never `=== 31`, so it belongs with the other values.
- In the step loop, the page runs `__dispatchAndSubmit`, so the loop does not call
  `Injection.DispatchAndSubmit`; the oracle gives its result. An undefined code (past the
  end of `codes`) is recorded as None. The `step<n>` pattern is a substring test, so
  `step3` also matches `step30`. The model takes each test's answer from the oracle.
