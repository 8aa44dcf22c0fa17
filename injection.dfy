/**
 * `window.__dispatchAndSubmit(code)` of src/solve.ts:20-76, over an abstract page.
 * It finds the code input, walks the React fiber of the input and at most 29 of its
 * ancestors looking for the first hook whose state is a string and which has a
 * `dispatch`, calls that `dispatch` with the code, otherwise falls back to the native
 * value setter and synthetic `input`/`change` events, waits one animation frame and
 * fires `submit` on the form. Its side effects are recorded as a log of actions.
 */
module Injection {
  import opened Wrappers

  /** The loop bound `i < 30` on ancestor hops. */
  const MaxHops: nat := 30

  /** A hook's `memoizedState`: a string, or any other value. */
  datatype HookState = StringState(text: string) | OtherState

  /** One entry of a fiber's hook list; `hasDispatch` is `s.queue?.dispatch` being truthy. */
  datatype Hook = Hook(memoizedState: HookState, hasDispatch: bool)

  /** A fiber, by its hook list (the `next` chain from `memoizedState`; empty when falsy). */
  datatype Fiber = Fiber(hooks: seq<Hook>)

  /** The code input. `fiberPath` is None when the element has no `__reactFiber` key;
      otherwise the element's fiber followed by its `return` ancestors. */
  datatype Input = Input(fiberPath: Option<seq<Fiber>>, hasValueTracker: bool)

  /** What the procedure can observe of the page: the input found by the placeholder
      selector, whether the native `value` setter exists, whether a form exists once
      the animation frame has passed. */
  datatype Page = Page(input: Option<Input>, setterAvailable: bool, hasForm: bool)

  /** A hook's position: fiber index along the path, hook index within that fiber. */
  datatype Target = Target(fiber: nat, hook: nat)

  /** The side effects, in order. */
  datatype Action =
    | Dispatch(at: Target, code: string)  // s.queue.dispatch(code)
    | SetValue(code: string)              // the native setter
    | ResetTracker                        // _valueTracker.setValue("")
    | FireInput
    | FireChange
    | AwaitFrame                          // one requestAnimationFrame
    | Submit                              // a cancelable, bubbling "submit" on the form

  datatype Outcome = NoInput | NoForm | Ok

  datatype Response = Response(outcome: Outcome, log: seq<Action>)

  /** The hook test of src/solve.ts:35-38. */
  predicate Usable(h: Hook) {
    h.memoizedState.StringState? && h.hasDispatch
  }

  /** The number of fibers the walk can reach: the bound, or the end of the `return` chain. */
  function HopBound(path: seq<Fiber>): (n: nat)
    ensures n <= MaxHops && n <= |path|
    ensures n == MaxHops || n == |path|
  {
    if |path| < MaxHops then |path| else MaxHops
  }

  /** No usable hook in fibers lo .. hi-1. */
  predicate NoneUsableBetween(path: seq<Fiber>, lo: nat, hi: nat)
    requires hi <= |path|
  {
    forall f, k :: lo <= f < hi && 0 <= k < |path[f].hooks| ==> !Usable(path[f].hooks[k])
  }

  /** t is the first usable hook in walk order within the hop bound. */
  predicate IsFirstUsable(path: seq<Fiber>, t: Target) {
    t.fiber < HopBound(path) && t.hook < |path[t.fiber].hooks|
    && Usable(path[t.fiber].hooks[t.hook])
    && NoneUsableBetween(path, 0, t.fiber)
    && forall k :: 0 <= k < t.hook ==> !Usable(path[t.fiber].hooks[k])
  }

  /** The first usable hook of one fiber's list. */
  function FirstUsableHook(hooks: seq<Hook>): (r: Option<nat>)
    ensures r.Some? ==> r.value < |hooks| && Usable(hooks[r.value])
    ensures r.Some? ==> forall k :: 0 <= k < r.value ==> !Usable(hooks[k])
    ensures r.None? ==> forall k :: 0 <= k < |hooks| ==> !Usable(hooks[k])
    decreases |hooks|
  {
    if |hooks| == 0 then None
    else if Usable(hooks[0]) then Some(0)
    else match FirstUsableHook(hooks[1..])
      case None => None
      case Some(k) => Some(k + 1)
  }

  /** The walk from fiber i on. */
  function SearchFrom(path: seq<Fiber>, i: nat): (r: Option<Target>)
    requires i <= HopBound(path)
    ensures r.Some? ==> i <= r.value.fiber < HopBound(path) && r.value.hook < |path[r.value.fiber].hooks|
    ensures r.Some? ==> NoneUsableBetween(path, i, r.value.fiber)
    ensures r.Some? ==> Usable(path[r.value.fiber].hooks[r.value.hook])
    ensures r.Some? ==> forall k :: 0 <= k < r.value.hook ==> !Usable(path[r.value.fiber].hooks[k])
    ensures r.None? ==> NoneUsableBetween(path, i, HopBound(path))
    decreases HopBound(path) - i
  {
    if i == HopBound(path) then None
    else match FirstUsableHook(path[i].hooks)
      case Some(k) => Some(Target(i, k))
      case None => SearchFrom(path, i + 1)
  }

  /** The fiber search of src/solve.ts:27-48. */
  function FindDispatcher(path: seq<Fiber>): (r: Option<Target>)
    ensures r.Some? ==> IsFirstUsable(path, r.value)
    ensures r.None? ==> NoneUsableBetween(path, 0, HopBound(path))
  {
    SearchFrom(path, 0)
  }

  /** There is only one first usable hook. */
  lemma FirstUsableUnique(path: seq<Fiber>, s: Target, t: Target)
    requires IsFirstUsable(path, s) && IsFirstUsable(path, t)
    ensures s == t
  {
  }

  /** How many actions of the log satisfy `kind`. */
  function Count(log: seq<Action>, kind: Action -> bool): (n: nat)
    ensures n <= |log|
    decreases |log|
  {
    if |log| == 0 then 0 else (if kind(log[0]) then 1 else 0) + Count(log[1..], kind)
  }

  lemma {:induction false} CountAppend(a: seq<Action>, b: seq<Action>, kind: Action -> bool)
    ensures Count(a + b, kind) == Count(a, kind) + Count(b, kind)
    decreases |a|
  {
    if |a| > 0 {
      assert (a + b)[0] == a[0] && (a + b)[1..] == a[1..] + b;
      CountAppend(a[1..], b, kind);
    } else {
      assert a + b == b;
    }
  }

  predicate IsDispatch(a: Action) { a.Dispatch? }
  predicate IsSubmit(a: Action) { a.Submit? }
  predicate IsFallback(a: Action) { a.SetValue? || a.FireInput? || a.FireChange? }

  /** The value-setter fallback of src/solve.ts:52-63. */
  function Fallback(setterAvailable: bool, hasValueTracker: bool, code: string): (r: seq<Action>)
    ensures !setterAvailable ==> r == []
    ensures setterAvailable ==> |r| == (if hasValueTracker then 4 else 3)
    ensures setterAvailable ==> r[0] == SetValue(code) && r[|r| - 2..] == [FireInput, FireChange]
    ensures ResetTracker in r <==> setterAvailable && hasValueTracker
    ensures forall i :: 0 <= i < |r| ==> !r[i].Dispatch? && !r[i].Submit? && r[i] != AwaitFrame
  {
    if !setterAvailable then []
    else [SetValue(code)] + (if hasValueTracker then [ResetTracker] else []) + [FireInput, FireChange]
  }

  lemma CountFallback(setter: bool, tracker: bool, code: string)
    ensures Count(Fallback(setter, tracker, code), IsDispatch) == 0
    ensures Count(Fallback(setter, tracker, code), IsSubmit) == 0
    ensures Count(Fallback(setter, tracker, code), IsFallback) > 0 <==> setter
  {
    var t: seq<Action> := if tracker then [ResetTracker] else [];
    if setter {
      CountAppend([SetValue(code)], t, IsDispatch);
      CountAppend([SetValue(code)] + t, [FireInput, FireChange], IsDispatch);
      CountAppend([SetValue(code)], t, IsSubmit);
      CountAppend([SetValue(code)] + t, [FireInput, FireChange], IsSubmit);
      CountAppend([SetValue(code)], t, IsFallback);
      CountAppend([SetValue(code)] + t, [FireInput, FireChange], IsFallback);
    }
  }

  /** The hook the fiber walk dispatches to, if any. */
  function Found(inp: Input): Option<Target> {
    if inp.fiberPath.Some? then FindDispatcher(inp.fiberPath.value) else None
  }

  /** The state update of src/solve.ts:27-63: one dispatch on the hook found, or else
      the fallback; the fallback runs only when nothing was dispatched. */
  function Update(inp: Input, setterAvailable: bool, code: string): (r: seq<Action>)
    ensures Found(inp).Some? ==> r == [Dispatch(Found(inp).value, code)]
    ensures Found(inp).None? ==> r == Fallback(setterAvailable, inp.hasValueTracker, code)
    ensures Count(r, IsDispatch) == (if Found(inp).Some? then 1 else 0)
    ensures Count(r, IsFallback) > 0 <==> Found(inp).None? && setterAvailable
    ensures Count(r, IsSubmit) == 0
    ensures forall i :: 0 <= i < |r| ==> r[i] != AwaitFrame
  {
    CountFallback(setterAvailable, inp.hasValueTracker, code);
    if Found(inp).Some? then [Dispatch(Found(inp).value, code)]
    else Fallback(setterAvailable, inp.hasValueTracker, code)
  }

  /** The effects and outcome the procedure promises, in order. */
  function Expected(page: Page, code: string): (r: Response)
    ensures r.outcome == NoInput <==> page.input.None?
    ensures r.outcome == NoForm <==> page.input.Some? && !page.hasForm
    ensures page.input.None? ==> r.log == []
    ensures page.input.Some? ==> AwaitFrame in r.log
  {
    match page.input
    case None => Response(NoInput, [])
    case Some(inp) =>
      var update := Update(inp, page.setterAvailable, code);
      if page.hasForm then Response(Ok, update + [AwaitFrame, Submit])
      else Response(NoForm, update + [AwaitFrame])
  }

  /** `dispatch` is called at most once, exactly when the walk finds a usable hook,
      and then on the first one within 30 fibers; the fallback runs only without it. */
  lemma DispatchAtMostOnce(page: Page, code: string)
    requires page.input.Some?
    ensures var r := Expected(page, code); var found := Found(page.input.value);
      && Count(r.log, IsDispatch) == (if found.Some? then 1 else 0)
      && (found.Some? ==> found.value.fiber < MaxHops && r.log[0] == Dispatch(found.value, code))
      && (Count(r.log, IsFallback) > 0 <==> found.None? && page.setterAvailable)
  {
    var inp := page.input.value;
    var update := Update(inp, page.setterAvailable, code);
    var tail: seq<Action> := if page.hasForm then [AwaitFrame, Submit] else [AwaitFrame];
    assert Expected(page, code).log == update + tail;
    CountAppend(update, tail, IsDispatch);
    CountAppend(update, tail, IsFallback);
    assert Count(tail, IsDispatch) == 0 && Count(tail, IsFallback) == 0;
  }

  /** Without a usable hook but with the setter, the procedure sets the value first,
      resets the tracker when there is one, fires input then change, and only then
      waits for the animation frame. */
  lemma FallbackOrder(page: Page, code: string)
    requires page.input.Some? && Found(page.input.value).None? && page.setterAvailable
    ensures var r := Expected(page, code); var n := if page.input.value.hasValueTracker then 4 else 3;
      && |r.log| > n
      && r.log[0] == SetValue(code)
      && (r.log[1] == ResetTracker <==> page.input.value.hasValueTracker)
      && r.log[n - 2..n + 1] == [FireInput, FireChange, AwaitFrame]
  {
    var inp := page.input.value;
    var update := Fallback(true, inp.hasValueTracker, code);
    var tail: seq<Action> := if page.hasForm then [AwaitFrame, Submit] else [AwaitFrame];
    var log := Expected(page, code).log;
    assert log == update + tail;
    var n := |update|;
    assert log[n - 2..n] == update[n - 2..];
    assert log[n] == AwaitFrame;
  }

  /** Exactly one submit event when the outcome is "ok", none otherwise; the update
      comes before the animation frame and the submit after it. */
  lemma SubmitExactlyOnceWhenOk(page: Page, code: string)
    ensures var r := Expected(page, code);
      Count(r.log, IsSubmit) == (if r.outcome == Ok then 1 else 0)
    ensures var r := Expected(page, code);
      r.outcome == Ok ==> |r.log| >= 2 && r.log[|r.log| - 1] == Submit && r.log[|r.log| - 2] == AwaitFrame
    ensures var r := Expected(page, code);
      r.outcome == NoForm ==> |r.log| >= 1 && r.log[|r.log| - 1] == AwaitFrame
    ensures Expected(page, code).outcome == NoForm <==> page.input.Some? && !page.hasForm
  {
    if page.input.Some? {
      var update := Update(page.input.value, page.setterAvailable, code);
      var tail: seq<Action> := if page.hasForm then [AwaitFrame, Submit] else [AwaitFrame];
      assert Expected(page, code).log == update + tail;
      CountAppend(update, tail, IsSubmit);
      assert Count(tail, IsSubmit) == (if page.hasForm then 1 else 0);
    }
  }

  /** The fiber walk of src/solve.ts:27-48: nested loops with early exits. */
  method SearchFibers(path: seq<Fiber>) returns (found: Option<Target>)
    ensures found == FindDispatcher(path)
  {
    found := None;
    var i := 0;
    while i < MaxHops && i < |path|
      invariant 0 <= i <= HopBound(path)
      invariant found.None?
      invariant NoneUsableBetween(path, 0, i)
    {
      var hooks := path[i].hooks;
      if |hooks| > 0 {
        var j := 0;
        while j < |hooks|
          invariant 0 <= j <= |hooks|
          invariant found.None?
          invariant forall k :: 0 <= k < j ==> !Usable(hooks[k])
        {
          if Usable(hooks[j]) {
            found := Some(Target(i, j));
            break;
          }
          j := j + 1;
        }
        if found.Some? {
          break;
        }
      }
      i := i + 1;
    }
    if found.Some? {
      assert IsFirstUsable(path, found.value);
      FirstUsableUnique(path, found.value, FindDispatcher(path).value);
    }
  }

  /** The procedure as the page runs it. */
  method DispatchAndSubmit(page: Page, code: string) returns (r: Response)
    ensures r == Expected(page, code)
  {
    if page.input.None? {
      return Response(NoInput, []);
    }
    var inp := page.input.value;
    var log: seq<Action> := [];
    var dispatched := false;
    if inp.fiberPath.Some? {
      var found := SearchFibers(inp.fiberPath.value);
      if found.Some? {
        log := log + [Dispatch(found.value, code)];
        dispatched := true;
      }
    }
    if !dispatched {
      if page.setterAvailable {
        log := log + [SetValue(code)];
        if inp.hasValueTracker {
          log := log + [ResetTracker];
        }
        log := log + [FireInput, FireChange];
      }
    }
    assert log == Update(inp, page.setterAvailable, code);
    log := log + [AwaitFrame];
    if !page.hasForm {
      return Response(NoForm, log);
    }
    log := log + [Submit];
    r := Response(Ok, log);
  }
}
