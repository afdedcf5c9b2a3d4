/** Explicit resource disposal: `__using` and `__callDispose` of src/runtime.bun.js, against
    DisposeResources of the TC39 Explicit Resource Management proposal. */
module Dispose {
  import opened Wrappers

  /** A thrown value; SuppressedError(error, suppressed). */
  datatype Error = Thrown(id: int) | SuppressedError(error: Error, suppressed: Error)

  /** How the promise made from a dispose method's result will settle. */
  datatype Settlement = Fulfills | Rejects(reason: Error)

  datatype CallOutcome = Throws(exception: Error) | Returns(settlement: Settlement)

  /** How a resource is disposed of; AsyncBySync is an async declaration that fell back to the sync
      method. The code does not keep the last two apart, the proposal does. */
  datatype Hint = Sync | Async | AsyncBySync

  /** One element of the stack: `[async]` for an async declaration without a value, or
      `[async, dispose, value]`, where outcome is what calling the method does. */
  datatype Entry = Empty | Resource(hint: Hint, value: int, outcome: CallOutcome)

  datatype Completion = Normal | Throw(error: Error)

  // ---- Registration: __using ------------------------------------------------------------------

  datatype Property = Undefined | Null | NotCallable | Callable(outcome: CallOutcome)

  datatype Value = Nullish | Primitive | Object(id: int, asyncDispose: Property, dispose: Property)

  datatype TypeError = ObjectExpected | NotDisposable

  /** Whether the sync method of the value is used; the code falls back only if the async one is
      undefined. */
  predicate UsesSync(value: Value, isAsync: bool)
    requires value.Object?
  {
    !isAsync || value.asyncDispose == Undefined
  }

  /** What `__using` pushes, if anything. */
  function Registered(value: Value, isAsync: bool): Result<seq<Entry>, TypeError> {
    match value
    case Nullish => Success(if isAsync then [Empty] else [])
    case Primitive => Failure(ObjectExpected)
    case Object(id, asyncDispose, dispose) =>
      var chosen := if UsesSync(value, isAsync) then dispose else asyncDispose;
      if chosen.Callable? then Success([Resource(HintOf(UsesSync(value, isAsync), isAsync), id, chosen.outcome)])
      else Failure(NotDisposable)
  }

  function HintOf(usesSync: bool, isAsync: bool): Hint {
    if !isAsync then Sync else if usesSync then AsyncBySync else Async
  }

  class DisposeStack {
    var stack: seq<Entry>

    constructor ()
      ensures stack == []
    {
      stack := [];
    }

    method Using(value: Value, isAsync: bool) returns (r: Result<Value, TypeError>)
      modifies this
      ensures match Registered(value, isAsync)
              case Success(pushed) => r == Success(value) && stack == old(stack) + pushed
              case Failure(e) => r == Failure(e) && stack == old(stack)
    {
      if value != Nullish {
        if value.Primitive? { return Failure(ObjectExpected); }
        var dispose := Undefined;
        if isAsync { dispose := value.asyncDispose; }
        if dispose == Undefined { dispose := value.dispose; }
        if !dispose.Callable? { return Failure(NotDisposable); }
        var hint := if !isAsync then Sync else if value.asyncDispose == Undefined then AsyncBySync else Async;
        stack := stack + [Resource(hint, value.id, dispose.outcome)];
      } else if isAsync {
        stack := stack + [Empty];
      }
      r := Success(value);
    }
  }

  /** The proposal's GetMethod: null counts as undefined, anything else that is no function is a
      TypeError. */
  function GetMethod(property: Property): Result<Option<CallOutcome>, TypeError> {
    match property
    case Undefined => Success(None)
    case Null => Success(None)
    case NotCallable => Failure(NotDisposable)
    case Callable(outcome) => Success(Some(outcome))
  }

  /** What AddDisposableResource of the proposal appends, with its GetDisposeMethod. */
  function ProposedRegistered(value: Value, isAsync: bool): Result<seq<Entry>, TypeError> {
    match value
    case Nullish => Success(if isAsync then [Empty] else [])
    case Primitive => Failure(ObjectExpected)
    case Object(id, asyncDispose, dispose) =>
      var first := GetMethod(if isAsync then asyncDispose else dispose);
      match first
      case Failure(e) => Failure(e)
      case Success(Some(outcome)) => Success([Resource(if isAsync then Async else Sync, id, outcome)])
      case Success(None) =>
        if !isAsync then Failure(NotDisposable)
        else
          match GetMethod(dispose)
          case Success(Some(outcome)) => Success([Resource(AsyncBySync, id, outcome)])
          case _ => Failure(NotDisposable)
  }

  /** `__using` registers what the proposal does, and refuses what it refuses, exactly if no async
      declaration meets a null Symbol.asyncDispose beside a callable Symbol.dispose. */
  lemma UsingConformsExactly(value: Value, isAsync: bool)
    ensures Registered(value, isAsync) == ProposedRegistered(value, isAsync) <==>
            !(isAsync && value.Object? && value.asyncDispose.Null? && value.dispose.Callable?)
  {
    match value
    case Nullish =>
    case Primitive =>
    case Object(_, asyncDispose, dispose) =>
      assert GetMethod(dispose).Success? && GetMethod(dispose).value.Some? <==> dispose.Callable?;
  }

  lemma NullAsyncDispose()
    ensures var value := Object(1, Null, Callable(Returns(Fulfills)));
            && Registered(value, true) == Failure(NotDisposable)
            && ProposedRegistered(value, true) == Success([Resource(AsyncBySync, 1, Returns(Fulfills))])
  {
  }

  // ---- What comes of a stack ------------------------------------------------------------------

  /** What an entry contributes once it was called and, if async, awaited. */
  function OutcomeOf(entry: Entry): Completion {
    match entry
    case Empty => Normal
    case Resource(hint, _, outcome) =>
      match outcome
      case Throws(e) => Throw(e)
      case Returns(s) => if hint != Sync && s.Rejects? then Throw(s.reason) else Normal
  }

  /** Only an async entry whose method did not throw is awaited. */
  predicate Awaits(entry: Entry) {
    entry.Empty? || (entry.hint != Sync && entry.outcome.Returns?)
  }

  function SettlementOf(entry: Entry): Settlement {
    if entry.Resource? && entry.outcome.Returns? then entry.outcome.settlement else Fulfills
  }

  function Combine(completion: Completion, outcome: Completion): Completion {
    match outcome
    case Normal => completion
    case Throw(e) =>
      match completion
      case Normal => Throw(e)
      case Throw(previous) => Throw(SuppressedError(e, previous))
  }

  /** All outcomes, from the last entry to the first, over the completion. */
  function Folded(stack: seq<Entry>, completion: Completion): Completion {
    if stack == [] then completion
    else
      var n := |stack| - 1;
      Folded(stack[..n], Combine(completion, OutcomeOf(stack[n])))
  }

  datatype Event = Called(value: int) | Awaited(settlement: Settlement)

  function EventsOf(entry: Entry): seq<Event> {
    (if entry.Resource? then [Called(entry.value)] else [])
    + (if Awaits(entry) then [Awaited(SettlementOf(entry))] else [])
  }

  /** Last in, first out; an entry is awaited before the next one is called. */
  function InTurn(stack: seq<Entry>): seq<Event> {
    if stack == [] then []
    else
      var n := |stack| - 1;
      EventsOf(stack[n]) + InTurn(stack[..n])
  }

  // ---- The machine: __callDispose -------------------------------------------------------------

  datatype Status = Suspended(settlement: Settlement) | Done(completion: Completion)

  /** The captured variables, with what happened so far. */
  datatype State = State(stack: seq<Entry>, completion: Completion, events: seq<Event>, status: Status)

  /** One run of `next`: to the first entry that awaits, or to the end. */
  function Next(stack: seq<Entry>, completion: Completion, events: seq<Event>): (s: State)
    ensures |s.stack| <= |stack|
    ensures s.status.Suspended? ==> |s.stack| < |stack|
  {
    if stack == [] then State([], completion, events, Done(completion))
    else
      var n := |stack| - 1;
      var entry := stack[n];
      if Awaits(entry) then State(stack[..n], completion, events + EventsOf(entry), Suspended(SettlementOf(entry)))
      else Next(stack[..n], Combine(completion, OutcomeOf(entry)), events + EventsOf(entry))
  }

  /** What the awaited promise's callbacks do: `next`, or `fail(e)` and then `next`. */
  function Resume(s: State): (s': State)
    requires s.status.Suspended?
    ensures |s'.stack| <= |s.stack|
    ensures s'.status.Suspended? ==> |s'.stack| < |s.stack|
  {
    match s.status.settlement
    case Fulfills => Next(s.stack, s.completion, s.events)
    case Rejects(e) => Next(s.stack, Combine(s.completion, Throw(e)), s.events)
  }

  class Disposer {
    var stack: seq<Entry>
    var error: Error
    var hasError: bool
    var events: seq<Event>
    var status: Status

    ghost function Completion(): Completion
      reads this
    {
      if hasError then Throw(error) else Normal
    }

    ghost function View(): State
      reads this
    {
      State(stack, Completion(), events, status)
    }

    constructor (stack: seq<Entry>, error: Error, hasError: bool)
      ensures View() == Next(stack, if hasError then Throw(error) else Normal, [])
    {
      this.stack := stack;
      this.error := error;
      this.hasError := hasError;
      this.events := [];
      this.status := Done(Normal);
      new;
      RunNext();
    }

    method Fail(e: Error)
      modifies this
      ensures Completion() == Combine(old(Completion()), Throw(e))
      ensures stack == old(stack) && events == old(events) && status == old(status)
    {
      if hasError {
        error := SuppressedError(e, error);
      } else {
        hasError := true;
        error := e;
      }
    }

    method RunNext()
      modifies this
      ensures View() == Next(old(stack), old(Completion()), old(events))
    {
      while stack != []
        invariant Next(stack, Completion(), events) == Next(old(stack), old(Completion()), old(events))
        decreases |stack|
      {
        ghost var n := |stack| - 1;
        ghost var events0 := events;
        var it := stack[|stack| - 1];
        stack := stack[..|stack| - 1];
        var result := Returns(Fulfills);
        if it.Resource? {
          events := events + [Called(it.value)];
          result := it.outcome;
        }
        match result {
          case Returns(settlement) =>
            if it.Empty? || it.hint != Sync {
              events := events + [Awaited(settlement)];
              status := Suspended(settlement);
              assert events == events0 + EventsOf(it);
              return;
            }
          case Throws(e) =>
            Fail(e);
        }
        assert events == events0 + EventsOf(it);
      }
      status := Done(if hasError then Throw(error) else Normal);
    }

    /** The event loop settles the awaited promise. */
    method Settle()
      requires status.Suspended?
      modifies this
      ensures View() == Resume(old(View()))
    {
      match status.settlement
      case Fulfills => RunNext();
      case Rejects(e) =>
        Fail(e);
        RunNext();
    }
  }

  // ---- Every run -------------------------------------------------------------------------------

  function RunToEnd(s: State): State
    decreases |s.stack|, s.status.Suspended?
  {
    if s.status.Done? then s else
      var s' := Resume(s);
      if s'.status.Done? then s' else RunToEnd(s')
  }

  /** What is still to come, seen from any state: the settlement awaited, then the entries left. */
  function Outlook(s: State): Completion {
    match s.status
    case Done(completion) => completion
    case Suspended(Fulfills) => Folded(s.stack, s.completion)
    case Suspended(Rejects(e)) => Folded(s.stack, Combine(s.completion, Throw(e)))
  }

  lemma {:induction false} NextKeeps(stack: seq<Entry>, completion: Completion, events: seq<Event>)
    ensures var s := Next(stack, completion, events);
            && Outlook(s) == Folded(stack, completion)
            && s.events + InTurn(s.stack) == events + InTurn(stack)
            && (s.status.Done? ==> s.stack == [])
    decreases |stack|
  {
    if stack != [] {
      var n := |stack| - 1;
      var entry := stack[n];
      assert events + EventsOf(entry) + InTurn(stack[..n]) == events + InTurn(stack);
      if !Awaits(entry) {
        NextKeeps(stack[..n], Combine(completion, OutcomeOf(entry)), events + EventsOf(entry));
      }
    }
  }

  /** Every resumption keeps the final completion and the whole sequence of calls and awaits. */
  lemma ResumeKeeps(s: State)
    requires s.status.Suspended?
    ensures Outlook(Resume(s)) == Outlook(s)
    ensures Resume(s).events + InTurn(Resume(s).stack) == s.events + InTurn(s.stack)
    ensures Resume(s).status.Done? ==> Resume(s).stack == []
  {
    match s.status.settlement
    case Fulfills => NextKeeps(s.stack, s.completion, s.events);
    case Rejects(e) => NextKeeps(s.stack, Combine(s.completion, Throw(e)), s.events);
  }

  lemma {:induction false} RunKeeps(s: State)
    requires s.status.Done? ==> s.stack == []
    ensures var e := RunToEnd(s);
            && e.status == Done(Outlook(s))
            && e.events == s.events + InTurn(s.stack)
    decreases |s.stack|, s.status.Suspended?
  {
    if s.status.Suspended? {
      ResumeKeeps(s);
      if Resume(s).status.Suspended? { RunKeeps(Resume(s)); }
    }
  }

  /** Disposal of any stack, whatever its methods do, ends with the fold of all outcomes, having
      called every entry once from the last to the first and awaited each async one, if its method
      did not throw, before the next call. */
  lemma DisposalFolds(stack: seq<Entry>, completion: Completion)
    ensures var e := RunToEnd(Next(stack, completion, []));
            e.status == Done(Folded(stack, completion)) && e.events == InTurn(stack)
  {
    NextKeeps(stack, completion, []);
    RunKeeps(Next(stack, completion, []));
  }

  // ---- The error chain -------------------------------------------------------------------------

  /** The errors of the entries, in the order in which they come up. */
  function Errors(stack: seq<Entry>): seq<Error> {
    if stack == [] then []
    else
      var n := |stack| - 1;
      (match OutcomeOf(stack[n]) case Normal => [] case Throw(e) => [e]) + Errors(stack[..n])
  }

  /** Each later error suppresses all that came before it. */
  function Chain(errors: seq<Error>): Error
    requires errors != []
  {
    var n := |errors| - 1;
    if n == 0 then errors[0] else SuppressedError(errors[n], Chain(errors[..n]))
  }

  /** With the block's own error first, the result is the chain of all errors, or normal if there
      are none; an error is never lost. */
  lemma {:induction false} CompletionIsChain(stack: seq<Entry>, before: seq<Error>)
    ensures Folded(stack, if before == [] then Normal else Throw(Chain(before))) ==
            var all := before + Errors(stack);
            if all == [] then Normal else Throw(Chain(all))
    decreases |stack|
  {
    if stack == [] {
      assert before + [] == before;
    } else {
      hide Chain;
      var n := |stack| - 1;
      match OutcomeOf(stack[n])
      case Normal =>
        CompletionIsChain(stack[..n], before);
        assert Errors(stack) == Errors(stack[..n]);
      case Throw(e) =>
        assert (before + [e]) + Errors(stack[..n]) == before + Errors(stack);
        ChainMore(before, e);
        CompletionIsChain(stack[..n], before + [e]);
    }
  }

  lemma ChainMore(before: seq<Error>, e: Error)
    ensures Chain(before + [e]) == if before == [] then e else SuppressedError(e, Chain(before))
  {
    assert (before + [e])[..|before|] == before;
  }

  function Awaiting(stack: seq<Entry>): nat {
    if stack == [] then 0
    else Awaiting(stack[..|stack| - 1]) + if Awaits(stack[|stack| - 1]) then 1 else 0
  }

  function Suspensions(events: seq<Event>): nat {
    if events == [] then 0
    else Suspensions(events[1..]) + if events[0].Awaited? then 1 else 0
  }

  lemma {:induction false} SuspensionsAppend(a: seq<Event>, b: seq<Event>)
    ensures Suspensions(a + b) == Suspensions(a) + Suspensions(b)
  {
    if a == [] {
      assert a + b == b;
    } else {
      assert (a + b)[1..] == a[1..] + b;
      SuspensionsAppend(a[1..], b);
    }
  }

  /** It suspends once for each async entry whose dispose call does not throw. */
  lemma {:induction false} SuspendsOncePerAwait(stack: seq<Entry>)
    ensures Suspensions(InTurn(stack)) == Awaiting(stack)
    decreases |stack|
  {
    if stack != [] {
      var n := |stack| - 1;
      SuspendsOncePerAwait(stack[..n]);
      SuspensionsAppend(EventsOf(stack[n]), InTurn(stack[..n]));
      var events := EventsOf(stack[n]);
      assert events[..] == events;
      if |events| == 2 { assert events[1..] == [events[1]]; }
    }
  }

  // ---- The proposal's algorithm ---------------------------------------------------------------

  /** What calling the method that GetDisposeMethod gives does: for an async declaration a sync
      method is wrapped, so that its result is dropped and its exception becomes a rejection. */
  function ProposedCall(hint: Hint, outcome: CallOutcome): CallOutcome {
    if hint != AsyncBySync then outcome
    else
      match outcome
      case Throws(e) => Returns(Rejects(e))
      case Returns(_) => Returns(Fulfills)
  }

  datatype Run = Run(completion: Completion, events: seq<Event>)

  /** DisposeResources of the proposal, from the end of the list on. */
  function DisposeResources(stack: seq<Entry>, completion: Completion, needsAwait: bool, hasAwaited: bool): Run {
    if stack == [] then Run(completion, if needsAwait && !hasAwaited then [Awaited(Fulfills)] else [])
    else
      var n := |stack| - 1;
      match stack[n]
      case Empty => DisposeResources(stack[..n], completion, true, hasAwaited)
      case Resource(hint, value, outcome) =>
        var awaitsFirst := hint == Sync && needsAwait && !hasAwaited;
        var call := ProposedCall(hint, outcome);
        var awaits := hint != Sync && call.Returns?;
        var result := if call.Throws? then Throw(call.exception)
                      else if awaits && call.settlement.Rejects? then Throw(call.settlement.reason)
                      else Normal;
        var rest := DisposeResources(stack[..n], Combine(completion, result), needsAwait && !awaitsFirst, hasAwaited || awaits);
        rest.(events := (if awaitsFirst then [Awaited(Fulfills)] else []) + [Called(value)]
                        + (if awaits then [Awaited(call.settlement)] else []) + rest.events)
  }

  /** The code awaits the result of a sync method that an async declaration fell back to. */
  predicate RejectingFallback(entry: Entry) {
    entry.Resource? && entry.hint == AsyncBySync && entry.outcome.Returns? && entry.outcome.settlement.Rejects?
  }

  predicate ThrowingFallback(entry: Entry) {
    entry.Resource? && entry.hint == AsyncBySync && entry.outcome.Throws?
  }

  /** The proposal's outcome of an entry. */
  function Result(entry: Entry): Completion {
    if RejectingFallback(entry) then Normal else OutcomeOf(entry)
  }

  /** The proposal's flags behind a resource. */
  function Flags(entry: Entry, needsAwait: bool, hasAwaited: bool): (bool, bool) {
    (needsAwait && (hasAwaited || !IsSync(entry)), hasAwaited || ProposedAwait(entry) != [])
  }

  function ProposedAwait(entry: Entry): seq<Event> {
    if entry.Empty? || entry.hint == Sync then []
    else
      match ProposedCall(entry.hint, entry.outcome)
      case Throws(_) => []
      case Returns(settlement) => [Awaited(settlement)]
  }

  function ErrorSize(e: Error): (n: nat)
    ensures n > 0
  {
    match e
    case Thrown(_) => 1
    case SuppressedError(error, suppressed) => 1 + ErrorSize(error) + ErrorSize(suppressed)
  }

  function Size(completion: Completion): nat {
    match completion case Normal => 0 case Throw(e) => ErrorSize(e)
  }

  /** An error too many is never lost or made up for. */
  lemma {:induction false} StaysLarger(stack: seq<Entry>, c: Completion, d: Completion, needsAwait: bool, hasAwaited: bool)
    requires Size(c) > Size(d)
    ensures Size(Folded(stack, c)) > Size(DisposeResources(stack, d, needsAwait, hasAwaited).completion)
    decreases |stack|
  {
    if stack != [] {
      var n := |stack| - 1;
      match stack[n]
      case Empty =>
        StaysLarger(stack[..n], c, d, true, hasAwaited);
      case Resource(hint, value, outcome) =>
        var r := Flags(stack[n], needsAwait, hasAwaited);
        StaysLarger(stack[..n], Combine(c, OutcomeOf(stack[n])), Combine(d, Result(stack[n])), r.0, r.1);
    }
  }

  lemma {:induction false} CompletionsAgree(stack: seq<Entry>, c: Completion, needsAwait: bool, hasAwaited: bool)
    ensures Folded(stack, c) == DisposeResources(stack, c, needsAwait, hasAwaited).completion <==>
            forall entry | entry in stack :: !RejectingFallback(entry)
    decreases |stack|
  {
    if stack != [] {
      var n := |stack| - 1;
      assert stack == stack[..n] + [stack[n]];
      match stack[n]
      case Empty =>
        CompletionsAgree(stack[..n], c, true, hasAwaited);
      case Resource(hint, value, outcome) =>
        var r := Flags(stack[n], needsAwait, hasAwaited);
        if RejectingFallback(stack[n]) {
          StaysLarger(stack[..n], Combine(c, OutcomeOf(stack[n])), c, r.0, r.1);
        } else {
          CompletionsAgree(stack[..n], Combine(c, OutcomeOf(stack[n])), r.0, r.1);
        }
    }
  }

  /** Disposal completes as the proposal's does, from any completion on, exactly if no async
      declaration fell back to a sync method that returns a promise that rejects. */
  lemma CompletionConformsExactly(stack: seq<Entry>, completion: Completion)
    ensures RunToEnd(Next(stack, completion, [])).status ==
            Done(DisposeResources(stack, completion, false, false).completion) <==>
            forall entry | entry in stack :: !RejectingFallback(entry)
  {
    DisposalFolds(stack, completion);
    CompletionsAgree(stack, completion, false, false);
  }

  /** The conditions on the rest of a stack when an await is pending, or one has happened. */
  ghost predicate AwaitsConform(stack: seq<Entry>, pending: bool, hasAwaited: bool) {
    && (forall entry | entry in stack :: !RejectingFallback(entry) && !ThrowingFallback(entry))
    && (pending && stack != [] ==> IsSync(stack[|stack| - 1]))
    && (forall k | 0 <= k < |stack| && stack[k].Empty? ::
          && !hasAwaited && (k > 0 ==> IsSync(stack[k - 1]))
          && forall j | k < j < |stack| :: !(stack[j].Resource? && Awaits(stack[j])))
  }

  predicate IsSync(entry: Entry) { entry.Resource? && entry.hint == Sync }

  lemma AwaitsConformStep(stack: seq<Entry>, pending: bool, hasAwaited: bool)
    requires stack != [] && !(pending && hasAwaited)
    ensures var n := |stack| - 1;
            AwaitsConform(stack, pending, hasAwaited) <==>
            match stack[n]
            case Empty => !pending && !hasAwaited && AwaitsConform(stack[..n], true, false)
            case Resource(hint, _, _) =>
              && !RejectingFallback(stack[n]) && !ThrowingFallback(stack[n])
              && (pending ==> hint == Sync)
              && AwaitsConform(stack[..n], false, hasAwaited || Awaits(stack[n]))
  {
    var n := |stack| - 1;
    var front := stack[..n];
    assert stack == front + [stack[n]];
    assert forall k | 0 <= k < n :: front[k] == stack[k];
    assert forall entry :: entry in stack <==> entry in front || entry == stack[n];
    hide RejectingFallback, ThrowingFallback;
    if AwaitsConform(stack, pending, hasAwaited) {
      if stack[n].Empty? && n > 0 {
        assert IsSync(stack[n - 1]);
      }
      forall k | 0 <= k < n && front[k].Empty? ensures
        && !(hasAwaited || (stack[n].Resource? && Awaits(stack[n]))) && (k > 0 ==> IsSync(front[k - 1]))
        && forall j | k < j < n :: !(front[j].Resource? && Awaits(front[j]))
      {
        assert stack[k].Empty?;
      }
    }
  }

  /** The proposal never awaits twice without a call in between, and after awaiting a resource only
      right behind a call. */
  lemma {:induction false} CallsFirst(stack: seq<Entry>, c: Completion, needsAwait: bool, hasAwaited: bool)
    ensures var events := DisposeResources(stack, c, needsAwait, hasAwaited).events;
            && (needsAwait && !hasAwaited ==> |events| > 0)
            && (hasAwaited && |events| > 0 ==> events[0].Called?)
            && (|events| > 1 ==> events[0].Called? || events[1].Called?)
    decreases |stack|
  {
    if stack != [] && stack[|stack| - 1].Empty? {
      CallsFirst(stack[..|stack| - 1], c, true, hasAwaited);
    }
  }

  /** The same events in the same order, a pending await first. */
  ghost predicate SameEvents(stack: seq<Entry>, c: Completion, needsAwait: bool, hasAwaited: bool) {
    DisposeResources(stack, c, needsAwait, hasAwaited).events ==
    (if needsAwait && !hasAwaited then [Awaited(Fulfills)] else []) + InTurn(stack)
  }

  lemma {:induction false} EventsAgree(stack: seq<Entry>, c: Completion, needsAwait: bool, hasAwaited: bool)
    ensures SameEvents(stack, c, needsAwait, hasAwaited) <==> AwaitsConform(stack, needsAwait && !hasAwaited, hasAwaited)
    decreases |stack|
  {
    if stack != [] {
      hide AwaitsConform, SameEvents, InTurn, DisposeResources;
      var n := |stack| - 1;
      AwaitsConformStep(stack, needsAwait && !hasAwaited, hasAwaited);
      match stack[n]
      case Empty =>
        EventsAgree(stack[..n], c, true, hasAwaited);
        EmptyEvents(stack, c, needsAwait, hasAwaited);
      case Resource(hint, value, outcome) =>
        var r := Flags(stack[n], needsAwait, hasAwaited);
        EventsAgree(stack[..n], Combine(c, Result(stack[n])), r.0, r.1);
        ResourceEvents(stack, c, needsAwait, hasAwaited);
    }
  }

  lemma ResourceStep(stack: seq<Entry>, c: Completion, needsAwait: bool, hasAwaited: bool)
    requires stack != [] && stack[|stack| - 1].Resource?
    ensures var n := |stack| - 1;
            var r := Flags(stack[n], needsAwait, hasAwaited);
            var first := needsAwait && !hasAwaited && IsSync(stack[n]);
            DisposeResources(stack, c, needsAwait, hasAwaited).events ==
            (if first then [Awaited(Fulfills)] else []) + ([Called(stack[n].value)] + ProposedAwait(stack[n]))
            + DisposeResources(stack[..n], Combine(c, Result(stack[n])), r.0, r.1).events
  {
  }

  lemma EmptyEvents(stack: seq<Entry>, c: Completion, needsAwait: bool, hasAwaited: bool)
    requires stack != [] && stack[|stack| - 1].Empty?
    ensures SameEvents(stack, c, needsAwait, hasAwaited) <==>
            !needsAwait && !hasAwaited && SameEvents(stack[..|stack| - 1], c, true, false)
  {
    CallsFirst(stack[..|stack| - 1], c, true, hasAwaited);
    assert [Awaited(Fulfills)] + InTurn(stack[..|stack| - 1]) == InTurn(stack);
  }

  lemma ResourceEvents(stack: seq<Entry>, c: Completion, needsAwait: bool, hasAwaited: bool)
    requires stack != [] && stack[|stack| - 1].Resource?
    ensures var n := |stack| - 1;
            var r := Flags(stack[n], needsAwait, hasAwaited);
            SameEvents(stack, c, needsAwait, hasAwaited) <==>
            && !RejectingFallback(stack[n]) && !ThrowingFallback(stack[n])
            && (needsAwait && !hasAwaited ==> IsSync(stack[n]))
            && SameEvents(stack[..n], Combine(c, Result(stack[n])), r.0, r.1)
  {
    hide DisposeResources;
    var n := |stack| - 1;
    var r := Flags(stack[n], needsAwait, hasAwaited);
    ResourceStep(stack, c, needsAwait, hasAwaited);
    var events := DisposeResources(stack, c, needsAwait, hasAwaited).events;
    var rest := DisposeResources(stack[..n], Combine(c, Result(stack[n])), r.0, r.1).events;
    var pending := if needsAwait && !hasAwaited then [Awaited(Fulfills)] else [];
    var more := InTurn(stack[..n]);
    assert pending + InTurn(stack) == pending + EventsOf(stack[n]) + more;
    if pending != [] && !IsSync(stack[n]) {
      assert events[0] != (pending + InTurn(stack))[0];
    } else if RejectingFallback(stack[n]) {
      assert events[|pending| + 1] != (pending + InTurn(stack))[|pending| + 1];
    } else if ThrowingFallback(stack[n]) {
      FirstInTurn(stack[..n]);
      assert events[|pending| + 1] == Awaited(Rejects(stack[n].outcome.exception));
      assert |InTurn(stack)| > 1 ==> (pending + InTurn(stack))[|pending| + 1] == more[0];
    } else {
      assert EventsOf(stack[n]) == [Called(stack[n].value)] + ProposedAwait(stack[n]);
      SameBehind(pending + EventsOf(stack[n]), rest, more);
      assert [] + more == more;
    }
  }

  lemma FirstInTurn(stack: seq<Entry>)
    ensures InTurn(stack) == [] || InTurn(stack)[0].Called? || InTurn(stack)[0] == Awaited(Fulfills)
  {
  }

  lemma SameBehind(head: seq<Event>, a: seq<Event>, b: seq<Event>)
    ensures head + a == head + b <==> a == b
  {
    assert (head + a)[|head|..] == a && (head + b)[|head|..] == b;
  }

  /** It calls and awaits in the proposal's order exactly if no async declaration fell back to a sync
      method that throws or whose promise rejects, and every async declaration without a value is
      disposed of right before a sync resource, or last, and no resource was awaited before it. */
  lemma EventsConformExactly(stack: seq<Entry>, completion: Completion)
    ensures RunToEnd(Next(stack, completion, [])).events ==
            DisposeResources(stack, completion, false, false).events <==>
            AwaitsConform(stack, false, false)
  {
    DisposalFolds(stack, completion);
    EventsAgree(stack, completion, false, false);
    assert [] + InTurn(stack) == InTurn(stack);
  }

  /** `await using` of a value whose sync method returns a promise that rejects: the code throws the
      reason, the proposal drops it. Where the sync method throws, only the proposal awaits. */
  lemma FallbackDiffers(e: Error)
    ensures var stack := [Resource(AsyncBySync, 1, Returns(Rejects(e)))];
            && RunToEnd(Next(stack, Normal, [])).status == Done(Throw(e))
            && DisposeResources(stack, Normal, false, false).completion == Normal
    ensures var stack := [Resource(AsyncBySync, 1, Throws(e))];
            && RunToEnd(Next(stack, Normal, [])).events == [Called(1)]
            && DisposeResources(stack, Normal, false, false).events == [Called(1), Awaited(Rejects(e))]
  {
    assert InTurn([]) == [] && Folded([], Throw(e)) == Throw(e);
    forall entry: Entry ensures [entry][..0] == [] {
    }
    DisposalFolds([Resource(AsyncBySync, 1, Returns(Rejects(e)))], Normal);
    DisposalFolds([Resource(AsyncBySync, 1, Throws(e))], Normal);
  }

  /** `await using` without a value: the code awaits for each of them; the proposal awaits once for
      two in a row, and not at all if a resource is awaited anyway, whether after or before. */
  lemma EmptiesDiffer()
    ensures var stack := [Empty, Empty];
            && RunToEnd(Next(stack, Normal, [])).events == [Awaited(Fulfills), Awaited(Fulfills)]
            && DisposeResources(stack, Normal, false, false).events == [Awaited(Fulfills)]
    ensures var r := Resource(Async, 1, Returns(Fulfills));
            && RunToEnd(Next([Empty, r], Normal, [])).events == [Called(1), Awaited(Fulfills), Awaited(Fulfills)]
            && RunToEnd(Next([r, Empty], Normal, [])).events == [Awaited(Fulfills), Called(1), Awaited(Fulfills)]
            && DisposeResources([Empty, r], Normal, false, false).events == [Called(1), Awaited(Fulfills)]
            && DisposeResources([r, Empty], Normal, false, false).events == [Called(1), Awaited(Fulfills)]
  {
    var r := Resource(Async, 1, Returns(Fulfills));
    forall a: Entry, b: Entry ensures [a, b][..1] == [a] && [a][..0] == [] {
    }
    DisposalFolds([Empty, Empty], Normal);
    DisposalFolds([Empty, r], Normal);
    DisposalFolds([r, Empty], Normal);
    assert DisposeResources([Empty], Normal, false, true).events == [];
  }
}
