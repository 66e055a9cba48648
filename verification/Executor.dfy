/**
 * The request executor: retries with capped exponential backoff, a chain of fallback models, and a global cap.
 * Outcomes of requests come from an oracle, which may depend on the request's number and on the model asked.
 */
module Executor {
  import opened Prelude

  type Model = string

  // ----- Configuration -----

  datatype LlmError =
    | Api(transient: bool)   // transient: the message names a rate limit, 429, 502, 503, a timeout or an overload
    | Request
    | Config
    | Parse
    | RateLimit
    | Timeout
    | NoContent

  datatype FallbackBehavior = Retry | Fallback | RetryThenFallback | Fail

  datatype FallbackChain = FallbackChain(
    enabled: bool,
    models: seq<Model>,
    onRateLimit: FallbackBehavior,
    onTimeout: FallbackBehavior)

  datatype RetryConfig = RetryConfig(
    maxAttempts: nat,
    initialDelayMs: nat,
    maxDelayMs: nat,
    multiplier: real,
    retryOnRateLimit: bool)

  datatype Settings = Settings(model: Model, endpoint: string, retry: RetryConfig, fallback: Option<FallbackChain>)

  const MAX_TOTAL_ATTEMPTS: nat := 20

  function Pow(x: real, n: nat): real {
    if n == 0 then 1.0 else x * Pow(x, n - 1)
  }

  /** Float to unsigned conversion: truncate, and send negative values to 0. */
  function Truncate(x: real): nat {
    if x < 0.0 then 0 else x.Floor
  }

  function RawDelay(r: RetryConfig, attempt: nat): real {
    r.initialDelayMs as real * Pow(r.multiplier, attempt)
  }

  function DelayForAttempt(r: RetryConfig, attempt: nat): nat {
    var raw := RawDelay(r, attempt);
    var capped := if raw <= r.maxDelayMs as real then raw else r.maxDelayMs as real;
    Truncate(capped)
  }

  predicate IsRetryable(e: LlmError) {
    match e
    case Api(transient) => transient
    case Timeout => true
    case RateLimit => true
    case _ => false
  }

  predicate ShouldRetry(r: RetryConfig, e: LlmError, attempts: nat) {
    if attempts >= r.maxAttempts then false
    else if e.RateLimit? then r.retryOnRateLimit
    else IsRetryable(e)
  }

  function BehaviorForError(f: FallbackChain, e: LlmError): FallbackBehavior {
    match e
    case RateLimit => f.onRateLimit
    case Timeout => f.onTimeout
    case _ => Fail
  }

  predicate FallsBack(b: FallbackBehavior) {
    b.Fallback? || b.RetryThenFallback?
  }

  predicate ShouldFallback(f: FallbackChain, e: LlmError) {
    f.enabled && FallsBack(BehaviorForError(f, e))
  }

  /** Position of the first occurrence, or the length if there is none. */
  function FirstIndex(models: seq<Model>, m: Model): (i: nat)
    ensures i <= |models|
    ensures i < |models| ==> models[i] == m
    ensures i == |models| <==> m !in models
    ensures forall j :: 0 <= j < i ==> models[j] != m
  {
    if models == [] then 0 else if models[0] == m then 0 else 1 + FirstIndex(models[1..], m)
  }

  function NextModel(f: FallbackChain, current: Model): Option<Model> {
    var i := FirstIndex(f.models, current);
    if i < |f.models| then
      if i + 1 < |f.models| then Some(f.models[i + 1]) else None
    else if f.models != [] && f.models[0] != current then Some(f.models[0])
    else None
  }

  // ----- Runs -----

  datatype FallbackStep = FallbackStep(fromModel: Model, toModel: Option<Model>, fromEndpoint: string,
                                       toEndpoint: Option<string>, reason: LlmError)

  datatype RequestMade = RequestMade(model: Model, attempt: nat)

  /** A pause before a retry; `segment` counts the fallbacks before it. */
  datatype Sleep = Sleep(segment: nat, attempt: nat, ms: nat)

  datatype Outcome = Answer(text: string) | Error(error: LlmError)

  type Oracle = (nat, Model) -> Outcome

  datatype Result = Success(text: string) | Failure(error: LlmError) | RetryExhausted(attempts: nat)

  /** The loop's variables, and what the run has done so far. */
  datatype State = State(
    attempts: nat,
    model: Model,
    history: seq<FallbackStep>,
    total: nat,
    requests: seq<RequestMade>,
    sleeps: seq<Sleep>)

  datatype Final = Final(result: Result, state: State)

  datatype Decision = Stop(result: Result) | Again(ms: nat) | Switch(model: Model, reason: LlmError)

  function Initial(cfg: Settings): State {
    State(0, cfg.model, [], 0, [], [])
  }

  /** What follows the outcome of the `attempts`-th request to the current model. */
  function Decide(cfg: Settings, attempts: nat, model: Model, outcome: Outcome): Decision
    requires attempts >= 1
  {
    match outcome
    case Answer(text) => Stop(Success(text))
    case Error(e) =>
      if ShouldRetry(cfg.retry, e, attempts) then Again(DelayForAttempt(cfg.retry, attempts - 1))
      else if cfg.fallback.Some? && ShouldFallback(cfg.fallback.value, e) && NextModel(cfg.fallback.value, model).Some?
      then Switch(NextModel(cfg.fallback.value, model).value, e)
      else Stop(Failure(e))
  }

  /** The state once a request has been made and its decision taken. */
  function After(cfg: Settings, s: State, d: Decision): State {
    var made := s.(attempts := s.attempts + 1, total := s.total + 1,
                   requests := s.requests + [RequestMade(s.model, s.attempts + 1)]);
    match d
    case Stop(_) => made
    case Again(ms) => made.(sleeps := s.sleeps + [Sleep(|s.history|, s.attempts + 1, ms)])
    case Switch(next, e) =>
      made.(attempts := 0, model := next,
            history := s.history + [FallbackStep(s.model, Some(next), cfg.endpoint, None, e)])
  }

  /** The run from the head of the loop. */
  function Run(cfg: Settings, oracle: Oracle, s: State): Final
    requires s.total <= MAX_TOTAL_ATTEMPTS
    decreases MAX_TOTAL_ATTEMPTS - s.total
  {
    if s.total == MAX_TOTAL_ATTEMPTS then Final(RetryExhausted(s.total + 1), s)
    else
      var d := Decide(cfg, s.attempts + 1, s.model, oracle(|s.requests|, s.model));
      if d.Stop? then Final(d.result, After(cfg, s, d)) else Run(cfg, oracle, After(cfg, s, d))
  }

  class LlmExecutor {
    var config: Settings

    constructor (config: Settings)
      ensures this.config == config
    {
      this.config := config;
    }

    /** The loop computes the run. */
    method ExecuteWithContext(oracle: Oracle) returns (result: Result, ghost final: State)
      ensures result == Run(config, oracle, Initial(config)).result
      ensures final == Run(config, oracle, Initial(config)).state
      ensures Accounts(config, oracle, final.requests, result)
      ensures !result.RetryExhausted? ==> final.history == Switches(config, oracle, final.requests)
    {
      hide Decide, DelayForAttempt, ShouldRetry, ShouldFallback, NextModel, Accounts, Switches;
      RunAccounts(config, oracle);
      var attempts := 0;
      var currentModel := config.model;
      var history: seq<FallbackStep> := [];
      var total := 0;
      ghost var requests: seq<RequestMade> := [];
      ghost var sleeps: seq<Sleep> := [];
      var made := 0;
      while true
        invariant total <= MAX_TOTAL_ATTEMPTS && made == |requests|
        invariant Run(config, oracle, State(attempts, currentModel, history, total, requests, sleeps))
               == Run(config, oracle, Initial(config))
        decreases MAX_TOTAL_ATTEMPTS - total
      {
        ghost var before := State(attempts, currentModel, history, total, requests, sleeps);
        attempts := attempts + 1;
        total := total + 1;
        if total > MAX_TOTAL_ATTEMPTS {
          return RetryExhausted(total), before;
        }
        var outcome := oracle(made, currentModel);
        made := made + 1;
        requests := requests + [RequestMade(currentModel, attempts)];
        var d := Decide(config, attempts, currentModel, outcome);
        match d {
          case Stop(r) =>
            return r, State(attempts, currentModel, history, total, requests, sleeps);
          case Again(ms) =>
            sleeps := sleeps + [Sleep(|history|, attempts, ms)];
          case Switch(next, e) =>
            history := history + [FallbackStep(currentModel, Some(next), config.endpoint, None, e)];
            currentModel := next;
            attempts := 0;
        }
        assert State(attempts, currentModel, history, total, requests, sleeps) == After(config, before, d);
      }
    }
  }

  // ----- What a run does with the outcomes -----

  /** The error is tried again on the same model: attempts are left, and the error is of a kind to be retried. */
  predicate TriedAgain(r: RetryConfig, e: LlmError, attempt: nat) {
    && attempt < r.maxAttempts
    && (e.Timeout? || (e.RateLimit? && r.retryOnRateLimit) || (e.Api? && e.transient))
  }

  /** The error may be left to another model. */
  predicate LeftToOthers(cfg: Settings, e: LlmError) {
    && cfg.fallback.Some? && cfg.fallback.value.enabled
    && ((e.RateLimit? && cfg.fallback.value.onRateLimit in {Fallback, RetryThenFallback})
        || (e.Timeout? && cfg.fallback.value.onTimeout in {Fallback, RetryThenFallback}))
  }

  predicate FirstAt(models: seq<Model>, m: Model, i: nat) {
    i < |models| && models[i] == m && forall k :: 0 <= k < i ==> models[k] != m
  }

  /** `next` stands behind the first occurrence of `m`, or comes first if `m` is not in the list. */
  ghost predicate StandsNext(models: seq<Model>, m: Model, next: Model) {
    if m in models then exists i: nat :: FirstAt(models, m, i) && i + 1 < |models| && models[i + 1] == next
    else models != [] && models[0] == next
  }

  /** After `e` on request `a`, the next request is `b`. */
  ghost predicate GoesOn(cfg: Settings, a: RequestMade, e: LlmError, b: RequestMade) {
    if TriedAgain(cfg.retry, e, a.attempt) then b == RequestMade(a.model, a.attempt + 1)
    else LeftToOthers(cfg, e) && StandsNext(cfg.fallback.value.models, a.model, b.model) && b.attempt == 1
  }

  /** After `e` on request `a` there is nothing more to try. */
  ghost predicate GivesUp(cfg: Settings, a: RequestMade, e: LlmError) {
    forall b :: !GoesOn(cfg, a, e, b)
  }

  function OutcomeOf(oracle: Oracle, requests: seq<RequestMade>, i: nat): Outcome
    requires i < |requests|
  {
    oracle(i, requests[i].model)
  }

  /** The requests follow from the outcomes: each but the last met an error, and the next one goes on from it. */
  ghost predicate Follow(cfg: Settings, oracle: Oracle, requests: seq<RequestMade>) {
    && requests != [] && requests[0] == RequestMade(cfg.model, 1)
    && forall i :: 0 <= i < |requests| - 1 ==>
         && OutcomeOf(oracle, requests, i).Error?
         && GoesOn(cfg, requests[i], OutcomeOf(oracle, requests, i).error, requests[i + 1])
  }

  /** And the result follows from the last outcome. */
  ghost predicate Accounts(cfg: Settings, oracle: Oracle, requests: seq<RequestMade>, result: Result) {
    && Follow(cfg, oracle, requests)
    && var last := |requests| - 1;
       var outcome := OutcomeOf(oracle, requests, last);
       match result
       case Success(text) => outcome == Answer(text)
       case Failure(e) => outcome == Error(e) && GivesUp(cfg, requests[last], e)
       case RetryExhausted(n) =>
         outcome.Error? && !GivesUp(cfg, requests[last], outcome.error) && |requests| == 20 && n == 21
  }

  /** The switches among the requests, with the errors that caused them. */
  ghost function Switches(cfg: Settings, oracle: Oracle, requests: seq<RequestMade>): seq<FallbackStep> {
    if |requests| < 2 then []
    else
      var k := |requests| - 2;
      Switches(cfg, oracle, requests[..k + 1])
      + (if requests[k + 1].attempt == 1 && OutcomeOf(oracle, requests, k).Error?
         then [FallbackStep(requests[k].model, Some(requests[k + 1].model), cfg.endpoint, None,
                            OutcomeOf(oracle, requests, k).error)]
         else [])
  }

  /** The request the loop makes next. */
  function Upcoming(s: State): RequestMade {
    RequestMade(s.model, s.attempts + 1)
  }

  /** What the loop knows: with the upcoming request, the requests follow from the outcomes. */
  ghost predicate Told(cfg: Settings, oracle: Oracle, s: State) {
    && s.total == |s.requests| <= MAX_TOTAL_ATTEMPTS
    && Follow(cfg, oracle, s.requests + [Upcoming(s)])
    && s.history == Switches(cfg, oracle, s.requests + [Upcoming(s)])
  }

  /** Decisions in terms of what goes on. */
  lemma DecisionGoesOn(cfg: Settings, a: RequestMade, e: LlmError)
    requires a.attempt >= 1
    ensures var d := Decide(cfg, a.attempt, a.model, Error(e));
      match d
      case Again(_) => GoesOn(cfg, a, e, RequestMade(a.model, a.attempt + 1))
      case Switch(next, cause) => GoesOn(cfg, a, e, RequestMade(next, 1)) && cause == e
      case Stop(result) => result == Failure(e) && GivesUp(cfg, a, e)
  {
    hide DelayForAttempt;
    var d := Decide(cfg, a.attempt, a.model, Error(e));
    if cfg.fallback.Some? {
      NextStands(cfg.fallback.value, a.model);
    }
  }

  lemma NextStands(f: FallbackChain, m: Model)
    ensures NextModel(f, m).Some? ==> StandsNext(f.models, m, NextModel(f, m).value)
    ensures NextModel(f, m).None? ==> forall next :: !StandsNext(f.models, m, next)
  {
    var i := FirstIndex(f.models, m);
    assert i < |f.models| ==> FirstAt(f.models, m, i);
    assert forall j: nat :: FirstAt(f.models, m, j) ==> j == i;
  }

  lemma {:induction false} ToldRunAccounts(cfg: Settings, oracle: Oracle, s: State)
    requires Told(cfg, oracle, s)
    ensures var f := Run(cfg, oracle, s);
      && Accounts(cfg, oracle, f.state.requests, f.result)
      && (!f.result.RetryExhausted? ==> f.state.history == Switches(cfg, oracle, f.state.requests))
    decreases MAX_TOTAL_ATTEMPTS - s.total
  {
    hide Decide, GoesOn, Switches;
    var a := Upcoming(s);
    var outcome := oracle(|s.requests|, s.model);
    if s.total == MAX_TOTAL_ATTEMPTS {
      LastStanding(cfg, oracle, s);
    } else {
      var d := Decide(cfg, a.attempt, a.model, outcome);
      var made := s.requests + [a];
      assert OutcomeOf(oracle, made, |s.requests|) == outcome;
      AnswerStops(cfg, a, outcome);
      if outcome.Error? {
        DecisionGoesOn(cfg, a, outcome.error);
        if !d.Stop? {
          var t := After(cfg, s, d);
          AlsoTold(cfg, oracle, s, t, outcome.error);
          ToldRunAccounts(cfg, oracle, t);
        }
      }
    }
  }

  lemma AnswerStops(cfg: Settings, a: RequestMade, outcome: Outcome)
    requires a.attempt >= 1
    ensures outcome.Answer? ==> Decide(cfg, a.attempt, a.model, outcome) == Stop(Success(outcome.text))
  {
  }

  /** At the cap: without the upcoming request, the requests account for the cap error. */
  lemma LastStanding(cfg: Settings, oracle: Oracle, s: State)
    requires Told(cfg, oracle, s) && s.total == MAX_TOTAL_ATTEMPTS
    ensures Accounts(cfg, oracle, s.requests, RetryExhausted(s.total + 1))
  {
    hide GoesOn, Switches;
    var all := s.requests + [Upcoming(s)];
    var last := |s.requests| - 1;
    forall i | 0 <= i < |s.requests|
      ensures OutcomeOf(oracle, s.requests, i).Error?
      ensures GoesOn(cfg, s.requests[i], OutcomeOf(oracle, s.requests, i).error, all[i + 1])
    {
      assert OutcomeOf(oracle, all, i) == OutcomeOf(oracle, s.requests, i);
    }
    assert all[0] == s.requests[0];
    assert GoesOn(cfg, s.requests[last], OutcomeOf(oracle, s.requests, last).error, all[last + 1]);
  }

  lemma AlsoTold(cfg: Settings, oracle: Oracle, s: State, t: State, e: LlmError)
    requires Told(cfg, oracle, s) && s.total < MAX_TOTAL_ATTEMPTS
    requires t.requests == s.requests + [Upcoming(s)] && t.total == s.total + 1
    requires oracle(|s.requests|, s.model) == Error(e) && GoesOn(cfg, Upcoming(s), e, Upcoming(t))
    requires if t.attempts == 0
             then t.history == s.history + [FallbackStep(s.model, Some(t.model), cfg.endpoint, None, e)]
             else t.history == s.history
    ensures Told(cfg, oracle, t)
  {
    hide GoesOn;
    var (made, all) := (t.requests, t.requests + [Upcoming(t)]);
    var k := |made| - 1;
    forall i | 0 <= i < |made|
      ensures OutcomeOf(oracle, all, i).Error?
      ensures GoesOn(cfg, all[i], OutcomeOf(oracle, all, i).error, all[i + 1])
    {
      if i < k {
        assert OutcomeOf(oracle, all, i) == OutcomeOf(oracle, made, i);
        assert all[i] == made[i] && all[i + 1] == made[i + 1];
      }
    }
    assert all[0] == made[0];
    assert all[..k + 1] == made;
    assert OutcomeOf(oracle, all, k) == Error(e);
  }

  /**
   * Every run: the requests follow from the outcomes, and the result is the last outcome's: a success has the text of
   * the last answer, a failure the last error, when nothing was left to try.
   */
  lemma RunAccounts(cfg: Settings, oracle: Oracle)
    ensures var f := Run(cfg, oracle, Initial(cfg));
      && Accounts(cfg, oracle, f.state.requests, f.result)
      && (!f.result.RetryExhausted? ==> f.state.history == Switches(cfg, oracle, f.state.requests))
  {
    hide Run;
    assert Initial(cfg).requests + [Upcoming(Initial(cfg))] == [RequestMade(cfg.model, 1)];
    ToldRunAccounts(cfg, oracle, Initial(cfg));
  }

  /** Every request but the last of a run is followed by a pause or a switch; at the cap the last one is, too. */
  lemma {:induction false} PausesAndSwitches(cfg: Settings, oracle: Oracle, s: State)
    requires s.total <= MAX_TOTAL_ATTEMPTS && |s.sleeps| + |s.history| == |s.requests|
    ensures var f := Run(cfg, oracle, s);
      |f.state.sleeps| + |f.state.history| + (if f.result.RetryExhausted? then 0 else 1) == |f.state.requests|
    decreases MAX_TOTAL_ATTEMPTS - s.total
  {
    hide Decide;
    if s.total < MAX_TOTAL_ATTEMPTS {
      var outcome := oracle(|s.requests|, s.model);
      var d := Decide(cfg, s.attempts + 1, s.model, outcome);
      DecideNeverCaps(cfg, s.attempts + 1, s.model, outcome);
      if !d.Stop? {
        PausesAndSwitches(cfg, oracle, After(cfg, s, d));
      }
    }
  }

  // ----- The cap -----

  /** No run makes more than 20 requests; the cap error reports attempt 21 and comes only after 20 of them. */
  lemma {:induction false} AtMostTwentyRequests(cfg: Settings, oracle: Oracle, s: State)
    requires s.total == |s.requests| <= MAX_TOTAL_ATTEMPTS
    ensures var f := Run(cfg, oracle, s);
      && f.state.total == |f.state.requests| <= MAX_TOTAL_ATTEMPTS
      && (f.result.RetryExhausted? ==> f.result.attempts == 21 && |f.state.requests| == 20)
    decreases MAX_TOTAL_ATTEMPTS - s.total
  {
    hide Decide;
    if s.total < MAX_TOTAL_ATTEMPTS {
      var d := Decide(cfg, s.attempts + 1, s.model, oracle(|s.requests|, s.model));
      DecideNeverCaps(cfg, s.attempts + 1, s.model, oracle(|s.requests|, s.model));
      if !d.Stop? {
        AtMostTwentyRequests(cfg, oracle, After(cfg, s, d));
      }
    }
  }

  lemma DecideNeverCaps(cfg: Settings, attempts: nat, model: Model, outcome: Outcome)
    requires attempts >= 1
    ensures Decide(cfg, attempts, model, outcome).Stop? ==>
              !Decide(cfg, attempts, model, outcome).result.RetryExhausted?
  {
  }

  // ----- How long a run can be -----

  /** Attempts one model can get. */
  function PerModel(cfg: Settings): nat {
    Max(1, cfg.retry.maxAttempts)
  }

  /** Some error leads to a fallback, if there is a next model. */
  predicate CanFallBack(cfg: Settings) {
    cfg.fallback.Some? && (ShouldFallback(cfg.fallback.value, Timeout) || ShouldFallback(cfg.fallback.value, RateLimit))
  }

  lemma OnlyTwoFallBack(cfg: Settings, e: LlmError)
    ensures cfg.fallback.Some? && ShouldFallback(cfg.fallback.value, e) ==>
              CanFallBack(cfg) && (e.Timeout? || e.RateLimit?)
  {
  }

  /** Fallbacks left from `m` on, walking the list to its end; none if the chain is never used. */
  function Left(cfg: Settings, m: Model): nat {
    if !CanFallBack(cfg) then 0
    else
      var models := cfg.fallback.value.models;
      var i := FirstIndex(models, m);
      if i < |models| then |models| - 1 - i else |models|
  }

  /**
   * Past the position of `m`, no model of the list repeats an earlier one. A list without duplicates has this for
   * every `m`, and so has a chain that is never used.
   */
  ghost predicate NoRepeatAfter(cfg: Settings, m: Model) {
    CanFallBack(cfg) ==>
      var models := cfg.fallback.value.models;
      forall j :: 0 <= j < |models| && (m in models ==> j > FirstIndex(models, m)) ==> models[j] !in models[..j]
  }

  lemma DistinctNeverRepeats(cfg: Settings, m: Model)
    requires CanFallBack(cfg) ==> Distinct(cfg.fallback.value.models)
    ensures NoRepeatAfter(cfg, m)
  {
  }

  /** A switch uses up one fallback and keeps the rest of the list free of repetitions. */
  lemma SwitchUsesOne(cfg: Settings, m: Model)
    requires CanFallBack(cfg) && NoRepeatAfter(cfg, m) && NextModel(cfg.fallback.value, m).Some?
    ensures Left(cfg, NextModel(cfg.fallback.value, m).value) == Left(cfg, m) - 1
    ensures NoRepeatAfter(cfg, NextModel(cfg.fallback.value, m).value)
  {
    var models, next := cfg.fallback.value.models, NextModel(cfg.fallback.value, m).value;
    var i := FirstIndex(models, m);
    var k := if i < |models| then i + 1 else 0;
    assert models[k] == next && models[k] !in models[..k];
    assert FirstIndex(models, next) == k;
  }

  function Product(p: nat, l: nat): nat {
    p * l
  }

  lemma ProductStep(p: nat, l: nat)
    ensures Product(p, 0) == 0
    ensures Product(p, l + 1) == Product(p, l) + p
  {
  }

  /** Requests that can still be made from state `s`. */
  function Budget(cfg: Settings, s: State): int {
    PerModel(cfg) - s.attempts + Product(PerModel(cfg), Left(cfg, s.model))
  }

  lemma DecisionSpends(cfg: Settings, s: State, outcome: Outcome)
    requires s.attempts < PerModel(cfg) && NoRepeatAfter(cfg, s.model)
    ensures var d := Decide(cfg, s.attempts + 1, s.model, outcome);
      !d.Stop? ==>
        var t := After(cfg, s, d);
        t.attempts < PerModel(cfg) && NoRepeatAfter(cfg, t.model) && Budget(cfg, t) <= Budget(cfg, s) - 1
  {
    hide NoRepeatAfter, Left, NextModel, DelayForAttempt, Product, CanFallBack;
    var d := Decide(cfg, s.attempts + 1, s.model, outcome);
    if d.Switch? {
      OnlyTwoFallBack(cfg, outcome.error);
      SwitchUsesOne(cfg, s.model);
      ProductStep(PerModel(cfg), Left(cfg, s.model) - 1);
    }
  }

  /** The number of requests is at most attempts per model times models in reach. */
  lemma {:induction false} RunIsBounded(cfg: Settings, oracle: Oracle, s: State)
    requires s.total == |s.requests| <= MAX_TOTAL_ATTEMPTS
    requires s.attempts < PerModel(cfg) && NoRepeatAfter(cfg, s.model)
    ensures |Run(cfg, oracle, s).state.requests| <= |s.requests| + Budget(cfg, s)
    ensures |s.requests| + Budget(cfg, s) <= MAX_TOTAL_ATTEMPTS ==> !Run(cfg, oracle, s).result.RetryExhausted?
    decreases MAX_TOTAL_ATTEMPTS - s.total
  {
    hide Decide, NoRepeatAfter, Left, Product;
    if s.total < MAX_TOTAL_ATTEMPTS {
      var outcome := oracle(|s.requests|, s.model);
      var d := Decide(cfg, s.attempts + 1, s.model, outcome);
      DecideNeverCaps(cfg, s.attempts + 1, s.model, outcome);
      if !d.Stop? {
        DecisionSpends(cfg, s, outcome);
        RunIsBounded(cfg, oracle, After(cfg, s, d));
      }
    }
  }

  /**
   * With distinct fallback models a whole run makes at most max(1, max_attempts) * (|models| + 1) requests; without a
   * chain, or with one that no error leads to, at most max(1, max_attempts).
   */
  lemma WholeRunBounded(cfg: Settings, oracle: Oracle)
    requires CanFallBack(cfg) ==> Distinct(cfg.fallback.value.models)
    ensures var n := if CanFallBack(cfg) then |cfg.fallback.value.models| else 0;
      && |Run(cfg, oracle, Initial(cfg)).state.requests| <= PerModel(cfg) * (n + 1)
      && (PerModel(cfg) * (n + 1) <= MAX_TOTAL_ATTEMPTS ==> !Run(cfg, oracle, Initial(cfg)).result.RetryExhausted?)
  {
    hide Run, NoRepeatAfter;
    DistinctNeverRepeats(cfg, cfg.model);
    RunIsBounded(cfg, oracle, Initial(cfg));
    var n := if CanFallBack(cfg) then |cfg.fallback.value.models| else 0;
    var p, l := PerModel(cfg), Left(cfg, cfg.model);
    assert l <= n;
    Monotone(p, l, n);
    assert p * (n + 1) == p * n + p;
  }

  lemma Monotone(p: nat, l: nat, n: nat)
    requires l <= n
    ensures p * l <= p * n
  {
  }

  // ----- When the cap can be hit -----

  /** An error that leads to a fallback, if any does. */
  function Trigger(cfg: Settings): LlmError {
    if cfg.fallback.Some? && ShouldFallback(cfg.fallback.value, Timeout) then Timeout else RateLimit
  }

  /** Time out on every attempt of a model, except that the last one calls for a fallback. */
  function Adversary(cfg: Settings): Oracle {
    (n, m) => Error(if n % PerModel(cfg) == PerModel(cfg) - 1 then Trigger(cfg) else Timeout)
  }

  /** Under the adversary, the attempts at the current model follow from the number of requests. */
  predicate InStep(cfg: Settings, s: State) {
    s.total == |s.requests| <= MAX_TOTAL_ATTEMPTS && s.attempts == |s.requests| % PerModel(cfg)
  }

  lemma NextRemainder(n: nat, p: nat)
    requires p >= 1
    ensures (n + 1) % p == if n % p == p - 1 then 0 else n % p + 1
  {
    var q, r := n / p, n % p;
    assert n == q * p + r;
    if r == p - 1 {
      assert n + 1 == (q + 1) * p;
      Remainder(q + 1, 0, p);
    } else {
      Remainder(q, r + 1, p);
    }
  }

  lemma Remainder(q: nat, r: nat, p: nat)
    requires r < p
    ensures (q * p + r) % p == r
  {
    var n := q * p + r;
    var d := n / p - q;
    assert (n / p) * p + n % p == n;
    assert (n / p) * p == q * p + d * p;
    assert n % p - r == -(d * p);
    Multiples(d, p);
  }

  lemma Multiples(d: int, p: nat)
    ensures d >= 1 ==> d * p >= p
    ensures d <= -1 ==> d * p + p <= 0
  {
  }

  /** The adversary's answer: a retry before the last attempt; on the last one a switch, if the chain has more. */
  lemma AdversaryDecides(cfg: Settings, s: State)
    requires InStep(cfg, s)
    ensures var d := Decide(cfg, s.attempts + 1, s.model, Adversary(cfg)(|s.requests|, s.model));
      && (s.attempts + 1 < PerModel(cfg) ==> d.Again?)
      && (s.attempts + 1 == PerModel(cfg) && CanFallBack(cfg) && NextModel(cfg.fallback.value, s.model).Some? ==>
            d.Switch? && d.model == NextModel(cfg.fallback.value, s.model).value)
      && (!d.Stop? && s.total < MAX_TOTAL_ATTEMPTS ==> InStep(cfg, After(cfg, s, d)))
    ensures s.attempts < PerModel(cfg)
  {
    hide NextModel, DelayForAttempt;
    NextRemainder(|s.requests|, PerModel(cfg));
  }

  /** Against the adversary nothing of the budget is saved. */
  lemma {:induction false} AdversarySpendsAll(cfg: Settings, s: State)
    requires InStep(cfg, s) && NoRepeatAfter(cfg, s.model)
    requires |s.requests| + Budget(cfg, s) > MAX_TOTAL_ATTEMPTS
    ensures Run(cfg, Adversary(cfg), s).result.RetryExhausted?
    decreases MAX_TOTAL_ATTEMPTS - s.total
  {
    hide NoRepeatAfter, DelayForAttempt, Decide, Left, Product, Adversary, InStep, Budget;
    TotalInStep(cfg, s);
    if s.total < MAX_TOTAL_ATTEMPTS {
      var d := Decide(cfg, s.attempts + 1, s.model, Adversary(cfg)(|s.requests|, s.model));
      AdversaryGoesOn(cfg, s);
      AdversarySpendsAll(cfg, After(cfg, s, d));
    }
  }

  lemma TotalInStep(cfg: Settings, s: State)
    requires InStep(cfg, s)
    ensures s.total == |s.requests| <= MAX_TOTAL_ATTEMPTS && s.attempts < PerModel(cfg)
  {
  }

  lemma AdversaryGoesOn(cfg: Settings, s: State)
    requires InStep(cfg, s) && NoRepeatAfter(cfg, s.model) && s.total < MAX_TOTAL_ATTEMPTS
    requires Budget(cfg, s) > 1
    ensures var d := Decide(cfg, s.attempts + 1, s.model, Adversary(cfg)(|s.requests|, s.model));
      !d.Stop? &&
        var t := After(cfg, s, d);
        InStep(cfg, t) && NoRepeatAfter(cfg, t.model) && Budget(cfg, t) == Budget(cfg, s) - 1
        && |t.requests| == |s.requests| + 1 && t.total == s.total + 1
  {
    hide NoRepeatAfter, DelayForAttempt, Product, Adversary, InStep, NextModel, Left, Decide, CanFallBack;
    TotalInStep(cfg, s);
    AdversaryDecides(cfg, s);
    ProductStep(PerModel(cfg), 0);
    if s.attempts + 1 == PerModel(cfg) {
      MoreLeft(cfg, s.model);
      SwitchUsesOne(cfg, s.model);
      ProductStep(PerModel(cfg), Left(cfg, s.model) - 1);
    }
  }

  lemma MoreLeft(cfg: Settings, m: Model)
    requires Left(cfg, m) > 0
    ensures CanFallBack(cfg) && NextModel(cfg.fallback.value, m).Some?
  {
  }

  /** If a model repeats past the start, the walk along the list never ends. */
  lemma RepeatGoesOn(cfg: Settings, m: Model, j: nat)
    requires cfg.fallback.Some?
    requires 0 < j < |cfg.fallback.value.models| && cfg.fallback.value.models[j] in cfg.fallback.value.models[..j]
    requires m in cfg.fallback.value.models ==> FirstIndex(cfg.fallback.value.models, m) < j
    ensures NextModel(cfg.fallback.value, m).Some?
    ensures FirstIndex(cfg.fallback.value.models, NextModel(cfg.fallback.value, m).value) < j
  {
    var models := cfg.fallback.value.models;
    var i := FirstIndex(models, m);
    var k := if i < |models| then i + 1 else 0;
    if i == |models| {
      assert models[0] in models;
    }
    var q := FirstIndex(models, models[k]);
    if k == j {
      var x :| 0 <= x < j && models[..j][x] == models[j];
      assert models[x] == models[j];
    }
  }

  lemma {:induction false} RepeatsHitTheCap(cfg: Settings, s: State, j: nat)
    requires InStep(cfg, s) && CanFallBack(cfg)
    requires 0 < j < |cfg.fallback.value.models| && cfg.fallback.value.models[j] in cfg.fallback.value.models[..j]
    requires s.model in cfg.fallback.value.models ==> FirstIndex(cfg.fallback.value.models, s.model) < j
    ensures Run(cfg, Adversary(cfg), s).result.RetryExhausted?
    decreases MAX_TOTAL_ATTEMPTS - s.total
  {
    hide DelayForAttempt, NextModel, FirstIndex, Decide, Adversary, InStep;
    TotalInStep(cfg, s);
    if s.total < MAX_TOTAL_ATTEMPTS {
      var d := Decide(cfg, s.attempts + 1, s.model, Adversary(cfg)(|s.requests|, s.model));
      AdversaryDecides(cfg, s);
      RepeatGoesOn(cfg, s.model, j);
      RepeatsHitTheCap(cfg, After(cfg, s, d), j);
    }
  }

  /**
   * The cap error is out of reach exactly when a model's attempts are at most 20 and, if some error leads to a
   * fallback, the list has no repetition past the start and attempts times models in reach is at most 20.
   */
  lemma CapUnreachable(cfg: Settings)
    ensures (forall oracle :: !Run(cfg, oracle, Initial(cfg)).result.RetryExhausted?)
            <==> if CanFallBack(cfg)
                 then NoRepeatAfter(cfg, cfg.model) && PerModel(cfg) * (Left(cfg, cfg.model) + 1) <= MAX_TOTAL_ATTEMPTS
                 else PerModel(cfg) <= MAX_TOTAL_ATTEMPTS
  {
    hide Run, FirstIndex, Left;
    var s, p, l := Initial(cfg), PerModel(cfg), Left(cfg, cfg.model);
    NothingLeft(cfg);
    assert p * (l + 1) == p * l + p;
    if !NoRepeatAfter(cfg, cfg.model) {
      var models := cfg.fallback.value.models;
      var j :| 0 <= j < |models| && (cfg.model in models ==> j > FirstIndex(models, cfg.model))
               && models[j] in models[..j];
      RepeatsHitTheCap(cfg, s, j);
    } else if p * (l + 1) > MAX_TOTAL_ATTEMPTS {
      AdversarySpendsAll(cfg, s);
    } else {
      forall oracle ensures !Run(cfg, oracle, s).result.RetryExhausted? {
        RunIsBounded(cfg, oracle, s);
      }
    }
  }

  lemma NothingLeft(cfg: Settings)
    ensures !CanFallBack(cfg) ==> Left(cfg, cfg.model) == 0 && NoRepeatAfter(cfg, cfg.model)
  {
  }

  /** Listing one model twice is enough to spend all 20 requests, although 1 * (2 + 1) = 3. */
  lemma DuplicateModelsHitTheCap()
    ensures var cfg := Settings("x", "", RetryConfig(1, 500, 30000, 2.0, true),
                                Some(FallbackChain(true, ["a", "a"], RetryThenFallback, RetryThenFallback)));
      Run(cfg, Adversary(cfg), Initial(cfg)).result.RetryExhausted?
  {
    var cfg := Settings("x", "", RetryConfig(1, 500, 30000, 2.0, true),
                        Some(FallbackChain(true, ["a", "a"], RetryThenFallback, RetryThenFallback)));
    assert cfg.fallback.value.models[..1] == ["a"];
    RepeatsHitTheCap(cfg, Initial(cfg), 1);
  }

  // ----- The fallback history -----

  /** The steps lead, one after the other, from `first` to `last`. */
  ghost predicate IsChain(history: seq<FallbackStep>, first: Model, last: Model) {
    if history == [] then first == last
    else
      && history[|history| - 1].toModel == Some(last)
      && IsChain(history[..|history| - 1], first, history[|history| - 1].fromModel)
  }

  /** Each step is one the chain's `next_model` prescribes, caused by an error that calls for a fallback. */
  ghost predicate StepsFollow(cfg: Settings, history: seq<FallbackStep>) {
    forall i :: 0 <= i < |history| ==>
      && cfg.fallback.Some? && history[i].toModel == NextModel(cfg.fallback.value, history[i].fromModel)
      && ShouldFallback(cfg.fallback.value, history[i].reason)
  }

  lemma {:induction false} HistoryIsChain(cfg: Settings, oracle: Oracle, s: State)
    requires s.total <= MAX_TOTAL_ATTEMPTS && IsChain(s.history, cfg.model, s.model) && StepsFollow(cfg, s.history)
    ensures var f := Run(cfg, oracle, s).state; IsChain(f.history, cfg.model, f.model) && StepsFollow(cfg, f.history)
    decreases MAX_TOTAL_ATTEMPTS - s.total
  {
    hide DelayForAttempt, NextModel, ShouldFallback;
    if s.total < MAX_TOTAL_ATTEMPTS {
      var d := Decide(cfg, s.attempts + 1, s.model, oracle(|s.requests|, s.model));
      var t := After(cfg, s, d);
      if d.Switch? {
        assert t.history[..|t.history| - 1] == s.history;
      }
      if !d.Stop? {
        HistoryIsChain(cfg, oracle, t);
      }
    }
  }

  // ----- Delays -----

  lemma {:induction false} PowAtLeastOne(x: real, n: nat)
    requires x >= 1.0
    ensures Pow(x, n) >= 1.0
  {
    if n > 0 {
      PowAtLeastOne(x, n - 1);
      assert x * Pow(x, n - 1) >= 1.0 * Pow(x, n - 1);
    }
  }

  lemma {:induction false} PowMonotone(x: real, m: nat, n: nat)
    requires x >= 1.0 && m <= n
    ensures Pow(x, m) <= Pow(x, n)
    decreases n
  {
    if m < n {
      PowMonotone(x, m, n - 1);
      PowAtLeastOne(x, n - 1);
      assert x * Pow(x, n - 1) >= 1.0 * Pow(x, n - 1);
    }
  }

  lemma Scale(c: real, x: real, y: real)
    requires c >= 0.0 && x <= y
    ensures c * x <= c * y
  {
  }

  lemma RawDelayMonotone(r: RetryConfig, m: nat, n: nat)
    requires r.multiplier >= 1.0 && m <= n
    ensures RawDelay(r, m) <= RawDelay(r, n)
  {
    hide Pow;
    PowMonotone(r.multiplier, m, n);
    Scale(r.initialDelayMs as real, Pow(r.multiplier, m), Pow(r.multiplier, n));
  }

  lemma TruncateMonotone(x: real, y: real)
    requires x <= y
    ensures Truncate(x) <= Truncate(y)
  {
    assert x.Floor as real <= x && y < y.Floor as real + 1.0;
  }

  /** Delays never exceed the cap, and do not shrink from one attempt to the next. */
  lemma DelaysGrowToCap(r: RetryConfig, m: nat, n: nat)
    ensures DelayForAttempt(r, n) <= r.maxDelayMs
    ensures r.multiplier >= 1.0 && m <= n ==> DelayForAttempt(r, m) <= DelayForAttempt(r, n)
  {
    hide RawDelay, Truncate;
    var x, y, cap := RawDelay(r, m), RawDelay(r, n), r.maxDelayMs as real;
    TruncateMonotone(if y <= cap then y else cap, cap);
    TruncateWhole(r.maxDelayMs);
    if r.multiplier >= 1.0 && m <= n {
      RawDelayMonotone(r, m, n);
      TruncateMonotone(if x <= cap then x else cap, if y <= cap then y else cap);
    }
  }

  /**
   * The delays: each is the nominal delay, cut off at the maximum and to whole milliseconds; the nominal delay starts
   * at the initial one and is multiplied from one attempt to the next.
   */
  lemma {:induction false} BackoffIs(r: RetryConfig, n: nat) returns (nominal: seq<real>)
    ensures |nominal| == n + 1 && nominal[0] == r.initialDelayMs as real
    ensures forall i :: 0 <= i < n ==> nominal[i + 1] == r.multiplier * nominal[i]
    ensures r.multiplier >= 0.0 ==> CutOff(nominal[n], r.maxDelayMs, DelayForAttempt(r, n))
    ensures nominal[n] == RawDelay(r, n)
  {
    hide RawDelay, DelayForAttempt, CutOff;
    RawDelayStart(r);
    if n == 0 {
      nominal := [r.initialDelayMs as real];
    } else {
      nominal := BackoffIs(r, n - 1);
      RawDelayStep(r, n - 1);
      nominal := nominal + [r.multiplier * nominal[n - 1]];
    }
    if r.multiplier >= 0.0 {
      CutOffDelay(r, n);
    }
  }

  /** `ms` is `x`, cut off at the maximum and to a whole number. */
  predicate CutOff(x: real, max: nat, ms: nat) {
    var capped := if x <= max as real then x else max as real;
    ms as real <= capped < ms as real + 1.0
  }

  lemma CutOffDelay(r: RetryConfig, n: nat)
    requires r.multiplier >= 0.0
    ensures CutOff(RawDelay(r, n), r.maxDelayMs, DelayForAttempt(r, n))
  {
    hide RawDelay;
    RawDelayNonnegative(r, n);
  }

  lemma RawDelayStart(r: RetryConfig)
    ensures RawDelay(r, 0) == r.initialDelayMs as real
  {
  }

  lemma RawDelayStep(r: RetryConfig, n: nat)
    ensures RawDelay(r, n + 1) == r.multiplier * RawDelay(r, n)
  {
    var (x, m, p) := (r.initialDelayMs as real, r.multiplier, Pow(r.multiplier, n));
    assert x * (m * p) == m * (x * p);
  }

  lemma {:induction false} RawDelayNonnegative(r: RetryConfig, n: nat)
    requires r.multiplier >= 0.0
    ensures RawDelay(r, n) >= 0.0
  {
    if n > 0 {
      RawDelayNonnegative(r, n - 1);
      RawDelayStep(r, n - 1);
    }
  }

  lemma TruncateWhole(n: nat)
    ensures Truncate(n as real) == n
  {
  }

  /** Each pause is the backoff of its attempt, and pauses of one segment come from increasing attempts. */
  ghost predicate SleepsOk(cfg: Settings, sleeps: seq<Sleep>) {
    && (forall i :: 0 <= i < |sleeps| ==>
          sleeps[i].attempt >= 1 && sleeps[i].ms == DelayForAttempt(cfg.retry, sleeps[i].attempt - 1))
    && (forall i, j :: 0 <= i < j < |sleeps| ==>
          sleeps[i].segment <= sleeps[j].segment
          && (sleeps[i].segment == sleeps[j].segment ==> sleeps[i].attempt < sleeps[j].attempt))
  }

  /** The pauses so far belong to earlier segments, or to earlier attempts of the current one. */
  ghost predicate SleepsBefore(s: State) {
    forall i :: 0 <= i < |s.sleeps| ==>
      s.sleeps[i].segment <= |s.history| && (s.sleeps[i].segment == |s.history| ==> s.sleeps[i].attempt <= s.attempts)
  }

  lemma {:induction false} SleepsFollowBackoff(cfg: Settings, oracle: Oracle, s: State)
    requires s.total <= MAX_TOTAL_ATTEMPTS && SleepsOk(cfg, s.sleeps) && SleepsBefore(s)
    ensures SleepsOk(cfg, Run(cfg, oracle, s).state.sleeps)
    decreases MAX_TOTAL_ATTEMPTS - s.total
  {
    hide DelayForAttempt, NextModel, ShouldFallback;
    if s.total < MAX_TOTAL_ATTEMPTS {
      var d := Decide(cfg, s.attempts + 1, s.model, oracle(|s.requests|, s.model));
      if !d.Stop? {
        SleepsFollowBackoff(cfg, oracle, After(cfg, s, d));
      }
    }
  }

  /** Over a whole run: no pause exceeds the maximum, and pauses before retries of one model never shrink. */
  lemma WholeRunDelays(cfg: Settings, oracle: Oracle)
    ensures var sleeps := Run(cfg, oracle, Initial(cfg)).state.sleeps;
      && (forall i :: 0 <= i < |sleeps| ==> sleeps[i].ms <= cfg.retry.maxDelayMs)
      && (cfg.retry.multiplier >= 1.0 ==>
            forall i, j :: 0 <= i < j < |sleeps| && sleeps[i].segment == sleeps[j].segment ==>
                  sleeps[i].ms <= sleeps[j].ms)
  {
    hide Run, DelayForAttempt;
    SleepsFollowBackoff(cfg, oracle, Initial(cfg));
    var sleeps := Run(cfg, oracle, Initial(cfg)).state.sleeps;
    forall i | 0 <= i < |sleeps| ensures sleeps[i].ms <= cfg.retry.maxDelayMs {
      DelaysGrowToCap(cfg.retry, 0, sleeps[i].attempt - 1);
    }
    forall i, j | 0 <= i < j < |sleeps| && sleeps[i].segment == sleeps[j].segment && cfg.retry.multiplier >= 1.0
      ensures sleeps[i].ms <= sleeps[j].ms
    {
      DelaysGrowToCap(cfg.retry, sleeps[i].attempt - 1, sleeps[j].attempt - 1);
    }
  }

  // ----- Behaviours the executor does not tell apart -----

  /** The settings with every behaviour replaced by one the executor treats alike. */
  function Coarse(cfg: Settings): Settings {
    if cfg.fallback.None? then cfg
    else
      var f := cfg.fallback.value;
      cfg.(fallback := Some(f.(onRateLimit := CoarseBehavior(f.onRateLimit), onTimeout := CoarseBehavior(f.onTimeout))))
  }

  function CoarseBehavior(b: FallbackBehavior): FallbackBehavior {
    if FallsBack(b) then RetryThenFallback else Fail
  }

  /**
   * `Fallback` is documented to switch models immediately, but every run is the same as under `RetryThenFallback`:
   * retrying is decided first, without asking the chain. For the same reason `Retry` acts like `Fail`.
   */
  lemma {:induction false} BehavioursCoincide(cfg: Settings, oracle: Oracle, s: State)
    requires s.total <= MAX_TOTAL_ATTEMPTS
    ensures Run(Coarse(cfg), oracle, s) == Run(cfg, oracle, s)
    decreases MAX_TOTAL_ATTEMPTS - s.total
  {
    hide DelayForAttempt, FirstIndex;
    if s.total < MAX_TOTAL_ATTEMPTS {
      var d := Decide(cfg, s.attempts + 1, s.model, oracle(|s.requests|, s.model));
      assert Decide(Coarse(cfg), s.attempts + 1, s.model, oracle(|s.requests|, s.model)) == d;
      if !d.Stop? {
        BehavioursCoincide(cfg, oracle, After(cfg, s, d));
      }
    }
  }

  // ----- What the behaviours are announced to do -----

  /** The error's behaviour is configured: the two kinds of error the chain has a setting for. */
  predicate Configured(cfg: Settings, e: LlmError) {
    cfg.fallback.Some? && cfg.fallback.value.enabled && (e.RateLimit? || e.Timeout?)
  }

  /** The executor would try such an error again on the same model at least once. */
  predicate TriesAgain(r: RetryConfig, e: LlmError) {
    r.maxAttempts >= 2 && (e.RateLimit? ==> r.retryOnRateLimit)
  }

  /** `Fallback` switches on every occurrence of its error exactly if the executor would not try again anyway. */
  lemma SwitchesAtOnceIff(cfg: Settings, m: Model, e: LlmError)
    requires Configured(cfg, e) && BehaviorForError(cfg.fallback.value, e).Fallback?
    requires NextModel(cfg.fallback.value, m).Some?
    ensures (forall n: nat :: n >= 1 ==> Decide(cfg, n, m, Error(e)).Switch?) <==> !TriesAgain(cfg.retry, e)
  {
    hide NextModel, DelayForAttempt;
    if TriesAgain(cfg.retry, e) {
      assert Decide(cfg, 1, m, Error(e)).Again?;
    }
  }

  /** `Fail` fails on every occurrence of its error exactly under the same condition. */
  lemma FailsAtOnceIff(cfg: Settings, m: Model, e: LlmError)
    requires Configured(cfg, e) && BehaviorForError(cfg.fallback.value, e).Fail?
    ensures (forall n: nat :: n >= 1 ==> Decide(cfg, n, m, Error(e)) == Stop(Failure(e))) <==> !TriesAgain(cfg.retry, e)
  {
    hide NextModel, DelayForAttempt;
    if TriesAgain(cfg.retry, e) {
      assert Decide(cfg, 1, m, Error(e)).Again?;
    }
  }

  /** `Retry` and `RetryThenFallback` retry on every attempt but the last exactly if the executor tries again at all. */
  lemma RetriesFirstIff(cfg: Settings, m: Model, e: LlmError)
    requires Configured(cfg, e)
    requires var b := BehaviorForError(cfg.fallback.value, e); b.Retry? || b.RetryThenFallback?
    ensures (forall n: nat :: 1 <= n < cfg.retry.maxAttempts ==> Decide(cfg, n, m, Error(e)).Again?)
            <==> cfg.retry.maxAttempts <= 1 || TriesAgain(cfg.retry, e)
  {
    hide NextModel, DelayForAttempt;
    if cfg.retry.maxAttempts >= 2 && !TriesAgain(cfg.retry, e) {
      assert !Decide(cfg, 1, m, Error(e)).Again?;
    }
  }

  /**
   * Deciding as announced. `Fail` fails at once; `Fallback` switches at once, if there is a next model; `Retry` and
   * `RetryThenFallback` retry while there are attempts left, and the latter then falls back.
   */
  function DecideAnnounced(cfg: Settings, attempts: nat, model: Model, outcome: Outcome): Decision
    requires attempts >= 1
  {
    if outcome.Error? && Configured(cfg, outcome.error) then
      match BehaviorForError(cfg.fallback.value, outcome.error)
      case Fail => Stop(Failure(outcome.error))
      case Fallback =>
        (match NextModel(cfg.fallback.value, model)
         case Some(next) => Switch(next, outcome.error)
         case None => Decide(cfg, attempts, model, outcome))
      case Retry =>
        if attempts < cfg.retry.maxAttempts then Again(DelayForAttempt(cfg.retry, attempts - 1))
        else Stop(Failure(outcome.error))
      case RetryThenFallback =>
        if attempts < cfg.retry.maxAttempts then Again(DelayForAttempt(cfg.retry, attempts - 1))
        else
          (match NextModel(cfg.fallback.value, model)
           case Some(next) => Switch(next, outcome.error)
           case None => Stop(Failure(outcome.error)))
    else Decide(cfg, attempts, model, outcome)
  }

  function RunAnnounced(cfg: Settings, oracle: Oracle, s: State): Final
    requires s.total <= MAX_TOTAL_ATTEMPTS
    decreases MAX_TOTAL_ATTEMPTS - s.total
  {
    if s.total == MAX_TOTAL_ATTEMPTS then Final(RetryExhausted(s.total + 1), s)
    else
      var d := DecideAnnounced(cfg, s.attempts + 1, s.model, oracle(|s.requests|, s.model));
      if d.Stop? then Final(d.result, After(cfg, s, d)) else RunAnnounced(cfg, oracle, After(cfg, s, d))
  }

  /** The setting for the error means what it says, given the retry settings and the model the run starts with. */
  predicate Heeded(cfg: Settings, e: LlmError) {
    Configured(cfg, e) ==>
      match BehaviorForError(cfg.fallback.value, e)
      case Retry => cfg.retry.maxAttempts <= 1 || TriesAgain(cfg.retry, e)
      case RetryThenFallback => cfg.retry.maxAttempts <= 1 || TriesAgain(cfg.retry, e)
      case Fallback => !TriesAgain(cfg.retry, e) || NextModel(cfg.fallback.value, cfg.model).None?
      case Fail => !TriesAgain(cfg.retry, e)
  }

  /** All runs are as announced exactly if both settings are heeded. */
  lemma RunsAsAnnouncedIff(cfg: Settings)
    ensures (forall oracle :: RunAnnounced(cfg, oracle, Initial(cfg)) == Run(cfg, oracle, Initial(cfg)))
            <==> Heeded(cfg, Timeout) && Heeded(cfg, RateLimit)
  {
    hide Run, RunAnnounced, Heeded;
    if Heeded(cfg, Timeout) && Heeded(cfg, RateLimit) {
      forall oracle ensures RunAnnounced(cfg, oracle, Initial(cfg)) == Run(cfg, oracle, Initial(cfg)) {
        HeededRuns(cfg, oracle, Initial(cfg));
      }
    } else {
      var e := if Heeded(cfg, Timeout) then RateLimit else Timeout;
      UnheededRun(cfg, e);
    }
  }

  /** A model without a successor is never left. */
  ghost predicate StaysPut(cfg: Settings, s: State) {
    cfg.fallback.Some? && NextModel(cfg.fallback.value, cfg.model).None? ==> s.model == cfg.model
  }

  lemma {:induction false} HeededRuns(cfg: Settings, oracle: Oracle, s: State)
    requires s.total <= MAX_TOTAL_ATTEMPTS && StaysPut(cfg, s)
    requires Heeded(cfg, Timeout) && Heeded(cfg, RateLimit)
    ensures RunAnnounced(cfg, oracle, s) == Run(cfg, oracle, s)
    decreases MAX_TOTAL_ATTEMPTS - s.total
  {
    hide Decide, DecideAnnounced, Heeded, StaysPut;
    if s.total < MAX_TOTAL_ATTEMPTS {
      var d := Decide(cfg, s.attempts + 1, s.model, oracle(|s.requests|, s.model));
      HeededDecision(cfg, s, oracle(|s.requests|, s.model));
      if !d.Stop? {
        HeededRuns(cfg, oracle, After(cfg, s, d));
      }
    }
  }

  lemma HeededDecision(cfg: Settings, s: State, outcome: Outcome)
    requires StaysPut(cfg, s) && Heeded(cfg, Timeout) && Heeded(cfg, RateLimit)
    ensures var d := Decide(cfg, s.attempts + 1, s.model, outcome);
      && DecideAnnounced(cfg, s.attempts + 1, s.model, outcome) == d
      && (!d.Stop? ==> StaysPut(cfg, After(cfg, s, d)))
  {
    hide NextModel, DelayForAttempt;
  }

  function OnceThenAnswer(e: LlmError): Oracle {
    (n, m) => if n == 0 then Error(e) else Answer("")
  }

  /** One such error and then an answer tell the code from the announcement. */
  lemma UnheededRun(cfg: Settings, e: LlmError)
    requires !Heeded(cfg, e)
    ensures RunAnnounced(cfg, OnceThenAnswer(e), Initial(cfg)) != Run(cfg, OnceThenAnswer(e), Initial(cfg))
    ensures TriesAgain(cfg.retry, e) ==>
              && Run(cfg, OnceThenAnswer(e), Initial(cfg)).result == Success("")
              && Run(cfg, OnceThenAnswer(e), Initial(cfg)).state.requests
                 == [RequestMade(cfg.model, 1), RequestMade(cfg.model, 2)]
  {
    hide NextModel, DelayForAttempt, Decide, DecideAnnounced, Run, RunAnnounced;
    UnheededDecision(cfg, e);
    OneErrorRun(cfg, e);
    OneErrorAnnounced(cfg, e);
  }

  /** The error's first occurrence, decided by the code. */
  function FirstDecision(cfg: Settings, e: LlmError): Decision {
    Decide(cfg, 1, cfg.model, Error(e))
  }

  function FirstAnnounced(cfg: Settings, e: LlmError): Decision {
    DecideAnnounced(cfg, 1, cfg.model, Error(e))
  }

  lemma UnheededDecision(cfg: Settings, e: LlmError)
    requires !Heeded(cfg, e)
    ensures var (d, d') := (FirstDecision(cfg, e), FirstAnnounced(cfg, e));
      && d.Again? != d'.Again? && (TriesAgain(cfg.retry, e) ==> d.Again?)
      && (d.Stop? ==> d == Stop(Failure(e))) && (d'.Stop? ==> d' == Stop(Failure(e)))
  {
    hide NextModel, DelayForAttempt;
  }

  /** How a run ends that meets one error and then an answer, by what the error leads to. */
  function OneErrorEnd(cfg: Settings, d: Decision): Final {
    var t := After(cfg, Initial(cfg), d);
    if d.Stop? then Final(d.result, t) else Final(Success(""), After(cfg, t, Stop(Success(""))))
  }

  lemma OneErrorRun(cfg: Settings, e: LlmError)
    ensures Run(cfg, OnceThenAnswer(e), Initial(cfg)) == OneErrorEnd(cfg, FirstDecision(cfg, e))
  {
    hide NextModel, DelayForAttempt, ShouldRetry, ShouldFallback;
    var (o, s) := (OnceThenAnswer(e), Initial(cfg));
    var d := Decide(cfg, 1, cfg.model, o(0, cfg.model));
    assert d == FirstDecision(cfg, e);
    if !d.Stop? {
      var t := After(cfg, s, d);
      assert |t.requests| == 1 && t.total == 1;
      assert Run(cfg, o, s) == Run(cfg, o, t);
    }
  }

  lemma OneErrorAnnounced(cfg: Settings, e: LlmError)
    ensures RunAnnounced(cfg, OnceThenAnswer(e), Initial(cfg)) == OneErrorEnd(cfg, FirstAnnounced(cfg, e))
  {
    hide NextModel, DelayForAttempt, ShouldRetry, ShouldFallback;
    var (o, s) := (OnceThenAnswer(e), Initial(cfg));
    var d := DecideAnnounced(cfg, 1, cfg.model, o(0, cfg.model));
    assert d == FirstAnnounced(cfg, e);
    if !d.Stop? {
      var t := After(cfg, s, d);
      assert |t.requests| == 1 && t.total == 1;
      assert RunAnnounced(cfg, o, s) == RunAnnounced(cfg, o, t);
    }
  }

  /** Three attempts, one further model, `Fallback` on timeouts: the first timeout is followed by a retry. */
  lemma FallbackRetriesFirst()
    ensures var cfg := Settings("x", "", RetryConfig(3, 500, 30000, 2.0, true),
                                Some(FallbackChain(true, ["a"], Fallback, Fallback)));
      Run(cfg, OnceThenAnswer(Timeout), Initial(cfg)).state.requests == [RequestMade("x", 1), RequestMade("x", 2)]
  {
    hide Run;
    var cfg := Settings("x", "", RetryConfig(3, 500, 30000, 2.0, true),
                        Some(FallbackChain(true, ["a"], Fallback, Fallback)));
    OneErrorRun(cfg, Timeout);
  }

  /**
   * Three attempts, no retrying of rate limits: `RetryThenFallback` on rate limits switches at the first one, and
   * `Retry` fails.
   */
  lemma RateLimitNotRetried()
    ensures var retry := RetryConfig(3, 500, 30000, 2.0, false);
      var falling := Settings("x", "", retry, Some(FallbackChain(true, ["a"], RetryThenFallback, Fail)));
      var retrying := Settings("x", "", retry, Some(FallbackChain(true, ["a"], FallbackBehavior.Retry, Fail)));
      && !Heeded(falling, RateLimit) && !Heeded(retrying, RateLimit)
      && Run(falling, OnceThenAnswer(RateLimit), Initial(falling)).state.requests
         == [RequestMade("x", 1), RequestMade("a", 1)]
      && Run(retrying, OnceThenAnswer(RateLimit), Initial(retrying)).result == Failure(RateLimit)
  {
    hide Run;
    var retry := RetryConfig(3, 500, 30000, 2.0, false);
    var falling := Settings("x", "", retry, Some(FallbackChain(true, ["a"], RetryThenFallback, Fail)));
    var retrying := Settings("x", "", retry, Some(FallbackChain(true, ["a"], FallbackBehavior.Retry, Fail)));
    OneErrorRun(falling, RateLimit);
    OneErrorRun(retrying, RateLimit);
    assert NextModel(falling.fallback.value, "x") == Some("a");
  }
}
