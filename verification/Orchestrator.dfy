/**
 * The orchestrator's run over one question: analysis, one scout per chosen document, consolidation, and at most one
 * further round for what was missing. The model, the scouts and the formatting are given functions; they take the
 * round, so that the same request may be answered differently the second time.
 */
module Orchestrator {
  import opened Prelude
  import opened Consolidate

  datatype TraceStep = TraceStep(action: string, observation: string, round: nat)

  datatype Metrics = Metrics(
    roundsUsed: nat, llmCalls: nat, nodesVisited: nat, budgetExhausted: bool, planGenerated: bool, checkCount: nat,
    evidenceChars: nat)

  datatype WorkerOutput = WorkerOutput(
    evidence: seq<Evidence>, metrics: Metrics, docName: string, traceSteps: seq<TraceStep>)

  datatype Output = Output(
    answer: string, evidence: seq<Evidence>, metrics: Metrics, confidence: real, traceSteps: seq<TraceStep>)

  datatype FinalAnswer = FinalAnswer(answer: string, sufficient: bool, missing: string, confidence: real)

  /** A question with everything outside the orchestrator's control. Calls that fail give nothing. */
  datatype Question = Question(
    cards: nat,
    navigational: bool,
    skipAnalysis: bool,
    analysis: Option<seq<nat>>,
    scout: (nat, nat) -> Option<WorkerOutput>,
    synthesize: (nat, seq<Evidence>) -> Option<FinalAnswer>,
    locations: seq<Evidence> -> string,
    render: seq<Evidence> -> string)

  // ----- Totals -----

  const NONE := Metrics(0, 0, 0, false, false, 0, 0)

  function Plus(a: Metrics, b: Metrics): Metrics {
    Metrics(a.roundsUsed + b.roundsUsed, a.llmCalls + b.llmCalls, a.nodesVisited + b.nodesVisited,
            a.budgetExhausted || b.budgetExhausted, a.planGenerated || b.planGenerated, a.checkCount + b.checkCount,
            a.evidenceChars + b.evidenceChars)
  }

  function TotalMetrics(rs: seq<WorkerOutput>): Metrics {
    if rs == [] then NONE else Plus(TotalMetrics(rs[..|rs| - 1]), rs[|rs| - 1].metrics)
  }

  function AllEvidence(rs: seq<WorkerOutput>): seq<Evidence> {
    if rs == [] then [] else AllEvidence(rs[..|rs| - 1]) + rs[|rs| - 1].evidence
  }

  function AllTraces(rs: seq<WorkerOutput>): seq<TraceStep> {
    if rs == [] then [] else AllTraces(rs[..|rs| - 1]) + rs[|rs| - 1].traceSteps
  }

  /** Evidence without a document takes the name its scout reports. */
  function NameAll(es: seq<Evidence>, name: string): (r: seq<Evidence>)
    ensures |r| == |es|
    ensures forall i :: 0 <= i < |es| ==> r[i] == if es[i].docName.None? then es[i].(docName := Some(name)) else es[i]
  {
    if es == [] then []
    else [if es[0].docName.None? then es[0].(docName := Some(name)) else es[0]] + NameAll(es[1..], name)
  }

  function Named(r: WorkerOutput): WorkerOutput {
    r.(evidence := NameAll(r.evidence, r.docName))
  }

  lemma NamedKeeps(r: WorkerOutput)
    ensures Named(r).metrics == r.metrics && Named(r).traceSteps == r.traceSteps && Named(r).docName == r.docName
    ensures |Named(r).evidence| == |r.evidence| && forall i :: 0 <= i < |r.evidence| ==>
              var e := r.evidence[i];
              Named(r).evidence[i]
              == Evidence(e.sourcePath, e.nodeTitle, e.content, if e.docName.None? then Some(r.docName) else e.docName)
  {
  }

  lemma TotalsPush(rs: seq<WorkerOutput>, r: WorkerOutput)
    ensures AllEvidence(rs + [r]) == AllEvidence(rs) + r.evidence
    ensures TotalMetrics(rs + [r]) == Plus(TotalMetrics(rs), r.metrics)
    ensures AllTraces(rs + [r]) == AllTraces(rs) + r.traceSteps
  {
    assert (rs + [r])[..|rs|] == rs;
  }

  lemma {:induction false} EvidenceGrows(rs: seq<WorkerOutput>, more: seq<WorkerOutput>)
    ensures AllEvidence(rs + more) == AllEvidence(rs) + AllEvidence(more)
    ensures AllTraces(rs + more) == AllTraces(rs) + AllTraces(more)
    decreases |more|
  {
    hide AllEvidence, TotalMetrics, AllTraces;
    if more == [] {
      assert rs + more == rs;
      NoWorkers();
    } else {
      var (front, last) := (more[..|more| - 1], more[|more| - 1]);
      EvidenceGrows(rs, front);
      TotalsPush(front, last);
      TotalsPush(rs + front, last);
      assert front + [last] == more && rs + front + [last] == rs + more;
    }
  }

  lemma NoWorkers()
    ensures AllEvidence([]) == [] && TotalMetrics([]) == NONE && AllTraces([]) == []
  {
  }

  lemma OneWorker(r: WorkerOutput)
    ensures AllEvidence([r]) == r.evidence && AllTraces([r]) == r.traceSteps
  {
    TotalsPush([], r);
    assert [] + [r] == [r];
  }

  function Sum(of: Metrics -> nat, rs: seq<WorkerOutput>): nat {
    if rs == [] then 0 else of(rs[0].metrics) + Sum(of, rs[1..])
  }

  lemma {:induction false} SumPush(of: Metrics -> nat, rs: seq<WorkerOutput>, r: WorkerOutput)
    ensures Sum(of, rs + [r]) == Sum(of, rs) + of(r.metrics)
  {
    if rs == [] {
      assert [] + [r] == [r];
    } else {
      assert (rs + [r])[1..] == rs[1..] + [r];
      SumPush(of, rs[1..], r);
    }
  }

  /** Each count of the totals is the sum over the results, each flag says whether some result has it. */
  ghost predicate AreTotals(rs: seq<WorkerOutput>, m: Metrics) {
    && m.roundsUsed == Sum((x: Metrics) => x.roundsUsed, rs)
    && m.llmCalls == Sum((x: Metrics) => x.llmCalls, rs)
    && m.nodesVisited == Sum((x: Metrics) => x.nodesVisited, rs)
    && m.checkCount == Sum((x: Metrics) => x.checkCount, rs)
    && m.evidenceChars == Sum((x: Metrics) => x.evidenceChars, rs)
    && (m.budgetExhausted <==> exists i :: 0 <= i < |rs| && rs[i].metrics.budgetExhausted)
    && (m.planGenerated <==> exists i :: 0 <= i < |rs| && rs[i].metrics.planGenerated)
  }

  lemma {:induction false} TotalsAreSums(rs: seq<WorkerOutput>)
    ensures AreTotals(rs, TotalMetrics(rs))
  {
    if rs != [] {
      hide Sum;
      var (front, r) := (rs[..|rs| - 1], rs[|rs| - 1]);
      assert rs == front + [r];
      TotalsAreSums(front);
      SumPush((x: Metrics) => x.roundsUsed, front, r);
      SumPush((x: Metrics) => x.llmCalls, front, r);
      SumPush((x: Metrics) => x.nodesVisited, front, r);
      SumPush((x: Metrics) => x.checkCount, front, r);
      SumPush((x: Metrics) => x.evidenceChars, front, r);
    }
  }

  // ----- The state -----

  ghost predicate AllNamed(es: seq<Evidence>) {
    forall i :: 0 <= i < |es| ==> es[i].docName.Some?
  }

  class OrchestratorState {
    var dispatched: seq<nat>
    var subResults: seq<WorkerOutput>
    var allEvidence: seq<Evidence>
    var totalLlmCalls: nat

    /** The evidence is that of the results, every piece names its document, and no model call goes uncounted. */
    ghost predicate Valid()
      reads this
    {
      && Distinct(dispatched)
      && allEvidence == AllEvidence(subResults) && AllNamed(allEvidence)
      && totalLlmCalls >= TotalMetrics(subResults).llmCalls
    }

    /** Model calls made by the orchestrator itself. */
    ghost function OwnCalls(): int
      reads this
    {
      totalLlmCalls - TotalMetrics(subResults).llmCalls
    }

    constructor ()
      ensures Valid() && dispatched == [] && subResults == [] && OwnCalls() == 0
    {
      dispatched, subResults, allEvidence, totalLlmCalls := [], [], [], 0;
    }

    method RecordDispatch(docIdx: nat)
      requires Distinct(dispatched)
      modifies this`dispatched
      ensures Distinct(dispatched)
      ensures dispatched == if docIdx in old(dispatched) then old(dispatched) else old(dispatched) + [docIdx]
    {
      if docIdx !in dispatched {
        dispatched := dispatched + [docIdx];
      }
    }

    method CollectResult(docIdx: nat, result: WorkerOutput)
      requires Valid()
      modifies this
      ensures Valid() && OwnCalls() == old(OwnCalls())
      ensures subResults == old(subResults) + [Named(result)]
      ensures allEvidence == old(allEvidence) + Named(result).evidence
      ensures totalLlmCalls == old(totalLlmCalls) + result.metrics.llmCalls
      ensures dispatched == if docIdx in old(dispatched) then old(dispatched) else old(dispatched) + [docIdx]
    {
      var named := Named(result);
      totalLlmCalls := totalLlmCalls + result.metrics.llmCalls;
      allEvidence := allEvidence + named.evidence;
      TotalsPush(subResults, named);
      subResults := subResults + [named];
      RecordDispatch(docIdx);
    }

    /**
     * Evidence and traces of all results, every piece naming its document; totals over the results, and in the call
     * count the orchestrator's own calls besides.
     */
    method IntoOutput(answer: string) returns (out: Output)
      requires Valid()
      ensures out.answer == answer && out.confidence == 0.0
      ensures out.evidence == AllEvidence(subResults) && AllNamed(out.evidence)
      ensures out.traceSteps == AllTraces(subResults)
      ensures out.metrics == TotalMetrics(subResults).(llmCalls := out.metrics.llmCalls)
      ensures out.metrics.llmCalls == TotalMetrics(subResults).llmCalls + OwnCalls()
    {
      hide AllNamed, AllEvidence, TotalMetrics, AllTraces, Distinct;
      var rounds: nat, nodes: nat, checks: nat, chars: nat := 0, 0, 0, 0;
      var exhausted, planned := false, false;
      var traces: seq<TraceStep> := [];
      NoWorkers();
      for i := 0 to |subResults|
        invariant TotalMetrics(subResults[..i])
               == Metrics(rounds, TotalMetrics(subResults[..i]).llmCalls, nodes, exhausted, planned, checks, chars)
        invariant traces == AllTraces(subResults[..i])
      {
        var m := subResults[i].metrics;
        traces := traces + subResults[i].traceSteps;
        rounds, nodes, checks, chars :=
          rounds + m.roundsUsed, nodes + m.nodesVisited, checks + m.checkCount, chars + m.evidenceChars;
        exhausted, planned := exhausted || m.budgetExhausted, planned || m.planGenerated;
        assert subResults[..i + 1] == subResults[..i] + [subResults[i]];
        TotalsPush(subResults[..i], subResults[i]);
      }
      assert subResults[..|subResults|] == subResults;
      var metrics := Metrics(rounds, totalLlmCalls, nodes, exhausted, planned, checks, chars);
      return Output(answer, allEvidence, metrics, 0.0, traces);
    }
  }

  // ----- Dispatch -----

  /** The named results of the dispatches at positions `at`. */
  ghost function Gathered(q: Question, round: nat, at: seq<nat>): (rs: seq<WorkerOutput>)
    requires forall i :: 0 <= i < |at| ==> q.scout(round, at[i]).Some?
    ensures |rs| == |at|
  {
    if at == [] then [] else Gathered(q, round, at[..|at| - 1]) + [Named(q.scout(round, at[|at| - 1]).value)]
  }

  lemma {:induction false} GatheredAt(q: Question, round: nat, at: seq<nat>, i: nat)
    requires i < |at| && forall j :: 0 <= j < |at| ==> q.scout(round, at[j]).Some?
    ensures Gathered(q, round, at)[i] == Named(q.scout(round, at[i]).value)
  {
    if i < |at| - 1 {
      GatheredAt(q, round, at[..|at| - 1], i);
    }
  }

  /** The documents of the dispatches at positions `at`. */
  ghost function Reached(dispatches: seq<nat>, at: seq<nat>): set<nat>
    requires forall i :: 0 <= i < |at| ==> at[i] < |dispatches|
  {
    if at == [] then {} else Reached(dispatches, at[..|at| - 1]) + {dispatches[at[|at| - 1]]}
  }

  /** Some order of completion of exactly the dispatches that lead to a document and whose scout reports. */
  ghost predicate Completion(q: Question, round: nat, dispatches: seq<nat>, at: seq<nat>) {
    && Distinct(at)
    && forall p: nat :: p in at <==> p < |dispatches| && dispatches[p] < q.cards && q.scout(round, p).Some?
  }

  /** Scouts run side by side; their results are collected in the order in which they happen to finish. */
  method Await(q: Question, round: nat, dispatches: seq<nat>)
    returns (collected: seq<(nat, WorkerOutput)>, ghost at: seq<nat>)
    ensures |collected| <= |dispatches|
    ensures forall i :: 0 <= i < |collected| ==> collected[i].0 in dispatches && collected[i].0 < q.cards
    ensures Completion(q, round, dispatches, at) && |collected| == |at|
    ensures forall i :: 0 <= i < |at| ==>
              at[i] < |dispatches| && q.scout(round, at[i]).Some?
              && collected[i] == (dispatches[at[i]], q.scout(round, at[i]).value)
  {
    collected, at := [], [];
    var running := Below(|dispatches|);
    while running != {}
      invariant forall p :: p in running ==> p < |dispatches|
      invariant |collected| + |running| <= |dispatches|
      invariant forall i :: 0 <= i < |collected| ==> collected[i].0 in dispatches && collected[i].0 < q.cards
      invariant Distinct(at) && |collected| == |at|
      invariant forall p: nat :: p in at <==>
                  && p < |dispatches| && p !in running && dispatches[p] < q.cards
                  && q.scout(round, p).Some?
      invariant forall i :: 0 <= i < |at| ==>
                  at[i] < |dispatches| && q.scout(round, at[i]).Some?
                  && collected[i] == (dispatches[at[i]], q.scout(round, at[i]).value)
      decreases running
    {
      var p :| p in running;
      running := running - {p};
      if dispatches[p] < q.cards {
        var r := q.scout(round, p);
        if r.Some? {
          collected := collected + [(dispatches[p], r.value)];
          at := at + [p];
        }
      }
    }
  }

  function Results(collected: seq<(nat, WorkerOutput)>): seq<WorkerOutput> {
    if collected == [] then [] else Results(collected[..|collected| - 1]) + [Named(collected[|collected| - 1].1)]
  }

  function Targets(collected: seq<(nat, WorkerOutput)>): set<nat> {
    if collected == [] then {} else Targets(collected[..|collected| - 1]) + {collected[|collected| - 1].0}
  }

  method CollectAll(collected: seq<(nat, WorkerOutput)>, state: OrchestratorState)
    requires state.Valid()
    modifies state
    ensures state.Valid() && state.OwnCalls() == old(state.OwnCalls())
    ensures state.subResults == old(state.subResults) + Results(collected)
    ensures forall d :: d in state.dispatched <==> d in old(state.dispatched) || d in Targets(collected)
  {
    hide Named, AllNamed, AllEvidence, TotalMetrics, Distinct;
    for i := 0 to |collected|
      invariant state.Valid() && state.OwnCalls() == old(state.OwnCalls())
      invariant state.subResults == old(state.subResults) + Results(collected[..i])
      invariant forall d :: d in state.dispatched <==> d in old(state.dispatched) || d in Targets(collected[..i])
    {
      state.CollectResult(collected[i].0, collected[i].1);
      assert collected[..i + 1][..i] == collected[..i];
    }
    assert collected[..|collected|] == collected;
  }

  lemma {:induction false} GatheredAre(q: Question, round: nat, dispatches: seq<nat>,
                                       collected: seq<(nat, WorkerOutput)>, at: seq<nat>)
    requires |collected| == |at|
    requires forall i :: 0 <= i < |at| ==>
               at[i] < |dispatches| && q.scout(round, at[i]).Some?
               && collected[i] == (dispatches[at[i]], q.scout(round, at[i]).value)
    ensures Results(collected) == Gathered(q, round, at)
    ensures Targets(collected) == Reached(dispatches, at)
  {
    if at != [] {
      hide Named;
      GatheredAre(q, round, dispatches, collected[..|at| - 1], at[..|at| - 1]);
    }
  }

  /** Each dispatch reports at most once; afterwards its results and its evidence stand after those of before. */
  method Dispatch(q: Question, round: nat, dispatches: seq<nat>, state: OrchestratorState) returns (ghost at: seq<nat>)
    requires state.Valid()
    modifies state
    ensures state.Valid() && state.OwnCalls() == old(state.OwnCalls())
    ensures Completion(q, round, dispatches, at)
    ensures (forall i :: 0 <= i < |at| ==> q.scout(round, at[i]).Some? && at[i] < |dispatches|)
            && state.subResults == old(state.subResults) + Gathered(q, round, at)
    ensures forall d :: d in state.dispatched <==> d in old(state.dispatched) || d in Reached(dispatches, at)
  {
    hide Completion, Named, AllNamed, AllEvidence, TotalMetrics, Results, Targets, Gathered, Reached, Distinct;
    var collected;
    collected, at := Await(q, round, dispatches);
    CollectAll(collected, state);
    GatheredAre(q, round, dispatches, collected, at);
  }

  // ----- Finalize -----

  /** The evidence of an answer: deduplicated, unless nothing of it survives that. */
  ghost function Published(t: Text, es: seq<Evidence>): seq<Evidence> {
    if Deduped(t, es) == [] then es else Deduped(t, es)
  }

  /** Some evidence survives deduplication, and the question asks for more than its location. */
  ghost predicate AsksModel(t: Text, q: Question, es: seq<Evidence>) {
    Deduped(t, es) != [] && !q.navigational
  }

  /** The model sees at most eight pieces. */
  ghost function Shown(t: Text, es: seq<Evidence>): seq<Evidence> {
    Deduped(t, es)[..Min(8, |Deduped(t, es)|)]
  }

  ghost predicate Clamped(x: real, c: real) {
    0.0 <= c <= 1.0 && (0.0 <= x <= 1.0 ==> c == x) && (x > 1.0 ==> c == 1.0) && (x < 0.0 ==> c == 0.0)
  }

  /** Locations for a navigational question; otherwise what the model makes of the evidence, or the evidence itself. */
  ghost predicate Answered(t: Text, q: Question, round: nat, es: seq<Evidence>, out: Output) {
    && (Deduped(t, es) == [] ==> out.answer == "" && out.confidence == 0.0)
    && (Deduped(t, es) != [] && q.navigational ==> out.answer == q.locations(Deduped(t, es)) && out.confidence == 0.7)
    && (AsksModel(t, q, es) ==>
          match q.synthesize(round, Shown(t, es))
          case Some(final) => out.answer == final.answer && Clamped(final.confidence, out.confidence)
          case None => out.answer == q.render(Shown(t, es)) && out.confidence == 0.4)
  }

  /** The model finds the evidence insufficient. */
  ghost predicate Insufficient(t: Text, q: Question, round: nat, es: seq<Evidence>) {
    AsksModel(t, q, es) && q.synthesize(round, Shown(t, es)).Some?
    && !q.synthesize(round, Shown(t, es)).value.sufficient
  }

  method Finalize(t: Text, q: Question, round: nat, state: OrchestratorState)
    returns (out: Output, sufficient: bool, missing: string)
    requires state.Valid()
    modifies state`totalLlmCalls
    ensures state.Valid()
    ensures out.evidence == Published(t, state.allEvidence)
    ensures Answered(t, q, round, state.allEvidence, out)
    ensures state.totalLlmCalls == old(state.totalLlmCalls) + if AsksModel(t, q, state.allEvidence) then 1 else 0
    ensures sufficient <==> !Insufficient(t, q, round, state.allEvidence)
    ensures !sufficient ==> missing == t.strip(q.synthesize(round, Shown(t, state.allEvidence)).value.missing)
    ensures out.metrics == TotalMetrics(state.subResults).(llmCalls := state.totalLlmCalls)
    ensures out.traceSteps == AllTraces(state.subResults)
  {
    var kept := Dedup(t, state.allEvidence);
    if kept == [] {
      out := state.IntoOutput("");
      return out, true, "";
    }
    if q.navigational {
      out := state.IntoOutput(q.locations(kept));
      return out.(evidence := kept, confidence := 0.7), true, "";
    }
    var shown := kept[..Min(8, |kept|)];
    var answered := q.synthesize(round, shown);
    var final := if answered.Some? then answered.value else FinalAnswer(q.render(shown), true, "", 0.4);
    state.totalLlmCalls := state.totalLlmCalls + 1;
    out := state.IntoOutput(final.answer);
    var confidence := if final.confidence > 1.0 then 1.0 else final.confidence;
    confidence := if confidence < 0.0 then 0.0 else confidence;
    missing := if answered.Some? then t.strip(final.missing) else "";
    return out.(evidence := kept, confidence := confidence), final.sufficient, missing;
  }

  // ----- The run -----

  /** The documents to look into first. */
  function Plan(q: Question): seq<nat> {
    if q.skipAnalysis then seq(q.cards, i => i)
    else if q.analysis.None? then []
    else q.analysis.value
  }

  /** Something is missing, and the first round's evidence was to be chosen by analysis. */
  ghost predicate GoesOn(t: Text, q: Question, es: seq<Evidence>) {
    && !q.skipAnalysis && Insufficient(t, q, 0, es)
    && t.strip(q.synthesize(0, Shown(t, es)).value.missing) != ""
  }

  /** A run as its trace: the completions of the two rounds, and the output after the first. */
  datatype Trace = Trace(at0: seq<nat>, again: seq<nat>, at1: seq<nat>, first: Option<Output>)

  /** A trace the question allows. Without evidence nothing is finalized; the second round is for what is missing. */
  ghost predicate Possible(t: Text, q: Question, r: Trace) {
    && Completion(q, 0, Plan(q), r.at0)
    && Completion(q, 1, r.again, r.at1)
    && (forall i :: 0 <= i < |r.at0| ==> q.scout(0, r.at0[i]).Some? && r.at0[i] < |Plan(q)|)
    && (forall i :: 0 <= i < |r.at1| ==> q.scout(1, r.at1[i]).Some?)
    && var es := AllEvidence(Gathered(q, 0, r.at0));
      && (r.first.Some? <==> es != [])
      && (r.first.Some? ==> r.first.value.evidence == Published(t, es))
      && Distinct(r.again)
      && forall d :: d in r.again <==> es != [] && GoesOn(t, q, es) && d in Reached(Plan(q), r.at0)
  }

  /** The results of all scouts, the first round's before the second's. */
  ghost function Workers(t: Text, q: Question, r: Trace): seq<WorkerOutput>
    requires Possible(t, q, r)
  {
    Gathered(q, 0, r.at0) + Gathered(q, 1, r.at1)
  }

  /**
   * In every run the answer publishes the evidence of all scouts of both rounds, has all the evidence the first
   * finalize had, and its totals are those of the scouts, with every call of the orchestrator's own counted.
   */
  method Run(t: Text, q: Question) returns (out: Output, ghost r: Trace)
    ensures Possible(t, q, r)
    ensures out.evidence == Published(t, AllEvidence(Workers(t, q, r))) && AllNamed(out.evidence)
    ensures r.first.Some? ==> r.first.value.evidence <= out.evidence
    ensures q.skipAnalysis ==> forall p: nat :: p in r.at0 <==> p < q.cards && q.scout(0, p).Some?
    ensures !q.skipAnalysis && q.analysis.Some? ==> Completion(q, 0, q.analysis.value, r.at0)
    ensures !q.skipAnalysis && q.analysis.None? ==> r.at0 == []
    ensures r.first.None? ==> out.answer == "" && out.confidence == 0.0
    ensures r.first.Some? ==>
              Answered(t, q, if r.again == [] then 0 else 1, AllEvidence(Workers(t, q, r)), out)
    ensures out.metrics.llmCalls
         == TotalMetrics(Workers(t, q, r)).llmCalls
            + (if !q.skipAnalysis && q.analysis.Some? then 1 else 0)
            + (if r.first.Some? && AsksModel(t, q, AllEvidence(Workers(t, q, r))) then 1 else 0)
            + (if r.again == [] then 0 else 1)
    ensures out.metrics == TotalMetrics(Workers(t, q, r)).(llmCalls := out.metrics.llmCalls)
    ensures out.traceSteps == AllTraces(Workers(t, q, r))
  {
    hide Deduped, Clean, Distinct, Completion, Gathered, Reached, AllEvidence, TotalMetrics, AllTraces, AllNamed,
         Answered, AsksModel, Shown, Insufficient, Published, Plan;
    NothingGathered(t, q, 0);
    NothingGathered(t, q, 1);
    var state := new OrchestratorState();
    var dispatches := Plan(q);
    PlanCovers(q);
    if !q.skipAnalysis && q.analysis.Some? {
      state.totalLlmCalls := 1;
    }
    if dispatches == [] {
      out := state.IntoOutput("");
      r := Trace([], [], [], None);
      assert [] + [] == state.subResults;
      return;
    }
    ghost var at0 := Dispatch(q, 0, dispatches, state);
    assert state.subResults == Gathered(q, 0, at0) == Gathered(q, 0, at0) + [];
    if state.allEvidence == [] {
      out := state.IntoOutput("");
      r := Trace(at0, [], [], None);
      return;
    }
    var sufficient, missing;
    out, sufficient, missing := Finalize(t, q, 0, state);
    PublishedNamed(t, state.allEvidence);
    r := Trace(at0, [], [], Some(out));
    if !sufficient && missing != "" && !q.skipAnalysis && state.dispatched != [] {
      var again := state.dispatched;
      ghost var before := state.allEvidence;
      ghost var at1 := Dispatch(q, 1, again, state);
      r := Trace(at0, again, at1, Some(out));
      EvidenceGrows(Gathered(q, 0, at0), Gathered(q, 1, at1));
      PublishedGrows(t, q, before, AllEvidence(Gathered(q, 1, at1)));
      out, sufficient, missing := Finalize(t, q, 1, state);
      PublishedNamed(t, state.allEvidence);
    }
  }

  /** The dispatches are all cards, or those the analysis chose. */
  lemma PlanCovers(q: Question)
    ensures q.skipAnalysis ==> forall at :: Completion(q, 0, Plan(q), at) ==>
              forall p: nat :: p in at <==> p < q.cards && q.scout(0, p).Some?
    ensures !q.skipAnalysis && q.analysis.Some? ==> Plan(q) == q.analysis.value
    ensures !q.skipAnalysis && q.analysis.None? ==> Plan(q) == []
  {
  }

  lemma NothingGathered(t: Text, q: Question, round: nat)
    ensures Completion(q, round, [], []) && Gathered(q, round, []) == [] && Reached([], []) == {}
    ensures AllEvidence([]) == [] && TotalMetrics([]) == NONE && AllTraces([]) == []
    ensures AllNamed([]) && Published(t, []) == []
  {
  }

  /** An inconclusive first finalize had evidence left after deduplication, and that evidence stays. */
  lemma PublishedGrows(t: Text, q: Question, es: seq<Evidence>, more: seq<Evidence>)
    requires GoesOn(t, q, es)
    ensures Published(t, es) <= Published(t, es + more)
    ensures AsksModel(t, q, es)
  {
    hide Deduped;
    DedupPrefixMonotone(t, es, more);
  }

  lemma PublishedNamed(t: Text, es: seq<Evidence>)
    requires AllNamed(es)
    ensures AllNamed(Published(t, es))
  {
    DedupedMembers(t, es);
    forall i | 0 <= i < |Published(t, es)| ensures Published(t, es)[i].docName.Some? {
      assert Published(t, es)[i] in es;
    }
  }

  /**
   * The evidence of an answer is clean exactly if there is none, or some piece is long enough: with short pieces only,
   * all of them are handed out as they came.
   */
  lemma PublishedCleanIff(t: Text, es: seq<Evidence>)
    ensures Clean(t, Published(t, es)) <==> es == [] || exists e :: e in es && Long(t, e)
  {
    hide Long, Near, Key;
    DedupedEmptyIff(t, es);
    DedupedIsClean(t, es);
    if Deduped(t, es) == [] && es != [] {
      assert es[0] in es;
    }
  }

  /** One document whose only scout reports one piece of evidence, and a model that answers. */
  function OnePiece(e: Evidence): Question {
    Question(1, false, true, None,
             (round, p) => Some(WorkerOutput([e], NONE, "doc", [])),
             (round, es) => Some(FinalAnswer("answer", true, "", 1.0)),
             es => "", es => "")
  }

  /** If the piece is too short, the run publishes it all the same, without an answer. */
  method ShortPiecePublished(t: Text, e: Evidence) returns (out: Output)
    requires !Long(t, e) && e.docName == Some("doc")
    ensures out.evidence == [e] && !Clean(t, out.evidence)
    ensures out.answer == "" && out.metrics.llmCalls == 0
  {
    hide Long, Near, Key, Clean, Deduped, Completion, Gathered, Published;
    ghost var r;
    out, r := Run(t, OnePiece(e));
    OnePieceGathered(t, e, r);
    PublishedCleanIff(t, [e]);
  }

  lemma OnePieceGathered(t: Text, e: Evidence, r: Trace)
    requires !Long(t, e) && e.docName == Some("doc") && Possible(t, OnePiece(e), r)
    ensures AllEvidence(Workers(t, OnePiece(e), r)) == [e] && TotalMetrics(Workers(t, OnePiece(e), r)).llmCalls == 0
    ensures r.again == [] && r.first.Some?
    ensures Deduped(t, [e]) == [] && Published(t, [e]) == [e]
  {
    hide Long, Deduped, Completion, Gathered, Reached, AllEvidence, TotalMetrics, Distinct, Published;
    var q := OnePiece(e);
    OnePieceConcludes(t, e);
    FirstRound(e, r.at0);
    NoMembers(r.again);
    NoRound(e, r.at1);
    assert Workers(t, q, r) == Gathered(q, 0, r.at0);
  }

  lemma OnePieceConcludes(t: Text, e: Evidence)
    requires !Long(t, e)
    ensures Deduped(t, [e]) == [] && Published(t, [e]) == [e]
  {
    hide Long, Deduped;
    DedupedEmptyIff(t, [e]);
  }

  /** The first round gathers the one piece. */
  lemma FirstRound(e: Evidence, at: seq<nat>)
    requires e.docName == Some("doc") && Completion(OnePiece(e), 0, Plan(OnePiece(e)), at)
    ensures AllEvidence(Gathered(OnePiece(e), 0, at)) == [e]
    ensures TotalMetrics(Gathered(OnePiece(e), 0, at)).llmCalls == 0
  {
    hide AllEvidence, TotalMetrics;
    var (q, named) := (OnePiece(e), Named(WorkerOutput([e], NONE, "doc", [])));
    assert Plan(q) == [0];
    DistinctCardinality(at, {0});
    assert at[0] in at && at[..0] == [];
    assert named.evidence == [e];
    assert Gathered(q, 0, at) == [] + [named];
    NoWorkers();
    TotalsPush([], named);
  }

  lemma NoRound(e: Evidence, at: seq<nat>)
    requires Completion(OnePiece(e), 1, [], at)
    ensures at == [] && Gathered(OnePiece(e), 1, at) == []
  {
    NoMembers(at);
  }

  lemma NoMembers(s: seq<nat>)
    requires forall x :: x !in s
    ensures s == []
  {
    FirstIsMember(s);
  }

  lemma FirstIsMember(s: seq<nat>)
    ensures s != [] ==> s[0] in s
  {
  }
}
