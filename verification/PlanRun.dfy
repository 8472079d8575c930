/** Running an accepted plan: substitution from earlier outputs, halting, and the progress log. */
module PlanRun {
  import opened Events
  import opened PlanRef
  import opened PlanParams
  import opened Plan
  import opened PlanStore

  datatype Outcome = Returned(json: Json) | Raised(code: string, retryable: bool)

  /** What the handler of a tool does when called by the i-th step. */
  type Handlers = (nat, string, Json) -> Outcome

  const NOT_FOUND: string := "NOT_FOUND"

  function Call(reg: Registry, handlers: Handlers, i: nat, tool: string, params: Json): Outcome {
    if tool !in reg then Raised(NOT_FOUND, false) else handlers(i, tool, params)
  }

  ghost predicate AllRefsResolve(j: Json, outputs: map<string, Json>) {
    forall p :: RefAt(j, p).Some? ==> ResolveRef(RefAt(j, p).value, outputs).Some?
  }

  /** The parameters a step is called with: every reference replaced by an earlier output. */
  ghost function Bound(s: PlanStep, outputs: map<string, Json>): Option<Json> {
    match ParamsJson(s)
    case None => None
    case Some(j) => if RefsValid(j) && AllRefsResolve(j, outputs) then Some(Subst(j, outputs)) else None
  }

  function CallResult(s: PlanStep, i: nat, outcome: Outcome): StepResult {
    match outcome
    case Returned(j) => StepResult(s.id, i, s.tool, Some(j), None)
    case Raised(code, retryable) => StepResult(s.id, i, s.tool, None, Some(ToolError(code, retryable)))
  }

  function RefFailure(s: PlanStep, i: nat): StepResult { StepResult(s.id, i, s.tool, None, Some(RefResolveFailed)) }

  ghost function StepOutcome(s: PlanStep, i: nat, outputs: map<string, Json>, reg: Registry,
                             handlers: Handlers): StepResult {
    match Bound(s, outputs)
    case None => RefFailure(s, i)
    case Some(params) => CallResult(s, i, Call(reg, handlers, i, s.tool, params))
  }

  /** The outputs recorded by these results. */
  function OutputsOf(results: seq<StepResult>): map<string, Json> {
    if results == [] then map[] else
      var last := results[|results| - 1];
      var earlier := OutputsOf(results[..|results| - 1]);
      if last.result.Some? then earlier[last.id := last.result.value] else earlier
  }

  predicate Succeeded(r: StepResult) { r.result.Some? && r.error.None? }

  predicate AllSucceeded(results: seq<StepResult>) { forall k :: 0 <= k < |results| ==> Succeeded(results[k]) }

  /** Each result is the outcome of its step on the outputs of the steps before it. */
  ghost predicate FollowsSteps(steps: seq<PlanStep>, reg: Registry, handlers: Handlers, results: seq<StepResult>) {
    |results| <= |steps|
    && forall k {:trigger IsOutcome(steps, reg, handlers, results, k)} ::
         0 <= k < |results| ==> IsOutcome(steps, reg, handlers, results, k)
  }

  ghost predicate IsOutcome(steps: seq<PlanStep>, reg: Registry, handlers: Handlers, results: seq<StepResult>, k: nat)
    requires k < |results| <= |steps|
  {
    results[k] == StepOutcome(steps[k], k, OutputsOf(results[..k]), reg, handlers)
  }

  /** The shape of a finished plan's result. */
  ghost predicate ResultShape(steps: seq<PlanStep>, r: PlanResult) {
    && r.total == |steps|
    && match r.haltedAt
       case None =>
         |r.steps| == |steps| && r.completed == |steps| && r.status == Complete && r.error.None?
           && AllSucceeded(r.steps)
       case Some(i) =>
         && i < |steps| && |r.steps| == i + 1 && r.completed == i && AllSucceeded(r.steps[..i])
         && r.steps[i].error.Some? && r.error == r.steps[i].error
         && r.status == if i == 0 then Failed else Partial
  }

  function StartOf(s: PlanStep, i: nat): PlanEvent { StepStart(i, s.id, s.tool) }

  function EndOf(r: StepResult): PlanEvent { StepComplete(r.index, r.id, r.tool, r.error) }

  /** A start and an end event for each result, in order. */
  function StepLog(steps: seq<PlanStep>, results: seq<StepResult>): (log: seq<PlanEvent>)
    requires |results| <= |steps|
    ensures |log| == 2 * |results|
  {
    if results == [] then [] else
      var n := |results| - 1;
      StepLog(steps, results[..n]) + [StartOf(steps[n], n), EndOf(results[n])]
  }

  function PlanLog(steps: seq<PlanStep>, r: PlanResult): seq<PlanEvent>
    requires |r.steps| <= |steps|
  {
    StepLog(steps, r.steps) + [DoneEvent(r)]
  }

  function StatusForHalt(i: nat): PlanStatus { if i == 0 then Failed else Partial }

  // ---------- running ----------

  /** Reference collection and substitution give the bound parameters. */
  method BindParams(s: PlanStep, outputs: map<string, Json>) returns (bound: Option<Json>)
    ensures bound == Bound(s, outputs)
  {
    var params := ParamsJson(s);
    if params.None? { return None; }
    var j := params.value;
    var ok, refs; ghost var paths;
    ok, refs, paths := FindRefs(j);
    if !ok { return None; }
    ResolveParamsIsSubst(j, refs, paths, outputs);
    RefsResolveListed(j, refs, paths, outputs);
    if |refs| > 0 {
      bound := ResolveParams(j, refs, outputs);
    } else {
      bound := params;
    }
  }

  lemma RefsResolveListed(j: Json, refs: seq<FoundRef>, paths: seq<Path>, outputs: map<string, Json>)
    requires Lists(j, [], refs, paths)
    ensures AllResolve(refs, outputs) <==> AllRefsResolve(j, outputs)
  {
    if AllResolve(refs, outputs) {
      forall p | RefAt(j, p).Some? ensures ResolveRef(RefAt(j, p).value, outputs).Some? {
        var h :| 0 <= h < |paths| && paths[h] == p;
        assert IsListed(j, [], refs[h], paths[h]);
      }
    }
    if AllRefsResolve(j, outputs) {
      forall h | 0 <= h < |refs| ensures ResolveRef(refs[h].ref, outputs).Some? {
        assert IsListed(j, [], refs[h], paths[h]);
      }
    }
  }

  function Halted(steps: seq<PlanStep>, results: seq<StepResult>, failed: StepResult): PlanResult {
    PlanResult(results + [failed], |results|, |steps|, StatusForHalt(|results|), Some(|results|), failed.error)
  }

  function Finished(steps: seq<PlanStep>, results: seq<StepResult>): PlanResult {
    PlanResult(results, |steps|, |steps|, Complete, None, None)
  }

  /** The steps so far all succeeded and left these outputs. */
  ghost predicate Progress(steps: seq<PlanStep>, reg: Registry, handlers: Handlers, results: seq<StepResult>,
                           outputs: map<string, Json>) {
    FollowsSteps(steps, reg, handlers, results) && AllSucceeded(results) && outputs == OutputsOf(results)
  }

  lemma FollowsSnoc(steps: seq<PlanStep>, reg: Registry, handlers: Handlers, results: seq<StepResult>, r: StepResult)
    requires FollowsSteps(steps, reg, handlers, results) && |results| < |steps|
    requires r == StepOutcome(steps[|results|], |results|, OutputsOf(results), reg, handlers)
    ensures FollowsSteps(steps, reg, handlers, results + [r])
  {
    var next := results + [r];
    assert next[..|results|] == results;
    forall k | 0 <= k < |next| ensures IsOutcome(steps, reg, handlers, next, k) {
      if k < |results| {
        assert IsOutcome(steps, reg, handlers, results, k);
        assert next[..k] == results[..k];
      }
    }
  }

  lemma ProgressSnoc(steps: seq<PlanStep>, reg: Registry, handlers: Handlers, results: seq<StepResult>,
                     outputs: map<string, Json>, r: StepResult)
    requires Progress(steps, reg, handlers, results, outputs) && |results| < |steps| && Succeeded(r)
    requires r == StepOutcome(steps[|results|], |results|, outputs, reg, handlers)
    ensures Progress(steps, reg, handlers, results + [r], outputs[r.id := r.result.value])
  {
    FollowsSnoc(steps, reg, handlers, results, r);
    assert (results + [r])[..|results|] == results;
  }

  lemma LogSnoc(steps: seq<PlanStep>, results: seq<StepResult>, r: StepResult)
    requires |results| < |steps|
    ensures StepLog(steps, results + [r]) == StepLog(steps, results) + [StartOf(steps[|results|], |results|), EndOf(r)]
  {
    assert (results + [r])[..|results|] == results;
  }

  lemma HaltShape(steps: seq<PlanStep>, reg: Registry, handlers: Handlers, results: seq<StepResult>,
                  outputs: map<string, Json>, failed: StepResult)
    requires Progress(steps, reg, handlers, results, outputs) && |results| < |steps| && failed.error.Some?
    requires failed == StepOutcome(steps[|results|], |results|, outputs, reg, handlers)
    ensures ResultShape(steps, Halted(steps, results, failed))
    ensures FollowsSteps(steps, reg, handlers, results + [failed])
  {
    FollowsSnoc(steps, reg, handlers, results, failed);
    assert (results + [failed])[..|results|] == results;
  }

  /** One step: bind the parameters, then call the tool. */
  method RunStep(s: PlanStep, i: nat, outputs: map<string, Json>, reg: Registry, handlers: Handlers)
    returns (r: StepResult)
    ensures r == StepOutcome(s, i, outputs, reg, handlers)
    ensures r.id == s.id && r.index == i && (r.error.Some? || Succeeded(r))
  {
    var params := BindParams(s, outputs);
    if params.None? { return RefFailure(s, i); }
    r := CallResult(s, i, Call(reg, handlers, i, s.tool, params.value));
  }

  /** The store operations of a run of the plan. */
  ghost function StepOps(id: string, log: seq<PlanEvent>): seq<Op> {
    if log == [] then [] else StepOps(id, log[..|log| - 1]) + [Op.Publish(id, log[|log| - 1])]
  }

  ghost function PlanOps(id: string, steps: seq<PlanStep>, r: PlanResult, now: int): seq<Op>
    requires |r.steps| <= |steps|
  {
    StepOps(id, StepLog(steps, r.steps)) + [Finish(id, r, now)]
  }

  lemma RunSnoc(s: Store, ops: seq<Op>, op: Op)
    ensures Run(s, ops + [op]) == Apply(Run(s, ops), op)
  {
    assert (ops + [op])[..|ops|] == ops;
  }

  lemma StepOpsSnoc(s: Store, id: string, log: seq<PlanEvent>, e: PlanEvent)
    ensures Run(s, StepOps(id, log + [e])) == Published(Run(s, StepOps(id, log)), id, e)
  {
    assert (log + [e])[..|log|] == log;
    RunSnoc(s, StepOps(id, log), Op.Publish(id, e));
  }

  /** executePlanWithProgress and haltPlan: the result, and exactly the events sent to the store. */
  method Execute(store: PlanStore, id: string, steps: seq<PlanStep>, reg: Registry, handlers: Handlers, now: int)
    returns (r: PlanResult)
    requires store.Valid()
    modifies store
    ensures store.Valid()
    ensures FollowsSteps(steps, reg, handlers, r.steps) && ResultShape(steps, r)
    ensures store.State() == Run(old(store.State()), PlanOps(id, steps, r, now))
  {
    var outputs: map<string, Json> := map[];
    var results: seq<StepResult> := [];
    ghost var before, log := store.State(), [];
    for i := 0 to |steps|
      invariant store.Valid() && store.State() == Run(before, StepOps(id, log))
      invariant |results| == i && Progress(steps, reg, handlers, results, outputs)
      invariant log == StepLog(steps, results)
    {
      store.Publish(id, StartOf(steps[i], i));
      var result := RunStep(steps[i], i, outputs, reg, handlers);
      store.Publish(id, EndOf(result));
      log := Logged(before, id, steps, results, result, log);
      if result.error.Some? {
        HaltShape(steps, reg, handlers, results, outputs, result);
        r := Halted(steps, results, result);
        RunSnoc(before, StepOps(id, log), Finish(id, r, now));
        store.Complete(id, r, now);
        return;
      }
      ProgressSnoc(steps, reg, handlers, results, outputs, result);
      results, outputs := results + [result], outputs[result.id := result.result.value];
    }
    r := Finished(steps, results);
    RunSnoc(before, StepOps(id, log), Finish(id, r, now));
    store.Complete(id, r, now);
  }

  lemma Logged(s: Store, id: string, steps: seq<PlanStep>, results: seq<StepResult>, r: StepResult, log: seq<PlanEvent>)
    returns (next: seq<PlanEvent>)
    requires |results| < |steps| && log == StepLog(steps, results)
    ensures next == StepLog(steps, results + [r])
    ensures Run(s, StepOps(id, next))
            == Published(Published(Run(s, StepOps(id, log)), id, StartOf(steps[|results|], |results|)), id, EndOf(r))
  {
    var start, end := StartOf(steps[|results|], |results|), EndOf(r);
    LogSnoc(steps, results, r);
    StepOpsSnoc(s, id, log, start);
    StepOpsSnoc(s, id, log + [start], end);
    next := log + [start] + [end];
    assert next == log + [start, end];
  }

  lemma {:induction false} SentByStepOps(id: string, log: seq<PlanEvent>)
    ensures Sent(StepOps(id, log), id) == log
  {
    if log != [] {
      var init := log[..|log| - 1];
      SentByStepOps(id, init);
      assert StepOps(id, log)[..|StepOps(id, log)| - 1] == StepOps(id, init);
      assert log == init + [log[|log| - 1]];
    }
  }

  /** What a run sends is its log: a start and an end for each step reached, then done. */
  lemma SentByPlan(id: string, steps: seq<PlanStep>, r: PlanResult, now: int)
    requires |r.steps| <= |steps|
    ensures Sent(PlanOps(id, steps, r, now), id) == PlanLog(steps, r)
  {
    var ops := StepOps(id, StepLog(steps, r.steps));
    SentByStepOps(id, StepLog(steps, r.steps));
    SentSnoc(ops, Finish(id, r, now), id);
  }

  lemma SentSnoc(ops: seq<Op>, op: Op, id: string)
    requires op.Finish? && op.id == id
    ensures Sent(ops + [op], id) == Sent(ops, id) + [DoneEvent(op.result)]
  {
    assert (ops + [op])[..|ops|] == ops;
  }

  // ---------- outcomes of a step ----------

  /** A step whose parameters cannot be bound fails to resolve; otherwise it has the result or the error of its tool's
      handler, called with the bound parameters, or is told that there is no such tool. */
  lemma StepOutcomes(s: PlanStep, i: nat, outputs: map<string, Json>, reg: Registry, handlers: Handlers)
    ensures var r := StepOutcome(s, i, outputs, reg, handlers);
      && r.id == s.id && r.index == i && r.tool == s.tool
      && match Bound(s, outputs)
         case None => r.result == None && r.error == Some(RefResolveFailed)
         case Some(params) =>
           if s.tool !in reg then r.result == None && r.error == Some(ToolError("NOT_FOUND", false))
           else match handlers(i, s.tool, params)
             case Returned(j) => r.result == Some(j) && r.error == None
             case Raised(code, retryable) => r.result == None && r.error == Some(ToolError(code, retryable))
  {
  }

  /** Absent parameters are bound to the empty object; malformed ones never are. */
  lemma BoundCorners(s: PlanStep, outputs: map<string, Json>)
    ensures s.params == NoParams ==> Bound(s, outputs) == Some(JObject(map[]))
    ensures s.params == Malformed ==> Bound(s, outputs) == None
  {
    if s.params == NoParams {
      var j := JObject(map[]);
      forall p ensures RefAt(j, p).None? { if p != [] { assert !HasChild(j, p[0]); } }
      assert Subst(j, outputs).fields == map[];
    }
  }

  // ---------- what acceptance buys ----------

  lemma {:induction false} OutputsHold(steps: seq<PlanStep>, results: seq<StepResult>, h: nat)
    requires IdsDistinct(steps) && |results| <= |steps| && h < |results| && AllSucceeded(results)
    requires forall k :: 0 <= k < |results| ==> results[k].id == steps[k].id
    ensures steps[h].id in OutputsOf(results) && OutputsOf(results)[steps[h].id] == results[h].result.value
  {
    var n := |results| - 1;
    assert Succeeded(results[n]) && results[n].id == steps[n].id;
    if h < n {
      var init := results[..n];
      assert forall k :: 0 <= k < n ==> init[k] == results[k];
      assert AllSucceeded(init) by {
        forall k | 0 <= k < n ensures Succeeded(init[k]) { assert Succeeded(results[k]); }
      }
      OutputsHold(steps, init, h);
    }
  }

  /** The results before a given one all succeeded. */
  lemma EarlierSucceeded(steps: seq<PlanStep>, reg: Registry, handlers: Handlers, r: PlanResult, k: nat)
    requires FollowsSteps(steps, reg, handlers, r.steps) && ResultShape(steps, r) && k < |r.steps|
    ensures AllSucceeded(r.steps[..k])
    ensures forall h :: 0 <= h < k ==> r.steps[..k][h] == r.steps[h] && r.steps[h].id == steps[h].id
  {
    if r.haltedAt.Some? {
      forall h | 0 <= h < k ensures Succeeded(r.steps[..k][h]) { assert Succeeded(r.steps[..r.haltedAt.value][h]); }
    }
    forall h | 0 <= h < k ensures r.steps[h].id == steps[h].id {
      assert IsOutcome(steps, reg, handlers, r.steps, h);
    }
  }

  /** In an accepted plan, every reference of an executed step finds the output of the earlier step it names. */
  lemma ReferencedStepPresent(steps: seq<PlanStep>, reg: Registry, handlers: Handlers, r: PlanResult, k: nat, p: Path)
    requires Accepted(steps, reg) && FollowsSteps(steps, reg, handlers, r.steps) && ResultShape(steps, r)
    requires k < |r.steps|
    requires ParamsJson(steps[k]).Some? && RefAt(ParamsJson(steps[k]).value, p).Some?
    ensures RefAt(ParamsJson(steps[k]).value, p).value.stepId in OutputsOf(r.steps[..k])
    ensures exists h :: 0 <= h < k && steps[h].id == RefAt(ParamsJson(steps[k]).value, p).value.stepId
              && Succeeded(r.steps[h])
              && OutputsOf(r.steps[..k])[steps[h].id] == r.steps[h].result.value
  {
    var ref := RefAt(ParamsJson(steps[k]).value, p).value;
    assert StepAccepted(steps, reg, k);
    var h :| 0 <= h < k && IsTarget(steps, reg, h, ref);
    EarlierSucceeded(steps, reg, handlers, r, k);
    assert Succeeded(r.steps[..k][h]);
    OutputsHold(steps, r.steps[..k], h);
  }

  /** The path of some reference of the step leads nowhere in the output it names. */
  ghost predicate HasDeadPath(s: PlanStep, outputs: map<string, Json>) {
    ParamsJson(s).Some? && exists p :: IsDeadPath(ParamsJson(s).value, p, outputs)
  }

  ghost predicate IsDeadPath(j: Json, p: Path, outputs: map<string, Json>) {
    && RefAt(j, p).Some? && RefAt(j, p).value.stepId in outputs && RefAt(j, p).value.path != []
    && WalkJson(outputs[RefAt(j, p).value.stepId], RefAt(j, p).value.path).None?
  }

  /** So in an accepted plan a reference fails only because its path is absent from, or null in, an output that exists;
      never because a step or a tool is missing or the parameters are malformed. */
  lemma OnlyDeadPathsFail(steps: seq<PlanStep>, reg: Registry, handlers: Handlers, r: PlanResult, k: nat)
    requires Accepted(steps, reg) && FollowsSteps(steps, reg, handlers, r.steps) && ResultShape(steps, r)
    requires k < |r.steps|
    ensures r.steps[k].error == Some(RefResolveFailed) <==> HasDeadPath(steps[k], OutputsOf(r.steps[..k]))
    ensures r.steps[k].error.Some? && r.steps[k].error.value.ToolError? ==>
      var e := r.steps[k].error.value;
      exists params :: handlers(k, steps[k].tool, params) == Raised(e.code, e.retryable)
  {
    var outputs := OutputsOf(r.steps[..k]);
    assert StepAccepted(steps, reg, k) && Named(steps[k], reg);
    var j := ParamsJson(steps[k]).value;
    assert IsOutcome(steps, reg, handlers, r.steps, k);
    forall p | RefAt(j, p).Some? ensures ResolveRef(RefAt(j, p).value, outputs).None? <==> IsDeadPath(j, p, outputs) {
      ReferencedStepPresent(steps, reg, handlers, r, k, p);
    }
  }

  // ---------- the log while the plan is stored ----------

  lemma {:induction false} StepLogAt(steps: seq<PlanStep>, results: seq<StepResult>, k: nat)
    requires |results| <= |steps| && k < |results|
    ensures StepLog(steps, results)[2 * k] == StartOf(steps[k], k)
    ensures StepLog(steps, results)[2 * k + 1] == EndOf(results[k])
  {
    var n := |results| - 1;
    if k < n {
      StepLogAt(steps, results[..n], k);
    }
  }

  /** A log of an accepted plan fits: two events for each step reached, then done. */
  lemma PlanLogFits(steps: seq<PlanStep>, reg: Registry, r: PlanResult)
    requires Accepted(steps, reg) && ResultShape(steps, r)
    ensures |r.steps| <= |steps|
    ensures |PlanLog(steps, r)| == 2 * |r.steps| + 1 <= 2 * |steps| + 1 <= MAX_LOG
    ensures PlanLog(steps, r)[2 * |r.steps|] == Done(r.status, r.completed, |steps|, r.haltedAt)
    ensures forall k :: 0 <= k < |r.steps| ==>
      PlanLog(steps, r)[2 * k] == StepStart(k, steps[k].id, steps[k].tool)
      && var x := r.steps[k]; PlanLog(steps, r)[2 * k + 1] == StepComplete(x.index, x.id, x.tool, x.error)
    ensures r.haltedAt.None? ==> |PlanLog(steps, r)| == 2 * |steps| + 1
    ensures r.haltedAt.Some? ==> |PlanLog(steps, r)| == 2 * (r.haltedAt.value + 1) + 1
  {
    forall k | 0 <= k < |r.steps|
      ensures PlanLog(steps, r)[2 * k] == StartOf(steps[k], k) && PlanLog(steps, r)[2 * k + 1] == EndOf(r.steps[k])
    {
      StepLogAt(steps, r.steps, k);
    }
  }

  /** In every run of the store that the plan is still in, whatever other plans do, its log is complete. */
  lemma StoredLogComplete(steps: seq<PlanStep>, reg: Registry, r: PlanResult, s: Store, ops: seq<Op>, id: string)
    requires Accepted(steps, reg) && ResultShape(steps, r) && |r.steps| <= |steps|
    requires ValidStore(s) && id in s.entries && s.entries[id].events == []
    requires FreshIds(s, ops) && NeverCreated(ops, id) && Sent(ops, id) == PlanLog(steps, r)
    requires id in Run(s, ops).entries
    ensures Run(s, ops).entries[id].events == PlanLog(steps, r)
  {
    LogIsSent(s, ops, id);
    PlanLogFits(steps, reg, r);
  }
}
