/** The chain below the contract-execution link. The link's child is the
    cheatable syscall handler, which is not part of this model; it is stood
    in for by a link that owns the run-resources budget, records every
    execution request that reaches it, and answers execution and compilation
    requests through functions fixed when the chain is assembled. */
module InnerChain {
  import opened Wrappers
  import opened Hints

  /** The step budget: the number of steps still allowed, or None when the
      run is not bounded. It is exhausted when no step is left. */
  datatype RunResources = RunResources(nSteps: Option<nat>) {

    predicate Consumed() {
      nSteps == Some(0)
    }

    /** The budget after one step: one fewer step is left, never fewer than none. */
    function AfterStep(): RunResources {
      match nSteps
      case None => this
      case Some(n) => RunResources(Some(if n == 0 then 0 else n - 1))
    }

    /** The budget after `k` steps. */
    function AfterSteps(k: nat): RunResources
      decreases k
    {
      if k == 0 then this else AfterStep().AfterSteps(k - 1)
    }
  }

  /** Each step is counted: after `k` steps a bounded budget has lost exactly
      `k` steps (down to none) and is exhausted exactly when it allowed at
      most `k`; an unbounded one is never exhausted. */
  lemma {:induction false} StepsAreCounted(budget: RunResources, k: nat)
    ensures budget.nSteps.None? ==> budget.AfterSteps(k) == budget
    ensures budget.nSteps.Some? ==>
      budget.AfterSteps(k).nSteps == Some(if budget.nSteps.value <= k then 0 else budget.nSteps.value - k)
    ensures budget.AfterSteps(k).Consumed() <==> budget.nSteps.Some? && budget.nSteps.value <= k
    decreases k
  {
    if k > 0 {
      StepsAreCounted(budget.AfterStep(), k - 1);
    }
  }

  /** The link below the contract-execution link. */
  class ChildHandler {
    var resources: RunResources
    /** The execution requests forwarded to this link, oldest first. */
    var received: seq<ExecuteHintRequest>
    /** How the links below answer an execution request. */
    const respond: ExecuteHintRequest -> Result<(), HintError>
    /** How the links below compile a hint. */
    const compiler: CompileRequest -> Result<HintData, CompileError>

    constructor (resources: RunResources,
                 respond: ExecuteHintRequest -> Result<(), HintError>,
                 compiler: CompileRequest -> Result<HintData, CompileError>)
      ensures this.resources == resources && received == []
      ensures this.respond == respond && this.compiler == compiler
    {
      this.resources := resources;
      this.received := [];
      this.respond := respond;
      this.compiler := compiler;
    }

    method ExecuteHint(request: ExecuteHintRequest) returns (result: Result<(), HintError>)
      modifies this`received
      ensures received == old(received) + [request]
      ensures result == respond(request)
    {
      received := received + [request];
      result := respond(request);
    }

    function CompileHint(request: CompileRequest): Result<HintData, CompileError> {
      compiler(request)
    }

    predicate Consumed()
      reads this
    {
      resources.Consumed()
    }

    method ConsumeStep()
      modifies this`resources
      ensures resources == old(resources).AfterStep()
    {
      resources := resources.AfterStep();
    }

    function GetNSteps(): Option<nat>
      reads this
    {
      resources.nSteps
    }

    function GetRunResources(): RunResources
      reads this
    {
      resources
    }
  }
}
