/** The contract-execution cheatcode link: the layer of the hint-processor
    chain that is active while contract code runs. It answers a `Cheatcode`
    hint itself (only `print` is allowed there) and hands everything else,
    compilation and the resource tracker included, to the link it wraps. */
module ContractExecution {
  import opened Wrappers
  import opened Felts
  import opened BigEndian
  import opened Utf8
  import opened VmMemory
  import opened Hints
  import opened Diagnostics
  import opened InnerChain

  const READ_FAILURE: string := "Failed to read input data"
  const ONLY_PRINT: string := "Only `print` cheatcode is available in contracts."

  /** The selector value whose big-endian bytes spell `print`. */
  const PRINT_SELECTOR: nat := 0x7072696e74

  /** `extract_input`: resolves both ends of the argument range (a failure to
      resolve either is passed on as it is, the start first) and reads the
      field elements between them; a failed read becomes the one message
      READ_FAILURE. */
  function ExtractInput(vm: Vm, inputStart: ResOperand, inputEnd: ResOperand): (r: Result<seq<Felt>, HintError>)
    ensures ExtractRelocatable(vm, inputStart).Failure? ==>
      r == Failure(Internal(ExtractRelocatable(vm, inputStart).error))
    ensures ExtractRelocatable(vm, inputStart).Success? && ExtractRelocatable(vm, inputEnd).Failure? ==>
      r == Failure(Internal(ExtractRelocatable(vm, inputEnd).error))
    ensures ExtractRelocatable(vm, inputStart).Success? && ExtractRelocatable(vm, inputEnd).Success? ==>
      var start, end := ExtractRelocatable(vm, inputStart).value, ExtractRelocatable(vm, inputEnd).value;
      (r.Success? <==> start.segment == end.segment && start.offset <= end.offset &&
                       forall k :: start.offset <= k < end.offset ==> IntegerAt(vm.memory, Relocatable(start.segment, k))) &&
      (r.Failure? ==> r.error == CustomHint(READ_FAILURE)) &&
      (r.Success? ==> |r.value| == end.offset - start.offset &&
                      forall i :: 0 <= i < |r.value| ==>
                        vm.memory[Relocatable(start.segment, start.offset + i)] == Int(r.value[i]))
  {
    match ExtractRelocatable(vm, inputStart)
    case Failure(err) => Failure(Internal(err))
    case Success(start) =>
      match ExtractRelocatable(vm, inputEnd)
      case Failure(err) => Failure(Internal(err))
      case Success(end) =>
        match ReadRange(vm.memory, start, end)
        case None => Failure(CustomHint(READ_FAILURE))
        case Some(values) => Success(values)
  }

  /** The selector's text: its big-endian magnitude bytes read as UTF-8,
      or None when they are not UTF-8 (where the source's `unwrap` panics). */
  function SelectorText(selector: int): (r: Option<string>)
    ensures r.Some? ==> Encode(r.value) == ToBytesBe(selector)
  {
    Decode(ToBytesBe(selector))
  }

  /** The source's `unwrap` panics exactly on the selectors whose bytes
      encode no text. */
  lemma SelectorPanicsExactly(selector: int)
    ensures SelectorText(selector).None? <==> forall s :: Encode(s) != ToBytesBe(selector)
  {
    if SelectorText(selector).None? {
      RefusedIsNoEncoding(ToBytesBe(selector));
    } else {
      var text := SelectorText(selector).value;
      assert Encode(text) == ToBytesBe(selector);
    }
  }

  /** The selector reads as `print` exactly when its magnitude is the
      number whose big-endian bytes are the ASCII codes of `print`. */
  lemma SelectorIsPrint(selector: int)
    ensures SelectorText(selector) == Some("print") <==> Magnitude(selector) == PRINT_SELECTOR
  {
    var printBytes := AsciiBytes("print");
    assert printBytes == [0x70, 0x72, 0x69, 0x6e, 0x74];
    DecodeAscii(ToBytesBe(selector), "print");
    CanonicalBytes(printBytes);
    assert FromBytesBe(printBytes) == PRINT_SELECTOR by {
      assert FromBytesBe([0x70]) == 0x70 by { assert [0x70][..0] == []; }
      assert FromBytesBe([0x70, 0x72]) == 0x7072 by { assert [0x70, 0x72][..1] == [0x70]; }
      assert FromBytesBe([0x70, 0x72, 0x69]) == 0x707269 by { assert [0x70, 0x72, 0x69][..2] == [0x70, 0x72]; }
      assert FromBytesBe([0x70, 0x72, 0x69, 0x6e]) == 0x7072696e by {
        assert [0x70, 0x72, 0x69, 0x6e][..3] == [0x70, 0x72, 0x69];
      }
      assert printBytes[..4] == [0x70, 0x72, 0x69, 0x6e];
    }
    BytesDetermineMagnitude(selector, PRINT_SELECTOR);
  }

  /** What the link makes of an execution request: it declines (the request
      goes on to the child), it answers with a result, or the process
      panics on a selector that is not UTF-8. */
  datatype Interception = Declined | Handled(result: Result<(), HintError>) | Panicked

  /** An interception and the diagnostic lines it printed, in order. */
  datatype Effect = Effect(outcome: Interception, printed: seq<string>)

  /** The specification of `intercept_execute_hint`. The steps run in the
      source's order: the shape test, the selector's decoding, the read of
      the inputs, then the dispatch on the selector. */
  function Intercept(vm: Vm, data: HintData, shortString: Felt -> Option<string>): (e: Effect)
    ensures e.outcome.Declined? <==> !IsCheatcode(data)
    ensures !IsCheatcode(data) ==> e == Effect(Declined, [])
    ensures e.outcome.Panicked? <==> IsCheatcode(data) && SelectorText(data.hint.starknet.selector).None?
    ensures e.outcome.Panicked? ==> e.printed == []
    ensures e.printed != [] ==> e.outcome == Handled(Success(()))
    ensures IsCheatcode(data) && SelectorText(data.hint.starknet.selector).Some? ==>
      var hint := data.hint.starknet;
      var input := ExtractInput(vm, hint.inputStart, hint.inputEnd);
      (input.Failure? ==> e == Effect(Handled(Failure(input.error)), [])) &&
      (input.Success? && Magnitude(hint.selector) == PRINT_SELECTOR ==>
         e == Effect(Handled(Success(())), PrintLines(input.value, shortString))) &&
      (input.Success? && Magnitude(hint.selector) != PRINT_SELECTOR ==>
         e == Effect(Handled(Failure(CustomHint(ONLY_PRINT))), []))
  {
    if !IsCheatcode(data) then Effect(Declined, [])
    else
      var hint := data.hint.starknet;
      SelectorIsPrint(hint.selector);
      match SelectorText(hint.selector)
      case None => Effect(Panicked, [])
      case Some(selector) =>
        match ExtractInput(vm, hint.inputStart, hint.inputEnd)
        case Failure(err) => Effect(Handled(Failure(err)), [])
        case Success(inputs) =>
          if selector == "print" then Effect(Handled(Success(())), PrintLines(inputs, shortString))
          else Effect(Handled(Failure(CustomHint(ONLY_PRINT))), [])
  }

  /** How an `execute_hint` call ends: with a result, or in a panic. */
  datatype Run = Returned(result: Result<(), HintError>) | Aborted

  class ContractExecutionSyscallHandler {
    /** The link this one wraps; it owns it for its whole life. */
    const child: ChildHandler

    /** `wrap`: the new link holds exactly the given child. */
    constructor Wrap(child: ChildHandler)
      ensures this.child == child
    {
      this.child := child;
    }

    /** `get_child`: this link always has a child, the one it wraps. */
    function GetChild(): (r: Option<ChildHandler>)
      ensures r.Some? && r.value == child
    {
      Some(child)
    }

    /** `get_child_mut`: the same child, for a request that may change it. */
    function GetChildMut(): (r: Option<ChildHandler>)
      ensures r.Some? && r.value == child
    {
      Some(child)
    }

    /** `intercept_execute_hint`, with the printed lines returned in place
        of the writes to standard output. */
    method InterceptExecuteHint(request: ExecuteHintRequest, shortString: Felt -> Option<string>)
      returns (outcome: Interception, printed: seq<string>)
      ensures Effect(outcome, printed) == Intercept(request.vm, request.hintData, shortString)
    {
      if !IsCheatcode(request.hintData) {
        return Declined, [];
      }
      var hint := request.hintData.hint.starknet;
      var selector := SelectorText(hint.selector);
      if selector.None? {
        return Panicked, [];
      }
      var input := ExtractInput(request.vm, hint.inputStart, hint.inputEnd);
      if input.Failure? {
        return Handled(Failure(input.error)), [];
      }
      var inputs := input.value;
      if selector.value == "print" {
        printed := [];
        for i := 0 to |inputs|
          invariant printed == PrintLines(inputs[..i], shortString)
        {
          var value := inputs[i];
          assert inputs[..i + 1][..i] == inputs[..i];
          printed := printed + [FormatLine(value, shortString(value))];
        }
        assert inputs[..|inputs|] == inputs;
        outcome := Handled(Success(()));
      } else {
        outcome, printed := Handled(Failure(CustomHint(ONLY_PRINT))), [];
      }
    }

    /** `execute_hint`: the link's own interception is asked first; a
        definitive answer ends the request, and a declined request goes,
        unchanged, to the child. */
    method ExecuteHint(request: ExecuteHintRequest, shortString: Felt -> Option<string>)
      returns (run: Run, printed: seq<string>)
      modifies child`received
      ensures var e := Intercept(request.vm, request.hintData, shortString);
        match e.outcome
        case Declined =>
          run == Returned(child.respond(request)) && printed == [] &&
          child.received == old(child.received) + [request]
        case Handled(result) =>
          run == Returned(result) && printed == e.printed && child.received == old(child.received)
        case Panicked =>
          run == Aborted && printed == [] && child.received == old(child.received)
    {
      var outcome;
      outcome, printed := InterceptExecuteHint(request, shortString);
      match outcome
      case Declined =>
        var result := child.ExecuteHint(request);
        run := Returned(result);
      case Handled(result) =>
        run := Returned(result);
      case Panicked =>
        run := Aborted;
    }

    /** `compile_hint`: compiled by the chain below, unchanged. */
    function CompileHint(request: CompileRequest): (r: Result<HintData, CompileError>)
      ensures r == child.CompileHint(request)
    {
      child.CompileHint(request)
    }

    /** `consumed`: the child's answer, which holds exactly when no step is left. */
    function Consumed(): (r: bool)
      reads child
      ensures r == child.Consumed()
      ensures r <==> GetNSteps() == Some(0)
    {
      child.Consumed()
    }

    /** `consume_step`: exactly one step is taken from the child's budget,
        and nothing else changes. A bounded count drops by one, never below
        zero, and an exhausted budget stays exhausted. */
    method ConsumeStep()
      modifies child`resources
      ensures child.resources == old(child.resources).AfterStep()
      ensures old(GetNSteps()).None? ==> GetNSteps().None?
      ensures old(GetNSteps()).Some? ==>
        GetNSteps() == Some(if old(GetNSteps()).value == 0 then 0 else old(GetNSteps()).value - 1)
      ensures old(Consumed()) ==> Consumed()
    {
      child.ConsumeStep();
    }

    /** `get_n_steps`: the child's answer. */
    function GetNSteps(): (r: Option<nat>)
      reads child
      ensures r == child.GetNSteps()
    {
      child.GetNSteps()
    }

    /** `run_resources`: the child's budget, whose step count is the one
        `GetNSteps` reports. */
    function GetRunResources(): (r: RunResources)
      reads child
      ensures r == child.GetRunResources()
      ensures r.nSteps == GetNSteps() && (r.Consumed() <==> Consumed())
    {
      child.GetRunResources()
    }
  }
}
