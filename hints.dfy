/** The requests that reach a hint processor: compiled hints, the payload
    that carries them, the errors a hint may end with, and the bundles of
    arguments for execution and compilation. */
module Hints {
  import opened Felts
  import opened VmMemory

  /** The Starknet hints. Only `Cheatcode` is inspected here; a system call
      is carried opaquely. */
  datatype StarknetHint =
    | Cheatcode(selector: int, inputStart: ResOperand, inputEnd: ResOperand,
                outputStart: CellRef, outputEnd: CellRef)
    | SystemCall(system: ResOperand)

  /** A compiled CASM hint; the core hints are opaque at this layer. */
  datatype Hint = Core(code: nat) | Starknet(starknet: StarknetHint)

  /** The `Box<dyn Any>` payload handed to `execute_hint`: either a `Hint`,
      or a value of some other type that does not downcast to one. */
  datatype HintData = CasmHint(hint: Hint) | OtherPayload(typeTag: nat)

  datatype HintError =
    | CustomHint(message: string)
    | Internal(vmError: VmError)

  /** Named values that live across hint invocations. */
  type ExecScopes = seq<map<string, Felt>>

  /** The arguments of one `execute_hint` call. */
  datatype ExecuteHintRequest = ExecuteHintRequest(
    vm: Vm, scopes: ExecScopes, hintData: HintData, constants: map<string, Felt>)

  /** The arguments of one `compile_hint` call; position tracking and the
      structured references are carried as opaque numbers. */
  datatype CompileRequest = CompileRequest(
    code: string, apTracking: nat, referenceIds: map<string, nat>, references: seq<nat>)

  datatype CompileError = CompileError(reason: string)

  predicate IsCheatcode(data: HintData) {
    data.CasmHint? && data.hint.Starknet? && data.hint.starknet.Cheatcode?
  }
}
