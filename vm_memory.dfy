/** The part of the VM that the handler reads: registers, a memory of
    relocatable cells, the resolution of a buffer operand to an address, and
    the read of a contiguous run of field elements. */
module VmMemory {
  import opened Wrappers
  import opened Felts

  /** An address: a segment and an offset inside it. */
  datatype Relocatable = Relocatable(segment: int, offset: nat)

  /** A memory cell holds either a field element or an address. */
  datatype MaybeRelocatable = Int(value: Felt) | Ptr(address: Relocatable)

  type Memory = map<Relocatable, MaybeRelocatable>

  datatype Register = AP | FP

  /** `[ap + k]` or `[fp + k]`. */
  datatype CellRef = CellRef(register: Register, offset: int)

  /** The two shapes a buffer operand takes: `[cell]`, and `[cell] + imm`. */
  datatype ResOperand = Deref(cell: CellRef) | AddImmediate(base: CellRef, immediate: int)

  datatype Vm = Vm(ap: Relocatable, fp: Relocatable, memory: Memory)

  datatype VmError =
    | OffsetOutOfRange
    | UnknownMemoryCell(at: Relocatable)
    | ExpectedRelocatable(at: Relocatable)

  function Shift(a: Relocatable, delta: int): (r: Result<Relocatable, VmError>)
    ensures r.Success? <==> a.offset + delta >= 0
    ensures r.Success? ==> r.value.segment == a.segment && r.value.offset == a.offset + delta
  {
    if a.offset + delta < 0 then Failure(OffsetOutOfRange)
    else Success(Relocatable(a.segment, a.offset + delta))
  }

  /** The address that a cell reference names. */
  function CellAddress(vm: Vm, cell: CellRef): Result<Relocatable, VmError> {
    Shift(if cell.register == AP then vm.ap else vm.fp, cell.offset)
  }

  /** The pointer stored in a cell. */
  function PointerAt(vm: Vm, at: Relocatable): (r: Result<Relocatable, VmError>)
    ensures r.Success? <==> at in vm.memory && vm.memory[at].Ptr?
    ensures r.Success? ==> r.value == vm.memory[at].address
  {
    if at !in vm.memory then Failure(UnknownMemoryCell(at))
    else if vm.memory[at].Int? then Failure(ExpectedRelocatable(at))
    else Success(vm.memory[at].address)
  }

  /** `extract_relocatable`: the address that a buffer operand evaluates to.
      It succeeds exactly when the operand's cell holds a pointer and the
      immediate keeps the offset in range. */
  function ExtractRelocatable(vm: Vm, operand: ResOperand): (r: Result<Relocatable, VmError>)
    ensures
      var cell := CellAddress(vm, if operand.Deref? then operand.cell else operand.base);
      var shift := if operand.Deref? then 0 else operand.immediate;
      (r.Success? <==>
         cell.Success? && PointerAt(vm, cell.value).Success? &&
         PointerAt(vm, cell.value).value.offset + shift >= 0) &&
      (r.Success? ==>
         r.value.segment == PointerAt(vm, cell.value).value.segment &&
         r.value.offset == PointerAt(vm, cell.value).value.offset + shift)
  {
    match operand
    case Deref(cell) =>
      var at :- CellAddress(vm, cell);
      PointerAt(vm, at)
    case AddImmediate(base, immediate) =>
      var at :- CellAddress(vm, base);
      var p :- PointerAt(vm, at);
      Shift(p, immediate)
  }

  predicate IntegerAt(memory: Memory, at: Relocatable) {
    at in memory && memory[at].Int?
  }

  /** The field elements in cells `first`, `first + 1`, ..., `limit - 1` of a segment. */
  function ReadCells(memory: Memory, segment: int, first: nat, limit: nat): (r: Option<seq<Felt>>)
    requires first <= limit
    ensures r.Some? <==> forall k :: first <= k < limit ==> IntegerAt(memory, Relocatable(segment, k))
    ensures r.Some? ==> |r.value| == limit - first
    ensures r.Some? ==>
      (forall i :: 0 <= i < |r.value| ==> memory[Relocatable(segment, first + i)] == Int(r.value[i]))
    decreases limit - first
  {
    if first == limit then Some([])
    else
      var at := Relocatable(segment, first);
      if !IntegerAt(memory, at) then None
      else
        match ReadCells(memory, segment, first + 1, limit)
        case None => None
        case Some(rest) => Some([memory[at].value] + rest)
  }

  /** `vm_get_range`: the values from `start` up to, not including, `end`.
      The library steps from `start` one cell at a time until it meets
      `end`; when `end` lies in another segment or before `start` it never
      meets it, and since memory is finite the walk ends at a cell it cannot
      read. Either way the read fails. */
  function ReadRange(memory: Memory, start: Relocatable, end: Relocatable): (r: Option<seq<Felt>>)
    ensures r.Some? <==>
      start.segment == end.segment && start.offset <= end.offset &&
      forall k :: start.offset <= k < end.offset ==> IntegerAt(memory, Relocatable(start.segment, k))
    ensures r.Some? ==> |r.value| == end.offset - start.offset
    ensures r.Some? ==> forall i :: 0 <= i < |r.value| ==>
      memory[Relocatable(start.segment, start.offset + i)] == Int(r.value[i])
  {
    if start.segment != end.segment || start.offset > end.offset then None
    else ReadCells(memory, start.segment, start.offset, end.offset)
  }
}
