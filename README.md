# Contract-execution cheatcode link, modelled in Dafny

This project models one link of the hint-processor chain of the cheatnet
test harness: `ContractExecutionSyscallHandler`. The link is active while
contract code runs. It inspects each hint the VM hands to the processor.
A `Cheatcode` hint is answered by the link itself. Only the `print`
cheatcode is allowed: it prints one diagnostic line per input value. Any
other selector is refused with a fixed message. Every other hint, every
compilation request and every resource-tracker query goes unchanged to the
link it wraps.

Files and modules:

- `wrappers.dfy` (`Wrappers`): `Option` and `Result`.
- `felts.dfy` (`Felts`): the field element type and the decimal text that its `Display` prints.
- `big_endian.dfy` (`BigEndian`): the magnitude bytes of `BigInt::to_bytes_be`, with the lemma that the encoding is canonical.
- `utf8.dfy` (`Utf8`): `std::str::from_utf8`, as the well-formed sequences of table 3-7 of the Unicode Standard, with an independent encoder it is proved to invert.
- `vm_memory.dfy` (`VmMemory`): registers, a memory map of cells, operand resolution (`extract_relocatable`) and the range read (`vm_get_range`).
- `hints.dfy` (`Hints`): hints, the opaque payload, `HintError`, the request bundles.
- `inner_chain.dfy` (`InnerChain`): a stand-in for the wrapped child link. It owns the step budget, records the execution requests that reach it, and answers through functions fixed at assembly.
- `diagnostics.dfy` (`Diagnostics`): the format of a printed line and a parser that reads it back.
- `contract_execution.dfy` (`ContractExecution`): `extract_input`, the selector's decoding, the specification `Intercept` of `intercept_execute_hint`, and the class `ContractExecutionSyscallHandler`.

How the model is built:

- The lines printed with `println!` are returned as a `seq<string>` (`printed`).
- `as_cairo_short_string` belongs to a library. It is a parameter `shortString: Felt -> Option<string>`, so every property holds whatever that function does.
- The `unwrap` of a selector that is not UTF-8 aborts the process. It is the distinct outcome `Panicked` of `Intercept` and `Aborted` of `ExecuteHint`, not a typed error. It happens before any memory is read.
- The VM is only read by this link, so it is passed as a value.

Behaviour of the code that is easy to miss:

- The selector's bytes are decoded as UTF-8 (`from_utf8`), not just ASCII. A selector such as the UTF-8 bytes of `é` is a refused cheatcode, not a panic.
- The refusal message is "Only `print` cheatcode is available in contracts.".
- A failure to resolve an operand is passed on as the VM's own error (`HintError::Internal`). Only a failed range read becomes "Failed to read input data".
- `to_bytes_be().1` drops the sign. So a selector of minus the `print` value also prints.

## Model

| member | source | states |
|---|---|---|
| `ContractExecution.ContractExecutionSyscallHandler.InterceptExecuteHint` | crates/cheatnet/src/execution/contract_execution_syscall_handler.rs:60-100 | the loop that prints line by line produces exactly the outcome and the lines of the specification `Intercept` |
| `ContractExecution.Intercept` | crates/cheatnet/src/execution/contract_execution_syscall_handler.rs:64-99 | declines exactly the non-`Cheatcode` payloads, with no lines and whatever the memory; panics exactly on a cheatcode whose selector is not UTF-8, with no lines; a failed input read is returned as the error with no lines; a `print` selector succeeds with `PrintLines` of the inputs; any other selector fails with the fixed message and no lines; lines are printed only on success |
| `ContractExecution.ExtractInput` | crates/cheatnet/src/execution/contract_execution_syscall_handler.rs:24-33 | a start that does not resolve gives its error; then an end that does not resolve gives its error; with both resolved, the read succeeds exactly when both are in one segment, start is not after end and every cell between holds a field element; it then returns those values in address order, and otherwise fails with "Failed to read input data" |
| `VmMemory.ExtractRelocatable` | crates/cheatnet/src/execution/contract_execution_syscall_handler.rs:29-30 | resolution succeeds exactly when the operand's cell address is valid, that cell holds a pointer, and adding the immediate (0 for a plain dereference) keeps the offset non-negative; the result is that pointer moved by the immediate |
| `VmMemory.ReadRange` | crates/cheatnet/src/execution/contract_execution_syscall_handler.rs:31 | the read succeeds exactly when start and end share a segment, start is not after end and every cell in between holds a field element; the result has one value per cell, in order |
| `ContractExecution.SelectorText` | crates/cheatnet/src/execution/contract_execution_syscall_handler.rs:73-74 | a decoded selector text encodes back to exactly the selector's magnitude bytes |
| `ContractExecution.SelectorPanicsExactly` | crates/cheatnet/src/execution/contract_execution_syscall_handler.rs:73-74 | the `unwrap` panics exactly when the selector's bytes are the UTF-8 encoding of no text |
| `ContractExecution.SelectorIsPrint` | crates/cheatnet/src/execution/contract_execution_syscall_handler.rs:73-81 | the selector text is `print` exactly when the selector's magnitude is 0x7072696e74 |
| `BigEndian.ToBytesBe` | crates/cheatnet/src/execution/contract_execution_syscall_handler.rs:73 | the bytes are never empty, denote the magnitude of the value, start with zero only for zero, and are exactly `[0]` for zero |
| `BigEndian.CanonicalBytes` | crates/cheatnet/src/execution/contract_execution_syscall_handler.rs:73 | a byte string with no leading zero is the encoding of the value it denotes, so the encoding is one-to-one on magnitudes |
| `BigEndian.BytesDetermineMagnitude` | crates/cheatnet/src/execution/contract_execution_syscall_handler.rs:73 | two integers have the same bytes exactly when their magnitudes are equal |
| `Utf8.LeadScalar` | crates/cheatnet/src/execution/contract_execution_syscall_handler.rs:74 | an accepted sequence is one to four bytes long and yields a Unicode scalar value; it is one byte long exactly when the value is ASCII, and then the value is that byte (which sequences are accepted is stated by `LeadScalarOfEncoding` and `EncodingOfLeadScalar`) |
| `Utf8.Decode` | crates/cheatnet/src/execution/contract_execution_syscall_handler.rs:74 | decoded text is never longer than the bytes, is empty only for empty bytes, and encodes back to exactly the bytes it was decoded from |
| `Utf8.LeadScalarOfEncoding` | crates/cheatnet/src/execution/contract_execution_syscall_handler.rs:74 | the decoder reads the encoding of any scalar value back as that value and that width, whatever bytes follow |
| `Utf8.EncodingOfLeadScalar` | crates/cheatnet/src/execution/contract_execution_syscall_handler.rs:74 | every sequence the decoder accepts is the encoding of the value it yields, so overlong forms, surrogates and values above 0x10FFFF are refused |
| `Utf8.DecodeEncode` | crates/cheatnet/src/execution/contract_execution_syscall_handler.rs:74 | every text survives encoding then decoding |
| `Utf8.DecodeExactlyEncodings` | crates/cheatnet/src/execution/contract_execution_syscall_handler.rs:74 | bytes decode to a text exactly when they are that text's UTF-8 encoding |
| `Utf8.RefusedIsNoEncoding` | crates/cheatnet/src/execution/contract_execution_syscall_handler.rs:74 | bytes the decoder refuses are the encoding of no text |
| `Utf8.DecodeAscii` | crates/cheatnet/src/execution/contract_execution_syscall_handler.rs:74 | bytes decode to a given ASCII text exactly when they are that text's byte-per-character encoding |
| `Diagnostics.FormatLine` | crates/cheatnet/src/execution/contract_execution_syscall_handler.rs:83-89 | every line starts with the raw value part, and is exactly that part when and only when the value has no short-string form |
| `Diagnostics.ParseFormatLine` | crates/cheatnet/src/execution/contract_execution_syscall_handler.rs:83-89 | every line reads back as exactly its value and its short string, or no string when none was shown |
| `Diagnostics.PrintLines` | crates/cheatnet/src/execution/contract_execution_syscall_handler.rs:81-90 | one line per input, in input order (none for no input); the i-th line reads back as the i-th input and its decoding, shows its raw value, and shows a string exactly when decoding succeeds |
| `Felts.DecimalText` | crates/cheatnet/src/execution/contract_execution_syscall_handler.rs:85 | the raw value is printed as a non-empty run of decimal digits with no leading zero |
| `Felts.DecimalRoundTrip` | crates/cheatnet/src/execution/contract_execution_syscall_handler.rs:85 | the printed decimal digits denote the value printed |
| `ContractExecution.ContractExecutionSyscallHandler.Wrap` | crates/cheatnet/src/execution/contract_execution_syscall_handler.rs:44-46 | the new link holds exactly the child it was given |
| `ContractExecution.ContractExecutionSyscallHandler.GetChild` | crates/cheatnet/src/execution/contract_execution_syscall_handler.rs:50-52 | there is always a child, and it is the wrapped one |
| `ContractExecution.ContractExecutionSyscallHandler.GetChildMut` | crates/cheatnet/src/execution/contract_execution_syscall_handler.rs:54-56 | there is always a child, and it is the wrapped one |
| `ContractExecution.ContractExecutionSyscallHandler.ExecuteHint` | crates/cheatnet/src/execution/contract_execution_syscall_handler.rs:106-114 | a declined request reaches the child unchanged and its answer is returned, so wrapping changes nothing for it; an answered request never reaches the child; a panic aborts; the budget is never touched |
| `ContractExecution.ContractExecutionSyscallHandler.CompileHint` | crates/cheatnet/src/execution/contract_execution_syscall_handler.rs:116-130 | compilation gives what the child gives |
| `ContractExecution.ContractExecutionSyscallHandler.Consumed` | crates/cheatnet/src/execution/contract_execution_syscall_handler.rs:135-137 | the answer is the child's, and it holds exactly when the reported step count is zero |
| `ContractExecution.ContractExecutionSyscallHandler.ConsumeStep` | crates/cheatnet/src/execution/contract_execution_syscall_handler.rs:139-141 | exactly one step is taken from the child's budget and nothing else changes: a bounded count drops by one, never below zero, an unbounded one stays unbounded, and an exhausted budget stays exhausted |
| `ContractExecution.ContractExecutionSyscallHandler.GetNSteps` | crates/cheatnet/src/execution/contract_execution_syscall_handler.rs:143-145 | the answer is the child's |
| `ContractExecution.ContractExecutionSyscallHandler.GetRunResources` | crates/cheatnet/src/execution/contract_execution_syscall_handler.rs:147-149 | the budget is the child's; its step count and exhaustion agree with what `get_n_steps` and `consumed` report |
| `InnerChain.StepsAreCounted` | crates/cheatnet/src/execution/contract_execution_syscall_handler.rs:139-141 | after k forwarded steps a bounded budget has lost exactly k steps, down to none, and is exhausted exactly when it allowed at most k; an unbounded one never changes |

## Left out

- `crates/sncast/tests/docs/snippets.rs` is not part of this model: it runs a command-line tool on documentation snippets, which is process and file-system I/O.
- Standard output is not modelled; the printed lines are returned instead.
- `as_cairo_short_string` is not modelled: it is a parameter of the model.
- The chain's default forwarding routines (`execute_hint_chain`, `compile_hint_chain` and the resource-tracker ones) are not part of this model. The link is modelled as asking its own interception first and then forwarding to its child.
- The wrapped `CheatableSyscallHandler` is not part of this model. It is a stand-in that records requests and answers through fixed functions. Its own cheatcodes, and any change it makes to the VM or the execution scopes, are not modelled.
- The step budget's exact behaviour belongs to the VM library; the stand-in follows its documented shape: an optional count of remaining steps, exhausted at zero, lowered by one per step but never below zero.
- `VmMemory.ExtractRelocatable` models only the two operand shapes a buffer takes (`[cell]` and `[cell] + immediate`); the other operand shapes make the library panic and are not modelled. The immediate is added as an integer, not modulo the field prime, and offsets have no upper bound.
- `VmMemory.ReadRange` models the library's cell-by-cell walk by its result, not step by step. The kind of a read error is not kept, because the handler replaces every read error by one message.
- The text of the panic message is not modelled; the panic is the outcome `Panicked`.
- Hint compilation contents (position tracking, references) are opaque numbers.
- Rust lifetimes and borrows carry no behaviour and are not modelled; the exclusive ownership of the child is a `const` field.
