# Raven toolchain core, modelled in Dafny

This project models five small, sequential parts of the Raven language toolchain and proves their properties:

- **Token text** (`Tokens`): the parser's `Token`, its constructor and error helper, and the `?`-operator plumbing. It also covers `Token::to_string`, which cuts a token's byte span out of the file buffer and trims whitespace from both ends with two index-moving loops.
- **Function and expression lowering** (`Ast`, `Llvm`, `Types`, `FunctionCompiler`):
  - `compile_function` builds a signature, adds the function and an `entry` block, and applies the trailing-return rule.
  - `compile_block` lowers a body's expressions in order.
  - `compile_effect` lowers one expression: literals, variable loads, `return`, and binary math dispatched through the left operand's type.
  - The LLVM module and its builder are an append-only log of the calls made on them (`Llvm.ModuleBuilder`).
- **The backend `Compiler` object** (`Compilation`): its table of compiled functions and its type lookup. Its `compile` method either does nothing (no `main`) or compiles `main`, records it, and fetches the JIT entry point under the fixed symbol `main::main`.
- **The LLVM backend's result decision** (`LlvmBackend`): syntax errors recorded by the time the backend returns win over the backend's own result. Otherwise there is no target, the backend's error, or the entry function's value. This part also covers `c_str`'s NUL terminator.
- **The language server's response error** (`LspError`): `ResponseError::to_json`, and the error-code table of JSON-RPC 2.0 (section 5.1, "Error object") and of the Language Server Protocol 3.17 ("Response Message"), with the range relations its comments assert.

How the model represents the source:
- Every panic of the source is an `Err` value, so each operation is total and its failure cases can be stated. The panics covered are indexing out of bounds, `usize` underflow, a reversed slice, and `unwrap`/`expect`/`panic!`.
- Imperative code stays imperative:
  - `to_string` is a method with its two `while` loops.
  - `compile_block` is a `for` loop.
  - `compile_function` makes its builder calls on a `ModuleBuilder` object.
  - `Compiler.compile` updates the `functions` map of a `Compiler` object.
  - `to_json` inserts into a map step by step.
- Each method is proved against a specification function: `TokenText`, `BlockLowering`, `FunctionLowering`, `Decide`, and the `IsErrorObject` predicate.

`compile_function` (language/compiler/src/function_compiler.rs:11-34) never calls `compile_block`: it emits the signature, the `entry` block and possibly a void return, but it does not lower the body. `compile_block` is modelled on its own. `Compiler::compile` compiles only `main`; the functions it references are not compiled here.

## Model

| member | source | states |
|---|---|---|
| Tokens.New | language/parser/src/tokens/tokens.rs:24-33 | every argument lands unchanged in the field of the same name, although the parameter order differs from the field order |
| Tokens.MakeError | language/parser/src/tokens/tokens.rs:36-38 | the error carries the given file and message and exactly the token's start, start offset, end and end offset |
| Tokens.ErrorOfNewToken | language/parser/src/tokens/tokens.rs:24-38 | an error made from a freshly built token carries the positions the token was built with |
| Tokens.Branch | language/parser/src/tokens/tokens.rs:66-68 | `branch` always continues with the token itself |
| Tokens.FromOutput | language/parser/src/tokens/tokens.rs:62-64 | `from_output` is the identity |
| Tokens.FromResidual | language/parser/src/tokens/tokens.rs:72-83 | both `from_residual` impls give back the residual token unchanged |
| Tokens.TryIsIdentity | language/parser/src/tokens/tokens.rs:58-83 | `t?` on a token never short-circuits and evaluates to `t`, and `branch` after `from_output` is `Continue(t)` |
| Tokens.SkipsAsWritten | language/parser/src/tokens/tokens.rs:44-49 | the loop guard as Rust parses it: a skipped byte is always whitespace; while `start < end` every whitespace byte is skipped; once `start >= end` spaces, tabs and CRs are still skipped and only a line feed stops the loop |
| Tokens.ForwardStop | language/parser/src/tokens/tokens.rs:44-47 | the first loop stops at the first index whose byte fails the guard as Rust parses it, every byte it skips passes the guard, and it panics with an out-of-bounds read only when every byte to the buffer's end passes |
| Tokens.BackwardStop | language/parser/src/tokens/tokens.rs:48-51 | the second loop stops at the last index at or below `end` whose byte fails the guard; it panics out of bounds exactly when `end` is past the buffer, and underflows only when every byte down to 0 passes |
| Tokens.TokenText | language/parser/src/tokens/tokens.rs:41-53 | a successful `to_string` returns a contiguous slice of the token's own span, with nothing added or reordered |
| Tokens.ToString | language/parser/src/tokens/tokens.rs:41-53 | the two loops, run as written, give exactly `TokenText`: the same text or the same panic |
| Tokens.TextNeedsSpanInBuffer | language/parser/src/tokens/tokens.rs:42-52 | `to_string` succeeds only if `1 <= end_offset <= len(buffer)`, `start_offset <= end_offset` and `start_offset < len(buffer)` |
| Tokens.TextOfSpanWithContent | language/parser/src/tokens/tokens.rs:44-52 | when the span holds a non-blank byte, the result is exactly the bytes from the first to the last non-blank byte, and its two end bytes are not space, tab, CR or LF |
| Tokens.BlankSpanPanics | language/parser/src/tokens/tokens.rs:44-52 | as written: a non-empty span of only spaces, tabs and CRs always panics instead of giving empty text, because `start < end` guards only the LF test |
| Tokens.SpaceBetweenLettersPanics | language/parser/src/tokens/tokens.rs:44-52 | as written: the one-space token at offsets 1..2 of "a b" panics slicing `buffer[2..1]` |
| Tokens.NewlineSpanKeepsOneNewline | language/parser/src/tokens/tokens.rs:44-52 | as written: a span of only line feeds yields a single "\n" rather than empty text |
| Tokens.ContentStart | language/parser/src/tokens/tokens.rs:44-47 | corrected scan: the index of the first non-blank byte of the span, or its end; everything before it is blank |
| Tokens.ContentEnd | language/parser/src/tokens/tokens.rs:48-51 | corrected scan: one past the last non-blank byte of the span, or its start; everything after it is blank |
| Tokens.TrimmedSpanIsBlankFree | language/parser/src/tokens/tokens.rs:40-53 | the trimmed text is a slice of the span whose ends are non-blank, everything cut off is blank, and it is empty exactly when the span is all blank |
| Tokens.ToStringSaturating | language/parser/src/tokens/tokens.rs:41-53 | corrected loops that stop where `start` meets `end` compute exactly the trimmed span, and never leave it |
| Tokens.AsWrittenAgreesWhenSpanHasContent | language/parser/src/tokens/tokens.rs:41-53 | whenever the span holds a non-blank byte, the code as written and the corrected scan return the same text |
| Ast.EndsWithReturn | language/compiler/src/function_compiler.rs:27 | the trailing-return test: an empty body does not end in a return, and a body that does contains a `return` expression |
| Llvm.FindFunction | language/compiler/src/compiler.rs:49 | a symbol lookup yields a function added under that name, and fails only when no function of that name was added |
| Llvm.FindFunctionAfterAppend | language/compiler/src/compiler.rs:48-49 | a function found under a name stays the one found when more code is appended |
| Llvm.FindFunctionSkipsPrefix | language/compiler/src/compiler.rs:48-49 | a name absent from the module so far is found in the extended module exactly as in the appended part |
| Llvm.ModuleBuilder.constructor | language/compiler/src/compiler.rs:26 | a freshly created module holds no code |
| Llvm.ModuleBuilder.AddFunctionNamed | language/compiler/src/function_compiler.rs:22 | `add_function` returns the function of that name and type and appends exactly that addition |
| Llvm.ModuleBuilder.AppendBlock | language/compiler/src/function_compiler.rs:24 | `append_basic_block` returns that function's block of that name and appends exactly that call |
| Llvm.ModuleBuilder.PositionAt | language/compiler/src/function_compiler.rs:25 | `position_at_end` appends exactly that call |
| Llvm.ModuleBuilder.Return | language/compiler/src/function_compiler.rs:30 | `build_return` appends exactly one return of the given value |
| Llvm.ModuleBuilder.Emit | language/compiler/src/function_compiler.rs:38 | the calls one expression's lowering makes are appended in order and nothing else changes |
| Types.TypeManager.LlvmTypeOf | language/compiler/src/function_compiler.rs:12-17 | a type name maps to its registered LLVM type exactly when it is registered, and otherwise fails naming it |
| FunctionCompiler.CompileEffect | language/compiler/src/function_compiler.rs:42-66 | `compile_effect` fails only with a missing literal type, an unknown variable or an unimplemented method call |
| FunctionCompiler.CompileEffectSucceeds | language/compiler/src/function_compiler.rs:42-66 | `compile_effect` succeeds exactly when the expression has no method call, loads only names in scope and needs only registered literal types |
| FunctionCompiler.LoweringByKind | language/compiler/src/function_compiler.rs:45-53 | an integer literal is typed `i64`, a float literal `f64`, both emit nothing; a load returns the scope's value or fails naming the variable; a method call always fails as not implemented |
| FunctionCompiler.ReturnAndMathOrder | language/compiler/src/function_compiler.rs:54-64 | a return yields its operand's value after emitting one return of it; math lowers the left operand, then the right, then calls the left operand type's operation, and the first failure stops it |
| FunctionCompiler.ReturnsEmitted | language/compiler/src/function_compiler.rs:54-59 | when the math operations emit no returns, lowering emits exactly one return per `return` expression |
| FunctionCompiler.BlockLowering | language/compiler/src/function_compiler.rs:36-40 | lowering a block fails only with one of the errors `compile_effect` can raise |
| FunctionCompiler.BlockLoweringSucceeds | language/compiler/src/function_compiler.rs:36-40 | a block lowers exactly when every one of its expressions does |
| FunctionCompiler.BlockLoweringSplits | language/compiler/src/function_compiler.rs:37-39 | lowering a block is lowering its front and then its back: each expression once, in source order, and the first failure is the result |
| FunctionCompiler.CompileBlock | language/compiler/src/function_compiler.rs:36-40 | the loop fails exactly when `BlockLowering` does, with its error, and otherwise appends exactly the block's calls |
| FunctionCompiler.ParamTypes | language/compiler/src/function_compiler.rs:17 | one parameter type per field, in field order, each the field's registered type; otherwise it fails on the first field with an unregistered type |
| FunctionCompiler.Signature | language/compiler/src/function_compiler.rs:12-20 | the signature is built exactly when the declared return type (if any) and every field type are registered; an unregistered return type is the error reported, since it is looked up first |
| FunctionCompiler.FunctionLowering | language/compiler/src/function_compiler.rs:11-34 | a signature failure is the function's failure; a compiled function is the value named after the function with that signature, and its first call adds it to the module |
| FunctionCompiler.SignatureMapsTypes | language/compiler/src/function_compiler.rs:12-20 | the return type is the declared type's LLVM type or void when none is declared, and the parameter count equals the field count |
| FunctionCompiler.TrailingReturnRule | language/compiler/src/function_compiler.rs:22-31 | the function is added under its own name with an `entry` block and the builder positioned there; a body not ending in `return` (an empty one included) is fatal with a declared return type and otherwise gets exactly one void return; a body ending in `return` gets none; with a valid signature, compilation succeeds exactly when the body ends in `return` or no return type is declared |
| FunctionCompiler.CompileFunction | language/compiler/src/function_compiler.rs:11-34 | the builder calls and result are exactly `FunctionLowering`'s, and a failure is its error |
| Compilation.EntryLookup | language/compiler/src/compiler.rs:49-53 | the entry is always fetched under `main::main`; the lookup fails, fatally rather than with `None`, exactly when no function of that name was added to the module, and a found entry is a function the module added |
| Compilation.EntryIsTheCompiledMain | language/compiler/src/compiler.rs:47-53 | on a module without an entry, compiling `main` makes the lookup succeed exactly when `main` is named `main::main`, and the entry is then that function |
| Compilation.Compiler.constructor | language/compiler/src/compiler.rs:25-36 | a new compiler keeps its type table and starts with an empty module and an empty `functions` map |
| Compilation.Compiler.GetType | language/compiler/src/compiler.rs:38-40 | `get_type` returns the registered type exactly when the name is registered, fails naming it otherwise, and reads only the type table |
| Compilation.Compiler.Compile | language/compiler/src/compiler.rs:42-59 | without `main` it returns `None` and changes nothing; a `main` missing from the static functions is fatal; otherwise `functions` gains exactly the entry for `main` under its own name, the module gains its code, and the result is the `main::main` lookup |
| LlvmBackend.New | language/compilers/llvm/src/lib.rs:35-42 | the compiler keeps the two tables it is given, unchanged |
| LlvmBackend.Decide | language/compilers/llvm/src/lib.rs:56-68 | a non-empty error list is the result whatever the backend produced; success means no errors and a backend success, with an entry value exactly when the backend gave a function, and that value is the function's result |
| LlvmBackend.DecideWithoutErrors | language/compilers/llvm/src/lib.rs:56-65 | with no errors, no target stays `Ok(None)`, a backend error passes through unchanged, and a function is called and wrapped in `Ok(Some(_))` |
| LlvmBackend.Compile | language/compilers/llvm/src/lib.rs:46-69 | the backend runs first, the error list is read after it returns, including what it recorded, and the result is `Decide` of the two |
| LlvmBackend.LateErrorFailsRun | language/compilers/llvm/src/lib.rs:51-68 | an error the backend records during its own run fails the run, and the entry function is not called |
| LlvmBackend.CStr | language/compilers/llvm/src/lib.rs:72-74 | `c_str` points at the string's bytes followed by exactly one NUL |
| LlvmBackend.ReadCString | language/compilers/llvm/src/lib.rs:72-74 | a C reader returns the longest NUL-free prefix of the bytes it is pointed at: the bytes before the first NUL, or all of them |
| LlvmBackend.CStrRoundTrip | language/compilers/llvm/src/lib.rs:72-74 | a string without NUL bytes reads back whole through `c_str` |
| LlvmBackend.CStrStopsAtInteriorNul | language/compilers/llvm/src/lib.rs:72-74 | a string with a NUL byte reads back only up to its first NUL |
| LspError.ToJson | tools/ide-plugins/raven-language-server/src/lsp/error.rs:11-19 | the object has exactly the keys `code` and `message`, plus `data` exactly when there is a payload; `code` and `message` hold the error's own, `data` holds the payload's JSON |
| LspError.ErrorObjectIsUnique | tools/ide-plugins/raven-language-server/src/lsp/error.rs:11-19 | an error has only one JSON object form |
| LspError.FromJson | tools/ide-plugins/raven-language-server/src/lsp/error.rs:11-19 | a reader of the error accepts only objects whose keys are among `code`, `message` and `data` |
| LspError.ErrorObjectRoundTrip | tools/ide-plugins/raven-language-server/src/lsp/error.rs:11-19 | the JSON form of an error reads back as that same error |
| LspError.ReservedRangesAreDisjoint | tools/ide-plugins/raven-language-server/src/lsp/error.rs:29-110 | no code lies in both the JSON-RPC and the LSP reserved range |
| LspError.JsonRpcCodesOutsideReservedRanges | tools/ide-plugins/raven-language-server/src/lsp/error.rs:22-27 | the five JSON-RPC codes are pre-defined codes of section 5.1 of JSON-RPC 2.0 (-32768 to -32000) and lie in neither reserved range |
| LspError.LegacyCodesInJsonRpcRange | tools/ide-plugins/raven-language-server/src/lsp/error.rs:29-55 | `SERVER_NOT_INITIALIZED` and `UNKNOWN_ERROR_CODE` lie inside the JSON-RPC reserved range, as its comment says |
| LspError.LspCodesInLspRange | tools/ide-plugins/raven-language-server/src/lsp/error.rs:59-110 | the four LSP 3.17 codes lie in the LSP reserved range and so outside the JSON-RPC one |
| LspError.DeprecatedAliases | tools/ide-plugins/raven-language-server/src/lsp/error.rs:38-57 | `SERVER_ERROR_START` and `SERVER_ERROR_END` equal the range bounds that replace them |

## Left out

- language/runner/src/runner.rs is not part of this model. It is task spawning, channels, the `Mutex`-shared syntax state, the quiescence barrier and file reads: concurrency and I/O.
- LLVM and inkwell internals (function types, constants, blocks, the JIT engine) are reduced to a log of the calls made on the module and builder. The JIT's `get_function` is modelled as a lookup of an added function by name.
- The body of `math_operation` is not shown in the source; it is a parameter that returns a value and the calls it makes.
- Float constants keep only their bits and their `f64` type tag; no floating-point arithmetic is modelled.
- `String::from_utf8_lossy` in `to_string` is left out: the text is returned as the byte slice, without UTF-8 replacement.
- `parser::parse` (language/compiler/src/compiler.rs:43) is a foreign call: `Compile` takes the parsed program as its argument.
- `CompilerTypeGetter::compile` (language/compilers/llvm/src/lib.rs:48-52) is a foreign call: it is a parameter returning the backend's result and the errors it records. The LLVM `Context` is not modelled.
- `c_str` returns a raw pointer into a temporary that is dropped at once; only the bytes it points at are modelled, not the dangling pointer.
- The `Arc`/`RwLock`/`Mutex` sharing in the llvm crate is left out; the lock is a plain read of the error list.
- The `json` crate's `JsonValue` is a datatype whose objects are finite maps. Key order and the crate's number representation are not modelled.
- The `Jsonable` payload of a response error is represented by the JSON its `to_json` returns.
- LlvmBackend.Compile: calling the entry function is modelled as applying a function. Its side effects and the "exactly once" count are not captured.
- FunctionCompiler.ParamTypes: the `params.len() as u32` cast is not modelled; no function has 2^32 parameters.
- Tokens.ToString: `usize` arithmetic is unbounded here; only the underflow of `end_offset - 1` and of `end -= 1` is modelled. The overflow of `end + 1` and `start += 1` cannot occur, because both stay below the buffer length.
- FunctionCompiler.CompileFunction: after a fatal error the builder state is left unspecified, since the source aborts.
- The `TokenTypes` enum is declared in full but has no logic to prove.
- The `Syntax` state of the llvm backend holds only its error list; its other parts are outside this model.

## Findings

| source | as written | input that shows it | evidently intended | confidence | as-written member | corrected member |
|---|---|---|---|---|---|---|
| language/parser/src/tokens/tokens.rs:44-52 | `a \|\| b \|\| c \|\| d && start < end` guards only the line-feed test with `start < end`, so a span of spaces, tabs or CRs is scanned past its end and the call panics; a span of line feeds yields "\n" | buffer "a b", token offsets 1..2 (the single space): `start` becomes 2, `end` becomes 0, and `buffer[2..1]` panics | trim with a saturating scan that stops where start meets end; an all-whitespace span yields empty text | high, not executed | Tokens.BlankSpanPanics, Tokens.SpaceBetweenLettersPanics | Tokens.ToStringSaturating, Tokens.TrimmedSpanIsBlankFree |
