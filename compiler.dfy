/** The backend's `Compiler`: the LLVM module and builder, the table of
    compiled functions, and the type table. */
module Compilation {
  import opened Common
  import opened Ast
  import opened Llvm
  import opened Types
  import opened FunctionCompiler

  /** The symbol the JIT entry point is always fetched under. */
  const ENTRY_SYMBOL: string := "main::main"

  /** A `JitFunction<Main>`: the JIT-compiled entry function. */
  datatype EntryPoint = EntryPoint(target: FunctionValue)

  /** The execution engine's `get_function(ENTRY_SYMBOL)` over the module
      built so far; not finding it is fatal. */
  function EntryLookup(code: seq<Instr>): (r: Result<Option<EntryPoint>, CompileError>)
    ensures r.Ok? ==> r.value.Some? && r.value.value.target.name == ENTRY_SYMBOL
    ensures r.Ok? ==> AddFunction(r.value.value.target) in code
    ensures r.Err? <==> forall i :: 0 <= i < |code| && code[i].AddFunction? ==> code[i].added.name != ENTRY_SYMBOL
    ensures r.Err? ==> r.error == EntryNotFound(ENTRY_SYMBOL)
  {
    match FindFunction(code, ENTRY_SYMBOL)
    case Some(fv) => Ok(Some(EntryPoint(fv)))
    case None => Err(EntryNotFound(ENTRY_SYMBOL))
  }

  /** On a module that had no entry function, compiling `f` makes the entry
      lookup succeed exactly when `f` is named `main::main`, and then the entry
      is `f` itself. */
  lemma EntryIsTheCompiledMain(code: seq<Instr>, types: TypeManager, f: Function)
    requires FindFunction(code, ENTRY_SYMBOL).None?
    requires FunctionLowering(types, f).Ok?
    ensures var lowered := FunctionLowering(types, f).value;
      EntryLookup(code + lowered.1) == if f.name == ENTRY_SYMBOL then Ok(Some(EntryPoint(lowered.0)))
                                      else Err(EntryNotFound(ENTRY_SYMBOL))
  {
    var lowered := FunctionLowering(types, f).value;
    var sig := Signature(types, f).value;
    FindFunctionSkipsPrefix(code, lowered.1, ENTRY_SYMBOL);
    assert lowered.1[0] == AddFunction(FunctionValue(f.name, sig));
    if f.name != ENTRY_SYMBOL {
      var rest := lowered.1[1..];
      assert rest[1..][1..] == lowered.1[3..];
      assert |lowered.1[3..]| <= 1 && (lowered.1[3..] != [] ==> lowered.1[3].BuildReturn?);
      assert FindFunction(lowered.1[3..], ENTRY_SYMBOL).None?;
    }
  }

  class Compiler {
    const types: TypeManager
    /** The LLVM module and its builder. */
    const llvmModule: ModuleBuilder
    /** Compiled functions by name. */
    var functions: map<string, FunctionValue>

    /** `Compiler::new`: an empty module and no compiled functions. */
    constructor (types: TypeManager)
      ensures this.types == types && functions == map[]
      ensures fresh(llvmModule) && llvmModule.code == []
    {
      this.types := types;
      llvmModule := new ModuleBuilder();
      functions := map[];
    }

    /** `get_type`: the LLVM type registered under `name`, failing when there
        is none; it reads the type table only. */
    function GetType(name: string): (r: Result<LlvmType, CompileError>)
      ensures r.Ok? <==> name in types.types
      ensures r.Ok? ==> r.value == types.types[name].llvm
      ensures r.Err? ==> r.error == MissingType(name)
    {
      types.LlvmTypeOf(name)
    }

    /** `compile`: nothing to do without `main`; otherwise compile `main`,
        record it under its own name, and fetch the entry point. */
    method Compile(program: Program) returns (r: Result<Option<EntryPoint>, CompileError>)
      modifies this, llvmModule
      ensures program.main.None? ==>
        r == Ok(None) && functions == old(functions) && llvmModule.code == old(llvmModule.code)
      ensures program.main.Some? && program.main.value !in program.staticFunctions ==>
        && r == Err(MissingFunction(program.main.value))
        && functions == old(functions) && llvmModule.code == old(llvmModule.code)
      ensures program.main.Some? && program.main.value in program.staticFunctions ==>
        var f := program.staticFunctions[program.main.value];
        var spec := FunctionLowering(types, f);
        && (spec.Err? ==> r == Err(spec.error) && functions == old(functions))
        && (spec.Ok? ==>
              && functions == old(functions)[f.name := spec.value.0]
              && llvmModule.code == old(llvmModule.code) + spec.value.1
              && r == EntryLookup(llvmModule.code))
    {
      match program.main {
        case None =>
          return Ok(None);
        case Some(main) =>
          if main !in program.staticFunctions {
            return Err(MissingFunction(main));
          }
          var f := program.staticFunctions[main];
          var compiled := CompileFunction(f, types, llvmModule);
          if compiled.Err? {
            return Err(compiled.error);
          }
          functions := functions[f.name := compiled.value];
          r := EntryLookup(llvmModule.code);
      }
    }
  }
}
