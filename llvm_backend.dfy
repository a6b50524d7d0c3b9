/** The LLVM backend as the pipeline drives it: run the backend, then decide
    the run's result from the accumulated syntax errors. */
module LlvmBackend {
  import opened Common

  /** Finalized declarations, shared with the resolver; only their names are modelled. */
  datatype FinalizedFunction = FinalizedFunction(name: string)
  datatype FinalizedStruct = FinalizedStruct(name: string)

  /** `LLVMCompiler`: the declaration tables it compiles from. */
  datatype LlvmCompiler = LlvmCompiler(
    compiling: map<string, FinalizedFunction>,
    structCompiling: map<string, FinalizedStruct>)

  /** `LLVMCompiler::new` keeps the two tables it is given. */
  function New(compiling: map<string, FinalizedFunction>,
               structCompiling: map<string, FinalizedStruct>): (c: LlvmCompiler)
    ensures c.compiling == compiling && c.structCompiling == structCompiling
  {
    LlvmCompiler(compiling, structCompiling)
  }

  /** The shared syntax state; only its error list is read here. */
  class Syntax {
    var errors: seq<ParsingError>

    constructor (errors: seq<ParsingError>)
      ensures this.errors == errors
    {
      this.errors := errors;
    }
  }

  /** What the type-getter backend returns for a target (an entry function `F`
      to call, no target, or errors), and the errors it records into the
      syntax state while compiling. */
  datatype BackendRun<F> = BackendRun(result: Result<Option<F>, seq<ParsingError>>,
                                      recorded: seq<ParsingError>)

  /** The run's result: recorded syntax errors win over whatever the backend
      produced; otherwise no target stays "nothing to run", a backend error
      is passed through, and an entry function is called once for its value. */
  function Decide<F, T>(result: Result<Option<F>, seq<ParsingError>>, errors: seq<ParsingError>,
                        call: F -> T): (r: Result<Option<T>, seq<ParsingError>>)
    ensures errors != [] ==> r == Err(errors)
    ensures r.Ok? ==> errors == [] && result.Ok? && (r.value.Some? <==> result.value.Some?)
    ensures r.Ok? && r.value.Some? ==> r.value.value == call(result.value.value)
    ensures r.Err? ==> r.error == errors || (errors == [] && result == Err(r.error))
  {
    if errors == [] then
      match result
      case Ok(Some(f)) => Ok(Some(call(f)))
      case Ok(None) => Ok(None)
      case Err(e) => Err(e)
    else
      Err(errors)
  }

  /** With no syntax errors, each backend outcome maps to its own result. */
  lemma DecideWithoutErrors<F, T>(result: Result<Option<F>, seq<ParsingError>>, call: F -> T)
    ensures result == Ok(None) ==> Decide(result, [], call) == Ok(None)
    ensures result.Err? ==> Decide(result, [], call) == Err(result.error)
    ensures result.Ok? && result.value.Some? ==> Decide(result, [], call) == Ok(Some(call(result.value.value)))
  {
  }

  /** `Compiler::compile` for LLVM: the backend runs first, and the error list
      is read only after it has returned, so errors it records count. */
  method Compile<F, T>(c: LlvmCompiler, target: string, syntax: Syntax,
                       backend: (string, map<string, FinalizedFunction>, map<string, FinalizedStruct>) -> BackendRun<F>,
                       call: F -> T) returns (r: Result<Option<T>, seq<ParsingError>>)
    modifies syntax
    ensures var run := backend(target, c.compiling, c.structCompiling);
      && syntax.errors == old(syntax.errors) + run.recorded
      && r == Decide(run.result, syntax.errors, call)
  {
    var run := backend(target, c.compiling, c.structCompiling);
    syntax.errors := syntax.errors + run.recorded;
    var locked := syntax.errors;
    r := Decide(run.result, locked, call);
  }

  /** An error recorded by the backend itself fails the run even when the
      backend returned an entry function: it is never called. */
  lemma LateErrorFailsRun<F, T>(before: seq<ParsingError>, run: BackendRun<F>, call: F -> T)
    requires run.recorded != []
    ensures Decide(run.result, before + run.recorded, call) == Err(before + run.recorded)
  {
  }

  // ---------------------------------------------------------------------
  // `c_str`.

  /** The bytes `c_str` points at: the string's bytes and a terminating NUL. */
  function CStr(s: seq<byte>): (r: seq<byte>)
    ensures |r| == |s| + 1 && r[..|s|] == s && r[|s|] == 0
  {
    s + [0]
  }

  /** What C reads through such a pointer: the bytes before the first NUL. */
  function ReadCString(p: seq<byte>): (r: seq<byte>)
    ensures |r| <= |p| && r == p[..|r|]
    ensures forall i :: 0 <= i < |r| ==> r[i] != 0
    ensures |r| < |p| ==> p[|r|] == 0
  {
    if p == [] || p[0] == 0 then [] else [p[0]] + ReadCString(p[1..])
  }

  /** A string without NUL bytes reads back whole. */
  lemma {:induction false} CStrRoundTrip(s: seq<byte>)
    requires forall i :: 0 <= i < |s| ==> s[i] != 0
    ensures ReadCString(CStr(s)) == s
  {
    if s != [] {
      assert CStr(s)[1..] == CStr(s[1..]);
      CStrRoundTrip(s[1..]);
    }
  }

  /** A string with a NUL byte reads back only up to that byte. */
  lemma {:induction false} CStrStopsAtInteriorNul(s: seq<byte>, k: nat)
    requires k < |s| && s[k] == 0
    requires forall i :: 0 <= i < k ==> s[i] != 0
    ensures ReadCString(CStr(s)) == s[..k]
  {
    if k > 0 {
      assert CStr(s)[1..] == CStr(s[1..]);
      CStrStopsAtInteriorNul(s[1..], k - 1);
      assert s[..k] == [s[0]] + s[1..][..k - 1];
    }
  }
}
