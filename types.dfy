/** The backend's type table (`TypeManager`) and the values it lowers to. */
module Types {
  import opened Common
  import opened Llvm

  /** A language type: its name and its LLVM representation. */
  datatype RavenType = RavenType(name: string, llvm: LlvmType)

  /** The fatal conditions of lowering; the source panics on each. */
  datatype CompileError =
    | MissingType(typeName: string)
    | MissingReturn(returnType: string, functionName: string)
    | UnknownVariable(variable: string)
    | NotImplemented
    | MissingFunction(functionName: string)
    | EntryNotFound(symbol: string)

  /** Name → type table shared by the compiler. */
  datatype TypeManager = TypeManager(types: map<string, RavenType>) {

    /** The LLVM type registered under `name`; a missing name is fatal. */
    function LlvmTypeOf(name: string): (r: Result<LlvmType, CompileError>)
      ensures r.Ok? <==> name in types
      ensures r.Ok? ==> r.value == types[name].llvm
      ensures r.Err? ==> r.error == MissingType(name)
    {
      if name in types then Ok(types[name].llvm) else Err(MissingType(name))
    }
  }

  /** `types::Value`: a lowered value with the language type that dispatches its operators. */
  datatype Value = Value(valueType: RavenType, value: LlvmValue)

  /** A lowered expression: its value and the builder calls made, in order. */
  datatype Lowered = Lowered(value: Value, code: seq<Instr>)

  /** `math_operation` of a type: given the type, operator and both operand
      values, the result value and the builder calls it makes. Its body is not
      part of this model. */
  type MathOperation = (RavenType, string, Value, Value) -> Lowered
}
