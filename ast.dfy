/** The parsed program as the LLVM backend of `language/compiler` sees it:
    functions whose bodies are sequences of effect expressions. */
module Ast {
  import opened Common

  /** `ast::code::Effects`, the expression forms the backend lowers. */
  datatype Effects =
    | IntegerEffect(number: u64)
    | FloatEffect(bits: bv64)                // IEEE-754 bits, never computed on
    | MethodCall(called: string)
    | VariableLoad(name: string)
    | ReturnEffect(effect: Effects)
    | MathEffect(operator: string, effect: Effects, target: Effects)

  /** One line of a function body. */
  datatype Expression = Expression(effect: Effects)

  datatype CodeBody = CodeBody(expressions: seq<Expression>)

  /** A parameter: its name and the name of its declared type. */
  datatype Field = Field(name: string, fieldType: string)

  datatype Function = Function(
    name: string,
    fields: seq<Field>,
    returnType: Option<string>,
    code: CodeBody)

  /** What `parser::parse` yields: the name of `main`, if any, and the
      static functions by name. */
  datatype Program = Program(main: Option<string>, staticFunctions: map<string, Function>)

  /** The body's last expression exists and is a `return`; an empty body is not. */
  function EndsWithReturn(f: Function): (r: bool)
    ensures f.code.expressions == [] ==> !r
    ensures r ==> exists e :: e in f.code.expressions && e.effect.ReturnEffect?
  {
    var lines := f.code.expressions;
    |lines| > 0 && lines[|lines| - 1].effect.ReturnEffect?
  }
}
