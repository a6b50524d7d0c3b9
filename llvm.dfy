/** The LLVM module and instruction builder, seen only through the calls the
    backend makes on them: an append-only log of those calls. */
module Llvm {
  import opened Common

  /** A `BasicTypeEnum` (named by an opaque label) or the void type. */
  datatype LlvmType = VoidType | BasicType(id: string)

  datatype FnType = FnType(returnType: LlvmType, params: seq<LlvmType>)

  /** The handle `add_function` returns. */
  datatype FunctionValue = FunctionValue(name: string, fnType: FnType)

  datatype BasicBlock = BasicBlock(owner: FunctionValue, name: string)

  /** An LLVM value: a constant, or the result of an instruction. */
  datatype LlvmValue =
    | ConstInt(number: u64, signExtend: bool)
    | ConstFloat(bits: bv64)
    | Computed(id: nat)

  /** One builder or module call, in the order it was made. */
  datatype Instr =
    | AddFunction(added: FunctionValue)
    | AppendBasicBlock(block: BasicBlock)
    | PositionAtEnd(block: BasicBlock)
    | BuildReturn(value: Option<LlvmValue>)
    | Instruction(opcode: string, operands: seq<LlvmValue>, result: LlvmValue)

  /** The first function added under `name`, which is the one LLVM keeps that name for. */
  function FindFunction(code: seq<Instr>, name: string): (r: Option<FunctionValue>)
    ensures r.Some? ==> r.value.name == name && AddFunction(r.value) in code
    ensures r.None? ==> forall i :: 0 <= i < |code| && code[i].AddFunction? ==> code[i].added.name != name
  {
    if code == [] then None
    else if code[0].AddFunction? && code[0].added.name == name then Some(code[0].added)
    else FindFunction(code[1..], name)
  }

  /** A function added to `code` stays the one found under its name when more is appended. */
  lemma {:induction false} FindFunctionAfterAppend(code: seq<Instr>, more: seq<Instr>, name: string)
    requires FindFunction(code, name).Some?
    ensures FindFunction(code + more, name) == FindFunction(code, name)
  {
    if !(code[0].AddFunction? && code[0].added.name == name) {
      assert (code + more)[1..] == code[1..] + more;
      FindFunctionAfterAppend(code[1..], more, name);
    }
  }

  /** A name not yet added to `code` is found in `code + more` exactly as in `more`. */
  lemma {:induction false} FindFunctionSkipsPrefix(code: seq<Instr>, more: seq<Instr>, name: string)
    requires FindFunction(code, name).None?
    ensures FindFunction(code + more, name) == FindFunction(more, name)
  {
    if code == [] {
      assert code + more == more;
    } else {
      assert (code + more)[1..] == code[1..] + more;
      FindFunctionSkipsPrefix(code[1..], more, name);
    }
  }

  /** The module together with its builder. Every call appends to `code`. */
  class ModuleBuilder {
    var code: seq<Instr>

    constructor ()
      ensures code == []
    {
      code := [];
    }

    method AddFunctionNamed(name: string, fnType: FnType) returns (f: FunctionValue)
      modifies this
      ensures f == FunctionValue(name, fnType)
      ensures code == old(code) + [AddFunction(f)]
    {
      f := FunctionValue(name, fnType);
      code := code + [AddFunction(f)];
    }

    method AppendBlock(owner: FunctionValue, name: string) returns (b: BasicBlock)
      modifies this
      ensures b == BasicBlock(owner, name)
      ensures code == old(code) + [AppendBasicBlock(b)]
    {
      b := BasicBlock(owner, name);
      code := code + [AppendBasicBlock(b)];
    }

    method PositionAt(block: BasicBlock)
      modifies this
      ensures code == old(code) + [PositionAtEnd(block)]
    {
      code := code + [PositionAtEnd(block)];
    }

    method Return(value: Option<LlvmValue>)
      modifies this
      ensures code == old(code) + [BuildReturn(value)]
    {
      code := code + [BuildReturn(value)];
    }

    /** The calls made while lowering one expression, in order. */
    method Emit(calls: seq<Instr>)
      modifies this
      ensures code == old(code) + calls
    {
      code := code + calls;
    }
  }
}
