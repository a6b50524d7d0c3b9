/** Lowering of one function and of its expressions to LLVM builder calls. */
module FunctionCompiler {
  import opened Common
  import opened Ast
  import opened Llvm
  import opened Types

  // ---------------------------------------------------------------------
  // Expressions (`compile_effect`).

  /** Some method call occurs in `e`. */
  predicate HasMethodCall(e: Effects) {
    match e
    case MethodCall(_) => true
    case ReturnEffect(inner) => HasMethodCall(inner)
    case MathEffect(_, left, right) => HasMethodCall(left) || HasMethodCall(right)
    case _ => false
  }

  /** The variable names `e` loads. */
  function LoadedNames(e: Effects): set<string> {
    match e
    case VariableLoad(name) => {name}
    case ReturnEffect(inner) => LoadedNames(inner)
    case MathEffect(_, left, right) => LoadedNames(left) + LoadedNames(right)
    case _ => {}
  }

  /** The type names the literals of `e` need: "i64" and/or "f64". */
  function LiteralTypes(e: Effects): set<string> {
    match e
    case IntegerEffect(_) => {"i64"}
    case FloatEffect(_) => {"f64"}
    case ReturnEffect(inner) => LiteralTypes(inner)
    case MathEffect(_, left, right) => LiteralTypes(left) + LiteralTypes(right)
    case _ => {}
  }

  /** `e` can be lowered: no method call, every loaded name in scope and every
      literal type known. */
  predicate Lowerable(types: TypeManager, scope: set<string>, e: Effects) {
    !HasMethodCall(e) && LoadedNames(e) <= scope && LiteralTypes(e) <= types.types.Keys
  }

  /** `compile_effect`: the value of `effect` and the builder calls made while
      lowering it; the scope is read, never changed. */
  function CompileEffect(types: TypeManager, variables: map<string, Value>, math: MathOperation,
                         effect: Effects): (r: Result<Lowered, CompileError>)
    ensures r.Err? ==> r.error.MissingType? || r.error.UnknownVariable? || r.error.NotImplemented?
  {
    match effect
    case IntegerEffect(n) =>
      if "i64" in types.types then Ok(Lowered(Value(types.types["i64"], ConstInt(n, true)), []))
      else Err(MissingType("i64"))
    case FloatEffect(x) =>
      if "f64" in types.types then Ok(Lowered(Value(types.types["f64"], ConstFloat(x)), []))
      else Err(MissingType("f64"))
    case MethodCall(_) => Err(NotImplemented)
    case VariableLoad(name) =>
      if name in variables then Ok(Lowered(variables[name], [])) else Err(UnknownVariable(name))
    case ReturnEffect(inner) =>
      (match CompileEffect(types, variables, math, inner)
       case Err(e) => Err(e)
       case Ok(l) => Ok(Lowered(l.value, l.code + [BuildReturn(Some(l.value.value))])))
    case MathEffect(op, left, right) =>
      match CompileEffect(types, variables, math, left)
      case Err(e) => Err(e)
      case Ok(l) =>
        match CompileEffect(types, variables, math, right)
        case Err(e) => Err(e)
        case Ok(rt) =>
          var m := math(l.value.valueType, op, l.value, rt.value);
          Ok(Lowered(m.value, l.code + rt.code + m.code))
  }

  /** Lowering fails exactly when the expression is not `Lowerable`. */
  lemma {:induction false} CompileEffectSucceeds(types: TypeManager, variables: map<string, Value>,
                                                 math: MathOperation, effect: Effects)
    ensures CompileEffect(types, variables, math, effect).Ok? <==> Lowerable(types, variables.Keys, effect)
  {
    match effect
    case ReturnEffect(inner) =>
      CompileEffectSucceeds(types, variables, math, inner);
    case MathEffect(_, left, right) =>
      CompileEffectSucceeds(types, variables, math, left);
      CompileEffectSucceeds(types, variables, math, right);
    case _ =>
  }

  /** What each kind of expression lowers to. */
  lemma LoweringByKind(types: TypeManager, variables: map<string, Value>, math: MathOperation, effect: Effects)
    ensures var r := CompileEffect(types, variables, math, effect);
      && (effect.IntegerEffect? && "i64" in types.types ==>
            r.Ok? && r.value.value.valueType == types.types["i64"] && r.value.code == [])
      && (effect.FloatEffect? && "f64" in types.types ==>
            r.Ok? && r.value.value.valueType == types.types["f64"] && r.value.code == [])
      && (effect.VariableLoad? ==>
            if effect.name in variables then r == Ok(Lowered(variables[effect.name], []))
            else r == Err(UnknownVariable(effect.name)))
      && (effect.MethodCall? ==> r == Err(NotImplemented))
  {
  }

  /** A `return` yields its operand's value and ends with exactly one return of
      that value; a math expression lowers its left operand, then its right,
      then dispatches through the left operand's type, and a failing left
      operand stops lowering before the right one is looked at. */
  lemma ReturnAndMathOrder(types: TypeManager, variables: map<string, Value>, math: MathOperation, effect: Effects)
    ensures effect.ReturnEffect? ==>
      match CompileEffect(types, variables, math, effect.effect)
      case Err(e) => CompileEffect(types, variables, math, effect) == Err(e)
      case Ok(l) => CompileEffect(types, variables, math, effect)
                    == Ok(Lowered(l.value, l.code + [BuildReturn(Some(l.value.value))]))
    ensures effect.MathEffect? ==>
      var left := CompileEffect(types, variables, math, effect.effect);
      var right := CompileEffect(types, variables, math, effect.target);
      var r := CompileEffect(types, variables, math, effect);
      && (left.Err? ==> r == Err(left.error))
      && (left.Ok? && right.Err? ==> r == Err(right.error))
      && (left.Ok? && right.Ok? ==>
            var m := math(left.value.value.valueType, effect.operator, left.value.value, right.value.value);
            r == Ok(Lowered(m.value, left.value.code + right.value.code + m.code)))
  {
  }

  /** The number of return instructions among `code`. */
  function CountReturns(code: seq<Instr>): nat {
    if code == [] then 0 else (if code[0].BuildReturn? then 1 else 0) + CountReturns(code[1..])
  }

  lemma {:induction false} CountReturnsAppend(a: seq<Instr>, b: seq<Instr>)
    ensures CountReturns(a + b) == CountReturns(a) + CountReturns(b)
  {
    if a != [] {
      assert (a + b)[1..] == a[1..] + b;
      CountReturnsAppend(a[1..], b);
    } else {
      assert a + b == b;
    }
  }

  /** The number of `return` expressions in `e`. */
  function ReturnNodes(e: Effects): nat {
    match e
    case ReturnEffect(inner) => 1 + ReturnNodes(inner)
    case MathEffect(_, left, right) => ReturnNodes(left) + ReturnNodes(right)
    case _ => 0
  }

  /** When the per-type math operations emit no returns, lowering emits exactly
      one return instruction per `return` expression. */
  lemma {:induction false} ReturnsEmitted(types: TypeManager, variables: map<string, Value>,
                                          math: MathOperation, effect: Effects)
    requires forall t, op, a, b :: CountReturns(math(t, op, a, b).code) == 0
    requires CompileEffect(types, variables, math, effect).Ok?
    ensures CountReturns(CompileEffect(types, variables, math, effect).value.code) == ReturnNodes(effect)
  {
    match effect
    case ReturnEffect(inner) =>
      ReturnsEmitted(types, variables, math, inner);
      var l := CompileEffect(types, variables, math, inner).value;
      CountReturnsAppend(l.code, [BuildReturn(Some(l.value.value))]);
    case MathEffect(op, left, right) =>
      ReturnsEmitted(types, variables, math, left);
      ReturnsEmitted(types, variables, math, right);
      var l := CompileEffect(types, variables, math, left).value;
      var rt := CompileEffect(types, variables, math, right).value;
      var m := math(l.value.valueType, op, l.value, rt.value);
      CountReturnsAppend(l.code, rt.code);
      CountReturnsAppend(l.code + rt.code, m.code);
    case _ =>
  }

  // ---------------------------------------------------------------------
  // Blocks (`compile_block`).

  /** Two lowerings one after the other: the first one's error, else the
      second one's error, else both call sequences in order. */
  function Then(first: Result<seq<Instr>, CompileError>,
                second: Result<seq<Instr>, CompileError>): Result<seq<Instr>, CompileError>
  {
    match first
    case Err(_) => first
    case Ok(a) =>
      (match second
       case Err(_) => second
       case Ok(b) => Ok(a + b))
  }

  lemma ThenAssociates(a: Result<seq<Instr>, CompileError>, b: Result<seq<Instr>, CompileError>,
                       c: Result<seq<Instr>, CompileError>)
    ensures Then(Then(a, b), c) == Then(a, Then(b, c))
  {
    if a.Ok? && b.Ok? && c.Ok? {
      assert a.value + b.value + c.value == a.value + (b.value + c.value);
    }
  }

  /** The builder calls of one line, or its error. */
  function LineLowering(types: TypeManager, variables: map<string, Value>, math: MathOperation,
                        line: Expression): Result<seq<Instr>, CompileError>
  {
    match CompileEffect(types, variables, math, line.effect)
    case Err(e) => Err(e)
    case Ok(l) => Ok(l.code)
  }

  /** The builder calls made by lowering `lines` in order, or the error of the
      first line that cannot be lowered. */
  function BlockLowering(types: TypeManager, variables: map<string, Value>, math: MathOperation,
                         lines: seq<Expression>): (r: Result<seq<Instr>, CompileError>)
    ensures r.Err? ==> r.error.MissingType? || r.error.UnknownVariable? || r.error.NotImplemented?
  {
    if lines == [] then Ok([])
    else Then(BlockLowering(types, variables, math, lines[..|lines| - 1]),
              LineLowering(types, variables, math, lines[|lines| - 1]))
  }

  /** A block lowers exactly when every one of its lines does. */
  lemma {:induction false} BlockLoweringSucceeds(types: TypeManager, variables: map<string, Value>,
                                                 math: MathOperation, lines: seq<Expression>)
    ensures BlockLowering(types, variables, math, lines).Ok?
        <==> forall i :: 0 <= i < |lines| ==> Lowerable(types, variables.Keys, lines[i].effect)
  {
    if lines != [] {
      var init := lines[..|lines| - 1];
      BlockLoweringSucceeds(types, variables, math, init);
      CompileEffectSucceeds(types, variables, math, lines[|lines| - 1].effect);
      assert forall i :: 0 <= i < |init| ==> init[i] == lines[i];
    }
  }

  /** Lowering a block is lowering its front and then its back: every line is
      lowered once, in source order, and the first failure is the result. */
  lemma {:induction false} BlockLoweringSplits(types: TypeManager, variables: map<string, Value>,
                                               math: MathOperation, xs: seq<Expression>, ys: seq<Expression>)
    ensures BlockLowering(types, variables, math, xs + ys)
         == Then(BlockLowering(types, variables, math, xs), BlockLowering(types, variables, math, ys))
  {
    var front := BlockLowering(types, variables, math, xs);
    if ys == [] {
      assert xs + ys == xs;
      if front.Ok? {
        assert front.value + [] == front.value;
      }
    } else {
      var init := ys[..|ys| - 1];
      assert (xs + ys)[..|xs + ys| - 1] == xs + init;
      assert (xs + ys)[|xs + ys| - 1] == ys[|ys| - 1];
      BlockLoweringSplits(types, variables, math, xs, init);
      ThenAssociates(front, BlockLowering(types, variables, math, init),
                     LineLowering(types, variables, math, ys[|ys| - 1]));
    }
  }

  /** Lowering the first `i + 1` lines is lowering the first `i`, then line `i`. */
  lemma BlockLoweringPrefix(types: TypeManager, variables: map<string, Value>, math: MathOperation,
                            lines: seq<Expression>, i: nat)
    requires i < |lines|
    ensures BlockLowering(types, variables, math, lines[..i + 1])
         == Then(BlockLowering(types, variables, math, lines[..i]), LineLowering(types, variables, math, lines[i]))
  {
    assert lines[..i + 1][..i] == lines[..i];
  }

  /** The first line that fails decides the whole block. */
  lemma BlockLoweringStops(types: TypeManager, variables: map<string, Value>, math: MathOperation,
                           lines: seq<Expression>, i: nat)
    requires i < |lines|
    requires BlockLowering(types, variables, math, lines[..i]).Ok?
    requires LineLowering(types, variables, math, lines[i]).Err?
    ensures BlockLowering(types, variables, math, lines) == LineLowering(types, variables, math, lines[i])
  {
    BlockLoweringPrefix(types, variables, math, lines, i);
    BlockLoweringSplits(types, variables, math, lines[..i + 1], lines[i + 1..]);
    assert lines[..i + 1] + lines[i + 1..] == lines;
  }

  /** One step of `compile_block`: line `i` either fails, and its error is the
      block's, or extends the calls made so far by its own. */
  lemma BlockLoweringStep(types: TypeManager, variables: map<string, Value>, math: MathOperation,
                          lines: seq<Expression>, i: nat, emitted: seq<Instr>)
    requires i < |lines|
    requires BlockLowering(types, variables, math, lines[..i]) == Ok(emitted)
    ensures var l := CompileEffect(types, variables, math, lines[i].effect);
      && (l.Err? ==> BlockLowering(types, variables, math, lines) == Err(l.error))
      && (l.Ok? ==> BlockLowering(types, variables, math, lines[..i + 1]) == Ok(emitted + l.value.code))
  {
    BlockLoweringPrefix(types, variables, math, lines, i);
    if CompileEffect(types, variables, math, lines[i].effect).Err? {
      BlockLoweringStops(types, variables, math, lines, i);
    }
  }

  /** `compile_block`: lowers every line of the body, in order, into the builder. */
  method CompileBlock(func: Function, types: TypeManager, variables: map<string, Value>,
                      math: MathOperation, builder: ModuleBuilder) returns (r: Result<(), CompileError>)
    modifies builder
    ensures var spec := BlockLowering(types, variables, math, func.code.expressions);
      && (r.Ok? <==> spec.Ok?)
      && (r.Err? ==> r.error == spec.error)
      && (spec.Ok? ==> builder.code == old(builder.code) + spec.value)
  {
    var lines := func.code.expressions;
    ghost var emitted: seq<Instr> := [];
    for i := 0 to |lines|
      invariant BlockLowering(types, variables, math, lines[..i]) == Ok(emitted)
      invariant builder.code == old(builder.code) + emitted
    {
      var lowered := CompileEffect(types, variables, math, lines[i].effect);
      BlockLoweringStep(types, variables, math, lines, i, emitted);
      if lowered.Err? {
        return Err(lowered.error);
      }
      builder.Emit(lowered.value.code);
      emitted := emitted + lowered.value.code;
    }
    assert lines[..|lines|] == lines;
    r := Ok(());
  }

  // ---------------------------------------------------------------------
  // Functions (`compile_function`).

  /** The parameter types: each field's declared type, in field order; the
      first field whose type is unknown is fatal. */
  function ParamTypes(types: TypeManager, fields: seq<Field>): (r: Result<seq<LlvmType>, CompileError>)
    ensures r.Ok? <==> forall i :: 0 <= i < |fields| ==> fields[i].fieldType in types.types
    ensures r.Ok? ==> |r.value| == |fields|
    ensures r.Ok? ==> forall i :: 0 <= i < |fields| ==> r.value[i] == types.types[fields[i].fieldType].llvm
    ensures r.Err? ==>
      exists i :: 0 <= i < |fields| && r.error == MissingType(fields[i].fieldType)
        && fields[i].fieldType !in types.types
        && forall j :: 0 <= j < i ==> fields[j].fieldType in types.types
  {
    if fields == [] then Ok([])
    else
      match types.LlvmTypeOf(fields[0].fieldType)
      case Err(e) => Err(e)
      case Ok(t) =>
        match ParamTypes(types, fields[1..])
        case Err(e) =>
          assert forall k :: 1 <= k < |fields| ==> fields[k] == fields[1..][k - 1];
          Err(e)
        case Ok(rest) => Ok([t] + rest)
  }

  /** The signature: the declared return type, or void when none is declared,
      over the parameter types. The return type is looked up first. */
  function Signature(types: TypeManager, f: Function): (r: Result<FnType, CompileError>)
    ensures r.Ok? <==> (f.returnType.Some? ==> f.returnType.value in types.types)
                       && forall i :: 0 <= i < |f.fields| ==> f.fields[i].fieldType in types.types
    ensures f.returnType.Some? && f.returnType.value !in types.types ==> r == Err(MissingType(f.returnType.value))
  {
    var ret := match f.returnType
      case Some(name) => types.LlvmTypeOf(name)
      case None => Ok(VoidType);
    match ret
    case Err(e) => Err(e)
    case Ok(rt) =>
      match ParamTypes(types, f.fields)
      case Err(e) => Err(e)
      case Ok(params) => Ok(FnType(rt, params))
  }

  /** The builder calls `compile_function` makes for a function with signature
      `sig`, before its trailing-return check. */
  function Prologue(f: Function, sig: FnType): seq<Instr> {
    var fv := FunctionValue(f.name, sig);
    [AddFunction(fv), AppendBasicBlock(BasicBlock(fv, "entry")), PositionAtEnd(BasicBlock(fv, "entry"))]
  }

  /** What `compile_function` produces: the function value and every builder
      call, or the fatal error. */
  function FunctionLowering(types: TypeManager, f: Function): (r: Result<(FunctionValue, seq<Instr>), CompileError>)
    ensures Signature(types, f).Err? ==> r == Err(Signature(types, f).error)
    ensures r.Ok? ==> Signature(types, f).Ok? && r.value.0 == FunctionValue(f.name, Signature(types, f).value)
    ensures r.Ok? ==> |r.value.1| >= 3 && r.value.1[0] == AddFunction(r.value.0)
  {
    match Signature(types, f)
    case Err(e) => Err(e)
    case Ok(sig) =>
      if EndsWithReturn(f) then Ok((FunctionValue(f.name, sig), Prologue(f, sig)))
      else match f.returnType
        case Some(t) => Err(MissingReturn(t, f.name))
        case None => Ok((FunctionValue(f.name, sig), Prologue(f, sig) + [BuildReturn(None)]))
  }

  /** The signature maps the declared return type (void when absent) and the
      field types, one parameter per field in field order. */
  lemma SignatureMapsTypes(types: TypeManager, f: Function)
    requires Signature(types, f).Ok?
    ensures var sig := Signature(types, f).value;
      && (f.returnType.None? ==> sig.returnType == VoidType)
      && (f.returnType.Some? ==>
            f.returnType.value in types.types && sig.returnType == types.types[f.returnType.value].llvm)
      && |sig.params| == |f.fields|
      && forall i :: 0 <= i < |f.fields| ==> sig.params[i] == types.types[f.fields[i].fieldType].llvm
  {
  }

  /** The trailing-return rule: a body not ending in `return` is fatal when a
      return type is declared, and otherwise gets exactly one void return; a
      body ending in `return` gets none. The function is added under its own
      name with an `entry` block, and the builder is positioned at its end. */
  lemma TrailingReturnRule(types: TypeManager, f: Function)
    requires Signature(types, f).Ok?
    ensures var sig := Signature(types, f).value;
      var r := FunctionLowering(types, f);
      && (!EndsWithReturn(f) && f.returnType.Some? ==> r == Err(MissingReturn(f.returnType.value, f.name)))
      && (r.Ok? ==> r.value.0 == FunctionValue(f.name, sig) && r.value.1[..3] == Prologue(f, sig))
      && (r.Ok? ==> CountReturns(r.value.1) == if EndsWithReturn(f) then 0 else 1)
      && (r.Ok? && !EndsWithReturn(f) ==> r.value.1[|r.value.1| - 1] == BuildReturn(None))
    ensures FunctionLowering(types, f).Ok? <==> EndsWithReturn(f) || f.returnType.None?
  {
    var sig := Signature(types, f).value;
    var p := Prologue(f, sig);
    assert p[1..][1..][1..] == [];
    assert CountReturns(p[1..][1..]) == 0;
    assert CountReturns(p) == 0;
    CountReturnsAppend(p, [BuildReturn(None)]);
  }

  /** `compile_function`: builds the signature, adds the function with an
      `entry` block, positions the builder there, and applies the
      trailing-return rule. The body itself is not lowered here. */
  method CompileFunction(func: Function, types: TypeManager, builder: ModuleBuilder)
    returns (r: Result<FunctionValue, CompileError>)
    modifies builder
    ensures var spec := FunctionLowering(types, func);
      && (r.Ok? <==> spec.Ok?)
      && (r.Ok? ==> r.value == spec.value.0 && builder.code == old(builder.code) + spec.value.1)
      && (r.Err? ==> r.error == spec.error)
  {
    var returnType: LlvmType;
    match func.returnType {
      case Some(found) =>
        var t := types.LlvmTypeOf(found);
        if t.Err? {
          return Err(t.error);
        }
        returnType := t.value;
      case None =>
        returnType := VoidType;
    }
    var params := ParamTypes(types, func.fields);
    if params.Err? {
      return Err(params.error);
    }
    var fnValue := builder.AddFunctionNamed(func.name, FnType(returnType, params.value));
    var block := builder.AppendBlock(fnValue, "entry");
    builder.PositionAt(block);
    if !EndsWithReturn(func) {
      match func.returnType {
        case Some(t) =>
          return Err(MissingReturn(t, func.name));
        case None =>
          builder.Return(None);
      }
    }
    r := Ok(fnValue);
  }
}
