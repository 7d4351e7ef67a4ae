/** The machine code of `return x`, run. */
module LuaTheorem {
  import opened LuaMachine
  import opened LuaExpr
  import opened LuaMeaning
  import opened LuaExact
  import opened LuaGen
  import opened LuaThreads
  import opened LuaRunProof
  import opened LuaStepProof
  import opened LuaExpProof
  import opened LuaOperandProof
  import opened LuaCompileProof
  import opened LuaFlowProof
  import opened LuaListProof
  import opened LuaCode

  // ----- the finished instructions, decoded

  function DecodeRK(k: seq<Value>, c: int): Operand {
    if BITRK <= c < BITRK + |k| then Const(k[c - BITRK]) else Reg(c)
  }

  function Decode(k: seq<Value>, i: int, c: Instruction): Instr {
    match c
    case OP_MOVE(a, b) => Move(a, b)
    case OP_LOADK(a, bx) => LoadK(a, if 0 <= bx < |k| then k[bx] else Nil)
    case OP_LOADBOOL(a, b, c) => LoadBool(a, b != 0, c != 0)
    case OP_LOADNIL(a, b) => LoadNil(a, b)
    case OP_NOT(a, b) => NotOp(a, b)
    case OP_JMP(sbx) => Jmp(i + 1 + sbx)
    case OP_COMPARE(op, a, b, c) => Compare(op, a != 0, DecodeRK(k, b), DecodeRK(k, c))
    case OP_TEST(a, c) => Test(a, c != 0)
    case OP_TESTSET(a, b, c) => TestSet(a, b, c != 0)
    case OP_RETURN(a, _) => Return(a)
  }

  function DecodeAll(k: seq<Value>, code: seq<Instruction>): (a: seq<Instr>)
    ensures |a| == |code|
  {
    seq(|code|, i requires 0 <= i < |code| => Decode(k, i, code[i]))
  }

  // A run of the array itself and one of the code it represents agree until a pending jump.
  lemma {:induction false} DecodedRun(o: Order, k: seq<Value>, code: seq<Instruction>, a: seq<Instr>, pc: nat,
          rho: Regs)
    requires SameCode(k, code, a) && NoHole(a)
    requires var s := Run(o, a, pc, rho); !(0 <= s.pc < |a| && a[s.pc] == Jmp(PENDING))
    ensures Run(o, DecodeAll(k, code), pc, rho) == Run(o, a, pc, rho)
    decreases |a| - pc
  {
    if pc < |a| {
      assert Same(k, pc, code[pc], a[pc]);
      var n := Next(o, a[pc], pc, rho);
      if a[pc] != Jmp(PENDING) {
        assert Decode(k, pc, code[pc]) == a[pc];
        if n.pc > pc { DecodedRun(o, k, code, a, n.pc, n.regs); }
      }
    }
  }

  // ----- the generator's part

  lemma ReservedOK(s: Gen, g: Exp, p0: nat)
    requires WF(s) && ExpOK(s, g, p0)
    ensures ExpOK(Reserve(s), g, p0) && Own(Reserve(s), g) == Own(s, g)
    ensures ExpToNextReg(s, g) == ExpToReg(Reserve(s), g, s.freereg)
  {
  }

  lemma NextRegRun(o: Order, s: Gen, x: Expr, p0: nat, rho0: Regs, c: Carry)
    requires Ready(s, x, p0, rho0)
    requires var S := Run(o, s.code, p0, rho0); Arrived(s, S) && CarryOf(s.code, S) == Strip(c)
    ensures var s2 := ExpToNextReg(Compile(s, x).0, Compile(s, x).1);
      var S, S2 := Run(o, s.code, p0, rho0), Run(o, s2.code, p0, rho0);
      && WF(s2) && Safe(s2.code, p0) && NoHole(s2.code) && Arrived(s2, S2)
      && SameBelow(S.regs, S2.regs, s.freereg)
      && Get(S2.regs, s.freereg) == Final(Leave(o, x, Env(S.regs, s.nactvar), c))
  {
    var (s1, g) := Compile(s, x);
    CompileKeeps(o, s, x, p0, rho0);
    CompileFlow(o, s, x, p0, rho0, c);
    var s1' := Reserve(s1);
    ReservedOK(s1, g, p0);
    ExpToRegKeeps(o, s1', g, s.freereg, p0, rho0);
    ExpToRegFlow(o, s1', g, s.freereg, p0, rho0, Leave(o, x, Env(Run(o, s.code, p0, rho0).regs, s.nactvar), c));
  }

  lemma ReturnRun(o: Order, s: Gen, r: int, p0: nat, rho0: Regs)
    requires WF(s) && Safe(s.code, p0) && NoHole(s.code) && Arrived(s, Run(o, s.code, p0, rho0))
    ensures var s' := Emit(s, Return(r));
      && NoHole(s'.code) && |s'.code| > 0 && s'.code[|s'.code| - 1] == Return(r)
      && Run(o, s'.code, p0, rho0) == Stop(|s'.code| - 1, Run(o, s.code, p0, rho0).regs)
  {
    DischargeRun(o, s, p0, rho0);
    var d := Discharge(s);
    AppendRun(o, d.code, s.lasttarget, [Return(r)], p0, rho0);
  }

  /** Whatever the expression and the registers, the code of `return x` stops at its RETURN with
      the compiled value in the first free register and no register below it changed.  The
      state s is any the generator can be in: jumps may be waiting for the next instruction,
      and c is the value such a jump carries. */
  lemma ReturnsAsCompiled(o: Order, k: seq<Value>, code: seq<Instruction>, s: Gen, x: Expr, p0: nat, rho0: Regs,
          c: Carry)
    requires Ready(s, x, p0, rho0) && SameCode(k, code, ReturnGen(s, x).code)
    requires var S := Run(o, s.code, p0, rho0); Arrived(s, S) && CarryOf(s.code, S) == Strip(c)
    ensures var S, R := Run(o, s.code, p0, rho0), Run(o, DecodeAll(k, code), p0, rho0);
      && R.pc == |code| - 1 && code[R.pc] == OP_RETURN(s.freereg, 2)
      && Get(R.regs, s.freereg) == Final(Leave(o, x, Env(S.regs, s.nactvar), c))
      && SameBelow(S.regs, R.regs, s.freereg)
  {
    NextRegRun(o, s, x, p0, rho0, c);
    var s2 := ExpToNextReg(Compile(s, x).0, Compile(s, x).1);
    ReturnRun(o, s2, s.freereg, p0, rho0);
    var s3 := ReturnGen(s, x);
    DecodedRun(o, k, code, s3.code, p0, rho0);
    assert Same(k, |code| - 1, code[|code| - 1], s3.code[|code| - 1]);
  }

  /** At a label, or in a function without code and with its temporaries nil, the value is the
      expression's own whenever the expression is clean. */
  lemma ReturnsValue(o: Order, k: seq<Value>, code: seq<Instruction>, s: Gen, x: Expr, rho: Regs)
    requires Ready(s, x, |s.code|, rho) && SameCode(k, code, ReturnGen(s, x).code)
    requires Clean(x, false)
    ensures var R := Run(o, DecodeAll(k, code), |s.code|, rho);
      && R.pc == |code| - 1 && code[R.pc] == OP_RETURN(s.freereg, 2)
      && Get(R.regs, s.freereg) == Eval(o, x, Env(rho, s.nactvar))
      && SameBelow(rho, R.regs, s.freereg)
  {
    EndIsSafe(s);
    assert Run(o, s.code, |s.code|, rho) == Stop(|s.code|, rho);
    ReturnsAsCompiled(o, k, code, s, x, |s.code|, rho, None);
    CleanCompiles(o, x, Env(rho, s.nactvar));
  }

  /** Exactly when it is, for any expression whose comparisons have unspoiled operands. */
  lemma ReturnsValueExactly(o: Order, k: seq<Value>, code: seq<Instruction>, s: Gen, x: Expr, rho: Regs)
    requires Ready(s, x, |s.code|, rho) && SameCode(k, code, ReturnGen(s, x).code)
    requires Unspoiled(o, x, Env(rho, s.nactvar), None)
    ensures var R := Run(o, DecodeAll(k, code), |s.code|, rho);
      Get(R.regs, s.freereg) == Eval(o, x, Env(rho, s.nactvar)) <==> !Spoiled(Leave(o, x, Env(rho, s.nactvar), None))
  {
    EndIsSafe(s);
    assert Run(o, s.code, |s.code|, rho) == Stop(|s.code|, rho);
    ReturnsAsCompiled(o, k, code, s, x, |s.code|, rho, None);
    CompiledExactly(o, x, Env(rho, s.nactvar));
  }

  // The code of `return x` gives the value of x for these registers.
  ghost predicate ReturnsRight(o: Order, k: seq<Value>, code: seq<Instruction>, s: Gen, x: Expr, rho: Regs)
    requires s.nactvar >= 0 && Scoped(x, s.nactvar)
  {
    Get(Run(o, DecodeAll(k, code), |s.code|, rho).regs, s.freereg) == Eval(o, x, Env(rho, s.nactvar))
  }

  /** And exactly when it always is, for expressions without comparisons: a condition on the text alone. */
  lemma ReturnsValueAlways(o: Order, k: seq<Value>, code: seq<Instruction>, s: Gen, x: Expr)
    requires Ready(s, x, |s.code|, map[]) && SameCode(k, code, ReturnGen(s, x).code) && Free(x)
    ensures (forall rho: Regs :: Ready(s, x, |s.code|, rho) ==> ReturnsRight(o, k, code, s, x, rho))
      <==> NeverSpoils(x, s.nactvar)
  {
    ValueExactly(o, x, s.nactvar);
    if NeverSpoils(x, s.nactvar) {
      forall rho: Regs | Ready(s, x, |s.code|, rho)
        ensures ReturnsRight(o, k, code, s, x, rho)
      {
        ReturnedAsCompiled(o, k, code, s, x, rho);
      }
    } else {
      var env: seq<Value> :| |env| == s.nactvar && AsCompiled(o, x, env) != Eval(o, x, env);
      var rho := Locals(env);
      assert Env(rho, s.nactvar) == env;
      LocalsReady(s, x, env);
      ReturnedAsCompiled(o, k, code, s, x, rho);
      assert !ReturnsRight(o, k, code, s, x, rho);
    }
  }

  // Registers that hold variables only.
  function Locals(env: seq<Value>): Regs {
    map i | 0 <= i < |env| :: env[i]
  }

  lemma LocalsReady(s: Gen, x: Expr, env: seq<Value>)
    requires Ready(s, x, |s.code|, map[]) && |env| == s.nactvar
    ensures Ready(s, x, |s.code|, Locals(env))
  {
  }

  lemma ReturnedAsCompiled(o: Order, k: seq<Value>, code: seq<Instruction>, s: Gen, x: Expr, rho: Regs)
    requires Ready(s, x, |s.code|, rho) && SameCode(k, code, ReturnGen(s, x).code)
    ensures Get(Run(o, DecodeAll(k, code), |s.code|, rho).regs, s.freereg) == AsCompiled(o, x, Env(rho, s.nactvar))
  {
    EndIsSafe(s);
    assert Run(o, s.code, |s.code|, rho) == Stop(|s.code|, rho);
    ReturnsAsCompiled(o, k, code, s, x, |s.code|, rho, None);
  }

  /** The generator at the start of a function. */
  const NEW_FUNCTION := Gen([], {}, -1, 0, 0)

  /** And it is not always: generated from nothing, the code of `return (('hi' or true) and true) or true`
      returns 'hi', where the expression is true. */
  lemma ReturnsWrongValue(o: Order, k: seq<Value>, code: seq<Instruction>)
    requires SameCode(k, code, ReturnGen(NEW_FUNCTION, StaleExpr()).code)
    ensures Ready(NEW_FUNCTION, StaleExpr(), 0, map[])
    ensures var R := Run(o, DecodeAll(k, code), 0, map[]);
      && R.pc == |code| - 1 && code[R.pc] == OP_RETURN(0, 2)
      && Get(R.regs, 0) == Str("hi") && Eval(o, StaleExpr(), []) == Bool(true)
  {
    hide ReturnGen, Leave, Eval, Same, DecodeAll;
    NewFunctionReady();
    assert Run(o, NEW_FUNCTION.code, 0, map[]) == Stop(0, map[]);
    ReturnsAsCompiled(o, k, code, NEW_FUNCTION, StaleExpr(), 0, map[], None);
    WrongValue(o);
    assert Env(map[], 0) == [];
  }

  lemma NewFunctionReady()
    ensures Ready(NEW_FUNCTION, StaleExpr(), 0, map[])
  {
    var t := Literal(Bool(true));
    var a := Or(Literal(Str("hi")), t);
    assert Temps(a) <= 2 && Temps(And(a, t)) <= 3;
  }

  /** Conditions: after the code of `if x then` (truth) or its dual, control goes on exactly
      when x is true (false), and otherwise stands at a jump of the list that leaves. */
  lemma BranchesOnTruth(o: Order, s: Gen, x: Expr, truth: bool, p0: nat, rho0: Regs, c: Carry)
    requires Ready(s, x, p0, rho0)
    requires var S := Run(o, s.code, p0, rho0);
      Arrived(s, S) && CarryOf(s.code, S) == Strip(c) && Unspoiled(o, x, Env(S.regs, s.nactvar), c)
    ensures var (s1, g) := Compile(s, x);
      var (s2, away) := GoIf(s1, g, truth);
      var S, S2 := Run(o, s.code, p0, rho0), Run(o, s2.code, p0, rho0);
      && SameBelow(S.regs, S2.regs, s.freereg)
      && (if Truth(Eval(o, x, Env(S.regs, s.nactvar))) == truth then Arrived(s2, S2) else S2.pc in away && !Arrived(s2, S2))
  {
    var S := Run(o, s.code, p0, rho0);
    var env := Env(S.regs, s.nactvar);
    var (s1, g) := Compile(s, x);
    CompileKeeps(o, s, x, p0, rho0);
    CompileFlow(o, s, x, p0, rho0, c);
    BranchStep(o, s, x, truth, p0, rho0, Leave(o, x, env, c));
    BranchesByTruth(o, x, env, c, truth);
    BranchOut(ShapeOf(x), Leave(o, x, env, c), truth);
    var (s2, away) := GoIf(s1, g, truth);
    assert forall j :: j in away ==> j < |s2.code|;
  }

  /** So for every condition whose comparisons have atoms as operands, literals included. */
  lemma ConditionsBranchOnTruth(o: Order, s: Gen, x: Expr, truth: bool, p0: nat, rho0: Regs, c: Carry)
    requires Ready(s, x, p0, rho0) && AtomicRels(x)
    requires var S := Run(o, s.code, p0, rho0); Arrived(s, S) && CarryOf(s.code, S) == Strip(c)
    ensures var (s1, g) := Compile(s, x);
      var (s2, away) := GoIf(s1, g, truth);
      var S, S2 := Run(o, s.code, p0, rho0), Run(o, s2.code, p0, rho0);
      if Truth(Eval(o, x, Env(S.regs, s.nactvar))) == truth then Arrived(s2, S2) else S2.pc in away && !Arrived(s2, S2)
  {
    var env := Env(Run(o, s.code, p0, rho0).regs, s.nactvar);
    AtomsUnspoiled(o, x, env, c);
    BranchesOnTruth(o, s, x, truth, p0, rho0, c);
  }

  /** No jump made for x stays unresolved in the code of `return x`. */
  lemma AllJumpsResolved(s: Gen, x: Expr, p0: nat, rho0: Regs)
    requires Ready(s, x, p0, rho0)
    ensures NoLoss(s.code, ReturnGen(s, x).code, s.jpc, {})
  {
    hide NoLoss, Run, CodeOK, NoHole, Keeps, PendingAll, KindOK, Compile, Emit, ExpToReg, ExpToNextReg;
    var o := SOME_ORDER;
    var (s1, g) := Compile(s, x);
    CompileKeeps(o, s, x, p0, rho0);
    CompileNoLoss(o, s, x, p0, rho0);
    var s1' := Reserve(s1);
    ReservedOK(s1, g, p0);
    ExpToRegNoLoss(o, s1', g, s.freereg, p0, rho0);
    var s2 := ExpToNextReg(s1, g);
    EmitNoLoss(s2, Return(s.freereg));
    NoLossTrans(s.code, s1.code, s2.code, s.jpc, Own(s1, g), s2.jpc);
    NoLossTrans(s.code, s2.code, ReturnGen(s, x).code, s.jpc, s2.jpc, {});
  }
}
