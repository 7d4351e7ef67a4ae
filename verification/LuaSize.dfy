/** How much code an expression becomes: no more than its text calls for. */
module LuaSize {
  import opened LuaMachine
  import opened LuaExpr
  import opened LuaGen
  import opened LuaRunProof
  import opened LuaStepProof
  import opened LuaExpProof
  import opened LuaCondProof
  import opened LuaOperandProof
  import opened LuaCompileProof
  import opened LuaCode

  /** Whether a jump out of x may be pending that carries no value: one of a comparison, of a `not` or of a literal. */
  predicate Valueless(x: Expr) {
    match x
    case Local(_) => false
    case Literal(_) => false
    case Not(e) => Leaves(e, true) || Leaves(e, false)
    case And(l, r) => Valueless(l) || Valueless(r) || ShapeOf(l) in {SRel, SNot, SLit(Bool(false))}
    case Or(l, r) => Valueless(l) || Valueless(r) || ShapeOf(l) in {SRel, SNot, SLit(Bool(true))}
    case Rel(_, _, _, _, _) => false
  }

  /** What it takes to leave when the outcome is not the one wanted: nothing behind a comparison, whose jump is there, or
      a literal with that outcome; a jump for the other truth value; a test and a jump otherwise, which for a `not` take
      the place of its instruction. */
  function Branching(sh: Shape, truth: bool): nat {
    match sh
    case SRel => 0
    case SNot => 1
    case SLocal => 2
    case SLit(v) => if Truth(v) == truth then 0 else if v == Bool(!truth) then 1 else 3
  }

  // What it takes to get the value into a register.
  function Loading(x: Expr): nat {
    match ShapeOf(x)
    case SRel => 2
    case SNot => if Valueless(x) then 3 else 0
    case _ => if Valueless(x) then 4 else 1
  }

  // An operand of a comparison.
  function Fetching(x: Expr, room: bool): nat {
    if Plain(x) && (ShapeOf(x).SLocal? || room) then 0 else Loading(x)
  }

  /** The number of instructions an expression becomes, at most. */
  function Size(x: Expr): nat {
    match x
    case Local(_) => 0
    case Literal(_) => 0
    case Not(e) => Size(e) + if ShapeOf(e).SLit? || ShapeOf(e).SRel? then 0 else 1
    case And(l, r) => Size(l) + Branching(ShapeOf(l), true) + Size(r)
    case Or(l, r) => Size(l) + Branching(ShapeOf(l), false) + Size(r)
    case Rel(_, l, r, lroom, rroom) => Size(l) + Fetching(l, lroom) + Size(r) + Fetching(r, rroom) + 2
  }

  // ----- the steps

  ghost predicate AllValued(code: seq<Instr>, l: set<int>) {
    forall j :: j in l ==> Valued(code, j)
  }

  lemma DischargeSize(s: Gen, k: Kind, reg: int)
    ensures |DischargeToReg(s, k, reg).code| <= |s.code| + if k.KLit? || k.KReg? then 1 else 0
  {
  }

  lemma AnySize(s: Gen, k: Kind)
    ensures |DischargeToAny(s, k).0.code| <= |s.code| + if k.KLit? then 1 else 0
  {
    hide DischargeToReg;
    DischargeSize(Reserve(s), k, s.freereg);
  }

  lemma TestSize(s: Gen, k: Kind, cond: bool, p0: nat)
    requires KindOK(s, k, p0)
    ensures |JumpOnCond(s, k, cond).code| <= |s.code| + if k.KReloc? then 1 else if k.KLit? then 3 else 2
  {
    hide DischargeToAny, NoHole;
    AnySize(s, k);
  }

  lemma GoIfSize(s: Gen, e: Exp, sh: Shape, truth: bool, p0: nat)
    requires KindOK(s, e.k, p0) && Fits(e.k, sh)
    ensures |GoIf(s, e, truth).0.code| <= |s.code| + Branching(sh, truth)
  {
    hide JumpOnCond, NoHole;
    TestSize(s, e.k, !truth, p0);
  }

  lemma NotSize(s: Gen, e: Exp)
    ensures |CodeNot(s, e).0.code| <= |s.code| + if e.k.KLit? || e.k.KJmp? then 0 else 1
  {
    hide DischargeToAny;
    AnySize(s, e.k);
  }

  lemma ToRegSize(s: Gen, e: Exp, reg: int)
    ensures |ExpToReg(s, e, reg).code| <= |s.code|
      + (match e.k case KJmp(_) => 2 case KReloc(_) => 0 case _ => 1)
      + if e.k.KJmp? || !(NeedValue(DischargeToReg(s, e.k, reg).code, e.t) || NeedValue(DischargeToReg(s, e.k, reg).code, e.f)) then 0 else 3
  {
    hide DischargeToReg;
    DischargeSize(s, e.k, reg);
  }

  // ----- which jumps carry values

  lemma LoadValued(s: Gen, k: Kind, reg: int, l: set<int>)
    requires AllValued(s.code, l) && l !! s.jpc
    ensures AllValued(DischargeToReg(s, k, reg).code, l)
  {
  }

  lemma CondValued(s: Gen, i: Instr, l: set<int>)
    requires AllValued(s.code, l) && l !! s.jpc
    ensures AllValued(CondJump(s, i).code, l)
  {
  }

  lemma TestValued(s: Gen, k: Kind, cond: bool, p0: nat, l: set<int>)
    requires KindOK(s, k, p0) && AllValued(s.code, l) && l !! s.jpc && !k.KJmp? && PendingAll(s.code, l)
    ensures AllValued(JumpOnCond(s, k, cond).code, l)
    ensures !k.KReloc? ==> Valued(JumpOnCond(s, k, cond).code, |JumpOnCond(s, k, cond).code| - 1)
  {
    hide NoHole, DischargeToReg;
    if k.KReloc? {
      var c := s.(code := s.code[..|s.code| - 1]);
      assert AllValued(c.code, l);
      CondValued(c, Test(s.code[|s.code| - 1].b, !cond), l);
    } else if !k.KReg? {
      LoadValued(Reserve(s), k, s.freereg, l);
      LoadPending(Reserve(s), k, s.freereg, l);
    }
  }

  lemma LoadPending(s: Gen, k: Kind, reg: int, l: set<int>)
    requires l !! s.jpc
    ensures l !! DischargeToReg(s, k, reg).jpc
  {
  }

  lemma GoIfValued(s: Gen, e: Exp, truth: bool, p0: nat)
    requires ExpOK(s, e, p0) && AllValued(s.code, if truth then e.f else e.t)
    requires match e.k case KReg(_) => true case KLit(v) => v != Bool(!truth) case _ => false
    ensures AllValued(GoIf(s, e, truth).0.code, GoIf(s, e, truth).1)
  {
    hide JumpOnCond, NoHole;
    if e.k.KReg? || Truth(e.k.v) != truth {
      TestValued(s, e.k, !truth, p0, if truth then e.f else e.t);
    }
  }

  lemma KeptValued(c: seq<Instr>, c': seq<Instr>, own: set<int>, l: set<int>)
    requires Keeps(c, c', own) && PendingAll(c, l) && l !! own && AllValued(c, l)
    ensures AllValued(c', l)
  {
    hide Keeps, PendingAll;
    KeepsPending(c, c', own, l);
    forall j | j in l
      ensures Valued(c', j)
    {
      assert Valued(c, j) && CarryOf(c', Stop(j, map[])) == CarryOf(c, Stop(j, map[]));
    }
  }

  // ----- whole expressions

  ghost predicate Sized(s: Gen, x: Expr, s': Gen, e': Exp) {
    && |s'.code| <= |s.code| + Size(x)
    && (!Valueless(x) ==> AllValued(s'.code, e'.t) && AllValued(s'.code, e'.f))
  }

  lemma LoadedSize(s: Gen, x: Expr, e: Exp, n: int, p0: nat)
    requires ExpOK(s, e, p0) && Fits(e.k, ShapeOf(x))
    requires !Valueless(x) ==> AllValued(s.code, e.t) && AllValued(s.code, e.f)
    ensures |ExpToReg(s, e, n).code| <= |s.code| + Loading(x)
  {
    hide ExpToReg, DischargeToReg, NoHole, Keeps;
    ToRegSize(s, e, n);
    if !Valueless(x) && !e.k.KJmp? {
      LoadValued(s, e.k, n, e.t);
      LoadValued(s, e.k, n, e.f);
    }
  }

  lemma OperandSize(s: Gen, x: Expr, e: Exp, room: bool, p0: nat)
    requires ExpOK(s, e, p0) && Fits(e.k, ShapeOf(x)) && (e.t != {} <==> Leaves(x, true)) && (e.f != {} <==> Leaves(x, false))
    requires !Valueless(x) ==> AllValued(s.code, e.t) && AllValued(s.code, e.f)
    ensures |ExpToOperand(s, e, room).0.code| <= |s.code| + Fetching(x, room)
  {
    hide ExpToReg, NoHole, Loading;
    NextSize(s, x, e, p0);
  }

  lemma NextSize(s: Gen, x: Expr, e: Exp, p0: nat)
    requires ExpOK(s, e, p0) && Fits(e.k, ShapeOf(x))
    requires !Valueless(x) ==> AllValued(s.code, e.t) && AllValued(s.code, e.f)
    ensures |ExpToNextReg(s, e).code| <= |s.code| + Loading(x)
  {
    hide NoHole, Loading, ExpToReg;
    var s1 := Reserve(FreeKind(s, e.k));
    LoadedSize(s1, x, e, s1.freereg - 1, p0);
  }

  lemma {:induction false} CompileSize(o: Order, s: Gen, x: Expr, p0: nat, rho0: Regs)
    requires Ready(s, x, p0, rho0)
    ensures Sized(s, x, Compile(s, x).0, Compile(s, x).1)
    decreases x, 1
  {
    match x
    case Local(_) =>
    case Literal(_) =>
    case Not(e) => NotSized(o, s, x, p0, rho0);
    case And(l, r) => BranchSized(o, s, x, l, r, true, p0, rho0);
    case Or(l, r) => BranchSized(o, s, x, l, r, false, p0, rho0);
    case Rel(_, _, _, _, _) => RelSized(o, s, x, p0, rho0);
  }

  lemma {:induction false} NotSized(o: Order, s: Gen, x: Expr, p0: nat, rho0: Regs)
    requires x.Not? && Ready(s, x, p0, rho0)
    ensures Sized(s, x, Compile(s, x).0, Compile(s, x).1)
    decreases x, 0
  {
    hide Keeps, NoHole, KindOK, EntryOK, CodeNot, AllValued;
    var (s1, e1) := Compile(s, x.e);
    CompileKeeps(o, s, x.e, p0, rho0);
    CompileSize(o, s, x.e, p0, rho0);
    NotSize(s1, e1);
    NotLists(s1, e1);
  }

  lemma NotLists(s: Gen, e: Exp)
    ensures CodeNot(s, e).1.t == e.f && CodeNot(s, e).1.f == e.t
    ensures e.t == {} && e.f == {} ==> AllValued(CodeNot(s, e).0.code, e.t) && AllValued(CodeNot(s, e).0.code, e.f)
  {
  }

  lemma {:induction false} BranchSized(o: Order, s: Gen, x: Expr, l: Expr, r: Expr, truth: bool, p0: nat, rho0: Regs)
    requires x == (if truth then And(l, r) else Or(l, r)) && Ready(s, x, p0, rho0)
    ensures Sized(s, x, Compile(s, x).0, Compile(s, x).1)
    decreases x, 0
  {
    hide Keeps, NoHole, KindOK, EntryOK, GoIf, AllValued, Branching, Branches;
    var (s1, e1) := Compile(s, l);
    CompileKeeps(o, s, l, p0, rho0);
    CompileSize(o, s, l, p0, rho0);
    GoIfRun(o, s1, e1, ShapeOf(l), truth, p0, rho0);
    GoIfSize(s1, e1, ShapeOf(l), truth, p0);
    var (s2, exits) := GoIf(s1, e1, truth);
    var (s3, e3) := Compile(s2, r);
    CompileKeeps(o, s2, r, p0, rho0);
    CompileSize(o, s2, r, p0, rho0);
    if !Valueless(x) {
      GoIfValued(s1, e1, truth, p0);
      KeptValued(s2.code, s3.code, s2.jpc, exits);
      BothValued(s3.code, e3.t, exits);
      BothValued(s3.code, e3.f, exits);
    }
  }

  lemma BothValued(c: seq<Instr>, l: set<int>, m: set<int>)
    requires AllValued(c, l) && AllValued(c, m)
    ensures AllValued(c, l + m)
  {
  }

  lemma {:induction false} RelSized(o: Order, s: Gen, x: Expr, p0: nat, rho0: Regs)
    requires x.Rel? && Ready(s, x, p0, rho0)
    ensures Sized(s, x, Compile(s, x).0, Compile(s, x).1)
    decreases x, 0
  {
    hide Compile, ExpToOperand, CodeComp, Leaves, Keeps, NoHole, KindOK, EntryOK, Fetching, AllValued;
    RelForm(s, x);
    var (s1, e1) := Compile(s, x.l);
    CompileKeeps(o, s, x.l, p0, rho0);
    CompileSize(o, s, x.l, p0, rho0);
    OperandRun(o, s1, e1, x.lroom, p0, rho0);
    OperandSize(s1, x.l, e1, x.lroom, p0);
    var (s2, x1) := ExpToOperand(s1, e1, x.lroom);
    var (s3, e3) := Compile(s2, x.r);
    CompileKeeps(o, s2, x.r, p0, rho0);
    CompileSize(o, s2, x.r, p0, rho0);
    OperandSize(s3, x.r, e3, x.rroom, p0);
    var (s4, x2) := ExpToOperand(s3, e3, x.rroom);
    CompSize(s4, x.op, x1, x2);
    NoneValued(CodeComp(s4, x.op, x1, x2).code);
  }

  lemma CompSize(s: Gen, op: RelOp, x1: Operand, x2: Operand)
    ensures |LuaGen.CodeComp(s, op, x1, x2).code| == |s.code| + 2
  {
  }

  lemma NoneValued(c: seq<Instr>)
    ensures AllValued(c, {})
  {
  }

  /** `return x` takes no more instructions than Size and Loading count: constants and variables are operands where they
      can be, a literal is decided without a test, a `not` that is tested costs nothing of its own, and truth values are
      made only for jumps that carry none. */
  lemma ReturnSize(o: Order, s: Gen, x: Expr, p0: nat, rho0: Regs)
    requires Ready(s, x, p0, rho0)
    ensures |ReturnGen(s, x).code| <= |s.code| + Size(x) + Loading(x) + 1
  {
    hide ExpToNextReg, NoHole, Keeps, Loading, Size;
    var (s1, e1) := Compile(s, x);
    CompileKeeps(o, s, x, p0, rho0);
    CompileSize(o, s, x, p0, rho0);
    NextSize(s1, x, e1, p0);
  }
}
