/** Expressions without comparisons: a condition on the text that is met exactly when the code of one-pass
    compilation yields the value of the expression, whatever the variables hold. */
module LuaExact {
  import opened LuaMachine
  import opened LuaExpr
  import opened LuaMeaning

  // No comparison occurs in x.
  predicate Free(x: Expr) {
    match x
    case Local(_) => true
    case Literal(_) => true
    case Not(e) => Free(e)
    case And(l, r) => Free(l) && Free(r)
    case Or(l, r) => Free(l) && Free(r)
    case Rel(_, _, _, _, _) => false
  }

  // ----- where control goes, as far as the text says it, for given truths of the variables

  // A value: of a literal or of a variable.
  datatype Token = Lit(v: Value) | Var(i: nat)

  // The value a jump carries, if any; Mixed when it was taken over.
  datatype Mark = NoMark | Kept(t: Token) | Mixed(t: Token)

  datatype Way = Ends(m: Mark, t: Token) | Exits(truth: bool, m: Mark)

  function TruthOf(t: Token, ts: seq<bool>): bool {
    match t
    case Lit(v) => Truth(v)
    case Var(i) => i < |ts| && ts[i]
  }

  function Mix(m: Mark): Mark {
    if m.Kept? then Mixed(m.t) else m
  }

  function BranchWay(s: Shape, w: Way, ts: seq<bool>, truth: bool): Way {
    match w
    case Exits(b, m) => if b == truth then Ends(m, Lit(Nil)) else w
    case Ends(m, t) =>
      match s
      case SRel => if truth then Exits(false, NoMark) else Ends(NoMark, Lit(Nil))
      case SNot => if TruthOf(t, ts) == truth then Ends(NoMark, Lit(Nil)) else Exits(!truth, NoMark)
      case SLocal => if TruthOf(t, ts) == truth then Ends(NoMark, Lit(Nil)) else Exits(!truth, Kept(t))
      case SLit(k) =>
        if Truth(k) == truth then Ends(m, Lit(Nil))
        else if k == Bool(!truth) then Exits(!truth, Mix(m))
        else Exits(!truth, Kept(Lit(k)))
  }

  function NegateWay(s: Shape, w: Way, ts: seq<bool>): Way {
    match w
    case Exits(b, m) => Exits(!b, NoMark)
    case Ends(m, t) => Ends(if s.SLit? then m else NoMark, Lit(Bool(!TruthOf(t, ts))))
  }

  function WayOf(x: Expr, ts: seq<bool>, m: Mark): Way
    requires Free(x)
  {
    match x
    case Local(i) => Ends(m, Var(i))
    case Literal(v) => Ends(m, Lit(v))
    case Not(e) => NegateWay(ShapeOf(e), WayOf(e, ts, m), ts)
    case And(l, r) =>
      var b := BranchWay(ShapeOf(l), WayOf(l, ts, m), ts, true);
      if b.Ends? then WayOf(r, ts, b.m) else b
    case Or(l, r) =>
      var b := BranchWay(ShapeOf(l), WayOf(l, ts, m), ts, false);
      if b.Ends? then WayOf(r, ts, b.m) else b
  }

  // A value that was taken over is not the truth value the expression has: a variable's may always be another.
  predicate Spoils(w: Way) {
    w.Exits? && w.m.Mixed? && (w.m.t.Lit? ==> w.m.t.v != Bool(w.truth))
  }

  /** The condition on the text: for no truths of the n variables does control leave with such a value. */
  ghost predicate NeverSpoils(x: Expr, n: nat)
    requires Free(x)
  {
    forall ts: seq<bool> :: |ts| == n ==> !Spoils(WayOf(x, ts, NoMark))
  }

  // ----- the same for the values themselves

  function ValueOf(t: Token, env: seq<Value>): Value {
    match t
    case Lit(v) => v
    case Var(i) => if i < |env| then env[i] else Nil
  }

  function CarryFor(m: Mark, env: seq<Value>): Carry {
    match m
    case NoMark => None
    case Kept(t) => Some(ValueOf(t, env))
    case Mixed(t) => Merged(ValueOf(t, env))
  }

  function FlowFor(w: Way, env: seq<Value>): Flow {
    match w
    case Ends(m, t) => Arrive(CarryFor(m, env), ValueOf(t, env))
    case Exits(b, m) => Out(b, CarryFor(m, env))
  }

  function Truths(env: seq<Value>): (ts: seq<bool>)
    ensures |ts| == |env|
  {
    seq(|env|, i requires 0 <= i < |env| => Truth(env[i]))
  }

  lemma TruthFor(t: Token, env: seq<Value>)
    ensures Truth(ValueOf(t, env)) == TruthOf(t, Truths(env))
  {
  }

  lemma BranchFor(s: Shape, w: Way, env: seq<Value>, truth: bool)
    ensures Branch(s, FlowFor(w, env), truth) == FlowFor(BranchWay(s, w, Truths(env), truth), env)
  {
    if w.Ends? { TruthFor(w.t, env); }
  }

  lemma FreeShape(x: Expr)
    requires Free(x)
    ensures !ShapeOf(x).SRel?
  {
  }

  /** The text says where control goes. */
  lemma {:induction false} LeaveFor(o: Order, x: Expr, env: seq<Value>, m: Mark)
    requires Free(x) && Scoped(x, |env|)
    ensures Leave(o, x, env, CarryFor(m, env)) == FlowFor(WayOf(x, Truths(env), m), env)
  {
    var ts := Truths(env);
    match x
    case Local(_) =>
    case Literal(_) =>
    case Not(e) =>
      LeaveFor(o, e, env, m);
      FreeShape(e);
      var w := WayOf(e, ts, m);
      if w.Ends? { TruthFor(w.t, env); }
    case And(l, r) =>
      LeaveFor(o, l, env, m);
      BranchFor(ShapeOf(l), WayOf(l, ts, m), env, true);
      var b := BranchWay(ShapeOf(l), WayOf(l, ts, m), ts, true);
      if b.Ends? { LeaveFor(o, r, env, b.m); }
    case Or(l, r) =>
      LeaveFor(o, l, env, m);
      BranchFor(ShapeOf(l), WayOf(l, ts, m), env, false);
      var b := BranchWay(ShapeOf(l), WayOf(l, ts, m), ts, false);
      if b.Ends? { LeaveFor(o, r, env, b.m); }
  }

  lemma FreeAtomic(x: Expr)
    requires Free(x)
    ensures AtomicRels(x)
  {
  }

  // For given truths, values that are no truth values.
  function Telling(ts: seq<bool>): (env: seq<Value>)
    ensures |env| == |ts|
  {
    seq(|ts|, i requires 0 <= i < |ts| => if ts[i] then Str("x") else Nil)
  }

  lemma TellingTruths(ts: seq<bool>)
    ensures Truths(Telling(ts)) == ts
  {
  }

  // One evaluation is right exactly when the text says so, if variables hold no truth values.
  lemma TokensSpoil(o: Order, x: Expr, env: seq<Value>)
    requires Free(x) && Scoped(x, |env|)
    ensures var w := WayOf(x, Truths(env), NoMark);
      && (!Spoils(w) ==> AsCompiled(o, x, env) == Eval(o, x, env))
      && (Spoils(w) && (forall i :: 0 <= i < |env| ==> !env[i].Bool?) ==> AsCompiled(o, x, env) != Eval(o, x, env))
  {
    FreeAtomic(x);
    AtomsUnspoiled(o, x, env, None);
    LeaveFor(o, x, env, NoMark);
    CompiledExactly(o, x, env);
  }

  /** The exact condition on the text of an expression without comparisons: its code yields its value for all
      values of the n variables if and only if the text never spoils it. */
  lemma ValueExactly(o: Order, x: Expr, n: nat)
    requires Free(x) && Scoped(x, n)
    ensures (forall env: seq<Value> :: |env| == n ==> AsCompiled(o, x, env) == Eval(o, x, env)) <==> NeverSpoils(x, n)
  {
    if NeverSpoils(x, n) {
      forall env: seq<Value> | |env| == n
        ensures AsCompiled(o, x, env) == Eval(o, x, env)
      {
        TokensSpoil(o, x, env);
      }
    } else {
      var ts: seq<bool> :| |ts| == n && Spoils(WayOf(x, ts, NoMark));
      var env := Telling(ts);
      TellingTruths(ts);
      TokensSpoil(o, x, env);
      assert AsCompiled(o, x, env) != Eval(o, x, env);
    }
  }
}
