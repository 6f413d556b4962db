/** Substituting references: scope-aware replacement of parameters and locals, and that it does not change behaviour. */
module InlineScope {
  import opened InlineLanguage

  /** What a reference is replaced by: another name, or the literal `undefined`. */
  datatype Target = Rename(name: string) | Missing

  type Subst = map<string, Target>

  function ApplyExpr(s: Subst, e: Expr): Expr {
    match e
    case Literal(_) => e
    case Var(name) =>
      if name !in s then e else if s[name].Rename? then Var(s[name].name) else Literal(Undefined)
    case Call(callee, args) => Call(callee, ApplyExprs(s, args))
    case Assign(name, rhs) =>
      Assign(if name in s && s[name].Rename? then s[name].name else name, ApplyExpr(s, rhs))
    case Conditional(test, yes, no) => Conditional(ApplyExpr(s, test), ApplyExpr(s, yes), ApplyExpr(s, no))
    case Paren(inner) => Paren(ApplyExpr(s, inner))
    case Not(operand) => Not(ApplyExpr(s, operand))
    case And(l, r) => And(ApplyExpr(s, l), ApplyExpr(s, r))
    case Or(l, r) => Or(ApplyExpr(s, l), ApplyExpr(s, r))
    case Compare(op, l, r) => Compare(op, ApplyExpr(s, l), ApplyExpr(s, r))
  }

  function ApplyExprs(s: Subst, es: seq<Expr>): (r: seq<Expr>)
    ensures |r| == |es|
  {
    if es == [] then [] else [ApplyExpr(s, es[0])] + ApplyExprs(s, es[1..])
  }

  /** Inside a scope its own locals shadow whatever was substituted outside. */
  function Shadow(s: Subst, locals: set<string>): Subst {
    s + map n | n in locals :: Rename(n)
  }

  function ApplyStmt(s: Subst, t: Stmt): Stmt
    decreases t, 0
  {
    match t
    case Do(e) => Do(ApplyExpr(s, e))
    case Declare(name, init) =>
      Declare(if name in s && s[name].Rename? then s[name].name else name, ApplyExpr(s, init))
    case If(test, yes, no) => If(ApplyExpr(s, test), ApplyScope(s, yes), ApplyScope(s, no))
    case Block(body) => Block(ApplyScope(s, body))
    case While(test, body) => While(ApplyExpr(s, test), ApplyScope(s, body))
    case Throw(e) => Throw(ApplyExpr(s, e))
    case Return => Return
  }

  function ApplyScope(s: Subst, body: seq<Stmt>): seq<Stmt>
    decreases body, 1
  {
    ApplyAll(Shadow(s, Declared(body)), body)
  }

  function ApplyAll(s: Subst, ss: seq<Stmt>): (r: seq<Stmt>)
    ensures |r| == |ss|
    decreases ss, 0
  {
    if ss == [] then [] else [ApplyStmt(s, ss[0])] + ApplyAll(s, ss[1..])
  }

  // ----- names -----

  function ExprNames(e: Expr): set<string> {
    match e
    case Literal(_) => {}
    case Var(name) => {name}
    case Call(_, args) => ExprsNames(args)
    case Assign(name, rhs) => {name} + ExprNames(rhs)
    case Conditional(test, yes, no) => ExprNames(test) + ExprNames(yes) + ExprNames(no)
    case Paren(inner) => ExprNames(inner)
    case Not(operand) => ExprNames(operand)
    case And(l, r) => ExprNames(l) + ExprNames(r)
    case Or(l, r) => ExprNames(l) + ExprNames(r)
    case Compare(_, l, r) => ExprNames(l) + ExprNames(r)
  }

  function ExprsNames(es: seq<Expr>): set<string> {
    if es == [] then {} else ExprNames(es[0]) + ExprsNames(es[1..])
  }

  /** Every identifier in the statements, bound or free. */
  function StmtNames(t: Stmt): set<string> {
    match t
    case Do(e) => ExprNames(e)
    case Declare(name, init) => {name} + ExprNames(init)
    case If(test, yes, no) => ExprNames(test) + AllNames(yes) + AllNames(no)
    case Block(body) => AllNames(body)
    case While(test, body) => ExprNames(test) + AllNames(body)
    case Throw(e) => ExprNames(e)
    case Return => {}
  }

  function AllNames(ss: seq<Stmt>): set<string> {
    if ss == [] then {} else StmtNames(ss[0]) + AllNames(ss[1..])
  }

  /** The identifiers that refer to something outside the statement. */
  function StmtFree(t: Stmt): set<string>
    decreases t, 0
  {
    match t
    case Do(e) => ExprNames(e)
    case Declare(name, init) => {name} + ExprNames(init)
    case If(test, yes, no) => ExprNames(test) + ScopeFree(yes) + ScopeFree(no)
    case Block(body) => ScopeFree(body)
    case While(test, body) => ExprNames(test) + ScopeFree(body)
    case Throw(e) => ExprNames(e)
    case Return => {}
  }

  function ScopeFree(body: seq<Stmt>): set<string>
    decreases body, 1
  {
    AllFree(body) - Declared(body)
  }

  function AllFree(ss: seq<Stmt>): set<string>
    decreases ss, 0
  {
    if ss == [] then {} else StmtFree(ss[0]) + AllFree(ss[1..])
  }

  /** Nothing is assigned that a missing argument stands for. */
  predicate ExprWritable(s: Subst, e: Expr) {
    match e
    case Literal(_) => true
    case Var(_) => true
    case Call(_, args) => ExprsWritable(s, args)
    case Assign(name, rhs) => (name in s ==> s[name].Rename?) && ExprWritable(s, rhs)
    case Conditional(test, yes, no) => ExprWritable(s, test) && ExprWritable(s, yes) && ExprWritable(s, no)
    case Paren(inner) => ExprWritable(s, inner)
    case Not(operand) => ExprWritable(s, operand)
    case And(l, r) => ExprWritable(s, l) && ExprWritable(s, r)
    case Or(l, r) => ExprWritable(s, l) && ExprWritable(s, r)
    case Compare(_, l, r) => ExprWritable(s, l) && ExprWritable(s, r)
  }

  predicate ExprsWritable(s: Subst, es: seq<Expr>) {
    es == [] || (ExprWritable(s, es[0]) && ExprsWritable(s, es[1..]))
  }

  predicate StmtWritable(s: Subst, t: Stmt)
    decreases t, 0
  {
    match t
    case Do(e) => ExprWritable(s, e)
    case Declare(name, init) => name in s && s[name].Rename? && ExprWritable(s, init)
    case If(test, yes, no) => ExprWritable(s, test) && ScopeWritable(s, yes) && ScopeWritable(s, no)
    case Block(body) => ScopeWritable(s, body)
    case While(test, body) => ExprWritable(s, test) && ScopeWritable(s, body)
    case Throw(e) => ExprWritable(s, e)
    case Return => true
  }

  predicate ScopeWritable(s: Subst, body: seq<Stmt>)
    decreases body, 1
  {
    AllWritable(Shadow(s, Declared(body)), body)
  }

  predicate AllWritable(s: Subst, ss: seq<Stmt>)
    decreases ss, 0
  {
    ss == [] || (StmtWritable(s, ss[0]) && AllWritable(s, ss[1..]))
  }

  // ----- matching frames -----

  /** Every substituted name has the same binding on both sides, and different names have different bindings. */
  ghost predicate Sim(s: Subst, fa: Frame, fb: Frame) {
    && (forall x :: x in s ==> x in fa)
    && (forall x :: x in s && s[x].Rename? ==> s[x].name in fb && fb[s[x].name] == fa[x])
    && (forall x :: x in s && s[x].Missing? ==> fa[x] == Live(Undefined))
    && (forall x, y :: x in s && y in s && x != y && s[x].Rename? && s[y].Rename? ==> s[x].name != s[y].name)
  }

  /** The other names mean the same global on both sides. */
  ghost predicate Clear(s: Subst, fa: Frame, fb: Frame, names: set<string>) {
    forall n :: n in names && n !in s ==> n !in fa && n !in fb
  }

  ghost predicate IsTarget(s: Subst, n: string) {
    exists x :: x in s && s[x] == Rename(n)
  }

  /** From `fa`, `fb` to `fa2`, `fb2` only matched bindings changed, and they still match. */
  ghost predicate Keeps(s: Subst, fa: Frame, fb: Frame, fa2: Frame, fb2: Frame) {
    && Sim(s, fa2, fb2)
    && fa2.Keys == fa.Keys && fb2.Keys == fb.Keys
    && (forall n :: n in fb && !IsTarget(s, n) ==> fb2[n] == fb[n])
    && (forall n :: n in fa && n !in s ==> fa2[n] == fa[n])
  }

  lemma {:induction false} KeepsRefl(s: Subst, fa: Frame, fb: Frame)
    requires Sim(s, fa, fb)
    ensures Keeps(s, fa, fb, fa, fb)
  {
  }

  lemma {:induction false} KeepsTrans(s: Subst, fa: Frame, fb: Frame, fa2: Frame, fb2: Frame, fa3: Frame, fb3: Frame)
    requires Keeps(s, fa, fb, fa2, fb2) && Keeps(s, fa2, fb2, fa3, fb3)
    ensures Keeps(s, fa, fb, fa3, fb3)
  {
  }

  ghost predicate SameEval(s: Subst, fa: Frame, fb: Frame, a: EvalResult, b: EvalResult) {
    a.c == b.c && a.st == b.st && Keeps(s, fa, fb, a.frame, b.frame)
  }

  /** Setting a matched binding on both sides. */
  lemma {:induction false} SetMatched(s: Subst, fa: Frame, fb: Frame, x: string, slot: Slot)
    requires Sim(s, fa, fb) && x in s && s[x].Rename?
    ensures Keeps(s, fa, fb, fa[x := slot], fb[s[x].name := slot])
  {
    assert IsTarget(s, s[x].name);
  }

  lemma {:induction false} WriteSame(s: Subst, fa: Frame, fb: Frame, x: string, v: Value, st: State)
    requires Sim(s, fa, fb) && Clear(s, fa, fb, {x}) && (x in s ==> s[x].Rename?)
    ensures SameEval(s, fa, fb, Write(x, v, fa, st), Write(if x in s then s[x].name else x, v, fb, st))
  {
    assert x in {x};
    KeepsRefl(s, fa, fb);
    if x in s {
      SetMatched(s, fa, fb, x, Live(v));
    }
  }

  /** A substituted expression evaluates alike: same value or throw, same effects, frames still matched. */
  lemma {:induction false} EvalSame(w: World, s: Subst, e: Expr, fa: Frame, fb: Frame, st: State)
    requires Sim(s, fa, fb) && Clear(s, fa, fb, ExprNames(e)) && ExprWritable(s, e)
    ensures SameEval(s, fa, fb, Eval(w, e, fa, st), Eval(w, ApplyExpr(s, e), fb, st))
    decreases e, 1
  {
    KeepsRefl(s, fa, fb);
    match e
    case Literal(_) =>
    case Var(name) => VarSame(w, s, name, fa, fb, st);
    case Call(_, args) => EvalArgsSame(w, s, args, fa, fb, st);
    case Assign(name, rhs) =>
      EvalSame(w, s, rhs, fa, fb, st);
      AssignSame(w, s, name, rhs, fa, fb, st);
    case Conditional(_, _, _) => EvalConditionalSame(w, s, e, fa, fb, st);
    case Paren(inner) => EvalSame(w, s, inner, fa, fb, st);
    case Not(operand) => EvalSame(w, s, operand, fa, fb, st);
    case And(l, r) =>
      EvalTwoSame(w, s, e, l, r, fa, fb, st);
      AndSame(w, s, l, r, fa, fb, st);
    case Or(l, r) =>
      EvalTwoSame(w, s, e, l, r, fa, fb, st);
      OrSame(w, s, l, r, fa, fb, st);
    case Compare(op, l, r) =>
      EvalTwoSame(w, s, e, l, r, fa, fb, st);
      CompareSame(w, s, op, l, r, fa, fb, st);
  }

  /** Both operands evaluate alike, the second where the first leaves off. */
  ghost predicate OperandsSame(w: World, s: Subst, l: Expr, r: Expr, fa: Frame, fb: Frame, st: State) {
    var a, b := Eval(w, l, fa, st), Eval(w, ApplyExpr(s, l), fb, st);
    && SameEval(s, fa, fb, a, b)
    && (a.c.Normal? ==> SameEval(s, fa, fb, Eval(w, r, a.frame, a.st), Eval(w, ApplyExpr(s, r), b.frame, b.st)))
  }

  lemma {:induction false} VarSame(w: World, s: Subst, name: string, fa: Frame, fb: Frame, st: State)
    requires Sim(s, fa, fb) && Clear(s, fa, fb, ExprNames(Var(name)))
    ensures SameEval(s, fa, fb, Eval(w, Var(name), fa, st), Eval(w, ApplyExpr(s, Var(name)), fb, st))
  {
    KeepsRefl(s, fa, fb);
    assert name in ExprNames(Var(name));
  }

  lemma {:induction false} AssignSame(w: World, s: Subst, name: string, rhs: Expr, fa: Frame, fb: Frame, st: State)
    requires Sim(s, fa, fb) && Clear(s, fa, fb, ExprNames(Assign(name, rhs))) && ExprWritable(s, Assign(name, rhs))
    requires SameEval(s, fa, fb, Eval(w, rhs, fa, st), Eval(w, ApplyExpr(s, rhs), fb, st))
    ensures SameEval(s, fa, fb, Eval(w, Assign(name, rhs), fa, st), Eval(w, ApplyExpr(s, Assign(name, rhs)), fb, st))
  {
    var a, b := Eval(w, rhs, fa, st), Eval(w, ApplyExpr(s, rhs), fb, st);
    if a.c.Normal? {
      WriteSame(s, a.frame, b.frame, name, a.c.v, a.st);
      var c, d := Write(name, a.c.v, a.frame, a.st), Write(if name in s then s[name].name else name, a.c.v, b.frame, a.st);
      KeepsTrans(s, fa, fb, a.frame, b.frame, c.frame, d.frame);
    }
  }

  lemma {:induction false} ConditionalSame(w: World, s: Subst, test: Expr, yes: Expr, no: Expr, fa: Frame, fb: Frame, st: State)
    requires SameEval(s, fa, fb, Eval(w, test, fa, st), Eval(w, ApplyExpr(s, test), fb, st))
    requires var a, b := Eval(w, test, fa, st), Eval(w, ApplyExpr(s, test), fb, st);
      var e := if a.c.Normal? && Truthy(a.c.v) then yes else no;
      a.c.Normal? ==> SameEval(s, a.frame, b.frame, Eval(w, e, a.frame, a.st), Eval(w, ApplyExpr(s, e), b.frame, a.st))
    ensures SameEval(s, fa, fb, Eval(w, Conditional(test, yes, no), fa, st), Eval(w, ApplyExpr(s, Conditional(test, yes, no)), fb, st))
  {
    var a, b := Eval(w, test, fa, st), Eval(w, ApplyExpr(s, test), fb, st);
    if a.c.Normal? {
      var e := if Truthy(a.c.v) then yes else no;
      var c, d := Eval(w, e, a.frame, a.st), Eval(w, ApplyExpr(s, e), b.frame, a.st);
      KeepsTrans(s, fa, fb, a.frame, b.frame, c.frame, d.frame);
    }
  }

  lemma {:induction false} AndSame(w: World, s: Subst, l: Expr, r: Expr, fa: Frame, fb: Frame, st: State)
    requires OperandsSame(w, s, l, r, fa, fb, st)
    ensures SameEval(s, fa, fb, Eval(w, And(l, r), fa, st), Eval(w, ApplyExpr(s, And(l, r)), fb, st))
  {
  }

  lemma {:induction false} OrSame(w: World, s: Subst, l: Expr, r: Expr, fa: Frame, fb: Frame, st: State)
    requires OperandsSame(w, s, l, r, fa, fb, st)
    ensures SameEval(s, fa, fb, Eval(w, Or(l, r), fa, st), Eval(w, ApplyExpr(s, Or(l, r)), fb, st))
  {
  }

  lemma {:induction false} CompareSame(w: World, s: Subst, op: CompareOp, l: Expr, r: Expr, fa: Frame, fb: Frame, st: State)
    requires OperandsSame(w, s, l, r, fa, fb, st)
    ensures SameEval(s, fa, fb, Eval(w, Compare(op, l, r), fa, st), Eval(w, ApplyExpr(s, Compare(op, l, r)), fb, st))
  {
  }

  lemma {:induction false} EvalConditionalSame(w: World, s: Subst, e: Expr, fa: Frame, fb: Frame, st: State)
    requires e.Conditional? && Sim(s, fa, fb) && Clear(s, fa, fb, ExprNames(e)) && ExprWritable(s, e)
    ensures SameEval(s, fa, fb, Eval(w, e, fa, st), Eval(w, ApplyExpr(s, e), fb, st))
    decreases e, 0
  {
    EvalSame(w, s, e.test, fa, fb, st);
    var a, b := Eval(w, e.test, fa, st), Eval(w, ApplyExpr(s, e.test), fb, st);
    if a.c.Normal? {
      EvalSame(w, s, if Truthy(a.c.v) then e.yes else e.no, a.frame, b.frame, a.st);
    }
    ConditionalSame(w, s, e.test, e.yes, e.no, fa, fb, st);
  }

  /** Evaluating one operand and then the other. */
  lemma {:induction false} EvalTwoSame(w: World, s: Subst, e: Expr, l: Expr, r: Expr, fa: Frame, fb: Frame, st: State)
    requires Sim(s, fa, fb) && Clear(s, fa, fb, ExprNames(l) + ExprNames(r)) && ExprWritable(s, l) && ExprWritable(s, r)
    requires l < e && r < e
    ensures OperandsSame(w, s, l, r, fa, fb, st)
    decreases e, 0
  {
    EvalSame(w, s, l, fa, fb, st);
    var a, b := Eval(w, l, fa, st), Eval(w, ApplyExpr(s, l), fb, st);
    if a.c.Normal? {
      EvalSame(w, s, r, a.frame, b.frame, a.st);
      var a2, b2 := Eval(w, r, a.frame, a.st), Eval(w, ApplyExpr(s, r), b.frame, b.st);
      KeepsTrans(s, fa, fb, a.frame, b.frame, a2.frame, b2.frame);
    }
  }

  lemma {:induction false} EvalArgsSame(w: World, s: Subst, es: seq<Expr>, fa: Frame, fb: Frame, st: State)
    requires Sim(s, fa, fb) && Clear(s, fa, fb, ExprsNames(es)) && ExprsWritable(s, es)
    ensures var a, b := EvalArgs(w, es, fa, st), EvalArgs(w, ApplyExprs(s, es), fb, st);
      && a.Args? == b.Args? && a.st == b.st && Keeps(s, fa, fb, a.frame, b.frame)
      && (a.Args? ==> a.values == b.values) && (a.ArgsThrew? ==> a.v == b.v)
    decreases es, 0
  {
    KeepsRefl(s, fa, fb);
    if es != [] {
      EvalSame(w, s, es[0], fa, fb, st);
      var a, b := Eval(w, es[0], fa, st), Eval(w, ApplyExpr(s, es[0]), fb, st);
      assert ApplyExprs(s, es)[1..] == ApplyExprs(s, es[1..]);
      if a.c.Normal? {
        EvalArgsSame(w, s, es[1..], a.frame, b.frame, a.st);
        var a2, b2 := EvalArgs(w, es[1..], a.frame, a.st), EvalArgs(w, ApplyExprs(s, es[1..]), b.frame, b.st);
        KeepsTrans(s, fa, fb, a.frame, b.frame, a2.frame, b2.frame);
      }
    }
  }

  // ----- statements -----

  /** New names do not occur in the text they are put into. */
  ghost predicate Fresh(s: Subst, names: set<string>) {
    forall x :: x in s && s[x].Rename? ==> s[x].name == x || s[x].name !in names
  }

  ghost predicate SameExec(s: Subst, fa: Frame, fb: Frame, a: ExecResult, b: ExecResult) {
    a.ctl == b.ctl && a.st == b.st && Keeps(s, fa, fb, a.frame, b.frame)
  }

  lemma {:induction false} DeclaredApply(s: Subst, ss: seq<Stmt>)
    requires forall n :: n in Declared(ss) ==> n in s && s[n] == Rename(n)
    ensures Declared(ApplyAll(s, ss)) == Declared(ss)
  {
    if ss != [] {
      assert ApplyAll(s, ss)[1..] == ApplyAll(s, ss[1..]);
      DeclaredApply(s, ss[1..]);
    }
  }

  lemma {:induction false} DeclaredAreNames(ss: seq<Stmt>)
    ensures Declared(ss) <= AllNames(ss)
  {
    if ss != [] {
      DeclaredAreNames(ss[1..]);
    }
  }

  /** No outside name is replaced by one that the scope binds itself. */
  ghost predicate NoCapture(s: Subst, locals: set<string>) {
    forall x :: x in s && x !in locals && s[x].Rename? ==> s[x].name !in locals
  }

  lemma {:induction false} EnterMatched(s: Subst, fa: Frame, fb: Frame, locals: set<string>)
    requires Sim(s, fa, fb) && NoCapture(s, locals)
    ensures Sim(Shadow(s, locals), Enter(fa, locals), Enter(fb, locals))
  {
  }

  lemma {:induction false} EnterClear(s: Subst, fa: Frame, fb: Frame, body: seq<Stmt>)
    requires Clear(s, fa, fb, ScopeFree(body))
    ensures Clear(Shadow(s, Declared(body)), Enter(fa, Declared(body)), Enter(fb, Declared(body)), AllFree(body))
  {
    forall n | n in AllFree(body) && n !in Shadow(s, Declared(body))
      ensures n !in Enter(fa, Declared(body)) && n !in Enter(fb, Declared(body))
    {
      assert n in ScopeFree(body);
    }
  }

  lemma {:induction false} TargetsInside(s: Subst, locals: set<string>, n: string)
    requires IsTarget(Shadow(s, locals), n) && n !in locals
    ensures exists x :: x in s && x !in locals && s[x] == Rename(n)
  {
    var x :| x in Shadow(s, locals) && Shadow(s, locals)[x] == Rename(n);
    assert x !in locals;
  }

  lemma {:induction false} LeaveBinding(s: Subst, fa: Frame, fb: Frame, ga: Frame, gb: Frame, locals: set<string>, x: string)
    requires Sim(s, fa, fb) && NoCapture(s, locals) && x in s
    requires Keeps(Shadow(s, locals), Enter(fa, locals), Enter(fb, locals), ga, gb)
    ensures x in Leave(fa, ga, locals)
    ensures s[x].Missing? ==> Leave(fa, ga, locals)[x] == Live(Undefined)
    ensures s[x].Rename? ==>
      s[x].name in Leave(fb, gb, locals) && Leave(fb, gb, locals)[s[x].name] == Leave(fa, ga, locals)[x]
  {
    if x !in locals {
      assert Shadow(s, locals)[x] == s[x];
    } else if s[x].Rename? && s[x].name !in locals {
      var t := s[x].name;
      if IsTarget(Shadow(s, locals), t) {
        TargetsInside(s, locals, t);
      }
      assert gb[t] == Enter(fb, locals)[t] == fb[t];
    }
  }

  lemma {:induction false} LeaveMatched(s: Subst, fa: Frame, fb: Frame, ga: Frame, gb: Frame, locals: set<string>)
    requires Sim(s, fa, fb) && NoCapture(s, locals)
    requires Keeps(Shadow(s, locals), Enter(fa, locals), Enter(fb, locals), ga, gb)
    ensures Keeps(s, fa, fb, Leave(fa, ga, locals), Leave(fb, gb, locals))
  {
    forall x | x in s
      ensures x in Leave(fa, ga, locals)
      ensures s[x].Missing? ==> Leave(fa, ga, locals)[x] == Live(Undefined)
      ensures s[x].Rename? ==>
        s[x].name in Leave(fb, gb, locals) && Leave(fb, gb, locals)[s[x].name] == Leave(fa, ga, locals)[x]
    {
      LeaveBinding(s, fa, fb, ga, gb, locals, x);
    }
    LeaveKeys(fa, ga, locals);
    LeaveKeys(fb, gb, locals);
    forall n | n in fb && !IsTarget(s, n) ensures Leave(fb, gb, locals)[n] == fb[n] {
      if n !in locals {
        if IsTarget(Shadow(s, locals), n) {
          TargetsInside(s, locals, n);
        }
        assert gb[n] == Enter(fb, locals)[n];
      }
    }
  }

  lemma {:induction false} LeaveKeys(f: Frame, g: Frame, locals: set<string>)
    requires g.Keys == Enter(f, locals).Keys
    ensures Leave(f, g, locals).Keys == f.Keys
  {
    assert Enter(f, locals).Keys == f.Keys + locals;
  }

  /** A substituted scope runs alike: same control outcome, same effects, outer bindings still matched. */
  lemma {:induction false} ExecScopeSame(w: World, fuel: nat, s: Subst, body: seq<Stmt>, fa: Frame, fb: Frame, st: State)
    requires Sim(s, fa, fb) && Clear(s, fa, fb, ScopeFree(body)) && ScopeWritable(s, body) && Fresh(s, AllNames(body))
    ensures SameExec(s, fa, fb, ExecScope(w, fuel, body, fa, st), ExecScope(w, fuel, ApplyScope(s, body), fb, st))
    decreases fuel, body, 2
  {
    var locals := Declared(body);
    var inner := Shadow(s, locals);
    DeclaredAreNames(body);
    DeclaredApply(inner, body);
    EnterMatched(s, fa, fb, locals);
    EnterClear(s, fa, fb, body);
    ExecAllSame(w, fuel, inner, body, Enter(fa, locals), Enter(fb, locals), st);
    var a := ExecAll(w, fuel, body, Enter(fa, locals), st);
    var b := ExecAll(w, fuel, ApplyAll(inner, body), Enter(fb, locals), st);
    LeaveMatched(s, fa, fb, a.frame, b.frame, locals);
  }

  lemma {:induction false} ExecAllSame(w: World, fuel: nat, s: Subst, ss: seq<Stmt>, fa: Frame, fb: Frame, st: State)
    requires Sim(s, fa, fb) && Clear(s, fa, fb, AllFree(ss)) && AllWritable(s, ss) && Fresh(s, AllNames(ss))
    ensures SameExec(s, fa, fb, ExecAll(w, fuel, ss, fa, st), ExecAll(w, fuel, ApplyAll(s, ss), fb, st))
    decreases fuel, ss, 1
  {
    KeepsRefl(s, fa, fb);
    if ss != [] {
      ExecSame(w, fuel, s, ss[0], fa, fb, st);
      assert ApplyAll(s, ss)[1..] == ApplyAll(s, ss[1..]);
      var a, b := Exec(w, fuel, ss[0], fa, st), Exec(w, fuel, ApplyStmt(s, ss[0]), fb, st);
      if a.ctl.Next? {
        ExecAllSame(w, fuel, s, ss[1..], a.frame, b.frame, a.st);
        KeepsTrans(s, fa, fb, a.frame, b.frame,
          ExecAll(w, fuel, ss[1..], a.frame, a.st).frame, ExecAll(w, fuel, ApplyAll(s, ss[1..]), b.frame, b.st).frame);
      }
    }
  }

  lemma {:induction false} ExecSame(w: World, fuel: nat, s: Subst, t: Stmt, fa: Frame, fb: Frame, st: State)
    requires Sim(s, fa, fb) && Clear(s, fa, fb, StmtFree(t)) && StmtWritable(s, t) && Fresh(s, StmtNames(t))
    ensures SameExec(s, fa, fb, Exec(w, fuel, t, fa, st), Exec(w, fuel, ApplyStmt(s, t), fb, st))
    decreases fuel, t, 1
  {
    KeepsRefl(s, fa, fb);
    match t
    case Do(e) => EvalSame(w, s, e, fa, fb, st);
    case Throw(e) => EvalSame(w, s, e, fa, fb, st);
    case Declare(name, init) =>
      EvalSame(w, s, init, fa, fb, st);
      var a, b := Eval(w, init, fa, st), Eval(w, ApplyExpr(s, init), fb, st);
      if a.c.Normal? {
        SetMatched(s, a.frame, b.frame, name, Live(a.c.v));
      }
    case Return =>
    case Block(body) => ExecScopeSame(w, fuel, s, body, fa, fb, st);
    case If(test, yes, no) =>
      EvalSame(w, s, test, fa, fb, st);
      var a, b := Eval(w, test, fa, st), Eval(w, ApplyExpr(s, test), fb, st);
      if a.c.Normal? {
        var branch := if Truthy(a.c.v) then yes else no;
        ExecScopeSame(w, fuel, s, branch, a.frame, b.frame, a.st);
        KeepsTrans(s, fa, fb, a.frame, b.frame, ExecScope(w, fuel, branch, a.frame, a.st).frame,
          ExecScope(w, fuel, ApplyScope(s, branch), b.frame, b.st).frame);
      }
    case While(test, body) => ExecLoopSame(w, fuel, s, t, fa, fb, st);
  }

  lemma {:induction false} ExecLoopSame(w: World, fuel: nat, s: Subst, t: Stmt, fa: Frame, fb: Frame, st: State)
    requires t.While?
    requires Sim(s, fa, fb) && Clear(s, fa, fb, StmtFree(t)) && StmtWritable(s, t) && Fresh(s, StmtNames(t))
    ensures SameExec(s, fa, fb, Exec(w, fuel, t, fa, st), Exec(w, fuel, ApplyStmt(s, t), fb, st))
    decreases fuel, t, 0
  {
    EvalSame(w, s, t.test, fa, fb, st);
    var a, b := Eval(w, t.test, fa, st), Eval(w, ApplyExpr(s, t.test), fb, st);
    if a.c.Normal? && Truthy(a.c.v) {
      ExecScopeSame(w, fuel, s, t.body, a.frame, b.frame, a.st);
      var a1 := ExecScope(w, fuel, t.body, a.frame, a.st);
      var b1 := ExecScope(w, fuel, ApplyScope(s, t.body), b.frame, b.st);
      if a1.ctl.Next? && fuel > 0 {
        ExecSame(w, fuel - 1, s, t, a1.frame, b1.frame, a1.st);
      }
      LoopSame(w, fuel, s, t, fa, fb, st);
    }
  }

  /** One round and the rest of the loop, put together. */
  lemma {:induction false} LoopSame(w: World, fuel: nat, s: Subst, t: Stmt, fa: Frame, fb: Frame, st: State)
    requires t.While?
    requires SameEval(s, fa, fb, Eval(w, t.test, fa, st), Eval(w, ApplyExpr(s, t.test), fb, st))
    requires var a, b := Eval(w, t.test, fa, st), Eval(w, ApplyExpr(s, t.test), fb, st);
      a.c.Normal? && Truthy(a.c.v) ==>
        var a1, b1 := ExecScope(w, fuel, t.body, a.frame, a.st), ExecScope(w, fuel, ApplyScope(s, t.body), b.frame, b.st);
        && SameExec(s, a.frame, b.frame, a1, b1)
        && (a1.ctl.Next? && fuel > 0 ==>
            SameExec(s, a1.frame, b1.frame, Exec(w, fuel - 1, t, a1.frame, a1.st), Exec(w, fuel - 1, ApplyStmt(s, t), b1.frame, b1.st)))
    ensures SameExec(s, fa, fb, Exec(w, fuel, t, fa, st), Exec(w, fuel, ApplyStmt(s, t), fb, st))
  {
    var a, b := Eval(w, t.test, fa, st), Eval(w, ApplyExpr(s, t.test), fb, st);
    if a.c.Normal? && Truthy(a.c.v) {
      var a1 := ExecScope(w, fuel, t.body, a.frame, a.st);
      var b1 := ExecScope(w, fuel, ApplyScope(s, t.body), b.frame, b.st);
      KeepsTrans(s, fa, fb, a.frame, b.frame, a1.frame, b1.frame);
      if a1.ctl.Next? && fuel > 0 {
        var a2 := Exec(w, fuel - 1, t, a1.frame, a1.st);
        var b2 := Exec(w, fuel - 1, ApplyStmt(s, t), b1.frame, b1.st);
        KeepsTrans(s, fa, fb, a1.frame, b1.frame, a2.frame, b2.frame);
      }
    }
  }
}
