/** What the theorem supposes of helpers and call sites, and how guards and tails behave when references are replaced. */
module InlineStrict {
  import opened Collections
  import opened InlineLanguage
  import opened InlineGuards
  import opened InlineText
  import opened InlineScope
  import opened InlinePlan

  // ----- guards -----

  lemma {:induction false} OrderedSame(w: World, s: Subst, e: Expr, fa: Frame, fb: Frame, st: State)
    requires Sim(s, fa, fb) && Clear(s, fa, fb, ExprNames(e)) && ExprWritable(s, e) && Ordered(w, e, fa, st)
    ensures Ordered(w, ApplyExpr(s, e), fb, st)
    decreases e
  {
    match e
    case Paren(inner) => OrderedSame(w, s, inner, fa, fb, st);
    case Compare(op, l, r) => EvalTwoSame(w, s, e, l, r, fa, fb, st);
    case And(l, r) =>
      EvalTwoSame(w, s, e, l, r, fa, fb, st);
      OrderedSame(w, s, l, fa, fb, st);
      var a, b := Eval(w, l, fa, st), Eval(w, ApplyExpr(s, l), fb, st);
      if a.c.Normal? && Truthy(a.c.v) {
        OrderedSame(w, s, r, a.frame, b.frame, a.st);
      }
    case Or(l, r) =>
      EvalTwoSame(w, s, e, l, r, fa, fb, st);
      OrderedSame(w, s, l, fa, fb, st);
      var a, b := Eval(w, l, fa, st), Eval(w, ApplyExpr(s, l), fb, st);
      if a.c.Normal? && !Truthy(a.c.v) {
        OrderedSame(w, s, r, a.frame, b.frame, a.st);
      }
    case _ =>
  }

  ghost predicate SameRun(s: Subst, fa: Frame, fb: Frame, a: GuardRun, b: GuardRun) {
    && a.st == b.st && Keeps(s, fa, fb, a.frame, b.frame)
    && a.Pass? == b.Pass? && a.Stop? == b.Stop? && (a.Fail? ==> b.Fail? && a.v == b.v)
  }

  lemma {:induction false} RunGuardsSame(w: World, s: Subst, guards: seq<Expr>, fa: Frame, fb: Frame, st: State)
    requires Sim(s, fa, fb) && Clear(s, fa, fb, ExprsNames(guards)) && ExprsWritable(s, guards)
    requires GuardsOrdered(w, guards, fa, st)
    ensures SameRun(s, fa, fb, RunGuards(w, guards, fa, st), RunGuards(w, ApplyExprs(s, guards), fb, st))
    ensures GuardsOrdered(w, ApplyExprs(s, guards), fb, st)
    decreases |guards|
  {
    KeepsRefl(s, fa, fb);
    if guards != [] {
      EvalSame(w, s, guards[0], fa, fb, st);
      OrderedSame(w, s, guards[0], fa, fb, st);
      assert ApplyExprs(s, guards)[1..] == ApplyExprs(s, guards[1..]);
      var a, b := Eval(w, guards[0], fa, st), Eval(w, ApplyExpr(s, guards[0]), fb, st);
      if a.c.Normal? && !Truthy(a.c.v) {
        RunGuardsSame(w, s, guards[1..], a.frame, b.frame, a.st);
        KeepsTrans(s, fa, fb, a.frame, b.frame, RunGuards(w, guards[1..], a.frame, a.st).frame,
          RunGuards(w, ApplyExprs(s, guards[1..]), b.frame, b.st).frame);
      }
    }
  }

  lemma {:induction false} EmptyScope(f: Frame)
    ensures Enter(f, {}) == f && Leave(f, f, {}) == f
  {
  }

  lemma {:induction false} GuardReturns(w: World, fuel: nat, t: Stmt, f: Frame, st: State)
    requires IsGuard(t)
    ensures var r := Eval(w, t.test, f, st);
      Exec(w, fuel, t, f, st) ==
        if r.c.Throws? then ExecResult(Threw(r.c.v), r.frame, r.st)
        else ExecResult(if Truthy(r.c.v) then Returned else Next, r.frame, r.st)
  {
    var r := Eval(w, t.test, f, st);
    EmptyScope(r.frame);
    var exit: seq<Stmt> := [Return];
    assert Declared(exit) == Declared(exit[1..]) == {};
    assert ExecAll(w, fuel, exit, r.frame, r.st) == Exec(w, fuel, exit[0], r.frame, r.st);
    assert ExecScope(w, fuel, exit, r.frame, r.st) == ExecResult(Returned, r.frame, r.st);
    assert ExecScope(w, fuel, [], r.frame, r.st) == ExecResult(Next, r.frame, r.st);
  }

  /** The body runs its leading guards and then, if none returned or threw, its tail. */
  lemma {:induction false} GuardsThenTail(w: World, fuel: nat, body: seq<Stmt>, f: Frame, st: State)
    ensures ExecAll(w, fuel, body, f, st) ==
      match RunGuards(w, Guards(body), f, st)
      case Fail(v, f1, st1) => ExecResult(Threw(v), f1, st1)
      case Stop(f1, st1) => ExecResult(Returned, f1, st1)
      case Pass(f1, st1) => ExecAll(w, fuel, Tail(body), f1, st1)
    decreases |body|
  {
    if body != [] && IsGuard(body[0]) {
      var r := Eval(w, body[0].test, f, st);
      GuardReturns(w, fuel, body[0], f, st);
      if r.c.Normal? && !Truthy(r.c.v) {
        GuardsThenTail(w, fuel, body[1..], r.frame, r.st);
      }
      assert Guards(body)[1..] == Guards(body[1..]);
    }
  }

  lemma {:induction false} BodyParts(body: seq<Stmt>)
    ensures Declared(body) == Declared(Tail(body))
    ensures AllFree(body) == ExprsNames(Guards(body)) + AllFree(Tail(body))
    ensures AllNames(body) == ExprsNames(Guards(body)) + AllNames(Tail(body))
  {
    if body != [] && IsGuard(body[0]) {
      BodyParts(body[1..]);
      assert Guards(body)[1..] == Guards(body[1..]);
      assert ScopeFree([Return]) == {} && AllNames([Return]) == {};
      assert ScopeFree([]) == {} && AllNames([]) == {};
    }
  }

  // ----- what makes a helper and a call site inlinable -----

  /** No `return` in these statements; the tail of a candidate has none. */
  predicate NoReturn(t: Stmt)
    decreases t, 0
  {
    match t
    case Return => false
    case If(_, yes, no) => NoReturns(yes) && NoReturns(no)
    case Block(body) => NoReturns(body)
    case While(_, body) => NoReturns(body)
    case _ => true
  }

  predicate NoReturns(ss: seq<Stmt>)
    decreases ss, 0
  {
    ss == [] || (NoReturn(ss[0]) && NoReturns(ss[1..]))
  }

  lemma {:induction false} NeverReturned(w: World, fuel: nat, ss: seq<Stmt>, f: Frame, st: State)
    requires NoReturns(ss)
    ensures !ExecAll(w, fuel, ss, f, st).ctl.Returned?
    decreases fuel, ss, 1
  {
    if ss != [] {
      StmtNeverReturned(w, fuel, ss[0], f, st);
      var r := Exec(w, fuel, ss[0], f, st);
      if r.ctl.Next? {
        NeverReturned(w, fuel, ss[1..], r.frame, r.st);
      }
    }
  }

  lemma {:induction false} StmtNeverReturned(w: World, fuel: nat, t: Stmt, f: Frame, st: State)
    requires NoReturn(t)
    ensures !Exec(w, fuel, t, f, st).ctl.Returned?
    decreases fuel, t, 0
  {
    match t
    case Block(body) => NeverReturned(w, fuel, body, Enter(f, Declared(body)), st);
    case If(test, yes, no) =>
      var r := Eval(w, test, f, st);
      NeverReturned(w, fuel, yes, Enter(r.frame, Declared(yes)), r.st);
      NeverReturned(w, fuel, no, Enter(r.frame, Declared(no)), r.st);
    case While(test, body) =>
      var r := Eval(w, test, f, st);
      NeverReturned(w, fuel, body, Enter(r.frame, Declared(body)), r.st);
      var once := ExecScope(w, fuel, body, r.frame, r.st);
      if r.c.Normal? && Truthy(r.c.v) && once.ctl.Next? && fuel > 0 {
        StmtNeverReturned(w, fuel - 1, t, once.frame, once.st);
      }
    case _ =>
  }

  /** The strictest reading of the references: every parameter is one that may not be written. */
  function ReadOnly(params: seq<string>): Subst {
    map p | p in Elements(params) :: Missing
  }

  /** What the analysis requires of a helper, and what any program that parses has. */
  ghost predicate Candidate(h: Helper) {
    && Distinct(h.params)
    && Distinct(Locals(Tail(h.body)))
    && Declared(h.body) !! Elements(h.params)
    && NoReturns(Tail(h.body))
    && (forall g :: g in Guards(h.body) ==> WellParsed(g))
    && ExprsWritable(ReadOnly(h.params), Guards(h.body))
    && ScopeWritable(ReadOnly(h.params), Tail(h.body))
  }

  /** The call passes at most one argument per parameter, `taken` has the block's names, no free name is shadowed. */
  ghost predicate CallSite(h: Helper, args: seq<Expr>, taken: set<string>, f: Frame) {
    && |args| <= |h.params|
    && ExprsNames(args) <= taken
    && (AllFree(h.body) - Elements(h.params) - Declared(h.body)) !! f.Keys
  }

  /** The names the replacement introduces. */
  ghost function Introduced(h: Helper, args: seq<Expr>, taken: set<string>): Subst {
    var plan := Plan(h.params, args, Used(h), taken);
    if Guards(h.body) != [] then plan.subst else plan.subst + RenameLocals(Locals(Tail(h.body)), plan.taken).0
  }

  /** New names are new to the helper's body as well; the tool only compares them with the caller's block. */
  ghost predicate NewToBody(h: Helper, args: seq<Expr>, taken: set<string>) {
    Fresh(Introduced(h, args, taken), AllNames(h.body))
  }

  /** No guard mentions a local that the tail declares, which would always throw in its dead zone. */
  ghost predicate GuardsBeforeLocals(h: Helper) {
    ExprsNames(Guards(h.body)) !! Declared(h.body)
  }

  // ----- writability carries over -----

  /** `s2` replaces names by names wherever `s1` does, and by `undefined` only where `s1` does. */
  ghost predicate Weaker(s1: Subst, s2: Subst) {
    && (forall x :: x in s1 && s1[x].Rename? ==> x in s2 && s2[x].Rename?)
    && (forall x :: x in s2 && s2[x].Missing? ==> x in s1 && s1[x].Missing?)
  }

  lemma {:induction false} ExprWeaker(s1: Subst, s2: Subst, e: Expr)
    requires Weaker(s1, s2) && ExprWritable(s1, e)
    ensures ExprWritable(s2, e)
    decreases e, 0
  {
    match e
    case Literal(_) =>
    case Var(_) =>
    case Call(_, args) => ExprsWeaker(s1, s2, args);
    case Assign(_, rhs) => ExprWeaker(s1, s2, rhs);
    case Conditional(test, yes, no) =>
      ExprWeaker(s1, s2, test);
      ExprWeaker(s1, s2, yes);
      ExprWeaker(s1, s2, no);
    case Paren(inner) => ExprWeaker(s1, s2, inner);
    case Not(operand) => ExprWeaker(s1, s2, operand);
    case And(l, r) => ExprWeaker(s1, s2, l); ExprWeaker(s1, s2, r);
    case Or(l, r) => ExprWeaker(s1, s2, l); ExprWeaker(s1, s2, r);
    case Compare(_, l, r) => ExprWeaker(s1, s2, l); ExprWeaker(s1, s2, r);
  }

  lemma {:induction false} ExprsWeaker(s1: Subst, s2: Subst, es: seq<Expr>)
    requires Weaker(s1, s2) && ExprsWritable(s1, es)
    ensures ExprsWritable(s2, es)
    decreases es, 0
  {
    if es != [] {
      ExprWeaker(s1, s2, es[0]);
      ExprsWeaker(s1, s2, es[1..]);
    }
  }

  lemma {:induction false} ShadowWeaker(s1: Subst, s2: Subst, locals: set<string>)
    requires Weaker(s1, s2)
    ensures Weaker(Shadow(s1, locals), Shadow(s2, locals))
  {
  }

  lemma {:induction false} AllWeaker(s1: Subst, s2: Subst, ss: seq<Stmt>)
    requires Weaker(s1, s2) && AllWritable(s1, ss)
    ensures AllWritable(s2, ss)
    decreases ss, 1
  {
    if ss != [] {
      StmtWeaker(s1, s2, ss[0]);
      AllWeaker(s1, s2, ss[1..]);
    }
  }

  lemma {:induction false} ScopeWeaker(s1: Subst, s2: Subst, body: seq<Stmt>)
    requires Weaker(s1, s2) && ScopeWritable(s1, body)
    ensures ScopeWritable(s2, body)
    decreases body, 2
  {
    ShadowWeaker(s1, s2, Declared(body));
    AllWeaker(Shadow(s1, Declared(body)), Shadow(s2, Declared(body)), body);
  }

  lemma {:induction false} StmtWeaker(s1: Subst, s2: Subst, t: Stmt)
    requires Weaker(s1, s2) && StmtWritable(s1, t)
    ensures StmtWritable(s2, t)
    decreases t, 0
  {
    match t
    case Do(e) => ExprWeaker(s1, s2, e);
    case Throw(e) => ExprWeaker(s1, s2, e);
    case Declare(_, init) => ExprWeaker(s1, s2, init);
    case Block(body) => ScopeWeaker(s1, s2, body);
    case While(test, body) =>
      ExprWeaker(s1, s2, test);
      ScopeWeaker(s1, s2, body);
    case If(test, yes, no) =>
      ExprWeaker(s1, s2, test);
      ScopeWeaker(s1, s2, yes);
      ScopeWeaker(s1, s2, no);
    case Return =>
  }

  // ----- parsing survives substitution -----

  lemma {:induction false} ApplyWellParsed(s: Subst, e: Expr)
    ensures Level(ApplyExpr(s, e)) == Level(e)
    ensures WellParsed(e) ==> WellParsed(ApplyExpr(s, e))
    decreases e
  {
    match e
    case Paren(inner) => ApplyWellParsed(s, inner);
    case Not(operand) => ApplyWellParsed(s, operand);
    case And(l, r) => ApplyWellParsed(s, l); ApplyWellParsed(s, r);
    case Or(l, r) => ApplyWellParsed(s, l); ApplyWellParsed(s, r);
    case Compare(_, l, r) => ApplyWellParsed(s, l); ApplyWellParsed(s, r);
    case _ =>
  }

  lemma {:induction false} ApplyAllWellParsed(s: Subst, es: seq<Expr>)
    requires forall e :: e in es ==> WellParsed(e)
    ensures forall e :: e in ApplyExprs(s, es) ==> WellParsed(e)
  {
    if es != [] {
      ApplyWellParsed(s, es[0]);
      ApplyAllWellParsed(s, es[1..]);
    }
  }
}
