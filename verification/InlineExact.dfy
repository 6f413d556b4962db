/** Strict-mode inlining preserves behaviour exactly, under the conditions it relies on. */
module InlineExact {
  import opened Collections
  import opened InlineLanguage
  import opened InlineGuards
  import opened InlineText
  import opened InlineScope
  import opened InlineNames
  import opened InlinePlan

  // ----- evaluation depends only on the names it mentions -----

  /** The two frames bind the names of `names` alike. */
  ghost predicate Same(names: set<string>, f: Frame, g: Frame) {
    forall n :: n in names ==> (n in f <==> n in g) && (n in f ==> f[n] == g[n])
  }

  function Identity(names: set<string>): Subst {
    map n | n in names :: Rename(n)
  }

  lemma {:induction false} IdentityApplies(names: set<string>, e: Expr)
    ensures ApplyExpr(Identity(names), e) == e && ExprWritable(Identity(names), e)
    decreases e, 0
  {
    match e
    case Literal(_) =>
    case Var(_) =>
    case Call(_, args) => IdentityAppliesAll(names, args);
    case Assign(_, rhs) => IdentityApplies(names, rhs);
    case Conditional(test, yes, no) =>
      IdentityApplies(names, test);
      IdentityApplies(names, yes);
      IdentityApplies(names, no);
    case Paren(inner) => IdentityApplies(names, inner);
    case Not(operand) => IdentityApplies(names, operand);
    case And(l, r) => IdentityApplies(names, l); IdentityApplies(names, r);
    case Or(l, r) => IdentityApplies(names, l); IdentityApplies(names, r);
    case Compare(_, l, r) => IdentityApplies(names, l); IdentityApplies(names, r);
  }

  lemma {:induction false} IdentityAppliesAll(names: set<string>, es: seq<Expr>)
    ensures ApplyExprs(Identity(names), es) == es && ExprsWritable(Identity(names), es)
    decreases es, 0
  {
    if es != [] {
      IdentityApplies(names, es[0]);
      IdentityAppliesAll(names, es[1..]);
    }
  }

  /** An expression evaluates alike in frames that agree on its names, and leaves all other names alone. */
  lemma {:induction false} EvalLocal(w: World, e: Expr, names: set<string>, f: Frame, g: Frame, st: State)
    requires Same(names, f, g) && ExprNames(e) <= names
    ensures var a, b := Eval(w, e, f, st), Eval(w, e, g, st);
      && a.c == b.c && a.st == b.st && Same(names, a.frame, b.frame)
      && a.frame.Keys == f.Keys && b.frame.Keys == g.Keys
      && (forall n :: n in g && n !in names ==> b.frame[n] == g[n])
  {
    var id := Identity(names * f.Keys);
    IdentityApplies(names * f.Keys, e);
    EvalSame(w, id, e, f, g, st);
    var a, b := Eval(w, e, f, st), Eval(w, e, g, st);
    forall n | n in names ensures (n in a.frame <==> n in b.frame) && (n in a.frame ==> a.frame[n] == b.frame[n]) {
      if n in f { assert id[n] == Rename(n); }
    }
    forall n | n in g && n !in names ensures b.frame[n] == g[n] {
      assert !IsTarget(id, n);
    }
  }

  lemma {:induction false} ArgsLocal(w: World, es: seq<Expr>, f: Frame, st: State)
    ensures var a := EvalArgs(w, es, f, st);
      a.frame.Keys == f.Keys && forall n :: n in f && n !in ExprsNames(es) ==> a.frame[n] == f[n]
    decreases |es|
  {
    if es != [] {
      EvalLocal(w, es[0], ExprNames(es[0]), f, f, st);
      var first := Eval(w, es[0], f, st);
      ArgsLocal(w, es[1..], first.frame, first.st);
      FirstArg(w, es, f, st);
    }
  }

  // ----- the hoisted prefix evaluates the arguments -----

  /** What the prefix leaves behind when all arguments have been evaluated. */
  ghost predicate Hoisted(plan: Hoist, params: seq<string>, values: seq<Value>, g: Frame) {
    var bound := Bind(params, values);
    && (forall p :: p in plan.subst ==> p in bound)
    && (forall p :: p in plan.subst && plan.subst[p].Rename? ==>
        plan.subst[p].name in g && g[plan.subst[p].name] == bound[p])
    && (forall p :: p in plan.subst && plan.subst[p].Missing? ==> bound[p] == Live(Undefined))
  }

  ghost predicate PrefixOk(plan: Hoist, params: seq<string>, args: ArgsResult, r: ExecResult, names: set<string>, g: Frame) {
    && r.st == args.st && Same(names, args.frame, r.frame) && r.frame.Keys == g.Keys
    && (forall n :: n in g && n !in names && n !in Targets(plan.subst) ==> r.frame[n] == g[n])
    && r.ctl == (if args.ArgsThrew? then Threw(args.v) else Next)
    && (args.Args? ==> Hoisted(plan, params, args.values, r.frame))
  }

  lemma {:induction false} BindKeys(params: seq<string>, values: seq<Value>)
    ensures Bind(params, values).Keys == Elements(params)
  {
    if params != [] {
      BindKeys(params[1..], if values == [] then [] else values[1..]);
      assert Elements(params) == Elements(params[1..]) + {params[0]};
    }
  }

  lemma {:induction false} BindMissing(params: seq<string>)
    ensures Bind(params, []).Keys == Elements(params) && forall p :: p in Bind(params, []) ==> Bind(params, [])[p] == Live(Undefined)
  {
    if params != [] {
      BindMissing(params[1..]);
      assert Elements(params) == Elements(params[1..]) + {params[0]};
    }
  }

  lemma {:induction false} PlanWithoutArgs(params: seq<string>, used: set<string>, taken: set<string>)
    ensures Plan(params, [], used, taken).prefix == []
    ensures forall p :: p in Plan(params, [], used, taken).subst ==>
      p in params && Plan(params, [], used, taken).subst[p] == Missing
  {
    if params != [] {
      PlanWithoutArgs(params[1..], used, taken);
    }
  }

  lemma {:induction false} UnparenLiteral(w: World, e: Expr, f: Frame, st: State)
    requires Unparen(e).Literal?
    ensures Eval(w, e, f, st) == EvalResult(Normal(Unparen(e).v), f, st)
  {
    if e.Paren? {
      UnparenLiteral(w, e.inner, f, st);
    }
  }

  /**
   * The prefix has the effects of evaluating the arguments left to right, throws as they do, and leaves every used
   * parameter's value in its temporary.
   */
  lemma {:induction false} PrefixExact(w: World, fuel: nat, params: seq<string>, args: seq<Expr>, used: set<string>,
                                       taken: set<string>, names: set<string>, f: Frame, g: Frame, st: State)
    requires Distinct(params) && |args| <= |params| && names <= taken && ExprsNames(args) <= names
    requires Same(names, f, g) && Targets(Plan(params, args, used, taken).subst) <= g.Keys
    ensures var plan := Plan(params, args, used, taken);
      PrefixOk(plan, params, EvalArgs(w, args, f, st), ExecAll(w, fuel, plan.prefix, g, st), names, g)
    decreases |params|
  {
    PlanShape(params, args, used, taken);
    if args == [] {
      PlanWithoutArgs(params, used, taken);
      BindMissing(params);
    } else {
      if params[0] in used {
        PrefixHoists(w, fuel, params, args, used, taken, names, f, g, st);
      } else if Unparen(args[0]).Literal? {
        PrefixDrops(w, fuel, params, args, used, taken, names, f, g, st);
      } else {
        PrefixEvaluates(w, fuel, params, args, used, taken, names, f, g, st);
      }
    }
  }

  lemma {:induction false} HoistedRest(plan: Hoist, params: seq<string>, values: seq<Value>, g: Frame)
    requires params != [] && values != [] && params[0] !in plan.subst && Hoisted(plan, params[1..], values[1..], g)
    ensures Hoisted(plan, params, values, g)
  {
  }

  /** Dropping an unused literal argument loses nothing: evaluating it has no effect. */
  lemma {:induction false} PrefixDrops(w: World, fuel: nat, params: seq<string>, args: seq<Expr>, used: set<string>,
                                       taken: set<string>, names: set<string>, f: Frame, g: Frame, st: State)
    requires Distinct(params) && 0 < |args| <= |params| && names <= taken && ExprsNames(args) <= names
    requires Same(names, f, g) && Targets(Plan(params, args, used, taken).subst) <= g.Keys
    requires params[0] !in used && Unparen(args[0]).Literal?
    ensures var plan := Plan(params, args, used, taken);
      PrefixOk(plan, params, EvalArgs(w, args, f, st), ExecAll(w, fuel, plan.prefix, g, st), names, g)
    decreases |params|, 0
  {
    var plan := Plan(params, args, used, taken);
    PlanShape(params, args, used, taken);
    UnparenLiteral(w, args[0], f, st);
    PrefixExact(w, fuel, params[1..], args[1..], used, taken, names, f, g, st);
    var r := EvalArgs(w, args, f, st);
    if r.Args? {
      assert r.values[1..] == EvalArgs(w, args[1..], f, st).values;
      HoistedRest(plan, params, r.values, ExecAll(w, fuel, plan.prefix, g, st).frame);
    }
  }

  lemma {:induction false} PrefixEvaluates(w: World, fuel: nat, params: seq<string>, args: seq<Expr>, used: set<string>,
                                           taken: set<string>, names: set<string>, f: Frame, g: Frame, st: State)
    requires Distinct(params) && 0 < |args| <= |params| && names <= taken && ExprsNames(args) <= names
    requires Same(names, f, g) && Targets(Plan(params, args, used, taken).subst) <= g.Keys
    requires params[0] !in used && !Unparen(args[0]).Literal?
    ensures var plan := Plan(params, args, used, taken);
      PrefixOk(plan, params, EvalArgs(w, args, f, st), ExecAll(w, fuel, plan.prefix, g, st), names, g)
    decreases |params|, 0
  {
    var rest := Plan(params[1..], args[1..], used, taken);
    PlanShape(params, args, used, taken);
    EvalLocal(w, args[0], names, f, g, st);
    FirstArg(w, args, f, st);
    DoFirst(w, fuel, args[0], rest.prefix, g, st);
    var a, b := Eval(w, args[0], f, st), Eval(w, args[0], g, st);
    if a.c.Normal? {
      PrefixExact(w, fuel, params[1..], args[1..], used, taken, names, a.frame, b.frame, a.st);
      FirstUnused(Plan(params, args, used, taken), rest, params, a.c.v, EvalArgs(w, args[1..], a.frame, a.st),
        ExecAll(w, fuel, rest.prefix, b.frame, b.st), names, g, b.frame);
    }
  }

  lemma {:induction false} DoFirst(w: World, fuel: nat, e: Expr, ss: seq<Stmt>, g: Frame, st: State)
    ensures var b := Eval(w, e, g, st);
      ExecAll(w, fuel, [Do(e)] + ss, g, st)
      == if b.c.Throws? then ExecResult(Threw(b.c.v), b.frame, b.st) else ExecAll(w, fuel, ss, b.frame, b.st)
  {
    assert ([Do(e)] + ss)[1..] == ss;
  }

  /** What holds of the rest holds of the whole when the first argument is evaluated and its value not used. */
  lemma {:induction false} FirstUnused(plan: Hoist, rest: Hoist, params: seq<string>, v: Value, args: ArgsResult, r: ExecResult,
                                       names: set<string>, g: Frame, g1: Frame)
    requires params != [] && params[0] !in rest.subst && plan.subst == rest.subst && PrefixOk(rest, params[1..], args, r, names, g1)
    requires g1.Keys == g.Keys && forall n :: n in g && n !in names ==> g1[n] == g[n]
    ensures PrefixOk(plan, params, if args.Args? then args.(values := [v] + args.values) else args, r, names, g)
  {
    if args.Args? {
      assert ([v] + args.values)[1..] == args.values;
      HoistedRest(plan, params, [v] + args.values, r.frame);
    }
  }

  lemma {:induction false} PrefixHoists(w: World, fuel: nat, params: seq<string>, args: seq<Expr>, used: set<string>,
                                        taken: set<string>, names: set<string>, f: Frame, g: Frame, st: State)
    requires Distinct(params) && 0 < |args| <= |params| && names <= taken && ExprsNames(args) <= names
    requires Same(names, f, g) && Targets(Plan(params, args, used, taken).subst) <= g.Keys && params[0] in used
    ensures var plan := Plan(params, args, used, taken);
      PrefixOk(plan, params, EvalArgs(w, args, f, st), ExecAll(w, fuel, plan.prefix, g, st), names, g)
    decreases |params|, 0
  {
    var temp := FreshName(TempBase(params[0]), taken);
    var rest := Plan(params[1..], args[1..], used, taken + {temp});
    PlanShape(params, args, used, taken);
    PlanShape(params[1..], args[1..], used, taken + {temp});
    EvalLocal(w, args[0], names, f, g, st);
    FirstArg(w, args, f, st);
    DeclareFirst(w, fuel, temp, args[0], rest.prefix, g, st);
    var a, b := Eval(w, args[0], f, st), Eval(w, args[0], g, st);
    AddTarget(rest.subst, params[0], temp);
    if a.c.Normal? {
      var g1 := b.frame[temp := Live(a.c.v)];
      assert g1.Keys == g.Keys;
      PrefixExact(w, fuel, params[1..], args[1..], used, taken + {temp}, names, a.frame, g1, a.st);
      FirstHoisted(Plan(params, args, used, taken), rest, params, temp, a.c.v, EvalArgs(w, args[1..], a.frame, a.st),
        ExecAll(w, fuel, rest.prefix, g1, b.st), names, g, b.frame);
    }
  }

  lemma {:induction false} DeclareFirst(w: World, fuel: nat, name: string, e: Expr, ss: seq<Stmt>, g: Frame, st: State)
    ensures var b := Eval(w, e, g, st);
      ExecAll(w, fuel, [Declare(name, e)] + ss, g, st)
      == if b.c.Throws? then ExecResult(Threw(b.c.v), b.frame, b.st) else ExecAll(w, fuel, ss, b.frame[name := Live(b.c.v)], b.st)
  {
    assert ([Declare(name, e)] + ss)[1..] == ss;
  }

  /** What holds of the rest holds of the whole when the first argument is put into a temporary of its own. */
  lemma {:induction false} FirstHoisted(plan: Hoist, rest: Hoist, params: seq<string>, temp: string, v: Value, args: ArgsResult,
                                        r: ExecResult, names: set<string>, g: Frame, g1: Frame)
    requires params != [] && params[0] !in rest.subst && plan.subst == rest.subst[params[0] := Rename(temp)]
    requires Targets(plan.subst) == Targets(rest.subst) + {temp} && temp !in Targets(rest.subst) && temp !in names && temp in g
    requires PrefixOk(rest, params[1..], args, r, names, g1[temp := Live(v)])
    requires g1.Keys == g.Keys && forall n :: n in g && n !in names ==> g1[n] == g[n]
    ensures PrefixOk(plan, params, if args.Args? then args.(values := [v] + args.values) else args, r, names, g)
  {
    if args.Args? {
      assert ([v] + args.values)[1..] == args.values;
    }
  }
}
