/** The main theorem of the inliner: in strict mode the replaced call site behaves exactly like the call. */
module InlineTheorem {
  import opened InlineLanguage
  import opened InlineGuards
  import opened InlineText
  import opened InlineScope
  import opened InlinePlan
  import opened InlineExact
  import opened InlineStrict

  function CalleeFrame(h: Helper, values: seq<Value>): Frame {
    Enter(Bind(h.params, values), Declared(h.body))
  }

  /** The relational comparators that the inversion flips meet no NaN while the guards run. */
  ghost predicate CallOrdered(w: World, h: Helper, args: seq<Expr>, f: Frame, st: State) {
    var a := EvalArgs(w, args, f, st);
    a.Args? ==> GuardsOrdered(w, Guards(h.body), CalleeFrame(h, a.values), a.st)
  }

  /** Same outcome, same effects and globals, and these names have the same values. */
  ghost predicate SameCall(names: set<string>, a: ExecResult, b: ExecResult) {
    a.ctl == b.ctl && a.st == b.st && Same(names, a.frame, b.frame)
  }

  /** The same in everything but these names. */
  ghost predicate SameBut(names: set<string>, a: ExecResult, b: ExecResult) {
    a.ctl == b.ctl && a.st == b.st && a.frame - names == b.frame - names
  }

  lemma {:induction false} SameElsewhere(names: set<string>, a: ExecResult, b: ExecResult)
    requires SameCall(a.frame.Keys + b.frame.Keys - names, a, b)
    ensures SameBut(names, a, b)
  {
    forall n | n in a.frame.Keys + b.frame.Keys - names ensures n in a.frame && n in b.frame && a.frame[n] == b.frame[n] {
    }
  }

  /** Everything the theorem supposes of a call site. */
  ghost predicate Inlinable(w: World, h: Helper, args: seq<Expr>, taken: set<string>, f: Frame, st: State) {
    && Candidate(h)
    && CallSite(h, args, taken, f)
    && NewToBody(h, args, taken)
    && GuardsBeforeLocals(h)
    && CallOrdered(w, h, args, f, st)
  }

  // ----- shape -----

  lemma {:induction false} LocalsAreDeclared(ss: seq<Stmt>)
    ensures Elements(Locals(ss)) == Declared(ss)
  {
    if ss != [] {
      LocalsAreDeclared(ss[1..]);
    }
  }

  lemma {:induction false} DeclaredConcat(a: seq<Stmt>, b: seq<Stmt>)
    ensures Declared(a + b) == Declared(a) + Declared(b)
  {
    if a == [] {
      assert a + b == b;
    } else {
      assert (a + b)[0] == a[0] && (a + b)[1..] == a[1..] + b;
      DeclaredConcat(a[1..], b);
    }
  }

  /** A tail whose locals are all renamed declares the new names. */
  lemma {:induction false} DeclaredRenamed(s: Subst, ss: seq<Stmt>)
    requires forall n :: n in Declared(ss) ==> n in s && s[n].Rename?
    ensures forall n :: n in Declared(ApplyAll(s, ss)) <==> exists x :: x in Declared(ss) && s[x].name == n
  {
    if ss != [] {
      assert ApplyAll(s, ss)[1..] == ApplyAll(s, ss[1..]);
      DeclaredRenamed(s, ss[1..]);
    }
  }

  lemma {:induction false} IntroducedShape(h: Helper, args: seq<Expr>, taken: set<string>)
    requires Candidate(h)
    ensures var s := Introduced(h, args, taken);
      var plan := Plan(h.params, args, Used(h), taken);
      && PlanOk(h.params, Used(h), taken, plan)
      && Injective(s) && Targets(s) !! taken && Targets(plan.subst) <= Targets(s)
      && (forall x :: x in plan.subst ==> x in s && s[x] == plan.subst[x])
      && (forall x :: x in s ==> x in plan.subst || (Guards(h.body) == [] && x in Declared(h.body) && s[x].Rename?))
      && (Guards(h.body) == [] ==> Declared(h.body) <= s.Keys)
  {
    var plan := Plan(h.params, args, Used(h), taken);
    PlanShape(h.params, args, Used(h), taken);
    var locals := Locals(Tail(h.body));
    LocalsAreDeclared(Tail(h.body));
    BodyParts(h.body);
    RenamedShape(locals, plan.taken);
    if Guards(h.body) == [] {
      var r := RenameLocals(locals, plan.taken).0;
      UnionShape(plan.subst, r);
    }
  }

  lemma {:induction false} UnionShape(s: Subst, r: Subst)
    requires s.Keys !! r.Keys && Injective(s) && Injective(r) && Targets(s) !! Targets(r)
    ensures Injective(s + r) && Targets(s + r) == Targets(s) + Targets(r)
  {
    var u := s + r;
    forall x, y | x in u && y in u && x != y && u[x].Rename? && u[y].Rename? ensures u[x].name != u[y].name {
      assert x in s ==> u[x].name in Targets(s);
      assert x in r ==> u[x].name in Targets(r);
      assert y in s ==> u[y].name in Targets(s);
      assert y in r ==> u[y].name in Targets(r);
    }
    forall n ensures n in Targets(u) <==> n in Targets(s) + Targets(r) {
      TargetsAre(s, n);
      TargetsAre(r, n);
      TargetsAre(u, n);
      if IsTarget(s, n) {
        var x :| x in s && s[x] == Rename(n);
        assert u[x] == Rename(n);
      } else if IsTarget(r, n) {
        var x :| x in r && r[x] == Rename(n);
        assert u[x] == Rename(n);
      }
    }
  }

  /** The replaced block declares exactly the introduced names. */
  lemma {:induction false} CodeDeclares(h: Helper, args: seq<Expr>, taken: set<string>)
    requires Candidate(h)
    ensures Declared(Code(Replace(h, args, taken))) == Targets(Introduced(h, args, taken))
  {
    if Guards(h.body) != [] {
      GuardedCodeDeclares(h, args, taken);
    } else {
      PlainCodeDeclares(h, args, taken);
    }
  }

  lemma {:induction false} GuardedCodeDeclares(h: Helper, args: seq<Expr>, taken: set<string>)
    requires Candidate(h) && Guards(h.body) != []
    ensures Declared(Code(Replace(h, args, taken))) == Targets(Introduced(h, args, taken))
  {
    var plan := Plan(h.params, args, Used(h), taken);
    IntroducedShape(h, args, taken);
    var extra := Code(Replace(h, args, taken))[|plan.prefix|..];
    assert Code(Replace(h, args, taken)) == plan.prefix + extra;
    assert Declared(extra) == {} by {
      if extra != [] { assert extra[1..] == []; }
    }
    DeclaredConcat(plan.prefix, extra);
  }

  lemma {:induction false} PlainCodeDeclares(h: Helper, args: seq<Expr>, taken: set<string>)
    requires Candidate(h) && Guards(h.body) == []
    ensures Declared(Code(Replace(h, args, taken))) == Targets(Introduced(h, args, taken))
  {
    var plan := Plan(h.params, args, Used(h), taken);
    var tail, s := Tail(h.body), Introduced(h, args, taken);
    IntroducedShape(h, args, taken);
    BodyParts(h.body);
    DeclaredConcat(plan.prefix, ApplyAll(s, tail));
    DeclaredRenamed(s, tail);
    forall n ensures n in Declared(plan.prefix) + Declared(ApplyAll(s, tail)) <==> n in Targets(s) {
      TargetsAre(s, n);
      if IsTarget(s, n) {
        var x :| x in s && s[x] == Rename(n);
        if x in plan.subst { TargetsAre(plan.subst, n); }
      }
    }
  }

  // ----- after the prefix both sides match -----

  ghost predicate StillDead(names: set<string>, g: Frame) {
    forall n :: n in names ==> n in g && g[n] == Dead
  }

  lemma {:induction false} StartMatched(h: Helper, args: seq<Expr>, taken: set<string>, values: seq<Value>, g: Frame)
    requires Candidate(h) && Hoisted(Plan(h.params, args, Used(h), taken), h.params, values, g)
    requires StillDead(Targets(Introduced(h, args, taken)) - Targets(Plan(h.params, args, Used(h), taken).subst), g)
    ensures Sim(Introduced(h, args, taken), CalleeFrame(h, values), g)
  {
    IntroducedShape(h, args, taken);
    var s := Introduced(h, args, taken);
    var plan := Plan(h.params, args, Used(h), taken);
    BindKeys(h.params, values);
    forall x | x in s
      ensures x in CalleeFrame(h, values)
      ensures s[x].Rename? ==> s[x].name in g && g[s[x].name] == CalleeFrame(h, values)[x]
      ensures s[x].Missing? ==> CalleeFrame(h, values)[x] == Live(Undefined)
    {
      if x in plan.subst {
        assert x !in Declared(h.body);
      } else {
        TargetsAre(s, s[x].name);
        assert forall y :: y in plan.subst && plan.subst[y].Rename? ==> s[y] == plan.subst[y] && s[y].name != s[x].name;
        assert s[x].name !in Targets(plan.subst);
      }
    }
  }

  /** Free names of the helper reach the same globals from the caller's block, once the new names are in place. */
  lemma {:induction false} BodyClear(h: Helper, args: seq<Expr>, taken: set<string>, f: Frame, values: seq<Value>, g: Frame, names: set<string>)
    requires Candidate(h) && CallSite(h, args, taken, f) && NewToBody(h, args, taken)
    requires g.Keys == f.Keys + Targets(Introduced(h, args, taken))
    requires names <= AllFree(h.body) && names <= AllNames(h.body) && (Guards(h.body) != [] ==> names !! Declared(h.body))
    ensures Clear(Introduced(h, args, taken), CalleeFrame(h, values), g, names)
  {
    IntroducedShape(h, args, taken);
    var s := Introduced(h, args, taken);
    BindKeys(h.params, values);
    forall n | n in names && n !in s ensures n !in CalleeFrame(h, values) && n !in g {
      assert n !in Declared(h.body);
      assert n in Used(h) ==> n in s;
      TargetsAre(s, n);
    }
  }

  lemma {:induction false} FreeAreNames(ss: seq<Stmt>)
    ensures AllFree(ss) <= AllNames(ss)
    decreases ss, 1
  {
    if ss != [] {
      StmtFreeAreNames(ss[0]);
      FreeAreNames(ss[1..]);
    }
  }

  lemma {:induction false} StmtFreeAreNames(t: Stmt)
    ensures StmtFree(t) <= StmtNames(t)
    decreases t, 0
  {
    match t
    case If(_, yes, no) => FreeAreNames(yes); FreeAreNames(no);
    case Block(body) => FreeAreNames(body);
    case While(_, body) => FreeAreNames(body);
    case _ =>
  }

  // ----- the tail -----

  /** Inside the inserted block, whose own locals stand for the helper's, the tail meets matching frames. */
  lemma {:induction false} TailMatched(h: Helper, s: Subst, fa: Frame, fb: Frame)
    requires Candidate(h) && Sim(s, fa, fb) && Fresh(s, AllNames(h.body)) && s.Keys <= Elements(h.params)
    requires Clear(s, fa, fb, AllFree(h.body) - Declared(h.body)) && StillDead(Declared(h.body), fa)
    ensures var locals := Declared(Tail(h.body));
      && Sim(Shadow(s, locals), fa, Enter(fb, locals))
      && Clear(Shadow(s, locals), fa, Enter(fb, locals), AllFree(Tail(h.body)))
      && AllWritable(Shadow(s, locals), Tail(h.body))
      && Fresh(Shadow(s, locals), AllNames(Tail(h.body)))
  {
    var tail := Tail(h.body);
    var locals := Declared(tail);
    BodyParts(h.body);
    DeclaredAreNames(tail);
    DeadAlready(s, fa, fb, locals);
    EnterMatched(s, fa, fb, locals);
    WritableHere(h, s);
    forall n | n in AllFree(tail) && n !in Shadow(s, locals) ensures n !in fa && n !in Enter(fb, locals) {
      assert n in AllFree(h.body) - Declared(h.body);
    }
  }

  lemma {:induction false} WritableHere(h: Helper, s: Subst)
    requires Candidate(h) && s.Keys <= Elements(h.params)
    ensures ScopeWritable(s, Tail(h.body)) && ExprsWritable(s, Guards(h.body))
  {
    assert Weaker(ReadOnly(h.params), s);
    ScopeWeaker(ReadOnly(h.params), s, Tail(h.body));
    ExprsWeaker(ReadOnly(h.params), s, Guards(h.body));
  }

  lemma {:induction false} GuardedTail(w: World, fuel: nat, h: Helper, s: Subst, fa: Frame, fb: Frame, st: State, keep: set<string>)
    requires Candidate(h) && Sim(s, fa, fb) && Fresh(s, AllNames(h.body)) && s.Keys <= Elements(h.params)
    requires Clear(s, fa, fb, AllFree(h.body) - Declared(h.body)) && StillDead(Declared(h.body), fa)
    requires Targets(s) !! keep
    ensures var a, b := ExecAll(w, fuel, Tail(h.body), fa, st), ExecScope(w, fuel, ApplyScope(s, Tail(h.body)), fb, st);
      a.ctl == b.ctl && a.st == b.st && Same(keep, fb, b.frame)
  {
    var tail := Tail(h.body);
    var locals := Declared(tail);
    var inner := Shadow(s, locals);
    TailMatched(h, s, fa, fb);
    DeclaredApply(inner, tail);
    ExecAllSame(w, fuel, inner, tail, fa, Enter(fb, locals), st);
    var b := ExecAll(w, fuel, ApplyAll(inner, tail), Enter(fb, locals), st);
    GuardedFrames(s, locals, fb, b.frame, keep);
  }

  lemma {:induction false} DeadAlready(s: Subst, fa: Frame, fb: Frame, locals: set<string>)
    requires Sim(s, fa, fb) && forall n :: n in locals ==> n in fa && fa[n] == Dead
    ensures Enter(fa, locals) == fa && Sim(s, Enter(fa, locals), fb)
  {
    assert Enter(fa, locals) == fa;
  }

  lemma {:induction false} GuardedFrames(s: Subst, locals: set<string>, fb: Frame, gb: Frame, keep: set<string>)
    requires Targets(s) !! keep && gb.Keys == Enter(fb, locals).Keys
    requires forall n :: n in Enter(fb, locals) && !IsTarget(Shadow(s, locals), n) ==> gb[n] == Enter(fb, locals)[n]
    ensures Same(keep, fb, Leave(fb, gb, locals))
  {
    LeaveKeys(fb, gb, locals);
    forall n | n in keep && n in fb && n !in locals ensures gb[n] == fb[n] {
      if IsTarget(Shadow(s, locals), n) {
        TargetsInside(s, locals, n);
        TargetsAre(s, n);
      }
    }
  }

  // ----- the two shapes of a replacement -----

  /** What the guards leave behind, and the inserted condition that decides them. */
  lemma {:induction false} ConditionExact(w: World, h: Helper, s: Subst, fa: Frame, g: Frame, st: State)
    requires Candidate(h) && Guards(h.body) != [] && s.Keys <= Elements(h.params)
    requires Sim(s, fa, g) && Clear(s, fa, g, ExprsNames(Guards(h.body))) && GuardsOrdered(w, Guards(h.body), fa, st)
    ensures var condition := Parse(CombineTexts(ApplyExprs(s, Guards(h.body))));
      && condition.Tree?
      && var run, run2 := RunGuards(w, Guards(h.body), fa, st), RunGuards(w, ApplyExprs(s, Guards(h.body)), g, st);
         SameRun(s, fa, g, run, run2) && Decides(run2, Eval(w, condition.e, g, st))
  {
    WritableHere(h, s);
    RunGuardsSame(w, s, Guards(h.body), fa, g, st);
    ApplyAllWellParsed(s, Guards(h.body));
    WrittenConditionDecides(w, ApplyExprs(s, Guards(h.body)), g, st);
  }

  /** How the inserted `if` ends when its condition decides the guards. */
  lemma {:induction false} DecidedIf(w: World, fuel: nat, run: GuardRun, condition: Expr, body: seq<Stmt>, g: Frame, st: State)
    requires Decides(run, Eval(w, condition, g, st))
    ensures Exec(w, fuel, If(condition, body, []), g, st) ==
      match run
      case Fail(v, f1, st1) => ExecResult(Threw(v), f1, st1)
      case Stop(f1, st1) => ExecResult(Next, f1, st1)
      case Pass(f1, st1) => ExecScope(w, fuel, body, f1, st1)
  {
    EmptyElse(w, fuel, run.frame, run.st);
  }

  /** The guarded replacement from the point where the arguments have been evaluated. */
  lemma {:induction false} GuardedExact(w: World, fuel: nat, h: Helper, s: Subst, fa: Frame, g: Frame, st: State, keep: set<string>)
    requires Candidate(h) && Guards(h.body) != [] && GuardsBeforeLocals(h)
    requires Sim(s, fa, g) && Fresh(s, AllNames(h.body)) && s.Keys <= Elements(h.params) && Targets(s) !! keep
    requires Clear(s, fa, g, AllFree(h.body) - Declared(h.body)) && StillDead(Declared(h.body), fa)
    requires GuardsOrdered(w, Guards(h.body), fa, st)
    ensures var condition := Parse(CombineTexts(ApplyExprs(s, Guards(h.body))));
      condition.Tree? && ReplacesBody(w, fuel, h, s, fa, g, st, keep, condition.e)
  {
    assert Clear(s, fa, g, ExprsNames(Guards(h.body))) by { BodyParts(h.body); }
    ConditionExact(w, h, s, fa, g, st);
    var condition := Parse(CombineTexts(ApplyExprs(s, Guards(h.body)))).e;
    DecidedExact(w, fuel, h, s, fa, g, st, keep, condition,
      RunGuards(w, Guards(h.body), fa, st), RunGuards(w, ApplyExprs(s, Guards(h.body)), g, st));
  }

  /** The inserted `if` does what the helper's body does. */
  ghost predicate ReplacesBody(w: World, fuel: nat, h: Helper, s: Subst, fa: Frame, g: Frame, st: State, keep: set<string>,
                               condition: Expr) {
    var a := ExecAll(w, fuel, h.body, fa, st);
    var b := Exec(w, fuel, If(condition, ApplyScope(s, Tail(h.body)), []), g, st);
    SameCall(keep, ExecResult(if a.ctl.Returned? then Next else a.ctl, g, a.st), b)
  }

  lemma {:induction false} DecidedExact(w: World, fuel: nat, h: Helper, s: Subst, fa: Frame, g: Frame, st: State, keep: set<string>,
                     condition: Expr, run: GuardRun, run2: GuardRun)
    requires Candidate(h) && Fresh(s, AllNames(h.body)) && s.Keys <= Elements(h.params) && Targets(s) !! keep
    requires Clear(s, fa, g, AllFree(h.body) - Declared(h.body)) && StillDead(Declared(h.body), fa)
    requires run == RunGuards(w, Guards(h.body), fa, st)
    requires SameRun(s, fa, g, run, run2) && Decides(run2, Eval(w, condition, g, st))
    ensures ReplacesBody(w, fuel, h, s, fa, g, st, keep, condition)
  {
    GuardsThenTail(w, fuel, h.body, fa, st);
    DecidedIf(w, fuel, run2, condition, ApplyScope(s, Tail(h.body)), g, st);
    OthersUnchanged(s, fa, g, run.frame, run2.frame, keep);
    if run.Pass? {
      TailAfterGuards(w, fuel, h, s, fa, g, run.frame, run2.frame, run.st, keep);
      var b := ExecScope(w, fuel, ApplyScope(s, Tail(h.body)), run2.frame, run2.st);
      SameTrans(keep, g, run2.frame, b.frame);
    }
  }

  lemma {:induction false} TailAfterGuards(w: World, fuel: nat, h: Helper, s: Subst, fa: Frame, fb: Frame, fa2: Frame, fb2: Frame,
                        st: State, keep: set<string>)
    requires Candidate(h) && Keeps(s, fa, fb, fa2, fb2) && Fresh(s, AllNames(h.body)) && s.Keys <= Elements(h.params)
    requires Clear(s, fa, fb, AllFree(h.body) - Declared(h.body)) && StillDead(Declared(h.body), fa)
    requires Targets(s) !! keep
    ensures var a, b := ExecAll(w, fuel, Tail(h.body), fa2, st), ExecScope(w, fuel, ApplyScope(s, Tail(h.body)), fb2, st);
      a.ctl == b.ctl && a.st == b.st && Same(keep, fb2, b.frame) && !a.ctl.Returned?
  {
    GuardedTail(w, fuel, h, s, fa2, fb2, st, keep);
    NeverReturned(w, fuel, Tail(h.body), fa2, st);
  }

  lemma {:induction false} EmptyElse(w: World, fuel: nat, f: Frame, st: State)
    ensures ExecScope(w, fuel, [], f, st) == ExecResult(Next, f, st)
  {
    EmptyScope(f);
  }

  lemma {:induction false} OthersUnchanged(s: Subst, fa: Frame, fb: Frame, fa2: Frame, fb2: Frame, keep: set<string>)
    requires Keeps(s, fa, fb, fa2, fb2) && Targets(s) !! keep
    ensures Same(keep, fb, fb2)
  {
    forall n | n in keep && n in fb ensures fb2[n] == fb[n] {
      TargetsAre(s, n);
    }
  }

  /** The guardless replacement: the renamed tail runs in the caller's block itself. */
  lemma {:induction false} GuardlessExact(w: World, fuel: nat, h: Helper, s: Subst, fa: Frame, g: Frame, st: State, keep: set<string>)
    requires Candidate(h) && Guards(h.body) == []
    requires Sim(s, fa, g) && Fresh(s, AllNames(h.body)) && Targets(s) !! keep && Clear(s, fa, g, AllFree(h.body))
    requires Declared(h.body) <= s.Keys && forall x :: x in s ==>
      x in Elements(h.params) || (x in Declared(h.body) && s[x].Rename?)
    ensures var a, b := ExecAll(w, fuel, h.body, fa, st), ExecAll(w, fuel, ApplyAll(s, Tail(h.body)), g, st);
      SameCall(keep, ExecResult(if a.ctl.Returned? then Next else a.ctl, g, a.st), b)
  {
    var locals := Declared(h.body);
    BodyParts(h.body);
    assert h.body == Tail(h.body);
    assert Weaker(Shadow(ReadOnly(h.params), locals), s);
    AllWeaker(Shadow(ReadOnly(h.params), locals), s, h.body);
    ExecAllSame(w, fuel, s, h.body, fa, g, st);
    NeverReturned(w, fuel, h.body, fa, st);
    var a, b := ExecAll(w, fuel, h.body, fa, st), ExecAll(w, fuel, ApplyAll(s, h.body), g, st);
    OthersUnchanged(s, fa, g, a.frame, b.frame, keep);
  }

  // ----- the theorem -----

  /**
   * Strict-mode inlining is exact. For every world, helper, argument list and starting state: the statements that
   * replace the call end the same way (normally, by the same throw, or out of fuel), with the same effects in the same
   * order, the same globals, and the same value for every name but those they declare, which the caller's block lacks.
   */
  lemma {:induction false} InliningIsExact(w: World, fuel: nat, h: Helper, args: seq<Expr>, taken: set<string>, f: Frame, st: State)
    requires Inlinable(w, h, args, taken, f, st)
    ensures var code := Code(Replace(h, args, taken));
      SameBut(Declared(code), CallHelper(w, fuel, h, args, f, st), ExecAll(w, fuel, code, Enter(f, Declared(code)), st))
      && Declared(code) !! taken
  {
    var code := Code(Replace(h, args, taken));
    var a, b := CallHelper(w, fuel, h, args, f, st), ExecAll(w, fuel, code, Enter(f, Declared(code)), st);
    CodeDeclares(h, args, taken);
    IntroducedShape(h, args, taken);
    ExactFor(w, fuel, h, args, taken, f, st, a.frame.Keys + b.frame.Keys - Declared(code));
    SameElsewhere(Declared(code), a, b);
  }

  /** The theorem for any names that the replacement does not introduce. */
  lemma {:induction false} ExactFor(w: World, fuel: nat, h: Helper, args: seq<Expr>, taken: set<string>, f: Frame, st: State,
    keep: set<string>)
    requires Inlinable(w, h, args, taken, f, st) && keep !! Targets(Introduced(h, args, taken))
    ensures SameCall(keep, CallHelper(w, fuel, h, args, f, st),
      ExecAll(w, fuel, Code(Replace(h, args, taken)), Enter(f, Targets(Introduced(h, args, taken))), st))
  {
    var plan := Plan(h.params, args, Used(h), taken);
    var g0 := Enter(f, Targets(Introduced(h, args, taken)));
    HoistingExact(w, fuel, h, args, taken, f, st, keep);
    var a := EvalArgs(w, args, f, st);
    var p := ExecAll(w, fuel, plan.prefix, g0, st);
    PrefixThen(w, fuel, h, args, taken, g0, st);
    if a.Args? {
      AfterPrefix(w, fuel, h, args, taken, f, a.values, p.frame, a.st, keep);
      SameTrans(keep, a.frame, p.frame, ExecAll(w, fuel, Rest(h, args, taken), p.frame, a.st).frame);
    }
  }

  /** The prefix, run where the introduced names are still in their dead zone, stands for the argument evaluation. */
  lemma {:induction false} HoistingExact(w: World, fuel: nat, h: Helper, args: seq<Expr>, taken: set<string>, f: Frame, st: State,
    keep: set<string>)
    requires Candidate(h) && CallSite(h, args, taken, f) && keep !! Targets(Introduced(h, args, taken))
    ensures var plan := Plan(h.params, args, Used(h), taken);
      var intro := Targets(Introduced(h, args, taken));
      var a := EvalArgs(w, args, f, st);
      var p := ExecAll(w, fuel, plan.prefix, Enter(f, intro), st);
      && p.st == a.st && Same(keep, a.frame, p.frame)
      && p.ctl == (if a.ArgsThrew? then Threw(a.v) else Next)
      && (a.Args? ==> Hoisted(plan, h.params, a.values, p.frame))
      && p.frame.Keys == f.Keys + intro
      && StillDead(intro - Targets(plan.subst), p.frame)
  {
    var plan := Plan(h.params, args, Used(h), taken);
    var intro := Targets(Introduced(h, args, taken));
    IntroducedShape(h, args, taken);
    PrefixExact(w, fuel, h.params, args, Used(h), taken, taken, f, Enter(f, intro), st);
    ArgsLocal(w, args, f, st);
    PrefixLeaves(plan, h.params, EvalArgs(w, args, f, st), ExecAll(w, fuel, plan.prefix, Enter(f, intro), st), taken, f, intro, keep);
  }

  /** What the prefix did not declare is still in its dead zone, and what it does not mention is as it was. */
  lemma {:induction false} PrefixLeaves(plan: Hoist, params: seq<string>, a: ArgsResult, p: ExecResult, taken: set<string>, f: Frame,
    intro: set<string>, keep: set<string>)
    requires PrefixOk(plan, params, a, p, taken, Enter(f, intro)) && Targets(plan.subst) <= intro && intro !! taken && intro !! keep
    requires a.frame.Keys == f.Keys && forall n :: n in f && n !in taken ==> a.frame[n] == f[n]
    ensures p.st == a.st && Same(keep, a.frame, p.frame)
    ensures p.ctl == (if a.ArgsThrew? then Threw(a.v) else Next)
    ensures a.Args? ==> Hoisted(plan, params, a.values, p.frame)
    ensures p.frame.Keys == f.Keys + intro && StillDead(intro - Targets(plan.subst), p.frame)
  {
    forall n | n in keep && n in f ensures a.frame[n] == p.frame[n] {
      assert n !in taken ==> p.frame[n] == Enter(f, intro)[n];
    }
  }

  function Rest(h: Helper, args: seq<Expr>, taken: set<string>): seq<Stmt>
    requires |Plan(h.params, args, Used(h), taken).prefix| <= |Code(Replace(h, args, taken))|
  {
    Code(Replace(h, args, taken))[|Plan(h.params, args, Used(h), taken).prefix|..]
  }

  lemma {:induction false} PrefixThen(w: World, fuel: nat, h: Helper, args: seq<Expr>, taken: set<string>, g: Frame, st: State)
    ensures var prefix := Plan(h.params, args, Used(h), taken).prefix;
      && |prefix| <= |Code(Replace(h, args, taken))|
      && var p := ExecAll(w, fuel, prefix, g, st);
         ExecAll(w, fuel, Code(Replace(h, args, taken)), g, st) ==
           if p.ctl.Next? then ExecAll(w, fuel, Rest(h, args, taken), p.frame, p.st) else p
  {
    var prefix := Plan(h.params, args, Used(h), taken).prefix;
    assert Code(Replace(h, args, taken)) == prefix + Rest(h, args, taken);
    ExecAppend(w, fuel, prefix, Rest(h, args, taken), g, st);
  }

  lemma {:induction false} SameTrans(names: set<string>, f: Frame, g: Frame, k: Frame)
    requires Same(names, f, g) && Same(names, g, k)
    ensures Same(names, f, k)
  {
  }

  /** From the state the prefix leaves, the rest of the replacement does what the helper's body does. */
  lemma {:induction false} AfterPrefix(w: World, fuel: nat, h: Helper, args: seq<Expr>, taken: set<string>, f: Frame,
                    values: seq<Value>, g: Frame, st: State, keep: set<string>)
    requires keep !! Targets(Introduced(h, args, taken))
    requires Candidate(h) && CallSite(h, args, taken, f) && NewToBody(h, args, taken) && GuardsBeforeLocals(h)
    requires GuardsOrdered(w, Guards(h.body), CalleeFrame(h, values), st)
    requires Hoisted(Plan(h.params, args, Used(h), taken), h.params, values, g)
    requires g.Keys == f.Keys + Targets(Introduced(h, args, taken))
    requires StillDead(Targets(Introduced(h, args, taken)) - Targets(Plan(h.params, args, Used(h), taken).subst), g)
    requires |Plan(h.params, args, Used(h), taken).prefix| <= |Code(Replace(h, args, taken))|
    ensures var a := ExecAll(w, fuel, h.body, CalleeFrame(h, values), st);
      SameCall(keep, ExecResult(if a.ctl.Returned? then Next else a.ctl, g, a.st),
        ExecAll(w, fuel, Rest(h, args, taken), g, st))
  {
    FreeAreNames(h.body);
    StartMatched(h, args, taken, values, g);
    if Guards(h.body) != [] {
      GuardedAfterPrefix(w, fuel, h, args, taken, f, values, g, st, keep);
    } else {
      GuardlessAfterPrefix(w, fuel, h, args, taken, f, values, g, st, keep);
    }
  }

  lemma {:induction false} GuardedAfterPrefix(w: World, fuel: nat, h: Helper, args: seq<Expr>, taken: set<string>, f: Frame,
                           values: seq<Value>, g: Frame, st: State, keep: set<string>)
    requires keep !! Targets(Introduced(h, args, taken))
    requires Candidate(h) && CallSite(h, args, taken, f) && NewToBody(h, args, taken) && GuardsBeforeLocals(h)
    requires Guards(h.body) != [] && GuardsOrdered(w, Guards(h.body), CalleeFrame(h, values), st)
    requires Sim(Introduced(h, args, taken), CalleeFrame(h, values), g) && AllFree(h.body) <= AllNames(h.body)
    requires g.Keys == f.Keys + Targets(Introduced(h, args, taken))
    requires |Plan(h.params, args, Used(h), taken).prefix| <= |Code(Replace(h, args, taken))|
    ensures var a := ExecAll(w, fuel, h.body, CalleeFrame(h, values), st);
      SameCall(keep, ExecResult(if a.ctl.Returned? then Next else a.ctl, g, a.st),
        ExecAll(w, fuel, Rest(h, args, taken), g, st))
  {
    var s := Introduced(h, args, taken);
    IntroducedShape(h, args, taken);
    BodyClear(h, args, taken, f, values, g, AllFree(h.body) - Declared(h.body));
    GuardedExact(w, fuel, h, s, CalleeFrame(h, values), g, st, keep);
    var inserted := Rest(h, args, taken);
    OneStatement(w, fuel, inserted[0], g, st);
    assert inserted == [inserted[0]];
  }

  lemma {:induction false} OneStatement(w: World, fuel: nat, t: Stmt, f: Frame, st: State)
    ensures ExecAll(w, fuel, [t], f, st) == Exec(w, fuel, t, f, st)
  {
    var one := [t];
    assert one[1..] == [];
  }

  lemma {:induction false} GuardlessAfterPrefix(w: World, fuel: nat, h: Helper, args: seq<Expr>, taken: set<string>, f: Frame,
                             values: seq<Value>, g: Frame, st: State, keep: set<string>)
    requires keep !! Targets(Introduced(h, args, taken))
    requires Candidate(h) && CallSite(h, args, taken, f) && NewToBody(h, args, taken) && Guards(h.body) == []
    requires Sim(Introduced(h, args, taken), CalleeFrame(h, values), g) && AllFree(h.body) <= AllNames(h.body)
    requires g.Keys == f.Keys + Targets(Introduced(h, args, taken))
    requires |Plan(h.params, args, Used(h), taken).prefix| <= |Code(Replace(h, args, taken))|
    ensures var a := ExecAll(w, fuel, h.body, CalleeFrame(h, values), st);
      SameCall(keep, ExecResult(if a.ctl.Returned? then Next else a.ctl, g, a.st),
        ExecAll(w, fuel, Rest(h, args, taken), g, st))
  {
    var s := Introduced(h, args, taken);
    IntroducedShape(h, args, taken);
    BodyClear(h, args, taken, f, values, g, AllFree(h.body));
    GuardlessExact(w, fuel, h, s, CalleeFrame(h, values), g, st, keep);
    assert Rest(h, args, taken) == ApplyAll(s, Tail(h.body));
  }
}
