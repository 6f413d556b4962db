/** The rewriting loops of the inliner, and inputs on which its unstated conditions matter. */
module InlineRewrite {
  import opened Collections
  import opened InlineLanguage
  import opened InlineGuards
  import opened InlineText
  import opened InlineScope
  import opened InlineNames
  import opened InlinePlan
  import opened InlineStrict
  import opened InlineTheorem

  /** Splits a body into the conditions of its leading guards and the statements after them. */
  method Partition(body: seq<Stmt>) returns (guards: seq<Expr>, tail: seq<Stmt>)
    ensures guards == Guards(body) && tail == Tail(body)
  {
    guards := [];
    var i := 0;
    while i < |body| && IsGuard(body[i])
      invariant 0 <= i <= |body|
      invariant Guards(body) == guards + Guards(body[i..]) && Tail(body) == Tail(body[i..])
    {
      assert body[i..][1..] == body[i + 1..];
      guards := guards + [body[i].test];
      i := i + 1;
    }
    tail := body[i..];
    assert Guards(tail) == [];
  }

  function From(args: seq<Expr>, i: nat): seq<Expr> {
    if i < |args| then args[i..] else []
  }

  /** What the hoisting loop has built after `i` parameters, completed by the plan for the others, is the whole plan. */
  ghost predicate HoistedSoFar(params: seq<string>, args: seq<Expr>, used: set<string>, taken: set<string>,
                               i: nat, prefix: seq<Stmt>, subst: Subst, reserved: set<string>)
    requires i <= |params|
  {
    var rest := Plan(params[i..], From(args, i), used, reserved);
    && subst.Keys <= Elements(params[..i])
    && Plan(params, args, used, taken) == Hoist(prefix + rest.prefix, rest.subst + subst, rest.taken)
  }

  lemma {:induction false} HoistStart(params: seq<string>, args: seq<Expr>, used: set<string>, taken: set<string>)
    ensures HoistedSoFar(params, args, used, taken, 0, [], map[], taken)
  {
    var rest := Plan(params, args, used, taken);
    assert params[0..] == params && From(args, 0) == args;
    assert [] + rest.prefix == rest.prefix && rest.subst + map[] == rest.subst;
  }

  lemma {:induction false} NextParam(params: seq<string>, args: seq<Expr>, i: nat, subst: Subst)
    requires i < |params| && Distinct(params) && subst.Keys <= Elements(params[..i])
    ensures params[i..][0] == params[i] && params[i..][1..] == params[i + 1..] && params[i] !in subst
    ensures i < |args| ==> From(args, i)[0] == args[i] && From(args, i)[1..] == From(args, i + 1)
    ensures Elements(params[..i + 1]) == Elements(params[..i]) + {params[i]}
  {
    assert forall j :: 0 <= j < i ==> params[j] != params[i];
  }

  lemma {:induction false} HoistUnused(params: seq<string>, args: seq<Expr>, used: set<string>, taken: set<string>,
                    i: nat, prefix: seq<Stmt>, subst: Subst, reserved: set<string>)
    requires i < |params| && Distinct(params) && HoistedSoFar(params, args, used, taken, i, prefix, subst, reserved)
    requires params[i] !in used
    ensures HoistedSoFar(params, args, used, taken, i + 1,
      if i < |args| && !Unparen(args[i]).Literal? then prefix + [Do(args[i])] else prefix, subst, reserved)
  {
    NextParam(params, args, i, subst);
    var rest := Plan(params[i + 1..], From(args, i + 1), used, reserved);
    if i < |args| {
      assert prefix + ([Do(args[i])] + rest.prefix) == prefix + [Do(args[i])] + rest.prefix;
    }
  }

  lemma {:induction false} HoistMissing(params: seq<string>, args: seq<Expr>, used: set<string>, taken: set<string>,
                     i: nat, prefix: seq<Stmt>, subst: Subst, reserved: set<string>)
    requires i < |params| && Distinct(params) && HoistedSoFar(params, args, used, taken, i, prefix, subst, reserved)
    requires params[i] in used && i >= |args|
    ensures HoistedSoFar(params, args, used, taken, i + 1, prefix, subst[params[i] := Missing], reserved)
  {
    NextParam(params, args, i, subst);
    var rest := Plan(params[i + 1..], From(args, i + 1), used, reserved);
    assert rest.subst[params[i] := Missing] + subst == rest.subst + subst[params[i] := Missing];
  }

  lemma {:induction false} HoistUsed(params: seq<string>, args: seq<Expr>, used: set<string>, taken: set<string>,
                  i: nat, prefix: seq<Stmt>, subst: Subst, reserved: set<string>, temp: string)
    requires i < |params| && Distinct(params) && HoistedSoFar(params, args, used, taken, i, prefix, subst, reserved)
    requires params[i] in used && i < |args| && temp == FreshName(TempBase(params[i]), reserved)
    ensures HoistedSoFar(params, args, used, taken, i + 1, prefix + [Declare(temp, args[i])],
      subst[params[i] := Rename(temp)], reserved + {temp})
  {
    NextParam(params, args, i, subst);
    var rest := Plan(params[i + 1..], From(args, i + 1), used, reserved + {temp});
    UpdateMoves(rest.subst, subst, params[i], Rename(temp));
    Assoc(prefix, [Declare(temp, args[i])], rest.prefix);
  }

  /** The hoisting loop over the parameters; `reserved` grows with every temporary. */
  method HoistArguments(params: seq<string>, args: seq<Expr>, used: set<string>, taken: set<string>)
    returns (prefix: seq<Stmt>, subst: Subst, reserved: set<string>)
    requires Distinct(params)
    ensures Hoist(prefix, subst, reserved) == Plan(params, args, used, taken)
  {
    prefix, subst, reserved := [], map[], taken;
    HoistStart(params, args, used, taken);
    for i := 0 to |params|
      invariant HoistedSoFar(params, args, used, taken, i, prefix, subst, reserved)
    {
      var p := params[i];
      if p !in used {
        HoistUnused(params, args, used, taken, i, prefix, subst, reserved);
        if i < |args| && !Unparen(args[i]).Literal? {
          prefix := prefix + [Do(args[i])];
        }
      } else if i >= |args| {
        HoistMissing(params, args, used, taken, i, prefix, subst, reserved);
        subst := subst[p := Missing];
      } else {
        var temp := FindFreshName(TempBase(p), reserved);
        HoistUsed(params, args, used, taken, i, prefix, subst, reserved, temp);
        reserved := reserved + {temp};
        prefix := prefix + [Declare(temp, args[i])];
        subst := subst[p := Rename(temp)];
      }
    }
    assert params[|params|..] == [] && map[] + subst == subst;
  }

  /** The renaming loop over the locals of a guardless tail: a name that is not taken keeps itself. */
  method RenameCollidingLocals(locals: seq<string>, taken: set<string>) returns (subst: Subst, reserved: set<string>)
    requires Distinct(locals)
    ensures (subst, reserved) == RenameLocals(locals, taken)
  {
    subst, reserved := map[], taken;
    assert locals[0..] == locals && RenameLocals(locals, taken).0 + map[] == RenameLocals(locals, taken).0;
    for i := 0 to |locals|
      invariant RenamedSoFar(locals, taken, i, subst, reserved)
    {
      var name := FindFreshName(locals[i], reserved);
      RenamedNext(locals, taken, i, subst, reserved, name);
      reserved := reserved + {name};
      subst := subst[locals[i] := Rename(name)];
    }
    assert locals[|locals|..] == [] && map[] + subst == subst;
  }

  /** The renames of the first `i` locals, completed by those of the others, are all of them. */
  ghost predicate RenamedSoFar(locals: seq<string>, taken: set<string>, i: nat, subst: Subst, reserved: set<string>)
    requires i <= |locals|
  {
    var rest := RenameLocals(locals[i..], reserved);
    subst.Keys <= Elements(locals[..i]) && RenameLocals(locals, taken) == (rest.0 + subst, rest.1)
  }

  lemma {:induction false} RenamedNext(locals: seq<string>, taken: set<string>, i: nat, subst: Subst, reserved: set<string>, name: string)
    requires i < |locals| && Distinct(locals) && RenamedSoFar(locals, taken, i, subst, reserved)
    requires name == FreshName(locals[i], reserved)
    ensures RenamedSoFar(locals, taken, i + 1, subst[locals[i] := Rename(name)], reserved + {name})
  {
    assert locals[i..][0] == locals[i] && locals[i..][1..] == locals[i + 1..];
    assert locals[i] !in subst by { assert forall j :: 0 <= j < i ==> locals[j] != locals[i]; }
    UpdateMoves(RenameLocals(locals[i + 1..], reserved + {name}).0, subst, locals[i], Rename(name));
  }

  lemma {:induction false} UpdateMoves<K, V>(rest: map<K, V>, m: map<K, V>, k: K, v: V)
    requires k !in m
    ensures rest[k := v] + m == rest + m[k := v]
  {
  }

  /** Builds the replacement of one call site. */
  method BuildReplacement(h: Helper, args: seq<Expr>, taken: set<string>) returns (r: Replacement)
    requires Candidate(h)
    ensures r == Replace(h, args, taken)
  {
    var prefix, subst, reserved := HoistArguments(h.params, args, Used(h), taken);
    var guards, tail := Partition(h.body);
    if guards != [] {
      r := Guarded(prefix, CombineTexts(ApplyExprs(subst, guards)), ApplyScope(subst, tail));
    } else {
      var renamed, _ := RenameCollidingLocals(Locals(tail), reserved);
      r := Guardless(prefix, ApplyAll(subst + renamed, tail));
    }
  }

  // ----- where the conditions matter -----

  /** A primitive that does nothing but leave its call in the trace. */
  function Silent(callee: string, args: seq<Value>, st: State): (Completion, State) {
    (Normal(Undefined), st)
  }

  /** `function h(x) { log(__inl_x, x); }`: the body reads a module variable that has the temporary's name. */
  const CAPTURED: Helper := Helper(["x"], [Do(Call("log", [Var("__inl_x"), Var("x")]))])

  lemma {:induction false} CapturedPlan()
    ensures Plan(CAPTURED.params, [Literal(Number(2))], Used(CAPTURED), {})
      == Hoist([Declare("__inl_x", Literal(Number(2)))], map["x" := Rename("__inl_x")], {"__inl_x"})
    ensures Introduced(CAPTURED, [Literal(Number(2))], {}) == map["x" := Rename("__inl_x")]
    ensures "__inl_x" in AllNames(CAPTURED.body)
    ensures Code(Replace(CAPTURED, [Literal(Number(2))], {}))
      == [Declare("__inl_x", Literal(Number(2))), Do(Call("log", [Var("__inl_x"), Var("__inl_x")]))]
  {
    assert TempBase("x") == "__inl_x";
    var names := [Var("__inl_x"), Var("x")];
    assert names[1..] == [Var("x")] && names[1..][1..] == [];
    assert ExprsNames(names[1..]) == {"x"};
    assert ExprsNames(names) == {"__inl_x", "x"};
    assert CAPTURED.body[0] == Do(Call("log", names)) && CAPTURED.body[1..] == [];
    assert AllFree(CAPTURED.body) == {"__inl_x", "x"} && AllNames(CAPTURED.body) == {"__inl_x", "x"};
    var s: Subst := map["x" := Rename("__inl_x")];
    assert ApplyExprs(s, names[1..][1..]) == [] && ApplyExpr(s, Var("x")) == Var("__inl_x");
    assert ApplyExprs(s, names[1..]) == [Var("__inl_x")] && ApplyExpr(s, names[0]) == names[0];
    assert ApplyExprs(s, names) == [Var("__inl_x"), Var("__inl_x")];
    assert ApplyStmt(s, CAPTURED.body[0]) == Do(Call("log", [Var("__inl_x"), Var("__inl_x")]));
    assert ApplyAll(s, CAPTURED.body[1..]) == [];
    assert ApplyAll(s, CAPTURED.body) == [Do(Call("log", [Var("__inl_x"), Var("__inl_x")]))];
    assert Locals(CAPTURED.body[1..]) == [] && Locals(CAPTURED.body) == [];
    assert s + map[] == s;
  }

  lemma {:induction false} LogTwo(w: World, a: string, b: string, v: Value, u: Value, f: Frame, st: State)
    requires w.call == Silent && Read(a, f, st) == Normal(v) && Read(b, f, st) == Normal(u)
    ensures ExecAll(w, 0, [Do(Call("log", [Var(a), Var(b)]))], f, st).st == st.(trace := st.trace + [Called("log", [v, u])])
  {
    var args := [Var(a), Var(b)];
    assert args[1..] == [Var(b)] && args[1..][1..] == [];
    assert EvalArgs(w, args[1..][1..], f, st) == Args([], f, st) && EvalArgs(w, args[1..], f, st) == Args([u], f, st);
    assert EvalArgs(w, args, f, st) == Args([v, u], f, st);
    OneStatement(w, 0, Do(Call("log", args)), f, st);
  }

  /** The call logs the module variable and the argument. */
  lemma {:induction false} CapturedCall(w: World, st: State)
    requires w.call == Silent && st.globals == map["__inl_x" := Number(1)]
    ensures CallHelper(w, 0, CAPTURED, [Literal(Number(2))], map[], st).st.trace
      == st.trace + [Called("log", [Number(1), Number(2)])]
  {
    var args := [Literal(Number(2))];
    assert args[1..] == [] && EvalArgs(w, args[1..], map[], st) == Args([], map[], st);
    assert EvalArgs(w, args, map[], st) == Args([Number(2)], map[], st);
    assert CAPTURED.params[1..] == [] && CAPTURED.body[1..] == [] && Declared(CAPTURED.body) == {};
    assert Bind(CAPTURED.params[1..], []) == map[];
    assert Enter(Bind(CAPTURED.params, [Number(2)]), {}) == map["x" := Live(Number(2))];
    LogTwo(w, "__inl_x", "x", Number(1), Number(2), map["x" := Live(Number(2))], st);
  }

  /**
   * The temporary's name is not in the caller's block, so the tool picks it, and the inlined text logs the argument
   * where the helper logged the module variable.
   */
  lemma {:induction false} TemporaryMayCapture(w: World, st: State)
    requires w.call == Silent && st.globals == map["__inl_x" := Number(1)] && st.trace == []
    ensures var args := [Literal(Number(2))];
      var code := Code(Replace(CAPTURED, args, {}));
      && !NewToBody(CAPTURED, args, {})
      && CallHelper(w, 0, CAPTURED, args, map[], st).st.trace == [Called("log", [Number(1), Number(2)])]
      && ExecAll(w, 0, code, Enter(map[], Declared(code)), st).st.trace == [Called("log", [Number(2), Number(2)])]
  {
    var args := [Literal(Number(2))];
    CapturedPlan();
    CapturedCall(w, st);
    assert Introduced(CAPTURED, args, {})["x"].name in AllNames(CAPTURED.body);
    CapturedInlined(w, st);
  }

  lemma {:induction false} CapturedInlined(w: World, st: State)
    requires w.call == Silent && st.trace == []
    ensures var code := [Declare("__inl_x", Literal(Number(2))), Do(Call("log", [Var("__inl_x"), Var("__inl_x")]))];
      ExecAll(w, 0, code, Enter(map[], Declared(code)), st).st.trace == [Called("log", [Number(2), Number(2)])]
  {
    var log := Do(Call("log", [Var("__inl_x"), Var("__inl_x")]));
    var code := [Declare("__inl_x", Literal(Number(2))), log];
    assert code[1..] == [log] && [log][1..] == [];
    assert Declared([log]) == {} && Declared(code) == {"__inl_x"};
    var f := map["__inl_x" := Live(Number(2))];
    assert Exec(w, 0, code[0], Enter(map[], Declared(code)), st) == ExecResult(Next, f, st);
    LogTwo(w, "__inl_x", "__inl_x", Number(2), Number(2), f, st);
  }

  /** `function h() { if (y) return; const y = 1; }` */
  const DEAD_GUARD: Helper := Helper([], [If(Var("y"), [Return], []), Declare("y", Literal(Number(1)))])

  lemma {:induction false} DeadGuardShape()
    ensures Guards(DEAD_GUARD.body) == [Var("y")] && Tail(DEAD_GUARD.body) == [Declare("y", Literal(Number(1)))]
    ensures Declared(DEAD_GUARD.body) == {"y"} && ExprsNames(Guards(DEAD_GUARD.body)) == {"y"}
  {
    var body := DEAD_GUARD.body;
    var tail := body[1..];
    assert tail == [Declare("y", Literal(Number(1)))] && tail[1..] == [];
    assert Guards(tail) == [] && Tail(tail) == tail;
    assert Declared(tail[1..]) == {} && Declared(tail) == {"y"};
    var guards := [Var("y")];
    assert guards[1..] == [] && ExprsNames(guards[1..]) == {};
  }

  /** The helper throws: its guard reads `y` in the dead zone. */
  lemma {:induction false} DeadGuardThrows(w: World, st: State)
    ensures CallHelper(w, 0, DEAD_GUARD, [], map[], st).ctl == Threw(REFERENCE_ERROR)
  {
    DeadGuardShape();
    var f := Enter(Bind([], []), Declared(DEAD_GUARD.body));
    assert f["y"] == Dead;
    GuardsThenTail(w, 0, DEAD_GUARD.body, f, st);
  }

  /** The inlined text does not: its condition stands outside the block that declares `y`. */
  lemma {:induction false} GuardMayMeetLocal(w: World, st: State)
    requires st.globals == map["y" := Boolean(true)]
    ensures !GuardsBeforeLocals(DEAD_GUARD)
    ensures CallHelper(w, 0, DEAD_GUARD, [], map[], st).ctl == Threw(REFERENCE_ERROR)
    ensures ExecAll(w, 0, Code(Replace(DEAD_GUARD, [], {})), map[], st).ctl == Next
  {
    DeadGuardThrows(w, st);
    DeadGuardShape();
    assert "y" in Declared(DEAD_GUARD.body);
    DeadGuardCode();
    DeadGuardSkips(w, st, ApplyScope(map[], Tail(DEAD_GUARD.body)));
  }

  lemma {:induction false} DeadGuardSkips(w: World, st: State, tail: seq<Stmt>)
    requires st.globals == map["y" := Boolean(true)]
    ensures ExecAll(w, 0, [If(Not(Paren(Var("y"))), tail, [])], map[], st).ctl == Next
  {
    OneStatement(w, 0, If(Not(Paren(Var("y"))), tail, []), map[], st);
    EmptyElse(w, 0, map[], st);
  }

  lemma {:induction false} DeadGuardCode()
    ensures Code(Replace(DEAD_GUARD, [], {})) == [If(Not(Paren(Var("y"))), ApplyScope(map[], Tail(DEAD_GUARD.body)), [])]
  {
    DeadGuardShape();
    assert Plan([], [], Used(DEAD_GUARD), {}) == Hoist([], map[], {});
    var guards := [Var("y")];
    assert guards[1..] == [] && ApplyExprs(map[], guards) == guards;
    CombinedTextParses(guards);
  }
}
