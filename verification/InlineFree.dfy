/** The inliner's free names: computed over the whole body at once, they lack a name that some nested scope binds. */
module InlineFree {
  import opened Collections
  import opened InlineLanguage
  import opened InlineScope
  import opened InlinePlan
  import opened InlineStrict
  import opened InlineTheorem
  import opened InlineRewrite

  /** The names bound anywhere in the statement, at any depth. */
  function StmtBound(t: Stmt): set<string>
    decreases t, 0
  {
    match t
    case Declare(name, _) => {name}
    case If(_, yes, no) => AllBound(yes) + AllBound(no)
    case Block(body) => AllBound(body)
    case While(_, body) => AllBound(body)
    case _ => {}
  }

  function AllBound(ss: seq<Stmt>): set<string>
    decreases ss, 0
  {
    if ss == [] then {} else StmtBound(ss[0]) + AllBound(ss[1..])
  }

  /** What the tool calls free: mentioned somewhere and bound nowhere. */
  function FlatFree(h: Helper): set<string> {
    AllNames(h.body) - Elements(h.params) - AllBound(h.body)
  }

  /** The names that refer to something outside the helper. */
  function TrulyFree(h: Helper): set<string> {
    AllFree(h.body) - Elements(h.params) - Declared(h.body)
  }

  lemma {:induction false} FreeUnlessBound(ss: seq<Stmt>)
    ensures AllFree(ss) <= AllNames(ss) <= AllFree(ss) + AllBound(ss) && Declared(ss) <= AllBound(ss)
    decreases ss, 1
  {
    if ss != [] {
      StmtFreeUnlessBound(ss[0]);
      FreeUnlessBound(ss[1..]);
    }
  }

  lemma {:induction false} StmtFreeUnlessBound(t: Stmt)
    ensures StmtFree(t) <= StmtNames(t) <= StmtFree(t) + StmtBound(t)
    decreases t, 0
  {
    match t
    case If(_, yes, no) => FreeUnlessBound(yes); FreeUnlessBound(no);
    case Block(body) => FreeUnlessBound(body);
    case While(_, body) => FreeUnlessBound(body);
    case _ =>
  }

  /** What the tool misses are exactly the free names that some scope of the helper binds as well. */
  lemma {:induction false} FlatMisses(h: Helper)
    ensures FlatFree(h) == TrulyFree(h) - AllBound(h.body)
  {
    FreeUnlessBound(h.body);
  }

  /** Where the scopes around a call declare `names`: if the tool sees no shadowing, there is none. */
  predicate CheckHolds(h: Helper, names: set<string>) {
    FlatFree(h) !! names ==> TrulyFree(h) !! names
  }

  /** The shadow check is right at every call site iff no free name of the helper is bound in it as well. */
  lemma {:induction false} ShadowCheckIff(h: Helper)
    ensures (forall names :: CheckHolds(h, names)) <==> TrulyFree(h) !! AllBound(h.body)
  {
    FlatMisses(h);
    assert FlatFree(h) !! AllBound(h.body);
    if forall names :: CheckHolds(h, names) {
      assert CheckHolds(h, AllBound(h.body));
    }
  }

  // ----- an input -----

  /** `function h() { { const y = 1; } log(y); }`, where the last `y` is a module variable. */
  const MIXED: Helper := Helper([], [Block([Declare("y", Literal(Number(1)))]), Do(Call("log", [Var("y")]))])

  lemma {:induction false} MixedShape()
    ensures Declared(MIXED.body) == {} && AllFree(MIXED.body) == {"y"} && AllNames(MIXED.body) == AllBound(MIXED.body) == {"y"}
  {
    var inner, one, rest := [Declare("y", Literal(Number(1)))], [Var("y")], [MIXED.body[1]];
    assert inner[1..] == [] && one[1..] == [] && MIXED.body[1..] == rest && rest[1..] == [];
    assert ExprsNames(one) == {"y"} && Declared(inner) == {"y"} && AllNames(inner) == AllBound(inner) == {"y"};
    assert ScopeFree(inner) == {};
    assert AllBound(rest) == {} && AllNames(rest) == AllFree(rest) == {"y"} && Declared(rest) == {};
  }

  /** The replacement is the body as it stands. */
  lemma {:induction false} MixedCode()
    ensures Code(Replace(MIXED, [], {"y"})) == MIXED.body
  {
    var inner, one, s: Subst := [Declare("y", Literal(Number(1)))], [Var("y")], map[];
    var first, second := MIXED.body[0], MIXED.body[1];
    var own, rest := Shadow(s, {"y"}), [second];
    assert inner[1..] == [] && one[1..] == [] && MIXED.body[1..] == rest && rest[1..] == [] && Declared(inner) == {"y"};
    assert ApplyAll(own, inner[1..]) == [] && ApplyAll(own, inner) == inner && ApplyScope(s, inner) == inner;
    assert ApplyExprs(s, one[1..]) == [] && ApplyExprs(s, one) == one;
    assert ApplyStmt(s, first) == first && ApplyStmt(s, second) == second;
    assert ApplyAll(s, rest[1..]) == [] && ApplyAll(s, rest) == rest;
    assert ApplyAll(s, MIXED.body) == [first] + rest == MIXED.body;
    assert Locals(rest) == [] && Locals(MIXED.body) == [];
    assert s + map[] == s && [] + MIXED.body == MIXED.body;
  }

  /** The inner scope leaves no trace. */
  lemma {:induction false} InnerScope(w: World, f: Frame, st: State)
    ensures Exec(w, 0, MIXED.body[0], f, st) == ExecResult(Next, f, st)
  {
    var inner := [Declare("y", Literal(Number(1)))];
    assert inner[1..] == [] && Declared(inner[1..]) == {} && Declared(inner) == {"y"};
    var entered := Enter(f, {"y"});
    var left := ExecAll(w, 0, inner, entered, st);
    assert left == ExecResult(Next, entered["y" := Live(Number(1))], st);
    assert Leave(f, left.frame, {"y"}) == f;
  }

  lemma {:induction false} LogOne(w: World, v: Value, f: Frame, st: State)
    requires w.call == Silent && Read("y", f, st) == Normal(v)
    ensures Exec(w, 0, MIXED.body[1], f, st) == ExecResult(Next, f, st.(trace := st.trace + [Called("log", [v])]))
  {
    var one := [Var("y")];
    assert one[1..] == [] && EvalArgs(w, one[1..], f, st) == Args([], f, st);
    assert EvalArgs(w, one, f, st) == Args([v], f, st);
  }

  /** The body logs whatever `y` is where it runs. */
  lemma {:induction false} MixedLogs(w: World, v: Value, f: Frame, st: State)
    requires w.call == Silent && Read("y", f, st) == Normal(v)
    ensures ExecAll(w, 0, MIXED.body, f, st).st == st.(trace := st.trace + [Called("log", [v])])
  {
    var body := MIXED.body;
    InnerScope(w, f, st);
    LogOne(w, v, f, st);
    OneStatement(w, 0, body[1], f, st);
    assert body[1..] == [body[1]];
  }

  /** The check passes although the caller's block shadows `y`; the call logs the module variable, the output the block's. */
  lemma {:induction false} ShadowedNameEscapes(w: World, st: State)
    requires w.call == Silent && st.globals == map["y" := Number(1)] && st.trace == []
    ensures var f: Frame := map["y" := Live(Number(2))];
      && FlatFree(MIXED) !! f.Keys && !CallSite(MIXED, [], {"y"}, f)
      && CallHelper(w, 0, MIXED, [], f, st).st.trace == [Called("log", [Number(1)])]
      && ExecAll(w, 0, Code(Replace(MIXED, [], {"y"})), f, st).st.trace == [Called("log", [Number(2)])]
  {
    var f: Frame := map["y" := Live(Number(2))];
    MixedShape();
    MixedCode();
    assert "y" in TrulyFree(MIXED) && "y" in f.Keys;
    assert Enter(Bind(MIXED.params, []), Declared(MIXED.body)) == map[];
    MixedLogs(w, Number(1), map[], st);
    MixedLogs(w, Number(2), f, st);
  }
}
