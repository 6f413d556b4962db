/** What replaces a call in strict mode: hoisted arguments, one positive condition, and the substituted tail. */
module InlinePlan {
  import opened Collections
  import opened InlineLanguage
  import opened InlineGuards
  import opened InlineText
  import opened InlineScope
  import opened InlineNames

  datatype Helper = Helper(params: seq<string>, body: seq<Stmt>)

  /** `if (c) return;` or `if (c) { return; }`, without an else. */
  predicate IsGuard(s: Stmt) {
    s.If? && s.yes == [Return] && s.no == []
  }

  function Guards(body: seq<Stmt>): seq<Expr> {
    if body == [] || !IsGuard(body[0]) then [] else [body[0].test] + Guards(body[1..])
  }

  function Tail(body: seq<Stmt>): seq<Stmt> {
    if body == [] || !IsGuard(body[0]) then body else Tail(body[1..])
  }

  /** The names declared at the top of the tail, in order. */
  function Locals(ss: seq<Stmt>): seq<string> {
    if ss == [] then [] else (if ss[0].Declare? then [ss[0].name] else []) + Locals(ss[1..])
  }

  function Elements(s: seq<string>): set<string> {
    set n | n in s
  }

  /** Parameters the body refers to. */
  function Used(h: Helper): set<string> {
    AllFree(h.body) * Elements(h.params)
  }

  datatype Hoist = Hoist(prefix: seq<Stmt>, subst: Subst, taken: set<string>)

  function TempBase(param: string): string {
    "__inl_" + param
  }

  /**
   * Strict mode, parameter by parameter. An unused argument is still evaluated unless it is a literal, a used one is
   * hoisted into a fresh constant, and a used parameter without an argument becomes `undefined`.
   */
  function Plan(params: seq<string>, args: seq<Expr>, used: set<string>, taken: set<string>): Hoist
    decreases |params|
  {
    if params == [] then Hoist([], map[], taken)
    else if args == [] then
      var rest := Plan(params[1..], [], used, taken);
      if params[0] in used then rest.(subst := rest.subst[params[0] := Missing]) else rest
    else if params[0] in used then
      var temp := FreshName(TempBase(params[0]), taken);
      var rest := Plan(params[1..], args[1..], used, taken + {temp});
      Hoist([Declare(temp, args[0])] + rest.prefix, rest.subst[params[0] := Rename(temp)], rest.taken)
    else
      var rest := Plan(params[1..], args[1..], used, taken);
      if Unparen(args[0]).Literal? then rest else rest.(prefix := [Do(args[0])] + rest.prefix)
  }

  /** Guardless tails land in the caller's block, so locals whose names are taken there are renamed. */
  function RenameLocals(locals: seq<string>, taken: set<string>): (r: (Subst, set<string>))
    decreases |locals|
  {
    if locals == [] then (map[], taken)
    else
      var name := FreshName(locals[0], taken);
      var rest := RenameLocals(locals[1..], taken + {name});
      (rest.0[locals[0] := Rename(name)], rest.1)
  }

  /** `condition` is the text between the parentheses of the inserted `if`. */
  datatype Replacement = Guarded(prefix: seq<Stmt>, condition: seq<Token>, tail: seq<Stmt>) | Guardless(prefix: seq<Stmt>, tail: seq<Stmt>)

  function Replace(h: Helper, args: seq<Expr>, taken: set<string>): Replacement {
    var plan := Plan(h.params, args, Used(h), taken);
    var guards := Guards(h.body);
    if guards != [] then
      Guarded(plan.prefix, CombineTexts(ApplyExprs(plan.subst, guards)), ApplyScope(plan.subst, Tail(h.body)))
    else
      var renamed := RenameLocals(Locals(Tail(h.body)), plan.taken);
      Guardless(plan.prefix, ApplyAll(plan.subst + renamed.0, Tail(h.body)))
  }

  /** The statements the replaced source denotes once its condition is read back. */
  function Code(r: Replacement): seq<Stmt> {
    match r
    case Guardless(prefix, tail) => prefix + tail
    case Guarded(prefix, condition, tail) =>
      var parsed := Parse(condition);
      prefix + if parsed.Tree? then [If(parsed.e, tail, [])] else []
  }

  // ----- what the call did before -----

  /** A missing argument is `undefined`. */
  function Bind(params: seq<string>, values: seq<Value>): Frame {
    if params == [] then map[]
    else
      Bind(params[1..], if values == [] then [] else values[1..])
        [params[0] := Live(if values == [] then Undefined else values[0])]
  }

  /** A call in statement position: arguments left to right, then the body in a frame of its own. */
  function CallHelper(w: World, fuel: nat, h: Helper, args: seq<Expr>, f: Frame, st: State): ExecResult {
    match EvalArgs(w, args, f, st)
    case ArgsThrew(v, f1, st1) => ExecResult(Threw(v), f1, st1)
    case Args(values, f1, st1) =>
      var r := ExecAll(w, fuel, h.body, Enter(Bind(h.params, values), Declared(h.body)), st1);
      ExecResult(if r.ctl.Returned? then Next else r.ctl, f1, r.st)
  }

  // ----- shape of a plan -----

  ghost predicate Injective(s: Subst) {
    forall x, y :: x in s && y in s && x != y && s[x].Rename? && s[y].Rename? ==> s[x].name != s[y].name
  }

  ghost function Targets(s: Subst): set<string> {
    set x | x in s && s[x].Rename? :: s[x].name
  }

  lemma {:induction false} TargetsAre(s: Subst, n: string)
    ensures n in Targets(s) <==> IsTarget(s, n)
  {
  }

  /** Adding one fresh replacement. */
  lemma {:induction false} AddTarget(s: Subst, x: string, t: string)
    requires x !in s && Injective(s) && t !in Targets(s)
    ensures Injective(s[x := Rename(t)]) && Targets(s[x := Rename(t)]) == Targets(s) + {t}
  {
    var s2 := s[x := Rename(t)];
    assert forall y :: y in s2 ==> y == x || (y in s && s[y] == s2[y]);
    assert s2[x] == Rename(t);
    forall n ensures n in Targets(s2) <==> n in Targets(s) + {t} {
      if n in Targets(s) {
        var y :| y in s && s[y].Rename? && s[y].name == n;
        assert s2[y] == s[y];
      }
    }
  }

  lemma {:induction false} AddMissing(s: Subst, x: string)
    requires x !in s && Injective(s)
    ensures Injective(s[x := Missing]) && Targets(s[x := Missing]) == Targets(s)
  {
    var s2 := s[x := Missing];
    forall n ensures n in Targets(s2) <==> n in Targets(s) {
      if n in Targets(s) {
        var y :| y in s && s[y].Rename? && s[y].name == n;
        assert s2[y] == s[y];
      }
    }
  }

  /** Temporaries are new, pairwise different, and are what the prefix declares. */
  ghost predicate PlanOk(params: seq<string>, used: set<string>, taken: set<string>, plan: Hoist) {
    && plan.subst.Keys == used * Elements(params)
    && Injective(plan.subst)
    && Targets(plan.subst) !! taken
    && plan.taken == taken + Targets(plan.subst)
    && Declared(plan.prefix) == Targets(plan.subst)
  }

  lemma {:induction false} PlanShape(params: seq<string>, args: seq<Expr>, used: set<string>, taken: set<string>)
    requires Distinct(params)
    ensures PlanOk(params, used, taken, Plan(params, args, used, taken))
    decreases |params|
  {
    if params != [] {
      var p, more := params[0], params[1..];
      assert p !in more by {
        assert forall j :: 0 < j < |params| ==> params[0] != params[j];
      }
      assert Elements(params) == Elements(more) + {p};
      if args == [] {
        PlanShape(more, [], used, taken);
        AddMissing(Plan(more, [], used, taken).subst, p);
      } else if p in used {
        var temp := FreshName(TempBase(p), taken);
        var rest := Plan(more, args[1..], used, taken + {temp});
        PlanShape(more, args[1..], used, taken + {temp});
        AddTarget(rest.subst, p, temp);
        assert ([Declare(temp, args[0])] + rest.prefix)[1..] == rest.prefix;
      } else {
        PlanShape(more, args[1..], used, taken);
        var rest := Plan(more, args[1..], used, taken);
        assert ([Do(args[0])] + rest.prefix)[1..] == rest.prefix;
      }
    }
  }

  lemma {:induction false} RenamedShape(locals: seq<string>, taken: set<string>)
    requires Distinct(locals)
    ensures var r := RenameLocals(locals, taken).0;
      && r.Keys == Elements(locals) && Injective(r) && Targets(r) !! taken
      && forall x :: x in r ==> r[x].Rename?
    decreases |locals|
  {
    if locals != [] {
      var x, more := locals[0], locals[1..];
      assert x !in more by {
        assert forall j :: 0 < j < |locals| ==> locals[0] != locals[j];
      }
      var name := FreshName(x, taken);
      RenamedShape(more, taken + {name});
      AddTarget(RenameLocals(more, taken + {name}).0, x, name);
      assert Elements(locals) == Elements(more) + {x};
    }
  }
}
