/** Guard inversion on syntax trees: the negated form runs the same effects with the opposite truthiness. */
module InlineGuards {
  import opened InlineLanguage

  /** The comparator table of the inverter. */
  function Flip(op: CompareOp): CompareOp {
    match op
    case StrictEq => StrictNe
    case StrictNe => StrictEq
    case LooseEq => LooseNe
    case LooseNe => LooseEq
    case Less => GreaterEq
    case Greater => LessEq
    case LessEq => Greater
    case GreaterEq => Less
  }

  /** A flipped comparator is the complement exactly when the operands are ordered; equality always is. */
  lemma {:induction false} FlipExact(w: World, op: CompareOp, a: Value, b: Value, st: State)
    ensures ApplyCompare(w, Flip(op), a, b, st).1 == ApplyCompare(w, op, a, b, st).1
    ensures ApplyCompare(w, op, a, b, st).0.Throws? ==>
      ApplyCompare(w, Flip(op), a, b, st).0 == ApplyCompare(w, op, a, b, st).0
    ensures ApplyCompare(w, op, a, b, st).0.Normal? ==>
      && ApplyCompare(w, Flip(op), a, b, st).0.Normal?
      && (Truthy(ApplyCompare(w, Flip(op), a, b, st).0.v) != Truthy(ApplyCompare(w, op, a, b, st).0.v)
          <==> !Unordered(w, op, a, b, st))
  {
  }

  const PREC_OR := 1
  const PREC_AND := 2
  const PREC_ATOM := 3

  function Unparen(e: Expr): Expr {
    if e.Paren? then Unparen(e.inner) else e
  }

  /** The precedence the inverter assigns to an operand it copies verbatim. */
  function LogicalPrec(e: Expr): nat {
    match Unparen(e)
    case Or(_, _) => PREC_OR
    case And(_, _) => PREC_AND
    case _ => PREC_ATOM
  }

  /** `x || y` as the left-associative tree its text denotes. */
  function JoinOr(x: Expr, y: Expr): Expr {
    if y.Or? then Or(JoinOr(x, y.left), y.right) else Or(x, y)
  }

  function JoinAnd(x: Expr, y: Expr): Expr {
    if y.And? then And(JoinAnd(x, y.left), y.right) else And(x, y)
  }

  datatype Negated = Negated(tree: Expr, prec: nat)

  function Wrap(part: Negated, minPrec: nat): Expr {
    if part.prec < minPrec then Paren(part.tree) else part.tree
  }

  /** The logical complement of `e`, as a tree and with the precedence its text has. */
  function Negate(e: Expr): Negated {
    match e
    case Paren(inner) => Negate(inner)
    case Not(operand) => Negated(operand, LogicalPrec(operand))
    case Compare(op, l, r) => Negated(Compare(Flip(op), l, r), PREC_ATOM)
    case And(l, r) => Negated(JoinOr(Negate(l).tree, Negate(r).tree), PREC_OR)
    case Or(l, r) => Negated(JoinAnd(Wrap(Negate(l), PREC_AND), Wrap(Negate(r), PREC_AND)), PREC_AND)
    case _ => Negated(Not(Paren(e)), PREC_ATOM)
  }

  /** No comparator that the inversion flips meets unordered operands while the guard is evaluated. */
  ghost predicate Ordered(w: World, e: Expr, f: Frame, st: State) {
    match e
    case Paren(inner) => Ordered(w, inner, f, st)
    case Compare(op, l, r) =>
      var a := Eval(w, l, f, st);
      a.c.Normal? ==>
        var b := Eval(w, r, a.frame, a.st);
        b.c.Normal? ==> !Unordered(w, op, a.c.v, b.c.v, b.st)
    case And(l, r) =>
      && Ordered(w, l, f, st)
      && var a := Eval(w, l, f, st);
         a.c.Normal? && Truthy(a.c.v) ==> Ordered(w, r, a.frame, a.st)
    case Or(l, r) =>
      && Ordered(w, l, f, st)
      && var a := Eval(w, l, f, st);
         a.c.Normal? && !Truthy(a.c.v) ==> Ordered(w, r, a.frame, a.st)
    case _ => true
  }

  /** Same effects, same throw, opposite truthiness. */
  predicate Complement(a: EvalResult, b: EvalResult) {
    && a.frame == b.frame
    && a.st == b.st
    && (a.c.Throws? ==> b.c == a.c)
    && (a.c.Normal? ==> b.c.Normal? && Truthy(b.c.v) == !Truthy(a.c.v))
  }

  lemma {:induction false} JoinOrMeans(w: World, x: Expr, y: Expr, f: Frame, st: State)
    ensures Eval(w, JoinOr(x, y), f, st) == Eval(w, Or(x, y), f, st)
    decreases y
  {
    if y.Or? {
      JoinOrMeans(w, x, y.left, f, st);
    }
  }

  lemma {:induction false} JoinAndMeans(w: World, x: Expr, y: Expr, f: Frame, st: State)
    ensures Eval(w, JoinAnd(x, y), f, st) == Eval(w, And(x, y), f, st)
    decreases y
  {
    if y.And? {
      JoinAndMeans(w, x, y.left, f, st);
    }
  }

  lemma {:induction false} NegateAndMeans(w: World, l: Expr, r: Expr, f: Frame, st: State)
    requires Complement(Eval(w, l, f, st), Eval(w, Negate(l).tree, f, st))
    requires var a := Eval(w, l, f, st);
      a.c.Normal? && Truthy(a.c.v) ==> Complement(Eval(w, r, a.frame, a.st), Eval(w, Negate(r).tree, a.frame, a.st))
    ensures Complement(Eval(w, And(l, r), f, st), Eval(w, Negate(And(l, r)).tree, f, st))
  {
    JoinOrMeans(w, Negate(l).tree, Negate(r).tree, f, st);
    ComplementAnd(w, l, r, Negate(l).tree, Negate(r).tree, f, st);
  }

  /** De Morgan, effects included. */
  lemma {:induction false} ComplementAnd(w: World, l: Expr, r: Expr, x: Expr, y: Expr, f: Frame, st: State)
    requires Complement(Eval(w, l, f, st), Eval(w, x, f, st))
    requires var a := Eval(w, l, f, st);
      a.c.Normal? && Truthy(a.c.v) ==> Complement(Eval(w, r, a.frame, a.st), Eval(w, y, a.frame, a.st))
    ensures Complement(Eval(w, And(l, r), f, st), Eval(w, Or(x, y), f, st))
  {
  }

  lemma {:induction false} ComplementOr(w: World, l: Expr, r: Expr, x: Expr, y: Expr, f: Frame, st: State)
    requires Complement(Eval(w, l, f, st), Eval(w, x, f, st))
    requires var a := Eval(w, l, f, st);
      a.c.Normal? && !Truthy(a.c.v) ==> Complement(Eval(w, r, a.frame, a.st), Eval(w, y, a.frame, a.st))
    ensures Complement(Eval(w, Or(l, r), f, st), Eval(w, And(x, y), f, st))
  {
  }

  lemma {:induction false} WrapMeans(w: World, n: Negated, prec: nat, f: Frame, st: State)
    ensures Eval(w, Wrap(n, prec), f, st) == Eval(w, n.tree, f, st)
  {
  }

  lemma {:induction false} NegateOrMeans(w: World, l: Expr, r: Expr, f: Frame, st: State)
    requires Complement(Eval(w, l, f, st), Eval(w, Negate(l).tree, f, st))
    requires var a := Eval(w, l, f, st);
      a.c.Normal? && !Truthy(a.c.v) ==> Complement(Eval(w, r, a.frame, a.st), Eval(w, Negate(r).tree, a.frame, a.st))
    ensures Complement(Eval(w, Or(l, r), f, st), Eval(w, Negate(Or(l, r)).tree, f, st))
  {
    var x, y, a := Wrap(Negate(l), PREC_AND), Wrap(Negate(r), PREC_AND), Eval(w, l, f, st);
    assert Complement(a, Eval(w, x, f, st)) by {
      WrapMeans(w, Negate(l), PREC_AND, f, st);
    }
    assert a.c.Normal? && !Truthy(a.c.v) ==> Complement(Eval(w, r, a.frame, a.st), Eval(w, y, a.frame, a.st)) by {
      WrapMeans(w, Negate(r), PREC_AND, a.frame, a.st);
    }
    ComplementJoined(w, l, r, x, y, f, st);
    NegateOrIs(l, r);
  }

  lemma {:induction false} NegateOrIs(l: Expr, r: Expr)
    ensures Negate(Or(l, r)).tree == JoinAnd(Wrap(Negate(l), PREC_AND), Wrap(Negate(r), PREC_AND))
  {
  }

  lemma {:induction false} ComplementJoined(w: World, l: Expr, r: Expr, x: Expr, y: Expr, f: Frame, st: State)
    requires Complement(Eval(w, l, f, st), Eval(w, x, f, st))
    requires var a := Eval(w, l, f, st);
      a.c.Normal? && !Truthy(a.c.v) ==> Complement(Eval(w, r, a.frame, a.st), Eval(w, y, a.frame, a.st))
    ensures Complement(Eval(w, Or(l, r), f, st), Eval(w, JoinAnd(x, y), f, st))
  {
    JoinAndMeans(w, x, y, f, st);
    ComplementOr(w, l, r, x, y, f, st);
  }

  /** Guard inversion is exact on any nest of `!`, `&&`, `||`, comparators and effectful atoms. */
  lemma {:induction false} NegateMeans(w: World, e: Expr, f: Frame, st: State)
    requires Ordered(w, e, f, st)
    ensures Complement(Eval(w, e, f, st), Eval(w, Negate(e).tree, f, st))
    decreases e
  {
    match e
    case Paren(inner) => NegateMeans(w, inner, f, st);
    case And(l, r) =>
      NegateMeans(w, l, f, st);
      var a := Eval(w, l, f, st);
      if a.c.Normal? && Truthy(a.c.v) {
        NegateMeans(w, r, a.frame, a.st);
      }
      NegateAndMeans(w, l, r, f, st);
    case Or(l, r) =>
      NegateMeans(w, l, f, st);
      var a := Eval(w, l, f, st);
      if a.c.Normal? && !Truthy(a.c.v) {
        NegateMeans(w, r, a.frame, a.st);
      }
      NegateOrMeans(w, l, r, f, st);
    case Compare(op, l, r) =>
      var a := Eval(w, l, f, st);
      if a.c.Normal? {
        var b := Eval(w, r, a.frame, a.st);
        if b.c.Normal? {
          FlipExact(w, op, a.c.v, b.c.v, b.st);
        }
      }
    case _ =>
  }

  /** For a guard that is one comparison the hypothesis is also necessary: inversion is exact iff the operands are ordered. */
  lemma {:induction false} ComparisonGuardExact(w: World, op: CompareOp, l: Expr, r: Expr, f: Frame, st: State)
    ensures var e := Compare(op, l, r);
      Complement(Eval(w, e, f, st), Eval(w, Negate(e).tree, f, st)) <==> Ordered(w, e, f, st)
  {
    var a := Eval(w, l, f, st);
    if a.c.Normal? {
      var b := Eval(w, r, a.frame, a.st);
      if b.c.Normal? {
        FlipExact(w, op, a.c.v, b.c.v, b.st);
      }
    }
  }

  /** Numbers compared as ECMA-262 does: NaN has no order. */
  function NumberLess(a: Value, b: Value, leftFirst: bool, st: State): (LessOutcome, State) {
    (if a.Number? && b.Number? then LessIs(a.n < b.n) else Incomparable, st)
  }

  /** `if (NaN < 1) return;` falls through, but its inverted condition `NaN >= 1` is false as well. */
  lemma {:induction false} NaNGuardIsNotInverted(w: World, st: State)
    requires w.isLess == NumberLess
    ensures var guard := Compare(Less, Literal(NaN), Literal(Number(1)));
      && RunGuards(w, [guard], map[], st).Pass?
      && Eval(w, CombineGuards([guard]), map[], st).c == Normal(Boolean(false))
  {
  }

  // ----- several guards -----

  /** What the leading `if (g) return;` statements do: fall through, return early, or throw. */
  datatype GuardRun = Pass(frame: Frame, st: State) | Stop(frame: Frame, st: State) | Fail(v: Value, frame: Frame, st: State)

  function RunGuards(w: World, guards: seq<Expr>, f: Frame, st: State): GuardRun {
    if guards == [] then Pass(f, st)
    else
      var r := Eval(w, guards[0], f, st);
      if r.c.Throws? then Fail(r.c.v, r.frame, r.st)
      else if Truthy(r.c.v) then Stop(r.frame, r.st)
      else RunGuards(w, guards[1..], r.frame, r.st)
  }

  ghost predicate GuardsOrdered(w: World, guards: seq<Expr>, f: Frame, st: State) {
    guards == [] || (
      && Ordered(w, guards[0], f, st)
      && var r := Eval(w, guards[0], f, st);
         r.c.Normal? && !Truthy(r.c.v) ==> GuardsOrdered(w, guards[1..], r.frame, r.st))
  }

  /** `parts.map(wrap).join(" && ")`, folded from the left as the text parses. */
  function JoinWrapped(guards: seq<Expr>): Expr
    requires guards != []
  {
    var last := Wrap(Negate(guards[|guards| - 1]), PREC_AND);
    if |guards| == 1 then last else JoinAnd(JoinWrapped(guards[..|guards| - 1]), last)
  }

  function CombineGuards(guards: seq<Expr>): Expr
    requires guards != []
  {
    if |guards| == 1 then Negate(guards[0]).tree else JoinWrapped(guards)
  }

  /** The condition holds exactly when the guards fall through, with the same effects and throws. */
  predicate Decides(run: GuardRun, r: EvalResult) {
    && r.frame == run.frame
    && r.st == run.st
    && match run
       case Fail(v, _, _) => r.c == Throws(v)
       case Pass(_, _) => r.c.Normal? && Truthy(r.c.v)
       case Stop(_, _) => r.c.Normal? && !Truthy(r.c.v)
  }

  lemma {:induction false} RunGuardsAppend(w: World, a: seq<Expr>, g: Expr, f: Frame, st: State)
    ensures RunGuards(w, a + [g], f, st) ==
      match RunGuards(w, a, f, st)
      case Pass(f1, st1) => RunGuards(w, [g], f1, st1)
      case other => other
    ensures GuardsOrdered(w, a + [g], f, st) <==>
      && GuardsOrdered(w, a, f, st)
      && (RunGuards(w, a, f, st).Pass? ==> Ordered(w, g, RunGuards(w, a, f, st).frame, RunGuards(w, a, f, st).st))
    decreases |a|
  {
    if a == [] {
      assert a + [g] == [g];
    } else {
      assert (a + [g])[0] == a[0] && (a + [g])[1..] == a[1..] + [g];
      var r := Eval(w, a[0], f, st);
      if r.c.Normal? && !Truthy(r.c.v) {
        RunGuardsAppend(w, a[1..], g, r.frame, r.st);
      }
    }
  }

  lemma {:induction false} JoinWrappedDecides(w: World, guards: seq<Expr>, f: Frame, st: State)
    requires guards != [] && GuardsOrdered(w, guards, f, st)
    ensures Decides(RunGuards(w, guards, f, st), Eval(w, JoinWrapped(guards), f, st))
    decreases |guards|
  {
    var n := |guards| - 1;
    var g := guards[n];
    if n == 0 {
      NegateMeans(w, g, f, st);
    } else {
      var front := guards[..n];
      assert front + [g] == guards;
      RunGuardsAppend(w, front, g, f, st);
      JoinWrappedDecides(w, front, f, st);
      LastGuardDecides(w, front, g, f, st);
    }
  }

  lemma {:induction false} LastGuardDecides(w: World, front: seq<Expr>, g: Expr, f: Frame, st: State)
    requires front != [] && GuardsOrdered(w, front + [g], f, st)
    requires Decides(RunGuards(w, front, f, st), Eval(w, JoinWrapped(front), f, st))
    ensures Decides(RunGuards(w, front + [g], f, st), Eval(w, JoinWrapped(front + [g]), f, st))
  {
    var x, y := JoinWrapped(front), Wrap(Negate(g), PREC_AND);
    var run := RunGuards(w, front, f, st);
    RunGuardsAppend(w, front, g, f, st);
    assert JoinWrapped(front + [g]) == JoinAnd(x, y) by {
      assert (front + [g])[..|front|] == front;
    }
    JoinAndMeans(w, x, y, f, st);
    if run.Pass? {
      NegateMeans(w, g, run.frame, run.st);
      WrapMeans(w, Negate(g), PREC_AND, run.frame, run.st);
      assert RunGuards(w, [g], run.frame, run.st) == OneGuard(w, g, run.frame, run.st) by {
        assert [g][1..] == [];
      }
    }
  }

  function OneGuard(w: World, g: Expr, f: Frame, st: State): GuardRun {
    var r := Eval(w, g, f, st);
    if r.c.Throws? then Fail(r.c.v, r.frame, r.st) else if Truthy(r.c.v) then Stop(r.frame, r.st) else Pass(r.frame, r.st)
  }

  lemma {:induction false} CombineGuardsDecides(w: World, guards: seq<Expr>, f: Frame, st: State)
    requires guards != [] && GuardsOrdered(w, guards, f, st)
    ensures Decides(RunGuards(w, guards, f, st), Eval(w, CombineGuards(guards), f, st))
  {
    if |guards| == 1 {
      NegateMeans(w, guards[0], f, st);
    } else {
      JoinWrappedDecides(w, guards, f, st);
    }
  }
}
