/**
 * The fragment of JavaScript that helpers and call sites are written in, with its meaning: state, effects in order,
 * throws, early returns and the dead zone of block locals. Operators follow ECMA-262 sections 13.10, 13.11 and 13.13.
 */
module InlineLanguage {
  datatype Value = Undefined | Null | Boolean(b: bool) | Number(n: int) | NaN | Text(s: string) | Object(id: nat)

  predicate Truthy(v: Value) {
    match v
    case Undefined => false
    case Null => false
    case NaN => false
    case Boolean(b) => b
    case Number(n) => n != 0
    case Text(s) => s != ""
    case Object(_) => true
  }

  datatype CompareOp = StrictEq | StrictNe | LooseEq | LooseNe | Less | Greater | LessEq | GreaterEq

  predicate Relational(op: CompareOp) {
    op.Less? || op.Greater? || op.LessEq? || op.GreaterEq?
  }

  /** `Call` stands for every primitive with effects of its own: calls, member reads, construction. */
  datatype Expr =
    | Literal(v: Value)
    | Var(name: string)
    | Call(callee: string, args: seq<Expr>)
    | Assign(name: string, rhs: Expr)
    | Conditional(test: Expr, yes: Expr, no: Expr)
    | Paren(inner: Expr)
    | Not(operand: Expr)
    | And(left: Expr, right: Expr)
    | Or(left: Expr, right: Expr)
    | Compare(op: CompareOp, left: Expr, right: Expr)

  datatype Stmt =
    | Do(e: Expr)
    | Declare(name: string, init: Expr)
    | If(test: Expr, yes: seq<Stmt>, no: seq<Stmt>)
    | Block(body: seq<Stmt>)
    | While(test: Expr, body: seq<Stmt>)
    | Throw(e: Expr)
    | Return

  // ----- the world a program runs in -----

  datatype Event = Called(callee: string, args: seq<Value>)

  /** Module and global variables, everything behind references, and the effects so far. */
  datatype State = State(globals: map<string, Value>, memory: map<nat, Value>, trace: seq<Event>)

  datatype Completion = Normal(v: Value) | Throws(v: Value)

  datatype LessOutcome = LessThrows(v: Value) | LessIs(b: bool) | Incomparable

  datatype EqualOutcome = EqualThrows(v: Value) | EqualIs(b: bool)

  /** Whatever the primitives and the coercions behind `<` and `==` do. */
  datatype World = World(
    call: (string, seq<Value>, State) -> (Completion, State),
    isLess: (Value, Value, bool, State) -> (LessOutcome, State),
    isLooselyEqual: (Value, Value, State) -> (EqualOutcome, State),
    isStrictlyEqual: (Value, Value) -> bool)

  /** A local binding is in its dead zone until its declaration has run. */
  datatype Slot = Dead | Live(v: Value)

  type Frame = map<string, Slot>

  const REFERENCE_ERROR: Value := Text("ReferenceError")

  // ----- expressions -----

  datatype EvalResult = EvalResult(c: Completion, frame: Frame, st: State)

  datatype ArgsResult = Args(values: seq<Value>, frame: Frame, st: State) | ArgsThrew(v: Value, frame: Frame, st: State)

  function Read(name: string, f: Frame, st: State): Completion {
    if name in f then (if f[name].Live? then Normal(f[name].v) else Throws(REFERENCE_ERROR))
    else if name in st.globals then Normal(st.globals[name])
    else Throws(REFERENCE_ERROR)
  }

  function Write(name: string, v: Value, f: Frame, st: State): EvalResult {
    if name in f then
      if f[name].Live? then EvalResult(Normal(v), f[name := Live(v)], st)
      else EvalResult(Throws(REFERENCE_ERROR), f, st)
    else if name in st.globals then EvalResult(Normal(v), f, st.(globals := st.globals[name := v]))
    else EvalResult(Throws(REFERENCE_ERROR), f, st)
  }

  function Relate(w: World, a: Value, b: Value, leftFirst: bool, negated: bool, st: State): (Completion, State) {
    var r := w.isLess(a, b, leftFirst, st);
    match r.0
    case LessThrows(v) => (Throws(v), r.1)
    case Incomparable => (Normal(Boolean(false)), r.1)
    case LessIs(b) => (Normal(Boolean(b != negated)), r.1)
  }

  function Equate(w: World, a: Value, b: Value, negated: bool, st: State): (Completion, State) {
    var r := w.isLooselyEqual(a, b, st);
    match r.0
    case EqualThrows(v) => (Throws(v), r.1)
    case EqualIs(b) => (Normal(Boolean(b != negated)), r.1)
  }

  function ApplyCompare(w: World, op: CompareOp, a: Value, b: Value, st: State): (Completion, State) {
    match op
    case StrictEq => (Normal(Boolean(w.isStrictlyEqual(a, b))), st)
    case StrictNe => (Normal(Boolean(!w.isStrictlyEqual(a, b))), st)
    case LooseEq => Equate(w, a, b, false, st)
    case LooseNe => Equate(w, a, b, true, st)
    case Less => Relate(w, a, b, true, false, st)
    case GreaterEq => Relate(w, a, b, true, true, st)
    case Greater => Relate(w, b, a, false, false, st)
    case LessEq => Relate(w, b, a, false, true, st)
  }

  /** The two operands have no order: one of them is NaN after coercion. */
  predicate Unordered(w: World, op: CompareOp, a: Value, b: Value, st: State) {
    match op
    case Less => w.isLess(a, b, true, st).0.Incomparable?
    case GreaterEq => w.isLess(a, b, true, st).0.Incomparable?
    case Greater => w.isLess(b, a, false, st).0.Incomparable?
    case LessEq => w.isLess(b, a, false, st).0.Incomparable?
    case _ => false
  }

  function Eval(w: World, e: Expr, f: Frame, st: State): EvalResult
    decreases e, 0
  {
    match e
    case Literal(v) => EvalResult(Normal(v), f, st)
    case Var(name) => EvalResult(Read(name, f, st), f, st)
    case Call(callee, args) =>
      (match EvalArgs(w, args, f, st)
       case ArgsThrew(v, f1, st1) => EvalResult(Throws(v), f1, st1)
       case Args(values, f1, st1) =>
         var r := w.call(callee, values, st1.(trace := st1.trace + [Called(callee, values)]));
         EvalResult(r.0, f1, r.1))
    case Assign(name, rhs) =>
      var r := Eval(w, rhs, f, st);
      if r.c.Throws? then r else Write(name, r.c.v, r.frame, r.st)
    case Conditional(test, yes, no) =>
      var r := Eval(w, test, f, st);
      if r.c.Throws? then r
      else if Truthy(r.c.v) then Eval(w, yes, r.frame, r.st)
      else Eval(w, no, r.frame, r.st)
    case Paren(inner) => Eval(w, inner, f, st)
    case Not(operand) =>
      var r := Eval(w, operand, f, st);
      if r.c.Throws? then r else r.(c := Normal(Boolean(!Truthy(r.c.v))))
    case And(left, right) =>
      var r := Eval(w, left, f, st);
      if r.c.Throws? || !Truthy(r.c.v) then r else Eval(w, right, r.frame, r.st)
    case Or(left, right) =>
      var r := Eval(w, left, f, st);
      if r.c.Throws? || Truthy(r.c.v) then r else Eval(w, right, r.frame, r.st)
    case Compare(op, left, right) =>
      var a := Eval(w, left, f, st);
      if a.c.Throws? then a
      else
        var b := Eval(w, right, a.frame, a.st);
        if b.c.Throws? then b
        else
          var r := ApplyCompare(w, op, a.c.v, b.c.v, b.st);
          EvalResult(r.0, b.frame, r.1)
  }

  /** Arguments are evaluated left to right; the first throw stops them. */
  function EvalArgs(w: World, args: seq<Expr>, f: Frame, st: State): (r: ArgsResult)
    ensures r.Args? ==> |r.values| == |args|
    decreases args, 0
  {
    if args == [] then Args([], f, st)
    else
      var first := Eval(w, args[0], f, st);
      if first.c.Throws? then ArgsThrew(first.c.v, first.frame, first.st)
      else
        match EvalArgs(w, args[1..], first.frame, first.st)
        case ArgsThrew(v, f1, st1) => ArgsThrew(v, f1, st1)
        case Args(values, f1, st1) => Args([first.c.v] + values, f1, st1)
  }

  // ----- statements -----

  /** One argument, as a list of values. */
  function Single(r: EvalResult): ArgsResult {
    if r.c.Throws? then ArgsThrew(r.c.v, r.frame, r.st) else Args([r.c.v], r.frame, r.st)
  }

  /** The result of the first arguments, continued from the state they leave by that of the others. */
  function Continued(first: ArgsResult, w: World, others: seq<Expr>): ArgsResult {
    match first
    case ArgsThrew(_, _, _) => first
    case Args(values, f, st) =>
      var r := EvalArgs(w, others, f, st);
      if r.Args? then r.(values := values + r.values) else r
  }

  /** Arguments are evaluated left to right, each from the state the one before it leaves, and a throw stops the rest. */
  lemma {:induction false} EvalArgsInOrder(w: World, a: seq<Expr>, b: seq<Expr>, f: Frame, st: State)
    ensures EvalArgs(w, a + b, f, st) == Continued(EvalArgs(w, a, f, st), w, b)
    ensures |a| == 1 ==> EvalArgs(w, a, f, st) == Single(Eval(w, a[0], f, st))
    decreases |a|
  {
    if a == [] {
      assert a + b == b;
    } else {
      var r := Eval(w, a[0], f, st);
      FirstArg(w, a, f, st);
      FirstArg(w, a + b, f, st);
      assert (a + b)[0] == a[0] && (a + b)[1..] == a[1..] + b;
      if r.c.Normal? {
        EvalArgsInOrder(w, a[1..], b, r.frame, r.st);
        ContinuedTwice(Single(r), EvalArgs(w, a[1..], r.frame, r.st), w, a[1..], b);
      }
    }
  }

  lemma {:induction false} FirstArg(w: World, args: seq<Expr>, f: Frame, st: State)
    requires args != []
    ensures EvalArgs(w, args, f, st) == Continued(Single(Eval(w, args[0], f, st)), w, args[1..])
  {
  }

  lemma {:induction false} ContinuedTwice(first: ArgsResult, rest: ArgsResult, w: World, a: seq<Expr>, b: seq<Expr>)
    requires first.Args? && rest == EvalArgs(w, a, first.frame, first.st)
    requires EvalArgs(w, a + b, first.frame, first.st) == Continued(rest, w, b)
    ensures Continued(first, w, a + b) == Continued(Continued(first, w, a), w, b)
  {
    if rest.Args? {
      var r := EvalArgs(w, b, rest.frame, rest.st);
      if r.Args? {
        assert first.values + (rest.values + r.values) == first.values + rest.values + r.values;
      }
    }
  }

  datatype Control = Next | Returned | Threw(v: Value) | OutOfFuel

  datatype ExecResult = ExecResult(ctl: Control, frame: Frame, st: State)

  /** Names the statements bind in the scope they stand in. */
  function Declared(ss: seq<Stmt>): set<string> {
    if ss == [] then {}
    else (if ss[0].Declare? then {ss[0].name} else {}) + Declared(ss[1..])
  }

  /** Entering a scope puts its locals in their dead zone. */
  function Enter(f: Frame, locals: set<string>): Frame {
    f + map n | n in locals :: Dead
  }

  /** Leaving it uncovers the bindings it hid. */
  function Leave(outer: Frame, f: Frame, locals: set<string>): Frame {
    (f - locals) + map n | n in locals && n in outer :: outer[n]
  }

  /** `fuel` bounds how often loops go round; running out of it is an outcome of its own. */
  function Exec(w: World, fuel: nat, s: Stmt, f: Frame, st: State): ExecResult
    decreases fuel, s, 0
  {
    match s
    case Do(e) => After(Eval(w, e, f, st))
    case Declare(name, init) =>
      var r := Eval(w, init, f, st);
      if r.c.Throws? then After(r) else ExecResult(Next, r.frame[name := Live(r.c.v)], r.st)
    case Throw(e) =>
      var r := Eval(w, e, f, st);
      ExecResult(Threw(r.c.v), r.frame, r.st)
    case Return => ExecResult(Returned, f, st)
    case Block(body) => ExecScope(w, fuel, body, f, st)
    case If(test, yes, no) =>
      var r := Eval(w, test, f, st);
      if r.c.Throws? then After(r)
      else if Truthy(r.c.v) then ExecScope(w, fuel, yes, r.frame, r.st)
      else ExecScope(w, fuel, no, r.frame, r.st)
    case While(test, body) =>
      var r := Eval(w, test, f, st);
      if r.c.Throws? then After(r)
      else if !Truthy(r.c.v) then ExecResult(Next, r.frame, r.st)
      else
        var once := ExecScope(w, fuel, body, r.frame, r.st);
        if !once.ctl.Next? then once
        else if fuel == 0 then once.(ctl := OutOfFuel)
        else Exec(w, fuel - 1, s, once.frame, once.st)
  }

  function After(r: EvalResult): ExecResult {
    ExecResult(if r.c.Throws? then Threw(r.c.v) else Next, r.frame, r.st)
  }

  function ExecScope(w: World, fuel: nat, body: seq<Stmt>, f: Frame, st: State): ExecResult
    decreases fuel, body, 1
  {
    var r := ExecAll(w, fuel, body, Enter(f, Declared(body)), st);
    r.(frame := Leave(f, r.frame, Declared(body)))
  }

  function ExecAll(w: World, fuel: nat, ss: seq<Stmt>, f: Frame, st: State): ExecResult
    decreases fuel, ss, 0
  {
    if ss == [] then ExecResult(Next, f, st)
    else
      var r := Exec(w, fuel, ss[0], f, st);
      if r.ctl.Next? then ExecAll(w, fuel, ss[1..], r.frame, r.st) else r
  }

  lemma {:induction false} ExecAppend(w: World, fuel: nat, a: seq<Stmt>, b: seq<Stmt>, f: Frame, st: State)
    ensures var r := ExecAll(w, fuel, a, f, st);
      ExecAll(w, fuel, a + b, f, st) == if r.ctl.Next? then ExecAll(w, fuel, b, r.frame, r.st) else r
    decreases |a|
  {
    if a == [] {
      assert a + b == b;
    } else {
      assert (a + b)[0] == a[0] && (a + b)[1..] == a[1..] + b;
      var r := Exec(w, fuel, a[0], f, st);
      if r.ctl.Next? {
        ExecAppend(w, fuel, a[1..], b, r.frame, r.st);
      }
    }
  }
}
