/** Source text of the fragment: substituting references on the text gives the text of the substituted tree. */
module InlineSource {
  import opened Collections
  import opened InlineLanguage
  import opened InlineScope
  import opened InlineEdits

  datatype Lexeme = Word(name: string) | Constant(v: Value) | Sign(sign: string)

  /** A lexeme of the source, and what the tool puts in its place if it is a reference it substitutes. */
  datatype Piece = Kept(lexeme: Lexeme) | Replaced(lexeme: Lexeme, text: seq<Lexeme>)

  function TargetText(t: Target): seq<Lexeme> {
    if t.Rename? then [Word(t.name)] else [Constant(Undefined)]
  }

  function Reference(s: Subst, name: string): seq<Piece> {
    [if name in s && s[name] != Rename(name) then Replaced(Word(name), TargetText(s[name])) else Kept(Word(name))]
  }

  function Signs(sign: string): seq<Piece> {
    [Kept(Sign(sign))]
  }

  function Infix(l: seq<Piece>, sign: string, r: seq<Piece>): seq<Piece> {
    l + Signs(sign) + r
  }

  function Between(opening: string, ps: seq<Piece>, closing: string): seq<Piece> {
    Signs(opening) + ps + Signs(closing)
  }

  function OperatorText(op: CompareOp): string {
    match op
    case StrictEq => "==="
    case StrictNe => "!=="
    case LooseEq => "=="
    case LooseNe => "!="
    case Less => "<"
    case Greater => ">"
    case LessEq => "<="
    case GreaterEq => ">="
  }

  function OfExpr(s: Subst, e: Expr): seq<Piece>
    decreases e, 0
  {
    match e
    case Literal(v) => [Kept(Constant(v))]
    case Var(name) => Reference(s, name)
    case Call(callee, args) => Between(callee, OfExprs(s, args), ")")
    case Assign(name, rhs) => Infix(Reference(s, name), "=", OfExpr(s, rhs))
    case Conditional(test, yes, no) => Infix(Infix(OfExpr(s, test), "?", OfExpr(s, yes)), ":", OfExpr(s, no))
    case Paren(inner) => Between("(", OfExpr(s, inner), ")")
    case Not(operand) => Signs("!") + OfExpr(s, operand)
    case And(l, r) => Infix(OfExpr(s, l), "&&", OfExpr(s, r))
    case Or(l, r) => Infix(OfExpr(s, l), "||", OfExpr(s, r))
    case Compare(op, l, r) => Infix(OfExpr(s, l), OperatorText(op), OfExpr(s, r))
  }

  function OfExprs(s: Subst, es: seq<Expr>): seq<Piece>
    decreases es, 0
  {
    if es == [] then [] else Infix(OfExpr(s, es[0]), ",", OfExprs(s, es[1..]))
  }

  function OfStmt(s: Subst, t: Stmt): seq<Piece>
    decreases t, 0
  {
    match t
    case Do(e) => OfExpr(s, e) + Signs(";")
    case Declare(name, init) => Between("const", Infix(Reference(s, name), "=", OfExpr(s, init)), ";")
    case If(test, yes, no) => Infix(Between("if (", OfExpr(s, test), ")") + OfScope(s, yes), "else", OfScope(s, no))
    case Block(body) => OfScope(s, body)
    case While(test, body) => Between("while (", OfExpr(s, test), ")") + OfScope(s, body)
    case Throw(e) => Between("throw", OfExpr(s, e), ";")
    case Return => Signs("return;")
  }

  /** A name that the scope declares anew is no reference to what is substituted. */
  function OfScope(s: Subst, body: seq<Stmt>): seq<Piece>
    decreases body, 1
  {
    Between("{", OfAll(Shadow(s, Declared(body)), body), "}")
  }

  function OfAll(s: Subst, ss: seq<Stmt>): seq<Piece>
    decreases ss, 0
  {
    if ss == [] then [] else OfStmt(s, ss[0]) + OfAll(s, ss[1..])
  }

  // ----- with and without the substitution -----

  function Original(ps: seq<Piece>): (text: seq<Lexeme>)
    ensures |text| == |ps| && forall i :: 0 <= i < |ps| ==> text[i] == ps[i].lexeme
  {
    seq(|ps|, i requires 0 <= i < |ps| => ps[i].lexeme)
  }

  function Result(p: Piece): seq<Lexeme> {
    if p.Replaced? then p.text else [p.lexeme]
  }

  function Substituted(ps: seq<Piece>): seq<Lexeme> {
    if ps == [] then [] else Result(ps[0]) + Substituted(ps[1..])
  }

  /** The text of the pieces is that of `was`, and substituting turns it into that of `now`. */
  predicate Turns(was: seq<Piece>, ps: seq<Piece>, now: seq<Piece>) {
    Original(ps) == Original(was) && Substituted(ps) == Original(now)
  }

  lemma {:induction false} OriginalConcat(a: seq<Piece>, b: seq<Piece>)
    ensures Original(a + b) == Original(a) + Original(b)
  {
  }

  lemma {:induction false} SubstitutedConcat(a: seq<Piece>, b: seq<Piece>)
    ensures Substituted(a + b) == Substituted(a) + Substituted(b)
  {
    var whole := a + b;
    if a == [] {
      assert whole == b;
    } else {
      var rest := a[1..];
      SubstitutedConcat(rest, b);
      assert whole[0] == a[0] && whole[1..] == rest + b;
      calc {
        Substituted(whole);
        Result(a[0]) + Substituted(rest + b);
        Result(a[0]) + (Substituted(rest) + Substituted(b));
        { Assoc(Result(a[0]), Substituted(rest), Substituted(b)); }
        (Result(a[0]) + Substituted(rest)) + Substituted(b);
        Substituted(a) + Substituted(b);
      }
    }
  }

  lemma {:induction false} TurnsConcat(a0: seq<Piece>, a: seq<Piece>, a1: seq<Piece>, b0: seq<Piece>, b: seq<Piece>, b1: seq<Piece>)
    requires Turns(a0, a, a1) && Turns(b0, b, b1)
    ensures Turns(a0 + b0, a + b, a1 + b1)
  {
    OriginalConcat(a0, b0);
    OriginalConcat(a, b);
    SubstitutedConcat(a, b);
    OriginalConcat(a1, b1);
  }

  lemma {:induction false} TurnsSign(sign: string)
    ensures Turns(Signs(sign), Signs(sign), Signs(sign))
  {
    var ps := Signs(sign);
    assert ps[1..] == [];
  }

  lemma {:induction false} TurnsInfix(a0: seq<Piece>, a: seq<Piece>, a1: seq<Piece>, sign: string, b0: seq<Piece>, b: seq<Piece>, b1: seq<Piece>)
    requires Turns(a0, a, a1) && Turns(b0, b, b1)
    ensures Turns(Infix(a0, sign, b0), Infix(a, sign, b), Infix(a1, sign, b1))
  {
    var x := Signs(sign);
    TurnsSign(sign);
    TurnsConcat(a0, a, a1, x, x, x);
    TurnsConcat(a0 + x, a + x, a1 + x, b0, b, b1);
  }

  lemma {:induction false} TurnsBetween(opening: string, a0: seq<Piece>, a: seq<Piece>, a1: seq<Piece>, closing: string)
    requires Turns(a0, a, a1)
    ensures Turns(Between(opening, a0, closing), Between(opening, a, closing), Between(opening, a1, closing))
  {
    var x, y := Signs(opening), Signs(closing);
    TurnsSign(opening);
    TurnsSign(closing);
    TurnsConcat(x, x, x, a0, a, a1);
    TurnsConcat(x + a0, x + a, x + a1, y, y, y);
  }

  // ----- substituting on the tree -----

  /** Replaces nothing. */
  predicate Inert(u: Subst) {
    forall n :: n in u ==> u[n] == Rename(n)
  }

  lemma {:induction false} ReferenceTurns(u: Subst, s: Subst, v: Subst, name: string)
    requires Inert(u) && Inert(v)
    ensures name !in s ==> Turns(Reference(u, name), Reference(s, name), Reference(v, name))
    ensures name in s && s[name].Rename? ==> Turns(Reference(u, name), Reference(s, name), Reference(v, s[name].name))
    ensures name in s && s[name].Missing? ==> Turns(Reference(u, name), Reference(s, name), [Kept(Constant(Undefined))])
  {
  }

  lemma {:induction false} ExprTurns(u: Subst, s: Subst, v: Subst, e: Expr)
    requires Inert(u) && Inert(v) && ExprWritable(s, e)
    ensures Turns(OfExpr(u, e), OfExpr(s, e), OfExpr(v, ApplyExpr(s, e)))
    decreases e, 0
  {
    match e
    case Literal(_) =>
    case Var(name) => ReferenceTurns(u, s, v, name);
    case Call(callee, args) =>
      ExprsTurn(u, s, v, args);
      TurnsBetween(callee, OfExprs(u, args), OfExprs(s, args), OfExprs(v, ApplyExprs(s, args)), ")");
    case Assign(name, rhs) =>
      ReferenceTurns(u, s, v, name);
      ExprTurns(u, s, v, rhs);
      var now := if name in s then s[name].name else name;
      TurnsInfix(Reference(u, name), Reference(s, name), Reference(v, now), "=",
        OfExpr(u, rhs), OfExpr(s, rhs), OfExpr(v, ApplyExpr(s, rhs)));
    case Conditional(test, yes, no) =>
      ExprTurns(u, s, v, test);
      ExprTurns(u, s, v, yes);
      ExprTurns(u, s, v, no);
      TwoTurn(u, s, v, test, "?", yes);
      var test1, yes1, no1 := ApplyExpr(s, test), ApplyExpr(s, yes), ApplyExpr(s, no);
      TurnsInfix(Infix(OfExpr(u, test), "?", OfExpr(u, yes)), Infix(OfExpr(s, test), "?", OfExpr(s, yes)),
        Infix(OfExpr(v, test1), "?", OfExpr(v, yes1)), ":", OfExpr(u, no), OfExpr(s, no), OfExpr(v, no1));
    case Paren(inner) =>
      ExprTurns(u, s, v, inner);
      TurnsBetween("(", OfExpr(u, inner), OfExpr(s, inner), OfExpr(v, ApplyExpr(s, inner)), ")");
    case Not(operand) =>
      ExprTurns(u, s, v, operand);
      TurnsSign("!");
      TurnsConcat(Signs("!"), Signs("!"), Signs("!"), OfExpr(u, operand), OfExpr(s, operand), OfExpr(v, ApplyExpr(s, operand)));
    case And(l, r) =>
      ExprTurns(u, s, v, l);
      ExprTurns(u, s, v, r);
      TwoTurn(u, s, v, l, "&&", r);
    case Or(l, r) =>
      ExprTurns(u, s, v, l);
      ExprTurns(u, s, v, r);
      TwoTurn(u, s, v, l, "||", r);
    case Compare(op, l, r) =>
      ExprTurns(u, s, v, l);
      ExprTurns(u, s, v, r);
      TwoTurn(u, s, v, l, OperatorText(op), r);
  }

  /** What `ExprTurns` says of one expression. */
  predicate Translated(u: Subst, s: Subst, v: Subst, e: Expr) {
    Turns(OfExpr(u, e), OfExpr(s, e), OfExpr(v, ApplyExpr(s, e)))
  }

  lemma {:induction false} TwoTurn(u: Subst, s: Subst, v: Subst, l: Expr, sign: string, r: Expr)
    requires Translated(u, s, v, l) && Translated(u, s, v, r)
    ensures Turns(Infix(OfExpr(u, l), sign, OfExpr(u, r)), Infix(OfExpr(s, l), sign, OfExpr(s, r)),
      Infix(OfExpr(v, ApplyExpr(s, l)), sign, OfExpr(v, ApplyExpr(s, r))))
  {
    TurnsInfix(OfExpr(u, l), OfExpr(s, l), OfExpr(v, ApplyExpr(s, l)), sign,
      OfExpr(u, r), OfExpr(s, r), OfExpr(v, ApplyExpr(s, r)));
  }

  lemma {:induction false} ExprsTurn(u: Subst, s: Subst, v: Subst, es: seq<Expr>)
    requires Inert(u) && Inert(v) && ExprsWritable(s, es)
    ensures Turns(OfExprs(u, es), OfExprs(s, es), OfExprs(v, ApplyExprs(s, es)))
    decreases es, 0
  {
    if es != [] {
      ExprTurns(u, s, v, es[0]);
      ExprsTurn(u, s, v, es[1..]);
      assert ApplyExprs(s, es)[1..] == ApplyExprs(s, es[1..]);
      TurnsInfix(OfExpr(u, es[0]), OfExpr(s, es[0]), OfExpr(v, ApplyExpr(s, es[0])), ",",
        OfExprs(u, es[1..]), OfExprs(s, es[1..]), OfExprs(v, ApplyExprs(s, es[1..])));
    }
  }

  lemma {:induction false} StmtTurns(u: Subst, s: Subst, v: Subst, t: Stmt)
    requires Inert(u) && Inert(v) && StmtWritable(s, t)
    ensures Turns(OfStmt(u, t), OfStmt(s, t), OfStmt(v, ApplyStmt(s, t)))
    decreases t, 0
  {
    match t
    case Do(e) =>
      ExprTurns(u, s, v, e);
      TurnsSign(";");
      TurnsConcat(OfExpr(u, e), OfExpr(s, e), OfExpr(v, ApplyExpr(s, e)), Signs(";"), Signs(";"), Signs(";"));
    case Declare(name, init) =>
      ReferenceTurns(u, s, v, name);
      ExprTurns(u, s, v, init);
      var init1 := ApplyExpr(s, init);
      var was, ps, now := Reference(u, name), Reference(s, name), Reference(v, s[name].name);
      TurnsInfix(was, ps, now, "=", OfExpr(u, init), OfExpr(s, init), OfExpr(v, init1));
      TurnsBetween("const", Infix(was, "=", OfExpr(u, init)), Infix(ps, "=", OfExpr(s, init)), Infix(now, "=", OfExpr(v, init1)), ";");
    case If(test, yes, no) =>
      HeadTurns(u, s, v, "if (", test, yes);
      ScopeTurns(u, s, v, no);
      TurnsInfix(Between("if (", OfExpr(u, test), ")") + OfScope(u, yes), Between("if (", OfExpr(s, test), ")") + OfScope(s, yes),
        Between("if (", OfExpr(v, ApplyExpr(s, test)), ")") + OfScope(v, ApplyScope(s, yes)), "else",
        OfScope(u, no), OfScope(s, no), OfScope(v, ApplyScope(s, no)));
    case Block(body) => ScopeTurns(u, s, v, body);
    case While(test, body) => HeadTurns(u, s, v, "while (", test, body);
    case Throw(e) =>
      ExprTurns(u, s, v, e);
      TurnsBetween("throw", OfExpr(u, e), OfExpr(s, e), OfExpr(v, ApplyExpr(s, e)), ";");
    case Return => TurnsSign("return;");
  }

  /** A test in parentheses with the scope behind it. */
  lemma {:induction false} HeadTurns(u: Subst, s: Subst, v: Subst, opening: string, test: Expr, body: seq<Stmt>)
    requires Inert(u) && Inert(v) && ExprWritable(s, test) && ScopeWritable(s, body)
    ensures Turns(Between(opening, OfExpr(u, test), ")") + OfScope(u, body), Between(opening, OfExpr(s, test), ")") + OfScope(s, body),
      Between(opening, OfExpr(v, ApplyExpr(s, test)), ")") + OfScope(v, ApplyScope(s, body)))
    decreases body, 2
  {
    ExprTurns(u, s, v, test);
    ScopeTurns(u, s, v, body);
    var test1, body1 := ApplyExpr(s, test), ApplyScope(s, body);
    TurnsBetween(opening, OfExpr(u, test), OfExpr(s, test), OfExpr(v, test1), ")");
    TurnsConcat(Between(opening, OfExpr(u, test), ")"), Between(opening, OfExpr(s, test), ")"), Between(opening, OfExpr(v, test1), ")"),
      OfScope(u, body), OfScope(s, body), OfScope(v, body1));
  }

  lemma {:induction false} ScopeTurns(u: Subst, s: Subst, v: Subst, body: seq<Stmt>)
    requires Inert(u) && Inert(v) && ScopeWritable(s, body)
    ensures Turns(OfScope(u, body), OfScope(s, body), OfScope(v, ApplyScope(s, body)))
    decreases body, 1
  {
    var body1 := ApplyScope(s, body);
    var u1, s1, v1 := Shadow(u, Declared(body)), Shadow(s, Declared(body)), Shadow(v, Declared(body1));
    AllTurn(u1, s1, v1, body);
    TurnsBetween("{", OfAll(u1, body), OfAll(s1, body), OfAll(v1, body1), "}");
  }

  lemma {:induction false} AllTurn(u: Subst, s: Subst, v: Subst, ss: seq<Stmt>)
    requires Inert(u) && Inert(v) && AllWritable(s, ss)
    ensures Turns(OfAll(u, ss), OfAll(s, ss), OfAll(v, ApplyAll(s, ss)))
    decreases ss, 0
  {
    if ss != [] {
      var first, rest := ss[0], ss[1..];
      StmtTurns(u, s, v, first);
      AllTurn(u, s, v, rest);
      assert ApplyAll(s, ss)[1..] == ApplyAll(s, rest);
      TurnsConcat(OfStmt(u, first), OfStmt(s, first), OfStmt(v, ApplyStmt(s, first)),
        OfAll(u, rest), OfAll(s, rest), OfAll(v, ApplyAll(s, rest)));
    }
  }

  // ----- substituting on the text -----

  const NOTHING: Subst := map[]

  /** The source text of statements. */
  function SourceText(ss: seq<Stmt>): seq<Lexeme> {
    Original(OfAll(NOTHING, ss))
  }

  /** Between `at` and the end of the pieces the edits are those of the replaced references, whatever they are elsewhere. */
  ghost predicate EditsOf(ps: seq<Piece>, at: nat, edits: seq<Edit<Lexeme>>) {
    && (forall p {:trigger HasEdit(ps, at, edits, p)} :: at <= p < at + |ps| ==> HasEdit(ps, at, edits, p))
    && forall e :: e in edits && Within(e, at, at + |ps|) ==> at <= e.start < at + |ps| && ps[e.start - at].Replaced?
  }

  ghost predicate HasEdit(ps: seq<Piece>, at: nat, edits: seq<Edit<Lexeme>>, p: nat)
    requires at <= p < at + |ps|
  {
    ps[p - at].Replaced? ==> Edit(p, p + 1, ps[p - at].text) in edits
  }

  lemma {:induction false} NoneBegins(ps: seq<Piece>, at: nat, edits: seq<Edit<Lexeme>>, e: Edit<Lexeme>)
    requires ps != [] && EditsOf(ps, at, edits) && e in edits && Begins(e, at, at + |ps|)
    ensures ps[0].Replaced?
  {
    assert Within(e, at, at + |ps|);
  }

  lemma {:induction false} KeptHere(file: seq<Lexeme>, ps: seq<Piece>, at: nat, edits: seq<Edit<Lexeme>>)
    requires ps != [] && EditsOf(ps, at, edits) && at + |ps| <= |file| && !ps[0].Replaced?
    ensures Rewritten(file, at, at + |ps|, edits) == [file[at]] + Rewritten(file, at + 1, at + |ps|, edits)
  {
    forall e | e in edits ensures !Begins(e, at, at + |ps|) {
      if Begins(e, at, at + |ps|) { NoneBegins(ps, at, edits, e); }
    }
    NothingHere(file, at, at + |ps|, edits);
  }

  lemma {:induction false} ReplacedHere(file: seq<Lexeme>, ps: seq<Piece>, at: nat, edits: seq<Edit<Lexeme>>)
    requires Apart(edits) && ps != [] && EditsOf(ps, at, edits) && at + |ps| <= |file| && ps[0].Replaced?
    ensures Rewritten(file, at, at + |ps|, edits) == ps[0].text + Rewritten(file, at + 1, at + |ps|, edits)
  {
    assert HasEdit(ps, at, edits, at);
    EditFrom(file, at, at + 1, at + |ps|, edits, ps[0].text);
  }

  lemma {:induction false} FirstRewritten(file: seq<Lexeme>, ps: seq<Piece>, at: nat, edits: seq<Edit<Lexeme>>)
    requires Apart(edits) && ps != [] && EditsOf(ps, at, edits) && at + |ps| <= |file| && file[at] == ps[0].lexeme
    ensures Rewritten(file, at, at + |ps|, edits) == Result(ps[0]) + Rewritten(file, at + 1, at + |ps|, edits)
  {
    if ps[0].Replaced? {
      ReplacedHere(file, ps, at, edits);
    } else {
      KeptHere(file, ps, at, edits);
    }
  }

  /** The file holds these pieces from `at` on. */
  ghost predicate Holds(file: seq<Lexeme>, ps: seq<Piece>, at: nat) {
    at + |ps| <= |file| && forall p :: at <= p < at + |ps| ==> file[p] == ps[p - at].lexeme
  }

  lemma {:induction false} RestHolds(file: seq<Lexeme>, ps: seq<Piece>, at: nat)
    requires ps != [] && Holds(file, ps, at)
    ensures Holds(file, ps[1..], at + 1) && file[at] == ps[0].lexeme
  {
  }

  /** In a file in which these pieces stand, rewriting replaces each reference once. */
  lemma {:induction false} PiecesRewritten(file: seq<Lexeme>, ps: seq<Piece>, at: nat, edits: seq<Edit<Lexeme>>)
    requires Apart(edits) && EditsOf(ps, at, edits) && Holds(file, ps, at)
    ensures Rewritten(file, at, at + |ps|, edits) == Substituted(ps)
    decreases |ps|
  {
    if ps != [] {
      var end, rest := at + |ps|, ps[1..];
      RestEdits(ps, at, edits);
      RestHolds(file, ps, at);
      PiecesRewritten(file, rest, at + 1, edits);
      FirstRewritten(file, ps, at, edits);
      calc {
        Rewritten(file, at, end, edits);
        Result(ps[0]) + Rewritten(file, at + 1, end, edits);
        Result(ps[0]) + Substituted(rest);
        Substituted(ps);
      }
    }
  }

  lemma {:induction false} RestEdits(ps: seq<Piece>, at: nat, edits: seq<Edit<Lexeme>>)
    requires ps != [] && EditsOf(ps, at, edits)
    ensures EditsOf(ps[1..], at + 1, edits)
  {
    var rest := ps[1..];
    var next := at + 1;
    forall p | next <= p < next + |rest| ensures HasEdit(rest, next, edits, p) {
      assert HasEdit(ps, at, edits, p);
    }
  }

  /** Replacing the references to `s` in the text of statements gives the text of the statements with `s` applied. */
  lemma {:induction false} TextSubstitution(file: seq<Lexeme>, start: nat, end: nat, ss: seq<Stmt>, s: Subst, edits: seq<Edit<Lexeme>>)
    requires start <= end <= |file| && file[start..end] == SourceText(ss)
    requires AllWritable(s, ss) && Apart(edits) && EditsOf(OfAll(s, ss), start, edits)
    ensures Rewritten(file, start, end, edits) == SourceText(ApplyAll(s, ss))
  {
    var ps := OfAll(s, ss);
    AllTurn(NOTHING, s, NOTHING, ss);
    forall p | start <= p < end ensures file[p] == ps[p - start].lexeme {
      assert file[start..end][p - start] == Original(ps)[p - start];
    }
    PiecesRewritten(file, ps, start, edits);
  }
}
