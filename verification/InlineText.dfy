/** The text side of guard inversion: what the inverter writes, and that a parser reads back the intended condition. */
module InlineText {
  import opened InlineLanguage
  import opened InlineGuards

  /** A token of an expression; `Atom` and `Low` are the texts of operands the inverter copies untouched. */
  datatype Token = Atom(e: Expr) | Low(e: Expr) | Open | Close | Bang | AndAnd | OrOr | Op(op: CompareOp)

  /** Source text of a tree: parentheses are written exactly where the tree has them. */
  function Text(e: Expr): seq<Token> {
    match e
    case Assign(_, _) => [Token.Low(e)]
    case Conditional(_, _, _) => [Token.Low(e)]
    case Paren(inner) => [Open] + Text(inner) + [Close]
    case Not(operand) => [Bang] + Text(operand)
    case And(l, r) => Text(l) + [AndAnd] + Text(r)
    case Or(l, r) => Text(l) + [OrOr] + Text(r)
    case Compare(op, l, r) => Text(l) + [Op(op)] + Text(r)
    case _ => [Token.Atom(e)]
  }

  // Binding strength, from the loosest: || 1, && 2, equality 3, relational 4, ! 5, atoms and parentheses 6.
  function OperatorLevel(t: Token): nat {
    match t
    case OrOr => 1
    case AndAnd => 2
    case Op(op) => if Relational(op) then 4 else 3
    case _ => 7
  }

  function Level(e: Expr): nat {
    match e
    case Assign(_, _) => 0
    case Conditional(_, _, _) => 0
    case Or(_, _) => 1
    case And(_, _) => 2
    case Compare(op, _, _) => if Relational(op) then 4 else 3
    case Not(_) => 5
    case _ => 6
  }

  /** Trees a parser can produce: operands bind tightly enough, binary operators associate to the left. */
  predicate WellParsed(e: Expr) {
    match e
    case Paren(inner) => WellParsed(inner)
    case Not(operand) => WellParsed(operand) && Level(operand) >= 5
    case Or(l, r) => WellParsed(l) && WellParsed(r) && Level(l) >= 1 && Level(r) >= 2
    case And(l, r) => WellParsed(l) && WellParsed(r) && Level(l) >= 2 && Level(r) >= 3
    case Compare(_, l, r) => WellParsed(l) && WellParsed(r) && Level(l) >= Level(e) && Level(r) > Level(e)
    case _ => true
  }

  // ----- what the inverter writes -----

  datatype NegatedText = NegatedText(text: seq<Token>, prec: nat)

  function WrapText(part: NegatedText, minPrec: nat): seq<Token> {
    if part.prec < minPrec then [Open] + part.text + [Close] else part.text
  }

  function NegateText(e: Expr): NegatedText {
    match e
    case Paren(inner) => NegateText(inner)
    case Not(operand) => NegatedText(Text(operand), LogicalPrec(operand))
    case Compare(op, l, r) => NegatedText(Text(l) + [Op(Flip(op))] + Text(r), PREC_ATOM)
    case And(l, r) => NegatedText(NegateText(l).text + [OrOr] + NegateText(r).text, PREC_OR)
    case Or(l, r) =>
      NegatedText(WrapText(NegateText(l), PREC_AND) + [AndAnd] + WrapText(NegateText(r), PREC_AND), PREC_AND)
    case _ => NegatedText([Bang, Open] + Text(e) + [Close], PREC_ATOM)
  }

  function JoinTexts(guards: seq<Expr>): seq<Token>
    requires guards != []
  {
    var last := WrapText(NegateText(guards[|guards| - 1]), PREC_AND);
    if |guards| == 1 then last else JoinTexts(guards[..|guards| - 1]) + [AndAnd] + last
  }

  function CombineTexts(guards: seq<Expr>): seq<Token>
    requires guards != []
  {
    if |guards| == 1 then NegateText(guards[0]).text else JoinTexts(guards)
  }

  // ----- the parser -----

  function Depth(t: seq<Token>): int {
    if t == [] then 0
    else Depth(t[..|t| - 1]) + (match t[|t| - 1] case Open => 1 case Close => -1 case _ => 0)
  }

  /** Position `i` holds an operator of the given level outside all parentheses. */
  predicate Splits(level: nat, t: seq<Token>, i: nat) {
    i < |t| && OperatorLevel(t[i]) == level && Depth(t[..i]) == 0
  }

  /** The last such position below `n`. */
  function LastSplit(level: nat, t: seq<Token>, n: nat): (r: int)
    requires n <= |t|
    ensures -1 <= r < n
    ensures r >= 0 ==> Splits(level, t, r)
    ensures forall i :: r < i < n && i >= 0 ==> !Splits(level, t, i)
  {
    if n == 0 then -1 else if Splits(level, t, n - 1) then n - 1 else LastSplit(level, t, n - 1)
  }

  datatype Parsed = Tree(e: Expr) | SyntaxError

  function Combine(t: Token, l: Parsed, r: Parsed): Parsed {
    if l.SyntaxError? || r.SyntaxError? then SyntaxError
    else match t
      case OrOr => Tree(Or(l.e, r.e))
      case AndAnd => Tree(And(l.e, r.e))
      case Op(op) => Tree(Compare(op, l.e, r.e))
      case _ => SyntaxError
  }

  /** A whole expression: an assignment or conditional, or an operator expression. */
  function Parse(t: seq<Token>): Parsed
    decreases |t|, 7
  {
    if |t| == 1 && t[0].Low? then Tree(t[0].e) else ParseLevel(1, t)
  }

  /** Binary operators of one level split at the last occurrence, hence associate to the left. */
  function ParseLevel(level: nat, t: seq<Token>): Parsed
    requires 1 <= level <= 5
    decreases |t|, 6 - level
  {
    if level == 5 then
      if t == [] then SyntaxError
      else if t[0].Bang? then
        var operand := ParseLevel(5, t[1..]);
        if operand.Tree? then Tree(Not(operand.e)) else SyntaxError
      else if |t| == 1 && t[0].Atom? then Tree(t[0].e)
      else if |t| >= 2 && t[0].Open? && t[|t| - 1].Close? then
        var inner := Parse(t[1..|t| - 1]);
        if inner.Tree? then Tree(Paren(inner.e)) else SyntaxError
      else SyntaxError
    else
      var i := LastSplit(level, t, |t|);
      if i < 0 then ParseLevel(level + 1, t)
      else Combine(t[i], ParseLevel(level, t[..i]), ParseLevel(level + 1, t[i + 1..]))
  }

  // ----- parentheses balance -----

  lemma {:induction false} DepthConcat(a: seq<Token>, b: seq<Token>)
    ensures Depth(a + b) == Depth(a) + Depth(b)
    decreases |b|
  {
    if b == [] {
      assert a + b == a;
    } else {
      var n := |b| - 1;
      assert (a + b)[..|a| + n] == a + b[..n];
      assert (a + b)[|a| + n] == b[n];
      DepthConcat(a, b[..n]);
    }
  }

  /** Balanced, and loose operators occur only inside parentheses. */
  ghost predicate Tight(level: nat, t: seq<Token>) {
    && t != []
    && Depth(t) == 0
    && (forall i :: 0 <= i <= |t| ==> Depth(t[..i]) >= 0)
    && (forall l: nat, i: nat :: l < level ==> !Splits(l, t, i))
  }

  lemma {:induction false} DepthInSecond(a: seq<Token>, x: Token, b: seq<Token>, i: nat)
    requires |a| < i <= |a| + 1 + |b| && OperatorLevel(x) < 7
    ensures Depth((a + [x] + b)[..i]) == Depth(a) + Depth(b[..i - |a| - 1])
  {
    assert (a + [x] + b)[..i] == a + [x] + b[..i - |a| - 1];
    DepthConcat(a + [x], b[..i - |a| - 1]);
    DepthConcat(a, [x]);
  }

  /** Splits of `a x b` are those of `a`, the operator itself, and those of `b`. */
  lemma {:induction false} SplitsOfBinary(level: nat, a: seq<Token>, x: Token, b: seq<Token>, i: nat)
    requires Depth(a) == 0 && OperatorLevel(x) < 7
    ensures var t := a + [x] + b;
      Splits(level, t, i) <==>
        (i < |a| && Splits(level, a, i)) || (i == |a| && OperatorLevel(x) == level)
        || (i > |a| && Splits(level, b, i - |a| - 1))
  {
    if i < |a| {
      SplitsInFirst(level, a, x, b, i);
    } else if i == |a| {
      assert (a + [x] + b)[..i] == a && (a + [x] + b)[i] == x;
    } else if i < |a + [x] + b| {
      DepthInSecond(a, x, b, i);
      assert (a + [x] + b)[i] == b[i - |a| - 1];
    }
  }

  lemma {:induction false} SplitsInFirst(level: nat, a: seq<Token>, x: Token, b: seq<Token>, i: nat)
    requires i < |a|
    ensures Splits(level, a + [x] + b, i) <==> Splits(level, a, i)
  {
    var t := a + [x] + b;
    assert t[..i] == a[..i] && t[i] == a[i];
  }

  lemma {:induction false} TightBinary(level: nat, a: seq<Token>, x: Token, b: seq<Token>)
    requires Tight(level, a) && Tight(level, b) && level <= OperatorLevel(x) < 7
    ensures Tight(level, a + [x] + b)
  {
    var t := a + [x] + b;
    forall i | 0 <= i <= |t| ensures Depth(t[..i]) >= 0 {
      if i <= |a| {
        assert t[..i] == a[..i];
      } else {
        DepthInSecond(a, x, b, i);
      }
    }
    assert t[..|t|] == t && b[..|b|] == b;
    DepthInSecond(a, x, b, |t|);
    forall l: nat, i: nat | l < level ensures !Splits(l, t, i) {
      SplitsOfBinary(l, a, x, b, i);
    }
  }

  lemma {:induction false} TightParens(level: nat, a: seq<Token>)
    requires Tight(0, a) && level <= 7
    ensures Tight(level, [Open] + a + [Close])
  {
    var t := [Open] + a + [Close];
    forall i | 0 <= i <= |t| ensures Depth(t[..i]) == if i == 0 || i == |t| then 0 else 1 + Depth(a[..i - 1]) {
      if 0 < i < |t| {
        assert t[..i] == [Open] + a[..i - 1];
        DepthConcat([Open], a[..i - 1]);
      } else if i == |t| {
        assert t[..i] == [Open] + a + [Close] && a[..|a|] == a;
        DepthConcat([Open], a);
        DepthConcat([Open] + a, [Close]);
      }
    }
    assert t[..|t|] == t;
    forall l: nat, i: nat | l < level ensures !Splits(l, t, i) {
      if 0 < i < |t| - 1 {
        assert Depth(a[..i - 1]) >= 0;
      }
    }
  }

  lemma {:induction false} TightBang(level: nat, a: seq<Token>)
    requires Tight(level, a) && level <= 7
    ensures Tight(level, [Bang] + a)
  {
    var t := [Bang] + a;
    forall i | 1 <= i <= |t| ensures Depth(t[..i]) == Depth(a[..i - 1]) {
      assert t[..i] == [Bang] + a[..i - 1];
      DepthConcat([Bang], a[..i - 1]);
    }
    assert t[..|t|] == t && a[..|a|] == a;
    forall l: nat, i: nat | l < level ensures !Splits(l, t, i) {
      if 0 < i < |t| {
        var j: nat := i - 1;
        assert !Splits(l, a, j) && t[i] == a[j];
      }
    }
  }

  lemma {:induction false} TightLower(level: nat, lower: nat, t: seq<Token>)
    requires Tight(level, t) && lower <= level
    ensures Tight(lower, t)
  {
  }

  lemma {:induction false} TextIsTight(e: Expr)
    requires WellParsed(e)
    ensures Tight(Level(e), Text(e))
    decreases e
  {
    match e
    case Paren(inner) =>
      TextIsTight(inner);
      TightLower(Level(inner), 0, Text(inner));
      TightParens(6, Text(inner));
    case Not(operand) =>
      TextIsTight(operand);
      TightLower(Level(operand), 5, Text(operand));
      TightBang(5, Text(operand));
    case Or(l, r) =>
      TextIsTight(l);
      TextIsTight(r);
      BinaryTextIsTight(1, l, OrOr, r);
    case And(l, r) =>
      TextIsTight(l);
      TextIsTight(r);
      BinaryTextIsTight(2, l, AndAnd, r);
    case Compare(op, l, r) =>
      TextIsTight(l);
      TextIsTight(r);
      BinaryTextIsTight(Level(e), l, Op(op), r);
    case _ =>
      var t := Text(e);
      assert t[..0] == [] && t[..1] == t;
  }

  lemma {:induction false} BinaryTextIsTight(level: nat, l: Expr, x: Token, r: Expr)
    requires Tight(Level(l), Text(l)) && Tight(Level(r), Text(r))
    requires level <= Level(l) && level <= Level(r) && level <= OperatorLevel(x) < 7
    ensures Tight(level, Text(l) + [x] + Text(r))
  {
    TightLower(Level(l), level, Text(l));
    TightLower(Level(r), level, Text(r));
    TightBinary(level, Text(l), x, Text(r));
  }

  // ----- reading the text back -----

  lemma {:induction false} LastSplitIs(level: nat, t: seq<Token>, n: nat, i: nat)
    requires i < n <= |t| && Splits(level, t, i) && forall j: nat :: i < j < n ==> !Splits(level, t, j)
    ensures LastSplit(level, t, n) == i
  {
    if n - 1 != i {
      LastSplitIs(level, t, n - 1, i);
    }
  }

  /** Text that holds no operator looser than `level` can be read starting at that level. */
  lemma {:induction false} SkipLevels(lower: nat, level: nat, t: seq<Token>)
    requires 1 <= lower <= level <= 5 && Tight(level, t)
    ensures ParseLevel(lower, t) == ParseLevel(level, t)
    decreases level - lower
  {
    if lower < level {
      assert LastSplit(lower, t, |t|) < 0 by {
        assert forall i: nat :: !Splits(lower, t, i);
      }
      SkipLevels(lower + 1, level, t);
    }
  }

  /** Splitting at the operator of a binary text gives back the texts of its operands. */
  lemma {:induction false} ParseBinary(level: nat, a: seq<Token>, x: Token, b: seq<Token>)
    requires 1 <= level <= 4 && OperatorLevel(x) == level && Depth(a) == 0 && Tight(level + 1, b)
    ensures ParseLevel(level, a + [x] + b) == Combine(x, ParseLevel(level, a), ParseLevel(level + 1, b))
  {
    var t := a + [x] + b;
    SplitsOfBinary(level, a, x, b, |a|);
    forall j: nat | |a| < j < |t| ensures !Splits(level, t, j) {
      SplitsOfBinary(level, a, x, b, j);
    }
    LastSplitIs(level, t, |t|, |a|);
    assert t[..|a|] == a && t[|a| + 1..] == b;
  }

  /** Parsing the text of a well-parsed tree gives the tree back, from any level not above its own. */
  lemma {:induction false} ParseText(e: Expr, lower: nat)
    requires WellParsed(e) && 1 <= lower <= 5 && lower <= Level(e)
    ensures ParseLevel(lower, Text(e)) == Tree(e)
    decreases e, 2
  {
    var level := if Level(e) < 5 then Level(e) else 5;
    TextIsTight(e);
    TightLower(Level(e), level, Text(e));
    SkipLevels(lower, level, Text(e));
    ParseOwn(e);
  }

  lemma {:induction false} ParseOwn(e: Expr)
    requires WellParsed(e) && 1 <= Level(e)
    ensures ParseLevel(if Level(e) < 5 then Level(e) else 5, Text(e)) == Tree(e)
    decreases e, 1
  {
    match e
    case Or(l, r) => ParseOperands(e, 1, l, OrOr, r);
    case And(l, r) => ParseOperands(e, 2, l, AndAnd, r);
    case Compare(op, l, r) => ParseOperands(e, Level(e), l, Op(op), r);
    case Not(operand) =>
      ParseText(operand, 5);
      ParseNot(Text(operand), operand);
    case Paren(inner) =>
      ParseWhole(inner);
      ParseParen(Text(inner), inner);
    case _ =>
  }

  lemma {:induction false} ParseNot(t: seq<Token>, operand: Expr)
    requires ParseLevel(5, t) == Tree(operand)
    ensures ParseLevel(5, [Bang] + t) == Tree(Not(operand))
  {
    assert ([Bang] + t)[1..] == t;
  }

  lemma {:induction false} ParseParen(t: seq<Token>, inner: Expr)
    requires Parse(t) == Tree(inner)
    ensures ParseLevel(5, [Open] + t + [Close]) == Tree(Paren(inner))
  {
    var all := [Open] + t + [Close];
    assert all[1..|all| - 1] == t;
  }

  lemma {:induction false} ParseOperands(e: Expr, level: nat, l: Expr, x: Token, r: Expr)
    requires WellParsed(l) && WellParsed(r) && 1 <= level <= 4 && OperatorLevel(x) == level
    requires Level(l) >= level && Level(r) > level && l < e && r < e
    ensures ParseLevel(level, Text(l) + [x] + Text(r)) == Combine(x, Tree(l), Tree(r))
    decreases e, 0
  {
    TextIsTight(l);
    TextIsTight(r);
    TightLower(Level(r), level + 1, Text(r));
    ParseBinary(level, Text(l), x, Text(r));
    ParseText(l, level);
    ParseText(r, level + 1);
  }

  lemma {:induction false} ParseWhole(e: Expr)
    requires WellParsed(e)
    ensures Parse(Text(e)) == Tree(e)
    decreases e, 3
  {
    if Level(e) > 0 {
      ParseText(e, 1);
      TextStartsTight(e);
    }
  }

  lemma {:induction false} TextStartsTight(e: Expr)
    requires WellParsed(e) && Level(e) > 0
    ensures !(|Text(e)| == 1 && Text(e)[0].Low?)
  {
    match e
    case Or(l, r) => assert OrOr in Text(e);
    case And(l, r) => assert AndAnd in Text(e);
    case Compare(op, l, r) => assert Op(op) in Text(e);
    case _ =>
  }

  // ----- the inverter's text denotes the inverter's tree -----

  lemma {:induction false} JoinOrText(x: Expr, y: Expr)
    requires WellParsed(x) && WellParsed(y) && Level(x) >= 1 && Level(y) >= 1
    ensures Text(JoinOr(x, y)) == Text(x) + [OrOr] + Text(y)
    ensures WellParsed(JoinOr(x, y)) && Level(JoinOr(x, y)) == 1
    decreases y
  {
    if y.Or? {
      JoinOrText(x, y.left);
      assert Text(x) + [OrOr] + Text(y) == Text(x) + [OrOr] + Text(y.left) + [OrOr] + Text(y.right);
    }
  }

  lemma {:induction false} JoinAndText(x: Expr, y: Expr)
    requires WellParsed(x) && WellParsed(y) && Level(x) >= 2 && Level(y) >= 2
    ensures Text(JoinAnd(x, y)) == Text(x) + [AndAnd] + Text(y)
    ensures WellParsed(JoinAnd(x, y)) && Level(JoinAnd(x, y)) == 2
    decreases y
  {
    if y.And? {
      JoinAndText(x, y.left);
      assert Text(x) + [AndAnd] + Text(y) == Text(x) + [AndAnd] + Text(y.left) + [AndAnd] + Text(y.right);
    }
  }

  /** What the induction below knows of an operand. */
  predicate Denoted(e: Expr) {
    && NegateText(e).text == Text(Negate(e).tree) && NegateText(e).prec == Negate(e).prec
    && WellParsed(Negate(e).tree) && Level(Negate(e).tree) >= 1
    && (Negate(e).prec >= PREC_AND ==> Level(Negate(e).tree) >= 2)
  }

  lemma {:induction false} WrapDenoted(e: Expr)
    requires Denoted(e)
    ensures WrapText(NegateText(e), PREC_AND) == Text(Wrap(Negate(e), PREC_AND))
    ensures WellParsed(Wrap(Negate(e), PREC_AND)) && Level(Wrap(Negate(e), PREC_AND)) >= 2
  {
  }

  lemma {:induction false} NegateOrText(l: Expr, r: Expr)
    requires Denoted(l) && Denoted(r)
    ensures NegateText(Or(l, r)).text == Text(Negate(Or(l, r)).tree)
    ensures WellParsed(Negate(Or(l, r)).tree) && Level(Negate(Or(l, r)).tree) >= 2
  {
    WrapDenoted(l);
    WrapDenoted(r);
    JoinAndText(Wrap(Negate(l), PREC_AND), Wrap(Negate(r), PREC_AND));
    assert Negate(Or(l, r)).tree == JoinAnd(Wrap(Negate(l), PREC_AND), Wrap(Negate(r), PREC_AND));
  }

  /** The text is that of the negated tree, the tree is one a parser produces, and the precedence never overstates. */
  lemma {:induction false} NegateTextDenotes(e: Expr)
    requires WellParsed(e)
    ensures NegateText(e).text == Text(Negate(e).tree) && NegateText(e).prec == Negate(e).prec
    ensures WellParsed(Negate(e).tree) && Level(Negate(e).tree) >= 1
    ensures Negate(e).prec >= PREC_AND ==> Level(Negate(e).tree) >= 2
    decreases e
  {
    match e
    case Paren(inner) => NegateTextDenotes(inner);
    case And(l, r) =>
      NegateTextDenotes(l);
      NegateTextDenotes(r);
      JoinOrText(Negate(l).tree, Negate(r).tree);
    case Or(l, r) =>
      NegateTextDenotes(l);
      NegateTextDenotes(r);
      NegateOrText(l, r);
    case Compare(op, l, r) =>
    case Not(operand) =>
    case _ =>
      assert [Bang, Open] + Text(e) + [Close] == [Bang] + ([Open] + Text(e) + [Close]);
  }

  lemma {:induction false} JoinTextsDenote(guards: seq<Expr>)
    requires guards != [] && forall g :: g in guards ==> WellParsed(g)
    ensures JoinTexts(guards) == Text(JoinWrapped(guards))
    ensures WellParsed(JoinWrapped(guards)) && Level(JoinWrapped(guards)) >= 2
    decreases |guards|
  {
    var n := |guards| - 1;
    WrapTextDenotes(guards[n]);
    if n > 0 {
      JoinTextsDenote(guards[..n]);
      JoinAndText(JoinWrapped(guards[..n]), Wrap(Negate(guards[n]), PREC_AND));
    }
  }

  /** A wrapped negation reads as an operand of `&&`. */
  lemma {:induction false} WrapTextDenotes(e: Expr)
    requires WellParsed(e)
    ensures WrapText(NegateText(e), PREC_AND) == Text(Wrap(Negate(e), PREC_AND))
    ensures WellParsed(Wrap(Negate(e), PREC_AND)) && Level(Wrap(Negate(e), PREC_AND)) >= 2
  {
    NegateTextDenotes(e);
  }

  /** The condition written for a list of guards parses, and to exactly the tree that decides them. */
  lemma {:induction false} CombinedTextParses(guards: seq<Expr>)
    requires guards != [] && forall g :: g in guards ==> WellParsed(g)
    ensures Parse(CombineTexts(guards)) == Tree(CombineGuards(guards))
  {
    if |guards| == 1 {
      NegateTextDenotes(guards[0]);
    } else {
      JoinTextsDenote(guards);
    }
    ParseWhole(CombineGuards(guards));
  }

  /** Guard inversion end to end: read back the written condition, and it is true exactly when no guard returns. */
  lemma {:induction false} WrittenConditionDecides(w: World, guards: seq<Expr>, f: Frame, st: State)
    requires guards != [] && (forall g :: g in guards ==> WellParsed(g)) && GuardsOrdered(w, guards, f, st)
    ensures Parse(CombineTexts(guards)).Tree?
    ensures Decides(RunGuards(w, guards, f, st), Eval(w, Parse(CombineTexts(guards)).e, f, st))
  {
    CombinedTextParses(guards);
    CombineGuardsDecides(w, guards, f, st);
  }
}
