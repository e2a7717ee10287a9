/** The rows of the grammar, as sets of operators, and what they mean for an expression
    with two operators in a row. */
module Grammar {
  import opened Syntax
  import opened Pratt

  // The operators between two operands, from the loosest row to the tightest.
  const ROWS: seq<set<Token>> := [
    {PipePipe},
    {AmpAmp},
    {Operator(EqEq), Operator(BangEq)},
    {Operator(Is)},
    {Operator(Lt), Operator(Gt), Operator(LtEq), Operator(GtEq)},
    {Operator(Pipe)},
    {Operator(Caret)},
    {Operator(Amp)},
    {Operator(LtLt), Operator(GtGt)},
    {Operator(DotDot), Operator(DotDotDot)},
    {Operator(Plus), Operator(Minus)},
    {Operator(Star), Operator(Slash), Operator(Percent)}]

  // The operators before an operand.
  const PREFIXES: set<Token> := {Operator(Minus), Bang, Tilde}

  predicate IsInfix(t: Token) {
    t == PipePipe || t == AmpAmp || t.Operator?
  }

  predicate Tighter(t: Token, u: Token) {
    exists i, j :: 0 <= i < j < |ROWS| && u in ROWS[i] && t in ROWS[j]
  }

  predicate SameRow(t: Token, u: Token) {
    exists i :: 0 <= i < |ROWS| && t in ROWS[i] && u in ROWS[i]
  }

  function Infix(t: Token, l: Expr, r: Expr): Expr
    requires IsInfix(t)
  {
    match t
    case PipePipe => Or(l, r)
    case AmpAmp => And(l, r)
    case Operator(op) => Binary(op, l, r)
  }

  function Prefix(t: Token, e: Expr): Expr
    requires t in PREFIXES
  {
    Unary(if t == Bang then Not else if t == Tilde then Complement else Neg, e)
  }

  // What can follow an expression: nothing that continues it.
  predicate Stops(rest: seq<Token>) {
    rest == [] || rest[0] == RightParen || rest[0] == RightBrace || rest[0] == Colon || rest[0] == Eof
    || (rest[0] == Line && (|rest| == 1 || rest[1] != Dot))
  }

  // Every operator is in one row, which has its level.
  lemma RowOf(t: Token)
    requires IsInfix(t)
    ensures 0 <= InfixPrecedence(t) - LOGICAL_OR < |ROWS|
    ensures forall i :: 0 <= i < |ROWS| ==> (t in ROWS[i] <==> i == InfixPrecedence(t) - LOGICAL_OR)
  {
    match t
    case PipePipe =>
    case AmpAmp =>
    case Operator(op) =>
      forall i | 0 <= i < |ROWS| ensures t in ROWS[i] <==> i == InfixPrecedence(t) - LOGICAL_OR {
        RowOfOperator(op, i);
      }
  }

  lemma RowOfOperator(op: BinaryOp, i: nat)
    requires i < |ROWS|
    ensures Operator(op) in ROWS[i] <==> OpPrecedence(op) == LOGICAL_OR + i
  {
    if i < 5 {
    } else if i < 9 {
    } else {
    }
  }

  lemma TighterLevel(t: Token, u: Token)
    requires IsInfix(t) && IsInfix(u)
    ensures Tighter(t, u) <==> InfixPrecedence(u) < InfixPrecedence(t)
    ensures SameRow(t, u) <==> InfixPrecedence(u) == InfixPrecedence(t)
  {
    hide InfixPrecedence;
    RowOf(t);
    RowOf(u);
    var i, j := InfixPrecedence(u) - LOGICAL_OR, InfixPrecedence(t) - LOGICAL_OR;
    assert u in ROWS[i] && t in ROWS[j];
  }

  // An expression whose tokens are those that the printer writes.
  lemma Reads(e: Expr, toks: seq<Token>, rest: seq<Token>)
    requires Print(e, LOWEST) == toks && Stops(rest)
    ensures ParseExpression(toks + rest) == Ok(e, rest)
  {
    ParsePrint(e, rest);
  }

  lemma PrintName(x: string, q: int)
    requires q <= PRIMARY
    ensures Print(Variable(x), q) == [Name(x)]
  {
  }

  // The level at which the operands of an operator are printed.
  function LeftLevel(t: Token): int {
    InfixPrecedence(t) + if t.Operator? then 0 else 1
  }

  function RightLevel(t: Token): int {
    InfixPrecedence(t) + if t.Operator? then 1 else 0
  }

  lemma PrintInfix(t: Token, l: Expr, r: Expr, q: int)
    requires IsInfix(t) && q <= InfixPrecedence(t)
    ensures Print(Infix(t, l, r), q) == Print(l, LeftLevel(t)) + ([t] + Print(r, RightLevel(t)))
  {
    hide OpPrecedence;
    var e := Infix(t, l, r);
    assert Level(e) == InfixPrecedence(t);
    assert Print(e, q) == PrintBare(e);
  }

  lemma Levels(t: Token)
    requires IsInfix(t)
    ensures LOGICAL_OR <= InfixPrecedence(t) <= LeftLevel(t) <= PRIMARY
    ensures InfixPrecedence(t) <= RightLevel(t) <= PRIMARY
  {
  }

  // Two operators between names group to the right exactly when the second is in a
  // tighter row, or both are && or both are ||.
  lemma TwoInfixes(t: Token, u: Token, a: string, b: string, c: string, rest: seq<Token>)
    requires IsInfix(t) && IsInfix(u) && Stops(rest)
    ensures var x, y, z := Variable(a), Variable(b), Variable(c);
            ParseExpression([Name(a), t, Name(b), u, Name(c)] + rest)
            == Ok(if Tighter(u, t) || (t == u && !t.Operator?) then Infix(t, x, Infix(u, y, z))
                  else Infix(u, Infix(t, x, y), z), rest)
  {
    hide Print, Infix, ParseExpression, Tighter, InfixPrecedence, Stops;
    TighterLevel(u, t);
    SameLogical(t, u);
    Levels(t);
    Levels(u);
    var x, y, z := Variable(a), Variable(b), Variable(c);
    PrintName(a, LeftLevel(t));
    PrintName(b, RightLevel(t));
    PrintName(b, LeftLevel(u));
    PrintName(c, RightLevel(u));
    PrintInfix(t, x, y, LOWEST);
    PrintInfix(u, y, z, LOWEST);
    var toks := [Name(a), t, Name(b), u, Name(c)];
    if Tighter(u, t) || (t == u && !t.Operator?) {
      PrintInfix(u, y, z, RightLevel(t));
      PrintInfix(t, x, Infix(u, y, z), LOWEST);
      Reads(Infix(t, x, Infix(u, y, z)), toks, rest);
    } else {
      PrintInfix(t, x, y, LeftLevel(u));
      PrintInfix(u, Infix(t, x, y), z, LOWEST);
      Reads(Infix(u, Infix(t, x, y), z), toks, rest);
    }
  }

  lemma SameLogical(t: Token, u: Token)
    requires IsInfix(t) && IsInfix(u)
    ensures !t.Operator? ==> (t == u <==> InfixPrecedence(t) == InfixPrecedence(u))
  {
  }

  // Every infix is tighter than "?:", in each of its operands, and "?:" groups to the
  // right.
  lemma WithConditional(t: Token, a: string, b: string, c: string, d: string, e: string, rest: seq<Token>)
    requires IsInfix(t) && Stops(rest)
    ensures var w, x, y, z := Variable(a), Variable(b), Variable(c), Variable(d);
            && ParseExpression([Name(a), t, Name(b), Question, Name(c), Colon, Name(d)] + rest)
               == Ok(Cond(Infix(t, w, x), y, z), rest)
            && ParseExpression([Name(a), Question, Name(b), t, Name(c), Colon, Name(d)] + rest)
               == Ok(Cond(w, Infix(t, x, y), z), rest)
            && ParseExpression([Name(a), Question, Name(b), Colon, Name(c), t, Name(d)] + rest)
               == Ok(Cond(w, x, Infix(t, y, z)), rest)
            && ParseExpression([Name(a), Question, Name(b), Colon, Name(c), Question, Name(d), Colon, Name(e)] + rest)
               == Ok(Cond(w, x, Cond(y, z, Variable(e))), rest)
  {
    hide Print, Infix, ParseExpression, InfixPrecedence, Stops;
    Levels(t);
    NamesPrint(t, a);
    NamesPrint(t, b);
    NamesPrint(t, c);
    NamesPrint(t, d);
    NamesPrint(t, e);
    var w, x, y, z := Variable(a), Variable(b), Variable(c), Variable(d);
    PrintInfix(t, w, x, CONDITIONAL + 1);
    PrintCond(Infix(t, w, x), y, z, LOWEST);
    Reads(Cond(Infix(t, w, x), y, z), [Name(a), t, Name(b), Question, Name(c), Colon, Name(d)], rest);
    PrintInfix(t, x, y, CONDITIONAL);
    PrintCond(w, Infix(t, x, y), z, LOWEST);
    Reads(Cond(w, Infix(t, x, y), z), [Name(a), Question, Name(b), t, Name(c), Colon, Name(d)], rest);
    PrintInfix(t, y, z, ASSIGNMENT);
    PrintCond(w, x, Infix(t, y, z), LOWEST);
    Reads(Cond(w, x, Infix(t, y, z)), [Name(a), Question, Name(b), Colon, Name(c), t, Name(d)], rest);
    PrintCond(y, z, Variable(e), ASSIGNMENT);
    PrintCond(w, x, Cond(y, z, Variable(e)), LOWEST);
    Reads(Cond(w, x, Cond(y, z, Variable(e))),
          [Name(a), Question, Name(b), Colon, Name(c), Question, Name(d), Colon, Name(e)], rest);
  }

  lemma NamesPrint(t: Token, x: string)
    requires IsInfix(t)
    ensures forall q :: q <= PRIMARY ==> Print(Variable(x), q) == [Name(x)]
  {
  }

  lemma PrintCond(c: Expr, y: Expr, n: Expr, q: int)
    requires q <= ASSIGNMENT
    ensures Print(Cond(c, y, n), q)
            == Print(c, CONDITIONAL + 1) + ([Question] + (Print(y, CONDITIONAL) + ([Colon] + Print(n, ASSIGNMENT))))
  {
    assert Print(Cond(c, y, n), q) == PrintBare(Cond(c, y, n));
  }

  // A prefix takes one operand, with its calls, and no infix.
  lemma WithPrefix(p: Token, t: Token, a: string, b: string, c: string, x: string, rest: seq<Token>)
    requires p in PREFIXES && IsInfix(t) && Stops(rest)
    ensures var u, v, w := Variable(a), Variable(b), Variable(c);
            && ParseExpression([p, Name(a), t, Name(b)] + rest) == Ok(Infix(t, Prefix(p, u), v), rest)
            && ParseExpression([Name(a), t, p, Name(b)] + rest) == Ok(Infix(t, u, Prefix(p, v)), rest)
            && ParseExpression([p, Name(a), Question, Name(b), Colon, Name(c)] + rest)
               == Ok(Cond(Prefix(p, u), v, w), rest)
            && ParseExpression([p, Name(a), Dot, Name(x)] + rest) == Ok(Prefix(p, Get(u, x)), rest)
  {
    hide Print, Infix, ParseExpression, InfixPrecedence, Stops, Prefix;
    Levels(t);
    CallLevel(t);
    NamesPrint(t, a);
    NamesPrint(t, b);
    NamesPrint(t, c);
    var u, v, w := Variable(a), Variable(b), Variable(c);
    PrintPrefix(p, u, LeftLevel(t));
    PrintPrefix(p, v, RightLevel(t));
    PrintPrefix(p, u, CONDITIONAL + 1);
    PrintInfix(t, Prefix(p, u), v, LOWEST);
    Reads(Infix(t, Prefix(p, u), v), [p, Name(a), t, Name(b)], rest);
    PrintInfix(t, u, Prefix(p, v), LOWEST);
    Reads(Infix(t, u, Prefix(p, v)), [Name(a), t, p, Name(b)], rest);
    PrintCond(Prefix(p, u), v, w, LOWEST);
    Reads(Cond(Prefix(p, u), v, w), [p, Name(a), Question, Name(b), Colon, Name(c)], rest);
    PrintGet(u, x, CALL);
    PrintPrefix(p, Get(u, x), LOWEST);
    Reads(Prefix(p, Get(u, x)), [p, Name(a), Dot, Name(x)], rest);
  }

  lemma PrintPrefix(p: Token, e: Expr, q: int)
    requires p in PREFIXES && q <= UNARY && !e.Unary?
    ensures Print(Prefix(p, e), q) == [p] + Print(e, CALL)
  {
    assert Print(Prefix(p, e), q) == PrintBare(Prefix(p, e));
  }

  lemma PrintGet(e: Expr, x: string, q: int)
    requires q <= CALL
    ensures Print(Get(e, x), q) == Print(e, CALL) + [Dot, Name(x)]
  {
    assert Print(Get(e, x), q) == PrintBare(Get(e, x));
  }

  // A call is tighter than every infix.
  lemma WithCall(t: Token, a: string, b: string, c: string, x: string, y: string, rest: seq<Token>)
    requires IsInfix(t) && Stops(rest)
    ensures var u, v, w := Variable(a), Variable(b), Variable(c);
            && ParseExpression([Name(a), Dot, Name(x), t, Name(b)] + rest) == Ok(Infix(t, Get(u, x), v), rest)
            && ParseExpression([Name(a), t, Name(b), Dot, Name(x)] + rest) == Ok(Infix(t, u, Get(v, x)), rest)
            && ParseExpression([Name(a), Dot, Name(x), Question, Name(b), Colon, Name(c)] + rest)
               == Ok(Cond(Get(u, x), v, w), rest)
            && ParseExpression([Name(a), Dot, Name(x), Dot, Name(y)] + rest) == Ok(Get(Get(u, x), y), rest)
  {
    hide Print, Infix, ParseExpression, InfixPrecedence, Stops;
    Levels(t);
    CallLevel(t);
    NamesPrint(t, a);
    NamesPrint(t, b);
    NamesPrint(t, c);
    var u, v, w := Variable(a), Variable(b), Variable(c);
    PrintGet(u, x, LeftLevel(t));
    PrintGet(v, x, RightLevel(t));
    PrintGet(u, x, CONDITIONAL + 1);
    PrintGet(u, x, CALL);
    PrintInfix(t, Get(u, x), v, LOWEST);
    Reads(Infix(t, Get(u, x), v), [Name(a), Dot, Name(x), t, Name(b)], rest);
    PrintInfix(t, u, Get(v, x), LOWEST);
    Reads(Infix(t, u, Get(v, x)), [Name(a), t, Name(b), Dot, Name(x)], rest);
    PrintCond(Get(u, x), v, w, LOWEST);
    Reads(Cond(Get(u, x), v, w), [Name(a), Dot, Name(x), Question, Name(b), Colon, Name(c)], rest);
    PrintGet(Get(u, x), y, LOWEST);
    Reads(Get(Get(u, x), y), [Name(a), Dot, Name(x), Dot, Name(y)], rest);
  }

  lemma CallLevel(t: Token)
    requires IsInfix(t)
    ensures LeftLevel(t) <= UNARY && RightLevel(t) <= UNARY
  {
  }

  // The right side of an assignment is everything that follows.
  lemma WithAssignment(t: Token, a: string, b: string, c: string, x: string, rest: seq<Token>)
    requires IsInfix(t) && Stops(rest)
    ensures var u, v, w := Variable(a), Variable(b), Variable(c);
            && ParseExpression([Name(x), Equal, Name(a), t, Name(b)] + rest) == Ok(Assign(x, Infix(t, u, v)), rest)
            && ParseExpression([Name(x), Equal, Name(a), Question, Name(b), Colon, Name(c)] + rest)
               == Ok(Assign(x, Cond(u, v, w)), rest)
            && ParseExpression([Name(c), Dot, Name(x), Equal, Name(a), t, Name(b)] + rest)
               == Ok(Set(w, x, Infix(t, u, v)), rest)
  {
    hide Print, Infix, ParseExpression, InfixPrecedence, Stops;
    Levels(t);
    NamesPrint(t, a);
    NamesPrint(t, b);
    NamesPrint(t, c);
    var u, v, w := Variable(a), Variable(b), Variable(c);
    PrintInfix(t, u, v, LOWEST);
    PrintAssign(x, Infix(t, u, v));
    Reads(Assign(x, Infix(t, u, v)), [Name(x), Equal, Name(a), t, Name(b)], rest);
    PrintCond(u, v, w, LOWEST);
    PrintAssign(x, Cond(u, v, w));
    Reads(Assign(x, Cond(u, v, w)), [Name(x), Equal, Name(a), Question, Name(b), Colon, Name(c)], rest);
    PrintSet(w, x, Infix(t, u, v));
    Reads(Set(w, x, Infix(t, u, v)), [Name(c), Dot, Name(x), Equal, Name(a), t, Name(b)], rest);
  }

  lemma PrintAssign(x: string, e: Expr)
    ensures Print(Assign(x, e), LOWEST) == [Name(x), Equal] + Print(e, LOWEST)
  {
  }

  lemma PrintSet(r: Expr, x: string, e: Expr)
    ensures Print(Set(r, x, e), LOWEST) == Print(r, CALL) + ([Dot, Name(x), Equal] + Print(e, LOWEST))
  {
  }
}
