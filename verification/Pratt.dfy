/** A printer that writes parentheses only where the precedence table asks for
    them, and the proof that the Pratt parser inverts it. */
module Pratt {
  import opened Syntax

  // The tightest precedence at which [e] may stand without parentheses.
  function Level(e: Expr): (r: int)
    ensures LOWEST < r <= PRIMARY
  {
    match e
    case Lit(_) => PRIMARY
    case Variable(_) => PRIMARY
    case Assign(_, _) => CONDITIONAL
    case Set(_, _, _) => CONDITIONAL
    case Cond(_, _, _) => ASSIGNMENT
    case Or(_, _) => LOGICAL_OR
    case And(_, _) => LOGICAL_AND
    case Binary(op, _, _) => OpPrecedence(op)
    case Unary(_, _) => UNARY
    case Get(_, _) => CALL
  }

  function UnaryToken(uop: UnaryOp): Token {
    match uop
    case Neg => Operator(Minus)
    case Not => Bang
    case Complement => Tilde
  }

  // Writes [e] where an operand of precedence at least [q] is expected.
  function Print(e: Expr, q: int): seq<Token>
    decreases e, 1
  {
    if q > Level(e) then [LeftParen] + PrintBare(e) + [RightParen] else PrintBare(e)
  }

  function PrintBare(e: Expr): seq<Token>
    decreases e, 0
  {
    match e
    case Lit(v) => [Literal(v)]
    case Variable(x) => [Name(x)]
    case Assign(x, rhs) => [Name(x), Equal] + Print(rhs, LOWEST)
    case Unary(uop, operand) => [UnaryToken(uop)] + Print(operand, OperandLevel(operand))
    case Binary(op, l, r) => Print(l, OpPrecedence(op)) + ([Operator(op)] + Print(r, OpPrecedence(op) + 1))
    case And(l, r) => Print(l, LOGICAL_AND + 1) + ([AmpAmp] + Print(r, LOGICAL_AND))
    case Or(l, r) => Print(l, LOGICAL_OR + 1) + ([PipePipe] + Print(r, LOGICAL_OR))
    case Cond(c, t, f) =>
      Print(c, CONDITIONAL + 1) + ([Question] + (Print(t, CONDITIONAL) + ([Colon] + Print(f, ASSIGNMENT))))
    case Get(r, name) => Print(r, CALL) + [Dot, Name(name)]
    case Set(r, name, rhs) => Print(r, CALL) + ([Dot, Name(name), Equal] + Print(rhs, LOWEST))
  }

  // A prefix operator applied directly to another prefix operator needs no
  // parentheses, although the operand is parsed at the precedence of calls.
  function OperandLevel(operand: Expr): int {
    if operand.Unary? then UNARY else CALL
  }

  predicate LeftAssociative(q: int) {
    EQUALITY <= q <= FACTOR || q == CALL
  }

  // An operand printed at precedence [q] ends where [rest] begins.
  predicate Ends(q: int, rest: seq<Token>) {
    var t := Peek(rest);
    && t != Equal && t != LeftParen && t != LeftBrace
    && !(t == Line && |rest| >= 2 && rest[1] == Dot)
    && (InfixPrecedence(t) < q || (InfixPrecedence(t) == q && LeftAssociative(q)))
    && (q <= CONDITIONAL ==> InfixPrecedence(t) == NONE)
  }

  // An operand printed at [q] may be parsed at [p] when [rest] follows it.
  predicate Parsable(p: int, q: int, e: Expr, rest: seq<Token>) {
    LOWEST <= p && q <= PRIMARY && (p <= q || (e.Unary? && q == UNARY)) && Ends(q, rest)
  }

  lemma PrintStarts(e: Expr, q: int, rest: seq<Token>)
    ensures |Print(e, q)| > 0 && Print(e, q)[0] != Line
    ensures SkipLines(Print(e, q) + rest) == Print(e, q) + rest
    decreases e
  {
    match e
    case Binary(op, l, _) => PrintStarts(l, OpPrecedence(op), []);
    case And(l, _) => PrintStarts(l, LOGICAL_AND + 1, []);
    case Or(l, _) => PrintStarts(l, LOGICAL_OR + 1, []);
    case Cond(c, _, _) => PrintStarts(c, CONDITIONAL + 1, []);
    case Get(r, _) => PrintStarts(r, CALL, []);
    case Set(r, _, _) => PrintStarts(r, CALL, []);
    case _ =>
  }

  lemma Regroup(a: seq<Token>, t: Token, b: seq<Token>, rest: seq<Token>)
    ensures a + ([t] + b) + rest == a + ([t] + (b + rest))
  {
  }

  // Only the token after an operand decides whether the operand ends there.
  lemma ParsableBefore(p: int, q: int, e: Expr, t: Token, right: seq<Token>)
    requires Parsable(p, q, e, [t]) && t != Line
    ensures Parsable(p, q, e, [t] + right)
  {
  }

  // An operand parsed at its own precedence, inside an operand that ends at [rest].
  lemma {:induction false} ParseOperand(q: int, k: int, e: Expr, rest: seq<Token>)
    requires LOWEST <= k <= PRIMARY && Ends(q, rest) && InfixPrecedence(Peek(rest)) < k
    requires k <= CONDITIONAL ==> q <= CONDITIONAL || Peek(rest) == Colon
    ensures SkipLines(Print(e, k) + rest) == Print(e, k) + rest
    ensures ParsePrecedence(k, Print(e, k) + rest) == Ok(e, rest)
    decreases e, 3
  {
    PrintStarts(e, k, rest);
    ParsePrinted(k, k, e, rest);
  }

  lemma {:induction false} ParenthesesStep(p: int, e: Expr, inner: seq<Token>, rest: seq<Token>)
    requires ParsePrecedence(LOWEST, inner) == Ok(e, [RightParen] + rest)
    ensures ParsePrecedence(p, [LeftParen] + inner) == ParseInfixes(p, e, rest)
  {
    var toks := [LeftParen] + inner;
    assert toks[1..] == inner && ([RightParen] + rest)[1..] == rest;
    assert ParsePrefix(p <= CONDITIONAL, toks) == Ok(e, rest) by { hide ParsePrecedence; }
    hide ParsePrefix, ParseInfixes;
  }

  // Parsing a printed operand at any looser precedence yields the operand and
  // goes on with the infixes that follow it.
  lemma {:induction false} ParsePrinted(p: int, q: int, e: Expr, rest: seq<Token>)
    requires Parsable(p, q, e, rest)
    ensures ParsePrecedence(p, Print(e, q) + rest) == ParseInfixes(p, e, rest)
    decreases e, 2
  {
    if q > Level(e) {
      ParseParenthesized(p, q, e, rest);
    } else {
      assert Print(e, q) == PrintBare(e);
      hide ParsePrecedence, ParseInfixes, Print, PrintBare;
      ParseBare(p, q, e, rest);
    }
  }

  lemma {:induction false} ParseParenthesized(p: int, q: int, e: Expr, rest: seq<Token>)
    requires q > Level(e)
    ensures ParsePrecedence(p, Print(e, q) + rest) == ParseInfixes(p, e, rest)
    decreases e, 1
  {
    var after := [RightParen] + rest;
    var inner := PrintBare(e) + after;
    assert Print(e, q) + rest == [LeftParen] + inner;
    assert Parsable(LOWEST, LOWEST, e, after);
    assert ParseInfixes(LOWEST, e, after) == Ok(e, after);
    hide *;
    ParseBare(LOWEST, LOWEST, e, after);
    ParenthesesStep(p, e, inner, rest);
  }

  lemma {:induction false} ParseBare(p: int, q: int, e: Expr, rest: seq<Token>)
    requires Parsable(p, q, e, rest) && q <= Level(e)
    ensures ParsePrecedence(p, PrintBare(e) + rest) == ParseInfixes(p, e, rest)
    decreases e, 0
  {
    match e
    case Lit(v) =>
    case Variable(x) =>
    case Assign(x, rhs) => ParseAssign(p, q, x, rhs, rest);
    case Unary(uop, operand) => ParseUnary(p, q, uop, operand, rest);
    case Binary(op, l, r) => ParseBinary(p, q, op, l, r, rest);
    case And(l, r) => ParseAnd(p, q, l, r, rest);
    case Or(l, r) => ParseOr(p, q, l, r, rest);
    case Cond(c, t, f) => ParseConditional(p, q, c, t, f, rest);
    case Get(r, name) => ParseGetter(p, q, r, name, rest);
    case Set(r, name, rhs) => ParseSetter(p, q, r, name, rhs, rest);
  }

  // A prefix form whose last operand [operand] is parsed at precedence [level].
  lemma {:induction false} AssignStep(p: int, x: string, rhs: Expr, right: seq<Token>, rest: seq<Token>)
    requires p <= CONDITIONAL
    requires ParsePrecedence(LOWEST, right) == Ok(rhs, rest)
    ensures ParsePrecedence(p, [Name(x), Equal] + right) == ParseInfixes(p, Assign(x, rhs), rest)
  {
    var toks := [Name(x), Equal] + right;
    assert toks[1..][1..] == right;
    assert ParsePrefix(true, toks) == Ok(Assign(x, rhs), rest) by { hide ParsePrecedence; }
    hide ParsePrefix, ParseInfixes;
  }

  lemma {:induction false} ParseAssign(p: int, q: int, x: string, rhs: Expr, rest: seq<Token>)
    requires LOWEST <= p <= q <= CONDITIONAL
    requires Ends(q, rest)
    ensures ParsePrecedence(p, PrintBare(Assign(x, rhs)) + rest) == ParseInfixes(p, Assign(x, rhs), rest)
    decreases Assign(x, rhs), 0, 0
  {
    var right := Print(rhs, LOWEST) + rest;
    assert PrintBare(Assign(x, rhs)) + rest == [Name(x), Equal] + right;
    ParseOperand(q, LOWEST, rhs, rest);
    hide *;
    AssignStep(p, x, rhs, right, rest);
  }

  lemma {:induction false} UnaryStep(p: int, uop: UnaryOp, operand: Expr, right: seq<Token>, rest: seq<Token>)
    requires SkipLines(right) == right && ParsePrecedence(CALL, right) == Ok(operand, rest)
    ensures ParsePrecedence(p, [UnaryToken(uop)] + right) == ParseInfixes(p, Unary(uop, operand), rest)
  {
    var toks := [UnaryToken(uop)] + right;
    assert toks[1..] == right;
    assert ParsePrefix(p <= CONDITIONAL, toks) == Ok(Unary(uop, operand), rest) by { hide ParsePrecedence; }
    hide ParsePrefix, ParseInfixes;
  }

  lemma {:induction false} ParseUnary(p: int, q: int, uop: UnaryOp, operand: Expr, rest: seq<Token>)
    requires LOWEST <= p && q <= UNARY && (p <= q || q == UNARY)
    requires Ends(q, rest)
    ensures ParsePrecedence(p, PrintBare(Unary(uop, operand)) + rest) == ParseInfixes(p, Unary(uop, operand), rest)
    decreases operand, 3
  {
    var level := OperandLevel(operand);
    var right := Print(operand, level) + rest;
    assert PrintBare(Unary(uop, operand)) + rest == [UnaryToken(uop)] + right;
    assert Parsable(CALL, level, operand, rest) && InfixPrecedence(Peek(rest)) < CALL;
    assert ParsePrecedence(CALL, right) == Ok(operand, rest) by { ParsePrinted(CALL, level, operand, rest); }
    PrintStarts(operand, level, rest);
    hide *;
    UnaryStep(p, uop, operand, right, rest);
  }

  lemma {:induction false} GetterStep(p: int, r: Expr, name: string, rest: seq<Token>)
    requires p <= CALL && Ends(CALL, rest)
    ensures ParseInfixes(p, r, [Dot, Name(name)] + rest) == ParseInfixes(p, Get(r, name), rest)
  {
    var toks := [Dot, Name(name)] + rest;
    assert toks[1..][1..] == rest && toks[1..][0] == Name(name);
    assert ParseInfix(p <= CONDITIONAL, r, toks) == Ok(Get(r, name), rest) by { hide ParsePrecedence; }
    hide ParsePrecedence, ParseInfix;
  }

  lemma {:induction false} ParseGetter(p: int, q: int, r: Expr, name: string, rest: seq<Token>)
    requires LOWEST <= p <= q <= CALL
    requires Ends(q, rest)
    ensures ParsePrecedence(p, PrintBare(Get(r, name)) + rest) == ParseInfixes(p, Get(r, name), rest)
    decreases Get(r, name), 0, 0
  {
    assert PrintBare(Get(r, name)) + rest == Print(r, CALL) + ([Dot, Name(name)] + rest);
    assert Parsable(p, CALL, r, [Dot, Name(name)] + rest) && Ends(CALL, rest);
    hide *;
    ParsePrinted(p, CALL, r, [Dot, Name(name)] + rest);
    GetterStep(p, r, name, rest);
  }

  // How a binary operator is printed, and what its operands may be parsed at.
  lemma BinaryForm(p: int, q: int, op: BinaryOp, l: Expr, r: Expr, rest: seq<Token>)
    requires LOWEST <= p <= q <= OpPrecedence(op) && Ends(q, rest)
    ensures PrintBare(Binary(op, l, r))
            == Print(l, OpPrecedence(op)) + ([Operator(op)] + Print(r, OpPrecedence(op) + 1))
    ensures Parsable(p, OpPrecedence(op), l, [Operator(op)])
    ensures LOWEST <= OpPrecedence(op) + 1 <= PRIMARY && InfixPrecedence(Peek(rest)) < OpPrecedence(op) + 1
    ensures CONDITIONAL < OpPrecedence(op)
  {
    hide Print;
  }

  lemma {:induction false} BinaryStep(p: int, op: BinaryOp, l: Expr, r: Expr, right: seq<Token>, rest: seq<Token>)
    requires p <= OpPrecedence(op)
    requires SkipLines(right) == right && ParsePrecedence(OpPrecedence(op) + 1, right) == Ok(r, rest)
    ensures ParseInfixes(p, l, [Operator(op)] + right) == ParseInfixes(p, Binary(op, l, r), rest)
  {
    var toks := [Operator(op)] + right;
    assert toks[1..] == right;
    assert ParseInfix(p <= CONDITIONAL, l, toks) == Ok(Binary(op, l, r), rest) by { hide ParsePrecedence; }
    hide ParsePrecedence, ParseInfix;
  }

  lemma {:induction false} ParseBinary(p: int, q: int, op: BinaryOp, l: Expr, r: Expr, rest: seq<Token>)
    requires LOWEST <= p <= q <= OpPrecedence(op)
    requires Ends(q, rest)
    ensures ParsePrecedence(p, PrintBare(Binary(op, l, r)) + rest) == ParseInfixes(p, Binary(op, l, r), rest)
    decreases Binary(op, l, r), 0, 0
  {
    BinaryForm(p, q, op, l, r, rest);
    hide *;
    var right := Print(r, OpPrecedence(op) + 1) + rest;
    Regroup(Print(l, OpPrecedence(op)), Operator(op), Print(r, OpPrecedence(op) + 1), rest);
    ParsableBefore(p, OpPrecedence(op), l, Operator(op), right);
    ParseOperand(q, OpPrecedence(op) + 1, r, rest);
    ParsePrinted(p, OpPrecedence(op), l, [Operator(op)] + right);
    BinaryStep(p, op, l, r, right, rest);
  }

  lemma {:induction false} AndStep(p: int, l: Expr, r: Expr, right: seq<Token>, rest: seq<Token>)
    requires p <= LOGICAL_AND
    requires SkipLines(right) == right && ParsePrecedence(LOGICAL_AND, right) == Ok(r, rest)
    ensures ParseInfixes(p, l, [AmpAmp] + right) == ParseInfixes(p, And(l, r), rest)
  {
    var toks := [AmpAmp] + right;
    assert toks[1..] == right;
    assert ParseInfix(p <= CONDITIONAL, l, toks) == Ok(And(l, r), rest) by { hide ParsePrecedence; }
    hide ParsePrecedence, ParseInfix;
  }

  lemma {:induction false} ParseAnd(p: int, q: int, l: Expr, r: Expr, rest: seq<Token>)
    requires LOWEST <= p <= q <= LOGICAL_AND
    requires Ends(q, rest)
    ensures ParsePrecedence(p, PrintBare(And(l, r)) + rest) == ParseInfixes(p, And(l, r), rest)
    decreases And(l, r), 0, 0
  {
    var right := Print(r, LOGICAL_AND) + rest;
    assert PrintBare(And(l, r)) == Print(l, LOGICAL_AND + 1) + ([AmpAmp] + Print(r, LOGICAL_AND));
    Regroup(Print(l, LOGICAL_AND + 1), AmpAmp, Print(r, LOGICAL_AND), rest);
    ParsableBefore(p, LOGICAL_AND + 1, l, AmpAmp, right);
    ParseOperand(q, LOGICAL_AND, r, rest);
    hide *;
    ParsePrinted(p, LOGICAL_AND + 1, l, [AmpAmp] + right);
    AndStep(p, l, r, right, rest);
  }

  lemma {:induction false} OrStep(p: int, l: Expr, r: Expr, right: seq<Token>, rest: seq<Token>)
    requires p <= LOGICAL_OR
    requires SkipLines(right) == right && ParsePrecedence(LOGICAL_OR, right) == Ok(r, rest)
    ensures ParseInfixes(p, l, [PipePipe] + right) == ParseInfixes(p, Or(l, r), rest)
  {
    var toks := [PipePipe] + right;
    assert toks[1..] == right;
    assert ParseInfix(p <= CONDITIONAL, l, toks) == Ok(Or(l, r), rest) by { hide ParsePrecedence; }
    hide ParsePrecedence, ParseInfix;
  }

  lemma {:induction false} ParseOr(p: int, q: int, l: Expr, r: Expr, rest: seq<Token>)
    requires LOWEST <= p <= q <= LOGICAL_OR
    requires Ends(q, rest)
    ensures ParsePrecedence(p, PrintBare(Or(l, r)) + rest) == ParseInfixes(p, Or(l, r), rest)
    decreases Or(l, r), 0, 0
  {
    var right := Print(r, LOGICAL_OR) + rest;
    assert PrintBare(Or(l, r)) == Print(l, LOGICAL_OR + 1) + ([PipePipe] + Print(r, LOGICAL_OR));
    Regroup(Print(l, LOGICAL_OR + 1), PipePipe, Print(r, LOGICAL_OR), rest);
    ParsableBefore(p, LOGICAL_OR + 1, l, PipePipe, right);
    ParseOperand(q, LOGICAL_OR, r, rest);
    hide *;
    ParsePrinted(p, LOGICAL_OR + 1, l, [PipePipe] + right);
    OrStep(p, l, r, right, rest);
  }

  lemma {:induction false} SetterStep(p: int, r: Expr, name: string, rhs: Expr, right: seq<Token>, rest: seq<Token>)
    requires p <= CONDITIONAL
    requires SkipLines(right) == right && ParsePrecedence(LOWEST, right) == Ok(rhs, rest)
    ensures ParseInfixes(p, r, [Dot, Name(name), Equal] + right) == ParseInfixes(p, Set(r, name, rhs), rest)
  {
    var toks := [Dot, Name(name), Equal] + right;
    assert toks[1..][1..][1..] == right && toks[1..][0] == Name(name);
    assert ParseInfix(true, r, toks) == Ok(Set(r, name, rhs), rest) by { hide ParsePrecedence; }
    hide ParsePrecedence, ParseInfix;
  }

  lemma {:induction false} ParseSetter(p: int, q: int, r: Expr, name: string, rhs: Expr, rest: seq<Token>)
    requires LOWEST <= p <= q <= CONDITIONAL
    requires Ends(q, rest)
    ensures ParsePrecedence(p, PrintBare(Set(r, name, rhs)) + rest) == ParseInfixes(p, Set(r, name, rhs), rest)
    decreases Set(r, name, rhs), 0, 0
  {
    var right := Print(rhs, LOWEST) + rest;
    assert PrintBare(Set(r, name, rhs)) + rest == Print(r, CALL) + ([Dot, Name(name), Equal] + right);
    assert Parsable(p, CALL, r, [Dot, Name(name), Equal] + right) && Ends(LOWEST, rest);
    ParseOperand(q, LOWEST, rhs, rest);
    hide *;
    ParsePrinted(p, CALL, r, [Dot, Name(name), Equal] + right);
    SetterStep(p, r, name, rhs, right, rest);
  }

  lemma {:induction false} ConditionalStep(
      p: int, c: Expr, t: Expr, f: Expr, yes: seq<Token>, no: seq<Token>, rest: seq<Token>)
    requires p <= ASSIGNMENT
    requires SkipLines(yes) == yes && ParsePrecedence(CONDITIONAL, yes) == Ok(t, [Colon] + no)
    requires SkipLines(no) == no && ParsePrecedence(ASSIGNMENT, no) == Ok(f, rest)
    ensures ParseInfixes(p, c, [Question] + yes) == ParseInfixes(p, Cond(c, t, f), rest)
  {
    var toks := [Question] + yes;
    assert toks[1..] == yes && ([Colon] + no)[1..] == no;
    assert ParseInfix(p <= CONDITIONAL, c, toks) == Ok(Cond(c, t, f), rest) by { hide ParsePrecedence; }
    hide ParsePrecedence, ParseInfix;
  }

  lemma {:induction false} ParseConditional(p: int, q: int, c: Expr, t: Expr, f: Expr, rest: seq<Token>)
    requires LOWEST <= p <= q <= ASSIGNMENT
    requires Ends(q, rest)
    ensures ParsePrecedence(p, PrintBare(Cond(c, t, f)) + rest) == ParseInfixes(p, Cond(c, t, f), rest)
    decreases Cond(c, t, f), 0, 0
  {
    var no := Print(f, ASSIGNMENT) + rest;
    var yes := Print(t, CONDITIONAL) + ([Colon] + no);
    assert PrintBare(Cond(c, t, f)) + rest == Print(c, CONDITIONAL + 1) + ([Question] + yes);
    assert Parsable(p, CONDITIONAL + 1, c, [Question] + yes) && Ends(LOGICAL_OR, [Colon] + no)
        && Ends(ASSIGNMENT, rest);
    ParseOperand(LOGICAL_OR, CONDITIONAL, t, [Colon] + no);
    ParseOperand(q, ASSIGNMENT, f, rest);
    hide *;
    ParsePrinted(p, CONDITIONAL + 1, c, [Question] + yes);
    ConditionalStep(p, c, t, f, yes, no, rest);
  }

  // The Pratt parser inverts the minimal-parenthesis printer.
  lemma {:induction false} ParsePrint(e: Expr, rest: seq<Token>)
    requires Ends(LOWEST, rest)
    ensures ParseExpression(Print(e, LOWEST) + rest) == Ok(e, rest)
  {
    ParsePrinted(LOWEST, LOWEST, e, rest);
  }

  // So different trees are never written alike.
  lemma PrintInjective(a: Expr, b: Expr)
    ensures Print(a, LOWEST) == Print(b, LOWEST) ==> a == b
  {
    ParsePrint(a, [Eof]);
    ParsePrint(b, [Eof]);
  }

  // ----- No parentheses are superfluous -----

  // An expression that starts with an operand, and the precedence of what follows that.
  predicate IsInfix(e: Expr) {
    e.Binary? || e.And? || e.Or? || e.Cond? || e.Get? || e.Set?
  }

  function TopPrecedence(e: Expr): int
    requires IsInfix(e)
  {
    match e
    case Binary(op, _, _) => OpPrecedence(op)
    case And(_, _) => LOGICAL_AND
    case Or(_, _) => LOGICAL_OR
    case Cond(_, _, _) => ASSIGNMENT
    case Get(_, _) => CALL
    case Set(_, _, _) => CALL
  }

  // The first operand, and the level at which it is printed.
  function FirstOperand(e: Expr): (r: (Expr, int))
    requires IsInfix(e)
    ensures r.0 < e
  {
    match e
    case Binary(op, l, _) => (l, OpPrecedence(op))
    case And(l, _) => (l, LOGICAL_AND + 1)
    case Or(l, _) => (l, LOGICAL_OR + 1)
    case Cond(c, _, _) => (c, CONDITIONAL + 1)
    case Get(r, _) => (r, CALL)
    case Set(r, _, _) => (r, CALL)
  }

  // What the loop adds to an operand has at least the precedence it runs at.
  lemma {:induction false} InfixesGrow(p: int, left: Expr, toks: seq<Token>)
    ensures var r := ParseInfixes(p, left, toks);
            r.Ok? ==>
                  r.value == left
                      || (IsInfix(r.value) && TopPrecedence(r.value) >= p && (r.value.Set? ==> p <= CONDITIONAL))
    decreases |toks|
  {
    if toks != [] && p <= InfixPrecedence(toks[0]) {
      InfixGrows(p <= CONDITIONAL, left, toks);
      hide ParseInfix;
      var step := ParseInfix(p <= CONDITIONAL, left, toks);
      if step.Ok? { InfixesGrow(p, step.value, step.rest); }
    }
  }

  lemma InfixGrows(canAssign: bool, left: Expr, toks: seq<Token>)
    requires toks != []
    ensures var r := ParseInfix(canAssign, left, toks);
            r.Ok? ==>
                  IsInfix(r.value) && TopPrecedence(r.value) == InfixPrecedence(toks[0]) && (r.value.Set? ==> canAssign)
  {
    hide ParsePrecedence, SkipLines, LineBeforeDot;
  }

  // What stands before the rest of a printed infix expression is not all of it.
  lemma {:induction false} PrefixSmaller(canAssign: bool, e: Expr, rest: seq<Token>)
    requires IsInfix(e)
    ensures var r := ParsePrefix(canAssign, PrintBare(e) + rest); r.Ok? ==> !IsInfix(r.value) || r.value < e
    decreases e
  {
    hide *;
    var l, k := FirstOperand(e).0, FirstOperand(e).1;
    var more := FirstPrinted(e, rest);
    PrintedForm(l, k);
    if k > Level(l) {
      GroupFirst(canAssign, l, more);
    } else if IsInfix(l) {
      PrefixSmaller(canAssign, l, more);
    } else {
      NoGroup(l, more);
      PlainPrefix(canAssign, PrintBare(l) + more);
    }
  }

  lemma GroupFirst(canAssign: bool, l: Expr, more: seq<Token>)
    ensures ParsePrefix(canAssign, [LeftParen] + PrintBare(l) + [RightParen] + more) == Ok(l, more)
  {
    hide ParsePrefix, PrintBare, Print, ParsePrecedence, ParseInfixes;
    var after := [RightParen] + more;
    ParsePrinted(LOWEST, LOWEST, l, after);
    PrintedForm(l, LOWEST);
    GroupPrefix(canAssign, l, PrintBare(l) + after, more);
    assert [LeftParen] + PrintBare(l) + [RightParen] + more == [LeftParen] + (PrintBare(l) + after);
  }

  // What follows the first operand.
  function AfterFirst(e: Expr): seq<Token>
    requires IsInfix(e)
  {
    match e
    case Binary(op, _, r) => [Operator(op)] + Print(r, OpPrecedence(op) + 1)
    case And(_, r) => [AmpAmp] + Print(r, LOGICAL_AND)
    case Or(_, r) => [PipePipe] + Print(r, LOGICAL_OR)
    case Cond(_, t, f) => [Question] + (Print(t, CONDITIONAL) + ([Colon] + Print(f, ASSIGNMENT)))
    case Get(_, name) => [Dot, Name(name)]
    case Set(_, name, rhs) => [Dot, Name(name), Equal] + Print(rhs, LOWEST)
  }

  lemma FirstPrinted(e: Expr, rest: seq<Token>) returns (more: seq<Token>)
    requires IsInfix(e)
    ensures PrintBare(e) + rest == Print(FirstOperand(e).0, FirstOperand(e).1) + more
  {
    FirstForm(e);
    hide *;
    more := AfterFirst(e) + rest;
  }

  lemma FirstForm(e: Expr)
    requires IsInfix(e)
    ensures PrintBare(e) == Print(FirstOperand(e).0, FirstOperand(e).1) + AfterFirst(e)
  {
    hide Print;
  }

  lemma PrintedForm(e: Expr, q: int)
    ensures Print(e, q) == if q > Level(e) then [LeftParen] + PrintBare(e) + [RightParen] else PrintBare(e)
  {
  }

  lemma GroupPrefix(canAssign: bool, e: Expr, inner: seq<Token>, rest: seq<Token>)
    requires ParsePrecedence(LOWEST, inner) == ParseInfixes(LOWEST, e, [RightParen] + rest)
    ensures ParsePrefix(canAssign, [LeftParen] + inner) == Ok(e, rest)
  {
    var toks := [LeftParen] + inner;
    assert toks[1..] == inner && ([RightParen] + rest)[1..] == rest;
    assert ParseInfixes(LOWEST, e, [RightParen] + rest) == Ok(e, [RightParen] + rest);
    hide ParsePrecedence, ParseInfixes;
  }

  lemma NoGroup(e: Expr, more: seq<Token>)
    requires !IsInfix(e)
    ensures PrintBare(e) != [] && (PrintBare(e) + more)[0] != LeftParen
  {
    hide Print;
  }

  lemma PlainPrefix(canAssign: bool, toks: seq<Token>)
    requires toks != [] && toks[0] != LeftParen
    ensures var r := ParsePrefix(canAssign, toks); r.Ok? ==> !IsInfix(r.value)
  {
    hide ParsePrecedence, SkipLines, LineBeforeDot;
  }

  // Where the printer writes parentheses around an operand, the operand is not read back
  // without them. Only a prefix operator is, which the parser takes at any precedence;
  // it has parentheses as the receiver of a getter or setter.
  lemma ParenthesesNeeded(q: int, e: Expr, rest: seq<Token>)
    requires Level(e) < q <= PRIMARY && !e.Unary?
    ensures ParsePrecedence(q, PrintBare(e) + rest) != Ok(e, rest)
  {
    var toks := PrintBare(e) + rest;
    var prefix := ParsePrefix(q <= CONDITIONAL, toks);
    assert ParsePrecedence(q, toks) == if prefix.Fail? then Fail else ParseInfixes(q, prefix.value, prefix.rest);
    if prefix.Ok? {
      InfixesGrow(q, prefix.value, prefix.rest);
      if IsInfix(e) {
        PrefixSmaller(q <= CONDITIONAL, e, rest);
      } else {
        AssignPrefix(e, rest);
      }
    }
  }

  lemma AssignPrefix(e: Expr, rest: seq<Token>)
    requires e.Assign?
    ensures var r := ParsePrefix(false, PrintBare(e) + rest); r.Ok? && r.value.Variable?
  {
    hide Print, ParsePrecedence, LineBeforeDot;
    assert (PrintBare(e) + rest)[0] == Name(e.name);
  }
}
