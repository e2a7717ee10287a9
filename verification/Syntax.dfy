/** Tokens, syntax trees, the precedence table, and the grammar that the
    single-pass compiler follows. The compiler itself builds no tree: the trees
    here say what a token sequence means, so that the code emitted for it can be
    stated and proved. */
module Syntax {

  // Values that literals denote and that programs compute with. [Obj] stands for
  // every heap value.
  datatype Value = Null | False | True | Num(n: int) | Str(s: string) | Obj(id: nat) {
    predicate Falsy() { Null? || False? }
  }

  datatype BinaryOp =
    | DotDot | DotDotDot | Star | Slash | Percent | Plus | Minus | LtLt | GtGt
    | Pipe | Caret | Amp | Lt | Gt | LtEq | GtEq | EqEq | BangEq | Is

  datatype UnaryOp = Neg | Not | Complement

  datatype Token =
    | LeftParen | RightParen | LeftBrace | RightBrace | Colon | Dot | Question | Equal
    | AmpAmp | PipePipe | Bang | Tilde | Operator(op: BinaryOp)
    | Literal(value: Value) | Name(name: string)
    | Break | Continue | Else | For | If | In | Return | Var | While
    | Line | Eof

  datatype Expr =
    | Lit(value: Value)
    | Variable(name: string)
    | Assign(name: string, rhs: Expr)
    | Unary(uop: UnaryOp, operand: Expr)
    | Binary(op: BinaryOp, left: Expr, right: Expr)
    | And(left: Expr, right: Expr)
    | Or(left: Expr, right: Expr)
    | Cond(test: Expr, yes: Expr, no: Expr)
    | Get(receiver: Expr, name: string)
    | Set(receiver: Expr, name: string, rhs: Expr)

  datatype Stmt =
    | Skip
    | Seq(first: Stmt, rest: Stmt)
    | Evaluate(e: Expr)
    | Declare(name: string, init: Expr)
    | Block(body: Stmt)
    | IfThen(cond: Expr, yes: Stmt)
    | IfElse(cond: Expr, yes: Stmt, no: Stmt)
    | Loop(cond: Expr, body: Stmt)
    | ForIn(name: string, sequence: Expr, body: Stmt)
    | BreakLoop
    | ContinueLoop
    | Give(e: Expr)

  // What is between the braces of a function: an expression, whose value the
  // function returns, or statements.
  datatype Body = Result(e: Expr) | Statements(s: Stmt)

  // Definitions bind a name in the enclosing block, so they cannot be the body of
  // an if or a loop.
  predicate IsStatement(s: Stmt) {
    !s.Declare? && !s.Seq? && !s.Skip?
  }

  predicate WellFormed(s: Stmt) {
    match s
    case Seq(first, rest) => WellFormed(first) && WellFormed(rest)
    case Block(body) => WellFormed(body)
    case IfThen(_, yes) => IsStatement(yes) && WellFormed(yes)
    case IfElse(_, yes, no) => IsStatement(yes) && WellFormed(yes) && IsStatement(no) && WellFormed(no)
    case Loop(_, body) => IsStatement(body) && WellFormed(body)
    case ForIn(_, _, body) => IsStatement(body) && WellFormed(body)
    case _ => true
  }

  // ----- Precedences -----

  const NONE := 0
  const LOWEST := 1
  const ASSIGNMENT := 2
  const CONDITIONAL := 3
  const LOGICAL_OR := 4
  const LOGICAL_AND := 5
  const EQUALITY := 6
  const IS := 7
  const COMPARISON := 8
  const BITWISE_OR := 9
  const BITWISE_XOR := 10
  const BITWISE_AND := 11
  const BITWISE_SHIFT := 12
  const RANGE := 13
  const TERM := 14
  const FACTOR := 15
  const UNARY := 16
  const CALL := 17
  const PRIMARY := 18

  function OpPrecedence(op: BinaryOp): (r: int)
    ensures EQUALITY <= r <= FACTOR
  {
    match op
    case DotDot => RANGE
    case DotDotDot => RANGE
    case Star => FACTOR
    case Slash => FACTOR
    case Percent => FACTOR
    case Plus => TERM
    case Minus => TERM
    case LtLt => BITWISE_SHIFT
    case GtGt => BITWISE_SHIFT
    case Pipe => BITWISE_OR
    case Caret => BITWISE_XOR
    case Amp => BITWISE_AND
    case Lt => COMPARISON
    case Gt => COMPARISON
    case LtEq => COMPARISON
    case GtEq => COMPARISON
    case EqEq => EQUALITY
    case BangEq => EQUALITY
    case Is => IS
  }

  // The precedence with which a token continues an expression as an infix.
  function InfixPrecedence(t: Token): int {
    match t
    case Operator(op) => OpPrecedence(op)
    case AmpAmp => LOGICAL_AND
    case PipePipe => LOGICAL_OR
    case Question => ASSIGNMENT
    case Dot => CALL
    case _ => NONE
  }

  // ----- Token streams -----

  function Peek(toks: seq<Token>): Token {
    if toks == [] then Eof else toks[0]
  }

  function SkipLines(toks: seq<Token>): (r: seq<Token>)
    ensures |r| <= |toks|
  {
    if Peek(toks) == Line then SkipLines(toks[1..]) else toks
  }

  // A newline between a name (or call) and a following "." is ignored.
  function LineBeforeDot(toks: seq<Token>): (r: seq<Token>)
    ensures |r| <= |toks|
  {
    if |toks| >= 2 && toks[0] == Line && toks[1] == Dot then toks[1..] else toks
  }

  // ----- Expressions -----

  datatype Parsed<T> = Fail | Ok(value: T, rest: seq<Token>)

  function ParsePrecedence(p: int, toks: seq<Token>): (r: Parsed<Expr>)
    ensures r.Ok? ==> |r.rest| < |toks|
    decreases |toks|, 2
  {
    var prefix := ParsePrefix(p <= CONDITIONAL, toks);
    if prefix.Fail? then Fail else ParseInfixes(p, prefix.value, prefix.rest)
  }

  function ParseExpression(toks: seq<Token>): (r: Parsed<Expr>)
    ensures r.Ok? ==> |r.rest| < |toks|
    decreases |toks|, 3
  {
    ParsePrecedence(LOWEST, toks)
  }

  function PrefixOp(t: Token): (r: Parsed<UnaryOp>) {
    match t
    case Bang => Ok(Not, [])
    case Tilde => Ok(Complement, [])
    case Operator(op) => if op == Minus then Ok(Neg, []) else Fail
    case _ => Fail
  }

  function ParsePrefix(canAssign: bool, toks: seq<Token>): (r: Parsed<Expr>)
    ensures r.Ok? ==> |r.rest| < |toks|
    decreases |toks|, 1
  {
    if toks == [] then Fail
    else
      var after := toks[1..];
      match toks[0]
      case LeftParen =>
        var inner := ParsePrecedence(LOWEST, after);
        if inner.Ok? && Peek(inner.rest) == RightParen then Ok(inner.value, inner.rest[1..]) else Fail
      case Literal(v) => Ok(Lit(v), after)
      case Name(x) =>
        if canAssign && Peek(after) == Equal then
          var rhs := ParsePrecedence(LOWEST, after[1..]);
          if rhs.Ok? then Ok(Assign(x, rhs.value), rhs.rest) else Fail
        else
          Ok(Variable(x), LineBeforeDot(after))
      case t =>
        var uop := PrefixOp(t);
        if uop.Fail? then Fail
        else
          var operand := ParsePrecedence(CALL, SkipLines(after));
          if operand.Ok? then Ok(Unary(uop.value, operand.value), operand.rest) else Fail
  }

  // Extends [left] by every infix whose precedence is at least [p].
  function ParseInfixes(p: int, left: Expr, toks: seq<Token>): (r: Parsed<Expr>)
    ensures r.Ok? ==> |r.rest| <= |toks|
    decreases |toks|, 0
  {
    if toks == [] || p > InfixPrecedence(toks[0]) then Ok(left, toks)
    else
      var step := ParseInfix(p <= CONDITIONAL, left, toks);
      if step.Fail? then Fail else ParseInfixes(p, step.value, step.rest)
  }

  // One infix applied to [left].
  function ParseInfix(canAssign: bool, left: Expr, toks: seq<Token>): (r: Parsed<Expr>)
    requires toks != []
    ensures r.Ok? ==> |r.rest| < |toks|
    decreases |toks|, 0, 0
  {
    var after := SkipLines(toks[1..]);
    match toks[0]
    case Operator(op) =>
      var right := ParsePrecedence(OpPrecedence(op) + 1, after);
      if right.Ok? then Ok(Binary(op, left, right.value), right.rest) else Fail
    case AmpAmp =>
      var right := ParsePrecedence(LOGICAL_AND, after);
      if right.Ok? then Ok(And(left, right.value), right.rest) else Fail
    case PipePipe =>
      var right := ParsePrecedence(LOGICAL_OR, after);
      if right.Ok? then Ok(Or(left, right.value), right.rest) else Fail
    case Question =>
      var yes := ParsePrecedence(CONDITIONAL, after);
      if yes.Fail? || Peek(yes.rest) != Colon then Fail
      else
        var no := ParsePrecedence(ASSIGNMENT, SkipLines(yes.rest[1..]));
        if no.Ok? then Ok(Cond(left, yes.value, no.value), no.rest) else Fail
    case Dot =>
      if !Peek(after).Name? then Fail
      else
        var name, next := after[0].name, after[1..];
        if canAssign && Peek(next) == Equal then
          var rhs := ParsePrecedence(LOWEST, SkipLines(next[1..]));
          if rhs.Ok? then Ok(Set(left, name, rhs.value), rhs.rest) else Fail
        else if Peek(next) == LeftParen || Peek(next) == LeftBrace then
          Fail // calls with argument lists are not part of this model
        else
          Ok(Get(left, name), LineBeforeDot(next))
    case _ => Fail
  }

  // ----- Statements -----

  function Expect(t: Token, toks: seq<Token>): (r: Parsed<()>)
    ensures r.Ok? ==> |r.rest| < |toks|
  {
    if toks != [] && toks[0] == t then Ok((), toks[1..]) else Fail
  }

  // A parenthesised condition.
  function ParseCondition(toks: seq<Token>): (r: Parsed<Expr>)
    ensures r.Ok? ==> |r.rest| < |toks|
  {
    var open := Expect(LeftParen, toks);
    if open.Fail? then Fail
    else
      var cond := ParseExpression(open.rest);
      if cond.Fail? then Fail
      else
        var close := Expect(RightParen, cond.rest);
        if close.Fail? then Fail else Ok(cond.value, close.rest)
  }

  // The head "(name in sequence)" of a for statement.
  function ParseForHead(toks: seq<Token>): (r: Parsed<(string, Expr)>)
    ensures r.Ok? ==> |r.rest| < |toks|
  {
    if |toks| < 3 || toks[0] != LeftParen || !toks[1].Name? || toks[2] != In then Fail
    else
      var sequence := ParseExpression(SkipLines(toks[3..]));
      if sequence.Fail? then Fail
      else
        var close := Expect(RightParen, sequence.rest);
        if close.Fail? then Fail else Ok((toks[1].name, sequence.value), close.rest)
  }

  function ParseStatement(toks: seq<Token>): (r: Parsed<Stmt>)
    ensures r.Ok? ==> |r.rest| < |toks| && IsStatement(r.value) && WellFormed(r.value)
    decreases |toks|, 0
  {
    if toks == [] then Fail
    else
      var after := toks[1..];
      match toks[0]
      case Break => Ok(BreakLoop, after)
      case Continue => Ok(ContinueLoop, after)
      case For =>
        var head := ParseForHead(after);
        if head.Fail? then Fail
        else
          var body := ParseStatement(head.rest);
          if body.Ok? then Ok(ForIn(head.value.0, head.value.1, body.value), body.rest) else Fail
      case If =>
        var cond := ParseCondition(after);
        if cond.Fail? then Fail
        else
          var yes := ParseStatement(cond.rest);
          if yes.Fail? then Fail
          else if Peek(yes.rest) == Else then
            var no := ParseStatement(yes.rest[1..]);
            if no.Ok? then Ok(IfElse(cond.value, yes.value, no.value), no.rest) else Fail
          else
            Ok(IfThen(cond.value, yes.value), yes.rest)
      case Return =>
        if Peek(after) == Line then Ok(Give(Lit(Null)), after)
        else
          var e := ParseExpression(after);
          if e.Ok? then Ok(Give(e.value), e.rest) else Fail
      case While =>
        var cond := ParseCondition(after);
        if cond.Fail? then Fail
        else
          var body := ParseStatement(cond.rest);
          if body.Ok? then Ok(Loop(cond.value, body.value), body.rest) else Fail
      case LeftBrace =>
        var body := ParseBlock(after);
        if body.Ok? then Ok(Block(body.value), body.rest) else Fail
      case _ =>
        var e := ParseExpression(toks);
        if e.Ok? then Ok(Evaluate(e.value), e.rest) else Fail
  }

  // A block in statement position, after its "{". A block that is one expression
  // discards its value.
  function ParseBlock(toks: seq<Token>): (r: Parsed<Stmt>)
    ensures r.Ok? ==> |r.rest| < |toks| && WellFormed(r.value)
    decreases |toks|, 4
  {
    var r := ParseBody(toks);
    match r
    case Fail => Fail
    case Ok(Result(e), rest) => Ok(Evaluate(e), rest)
    case Ok(Statements(s), rest) => Ok(s, rest)
  }

  // A block or function body, after its "{".
  function ParseBody(toks: seq<Token>): (r: Parsed<Body>)
    ensures r.Ok? ==> |r.rest| < |toks| && (r.value.Statements? ==> WellFormed(r.value.s))
    decreases |toks|, 3
  {
    if Peek(toks) == RightBrace then Ok(Statements(Skip), toks[1..])
    else if Peek(toks) != Line then
      var e := ParseExpression(toks);
      if e.Ok? && Peek(e.rest) == RightBrace then Ok(Result(e.value), e.rest[1..]) else Fail
    else
      var body := SkipLines(toks);
      if Peek(body) == RightBrace then Ok(Statements(Skip), body[1..])
      else
        var s := ParseDefinitions(body);
        if s.Ok? then Ok(Statements(s.value), s.rest) else Fail
  }

  // One or more definitions, each ended by a newline, up to the closing "}".
  function ParseDefinitions(toks: seq<Token>): (r: Parsed<Stmt>)
    ensures r.Ok? ==> |r.rest| < |toks| && WellFormed(r.value)
    decreases |toks|, 2
  {
    var first := ParseDefinition(toks);
    if first.Fail? || Peek(first.rest) != Line then Fail
    else
      var next := SkipLines(first.rest);
      if Peek(next) == RightBrace then Ok(first.value, next[1..])
      else
        var rest := ParseDefinitions(next);
        if rest.Ok? then Ok(Seq(first.value, rest.value), rest.rest) else Fail
  }

  function ParseDefinition(toks: seq<Token>): (r: Parsed<Stmt>)
    ensures r.Ok? ==> |r.rest| < |toks| && WellFormed(r.value)
    decreases |toks|, 1
  {
    if Peek(toks) != Var then ParseStatement(toks)
    else if |toks| < 2 || !toks[1].Name? then Fail
    else if Peek(toks[2..]) == Equal then
      var init := ParseExpression(SkipLines(toks[3..]));
      if init.Ok? then Ok(Declare(toks[1].name, init.value), init.rest) else Fail
    else
      Ok(Declare(toks[1].name, Lit(Null)), toks[2..])
  }
}
