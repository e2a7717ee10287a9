/** A printer for statements, and the proof that the parser inverts it. */
module Statements {
  import opened Syntax
  import opened Pratt

  // An "else" right after the statement would belong to it.
  predicate Open(s: Stmt) {
    match s
    case IfThen(_, _) => true
    case IfElse(_, _, no) => Open(no)
    case Loop(_, body) => Open(body)
    case ForIn(_, _, body) => Open(body)
    case _ => false
  }

  // A tree that can be written: what is between braces is a list of definitions, and an
  // "else" belongs to its "if".
  predicate Writable(s: Stmt)
    decreases s, 0
  {
    match s
    case Skip => false
    case Seq(_, _) => false
    case Declare(_, _) => true
    case Block(body) => body.Skip? || WritableList(body)
    case IfThen(_, yes) => IsStatement(yes) && Writable(yes)
    case IfElse(_, yes, no) => IsStatement(yes) && Writable(yes) && !Open(yes) && IsStatement(no) && Writable(no)
    case Loop(_, body) => IsStatement(body) && Writable(body)
    case ForIn(_, _, body) => IsStatement(body) && Writable(body)
    case _ => true
  }

  predicate WritableList(s: Stmt)
    decreases s, 1
  {
    if s.Seq? then Writable(s.first) && WritableList(s.rest) else Writable(s)
  }

  function Write(s: Stmt): seq<Token>
    requires Writable(s)
    decreases s, 0
  {
    match s
    case Evaluate(e) => Print(e, LOWEST)
    case Declare(x, init) => [Var, Name(x), Equal] + Print(init, LOWEST)
    case Block(body) => [LeftBrace] + WriteBody(body)
    case IfThen(c, yes) => [If, LeftParen] + (Print(c, LOWEST) + ([RightParen] + Write(yes)))
    case IfElse(c, yes, no) =>
      [If, LeftParen] + (Print(c, LOWEST) + ([RightParen] + (Write(yes) + ([Else] + Write(no)))))
    case Loop(c, body) => [While, LeftParen] + (Print(c, LOWEST) + ([RightParen] + Write(body)))
    case ForIn(x, e, body) =>
      [For, LeftParen, Name(x), In] + (Print(e, LOWEST) + ([RightParen] + Write(body)))
    case BreakLoop => [Break]
    case ContinueLoop => [Continue]
    case Give(e) => [Return] + Print(e, LOWEST)
  }

  // What is after the "{".
  function WriteBody(s: Stmt): seq<Token>
    requires s.Skip? || WritableList(s)
    decreases s, 2
  {
    if s.Skip? then [RightBrace] else [Line] + WriteList(s)
  }

  // A line for each definition.
  function WriteList(s: Stmt): seq<Token>
    requires WritableList(s)
    decreases s, 1
  {
    if s.Seq? then Write(s.first) + ([Line] + WriteList(s.rest)) else Write(s) + [Line, RightBrace]
  }

  // ----- How a written statement starts -----

  predicate StartsWell(toks: seq<Token>) {
    toks != [] && toks[0] != Line && toks[0] != RightBrace && toks[0] != Dot
  }

  predicate StartsExpression(t: Token) {
    t == LeftParen || t.Literal? || t.Name? || t == Operator(Minus) || t == Bang || t == Tilde
  }

  lemma {:induction false} PrintStart(e: Expr, q: int)
    ensures Print(e, q) != [] && StartsExpression(Print(e, q)[0])
    decreases e
  {
    match e
    case Binary(op, l, _) => PrintStart(l, OpPrecedence(op));
    case And(l, _) => PrintStart(l, LOGICAL_AND + 1);
    case Or(l, _) => PrintStart(l, LOGICAL_OR + 1);
    case Cond(c, _, _) => PrintStart(c, CONDITIONAL + 1);
    case Get(r, _) => PrintStart(r, CALL);
    case Set(r, _, _) => PrintStart(r, CALL);
    case _ =>
  }

  lemma WriteStart(s: Stmt)
    requires Writable(s)
    ensures StartsWell(Write(s)) && (Write(s)[0] == Var <==> s.Declare?)
  {
    hide Print;
    match s
    case Evaluate(e) => PrintStart(e, LOWEST);
    case _ =>
  }

  lemma WriteListStart(s: Stmt)
    requires WritableList(s)
    ensures StartsWell(WriteList(s))
  {
    hide Write, Writable;
    WriteStart(if s.Seq? then s.first else s);
  }

  // ----- Parts of statements -----

  lemma ConditionRead(c: Expr, rest: seq<Token>)
    ensures ParseCondition([LeftParen] + (Print(c, LOWEST) + ([RightParen] + rest))) == Ok(c, rest)
  {
    hide Print, ParseExpression;
    var toks := [LeftParen] + (Print(c, LOWEST) + ([RightParen] + rest));
    ParsePrint(c, [RightParen] + rest);
    assert toks[1..] == Print(c, LOWEST) + ([RightParen] + rest) && ([RightParen] + rest)[1..] == rest;
  }

  lemma HeadRead(x: string, e: Expr, rest: seq<Token>)
    ensures ParseForHead([LeftParen, Name(x), In] + (Print(e, LOWEST) + ([RightParen] + rest))) == Ok((x, e), rest)
  {
    hide Print, ParseExpression, SkipLines;
    var inner := Print(e, LOWEST) + ([RightParen] + rest);
    var toks := [LeftParen, Name(x), In] + inner;
    ParsePrint(e, [RightParen] + rest);
    PrintStarts(e, LOWEST, [RightParen] + rest);
    assert toks[3..] == inner && ([RightParen] + rest)[1..] == rest;
  }

  // ----- Reading back what is written -----

  lemma {:induction false} ReadWritten(s: Stmt, rest: seq<Token>)
    requires Writable(s) && IsStatement(s) && Ends(LOWEST, rest) && (Open(s) ==> Peek(rest) != Else)
    ensures ParseStatement(Write(s) + rest) == Ok(s, rest)
    decreases s, 0
  {
    match s
    case Evaluate(e) => ReadEvaluate(e, rest);
    case Block(body) => ReadBlock(body, rest);
    case IfThen(c, yes) => ReadIfThen(c, yes, rest);
    case IfElse(c, yes, no) => ReadIfElse(c, yes, no, rest);
    case Loop(c, body) => ReadLoop(c, body, rest);
    case ForIn(x, e, body) => ReadFor(x, e, body, rest);
    case BreakLoop => assert ([Break] + rest)[1..] == rest;
    case ContinueLoop => assert ([Continue] + rest)[1..] == rest;
    case Give(e) => ReadGive(e, rest);
  }

  lemma ReadEvaluate(e: Expr, rest: seq<Token>)
    requires Ends(LOWEST, rest)
    ensures ParseStatement(Print(e, LOWEST) + rest) == Ok(Evaluate(e), rest)
  {
    hide Print, ParseExpression;
    ParsePrint(e, rest);
    PrintStart(e, LOWEST);
    assert (Print(e, LOWEST) + rest)[0] == Print(e, LOWEST)[0];
  }

  lemma ReadGive(e: Expr, rest: seq<Token>)
    requires Ends(LOWEST, rest)
    ensures ParseStatement([Return] + Print(e, LOWEST) + rest) == Ok(Give(e), rest)
  {
    hide Print, ParseExpression;
    ParsePrint(e, rest);
    PrintStart(e, LOWEST);
    var toks := [Return] + Print(e, LOWEST) + rest;
    assert toks[1..] == Print(e, LOWEST) + rest && toks[1..][0] == Print(e, LOWEST)[0];
  }

  // Statements with parts, given what the parts are read as.
  lemma IfRead(after: seq<Token>, c: Expr, r1: seq<Token>, yes: Stmt, r2: seq<Token>)
    requires ParseCondition(after) == Ok(c, r1) && ParseStatement(r1) == Ok(yes, r2)
    ensures Peek(r2) != Else ==> ParseStatement([If] + after) == Ok(IfThen(c, yes), r2)
    ensures Peek(r2) == Else && ParseStatement(r2[1..]).Ok? ==>
              var no := ParseStatement(r2[1..]);
              ParseStatement([If] + after) == Ok(IfElse(c, yes, no.value), no.rest)
  {
    hide ParseCondition;
    assert ([If] + after)[1..] == after;
  }

  lemma LoopRead(after: seq<Token>, c: Expr, r1: seq<Token>, body: Stmt, r2: seq<Token>)
    requires ParseCondition(after) == Ok(c, r1) && ParseStatement(r1) == Ok(body, r2)
    ensures ParseStatement([While] + after) == Ok(Loop(c, body), r2)
  {
    hide ParseCondition;
    assert ([While] + after)[1..] == after;
  }

  lemma ForRead(after: seq<Token>, x: string, e: Expr, r1: seq<Token>, body: Stmt, r2: seq<Token>)
    requires ParseForHead(after) == Ok((x, e), r1) && ParseStatement(r1) == Ok(body, r2)
    ensures ParseStatement([For] + after) == Ok(ForIn(x, e, body), r2)
  {
    hide ParseForHead;
    assert ([For] + after)[1..] == after;
  }

  lemma {:induction false} ReadIfThen(c: Expr, yes: Stmt, rest: seq<Token>)
    requires Writable(IfThen(c, yes)) && Ends(LOWEST, rest) && Peek(rest) != Else
    ensures ParseStatement(Write(IfThen(c, yes)) + rest) == Ok(IfThen(c, yes), rest)
    decreases yes, 1
  {
    hide Print, ParseCondition, Ends, ParseStatement;
    var after := [LeftParen] + (Print(c, LOWEST) + ([RightParen] + (Write(yes) + rest)));
    ReadWritten(yes, rest);
    ConditionRead(c, Write(yes) + rest);
    IfRead(after, c, Write(yes) + rest, yes, rest);
    assert Write(IfThen(c, yes)) + rest == [If] + after;
  }

  lemma {:induction false} ReadIfElse(c: Expr, yes: Stmt, no: Stmt, rest: seq<Token>)
    requires Writable(IfElse(c, yes, no)) && Ends(LOWEST, rest) && (Open(no) ==> Peek(rest) != Else)
    ensures ParseStatement(Write(IfElse(c, yes, no)) + rest) == Ok(IfElse(c, yes, no), rest)
    decreases IfElse(c, yes, no), 0, 0
  {
    hide Print, ParseCondition, Ends, ParseStatement;
    var inner := [Else] + (Write(no) + rest);
    var after := [LeftParen] + (Print(c, LOWEST) + ([RightParen] + (Write(yes) + inner)));
    ElseEnds(Write(no) + rest);
    ReadWritten(yes, inner);
    ReadWritten(no, rest);
    ConditionRead(c, Write(yes) + inner);
    assert inner[1..] == Write(no) + rest;
    IfRead(after, c, Write(yes) + inner, yes, inner);
    ElseTokens(Print(c, LOWEST), Write(yes), Write(no), rest);
  }

  lemma ElseTokens(p: seq<Token>, y: seq<Token>, n: seq<Token>, rest: seq<Token>)
    ensures [If, LeftParen] + (p + ([RightParen] + (y + ([Else] + n)))) + rest
            == [If] + ([LeftParen] + (p + ([RightParen] + (y + ([Else] + (n + rest))))))
  {
    assert [If, LeftParen] == [If] + [LeftParen];
  }

  lemma ElseEnds(rest: seq<Token>)
    ensures Ends(LOWEST, [Else] + rest) && Peek([Else] + rest) == Else
  {
  }

  lemma {:induction false} ReadLoop(c: Expr, body: Stmt, rest: seq<Token>)
    requires Writable(Loop(c, body)) && Ends(LOWEST, rest) && (Open(body) ==> Peek(rest) != Else)
    ensures ParseStatement(Write(Loop(c, body)) + rest) == Ok(Loop(c, body), rest)
    decreases body, 1
  {
    hide Print, ParseCondition, Ends, ParseStatement;
    var after := [LeftParen] + (Print(c, LOWEST) + ([RightParen] + (Write(body) + rest)));
    ReadWritten(body, rest);
    ConditionRead(c, Write(body) + rest);
    LoopRead(after, c, Write(body) + rest, body, rest);
    assert Write(Loop(c, body)) + rest == [While] + after;
  }

  lemma {:induction false} ReadFor(x: string, e: Expr, body: Stmt, rest: seq<Token>)
    requires Writable(ForIn(x, e, body)) && Ends(LOWEST, rest) && (Open(body) ==> Peek(rest) != Else)
    ensures ParseStatement(Write(ForIn(x, e, body)) + rest) == Ok(ForIn(x, e, body), rest)
    decreases body, 1
  {
    hide Print, ParseForHead, Ends, ParseStatement;
    var after := [LeftParen, Name(x), In] + (Print(e, LOWEST) + ([RightParen] + (Write(body) + rest)));
    ReadWritten(body, rest);
    HeadRead(x, e, Write(body) + rest);
    ForRead(after, x, e, Write(body) + rest, body, rest);
    assert Write(ForIn(x, e, body)) + rest == [For] + after;
  }

  lemma {:induction false} ReadBlock(body: Stmt, rest: seq<Token>)
    requires body.Skip? || WritableList(body)
    ensures ParseStatement([LeftBrace] + WriteBody(body) + rest) == Ok(Block(body), rest)
    decreases body, 4
  {
    hide WriteBody, ParseBody;
    var toks := [LeftBrace] + WriteBody(body) + rest;
    ReadBody(body, rest);
    assert toks[1..] == WriteBody(body) + rest;
  }

  lemma {:induction false} ReadBody(body: Stmt, rest: seq<Token>)
    requires body.Skip? || WritableList(body)
    ensures ParseBody(WriteBody(body) + rest) == Ok(Statements(body), rest)
    decreases body, 3
  {
    hide Write, Writable, WriteList, ParseDefinitions;
    var toks := WriteBody(body) + rest;
    if body.Skip? {
      assert toks[1..] == rest;
    } else {
      var list := WriteList(body) + rest;
      ReadList(body, rest);
      WriteListStart(body);
      assert list[0] == WriteList(body)[0];
      assert toks == [Line] + list && toks[1..] == list;
      SkipOne(list);
    }
  }

  lemma SkipOne(toks: seq<Token>)
    requires toks != [] && toks[0] != Line
    ensures SkipLines([Line] + toks) == toks && SkipLines(toks) == toks
  {
    assert ([Line] + toks)[1..] == toks;
  }

  lemma {:induction false} ReadList(s: Stmt, rest: seq<Token>)
    requires WritableList(s)
    ensures ParseDefinitions(WriteList(s) + rest) == Ok(s, rest)
    decreases s, 2
  {
    hide Write, Writable, ParseDefinition, Print;
    if s.Seq? {
      var next := WriteList(s.rest) + rest;
      WriteListStart(s.rest);
      assert next[0] == WriteList(s.rest)[0];
      assert WriteList(s) + rest == Write(s.first) + ([Line] + next);
      LineEnds(next);
      ReadDefinition(s.first, [Line] + next);
      ReadList(s.rest, rest);
      SkipOne(next);
    } else {
      var next := [RightBrace] + rest;
      assert WriteList(s) + rest == Write(s) + ([Line] + next);
      LineEnds(next);
      ReadDefinition(s, [Line] + next);
      SkipOne(next);
      assert next[1..] == rest;
    }
  }

  lemma LineEnds(next: seq<Token>)
    requires next != [] && next[0] != Dot
    ensures Ends(LOWEST, [Line] + next) && Peek([Line] + next) == Line
  {
  }

  lemma {:induction false} ReadDefinition(s: Stmt, rest: seq<Token>)
    requires Writable(s) && Ends(LOWEST, rest) && Peek(rest) == Line
    ensures ParseDefinition(Write(s) + rest) == Ok(s, rest)
    decreases s, 1
  {
    hide ParseStatement, ParseExpression, Print;
    WriteStart(s);
    assert (Write(s) + rest)[0] == Write(s)[0];
    if s.Declare? {
      ReadDeclare(s.name, s.init, rest);
    } else {
      ReadWritten(s, rest);
    }
  }

  lemma ReadDeclare(x: string, init: Expr, rest: seq<Token>)
    requires Ends(LOWEST, rest)
    ensures ParseDefinition([Var, Name(x), Equal] + Print(init, LOWEST) + rest) == Ok(Declare(x, init), rest)
  {
    hide ParseStatement, ParseExpression, Print, Ends;
    var toks := [Var, Name(x), Equal] + Print(init, LOWEST) + rest;
    ParsePrint(init, rest);
    PrintStarts(init, LOWEST, rest);
    assert toks[3..] == Print(init, LOWEST) + rest && toks[2..][0] == Equal;
  }

  // A function body that is an expression, on the line of its braces.
  lemma ReadResult(e: Expr, rest: seq<Token>)
    ensures ParseBody(Print(e, LOWEST) + ([RightBrace] + rest)) == Ok(Result(e), rest)
  {
    hide Print, ParseExpression;
    ParsePrint(e, [RightBrace] + rest);
    PrintStart(e, LOWEST);
    var toks := Print(e, LOWEST) + ([RightBrace] + rest);
    assert toks[0] == Print(e, LOWEST)[0] && ([RightBrace] + rest)[1..] == rest;
  }

  // ----- Everything that is read can be written -----

  lemma {:induction false} ReadWritable(toks: seq<Token>)
    ensures var r := ParseStatement(toks); r.Ok? ==> Writable(r.value) && (Open(r.value) ==> Peek(r.rest) != Else)
    decreases |toks|, 0
  {
    hide ParseExpression, ParseCondition, ParseForHead, ParseBlock, WritableList;
    if toks != [] {
      var after := toks[1..];
      match toks[0]
      case For =>
        var head := ParseForHead(after);
        if head.Ok? { ReadWritable(head.rest); }
      case If =>
        var cond := ParseCondition(after);
        if cond.Ok? {
          ReadWritable(cond.rest);
          var yes := ParseStatement(cond.rest);
          if yes.Ok? && Peek(yes.rest) == Else { ReadWritable(yes.rest[1..]); }
        }
      case While =>
        var cond := ParseCondition(after);
        if cond.Ok? { ReadWritable(cond.rest); }
      case LeftBrace => BlockWritable(after);
      case _ =>
    }
  }

  lemma {:induction false} BlockWritable(toks: seq<Token>)
    ensures var r := ParseBlock(toks); r.Ok? ==> r.value.Skip? || WritableList(r.value)
    decreases |toks|, 4
  {
    hide ParseBody, ParseExpression;
    BodyWritable(toks);
  }

  lemma {:induction false} BodyWritable(toks: seq<Token>)
    ensures var r := ParseBody(toks);
            r.Ok? && r.value.Statements? ==> r.value.s.Skip? || WritableList(r.value.s)
    decreases |toks|, 3
  {
    hide ParseExpression, ParseDefinitions, WritableList;
    ListWritable(SkipLines(toks));
  }

  lemma {:induction false} ListWritable(toks: seq<Token>)
    ensures var r := ParseDefinitions(toks); r.Ok? ==> WritableList(r.value)
    decreases |toks|, 2
  {
    hide ParseDefinition, Writable;
    DefinitionWritable(toks);
    var first := ParseDefinition(toks);
    if first.Ok? && Peek(first.rest) == Line && first.rest != [] {
      var next := SkipLines(first.rest);
      if Peek(next) != RightBrace { ListWritable(next); }
    }
  }

  lemma {:induction false} DefinitionWritable(toks: seq<Token>)
    ensures var r := ParseDefinition(toks); r.Ok? ==> Writable(r.value) && !r.value.Seq?
    decreases |toks|, 1
  {
    hide ParseStatement, ParseExpression;
    ReadWritable(toks);
  }
}
