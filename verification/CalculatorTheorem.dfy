/** Parsing what was printed: runs of the calculator on expressions, lines and sessions. */
module CalculatorTheorem {
  import opened Wrappers
  import opened Tables
  import opened Driver
  import opened Calculator

  /** A run leads from `c` to `d`. */
  ghost predicate Reaches(p: Program<real>, c: Conf<real>, d: Conf<real>) {
    p.Valid() && ValidStack(p, c.stack) && exists n: nat :: Run(p, c, n) == d
  }

  lemma ReachStep(p: Program<real>, c: Conf<real>, d: Conf<real>)
    requires p.Valid() && ValidStack(p, c.stack) && Step(p, c) == d
    ensures Reaches(p, c, d)
  {
    RunStep(p, c, 0);
    assert Run(p, c, 1) == d;
  }

  lemma ReachTrans(p: Program<real>, a: Conf<real>, b: Conf<real>, c: Conf<real>)
    requires Reaches(p, a, b) && Reaches(p, b, c)
    ensures Reaches(p, a, c)
  {
    var m: nat :| Run(p, a, m) == b;
    var n: nat :| Run(p, b, n) == c;
    RunSplit(p, a, m, n);
    assert Run(p, a, m + n) == c;
  }

  /** A stack that ends in state `s`. */
  ghost predicate Top(stack: seq<Entry<real>>, s: nat) {
    && stack != [] && stack[|stack| - 1].stateno == s && s < 22
    && forall i :: 0 <= i < |stack| ==> stack[i].stateno < 22
  }

  lemma TopPush(stack: seq<Entry<real>>, s: nat, e: Entry<real>)
    requires Top(stack, s) && e.stateno < 22
    ensures Top(stack + [e], e.stateno)
  {
  }

  lemma MachineValid(t: Tables, pow: (real, real) -> real, junk: real, stack: seq<Entry<real>>, s: nat)
    requires Conforms(t) && Top(stack, s) && |stack| <= 100
    ensures Machine(t, pow, junk).Valid() && ValidStack(Machine(t, pow, junk), stack)
  {
  }

  // ---------------------------------------------------------------- single steps

  lemma ShiftToken(t: Tables, pow: (real, real) -> real, junk: real, stack: seq<Entry<real>>, s: nat,
                   tok: Token<real>, rest: seq<Token<real>>, out: seq<real>, next: nat)
    requires Conforms(t) && Top(stack, s) && |stack| < 100 && 0 < tok.major < 11
    requires ActionOn(s, tok.major) == next < 22
    ensures Reaches(Machine(t, pow, junk), Conf(stack, [tok] + rest, Running, out),
                    Conf(stack + [Entry(next, tok.major, tok.minor)], rest, Running, out))
  {
    var p, c := Machine(t, pow, junk), Conf(stack, [tok] + rest, Running, out);
    MachineValid(t, pow, junk, stack, s);
    assert t.FindShiftAction(s, tok.major) == next;
    assert c.input[1..] == rest;
    ReachStep(p, c, Conf(stack + [Entry(next, tok.major, tok.minor)], rest, Running, out));
  }

  lemma RuleShape(rule: nat)
    requires rule < 13
    ensures RULES[rule].lhs == (if rule == 0 then 12 else if rule <= 3 then 13 else if rule == 4 then 14 else EXPR)
    ensures RULES[rule].nrhs == (if rule == 2 then 0 else if rule == 0 || rule == 4 || rule == 12 then 1
                                 else if rule == 1 || rule == 10 then 2 else 3)
  {
  }

  /** A reduce pops `top`, whose length is that of the rule, and follows the goto of the state below. */
  lemma ReduceRule(t: Tables, pow: (real, real) -> real, junk: real, base: seq<Entry<real>>, top: seq<Entry<real>>, s: nat, u: nat,
                   rule: nat, input: seq<Token<real>>, out: seq<real>)
    requires Conforms(t) && Top(base, s) && Top(base + top, u) && |base + top| <= 100 && |base| < 100
    requires rule < 13 && |top| == RULES[rule].nrhs && input != [] && input[0].major < 11
    requires ActionOn(u, input[0].major) == 22 + rule && GotoDefined(s, RULES[rule].lhs) && GotoOn(s, RULES[rule].lhs) < 22
    ensures var c := Conf(base + top, input, Running, out);
            var p := Machine(t, pow, junk);
            match RuleCode(pow, junk, rule, Minors(top))
            case Value(v, more) =>
              Reaches(p, c, Conf(base + [Entry(GotoOn(s, RULES[rule].lhs), RULES[rule].lhs, v)], input, Running, out + more))
            case Exit => exists d :: Reaches(p, c, d) && d.status == Exited && d.printed == out
  {
    var p, c := Machine(t, pow, junk), Conf(base + top, input, Running, out);
    MachineValid(t, pow, junk, base + top, u);
    assert t.FindShiftAction(u, input[0].major) == 22 + rule;
    assert (base + top)[..|base|] == base && (base + top)[|base|..] == top;
    assert t.FindReduceAction(s, RULES[rule].lhs) == GotoOn(s, RULES[rule].lhs);
    ReachStep(p, c, Step(p, c));
    assert Step(p, c) == Reduce(p, c, rule);
  }

  // ---------------------------------------------------------------- expressions

  /** What a context needs of an expression, and what a following token needs of it. */
  function ContextNeed(s: nat): nat {
    if s == 1 || s == 18 then 1 else if s == 6 || s == 8 then 2 else 3
  }

  predicate Following(la: nat) {
    la == NEWLINE || la == RP || IsOperator(la)
  }

  function FollowNeed(la: nat): nat {
    if la == POW then 5 else if la == TIMES || la == DIVIDE then 2 else 1
  }

  /** An operator that is strong enough for its context is shifted. */
  lemma OperatorShifts(s: nat, op: Op)
    requires Expecting(s) && op.Level() >= ContextNeed(s)
    ensures ActionOn(GotoOn(s, EXPR), op.Tok()) == op.After() && op.After() < 22 && Expecting(op.After())
    ensures ContextNeed(op.After()) == op.RightNeed() && FollowNeed(op.Tok()) == op.LeftNeed() && Following(op.Tok())
  {
  }

  /** An operation is reduced when the next token is not stronger. */
  lemma OperatorReduces(op: Op, la: nat)
    requires Following(la) && op.Level() >= FollowNeed(la)
    ensures ActionOn(GotoOn(op.After(), EXPR), la) == 22 + op.Rule()
  {
  }

  /** The run parses `e` from `stack` up to `rest`: it pushes the value, or exits on a division by zero. */
  ghost predicate Parses(t: Tables, pow: (real, real) -> real, junk: real, stack: seq<Entry<real>>, s: nat,
                         tokens: seq<Token<real>>, value: Option<real>, rest: seq<Token<real>>, out: seq<real>)
  {
    var p, c := Machine(t, pow, junk), Conf(stack, tokens, Running, out);
    match value
    case Some(v) => Reaches(p, c, Conf(stack + [Entry(GotoOn(s, EXPR), EXPR, v)], rest, Running, out))
    case None => Exits(p, c, out)
  }

  ghost predicate Exits(p: Program<real>, c: Conf<real>, out: seq<real>) {
    exists d :: Reaches(p, c, d) && d.status == Exited && d.printed == out
  }

  lemma ExitsLater(p: Program<real>, a: Conf<real>, b: Conf<real>, out: seq<real>)
    requires Reaches(p, a, b) && Exits(p, b, out)
    ensures Exits(p, a, out)
  {
    var d :| Reaches(p, b, d) && d.status == Exited && d.printed == out;
    ReachTrans(p, a, b, d);
  }

  /** Conditions under which an expression can be parsed where it stands. */
  ghost predicate Fits(t: Tables, stack: seq<Entry<real>>, s: nat, e: Expr, rest: seq<Token<real>>) {
    && Conforms(t) && Top(stack, s) && Expecting(s) && WellParenthesized(e) && e.Level() >= ContextNeed(s)
    && rest != [] && Following(rest[0].major) && e.Level() >= FollowNeed(rest[0].major)
    && |stack| + Need(e) <= 100
  }

  lemma ParseNum(t: Tables, pow: (real, real) -> real, junk: real, stack: seq<Entry<real>>, s: nat, v: real,
                 rest: seq<Token<real>>, out: seq<real>)
    requires Fits(t, stack, s, Num(v), rest)
    ensures Parses(t, pow, junk, stack, s, Print(Num(v)) + rest, Some(v), rest, out)
  {
    var p, e := Machine(t, pow, junk), Entry(21, NUM, v);
    ShiftToken(t, pow, junk, stack, s, Token(NUM, v), rest, out, 21);
    TopPush(stack, s, e);
    RuleShape(12);
    ReduceRule(t, pow, junk, stack, [e], s, 21, 12, rest, out);
    assert Minors([e]) == [v] && out + [] == out;
    ReachTrans(p, Conf(stack, Print(Num(v)) + rest, Running, out), Conf(stack + [e], rest, Running, out),
               Conf(stack + [Entry(GotoOn(s, EXPR), EXPR, v)], rest, Running, out));
  }

  /** After the operand of a unary minus. */
  lemma FinishNeg(t: Tables, pow: (real, real) -> real, junk: real, stack: seq<Entry<real>>, s: nat, x: real,
                  rest: seq<Token<real>>, out: seq<real>)
    requires Conforms(t) && Top(stack, s) && Expecting(s) && |stack| + 2 <= 100
    requires rest != [] && Following(rest[0].major) && FollowNeed(rest[0].major) <= 3
    ensures Reaches(Machine(t, pow, junk),
                    Conf(stack + [Entry(16, MINUS, 0.0)] + [Entry(17, EXPR, x)], rest, Running, out),
                    Conf(stack + [Entry(GotoOn(s, EXPR), EXPR, -x)], rest, Running, out))
  {
    var top := [Entry(16, MINUS, 0.0), Entry(17, EXPR, x)];
    RuleShape(10);
    ReduceRule(t, pow, junk, stack, top, s, 17, 10, rest, out);
    assert stack + [Entry(16, MINUS, 0.0)] + [Entry(17, EXPR, x)] == stack + top;
    assert Minors(top) == [0.0, x] && out + [] == out;
  }

  /** The code of an operation computes the operation. */
  lemma CodeOfOperation(pow: (real, real) -> real, junk: real, op: Op, top: seq<Entry<real>>)
    requires |top| == 3
    ensures RuleCode(pow, junk, op.Rule(), Minors(top)) ==
            match Apply(pow, op, top[0].minor, top[2].minor) case Some(v) => Value(v, []) case None => Exit
  {
    var args := Minors(top);
    var x, y := At(args, 0), At(args, 2);
    assert x == top[0].minor && y == top[2].minor;
    match op
    case Add => assert RuleCode(pow, junk, 6, args) == Value(x + y, []);
    case Sub => assert RuleCode(pow, junk, 5, args) == Value(x - y, []);
    case Mul =>
      ProductIsProduct(top[0].minor, top[2].minor);
      assert RuleCode(pow, junk, 7, args) == Value(Product(x, y), []);
    case Div => assert RuleCode(pow, junk, 8, args) == if y != 0.0 then Value(x / y, []) else Exit;
    case Exp => assert RuleCode(pow, junk, 9, args) == Value(pow(x, y), []);
  }

  /** After the right operand of a binary operation. */
  lemma FinishBin(t: Tables, pow: (real, real) -> real, junk: real, stack: seq<Entry<real>>, s: nat, op: Op, x: real, y: real,
                  rest: seq<Token<real>>, out: seq<real>)
    requires Conforms(t) && Top(stack, s) && Expecting(s) && |stack| + 3 <= 100
    requires rest != [] && Following(rest[0].major) && op.Level() >= FollowNeed(rest[0].major)
    ensures var p := Machine(t, pow, junk);
            var c := Conf(stack + [Entry(GotoOn(s, EXPR), EXPR, x)] + [Entry(op.After(), op.Tok(), 0.0)]
                          + [Entry(GotoOn(op.After(), EXPR), EXPR, y)], rest, Running, out);
            match Apply(pow, op, x, y)
            case Some(v) => Reaches(p, c, Conf(stack + [Entry(GotoOn(s, EXPR), EXPR, v)], rest, Running, out))
            case None => Exits(p, c, out)
  {
    var a, b, d := Entry(GotoOn(s, EXPR), EXPR, x), Entry(op.After(), op.Tok(), 0.0), Entry(GotoOn(op.After(), EXPR), EXPR, y);
    var top := [a, b, d];
    OperatorReduces(op, rest[0].major);
    RuleShape(op.Rule());
    assert stack + [a] + [b] + [d] == stack + top;
    CodeOfOperation(pow, junk, op, top);
    ReduceRule(t, pow, junk, stack, top, s, GotoOn(op.After(), EXPR), op.Rule(), rest, out);
    assert out + [] == out;
  }

  /** After the closing parenthesis has been seen. */
  lemma FinishParen(t: Tables, pow: (real, real) -> real, junk: real, stack: seq<Entry<real>>, s: nat, x: real,
                    rest: seq<Token<real>>, out: seq<real>)
    requires Conforms(t) && Top(stack, s) && Expecting(s) && |stack| + 3 <= 100
    requires rest != [] && Following(rest[0].major)
    ensures Reaches(Machine(t, pow, junk),
                    Conf(stack + [Entry(18, LP, 0.0)] + [Entry(19, EXPR, x)], [Token(RP, 0.0)] + rest, Running, out),
                    Conf(stack + [Entry(GotoOn(s, EXPR), EXPR, x)], rest, Running, out))
  {
    var p := Machine(t, pow, junk);
    var a, b, d := Entry(18, LP, 0.0), Entry(19, EXPR, x), Entry(20, RP, 0.0);
    var top := [a, b, d];
    var mid := stack + [a] + [b];
    ShiftToken(t, pow, junk, mid, 19, Token(RP, 0.0), rest, out, 20);
    assert mid + [d] == stack + top;
    RuleShape(11);
    ReduceRule(t, pow, junk, stack, top, s, 20, 11, rest, out);
    assert Minors(top) == [0.0, x, 0.0] && out + [] == out;
    ReachTrans(p, Conf(mid, [Token(RP, 0.0)] + rest, Running, out), Conf(mid + [d], rest, Running, out),
               Conf(stack + [Entry(GotoOn(s, EXPR), EXPR, x)], rest, Running, out));
  }

  /** The operator of a binary operation is shifted once the left operand is on the stack. */
  lemma MiddleOfBin(t: Tables, pow: (real, real) -> real, junk: real, stack: seq<Entry<real>>, s: nat, op: Op, x: real,
                    more: seq<Token<real>>, out: seq<real>)
    requires Conforms(t) && Top(stack, s) && Expecting(s) && |stack| + 3 <= 100 && op.Level() >= ContextNeed(s)
    ensures var mid := stack + [Entry(GotoOn(s, EXPR), EXPR, x)];
            var up := mid + [Entry(op.After(), op.Tok(), 0.0)];
            && Top(up, op.After()) && Expecting(op.After())
            && Reaches(Machine(t, pow, junk), Conf(mid, [Token(op.Tok(), 0.0)] + more, Running, out), Conf(up, more, Running, out))
  {
    var a, b := Entry(GotoOn(s, EXPR), EXPR, x), Entry(op.After(), op.Tok(), 0.0);
    OperatorShifts(s, op);
    TopPush(stack, s, a);
    TopPush(stack + [a], a.stateno, b);
    ShiftToken(t, pow, junk, stack + [a], a.stateno, Token(op.Tok(), 0.0), more, out, op.After());
  }

  /** Main result for expressions: from any context that is weak enough, the driver reads exactly the
      tokens of a printed expression and replaces them by its value. */
  lemma {:induction false} ParseExpr(t: Tables, pow: (real, real) -> real, junk: real, stack: seq<Entry<real>>, s: nat, e: Expr,
                                     rest: seq<Token<real>>, out: seq<real>)
    requires Fits(t, stack, s, e, rest)
    ensures Parses(t, pow, junk, stack, s, Print(e) + rest, Eval(pow, e), rest, out)
    decreases e, 1
  {
    match e
    case Num(v) => ParseNum(t, pow, junk, stack, s, v, rest, out);
    case Neg(a) => ParseNeg(t, pow, junk, stack, s, a, rest, out);
    case Paren(a) => ParseParen(t, pow, junk, stack, s, a, rest, out);
    case Bin(op, l, r) => ParseBin(t, pow, junk, stack, s, op, l, r, rest, out);
  }

  lemma {:induction false} ParseNeg(t: Tables, pow: (real, real) -> real, junk: real, stack: seq<Entry<real>>, s: nat, a: Expr,
                                    rest: seq<Token<real>>, out: seq<real>)
    requires Fits(t, stack, s, Neg(a), rest)
    ensures Parses(t, pow, junk, stack, s, Print(Neg(a)) + rest, Eval(pow, Neg(a)), rest, out)
    decreases Neg(a), 0
  {
    EnterNeg(t, pow, junk, stack, s, a, rest, out);
    ParseExpr(t, pow, junk, stack + [Entry(16, MINUS, 0.0)], 16, a, rest, out);
    ComposeNeg(t, pow, junk, stack, s, Print(Neg(a)) + rest, Print(a) + rest, Eval(pow, a), rest, out);
  }

  /** The minus sign in front of an operand is shifted into the state that expects the operand. */
  lemma EnterNeg(t: Tables, pow: (real, real) -> real, junk: real, stack: seq<Entry<real>>, s: nat, a: Expr,
                 rest: seq<Token<real>>, out: seq<real>)
    requires Fits(t, stack, s, Neg(a), rest)
    ensures |stack| + 2 <= 100 && FollowNeed(rest[0].major) <= 3
    ensures var up := stack + [Entry(16, MINUS, 0.0)];
      && Fits(t, up, 16, a, rest)
      && Reaches(Machine(t, pow, junk), Conf(stack, Print(Neg(a)) + rest, Running, out), Conf(up, Print(a) + rest, Running, out))
  {
    assert Print(Neg(a)) + rest == [Token(MINUS, 0.0)] + (Print(a) + rest);
    ShiftToken(t, pow, junk, stack, s, Token(MINUS, 0.0), Print(a) + rest, out, 16);
    TopPush(stack, s, Entry(16, MINUS, 0.0));
    NeedPositive(a);
  }

  lemma ComposeNeg(t: Tables, pow: (real, real) -> real, junk: real, stack: seq<Entry<real>>, s: nat,
                   all: seq<Token<real>>, more: seq<Token<real>>, value: Option<real>, rest: seq<Token<real>>, out: seq<real>)
    requires Conforms(t) && Top(stack, s) && Expecting(s) && |stack| + 2 <= 100
    requires rest != [] && Following(rest[0].major) && FollowNeed(rest[0].major) <= 3
    requires var up := stack + [Entry(16, MINUS, 0.0)];
             && Reaches(Machine(t, pow, junk), Conf(stack, all, Running, out), Conf(up, more, Running, out))
             && Parses(t, pow, junk, up, 16, more, value, rest, out)
    ensures Parses(t, pow, junk, stack, s, all, match value case Some(x) => Some(-x) case None => None, rest, out)
  {
    var p, up := Machine(t, pow, junk), stack + [Entry(16, MINUS, 0.0)];
    var c0, c1 := Conf(stack, all, Running, out), Conf(up, more, Running, out);
    match value
    case None =>
      ExitsLater(p, c0, c1, out);
    case Some(x) =>
      FinishNeg(t, pow, junk, stack, s, x, rest, out);
      var c2 := Conf(up + [Entry(17, EXPR, x)], rest, Running, out);
      ReachTrans(p, c0, c1, c2);
      ReachTrans(p, c0, c2, Conf(stack + [Entry(GotoOn(s, EXPR), EXPR, -x)], rest, Running, out));
  }

  lemma NeedPositive(e: Expr)
    ensures Need(e) >= 1
  {
  }

  lemma {:induction false} ParseParen(t: Tables, pow: (real, real) -> real, junk: real, stack: seq<Entry<real>>, s: nat, a: Expr,
                                      rest: seq<Token<real>>, out: seq<real>)
    requires Fits(t, stack, s, Paren(a), rest)
    ensures Parses(t, pow, junk, stack, s, Print(Paren(a)) + rest, Eval(pow, Paren(a)), rest, out)
    decreases Paren(a), 0
  {
    var p, up := Machine(t, pow, junk), stack + [Entry(18, LP, 0.0)];
    var more := [Token(RP, 0.0)] + rest;
    var c0 := Conf(stack, Print(Paren(a)) + rest, Running, out);
    var c1 := Conf(up, Print(a) + more, Running, out);
    assert Print(Paren(a)) + rest == [Token(LP, 0.0)] + (Print(a) + more);
    ShiftToken(t, pow, junk, stack, s, Token(LP, 0.0), Print(a) + more, out, 18);
    TopPush(stack, s, Entry(18, LP, 0.0));
    ParseExpr(t, pow, junk, up, 18, a, more, out);
    match Eval(pow, a)
    case None =>
      ExitsLater(p, c0, c1, out);
    case Some(x) =>
      FinishParen(t, pow, junk, stack, s, x, rest, out);
      var c2 := Conf(up + [Entry(19, EXPR, x)], more, Running, out);
      ReachTrans(p, c0, c1, c2);
      ReachTrans(p, c0, c2, Conf(stack + [Entry(GotoOn(s, EXPR), EXPR, x)], rest, Running, out));
  }

  lemma {:induction false} ParseBin(t: Tables, pow: (real, real) -> real, junk: real, stack: seq<Entry<real>>, s: nat, op: Op, l: Expr, r: Expr,
                                    rest: seq<Token<real>>, out: seq<real>)
    requires Fits(t, stack, s, Bin(op, l, r), rest)
    ensures Parses(t, pow, junk, stack, s, Print(Bin(op, l, r)) + rest, Eval(pow, Bin(op, l, r)), rest, out)
    decreases Bin(op, l, r), 0
  {
    var more := [Token(op.Tok(), 0.0)] + (Print(r) + rest);
    assert Print(Bin(op, l, r)) + rest == Print(l) + more;
    OperatorShifts(s, op);
    ParseExpr(t, pow, junk, stack, s, l, more, out);
    NeedPositive(r);
    if Eval(pow, l).Some? {
      var x := Eval(pow, l).value;
      MiddleOfBin(t, pow, junk, stack, s, op, x, Print(r) + rest, out);
      ParseExpr(t, pow, junk, stack + [Entry(GotoOn(s, EXPR), EXPR, x)] + [Entry(op.After(), op.Tok(), 0.0)], op.After(), r, rest, out);
      ComposeBin(t, pow, junk, stack, s, op, x, Print(l) + more, more, Print(r) + rest, Eval(pow, r), rest, out);
    }
  }

  /** Left operand, operator, right operand, reduction: the parts of a run put together. */
  lemma ComposeBin(t: Tables, pow: (real, real) -> real, junk: real, stack: seq<Entry<real>>, s: nat, op: Op, x: real,
                   all: seq<Token<real>>, more: seq<Token<real>>, right: seq<Token<real>>, value: Option<real>,
                   rest: seq<Token<real>>, out: seq<real>)
    requires Conforms(t) && Top(stack, s) && Expecting(s) && |stack| + 3 <= 100
    requires rest != [] && Following(rest[0].major) && op.Level() >= FollowNeed(rest[0].major)
    requires Parses(t, pow, junk, stack, s, all, Some(x), more, out)
    requires var mid := stack + [Entry(GotoOn(s, EXPR), EXPR, x)];
             var up := mid + [Entry(op.After(), op.Tok(), 0.0)];
             && Reaches(Machine(t, pow, junk), Conf(mid, more, Running, out), Conf(up, right, Running, out))
             && Parses(t, pow, junk, up, op.After(), right, value, rest, out)
    ensures Parses(t, pow, junk, stack, s, all, match value case Some(y) => Apply(pow, op, x, y) case None => None, rest, out)
  {
    var p := Machine(t, pow, junk);
    var mid := stack + [Entry(GotoOn(s, EXPR), EXPR, x)];
    var up := mid + [Entry(op.After(), op.Tok(), 0.0)];
    var c0, c1, c2 := Conf(stack, all, Running, out), Conf(mid, more, Running, out), Conf(up, right, Running, out);
    ReachTrans(p, c0, c1, c2);
    match value
    case None =>
      ExitsLater(p, c0, c2, out);
    case Some(y) =>
      var c3 := Conf(up + [Entry(GotoOn(op.After(), EXPR), EXPR, y)], rest, Running, out);
      ReachTrans(p, c0, c2, c3);
      FinishBin(t, pow, junk, stack, s, op, x, y, rest, out);
      match Apply(pow, op, x, y)
      case None => ExitsLater(p, c0, c3, out);
      case Some(v) => ReachTrans(p, c0, c3, Conf(stack + [Entry(GotoOn(s, EXPR), EXPR, v)], rest, Running, out));
  }

  // ---------------------------------------------------------------- lines and sessions

  /** The stack between lines: everything read so far is an `in`. */
  function Idle(junk: real): seq<Entry<real>> {
    [Entry(0, 0, junk), Entry(1, 13, junk)]
  }

  /** After a line the parser has shifted NEWLINE and waits for the next token. */
  function AfterLine(junk: real): seq<Entry<real>> {
    Idle(junk) + [Entry(3, 14, junk), Entry(4, NEWLINE, 0.0)]
  }

  function Line(e: Expr): seq<Token<real>> {
    Print(e) + [Token(NEWLINE, 0.0)]
  }

  function Session(es: seq<Expr>): seq<Token<real>> {
    if es == [] then [Token(0, 0.0)] else Line(es[0]) + Session(es[1..])
  }

  /** The first token reduces the empty `in`; after a line it reduces the whole line to `in`. */
  lemma BecomesIdle(t: Tables, pow: (real, real) -> real, junk: real, first: bool, input: seq<Token<real>>, out: seq<real>)
    requires Conforms(t) && input != [] && input[0].major < 11
    ensures Reaches(Machine(t, pow, junk),
                    Conf(if first then InitialStack(junk) else AfterLine(junk), input, Running, out),
                    Conf(Idle(junk), input, Running, out))
  {
    var base := InitialStack(junk);
    assert base + [Entry(1, 13, junk)] == Idle(junk) && out + [] == out;
    if first {
      RuleShape(2);
      assert base + [] == base;
      ReduceRule(t, pow, junk, base, [], 0, 0, 2, input, out);
    } else {
      RuleShape(3);
      var top := [Entry(1, 13, junk), Entry(3, 14, junk), Entry(4, NEWLINE, 0.0)];
      assert AfterLine(junk) == base + top;
      ReduceRule(t, pow, junk, base, top, 0, 4, 3, input, out);
    }
  }

  /** A finished expression is printed, and the end of the line shifted. */
  lemma FinishLine(t: Tables, pow: (real, real) -> real, junk: real, v: real, rest: seq<Token<real>>, out: seq<real>)
    requires Conforms(t)
    ensures Reaches(Machine(t, pow, junk),
                    Conf(Idle(junk) + [Entry(5, EXPR, v)], [Token(NEWLINE, 0.0)] + rest, Running, out),
                    Conf(AfterLine(junk), rest, Running, out + [v]))
  {
    var p, nl := Machine(t, pow, junk), Token(NEWLINE, 0.0);
    var top := [Entry(5, EXPR, v)];
    RuleShape(4);
    assert Minors(top) == [v];
    ReduceRule(t, pow, junk, Idle(junk), top, 1, 5, 4, [nl] + rest, out);
    var mid := Idle(junk) + [Entry(3, 14, junk)];
    ShiftToken(t, pow, junk, mid, 3, nl, rest, out + [v], 4);
    assert mid + [Entry(4, NEWLINE, 0.0)] == AfterLine(junk);
    ReachTrans(p, Conf(Idle(junk) + top, [nl] + rest, Running, out), Conf(mid, [nl] + rest, Running, out + [v]),
               Conf(AfterLine(junk), rest, Running, out + [v]));
  }

  /** One line from the idle stack: its value is printed, or the program exits on a division by zero. */
  lemma ParseLine(t: Tables, pow: (real, real) -> real, junk: real, e: Expr, rest: seq<Token<real>>, out: seq<real>)
    requires Conforms(t) && WellParenthesized(e) && 2 + Need(e) <= 100
    ensures var p, c := Machine(t, pow, junk), Conf(Idle(junk), Line(e) + rest, Running, out);
            match Eval(pow, e)
            case Some(v) => Reaches(p, c, Conf(AfterLine(junk), rest, Running, out + [v]))
            case None => Exits(p, c, out)
  {
    var p, more := Machine(t, pow, junk), [Token(NEWLINE, 0.0)] + rest;
    assert Line(e) + rest == Print(e) + more;
    LevelPositive(e);
    ParseExpr(t, pow, junk, Idle(junk), 1, e, more, out);
    if Eval(pow, e).Some? {
      var v := Eval(pow, e).value;
      FinishLine(t, pow, junk, v, rest, out);
      ReachTrans(p, Conf(Idle(junk), Line(e) + rest, Running, out),
                 Conf(Idle(junk) + [Entry(5, EXPR, v)], more, Running, out), Conf(AfterLine(junk), rest, Running, out + [v]));
    }
  }

  lemma LevelPositive(e: Expr)
    ensures e.Level() >= 1
  {
  }

  /** The values of the lines up to the first division by zero, and whether all were reached. */
  function Values(pow: (real, real) -> real, es: seq<Expr>): (seq<real>, bool) {
    if es == [] then ([], true) else
      match Eval(pow, es[0])
      case None => ([], false)
      case Some(v) => var (vs, all) := Values(pow, es[1..]); ([v] + vs, all)
  }

  lemma SessionStarts(es: seq<Expr>)
    ensures Session(es) != [] && Session(es)[0].major < 11
  {
    if es != [] {
      PrintStarts(es[0]);
    }
  }

  lemma {:induction false} PrintStarts(e: Expr)
    ensures Print(e) != [] && Print(e)[0].major < 11
  {
    match e
    case Bin(_, l, _) => PrintStarts(l);
    case _ =>
  }

  /** End of input on an idle parser accepts. */
  lemma AcceptAtEnd(t: Tables, pow: (real, real) -> real, junk: real, out: seq<real>)
    requires Conforms(t)
    ensures exists d :: Reaches(Machine(t, pow, junk), Conf(Idle(junk), [Token(0, 0.0)], Running, out), d)
                        && d.status == Accepted && d.printed == out
  {
    var p, c := Machine(t, pow, junk), Conf(Idle(junk), [Token(0, 0.0)], Running, out);
    MachineValid(t, pow, junk, Idle(junk), 1);
    RuleShape(0);
    assert t.FindShiftAction(1, 0) == 22 && t.FindReduceAction(0, 12) == 36;
    assert c.stack[..1] == InitialStack(junk) && out + [] == out;
    var d := Step(p, c);
    assert d == Reduce(p, c, 0) && d.status == Accepted && d.printed == out;
    ReachStep(p, c, d);
  }

  /** What a session comes to: acceptance after printing every value, or an exit at the first division by zero. */
  ghost predicate SessionEnds(p: Program<real>, c: Conf<real>, printed: seq<real>, all: bool) {
    exists d :: Reaches(p, c, d) && d.status == (if all then Accepted else Exited) && d.printed == printed
  }

  lemma EndsLater(p: Program<real>, a: Conf<real>, b: Conf<real>, printed: seq<real>, all: bool)
    requires Reaches(p, a, b) && SessionEnds(p, b, printed, all)
    ensures SessionEnds(p, a, printed, all)
  {
    var d :| Reaches(p, b, d) && d.status == (if all then Accepted else Exited) && d.printed == printed;
    ReachTrans(p, a, b, d);
  }

  /** A session from the start of a line on. */
  lemma {:induction false} SessionFrom(t: Tables, pow: (real, real) -> real, junk: real, first: bool, es: seq<Expr>, out: seq<real>)
    requires Conforms(t) && forall i :: 0 <= i < |es| ==> WellParenthesized(es[i]) && 2 + Need(es[i]) <= 100
    ensures var c := Conf(if first then InitialStack(junk) else AfterLine(junk), Session(es), Running, out);
            SessionEnds(Machine(t, pow, junk), c, out + Values(pow, es).0, Values(pow, es).1)
    decreases es, 1
  {
    var p, input := Machine(t, pow, junk), Session(es);
    SessionStarts(es);
    BecomesIdle(t, pow, junk, first, input, out);
    SessionFromIdle(t, pow, junk, es, out);
    EndsLater(p, Conf(if first then InitialStack(junk) else AfterLine(junk), input, Running, out),
              Conf(Idle(junk), input, Running, out), out + Values(pow, es).0, Values(pow, es).1);
  }

  lemma ValuesAfter(pow: (real, real) -> real, es: seq<Expr>, out: seq<real>, v: real)
    requires es != [] && Eval(pow, es[0]) == Some(v)
    ensures (out + [v]) + Values(pow, es[1..]).0 == out + Values(pow, es).0 && Values(pow, es[1..]).1 == Values(pow, es).1
  {
    assert (out + [v]) + Values(pow, es[1..]).0 == out + ([v] + Values(pow, es[1..]).0);
  }

  lemma {:induction false} SessionFromIdle(t: Tables, pow: (real, real) -> real, junk: real, es: seq<Expr>, out: seq<real>)
    requires Conforms(t) && forall i :: 0 <= i < |es| ==> WellParenthesized(es[i]) && 2 + Need(es[i]) <= 100
    ensures SessionEnds(Machine(t, pow, junk), Conf(Idle(junk), Session(es), Running, out), out + Values(pow, es).0, Values(pow, es).1)
    decreases es, 0
  {
    var p, idle := Machine(t, pow, junk), Conf(Idle(junk), Session(es), Running, out);
    if es == [] {
      AcceptAtEnd(t, pow, junk, out);
      assert out + [] == out;
    } else {
      ParseLine(t, pow, junk, es[0], Session(es[1..]), out);
      match Eval(pow, es[0])
      case None =>
        assert out + [] == out;
      case Some(v) =>
        var next := Conf(AfterLine(junk), Session(es[1..]), Running, out + [v]);
        SessionFrom(t, pow, junk, false, es[1..], out + [v]);
        ValuesAfter(pow, es, out, v);
        EndsLater(p, idle, next, out + Values(pow, es).0, Values(pow, es).1);
    }
  }

  /** Main result: a session of expressions, each printed with the parentheses it needs, prints
      their values line by line and is accepted, unless a division by zero stops it first. */
  lemma SessionPrintsValues(t: Tables, pow: (real, real) -> real, junk: real, es: seq<Expr>, lines: seq<Expr>)
    requires Conforms(t)
    requires |lines| == |es| && forall i :: 0 <= i < |es| ==> lines[i] == Parenthesize(es[i]) && 2 + Need(lines[i]) <= 100
    ensures SessionEnds(Machine(t, pow, junk), Conf(InitialStack(junk), Session(lines), Running, []),
                        Values(pow, es).0, Values(pow, es).1)
  {
    forall i | 0 <= i < |es| ensures WellParenthesized(lines[i]) {
      ParenthesizeOk(pow, es[i]);
    }
    SessionFrom(t, pow, junk, true, lines, []);
    SameValues(pow, es, lines);
    assert [] + Values(pow, lines).0 == Values(pow, lines).0;
  }

  lemma {:induction false} SameValues(pow: (real, real) -> real, es: seq<Expr>, lines: seq<Expr>)
    requires |es| == |lines| && forall i :: 0 <= i < |es| ==> lines[i] == Parenthesize(es[i])
    ensures Values(pow, es) == Values(pow, lines)
  {
    if es != [] {
      ParenthesizeOk(pow, es[0]);
      SameValues(pow, es[1..], lines[1..]);
    }
  }

  /** The same for the tables of calculate_3.cpp. */
  lemma CalculatorSession(pow: (real, real) -> real, junk: real, es: seq<Expr>, lines: seq<Expr>)
    requires |lines| == |es| && forall i :: 0 <= i < |es| ==> lines[i] == Parenthesize(es[i]) && 2 + Need(lines[i]) <= 100
    ensures SessionEnds(Machine(CALC_TABLES, pow, junk), Conf(InitialStack(junk), Session(lines), Running, []),
                        Values(pow, es).0, Values(pow, es).1)
  {
    CalcTablesConform();
    SessionPrintsValues(CALC_TABLES, pow, junk, es, lines);
  }
}
