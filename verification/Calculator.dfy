/**
 The generated calculator: the concrete tables of calculate_3.cpp, its reduce actions, and
 the theorem that parsing a printed expression yields the value of the expression.
 Doubles are modelled as reals; the library function pow is a parameter.
 */
module Calculator {
  import opened Wrappers
  import opened Tables
  import opened Driver

  // ---------------------------------------------------------------- the generated tables

  const PLUS := 1
  const MINUS := 2
  const DIVIDE := 3
  const TIMES := 4
  const POW := 5
  const NEWLINE := 7
  const LP := 8
  const RP := 9
  const NUM := 10
  const EXPR := 15

  const YYACTION: seq<nat> :=
    [8, 6, 12, 10, 14, 4, 26, 7, 8, 6] +
    [12, 10, 14, 22, 14, 16, 20, 9, 16, 11] +
    [2, 18, 31, 21, 18, 13, 21, 12, 10, 14] +
    [15, 36, 1, 17, 31, 3, 5, 19]

  const YYLOOKAHEAD: seq<int> :=
    [1, 2, 3, 4, 5, 7, 7, 15, 1, 2] +
    [3, 4, 5, 0, 5, 2, 9, 15, 2, 15] +
    [7, 8, 16, 10, 8, 15, 10, 3, 4, 5] +
    [15, 12, 13, 15, 16, 14, 15, 15]

  const SHIFT_OFST: seq<int> :=
    [-3, 13, -3, -2, -3, -1, 16, 24, 16, 24] +
    [16, 9, 16, 9, 16, 9, 16, 9, 16, 7] +
    [-3, -3]

  const REDUCE_OFST: seq<int> :=
    [19, 21, -9, -9, -9, -9, -8, -9, 2, -9] +
    [4, -9, 10, -9, 15, -9, 18, -9, 22, -9] +
    [-9, -9]

  const YYDEFAULT: seq<nat> :=
    [24, 35, 23, 35, 25, 35, 35, 27, 35, 28] +
    [35, 29, 35, 30, 35, 31, 35, 32, 35, 35] +
    [33, 34]

  const CALC_TABLES := Tables(Dimensions(22, 13, 11, 16), YYACTION, YYLOOKAHEAD, SHIFT_OFST, -3, REDUCE_OFST, -9, YYDEFAULT)

  const RULES: seq<RuleInfo> := [
    RuleInfo(12, 1), RuleInfo(13, 2), RuleInfo(13, 0), RuleInfo(13, 3), RuleInfo(14, 1),
    RuleInfo(15, 3), RuleInfo(15, 3), RuleInfo(15, 3), RuleInfo(15, 3), RuleInfo(15, 3),
    RuleInfo(15, 2), RuleInfo(15, 3), RuleInfo(15, 1)]

  function At(args: seq<real>, i: nat): real {
    if i < |args| then args[i] else 0.0
  }

  /** The product of rule 7, under a name that keeps nonlinear terms out of other proofs. */
  function Product(x: real, y: real): real { x * y }

  lemma ProductIsProduct(x: real, y: real)
    ensures Product(x, y) == x * y
  {
  }

  /** The reduce actions.  Rules without code leave the value unset, which `junk` stands for. */
  function RuleCode(pow: (real, real) -> real, junk: real, rule: nat, args: seq<real>): Effect<real> {
    match rule
    case 4 => Value(junk, [At(args, 0)])
    case 5 => Value(At(args, 0) - At(args, 2), [])
    case 6 => Value(At(args, 0) + At(args, 2), [])
    case 7 => Value(Product(At(args, 0), At(args, 2)), [])
    case 8 => if At(args, 2) != 0.0 then Value(At(args, 0) / At(args, 2), []) else Exit
    case 9 => Value(pow(At(args, 0), At(args, 2)), [])
    case 10 => Value(-At(args, 1), [])
    case 11 => Value(At(args, 1), [])
    case 12 => Value(At(args, 0), [])
    case _ => Value(junk, [])
  }

  /** The calculator driver over given tables; calculate_3.cpp uses CALC_TABLES. */
  function Machine(t: Tables, pow: (real, real) -> real, junk: real): Program<real> {
    Program(t, RULES, 100, (rule, args) => RuleCode(pow, junk, rule, args))
  }

  // ---------------------------------------------------------------- expressions

  datatype Op = Add | Sub | Mul | Div | Exp {
    function Tok(): nat {
      match this case Add => PLUS case Sub => MINUS case Mul => TIMES case Div => DIVIDE case Exp => POW
    }
    function Level(): nat {
      match this case Add => 1 case Sub => 1 case Mul => 2 case Div => 2 case Exp => 4
    }
    /** The level an operand must have to stand on the left or right without parentheses. */
    function LeftNeed(): nat {
      match this case Add => 1 case Sub => 1 case Mul => 2 case Div => 2 case Exp => 5
    }
    function RightNeed(): nat {
      match this case Add => 2 case Sub => 2 case _ => 3
    }
    /** The state after shifting the operator, the rule that reduces it. */
    function After(): nat {
      match this case Add => 8 case Sub => 6 case Mul => 10 case Div => 12 case Exp => 14
    }
    function Rule(): nat {
      match this case Add => 6 case Sub => 5 case Mul => 7 case Div => 8 case Exp => 9
    }
  }

  datatype Expr = Num(v: real) | Neg(e: Expr) | Bin(op: Op, l: Expr, r: Expr) | Paren(e: Expr) {
    function Level(): nat {
      match this case Bin(op, _, _) => op.Level() case Neg(_) => 3 case _ => 5
    }
  }

  /** The parentheses that are there suffice: sums are left-associative and weakest, then
      products, then unary minus, then powers, which are right-associative. */
  predicate WellParenthesized(e: Expr) {
    match e
    case Num(_) => true
    case Paren(a) => WellParenthesized(a)
    case Neg(a) => a.Level() >= 3 && WellParenthesized(a)
    case Bin(op, l, r) =>
      l.Level() >= op.LeftNeed() && r.Level() >= op.RightNeed() && WellParenthesized(l) && WellParenthesized(r)
  }

  function Wrap(e: Expr, need: nat): Expr {
    if e.Level() >= need then e else Paren(e)
  }

  /** Add parentheses exactly where an operand is too weak for its place. */
  function Parenthesize(e: Expr): Expr {
    match e
    case Num(_) => e
    case Paren(a) => Paren(Parenthesize(a))
    case Neg(a) => Neg(Wrap(Parenthesize(a), 3))
    case Bin(op, l, r) => Bin(op, Wrap(Parenthesize(l), op.LeftNeed()), Wrap(Parenthesize(r), op.RightNeed()))
  }

  function Print(e: Expr): seq<Token<real>> {
    match e
    case Num(v) => [Token(NUM, v)]
    case Neg(a) => [Token(MINUS, 0.0)] + Print(a)
    case Paren(a) => [Token(LP, 0.0)] + (Print(a) + [Token(RP, 0.0)])
    case Bin(op, l, r) => Print(l) + ([Token(op.Tok(), 0.0)] + Print(r))
  }

  function Apply(pow: (real, real) -> real, op: Op, x: real, y: real): Option<real> {
    match op
    case Add => Some(x + y)
    case Sub => Some(x - y)
    case Mul => Some(x * y)
    case Div => if y != 0.0 then Some(x / y) else None
    case Exp => Some(pow(x, y))
  }

  /** The value of an expression; None when a division by zero is met. */
  function Eval(pow: (real, real) -> real, e: Expr): Option<real> {
    match e
    case Num(v) => Some(v)
    case Paren(a) => Eval(pow, a)
    case Neg(a) => (match Eval(pow, a) case Some(x) => Some(-x) case None => None)
    case Bin(op, l, r) =>
      match Eval(pow, l)
      case None => None
      case Some(x) => match Eval(pow, r) case None => None case Some(y) => Apply(pow, op, x, y)
  }

  /** The value of an operation on operands with values, written out. */
  lemma OperationValues(pow: (real, real) -> real, l: Expr, r: Expr, x: real, y: real)
    requires Eval(pow, l) == Some(x) && Eval(pow, r) == Some(y)
    ensures Eval(pow, Bin(Add, l, r)) == Some(x + y) && Eval(pow, Bin(Sub, l, r)) == Some(x - y)
    ensures Eval(pow, Bin(Mul, l, r)) == Some(x * y) && Eval(pow, Bin(Exp, l, r)) == Some(pow(x, y))
    ensures Eval(pow, Bin(Div, l, r)) == if y == 0.0 then None else Some(x / y)
    ensures Eval(pow, Neg(l)) == Some(-x)
  {
  }

  /** How many stack entries parsing an expression needs. */
  function Need(e: Expr): nat {
    match e
    case Num(_) => 1
    case Neg(a) => 1 + Need(a)
    case Paren(a) => if Need(a) < 2 then 3 else 1 + Need(a)
    case Bin(_, l, r) => if Need(l) < 2 + Need(r) then 2 + Need(r) else Need(l)
  }

  /** How deep an expression is nested. */
  function Height(e: Expr): nat {
    match e
    case Num(_) => 0
    case Neg(a) => 1 + Height(a)
    case Paren(a) => 1 + Height(a)
    case Bin(_, l, r) => 1 + if Height(l) < Height(r) then Height(r) else Height(l)
  }

  /** Two entries for every level are enough, and sums and products of any length need no more than their operands on the right. */
  lemma {:induction false} NeedByHeight(e: Expr)
    ensures Need(e) <= 1 + 2 * Height(e)
    ensures e.Bin? && Need(e.r) + 2 <= Need(e.l) ==> Need(e) == Need(e.l)
  {
    match e
    case Num(_) =>
    case Neg(a) => NeedByHeight(a);
    case Paren(a) => NeedByHeight(a);
    case Bin(_, l, r) =>
      NeedByHeight(l);
      NeedByHeight(r);
  }

  lemma {:induction false} ParenthesizeOk(pow: (real, real) -> real, e: Expr)
    ensures WellParenthesized(Parenthesize(e)) && Parenthesize(e).Level() == e.Level()
    ensures Eval(pow, Parenthesize(e)) == Eval(pow, e)
  {
    match e
    case Num(_) =>
    case Paren(a) => ParenthesizeOk(pow, a);
    case Neg(a) => ParenthesizeOk(pow, a);
    case Bin(op, l, r) => ParenthesizeOk(pow, l); ParenthesizeOk(pow, r);
  }

  /** No parentheses are added where those that are there suffice. */
  lemma {:induction false} ParenthesizeAddsNoMore(e: Expr)
    ensures WellParenthesized(e) <==> Parenthesize(e) == e
  {
    match e
    case Num(_) =>
    case Paren(a) => ParenthesizeAddsNoMore(a);
    case Neg(a) =>
      ParenthesizeAddsNoMore(a);
      SameLevel(a);
    case Bin(op, l, r) =>
      ParenthesizeAddsNoMore(l);
      ParenthesizeAddsNoMore(r);
      SameLevel(l);
      SameLevel(r);
  }

  lemma SameLevel(e: Expr)
    ensures Parenthesize(e).Level() == e.Level() && (Paren(Parenthesize(e)) == e ==> e.Level() == 5)
  {
  }

  // ---------------------------------------------------------------- what the tables say

  predicate Expecting(s: nat) {
    s == 1 || s == 6 || s == 8 || s == 10 || s == 12 || s == 14 || s == 16 || s == 18
  }

  predicate IsOperator(la: nat) { PLUS <= la <= POW }

  function AfterOperator(la: nat): nat {
    if la == PLUS then 8 else if la == MINUS then 6 else if la == TIMES then 10 else if la == DIVIDE then 12 else 14
  }

  /** The action on each terminal, written out from the grammar: 22 + r reduces by rule r, 35 is an error. */
  function ActionOn(s: nat, la: nat): nat {
    if s == 0 then 24
    else if s == 2 then 23
    else if s == 3 then if la == NEWLINE then 4 else 35
    else if s == 4 then 25
    else if s == 5 then if IsOperator(la) then AfterOperator(la) else if la == NEWLINE then 26 else 35
    else if s == 7 || s == 9 then
      if IsOperator(la) && la > MINUS then AfterOperator(la) else if s == 7 then 27 else 28
    else if s == 11 || s == 13 || s == 15 || s == 17 then
      if la == POW then 14 else if s == 11 then 29 else if s == 13 then 30 else if s == 15 then 31 else 32
    else if s == 19 then if IsOperator(la) then AfterOperator(la) else if la == RP then 20 else 35
    else if s == 20 then 33
    else if s == 21 then 34
    else if la == NUM then 21 else if la == MINUS then 16 else if la == LP then 18
    else if s == 1 && la == NEWLINE then 2 else if s == 1 && la == 0 then 22 else 35
  }

  /** The goto on each nonterminal that can be reached; 36 accepts. */
  function GotoOn(s: nat, x: nat): nat {
    if s == 0 then if x == 12 then 36 else 1
    else if s == 1 then if x == 14 then 3 else 5
    else s + 1
  }

  predicate GotoDefined(s: nat, x: nat) {
    (s == 0 && (x == 12 || x == 13)) || (s == 1 && x == 14) || (Expecting(s) && x == EXPR)
  }

  /** Tables that behave as written out. */
  ghost predicate Conforms(t: Tables) {
    && t.Valid() && t.dim == Dimensions(22, 13, 11, 16)
    && (forall s: nat, la: nat :: s < 22 && la < 11 ==> t.FindShiftAction(s, la) == ActionOn(s, la))
    && (forall s: nat, x: nat :: s < 22 && GotoDefined(s, x) ==> t.FindReduceAction(s, x) == GotoOn(s, x))
  }

  /** One cell of the packed table, as the driver reads it. */
  function Cell(off: int, la: nat): Option<nat> {
    if 0 <= off + la < 38 && YYLOOKAHEAD[off + la] == la then Some(YYACTION[off + la]) else None
  }

  lemma Row13(la: nat)
    requires la < 11
    ensures Cell(13, la) == if la == 0 then Some(22) else if la == 2 then Some(16) else if la == 7 then Some(2) else if la == 8 then Some(18) else if la == 10 then Some(21) else None
  {
  }

  lemma RowMinus2(la: nat)
    requires la < 11
    ensures Cell(-2, la) == if la == 7 then Some(4) else None
  {
  }

  lemma RowMinus1(la: nat)
    requires la < 11
    ensures Cell(-1, la) == if la == 1 then Some(8) else if la == 2 then Some(6) else if la == 3 then Some(12) else if la == 4 then Some(10) else if la == 5 then Some(14) else if la == 7 then Some(26) else None
  {
  }

  lemma Row16(la: nat)
    requires la < 11
    ensures Cell(16, la) == if la == 2 then Some(16) else if la == 8 then Some(18) else if la == 10 then Some(21) else None
  {
  }

  lemma Row24(la: nat)
    requires la < 11
    ensures Cell(24, la) == if la == 3 then Some(12) else if la == 4 then Some(10) else if la == 5 then Some(14) else None
  {
  }

  lemma Row9(la: nat)
    requires la < 11
    ensures Cell(9, la) == if la == 5 then Some(14) else None
  {
  }

  lemma Row7(la: nat)
    requires la < 11
    ensures Cell(7, la) == if la == 1 then Some(8) else if la == 2 then Some(6) else if la == 3 then Some(12) else if la == 4 then Some(10) else if la == 5 then Some(14) else if la == 9 then Some(20) else None
  {
  }

  /** The offset and the default of a state, by the kind of state. */
  function OffsetOf(s: nat): int {
    if s == 1 then 13 else if s == 3 then -2 else if s == 5 then -1 else if s == 19 then 7
    else if s == 7 || s == 9 then 24
    else if s == 11 || s == 13 || s == 15 || s == 17 then 9
    else if Expecting(s) then 16 else -3
  }

  function DefaultOf(s: nat): nat {
    if s == 0 then 24 else if s == 2 then 23 else if s == 4 then 25 else if s == 20 then 33 else if s == 21 then 34
    else if s == 7 then 27 else if s == 9 then 28 else if s == 11 then 29 else if s == 13 then 30
    else if s == 15 then 31 else if s == 17 then 32 else 35
  }

  lemma Offsets(s: nat)
    requires s < 22
    ensures SHIFT_OFST[s] == OffsetOf(s)
  {
    if s < 11 {
      assert SHIFT_OFST[..11] == [-3, 13, -3, -2, -3, -1, 16, 24, 16, 24, 16];
      assert SHIFT_OFST[s] == SHIFT_OFST[..11][s];
    }
  }

  lemma Defaults(s: nat)
    requires s < 22
    ensures YYDEFAULT[s] == DefaultOf(s)
  {
    if s < 11 {
      assert YYDEFAULT[..11] == [24, 35, 23, 35, 25, 35, 35, 27, 35, 28, 35];
      assert YYDEFAULT[s] == YYDEFAULT[..11][s];
    }
  }

  lemma ShiftThroughCell(s: nat, la: nat)
    requires s < 22 && la < 11
    ensures CALC_TABLES.FindShiftAction(s, la) ==
            if SHIFT_OFST[s] == -3 then YYDEFAULT[s]
            else if Cell(SHIFT_OFST[s], la).Some? then Cell(SHIFT_OFST[s], la).value else YYDEFAULT[s]
  {
    ShiftLookup(CALC_TABLES, s, la);
  }

  /** The lookup of the driver, for tables whose size and default offset are those of the calculator. */
  lemma ShiftLookup(t: Tables, s: nat, la: nat)
    requires t.Valid() && s < t.dim.nstate && la < 11 && t.dim.NoCode() > 11 && |t.yyAction| == 38 && t.shiftUseDflt == -3
    ensures t.FindShiftAction(s, la) ==
            var off := t.shiftOfst[s];
            if off != -3 && 0 <= off + la < 38 && t.yyLookahead[off + la] == la then t.yyAction[off + la] else t.yyDefault[s]
  {
  }

  lemma ShiftEntry(s: nat, la: nat)
    requires s < 22 && la < 11
    ensures CALC_TABLES.FindShiftAction(s, la) == ActionOn(s, la)
  {
    ShiftThroughCell(s, la);
    Offsets(s);
    Defaults(s);
    if s == 1 { Row13(la); }
    else if s == 3 { RowMinus2(la); }
    else if s == 5 { RowMinus1(la); }
    else if s == 19 { Row7(la); }
    else if s == 7 || s == 9 { Row24(la); }
    else if OffsetOf(s) == 9 { Row9(la); }
    else if Expecting(s) { Row16(la); }
  }

  lemma ReduceLookup(t: Tables, s: nat, x: nat, off: int)
    requires t.Valid() && s < t.dim.nstate && x < t.dim.NoCode() && t.reduceOfst[s] == off != t.reduceUseDflt
    requires 0 <= off + x < |t.yyAction| && t.yyLookahead[off + x] == x
    ensures t.FindReduceAction(s, x) == t.yyAction[off + x]
  {
  }

  lemma Goto0()
    ensures CALC_TABLES.FindReduceAction(0, 12) == 36 && CALC_TABLES.FindReduceAction(0, 13) == 1
  {
  }

  lemma Goto1()
    ensures CALC_TABLES.FindReduceAction(1, 14) == 3 && CALC_TABLES.FindReduceAction(1, 15) == 5
  {
    var off := REDUCE_OFST[1];
    assert Cell(off, 14) == Some(3) && Cell(off, 15) == Some(5);
    ReduceLookup(CALC_TABLES, 1, 14, off);
    ReduceLookup(CALC_TABLES, 1, 15, off);
  }

  lemma GotoExpr(s: nat, off: int, target: nat)
    requires s < 22 && REDUCE_OFST[s] == off != -9 && Cell(off, 15) == Some(target)
    ensures CALC_TABLES.FindReduceAction(s, 15) == target
  {
    ReduceLookup(CALC_TABLES, s, 15, off);
  }

  lemma GotoSum()
    ensures CALC_TABLES.FindReduceAction(6, 15) == 7 && CALC_TABLES.FindReduceAction(8, 15) == 9
  {
    GotoExpr(6, REDUCE_OFST[6], 7);
    GotoExpr(8, REDUCE_OFST[8], 9);
  }

  lemma GotoProduct()
    ensures CALC_TABLES.FindReduceAction(10, 15) == 11 && CALC_TABLES.FindReduceAction(12, 15) == 13
  {
    GotoExpr(10, REDUCE_OFST[10], 11);
    GotoExpr(12, REDUCE_OFST[12], 13);
  }

  lemma GotoOther()
    ensures CALC_TABLES.FindReduceAction(14, 15) == 15 && CALC_TABLES.FindReduceAction(16, 15) == 17
    ensures CALC_TABLES.FindReduceAction(18, 15) == 19
  {
    GotoExpr(14, REDUCE_OFST[14], 15);
    GotoExpr(16, REDUCE_OFST[16], 17);
    GotoExpr(18, REDUCE_OFST[18], 19);
  }

  /** The packed tables of calculate_3.cpp say what the grammar means. */
  lemma CalcTablesConform()
    ensures Conforms(CALC_TABLES)
  {
    forall s: nat, la: nat | s < 22 && la < 11 ensures CALC_TABLES.FindShiftAction(s, la) == ActionOn(s, la) {
      ShiftEntry(s, la);
    }
    forall s: nat, x: nat | s < 22 && GotoDefined(s, x) ensures CALC_TABLES.FindReduceAction(s, x) == GotoOn(s, x) {
      Goto0(); Goto1(); GotoSum(); GotoProduct(); GotoOther();
    }
  }
}
