/**
 The parser driver of the LEMON template (`Parse`, `yy_shift`, `yy_reduce`, `yy_accept`).

 The driver is generic in the type `M` of semantic values.  Its behaviour is given twice:
 as a step function on values, which the theorems speak about, and as a class with the
 mutable stack of the template, whose methods are proved to follow the step function.
 A syntax error ends the run: recovery through the `error` symbol is not modelled.
 */
module Driver {
  import opened Tables

  /** yyStackEntry. */
  datatype Entry<M> = Entry(stateno: nat, major: nat, minor: M)

  datatype Token<M> = Token(major: nat, minor: M)

  /** yyRuleInfo: the left-hand side and the length of the right-hand side. */
  datatype RuleInfo = RuleInfo(lhs: nat, nrhs: nat)

  /** What the code attached to a rule does: leave the program, or produce the value of the
      left-hand side and print something. */
  datatype Effect<M> = Exit | Value(minor: M, printed: seq<M>)

  /** A generated parser: tables, rules, stack size, code attached to rules. */
  datatype Program<!M> = Program(tables: Tables, rules: seq<RuleInfo>, depth: nat, code: (nat, seq<M>) -> Effect<M>) {
    ghost predicate Valid() {
      && tables.Valid() && depth > 0 && tables.dim.nstate > 0
      && |rules| == tables.dim.nrule
    }
  }

  /** How a run stands.  Underflow would be a reduce that pops more than the stack holds. */
  datatype Status = Running | Accepted | Overflow | SyntaxError | Exited | Underflow

  /** The stack, the tokens not yet shifted, the status and the output so far. */
  datatype Conf<M> = Conf(stack: seq<Entry<M>>, input: seq<Token<M>>, status: Status, printed: seq<M>)

  ghost predicate ValidStack<M>(p: Program<M>, stack: seq<Entry<M>>)
    requires p.Valid()
  {
    |stack| <= p.depth && forall i :: 0 <= i < |stack| ==> stack[i].stateno < p.tables.dim.nstate
  }

  /** The stack of a freshly initialised parser; the value of the bottom entry is never read. */
  function InitialStack<M>(blank: M): seq<Entry<M>> {
    [Entry(0, 0, blank)]
  }

  function Minors<M>(es: seq<Entry<M>>): seq<M> {
    seq(|es|, i requires 0 <= i < |es| => es[i].minor)
  }

  /** yy_shift: push, or clear the stack when it is full. */
  function Shift<M>(p: Program<M>, c: Conf<M>, stateno: nat, major: nat, minor: M): Conf<M> {
    if |c.stack| >= p.depth then c.(stack := [], status := Overflow)
    else c.(stack := c.stack + [Entry(stateno, major, minor)])
  }

  /** yy_reduce: run the code of the rule, pop its right-hand side, follow the goto. */
  function Reduce<M>(p: Program<M>, c: Conf<M>, rule: nat): Conf<M>
    requires p.Valid() && ValidStack(p, c.stack) && rule < |p.rules|
  {
    var n := p.rules[rule].nrhs;
    if |c.stack| <= n then c.(status := Underflow) else
      var rest := c.stack[..|c.stack| - n];
      match p.code(rule, Minors(c.stack[|c.stack| - n..]))
      case Exit => c.(status := Exited)
      case Value(minor, printed) =>
        GotoSpec(p, c.(stack := rest, printed := c.printed + printed), p.rules[rule].lhs, minor)
  }

  /** After a reduce: follow the goto on the left-hand side, or accept. */
  function GotoSpec<M>(p: Program<M>, c: Conf<M>, lhs: nat, minor: M): Conf<M>
    requires p.Valid() && ValidStack(p, c.stack) && c.stack != []
  {
    var yyact := p.tables.FindReduceAction(c.stack[|c.stack| - 1].stateno, lhs);
    if yyact < p.tables.dim.nstate then Shift(p, c, yyact, lhs, minor)
    else if yyact == p.tables.dim.AcceptAction() then c.(stack := [], status := Accepted)
    else c
  }

  /** One round of the loop in Parse, for the token at the head of the input. */
  function Step<M>(p: Program<M>, c: Conf<M>): Conf<M>
    requires p.Valid() && ValidStack(p, c.stack)
  {
    if c.status != Running || c.stack == [] || c.input == [] then c else
      var tok := c.input[0];
      var yyact := p.tables.FindShiftAction(c.stack[|c.stack| - 1].stateno, tok.major);
      if yyact < p.tables.dim.nstate then
        var c1 := Shift(p, c, yyact, tok.major, tok.minor);
        if tok.major == 0 && c1.stack != [] then c1 else c1.(input := c.input[1..])
      else if yyact < p.tables.dim.nstate + p.tables.dim.nrule then Reduce(p, c, yyact - p.tables.dim.nstate)
      else if yyact == p.tables.dim.ErrorAction() then c.(status := SyntaxError)
      else c.(stack := [], status := Accepted)
  }

  lemma StepKeepsValid<M>(p: Program<M>, c: Conf<M>)
    requires p.Valid() && ValidStack(p, c.stack)
    ensures ValidStack(p, Step(p, c).stack)
  {
  }

  /** The configuration after `n` rounds. */
  function Run<M(!new)>(p: Program<M>, c: Conf<M>, n: nat): (r: Conf<M>)
    requires p.Valid() && ValidStack(p, c.stack)
    ensures ValidStack(p, r.stack)
    decreases n
  {
    if n == 0 then c else
      StepKeepsValid(p, c);
      Run(p, Step(p, c), n - 1)
  }

  lemma {:induction false} RunSplit<M(!new)>(p: Program<M>, c: Conf<M>, m: nat, n: nat)
    requires p.Valid() && ValidStack(p, c.stack)
    ensures Run(p, c, m + n) == Run(p, Run(p, c, m), n)
    decreases m
  {
    if m > 0 {
      var c1 := RunUnfold(p, c, m, n);
      RunSplit(p, c1, m - 1, n);
    }
  }

  lemma RunUnfold<M(!new)>(p: Program<M>, c: Conf<M>, m: nat, n: nat) returns (c1: Conf<M>)
    requires p.Valid() && ValidStack(p, c.stack) && m > 0
    ensures ValidStack(p, c1.stack)
    ensures Run(p, c, m) == Run(p, c1, m - 1) && Run(p, c, m + n) == Run(p, c1, m - 1 + n)
  {
    StepKeepsValid(p, c);
    c1 := Step(p, c);
  }

  lemma RunStep<M(!new)>(p: Program<M>, c: Conf<M>, n: nat)
    requires p.Valid() && ValidStack(p, c.stack)
    ensures Run(p, c, n + 1) == Step(p, Run(p, c, n))
  {
    RunSplit(p, c, n, 1);
    var d := Run(p, c, n);
    StepKeepsValid(p, d);
    assert Run(p, d, 1) == Run(p, Step(p, d), 0);
  }

  /** `run` gets from round `k` to the next one by a step. */
  ghost predicate StepAt<M>(p: Program<M>, run: nat -> Conf<M>, k: nat) {
    p.Valid() && ValidStack(p, run(k).stack) && run(k + 1) == Step(p, run(k))
  }

  ghost function RunFrom<M(!new)>(p: Program<M>, c: Conf<M>): nat -> Conf<M>
    requires p.Valid() && ValidStack(p, c.stack)
  {
    (n: nat) => Run(p, c, n)
  }

  lemma RunIsSteps<M(!new)>(p: Program<M>, c: Conf<M>)
    requires p.Valid() && ValidStack(p, c.stack)
    ensures RunFrom(p, c)(0) == c && forall k: nat :: StepAt(p, RunFrom(p, c), k)
  {
    forall k: nat ensures StepAt(p, RunFrom(p, c), k) {
      RunStep(p, c, k);
    }
  }

  // ---------------------------------------------------------------- the mutable parser

  class Parser<M(!new)> {
    const p: Program<M>
    const yystack: array<Entry<M>>
    var yyidx: int
    var status: Status
    var printed: seq<M>

    ghost predicate Valid()
      reads this, yystack
    {
      && p.Valid() && yystack.Length == p.depth && -1 <= yyidx < p.depth
      && ValidStack(p, yystack[..yyidx + 1])
    }

    /** The part of the parser state that the step function speaks about. */
    ghost function View(input: seq<Token<M>>): Conf<M>
      requires Valid()
      reads this, yystack
    {
      Conf(yystack[..yyidx + 1], input, status, printed)
    }

    /** ParseAlloc: an empty stack. */
    constructor (p: Program<M>, blank: M)
      requires p.Valid()
      ensures Valid() && yyidx == -1 && status == Running && printed == [] && this.p == p && fresh(yystack)
    {
      this.p := p;
      yystack := new Entry<M>[p.depth](_ => Entry(0, 0, blank));
      yyidx, status, printed := -1, Running, [];
    }

    /** yy_shift; on overflow the stack is popped empty. */
    method YyShift(stateno: nat, major: nat, minor: M, ghost input: seq<Token<M>>)
      requires Valid() && stateno < p.tables.dim.nstate
      modifies this, yystack
      ensures Valid() && View(input) == Shift(p, old(View(input)), stateno, major, minor)
    {
      yyidx := yyidx + 1;
      if yyidx >= p.depth {
        yyidx := yyidx - 1;
        while yyidx >= 0
          invariant -1 <= yyidx < p.depth
          invariant status == old(status) && printed == old(printed)
          modifies this`yyidx
        {
          yyidx := yyidx - 1;
        }
        status := Overflow;
        return;
      }
      yystack[yyidx] := Entry(stateno, major, minor);
      assert yystack[..yyidx + 1] == old(yystack[..yyidx + 1]) + [Entry(stateno, major, minor)];
    }

    /** yy_reduce, together with the shift that must follow it. */
    method YyReduce(rule: nat, ghost input: seq<Token<M>>)
      requires Valid() && rule < |p.rules|
      modifies this, yystack
      ensures Valid() && View(input) == Reduce(p, old(View(input)), rule)
    {
      var n := p.rules[rule].nrhs;
      if yyidx + 1 <= n {
        status := Underflow;
        return;
      }
      var rhs := yystack[yyidx + 1 - n..yyidx + 1];
      assert rhs == yystack[..yyidx + 1][yyidx + 1 - n..];
      match p.code(rule, Minors(rhs))
      case Exit =>
        status := Exited;
      case Value(minor, out) =>
        ghost var c := View(input);
        Pop(n, out, input);
        Goto(p.rules[rule].lhs, minor, input);
    }

    /** Pop `n` entries and print what the rule printed. */
    method Pop(n: nat, out: seq<M>, ghost input: seq<Token<M>>)
      requires Valid() && n < yyidx + 1
      modifies this
      ensures Valid() && yyidx >= 0 && View(input) == var c := old(View(input)); c.(stack := c.stack[..|c.stack| - n], printed := c.printed + out)
    {
      assert yystack[..yyidx + 1 - n] == yystack[..yyidx + 1][..yyidx + 1 - n];
      yyidx := yyidx - n;
      printed := printed + out;
    }

    /** Follow the goto on a left-hand side, or accept. */
    method Goto(yygoto: nat, minor: M, ghost input: seq<Token<M>>)
      requires Valid() && yyidx >= 0
      modifies this, yystack
      ensures Valid() && View(input) == GotoSpec(p, old(View(input)), yygoto, minor)
    {
      assert yystack[..yyidx + 1][yyidx] == yystack[yyidx];
      var yyact := p.tables.FindReduceAction(yystack[yyidx].stateno, yygoto);
      if yyact < p.tables.dim.nstate {
        YyShift(yyact, yygoto, minor, input);
      } else if yyact == p.tables.dim.AcceptAction() {
        yyidx, status := -1, Accepted;
      }
    }

    /** Body of the loop in Parse for one token; `consumed` tells that the token was shifted. */
    method Round(tok: Token<M>, ghost rest: seq<Token<M>>, ghost next: Conf<M>) returns (consumed: bool)
      requires Valid() && status == Running && yyidx >= 0
      requires next == Step(p, View([tok] + rest))
      modifies this, yystack
      ensures Valid() && View(if consumed then rest else [tok] + rest) == next
    {
      consumed := false;
      ghost var input := [tok] + rest;
      assert input[1..] == rest;
      var yyact := p.tables.FindShiftAction(yystack[yyidx].stateno, tok.major);
      if yyact < p.tables.dim.nstate {
        YyShift(yyact, tok.major, tok.minor, input);
        consumed := !(tok.major == 0 && yyidx >= 0);
      } else if yyact < p.tables.dim.nstate + p.tables.dim.nrule {
        YyReduce(yyact - p.tables.dim.nstate, input);
      } else if yyact == p.tables.dim.ErrorAction() {
        status := SyntaxError;
      } else {
        yyidx, status := -1, Accepted;
      }
    }

    /** One more round of a run. */
    method Advance(tok: Token<M>, ghost rest: seq<Token<M>>, ghost run: nat -> Conf<M>, ghost n: nat) returns (consumed: bool)
      requires Valid() && status == Running && yyidx >= 0 && StepAt(p, run, n) && View([tok] + rest) == run(n)
      modifies this, yystack
      ensures Valid() && View(if consumed then rest else [tok] + rest) == run(n + 1)
    {
      consumed := Round(tok, rest, run(n + 1));
    }

    /** The loop in Parse.  `fuel` bounds the rounds, since cyclic grammars can reduce forever. */
    method Loop(tok: Token<M>, fuel: nat, ghost rest: seq<Token<M>>, ghost run: nat -> Conf<M>) returns (ghost n: nat, consumed: bool)
      requires Valid() && status == Running && yyidx >= 0 && View([tok] + rest) == run(0)
      requires forall k: nat :: StepAt(p, run, k)
      modifies this, yystack
      ensures Valid() && n <= fuel
      ensures View(if consumed then rest else [tok] + rest) == run(n)
      ensures consumed || status != Running || yyidx < 0 || n == fuel
    {
      n, consumed := 0, false;
      var left := fuel;
      while left > 0 && !consumed && status == Running && yyidx >= 0
        invariant Valid() && left >= 0 && left + n == fuel
        invariant View(if consumed then rest else [tok] + rest) == run(n)
      {
        assert StepAt(p, run, n);
        consumed := Advance(tok, rest, run, n);
        n, left := n + 1, left - 1;
      }
    }

    /** The parser as a call of Parse begins: an empty one is initialised. */
    ghost function Entering(blank: M, input: seq<Token<M>>): (c: Conf<M>)
      requires Valid()
      reads this, yystack
      ensures ValidStack(p, c.stack)
    {
      if yyidx < 0 then Conf(InitialStack(blank), input, status, printed) else View(input)
    }

    /** Parse: feed one token.  An empty parser is initialised first, and ignores end of input. */
    method Parse(tok: Token<M>, fuel: nat, blank: M, ghost rest: seq<Token<M>>) returns (ghost n: nat, consumed: bool)
      requires Valid() && status == Running
      modifies this, yystack
      ensures Valid()
      ensures old(yyidx) < 0 && tok.major == 0 ==> View(rest) == old(View(rest)) && !consumed
      ensures !(old(yyidx) < 0 && tok.major == 0) ==>
        View(if consumed then rest else [tok] + rest) == Run(p, old(Entering(blank, [tok] + rest)), n)
      ensures !(old(yyidx) < 0 && tok.major == 0) ==> consumed || status != Running || yyidx < 0 || n == fuel
    {
      n, consumed := 0, false;
      if yyidx < 0 {
        if tok.major == 0 { return; }
        yyidx := 0;
        yystack[0] := Entry(0, 0, blank);
        assert yystack[..1] == InitialStack(blank);
      }
      ghost var c := View([tok] + rest);
      RunIsSteps(p, c);
      n, consumed := Loop(tok, fuel, rest, RunFrom(p, c));
    }
  }
}
