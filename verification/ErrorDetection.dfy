/**
 Where a generated parser without conflicts reports a syntax error: at a token with which no sentence goes on.
 Until then it cannot tell the input from any sentence that begins in the same way.
 */
module ErrorDetection {
  import opened Grammars
  import opened Derivations
  import opened Tables
  import opened Driver
  import opened Soundness
  import opened Completeness

  /** Two configurations that differ only in what comes behind the next tokens. */
  ghost predicate Twins(c: Conf<Tree>, d: Conf<Tree>, w: seq<nat>, v: seq<nat>, k: nat) {
    && k <= |w| + 1 && k <= |v| + 1
    && c.stack == d.stack && c.status == d.status && c.printed == d.printed
    && c.input == Input(w)[k..] && d.input == Input(v)[k..]
  }

  /** The inputs agree on their first `n` tokens, the end mark included. */
  ghost predicate Agree(w: seq<nat>, v: seq<nat>, n: nat) {
    n <= |w| + 1 && n <= |v| + 1 && forall i :: 0 <= i < n ==> Input(w)[i] == Input(v)[i]
  }

  lemma InputTail(w: seq<nat>, k: nat)
    requires k <= |w|
    ensures Input(w)[k..] != [] && Input(w)[k..][0] == Input(w)[k] && Input(w)[k..][1..] == Input(w)[k + 1..]
  {
  }

  /** A step takes one token or none. */
  lemma StepTakes(p: Program<Tree>, c: Conf<Tree>, w: seq<nat>, k: nat) returns (k': nat)
    requires p.Valid() && ValidStack(p, c.stack) && k <= |w| + 1 && c.input == Input(w)[k..]
    ensures k <= k' <= |w| + 1 && Step(p, c).input == Input(w)[k'..]
  {
    if k <= |w| { InputTail(w, k); }
    k' := if Step(p, c).input == c.input then k else k + 1;
  }

  lemma GotoIsLocal(p: Program<Tree>, c: Conf<Tree>, y: seq<Token<Tree>>, lhs: nat, minor: Tree)
    requires p.Valid() && ValidStack(p, c.stack) && c.stack != []
    ensures GotoSpec(p, c.(input := y), lhs, minor) == GotoSpec(p, c, lhs, minor).(input := y)
    ensures GotoSpec(p, c, lhs, minor).input == c.input
  {
  }

  /** A reduce does not look at the input. */
  lemma ReduceIsLocal(p: Program<Tree>, c: Conf<Tree>, y: seq<Token<Tree>>, rule: nat)
    requires p.Valid() && ValidStack(p, c.stack) && rule < |p.rules|
    ensures Reduce(p, c.(input := y), rule) == Reduce(p, c, rule).(input := y)
    ensures Reduce(p, c, rule).input == c.input
  {
    var n := p.rules[rule].nrhs;
    if |c.stack| > n {
      match p.code(rule, Minors(c.stack[|c.stack| - n..]))
      case Exit =>
      case Value(minor, printed) =>
        GotoIsLocal(p, c.(stack := c.stack[..|c.stack| - n], printed := c.printed + printed), y, p.rules[rule].lhs, minor);
    }
  }

  /** The configurations differ behind the next token at most, which a step takes from both or from neither. */
  ghost predicate SameStep(c: Conf<Tree>, d: Conf<Tree>, c': Conf<Tree>, d': Conf<Tree>)
    requires c.input != [] && d.input != []
  {
    && c'.stack == d'.stack && c'.status == d'.status && c'.printed == d'.printed
    && ((c'.input == c.input && d'.input == d.input) || (c'.input == c.input[1..] && d'.input == d.input[1..]))
  }

  lemma ReduceStepIsLocal(p: Program<Tree>, c: Conf<Tree>, y: seq<Token<Tree>>, r: nat)
    requires p.Valid() && ValidStack(p, c.stack) && c.status == Running && c.stack != [] && c.input != [] && y != [] && c.input[0] == y[0]
    requires r < p.tables.dim.nrule && p.tables.FindShiftAction(c.stack[|c.stack| - 1].stateno, y[0].major) == p.tables.dim.nstate + r
    ensures SameStep(c, c.(input := y), Step(p, c), Step(p, c.(input := y)))
  {
    StepReducesBy(p, c, r);
    StepReducesBy(p, c.(input := y), r);
    ReduceIsLocal(p, c, y, r);
  }

  lemma OtherStepIsLocal(p: Program<Tree>, c: Conf<Tree>, y: seq<Token<Tree>>)
    requires p.Valid() && ValidStack(p, c.stack) && c.input != [] && y != [] && c.input[0] == y[0]
    requires c.status == Running && c.stack != [] ==>
               var yyact := p.tables.FindShiftAction(c.stack[|c.stack| - 1].stateno, y[0].major);
               yyact < p.tables.dim.nstate || yyact >= p.tables.dim.nstate + p.tables.dim.nrule
    ensures SameStep(c, c.(input := y), Step(p, c), Step(p, c.(input := y)))
  {
  }

  /** A step looks at nothing behind the next token. */
  lemma StepIsLocal(p: Program<Tree>, c: Conf<Tree>, d: Conf<Tree>)
    requires p.Valid() && ValidStack(p, c.stack) && c.stack == d.stack && c.status == d.status && c.printed == d.printed
    requires c.input != [] && d.input != [] && c.input[0] == d.input[0]
    ensures SameStep(c, d, Step(p, c), Step(p, d))
  {
    assert d == c.(input := d.input);
    if c.status == Running && c.stack != [] {
      var yyact := p.tables.FindShiftAction(c.stack[|c.stack| - 1].stateno, c.input[0].major);
      if p.tables.dim.nstate <= yyact < p.tables.dim.nstate + p.tables.dim.nrule {
        ReduceStepIsLocal(p, c, d.input, yyact - p.tables.dim.nstate);
        return;
      }
    }
    OtherStepIsLocal(p, c, d.input);
  }

  /** On the same next token twins stay twins. */
  lemma TwinsStep(p: Program<Tree>, c: Conf<Tree>, d: Conf<Tree>, w: seq<nat>, v: seq<nat>, k: nat) returns (k': nat)
    requires p.Valid() && ValidStack(p, c.stack) && Twins(c, d, w, v, k) && k <= |w| && k <= |v| && Input(w)[k] == Input(v)[k]
    ensures k <= k' && Twins(Step(p, c), Step(p, d), w, v, k')
  {
    InputTail(w, k);
    InputTail(v, k);
    StepIsLocal(p, c, d);
    k' := if Step(p, c).input == c.input then k else k + 1;
    assert |c.input[1..]| < |c.input| && |d.input[1..]| < |d.input|;
  }

  /** Two runs on inputs that agree on the first `i + 1` tokens are twins as long as token `i` has not been taken. */
  ghost predicate Together(run: nat -> Conf<Tree>, run': nat -> Conf<Tree>, w: seq<nat>, v: seq<nat>, i: nat, n: nat) {
    exists k: nat :: k <= |w| + 1 && run(n).input == Input(w)[k..] && (k <= i ==> Twins(run(n), run'(n), w, v, k))
  }

  lemma {:induction false} RunTogether(p: Program<Tree>, run: nat -> Conf<Tree>, run': nat -> Conf<Tree>, w: seq<nat>, v: seq<nat>, i: nat, n: nat)
    requires IsRun(p, run) && IsRun(p, run') && run(0) == StartConf(w) && run'(0) == StartConf(v) && Agree(w, v, i + 1)
    ensures Together(run, run', w, v, i, n)
  {
    if n == 0 {
      assert Input(w)[0..] == Input(w) && Input(v)[0..] == Input(v);
      assert Twins(run(0), run'(0), w, v, 0);
    } else {
      RunTogether(p, run, run', w, v, i, n - 1);
      var k: nat :| k <= |w| + 1 && run(n - 1).input == Input(w)[k..] && (k <= i ==> Twins(run(n - 1), run'(n - 1), w, v, k));
      assert StepAt(p, run, n - 1) && StepAt(p, run', n - 1);
      if k <= i {
        var k' := TwinsStep(p, run(n - 1), run'(n - 1), w, v, k);
        assert Twins(run(n), run'(n), w, v, k');
      } else {
        var k' := StepTakes(p, run(n - 1), w, k);
      }
    }
  }

  /** The token at which a run stands is told by how many are left. */
  lemma StandsAt(w: seq<nat>, j: nat, k: nat)
    requires j <= |w| + 1 && k <= |w| + 1 && Input(w)[j..] == Input(w)[k..]
    ensures j == k
  {
    assert |Input(w)[j..]| == |w| + 1 - j && |Input(w)[k..]| == |w| + 1 - k;
  }

  /** On a sentence no run reports a syntax error. */
  lemma NoErrorOnSentence(m: Machine, t: Tree, n: nat)
    requires Working(m) && Sentence(m.g, t)
    ensures WholeRun(m, Yield(t))(n).status != SyntaxError
  {
    var run := WholeRun(m, Yield(t));
    RunIsSteps(m.p, StartConf(Yield(t)));
    var e;
    if StackFor(t) <= m.p.depth { e := AcceptsDerivable(m, t); } else { e := OverflowsOtherwise(m, t); }
    if n <= e {
      if run(n).status == SyntaxError { EndStays(m.p, run, n, e); }
    } else {
      EndStays(m.p, run, e, n);
    }
  }

  /** Main result: when a run reports a syntax error at token `i`, no sentence has the same tokens up to there, on a stack of any size. */
  lemma ErrorMeansNoSentence(m: Machine, w: seq<nat>, n: nat, i: nat, t: Tree)
    requires Working(m) && i <= |w| && WholeRun(m, w)(n).status == SyntaxError && WholeRun(m, w)(n).input == Input(w)[i..]
    requires Sentence(m.g, t)
    ensures !Agree(w, Yield(t), i + 1)
  {
    if Agree(w, Yield(t), i + 1) {
      var run, run' := WholeRun(m, w), WholeRun(m, Yield(t));
      RunIsSteps(m.p, StartConf(w));
      RunIsSteps(m.p, StartConf(Yield(t)));
      RunTogether(m.p, run, run', w, Yield(t), i, n);
      var k: nat :| k <= |w| + 1 && run(n).input == Input(w)[k..] && (k <= i ==> Twins(run(n), run'(n), w, Yield(t), k));
      StandsAt(w, i, k);
      NoErrorOnSentence(m, t, n);
    }
  }
}
