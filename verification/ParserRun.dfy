/** A generated parser as a program uses it: one call of Parse per token, the end mark last. */
module ParserRun {
  import opened Grammars
  import opened Derivations
  import opened States
  import opened Tables
  import opened Driver
  import opened Soundness

  /** What the calls so far amount to: a run of the step function on the whole input. */
  ghost predicate Follows(p: Program<Tree>, w: seq<nat>, c: Conf<Tree>, n: nat) {
    p.Valid() && ValidStack(p, StartConf(w).stack) && c == Run(p, StartConf(w), n)
  }

  /** A running parser that has shifted `i` tokens has a stack. */
  lemma StackIsUp(g: Grammar, states: seq<State>, t: Tables, depth: nat, w: seq<nat>, c: Conf<Tree>, n: nat)
    requires Usable(g) && Remembers(g, states) && Implements(g, states, t) && TreeParser(g, t, depth).Valid()
    requires (forall i :: 0 <= i < |w| ==> 0 < w[i] < g.nterminal) && Follows(TreeParser(g, t, depth), w, c, n)
    ensures Good(g, states, c, w) && (c.status == Running ==> c.stack != [] && c.input != [])
  {
    RunsAreSound(g, states, t, depth, w, n);
    if c.status == Running {
      var k: nat :| RunningOk(g, states, c, w, k);
      NextToken(g, states, c, w, k);
    }
  }

  /** One call goes on with the run. */
  lemma RunGoesOn(p: Program<Tree>, w: seq<nat>, c: Conf<Tree>, n: nat, c': Conf<Tree>, m: nat)
    requires Follows(p, w, c, n) && ValidStack(p, c.stack) && c' == Run(p, c, m)
    ensures Follows(p, w, c', n + m)
  {
    RunSplit(p, StartConf(w), n, m);
  }

  /** The next call of Parse. */
  method Feed(parser: Parser<Tree>, tok: Token<Tree>, ghost rest: seq<Token<Tree>>, ghost w: seq<nat>, fuel: nat, ghost n: nat)
    returns (consumed: bool, ghost n': nat)
    requires parser.Valid() && parser.status == Running && (parser.yyidx < 0 ==> tok.major != 0)
    requires Follows(parser.p, w, parser.Entering(Leaf(0), [tok] + rest), n)
    modifies parser, parser.yystack
    ensures parser.Valid() && Follows(parser.p, w, parser.View(if consumed then rest else [tok] + rest), n')
  {
    ghost var c := parser.Entering(Leaf(0), [tok] + rest);
    ghost var m;
    m, consumed := parser.Parse(tok, fuel, Leaf(0), rest);
    n' := n + m;
    RunGoesOn(parser.p, w, c, n, parser.View(if consumed then rest else [tok] + rest), m);
  }

  lemma InputSplit(w: seq<nat>, i: nat)
    requires i <= |w|
    ensures Input(w)[i..] == [Input(w)[i]] + Input(w)[i + 1..]
    ensures Input(w)[i] == if i < |w| then Token(w[i], Leaf(w[i])) else Token(0, Leaf(0))
  {
  }

  /** The first call starts the run. */
  lemma RunBegins(p: Program<Tree>, w: seq<nat>)
    requires p.Valid()
    ensures Follows(p, w, StartConf(w), 0)
  {
    assert ValidStack(p, StartConf(w).stack);
  }

  /** Every run on this input satisfies `ok`, and a running parser has a stack. */
  ghost predicate Safe(p: Program<Tree>, w: seq<nat>, ok: Conf<Tree> -> bool) {
    forall c, n: nat :: Follows(p, w, c, n) ==> ok(c) && (c.status == Running ==> c.stack != [])
  }

  /** Tokens are fed as long as they are shifted. */
  method FeedAll(parser: Parser<Tree>, w: seq<nat>, fuel: nat, ghost ok: Conf<Tree> -> bool) returns (i: nat)
    requires parser.Valid() && parser.status == Running && parser.yyidx < 0 && parser.printed == [] && w != []
    requires (forall k :: 0 <= k < |w| ==> 0 < w[k]) && Safe(parser.p, w, ok)
    modifies parser, parser.yystack
    ensures parser.Valid() && i <= |w| + 1 && ok(parser.View(Input(w)[i..]))
  {
    i := 0;
    RunBegins(parser.p, w);
    assert Input(w)[0..] == Input(w);
    ghost var n: nat := 0;
    var consumed := true;
    while consumed && parser.status == Running && i <= |w|
      invariant i <= |w| + 1 && parser.Valid() && (i == 0 && consumed ==> parser.yyidx < 0 && parser.status == Running)
      invariant Follows(parser.p, w, if i == 0 && consumed then parser.Entering(Leaf(0), Input(w)[i..]) else parser.View(Input(w)[i..]), n)
      decreases consumed, |w| + 1 - i
    {
      InputSplit(w, i);
      assert i > 0 ==> parser.View(Input(w)[i..]).stack != [];
      consumed, n := Feed(parser, Input(w)[i], Input(w)[i + 1..], w, fuel, n);
      if consumed { i := i + 1; }
    }
    assert Follows(parser.p, w, parser.View(Input(w)[i..]), n);
  }

  /**
   A whole input. Along the way nothing underflows, and the parser accepts only a derivable input, at its
   end. An input without tokens leaves the parser as it was.
   */
  method ParseInput(g: Grammar, ghost states: seq<State>, t: Tables, depth: nat, w: seq<nat>, fuel: nat)
    returns (parser: Parser<Tree>, i: nat)
    requires Usable(g) && Canonical(g, states) && Implements(g, states, t) && depth > 0
    requires forall k :: 0 <= k < |w| ==> 0 < w[k] < g.nterminal
    ensures parser.Valid() && fresh(parser) && parser.p == TreeParser(g, t, depth) && i <= |w| + 1
    ensures w == [] ==> parser.status == Running && parser.yyidx == -1
    ensures w != [] ==> Good(g, states, parser.View(Input(w)[i..]), w)
  {
    SafeInput(g, states, t, depth, w);
    parser := new Parser(TreeParser(g, t, depth), Leaf(0));
    i := 0;
    if w != [] {
      i := FeedAll(parser, w, fuel, c => Good(g, states, c, w));
    }
  }

  lemma SafeInput(g: Grammar, states: seq<State>, t: Tables, depth: nat, w: seq<nat>)
    requires Usable(g) && Canonical(g, states) && Implements(g, states, t) && depth > 0
    requires forall k :: 0 <= k < |w| ==> 0 < w[k] < g.nterminal
    ensures TreeParser(g, t, depth).Valid() && Safe(TreeParser(g, t, depth), w, c => Good(g, states, c, w))
  {
    CanonicalRemembers(g, states);
    forall c, n: nat | Follows(TreeParser(g, t, depth), w, c, n)
      ensures Good(g, states, c, w) && (c.status == Running ==> c.stack != [])
    {
      StackIsUp(g, states, t, depth, w, c, n);
    }
  }
}
