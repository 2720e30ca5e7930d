/**
 Completeness of generated parsers: when no state has two actions on one symbol, the driver accepts every
 derivable input for which its stack is deep enough. Hence it accepts exactly the language of the grammar.
 */
module Completeness {
  import opened Grammars
  import opened Derivations
  import opened Items
  import opened States
  import opened Tables
  import opened Driver
  import opened Soundness
  import opened FollowGraph
  import opened ViablePrefixes
  import opened Lookaheads

  // ---------------------------------------------------------------- tables without conflicts

  /** The tables do whatever the automaton and its follow sets suggest. */
  ghost predicate Obeys(g: Grammar, states: seq<State>, configs: seq<Config>, fws: seq<set<nat>>, t: Tables) {
    && Implements(g, states, t)
    && (forall s: nat, x: nat, s': nat :: x < g.nterminal && GoesTo(states, s, x, s') ==> t.FindShiftAction(s, x) == s')
    && (forall s: nat, x: nat, r: nat :: s < |states| && x < g.nterminal && r < |g.rules| && Finished(g, configs, fws, s, r, x) ==>
          t.FindShiftAction(s, x) == |states| + r)
  }

  /** Rule `r` is complete in state `s`, and `x` can come next. */
  ghost predicate Finished(g: Grammar, configs: seq<Config>, fws: seq<set<nat>>, s: nat, r: nat, x: nat)
    requires r < |g.rules|
  {
    InFollow(configs, fws, s, Item(r, |g.rules[r].rhs|), x)
  }

  /** A generated parser with everything that it was generated from. */
  datatype Machine = Machine(g: Grammar, f: FirstInfo, states: seq<State>, configs: seq<Config>, links: seq<seq<nat>>, fws: seq<set<nat>>,
                             p: Program<Tree>)

  ghost predicate Working(m: Machine) {
    && Usable(m.g) && Computed(m.g, m.f, m.states, m.configs, m.links, m.fws) && Obeys(m.g, m.states, m.configs, m.fws, m.p.tables)
    && m.p.Valid() && m.p == TreeParser(m.g, m.p.tables, m.p.depth)
  }

  // ---------------------------------------------------------------- trees of sentences

  /** All leaves are terminals other than the end mark. */
  ghost predicate Sentential(g: Grammar, t: Tree)
    decreases t
  {
    match t
    case Leaf(x) => 0 < x < g.nterminal
    case Node(_, kids) => forall i :: 0 <= i < |kids| ==> Sentential(g, kids[i])
  }

  /** How many stack entries the driver needs for a tree. */
  function Need(t: Tree): nat
    decreases t, 1
  {
    match t
    case Leaf(_) => 1
    case Node(_, kids) => if NeedAll(kids) > 1 then NeedAll(kids) else 1
  }

  /** For the children of a node one after the other, each above those before it. */
  function NeedAll(ts: seq<Tree>): nat
    decreases ts, 0
  {
    if ts == [] then 0
    else if Need(ts[0]) > 1 + NeedAll(ts[1..]) then Need(ts[0]) else 1 + NeedAll(ts[1..])
  }

  // ---------------------------------------------------------------- the stack

  /** The states on the stack are those that the prefix leads to, symbol by symbol. */
  ghost predicate Spells(states: seq<State>, stack: seq<Entry<Tree>>, prefix: seq<nat>) {
    |stack| == |prefix| + 1 && forall i :: 0 <= i <= |prefix| ==> Reaches(states, prefix[..i], stack[i].stateno)
  }

  lemma SpellsOn(states: seq<State>, stack: seq<Entry<Tree>>, prefix: seq<nat>, e: Entry<Tree>)
    requires Spells(states, stack, prefix) && GoesTo(states, stack[|prefix|].stateno, e.major, e.stateno)
    ensures Spells(states, stack + [e], prefix + [e.major])
  {
    assert prefix[..|prefix|] == prefix;
    ReachesOn(states, prefix, stack[|prefix|].stateno, e.major, e.stateno);
    assert (prefix + [e.major])[..|prefix| + 1] == prefix + [e.major];
    forall i | 0 <= i <= |prefix| + 1 ensures Reaches(states, (prefix + [e.major])[..i], (stack + [e])[i].stateno) {
      if i <= |prefix| {
        assert (prefix + [e.major])[..i] == prefix[..i];
      }
    }
  }

  lemma TopReaches(states: seq<State>, stack: seq<Entry<Tree>>, prefix: seq<nat>)
    requires Spells(states, stack, prefix)
    ensures Reaches(states, prefix, stack[|stack| - 1].stateno)
  {
    assert prefix[..|prefix|] == prefix;
  }

  /** Tokens that a scanner delivers before the end mark. */
  ghost predicate Tokens(g: Grammar, w: seq<nat>) {
    forall i :: 0 <= i < |w| ==> 0 < w[i] < g.nterminal
  }

  /** A parser in the midst of a run: what its stack spells and what is left to read. */
  ghost predicate Midst(m: Machine, c: Conf<Tree>, prefix: seq<nat>, rest: seq<nat>) {
    && m.p.Valid() && ValidStack(m.p, c.stack) && c.status == Running && Spells(m.states, c.stack, prefix)
    && c.input == Input(rest) && Tokens(m.g, rest)
  }

  /** One symbol more on the stack, with its tree. */
  ghost predicate Pushed(states: seq<State>, c: Conf<Tree>, c': Conf<Tree>, x: nat, t: Tree, rest: seq<nat>) {
    && c.stack != [] && |c'.stack| == |c.stack| + 1 && c'.stack[..|c.stack|] == c.stack
    && c'.stack[|c.stack|] == Entry(c'.stack[|c.stack|].stateno, x, t)
    && GoesTo(states, c.stack[|c.stack| - 1].stateno, x, c'.stack[|c.stack|].stateno)
    && c'.input == Input(rest) && c'.status == Running && c'.printed == c.printed
  }

  lemma PushedMidst(m: Machine, c: Conf<Tree>, c': Conf<Tree>, prefix: seq<nat>, rest: seq<nat>, x: nat, t: Tree, rest': seq<nat>)
    requires Midst(m, c, prefix, rest) && Pushed(m.states, c, c', x, t, rest') && ValidStack(m.p, c'.stack) && Tokens(m.g, rest')
    ensures Midst(m, c', prefix + [x], rest')
  {
    assert c'.stack == c.stack + [c'.stack[|c.stack|]];
    SpellsOn(m.states, c.stack, prefix, c'.stack[|c.stack|]);
  }

  lemma InputHead(w: seq<nat>)
    ensures Input(w) != [] && Input(w)[0].major == (w + [0])[0]
    ensures w != [] ==> Input(w)[0] == Token(w[0], Leaf(w[0])) && Input(w)[1..] == Input(w[1..])
  {
    if w != [] {
      forall i | 0 <= i < |w| ensures Input(w)[1..][i] == Input(w[1..])[i] {
        assert Input(w)[1..][i] == Input(w)[i + 1];
      }
    }
  }

  // ---------------------------------------------------------------- single steps

  /** The table entry for a terminal that the derivation has next. */
  lemma ShiftEntry(m: Machine, c: Conf<Tree>, prefix: seq<nat>, x: nat, rest: seq<nat>, a: Item) returns (s': nat)
    requires Working(m) && Midst(m, c, prefix, [x] + rest) && ValidFor(m.g, prefix, a) && NextIs(m.g, a, x)
    ensures m.p.tables.FindShiftAction(c.stack[|c.stack| - 1].stateno, x) == s' < m.p.tables.dim.nstate
    ensures GoesTo(m.states, c.stack[|c.stack| - 1].stateno, x, s')
    ensures x != 0 && c.input != [] && c.input[0] == Token(x, Leaf(x)) && c.input[1..] == Input(rest)
  {
    TopReaches(m.states, c.stack, prefix);
    var s := c.stack[|c.stack| - 1].stateno;
    StateHoldsValidItems(m.g, m.states, prefix, s, a);
    s' := ShiftOver(m.g, m.states, s, x, a);
    ShiftTarget(m.g, m.states, s, x, s');
    assert ([x] + rest)[0] == x && ([x] + rest)[1..] == rest;
    InputHead([x] + rest);
  }

  lemma StepShifts(p: Program<Tree>, c: Conf<Tree>, x: nat, s: nat)
    requires p.Valid() && ValidStack(p, c.stack) && c.status == Running && c.stack != [] && c.input != []
    requires c.input[0] == Token(x, Leaf(x)) && x != 0
    requires p.tables.FindShiftAction(c.stack[|c.stack| - 1].stateno, x) == s < p.tables.dim.nstate
    ensures if |c.stack| < p.depth then Step(p, c) == Conf(c.stack + [Entry(s, x, Leaf(x))], c.input[1..], Running, c.printed)
            else Step(p, c).status == Overflow
  {
  }

  /** A terminal that the derivation has next is shifted. */
  lemma ShiftsTerminal(m: Machine, c: Conf<Tree>, prefix: seq<nat>, x: nat, rest: seq<nat>, a: Item)
    requires Working(m) && Midst(m, c, prefix, [x] + rest) && ValidFor(m.g, prefix, a) && NextIs(m.g, a, x) && |c.stack| < m.p.depth
    ensures Pushed(m.states, c, Step(m.p, c), x, Leaf(x), rest)
  {
    var s' := ShiftEntry(m, c, prefix, x, rest, a);
    StepShifts(m.p, c, x, s');
  }

  /** The table entry for a complete right-hand side. */
  lemma ReduceEntry(g: Grammar, f: FirstInfo, states: seq<State>, configs: seq<Config>, links: seq<seq<nat>>, fws: seq<set<nat>>, t: Tables,
                    prefix: seq<nat>, s: nat, r: nat, fs: seq<Frame>, x: nat)
    requires Computed(g, f, states, configs, links, fws) && Obeys(g, states, configs, fws, t) && r < |g.rules| && x < g.nterminal
    requires Reaches(states, prefix, s) && NextBy(g, prefix, Item(r, |g.rules[r].rhs|), fs, x)
    ensures s < |states| && t.FindShiftAction(s, x) == |states| + r
  {
    ReachesValid(g, states, prefix, s);
    LookaheadArrives(g, f, states, configs, links, fws, prefix, s, Item(r, |g.rules[r].rhs|), fs, x);
    assert Finished(g, configs, fws, s, r, x);
  }

  lemma StepReducesBy(p: Program<Tree>, c: Conf<Tree>, r: nat)
    requires p.Valid() && ValidStack(p, c.stack) && c.status == Running && c.stack != [] && c.input != [] && r < p.tables.dim.nrule
    requires p.tables.FindShiftAction(c.stack[|c.stack| - 1].stateno, c.input[0].major) == p.tables.dim.nstate + r
    ensures Step(p, c) == Reduce(p, c, r)
  {
  }

  /** A complete right-hand side is reduced. */
  lemma ReducesRule(m: Machine, c: Conf<Tree>, prefix: seq<nat>, rest: seq<nat>, r: nat, fs: seq<Frame>)
    requires Working(m) && r < |m.g.rules| && Midst(m, c, prefix, rest)
    requires NextBy(m.g, prefix, Item(r, |m.g.rules[r].rhs|), fs, (rest + [0])[0])
    ensures Step(m.p, c) == Reduce(m.p, c, r)
  {
    TopReaches(m.states, c.stack, prefix);
    InputHead(rest);
    ReduceEntry(m.g, m.f, m.states, m.configs, m.links, m.fws, m.p.tables, prefix, c.stack[|c.stack| - 1].stateno, r, fs, (rest + [0])[0]);
    StepReducesBy(m.p, c, r);
  }

  /** The children of a node are on top of the stack. */
  ghost predicate OnTop(stack: seq<Entry<Tree>>, n: nat, kids: seq<Tree>) {
    |stack| == n + |kids| && n > 0 && Minors(stack[n..]) == kids
  }

  /** The reduce puts the node in the place of its children. */
  lemma ReducePushes(g: Grammar, states: seq<State>, p: Program<Tree>, c: Conf<Tree>, n: nat, r: nat, kids: seq<Tree>, below: nat, rest: seq<nat>)
    requires Usable(g) && Implements(g, states, p.tables) && p.Valid() && p == TreeParser(g, p.tables, p.depth) && ValidStack(p, c.stack)
    requires r < |g.rules| && OnTop(c.stack, n, kids) && |kids| == |g.rules[r].rhs| && n < p.depth && c.status == Running && c.input == Input(rest)
    requires g.rules[r].lhs != g.start && GoesTo(states, c.stack[n - 1].stateno, g.rules[r].lhs, below) && below < |states|
    ensures Reduce(p, c, r) == Conf(c.stack[..n] + [Entry(below, g.rules[r].lhs, Node(r, kids))], c.input, Running, c.printed)
  {
    assert g.ValidRule(g.rules[r]);
    assert p.rules[r] == RuleInfo(g.rules[r].lhs, |g.rules[r].rhs|);
    assert p.tables.FindReduceAction(c.stack[n - 1].stateno, g.rules[r].lhs) == below;
    assert c.printed + [] == c.printed;
    assert c.stack[..n][n - 1] == c.stack[n - 1];
  }

  /** The reduce by a start rule, above the bottom of the stack, accepts. */
  lemma ReduceAcceptsAtBottom(g: Grammar, states: seq<State>, p: Program<Tree>, c: Conf<Tree>, r: nat, kids: seq<Tree>)
    requires Usable(g) && Implements(g, states, p.tables) && p.Valid() && p == TreeParser(g, p.tables, p.depth) && ValidStack(p, c.stack)
    requires r < |g.rules| && OnTop(c.stack, 1, kids) && |kids| == |g.rules[r].rhs| && g.rules[r].lhs == g.start && c.stack[0].stateno == 0
    ensures Reduce(p, c, r).status == Accepted
  {
    assert p.rules[r] == RuleInfo(g.rules[r].lhs, |g.rules[r].rhs|);
    assert c.stack[..1][0] == c.stack[0];
  }

  // ---------------------------------------------------------------- whole trees

  /** The configurations of a run, one round after the other. */
  ghost predicate IsRun(p: Program<Tree>, run: nat -> Conf<Tree>) {
    forall k: nat :: StepAt(p, run, k)
  }

  /** What is asked of a node's rule and children. */
  ghost predicate NodeOk(g: Grammar, r: nat, kids: seq<Tree>) {
    && r < |g.rules| && Forest(g, kids, g.rules[r].rhs)
    && forall i :: 0 <= i < |kids| ==> Sentential(g, kids[i])
  }

  /** The derivation around a rule: what is before it, and what comes next behind it. */
  ghost predicate Around(g: Grammar, fs: seq<Frame>, x: nat, prefix: seq<nat>, rest: seq<nat>) {
    Spine(g, fs, x) && prefix == Before(g, fs, x) && (After(fs) + [0])[0] == (rest + [0])[0]
  }

  /** The derivation around the child at position `i`. */
  lemma AroundKid(g: Grammar, fs: seq<Frame>, r: nat, kids: seq<Tree>, i: nat, prefix: seq<nat>, rest: seq<nat>)
    requires NodeOk(g, r, kids) && i < |kids| && Around(g, fs, g.rules[r].lhs, prefix, rest)
    ensures Around(g, fs + [Frame(r, i, kids[i + 1..])], Root(g, kids[i]), prefix + g.rules[r].rhs[..i], Yields(kids[i + 1..]) + rest)
  {
    var fs' := fs + [Frame(r, i, kids[i + 1..])];
    assert fs'[..|fs|] == fs;
    var right, syms := kids[i + 1..], g.rules[r].rhs[i + 1..];
    forall k | 0 <= k < |right| ensures ValidTree(g, right[k]) && Root(g, right[k]) == syms[k] {
      assert right[k] == kids[i + 1 + k];
    }
    HeadSplits(fs');
  }

  lemma YieldsFrom(kids: seq<Tree>, i: nat, rest: seq<nat>)
    requires i < |kids|
    ensures Yields(kids[i..]) + rest == Yield(kids[i]) + (Yields(kids[i + 1..]) + rest)
  {
    assert kids[i..][1..] == kids[i + 1..];
  }

  lemma NeedFrom(kids: seq<Tree>, i: nat)
    requires i < |kids|
    ensures Need(kids[i]) <= NeedAll(kids[i..]) && 1 + NeedAll(kids[i + 1..]) <= NeedAll(kids[i..])
  {
    assert kids[i..][1..] == kids[i + 1..];
  }

  lemma OneMoreOnTop(states: seq<State>, c: Conf<Tree>, c': Conf<Tree>, base: nat, kids: seq<Tree>, i: nat, x: nat, rest: seq<nat>)
    requires i < |kids| && OnTop(c.stack, base, kids[..i]) && Pushed(states, c, c', x, kids[i], rest)
    ensures OnTop(c'.stack, base, kids[..i + 1]) && c'.stack[..base] == c.stack[..base]
  {
    var e := c'.stack[|c.stack|];
    assert c'.stack == c.stack + [e] && c'.stack[base..] == c.stack[base..] + [e];
    MinorsConcat(c.stack[base..], [e]);
    assert Minors([e]) == [kids[i]] && kids[..i + 1] == kids[..i] + [kids[i]];
  }

  /** The children done so far, and the rest to come. */
  ghost predicate KidsDone(m: Machine, c: Conf<Tree>, base: nat, prefix: seq<nat>, r: nat, kids: seq<Tree>, i: nat, rest: seq<nat>) {
    && NodeOk(m.g, r, kids) && i <= |kids| && OnTop(c.stack, base, kids[..i])
    && Midst(m, c, prefix + m.g.rules[r].rhs[..i], Yields(kids[i..]) + rest)
  }

  lemma FrameIsValid(g: Grammar, fs: seq<Frame>, x: nat, prefix: seq<nat>)
    requires fs != [] && Spine(g, fs, x) && prefix == Before(g, fs, x)
    ensures var a := Item(fs[|fs| - 1].rule, fs[|fs| - 1].dot); NextIs(g, a, x) && ValidFor(g, prefix, a)
  {
    assert ValidBy(g, prefix, Item(fs[|fs| - 1].rule, fs[|fs| - 1].dot), fs[..|fs| - 1]);
  }

  lemma NothingDone(m: Machine, c: Conf<Tree>, prefix: seq<nat>, r: nat, kids: seq<Tree>, rest: seq<nat>)
    requires ValidTree(m.g, Node(r, kids)) && Sentential(m.g, Node(r, kids)) && Midst(m, c, prefix, Yields(kids) + rest)
    ensures KidsDone(m, c, |c.stack|, prefix, r, kids, 0, rest)
  {
    assert prefix + m.g.rules[r].rhs[..0] == prefix && kids[0..] == kids && kids[..0] == [];
    assert c.stack[|c.stack|..] == [] && Minors(c.stack[|c.stack|..]) == [];
  }

  lemma TailTokens(g: Grammar, u: seq<nat>, v: seq<nat>)
    requires Tokens(g, u + v)
    ensures Tokens(g, v)
  {
    forall k | 0 <= k < |v| ensures 0 < v[k] < g.nterminal {
      assert (u + v)[|u| + k] == v[k];
    }
  }

  /** The next child has been pushed. */
  lemma NextKid(m: Machine, c: Conf<Tree>, e: Conf<Tree>, base: nat, prefix: seq<nat>, r: nat, kids: seq<Tree>, i: nat, rest: seq<nat>)
    requires KidsDone(m, c, base, prefix, r, kids, i, rest) && i < |kids| && ValidStack(m.p, e.stack)
    requires Pushed(m.states, c, e, Root(m.g, kids[i]), kids[i], Yields(kids[i + 1..]) + rest)
    ensures KidsDone(m, e, base, prefix, r, kids, i + 1, rest)
    ensures e.stack[..base] == c.stack[..base] && e.printed == c.printed && |e.stack| == |c.stack| + 1
  {
    var rhs, x, rest', all := m.g.rules[r].rhs, Root(m.g, kids[i]), Yields(kids[i + 1..]) + rest, Yields(kids[i..]) + rest;
    YieldsFrom(kids, i, rest);
    TailTokens(m.g, Yield(kids[i]), rest');
    PushedMidst(m, c, e, prefix + rhs[..i], all, x, kids[i], rest');
    assert rhs[..i + 1] == rhs[..i] + [x];
    assert (prefix + rhs[..i]) + [x] == prefix + (rhs[..i] + [x]);
    OneMoreOnTop(m.states, c, e, base, kids, i, x, rest');
  }

  /** With all children done the run stands before a reduce. */
  lemma KidsReduce(m: Machine, d: Conf<Tree>, base: nat, prefix: seq<nat>, fs: seq<Frame>, r: nat, kids: seq<Tree>, rest: seq<nat>)
    requires Working(m) && KidsDone(m, d, base, prefix, r, kids, |kids|, rest) && Around(m.g, fs, m.g.rules[r].lhs, prefix, rest)
    ensures Step(m.p, d) == Reduce(m.p, d, r) && OnTop(d.stack, base, kids) && d.input == Input(rest) && Tokens(m.g, rest)
  {
    var rhs := m.g.rules[r].rhs;
    assert rhs[..|kids|] == rhs && kids[|kids|..] == [] && [] + rest == rest && kids[..|kids|] == kids;
    assert NextBy(m.g, prefix + rhs, Item(r, |rhs|), fs, (rest + [0])[0]);
    ReducesRule(m, d, prefix + rhs, rest, r, fs);
  }

  /** The state under the children goes on over their left-hand side. */
  lemma GotoBelow(m: Machine, c: Conf<Tree>, prefix: seq<nat>, fs: seq<Frame>, x: nat) returns (below: nat)
    requires Working(m) && Spells(m.states, c.stack, prefix) && fs != [] && Spine(m.g, fs, x) && prefix == Before(m.g, fs, x)
    ensures below < |m.states| && GoesTo(m.states, c.stack[|c.stack| - 1].stateno, x, below) && x != m.g.start
  {
    FrameIsValid(m.g, fs, x, prefix);
    TopReaches(m.states, c.stack, prefix);
    var s, a := c.stack[|c.stack| - 1].stateno, Item(fs[|fs| - 1].rule, fs[|fs| - 1].dot);
    StateHoldsValidItems(m.g, m.states, prefix, s, a);
    below := ShiftOver(m.g, m.states, s, x, a);
    ShiftTarget(m.g, m.states, s, x, below);
  }

  /** The reduce pushes the node. */
  lemma NodePushed(m: Machine, c: Conf<Tree>, d: Conf<Tree>, prefix: seq<nat>, fs: seq<Frame>, r: nat, kids: seq<Tree>, rest: seq<nat>)
    requires Working(m) && KidsDone(m, d, |c.stack|, prefix, r, kids, |kids|, rest) && Around(m.g, fs, m.g.rules[r].lhs, prefix, rest)
    requires fs != [] && Spells(m.states, c.stack, prefix) && |c.stack| < m.p.depth && d.stack[..|c.stack|] == c.stack && d.printed == c.printed
    ensures Pushed(m.states, c, Step(m.p, d), m.g.rules[r].lhs, Node(r, kids), rest)
  {
    KidsReduce(m, d, |c.stack|, prefix, fs, r, kids, rest);
    var below := GotoBelow(m, c, prefix, fs, m.g.rules[r].lhs);
    assert d.stack[|c.stack| - 1] == d.stack[..|c.stack|][|c.stack| - 1];
    ReducePushes(m.g, m.states, m.p, d, |c.stack|, r, kids, below, rest);
  }

  lemma LeafPushed(m: Machine, run: nat -> Conf<Tree>, k: nat, prefix: seq<nat>, fs: seq<Frame>, x: nat, rest: seq<nat>)
    requires Working(m) && fs != [] && Around(m.g, fs, x, prefix, rest) && Midst(m, run(k), prefix, [x] + rest) && |run(k).stack| < m.p.depth
    requires StepAt(m.p, run, k)
    ensures Pushed(m.states, run(k), run(k + 1), x, Leaf(x), rest)
  {
    FrameIsValid(m.g, fs, x, prefix);
    ShiftsTerminal(m, run(k), prefix, x, rest, Item(fs[|fs| - 1].rule, fs[|fs| - 1].dot));
  }

  /** All children are done, and nothing else has changed. */
  ghost predicate DoneSince(m: Machine, c: Conf<Tree>, d: Conf<Tree>, base: nat, prefix: seq<nat>, r: nat, kids: seq<Tree>, rest: seq<nat>) {
    KidsDone(m, d, base, prefix, r, kids, |kids|, rest) && base <= |c.stack| && d.stack[..base] == c.stack[..base] && d.printed == c.printed
  }

  lemma NodeReduced(m: Machine, run: nat -> Conf<Tree>, k: nat, l: nat, base: nat, prefix: seq<nat>, fs: seq<Frame>, r: nat, kids: seq<Tree>, rest: seq<nat>)
    requires Working(m) && IsRun(m.p, run) && base == |run(k).stack| && DoneSince(m, run(k), run(l), base, prefix, r, kids, rest)
    requires Around(m.g, fs, m.g.rules[r].lhs, prefix, rest) && fs != [] && Spells(m.states, run(k).stack, prefix) && base < m.p.depth
    ensures Pushed(m.states, run(k), run(l + 1), m.g.rules[r].lhs, Node(r, kids), rest)
  {
    var c := run(k);
    assert c.stack[..|c.stack|] == c.stack;
    assert StepAt(m.p, run, l);
    NodePushed(m, c, run(l), prefix, fs, r, kids, rest);
  }

  /** The driver reads what a tree derives and pushes the tree. */
  lemma {:induction false} ParsesTree(m: Machine, run: nat -> Conf<Tree>, k: nat, prefix: seq<nat>, fs: seq<Frame>, t: Tree, rest: seq<nat>) returns (n: nat)
    requires Working(m) && IsRun(m.p, run) && ValidTree(m.g, t) && Sentential(m.g, t) && fs != [] && Around(m.g, fs, Root(m.g, t), prefix, rest)
    requires Midst(m, run(k), prefix, Yield(t) + rest) && |run(k).stack| + Need(t) <= m.p.depth
    ensures Pushed(m.states, run(k), run(n), Root(m.g, t), t, rest)
    decreases t, 0
  {
    match t
    case Leaf(x) =>
      n := k + 1;
      assert StepAt(m.p, run, k);
      LeafPushed(m, run, k, prefix, fs, x, rest);
    case Node(r, kids) =>
      var l := ParsesNode(m, run, k, |run(k).stack|, prefix, fs, r, kids, rest);
      n := l + 1;
      NodeReduced(m, run, k, l, |run(k).stack|, prefix, fs, r, kids, rest);
  }

  /** The children of a node. */
  lemma {:induction false} ParsesNode(m: Machine, run: nat -> Conf<Tree>, k: nat, base: nat, prefix: seq<nat>, fs: seq<Frame>, r: nat, kids: seq<Tree>, rest: seq<nat>)
    returns (l: nat)
    requires Working(m) && IsRun(m.p, run) && ValidTree(m.g, Node(r, kids)) && Sentential(m.g, Node(r, kids))
    requires Around(m.g, fs, m.g.rules[r].lhs, prefix, rest) && Midst(m, run(k), prefix, Yields(kids) + rest)
    requires base == |run(k).stack| && base + NeedAll(kids) <= m.p.depth
    ensures DoneSince(m, run(k), run(l), base, prefix, r, kids, rest)
    decreases kids, |kids| + 1
  {
    NothingDone(m, run(k), prefix, r, kids, rest);
    assert kids[0..] == kids;
    l := ParsesKids(m, run, k, base, prefix, fs, r, kids, 0, rest);
  }

  /** Child after child. */
  lemma {:induction false} ParsesKids(m: Machine, run: nat -> Conf<Tree>, k: nat, base: nat, prefix: seq<nat>, fs: seq<Frame>, r: nat, kids: seq<Tree>, i: nat, rest: seq<nat>)
    returns (n: nat)
    requires Working(m) && IsRun(m.p, run) && KidsDone(m, run(k), base, prefix, r, kids, i, rest) && Around(m.g, fs, m.g.rules[r].lhs, prefix, rest)
    requires |run(k).stack| + NeedAll(kids[i..]) <= m.p.depth
    ensures DoneSince(m, run(k), run(n), base, prefix, r, kids, rest)
    decreases kids, |kids| - i
  {
    if i == |kids| {
      n := k;
    } else {
      var before, rest' := prefix + m.g.rules[r].rhs[..i], Yields(kids[i + 1..]) + rest;
      AroundKid(m.g, fs, r, kids, i, prefix, rest);
      YieldsFrom(kids, i, rest);
      NeedFrom(kids, i);
      var l := ParsesTree(m, run, k, before, fs + [Frame(r, i, kids[i + 1..])], kids[i], rest');
      assert StepAt(m.p, run, l);
      NextKid(m, run(k), run(l), base, prefix, r, kids, i, rest);
      n := ParsesKids(m, run, l, base, prefix, fs, r, kids, i + 1, rest);
    }
  }

  // ---------------------------------------------------------------- stacks that are too small

  lemma ShiftOverflows(m: Machine, c: Conf<Tree>, prefix: seq<nat>, fs: seq<Frame>, x: nat, rest: seq<nat>)
    requires Working(m) && fs != [] && Around(m.g, fs, x, prefix, rest) && Midst(m, c, prefix, [x] + rest) && |c.stack| >= m.p.depth
    ensures Step(m.p, c).status == Overflow
  {
    FrameIsValid(m.g, fs, x, prefix);
    var s' := ShiftEntry(m, c, prefix, x, rest, Item(fs[|fs| - 1].rule, fs[|fs| - 1].dot));
    StepShifts(m.p, c, x, s');
  }

  lemma ReduceOverflows(g: Grammar, states: seq<State>, p: Program<Tree>, c: Conf<Tree>, n: nat, r: nat, kids: seq<Tree>, below: nat)
    requires Usable(g) && Implements(g, states, p.tables) && p.Valid() && p == TreeParser(g, p.tables, p.depth) && ValidStack(p, c.stack)
    requires r < |g.rules| && OnTop(c.stack, n, kids) && |kids| == |g.rules[r].rhs| && n >= p.depth
    requires g.rules[r].lhs != g.start && GoesTo(states, c.stack[n - 1].stateno, g.rules[r].lhs, below) && below < |states|
    ensures Reduce(p, c, r).status == Overflow
  {
    assert g.ValidRule(g.rules[r]);
    assert p.rules[r] == RuleInfo(g.rules[r].lhs, |g.rules[r].rhs|);
    assert p.tables.FindReduceAction(c.stack[n - 1].stateno, g.rules[r].lhs) == below;
    assert c.stack[..n][n - 1] == c.stack[n - 1];
  }

  /** The children fit, their left-hand side does not. */
  lemma NodeOverflows(m: Machine, run: nat -> Conf<Tree>, k: nat, l: nat, base: nat, prefix: seq<nat>, fs: seq<Frame>, r: nat, kids: seq<Tree>, rest: seq<nat>)
    requires Working(m) && IsRun(m.p, run) && base == |run(k).stack| && DoneSince(m, run(k), run(l), base, prefix, r, kids, rest)
    requires Around(m.g, fs, m.g.rules[r].lhs, prefix, rest) && fs != [] && Spells(m.states, run(k).stack, prefix) && base >= m.p.depth
    ensures run(l + 1).status == Overflow
  {
    var c, d := run(k), run(l);
    assert StepAt(m.p, run, l);
    KidsReduce(m, d, base, prefix, fs, r, kids, rest);
    var below := GotoBelow(m, c, prefix, fs, m.g.rules[r].lhs);
    assert d.stack[base - 1] == d.stack[..base][base - 1] == c.stack[..base][base - 1];
    ReduceOverflows(m.g, m.states, m.p, d, base, r, kids, below);
  }

  /** A tree that needs more than the stack has overflows it. */
  lemma {:induction false} TreeOverflows(m: Machine, run: nat -> Conf<Tree>, k: nat, prefix: seq<nat>, fs: seq<Frame>, t: Tree, rest: seq<nat>) returns (n: nat)
    requires Working(m) && IsRun(m.p, run) && ValidTree(m.g, t) && Sentential(m.g, t) && fs != [] && Around(m.g, fs, Root(m.g, t), prefix, rest)
    requires Midst(m, run(k), prefix, Yield(t) + rest) && |run(k).stack| + Need(t) > m.p.depth
    ensures run(n).status == Overflow
    decreases t, 0
  {
    match t
    case Leaf(x) =>
      n := k + 1;
      assert StepAt(m.p, run, k);
      ShiftOverflows(m, run(k), prefix, fs, x, rest);
    case Node(r, kids) =>
      NothingDone(m, run(k), prefix, r, kids, rest);
      assert kids[0..] == kids;
      if |run(k).stack| + NeedAll(kids) > m.p.depth {
        n := KidsOverflow(m, run, k, |run(k).stack|, prefix, fs, r, kids, 0, rest);
      } else {
        var l := ParsesKids(m, run, k, |run(k).stack|, prefix, fs, r, kids, 0, rest);
        n := l + 1;
        NodeOverflows(m, run, k, l, |run(k).stack|, prefix, fs, r, kids, rest);
      }
  }

  lemma {:induction false} KidsOverflow(m: Machine, run: nat -> Conf<Tree>, k: nat, base: nat, prefix: seq<nat>, fs: seq<Frame>, r: nat, kids: seq<Tree>, i: nat, rest: seq<nat>)
    returns (n: nat)
    requires Working(m) && IsRun(m.p, run) && KidsDone(m, run(k), base, prefix, r, kids, i, rest) && Around(m.g, fs, m.g.rules[r].lhs, prefix, rest)
    requires |run(k).stack| + NeedAll(kids[i..]) > m.p.depth
    ensures run(n).status == Overflow
    decreases kids, |kids| - i
  {
    SomeKidLeft(m.p, run(k), kids, i);
    var before, rest', fs' := prefix + m.g.rules[r].rhs[..i], Yields(kids[i + 1..]) + rest, fs + [Frame(r, i, kids[i + 1..])];
    AroundKid(m.g, fs, r, kids, i, prefix, rest);
    YieldsFrom(kids, i, rest);
    if |run(k).stack| + Need(kids[i]) > m.p.depth {
      n := TreeOverflows(m, run, k, before, fs', kids[i], rest');
    } else {
      var l := ParsesTree(m, run, k, before, fs', kids[i], rest');
      assert StepAt(m.p, run, l);
      NextKid(m, run(k), run(l), base, prefix, r, kids, i, rest);
      n := KidsOverflow(m, run, l, base, prefix, fs, r, kids, i + 1, rest);
    }
  }

  lemma SomeKidLeft(p: Program<Tree>, c: Conf<Tree>, kids: seq<Tree>, i: nat)
    requires p.Valid() && ValidStack(p, c.stack) && i <= |kids| && |c.stack| + NeedAll(kids[i..]) > p.depth
    ensures i < |kids|
    ensures |c.stack| + Need(kids[i]) > p.depth || |c.stack| + 1 + NeedAll(kids[i + 1..]) > p.depth
  {
    assert NeedAll(kids[|kids|..]) == 0 by { assert kids[|kids|..] == []; }
    assert i < |kids| ==> kids[i..][1..] == kids[i + 1..];
  }

  // ---------------------------------------------------------------- sentences

  lemma {:induction false} SententialYield(g: Grammar, t: Tree)
    requires Sentential(g, t)
    ensures Tokens(g, Yield(t))
    decreases t, 0
  {
    match t
    case Leaf(_) =>
    case Node(_, kids) => SententialYields(g, kids);
  }

  lemma {:induction false} SententialYields(g: Grammar, ts: seq<Tree>)
    requires forall i :: 0 <= i < |ts| ==> Sentential(g, ts[i])
    ensures Tokens(g, Yields(ts))
    decreases ts, 0
  {
    if ts != [] {
      SententialYield(g, ts[0]);
      SententialYields(g, ts[1..]);
    }
  }

  /** A tree whose yield has tokens only. */
  lemma {:induction false} TokensAreSentential(g: Grammar, t: Tree)
    requires Tokens(g, Yield(t))
    ensures Sentential(g, t)
    decreases t, 0
  {
    match t
    case Leaf(x) => assert Yield(t)[0] == x;
    case Node(_, kids) => AllSentential(g, kids);
  }

  lemma {:induction false} AllSentential(g: Grammar, ts: seq<Tree>)
    requires Tokens(g, Yields(ts))
    ensures forall i :: 0 <= i < |ts| ==> Sentential(g, ts[i])
    decreases ts, 0
  {
    if ts != [] {
      var y, ys := Yield(ts[0]), Yields(ts[1..]);
      forall i | 0 <= i < |y| ensures 0 < y[i] < g.nterminal { assert (y + ys)[i] == y[i]; }
      forall i | 0 <= i < |ys| ensures 0 < ys[i] < g.nterminal { assert (y + ys)[|y| + i] == ys[i]; }
      TokensAreSentential(g, ts[0]);
      AllSentential(g, ts[1..]);
      forall i | 0 <= i < |ts| ensures Sentential(g, ts[i]) {
        assert i > 0 ==> ts[i] == ts[1..][i - 1];
      }
    }
  }

  /** The whole run of a machine on an input. */
  ghost function WholeRun(m: Machine, w: seq<nat>): nat -> Conf<Tree>
    requires m.p.Valid()
  {
    RunFrom(m.p, StartConf(w))
  }

  lemma StartsWithNothing(m: Machine, r: nat, kids: seq<Tree>)
    requires Working(m) && NodeOk(m.g, r, kids) && m.g.rules[r].lhs == m.g.start
    ensures KidsDone(m, StartConf(Yields(kids)), 1, [], r, kids, 0, []) && Around(m.g, [], m.g.start, [], [])
  {
    var c, w := StartConf(Yields(kids)), Yields(kids);
    SententialYields(m.g, kids);
    assert w + [] == w && kids[0..] == kids && kids[..0] == [] && [] + m.g.rules[r].rhs[..0] == [];
    assert c.stack[1..] == [] && Minors(c.stack[1..]) == [];
    assert Reaches(m.states, [], 0);
  }

  /** The end of a run: the configuration whose reduce accepts. */
  ghost predicate BeforeAccept(m: Machine, d: Conf<Tree>, r: nat, kids: seq<Tree>) {
    && m.p.Valid() && ValidStack(m.p, d.stack) && d.status == Running && OnTop(d.stack, 1, kids) && r < |m.g.rules|
    && m.p.tables.FindShiftAction(d.stack[|d.stack| - 1].stateno, 0) == |m.states| + r
    && Step(m.p, d).status == Accepted
  }

  lemma AllRead(m: Machine, d: Conf<Tree>, r: nat, kids: seq<Tree>)
    requires Working(m) && KidsDone(m, d, 1, [], r, kids, |kids|, []) && m.g.rules[r].lhs == m.g.start && d.stack[0].stateno == 0
    ensures BeforeAccept(m, d, r, kids)
  {
    var rhs := m.g.rules[r].rhs;
    assert Around(m.g, [], m.g.start, [], []);
    KidsReduce(m, d, 1, [], [], r, kids, []);
    assert rhs[..|kids|] == rhs && [] + rhs == rhs && kids[|kids|..] == [];
    assert NextBy(m.g, rhs, Item(r, |rhs|), [], 0);
    TopReaches(m.states, d.stack, rhs);
    ReduceEntry(m.g, m.f, m.states, m.configs, m.links, m.fws, m.p.tables, rhs, d.stack[|d.stack| - 1].stateno, r, [], 0);
    ReduceAcceptsAtBottom(m.g, m.states, m.p, d, r, kids);
  }

  /** The run on the yield of a tree of the start symbol comes to its acceptance. */
  lemma ReadsSentence(m: Machine, r: nat, kids: seq<Tree>) returns (n: nat)
    requires Working(m) && NodeOk(m.g, r, kids) && m.g.rules[r].lhs == m.g.start && NeedAll(kids) < m.p.depth
    ensures BeforeAccept(m, WholeRun(m, Yields(kids))(n), r, kids)
  {
    var c := StartConf(Yields(kids));
    StartsWithNothing(m, r, kids);
    RunIsSteps(m.p, c);
    var run := WholeRun(m, Yields(kids));
    assert kids[0..] == kids;
    n := ParsesKids(m, run, 0, 1, [], [], r, kids, 0, []);
    assert run(n).stack[0] == run(n).stack[..1][0] == c.stack[..1][0];
    AllRead(m, run(n), r, kids);
  }

  /** A tree of a sentence. */
  ghost predicate Sentence(g: Grammar, t: Tree) {
    ValidTree(g, t) && Root(g, t) == g.start && Tokens(g, Yield(t))
  }

  lemma SentenceNode(g: Grammar, t: Tree) returns (r: nat, kids: seq<Tree>)
    requires g.Valid() && Sentence(g, t)
    ensures t == Node(r, kids) && NodeOk(g, r, kids) && g.rules[r].lhs == g.start
    ensures Yield(t) == Yields(kids) && NeedAll(kids) <= Need(t)
  {
    TokensAreSentential(g, t);
    r, kids := t.rule, t.kids;
  }

  lemma AcceptedNext(m: Machine, w: seq<nat>, k: nat, r: nat, kids: seq<Tree>)
    requires m.p.Valid() && BeforeAccept(m, WholeRun(m, w)(k), r, kids)
    ensures WholeRun(m, w)(k + 1).status == Accepted
  {
    RunIsSteps(m.p, StartConf(w));
    assert StepAt(m.p, WholeRun(m, w), k);
  }

  /** The stack entries that the driver needs for a sentence, the bottom entry among them. */
  function StackFor(t: Tree): nat {
    if t.Node? then 1 + NeedAll(t.kids) else 1
  }

  /** Every derivable input is accepted if the stack has the entries that its tree needs. */
  lemma AcceptsDerivable(m: Machine, t: Tree) returns (n: nat)
    requires Working(m) && Sentence(m.g, t) && StackFor(t) <= m.p.depth
    ensures WholeRun(m, Yield(t))(n).status == Accepted
  {
    var r, kids := SentenceNode(m.g, t);
    var k := ReadsSentence(m, r, kids);
    AcceptedNext(m, Yield(t), k, r, kids);
    n := k + 1;
  }

  /** On a smaller stack the run overflows. */
  lemma OverflowsOtherwise(m: Machine, t: Tree) returns (n: nat)
    requires Working(m) && Sentence(m.g, t) && StackFor(t) > m.p.depth
    ensures WholeRun(m, Yield(t))(n).status == Overflow
  {
    var r, kids := SentenceNode(m.g, t);
    StartsWithNothing(m, r, kids);
    RunIsSteps(m.p, StartConf(Yields(kids)));
    assert kids[0..] == kids;
    n := KidsOverflow(m, WholeRun(m, Yields(kids)), 0, 1, [], [], r, kids, 0, []);
  }

  /** Once a run has ended it stays as it is. */
  lemma {:induction false} EndStays(p: Program<Tree>, run: nat -> Conf<Tree>, k: nat, n: nat)
    requires IsRun(p, run) && run(k).status != Running && k <= n
    ensures run(n).status == run(k).status
    decreases n - k
  {
    if k < n {
      assert StepAt(p, run, k);
      EndStays(p, run, k + 1, n);
    }
  }

  /** Main result: the driver accepts a sentence exactly when its stack has the entries that its tree needs. */
  lemma AcceptsIffDeepEnough(m: Machine, t: Tree)
    requires Working(m) && Sentence(m.g, t)
    ensures (exists n: nat :: WholeRun(m, Yield(t))(n).status == Accepted) <==> StackFor(t) <= m.p.depth
  {
    var run := WholeRun(m, Yield(t));
    RunIsSteps(m.p, StartConf(Yield(t)));
    if StackFor(t) <= m.p.depth {
      var n := AcceptsDerivable(m, t);
    } else {
      var k := OverflowsOtherwise(m, t);
      forall n: nat ensures run(n).status != Accepted {
        if n <= k && run(n).status == Accepted { EndStays(m.p, run, n, k); }
        if k <= n { EndStays(m.p, run, k, n); }
      }
    }
  }

  lemma NotBefore(m: Machine, run: nat -> Conf<Tree>, i: nat, j: nat, r: nat, kids: seq<Tree>, r': nat, kids': seq<Tree>)
    requires IsRun(m.p, run) && BeforeAccept(m, run(i), r, kids) && BeforeAccept(m, run(j), r', kids')
    ensures i >= j
  {
    if i < j {
      assert StepAt(m.p, run, i);
      EndStays(m.p, run, i + 1, j);
    }
  }

  /** There is one configuration before acceptance, and it determines the tree. */
  lemma SameEnd(m: Machine, run: nat -> Conf<Tree>, i: nat, j: nat, r: nat, kids: seq<Tree>, r': nat, kids': seq<Tree>)
    requires IsRun(m.p, run) && BeforeAccept(m, run(i), r, kids) && BeforeAccept(m, run(j), r', kids')
    ensures r == r' && kids == kids'
  {
    NotBefore(m, run, i, j, r, kids, r', kids');
    NotBefore(m, run, j, i, r', kids', r, kids);
  }

  /** Main result: a grammar without conflicts is unambiguous. */
  lemma ConflictFreeIsUnambiguous(m: Machine, t: Tree, u: Tree)
    requires Working(m) && Sentence(m.g, t) && Sentence(m.g, u) && Yield(t) == Yield(u) && StackFor(t) <= m.p.depth && StackFor(u) <= m.p.depth
    ensures t == u
  {
    var r, kids := SentenceNode(m.g, t);
    var r', kids' := SentenceNode(m.g, u);
    var i := ReadsSentence(m, r, kids);
    var j := ReadsSentence(m, r', kids');
    RunIsSteps(m.p, StartConf(Yield(t)));
    SameEnd(m, WholeRun(m, Yield(t)), i, j, r, kids, r', kids');
  }
}
