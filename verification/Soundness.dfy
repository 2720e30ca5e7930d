/**
 Soundness of generated parsers over whole runs.  The driver is instantiated with
 derivation trees as semantic values, so that the values on the stack are evidence of
 what has been recognised.
 */
module Soundness {
  import opened Grammars
  import opened Derivations
  import opened Items
  import opened States
  import opened Tables
  import opened Driver

  // ---------------------------------------------------------------- tables that follow an automaton

  ghost predicate ShiftsTo(st: State, x: nat, t: nat) {
    Shift(x, t) in st.shifts
  }

  /** What table lookups promise about the states they were made from. */
  ghost predicate Implements(g: Grammar, states: seq<State>, t: Tables) {
    && t.Valid() && 0 < t.dim.nstate == |states| && t.dim.nrule == |g.rules|
    && t.dim.nterminal == g.nterminal && t.dim.nsymbol == g.NSymbol()
    && (forall s, x: nat :: 0 <= s < |states| && x < g.nterminal ==> TerminalEntryOk(g, states[s], t, x, t.FindShiftAction(s, x)))
    && (forall s, k :: 0 <= s < |states| && 0 <= k < |states[s].shifts| && g.nterminal <= states[s].shifts[k].sym < g.NSymbol() ==>
          t.FindReduceAction(s, states[s].shifts[k].sym) == states[s].shifts[k].target)
    && t.FindReduceAction(0, g.start) == t.dim.AcceptAction()
  }

  /** On a terminal: a shift of the automaton, a reduce of a finished item, or an error; the
      rules of the start symbol are reduced only at end of input. */
  ghost predicate TerminalEntryOk(g: Grammar, st: State, t: Tables, x: nat, yyact: nat) {
    && (yyact < t.dim.nstate ==> ShiftsTo(st, x, yyact))
    && (t.dim.nstate <= yyact < t.dim.nstate + t.dim.nrule ==> ReduceOk(g, st, x, yyact - t.dim.nstate))
    && yyact <= t.dim.ErrorAction()
  }

  ghost predicate ReduceOk(g: Grammar, st: State, x: nat, r: nat) {
    && r < |g.rules| && Item(r, |g.rules[r].rhs|) in st.cfp
    && (g.rules[r].lhs == g.start ==> x == 0)
  }

  /** A grammar for which the generated parser works; the length of a right-hand side is
      stored in an unsigned char. */
  ghost predicate Usable(g: Grammar) {
    g.Valid() && g.StartOnNoRhs() && forall r :: 0 <= r < |g.rules| ==> |g.rules[r].rhs| < 256
  }

  /** The emitted yyRuleInfo table. */
  function RuleInfos(g: Grammar): seq<RuleInfo> {
    seq(|g.rules|, r requires 0 <= r < |g.rules| => RuleInfo(g.rules[r].lhs, |g.rules[r].rhs| % 256))
  }

  /** The emitted length of a right-hand side is the real one exactly when it fits an unsigned char;
      a reduce by a longer rule pops too little. */
  lemma RuleLengthKeptIff(g: Grammar, r: nat)
    requires r < |g.rules|
    ensures RuleInfos(g)[r].nrhs <= |g.rules[r].rhs|
    ensures RuleInfos(g)[r].nrhs == |g.rules[r].rhs| <==> |g.rules[r].rhs| < 256
  {
    var n := |g.rules[r].rhs|;
    assert n == n / 256 * 256 + n % 256;
  }

  function BuildTree(r: nat, kids: seq<Tree>): Effect<Tree> {
    Value(Node(r, kids), [])
  }

  function TreeParser(g: Grammar, t: Tables, depth: nat): Program<Tree> {
    Program(t, RuleInfos(g), depth, BuildTree)
  }

  // ---------------------------------------------------------------- what a stack of states remembers

  /** The item before `a` has its dot in front of `x` and is among `below`. */
  ghost predicate Behind(g: Grammar, below: seq<Item>, x: nat, a: Item) {
    a.dot > 0 && NextIs(g, Item(a.rule, a.dot - 1), x) && Item(a.rule, a.dot - 1) in below
  }

  ghost predicate DotsBehind(g: Grammar, below: seq<Item>, x: nat, items: seq<Item>) {
    forall a :: a in items && a.dot > 0 ==> Behind(g, below, x, a)
  }

  ghost predicate ShiftOk(g: Grammar, states: seq<State>, s: nat, x: nat, t: nat)
    requires s < |states|
  {
    x > 0 && 0 < t < |states| && DotsBehind(g, states[s].cfp, x, states[t].cfp)
  }

  ghost predicate InitialOk(g: Grammar, states: seq<State>, s: nat, r: nat)
    requires s < |states| && r < |g.rules|
  {
    if g.rules[r].lhs == g.start then s == 0 else HasShift(states[s], g.rules[r].lhs)
  }

  /** The properties of the automaton that the driver relies on: inner dots were reached by
      the shift into the state, and initial items have somewhere to go. */
  ghost predicate Remembers(g: Grammar, states: seq<State>) {
    && states != [] && (forall a :: a in states[0].cfp ==> a.dot == 0)
    && (forall s, k :: 0 <= s < |states| && 0 <= k < |states[s].shifts| ==>
          ShiftOk(g, states, s, states[s].shifts[k].sym, states[s].shifts[k].target))
    && (forall s, r :: 0 <= s < |states| && 0 <= r < |g.rules| && Item(r, 0) in states[s].cfp ==> InitialOk(g, states, s, r))
  }

  /** An item with the dot inside belongs to the basis. */
  lemma DottedItemInBasis(g: Grammar, st: State, a: Item)
    requires WellBuilt(g, st) && a in st.cfp && a.dot > 0
    ensures a in Elems(st.bp)
  {
    assert a in Elems(st.cfp);
    if a !in Elems(st.bp) {
      var b := ClosureItemIsGenerated(g, Elems(st.bp), Elems(st.cfp), a);
    }
  }

  lemma ShiftRemembers(g: Grammar, states: seq<State>, s: nat, k: nat)
    requires g.Valid() && Canonical(g, states) && s < |states| && k < |states[s].shifts|
    ensures ShiftOk(g, states, s, states[s].shifts[k].sym, states[s].shifts[k].target)
  {
    var x, t := states[s].shifts[k].sym, states[s].shifts[k].target;
    assert ShiftsSound(g, states, s) && WellBuilt(g, states[t]);
    TargetDots(g, states[s], x, states[t]);
    TargetBasis(g, states[s], x, states[t]);
  }

  lemma TargetDots(g: Grammar, from: State, x: nat, to: State)
    requires WellBuilt(g, to) && Elems(to.bp) == Advance(g, Elems(from.cfp), x)
    ensures DotsBehind(g, from.cfp, x, to.cfp)
  {
    forall a | a in to.cfp && a.dot > 0 ensures Behind(g, from.cfp, x, a) {
      DottedItemInBasis(g, to, a);
      assert a in Advance(g, Elems(from.cfp), x);
    }
  }

  /** A shift symbol is not `$`, and the target is not the start state. */
  lemma TargetBasis(g: Grammar, from: State, x: nat, to: State)
    requires g.Valid() && CanShift(g, from, x) && Elems(to.bp) == Advance(g, Elems(from.cfp), x)
    ensures x > 0 && Elems(to.bp) != StartItems(g)
  {
    var j :| 0 <= j < |from.cfp| && NextIs(g, from.cfp[j], x);
    var a := from.cfp[j];
    assert g.ValidRule(g.rules[a.rule]) && a in Elems(from.cfp);
    assert Item(a.rule, a.dot + 1) in Elems(to.bp);
  }

  /** Basis items of a state other than the first have an inner dot. */
  lemma LaterBasis(g: Grammar, states: seq<State>, s: nat, b: Item)
    requires g.Valid() && Canonical(g, states) && 0 < s < |states| && b in Elems(states[s].bp)
    ensures b.dot > 0
  {
    assert Reachable(states, s);
    var p :| IsRoute(states, p) && p[|p| - 1] == s;
    var i := |p| - 2;
    assert Leads(states[p[i]], p[i + 1]) && ShiftsSound(g, states, p[i]);
  }

  lemma InitialRemembers(g: Grammar, states: seq<State>, s: nat, r: nat)
    requires Usable(g) && Canonical(g, states) && s < |states| && r < |g.rules| && Item(r, 0) in states[s].cfp
    ensures InitialOk(g, states, s, r)
  {
    var st, b := states[s], Item(r, 0);
    assert WellBuilt(g, st) && b in Elems(st.cfp);
    assert b in Elems(st.bp) ==> s == 0 by {
      if b in Elems(st.bp) && s > 0 {
        LaterBasis(g, states, s, b);
      }
    }
    if b !in Elems(st.bp) {
      var a := ClosureItemIsGenerated(g, Elems(st.bp), Elems(st.cfp), b);
      var k :| 0 <= k < |st.cfp| && st.cfp[k] == a;
      assert CanShift(g, st, g.rules[r].lhs) && ShiftsComplete(g, st);
    }
  }

  /** The canonical collection has the properties the driver needs. */
  lemma CanonicalRemembers(g: Grammar, states: seq<State>)
    requires Usable(g) && Canonical(g, states)
    ensures Remembers(g, states)
  {
    forall a | a in states[0].cfp ensures a.dot == 0 {
      assert WellBuilt(g, states[0]);
      if a.dot > 0 {
        DottedItemInBasis(g, states[0], a);
      }
    }
    forall s, k | 0 <= s < |states| && 0 <= k < |states[s].shifts|
      ensures ShiftOk(g, states, s, states[s].shifts[k].sym, states[s].shifts[k].target)
    {
      ShiftRemembers(g, states, s, k);
    }
    forall s, r | 0 <= s < |states| && 0 <= r < |g.rules| && Item(r, 0) in states[s].cfp
      ensures InitialOk(g, states, s, r)
    {
      InitialRemembers(g, states, s, r);
    }
  }

  /** Reading a stack from the top: each state is reached from the one below by a shift. */
  ghost predicate Linked<M>(states: seq<State>, stack: seq<Entry<M>>) {
    && stack != [] && stack[0].stateno == 0
    && (forall i :: 0 <= i < |stack| ==> stack[i].stateno < |states|)
    && (forall i :: 0 < i < |stack| ==> ShiftsTo(states[stack[i - 1].stateno], stack[i].major, stack[i].stateno))
  }

  lemma StepBack<M>(g: Grammar, states: seq<State>, stack: seq<Entry<M>>, i: nat, a: Item)
    requires Remembers(g, states) && Linked(states, stack) && i < |stack|
    requires a in states[stack[i].stateno].cfp && a.dot > 0
    ensures i > 0 && Behind(g, states[stack[i - 1].stateno].cfp, stack[i].major, a)
  {
    assert i > 0;
    var s, t := stack[i - 1].stateno, stack[i].stateno;
    assert ShiftsTo(states[s], stack[i].major, t);
    var k :| 0 <= k < |states[s].shifts| && states[s].shifts[k] == Shift(stack[i].major, t);
    assert ShiftOk(g, states, s, states[s].shifts[k].sym, states[s].shifts[k].target);
  }

  /** A finished item finds its right-hand side on the stack, and its initial item below it. */
  lemma {:induction false} RightHandSideOnStack<M>(g: Grammar, states: seq<State>, stack: seq<Entry<M>>, i: nat, a: Item)
    requires Remembers(g, states) && Linked(states, stack) && i < |stack|
    requires a in states[stack[i].stateno].cfp && ValidItem(g, a)
    ensures a.dot <= i
    ensures forall j :: 0 <= j < a.dot ==> stack[i - a.dot + 1 + j].major == g.rules[a.rule].rhs[j]
    ensures Item(a.rule, 0) in states[stack[i - a.dot].stateno].cfp
    decreases a.dot
  {
    if a.dot > 0 {
      StepBack(g, states, stack, i, a);
      RightHandSideOnStack(g, states, stack, i - 1, Item(a.rule, a.dot - 1));
    } else {
      assert a == Item(a.rule, 0);
    }
  }

  /** Only the bottom of a stack is in state 0. */
  lemma OnlyBottomIsInitial<M>(g: Grammar, states: seq<State>, stack: seq<Entry<M>>, i: nat)
    requires Remembers(g, states) && Linked(states, stack) && 0 < i < |stack|
    ensures stack[i].stateno != 0
  {
    var s, t := stack[i - 1].stateno, stack[i].stateno;
    assert ShiftsTo(states[s], stack[i].major, t);
    var k :| 0 <= k < |states[s].shifts| && states[s].shifts[k] == Shift(stack[i].major, t);
    assert ShiftOk(g, states, s, states[s].shifts[k].sym, states[s].shifts[k].target);
  }

  // ---------------------------------------------------------------- the invariant of a run

  /** The tokens of `w` followed by the end-of-input token. */
  function Input(w: seq<nat>): seq<Token<Tree>> {
    seq(|w| + 1, i requires 0 <= i <= |w| => if i < |w| then Token(w[i], Leaf(w[i])) else Token(0, Leaf(0)))
  }

  /** Values above the bottom entry are derivation trees of their symbols. */
  ghost predicate TreesOk(g: Grammar, stack: seq<Entry<Tree>>) {
    forall i :: 0 < i < |stack| ==> ValidTree(g, stack[i].minor) && Root(g, stack[i].minor) == stack[i].major
  }

  /** `k` tokens have been shifted, and they are what the symbols on the stack derive. */
  ghost predicate RunningOk(g: Grammar, states: seq<State>, c: Conf<Tree>, w: seq<nat>, k: nat) {
    && k <= |w| && c.input == Input(w)[k..]
    && Linked(states, c.stack) && TreesOk(g, c.stack)
    && Yields(Minors(c.stack[1..])) == w[..k]
  }

  /** Safety: no underflow ever, and acceptance only of derivable strings, when nothing but the end mark is left. */
  ghost predicate Good(g: Grammar, states: seq<State>, c: Conf<Tree>, w: seq<nat>) {
    match c.status
    case Running => exists k: nat :: RunningOk(g, states, c, w, k)
    case Accepted => Derives(g, g.start, w) && c.input == Input(w)[|w|..]
    case Underflow => false
    case _ => true
  }

  lemma MinorsConcat(s: seq<Entry<Tree>>, t: seq<Entry<Tree>>)
    ensures Minors(s + t) == Minors(s) + Minors(t)
  {
  }

  lemma {:induction false} YieldsOne(t: Tree)
    ensures Yields([t]) == Yield(t)
  {
    assert [t][1..] == [] && Yields([]) == [];
  }

  /** Pushing a symbol whose tree yields `u` extends what the stack derives by `u`. */
  lemma PushYield(stack: seq<Entry<Tree>>, e: Entry<Tree>)
    requires stack != []
    ensures Yields(Minors((stack + [e])[1..])) == Yields(Minors(stack[1..])) + Yield(e.minor)
  {
    assert (stack + [e])[1..] == stack[1..] + [e];
    MinorsConcat(stack[1..], [e]);
    assert Minors([e]) == [e.minor];
    YieldsConcat(Minors(stack[1..]), [e.minor]);
    YieldsOne(e.minor);
  }

  lemma PushLinked<M>(states: seq<State>, stack: seq<Entry<M>>, e: Entry<M>)
    requires Linked(states, stack) && e.stateno < |states|
    requires ShiftsTo(states[stack[|stack| - 1].stateno], e.major, e.stateno)
    ensures Linked(states, stack + [e])
  {
  }

  lemma ShiftStep(g: Grammar, states: seq<State>, c: Conf<Tree>, w: seq<nat>, k: nat, yyact: nat)
    requires k < |w| && w[k] < g.NSymbol() && RunningOk(g, states, c, w, k) && yyact < |states|
    requires ShiftsTo(states[c.stack[|c.stack| - 1].stateno], w[k], yyact)
    ensures RunningOk(g, states, Conf(c.stack + [Entry(yyact, w[k], Leaf(w[k]))], c.input[1..], Running, c.printed), w, k + 1)
  {
    var e := Entry(yyact, w[k], Leaf(w[k]));
    PushLinked(states, c.stack, e);
    PushYield(c.stack, e);
    assert w[..k + 1] == w[..k] + [w[k]];
    assert Input(w)[k..][1..] == Input(w)[k + 1..];
  }

  /** Popping a right-hand side leaves a linked stack that knows what to do with the left-hand side. */
  lemma PopShape(g: Grammar, states: seq<State>, stack: seq<Entry<Tree>>, r: nat)
    requires Remembers(g, states) && Linked(states, stack)
    requires r < |g.rules| && Item(r, |g.rules[r].rhs|) in states[stack[|stack| - 1].stateno].cfp
    ensures var n := |g.rules[r].rhs|;
            && n < |stack| && Linked(states, stack[..|stack| - n])
            && (forall j :: 0 <= j < n ==> stack[|stack| - n + j].major == g.rules[r].rhs[j])
            && Item(r, 0) in states[stack[|stack| - n - 1].stateno].cfp
  {
    var n, top := |g.rules[r].rhs|, |stack| - 1;
    RightHandSideOnStack(g, states, stack, top, Item(r, n));
    LinkedPrefix(states, stack, |stack| - n);
    forall j | 0 <= j < n ensures stack[|stack| - n + j].major == g.rules[r].rhs[j] {
      assert |stack| - n + j == top - n + 1 + j;
    }
  }

  lemma LinkedPrefix<M>(states: seq<State>, stack: seq<Entry<M>>, m: nat)
    requires Linked(states, stack) && 0 < m <= |stack|
    ensures Linked(states, stack[..m])
  {
  }

  /** The popped trees form a derivation tree of the left-hand side with the same yield. */
  lemma PoppedTree(g: Grammar, stack: seq<Entry<Tree>>, r: nat)
    requires r < |g.rules| && |g.rules[r].rhs| < |stack| && TreesOk(g, stack)
    requires var n := |g.rules[r].rhs|; forall j :: 0 <= j < n ==> stack[|stack| - n + j].major == g.rules[r].rhs[j]
    ensures var n := |g.rules[r].rhs|;
            var rest, tree := stack[..|stack| - n], Node(r, Minors(stack[|stack| - n..]));
            && ValidTree(g, tree) && TreesOk(g, rest)
            && Yields(Minors(stack[1..])) == Yields(Minors(rest[1..])) + Yield(tree)
  {
    var n := |g.rules[r].rhs|;
    var rest, top := stack[..|stack| - n], stack[|stack| - n..];
    var kids := Minors(top);
    forall j | 0 <= j < n ensures Root(g, kids[j]) == g.rules[r].rhs[j] && ValidTree(g, kids[j]) {
      assert kids[j] == stack[|stack| - n + j].minor;
    }
    assert stack[1..] == rest[1..] + top;
    MinorsConcat(rest[1..], top);
    YieldsConcat(Minors(rest[1..]), kids);
  }

  /** What yy_reduce does to a stack that is deep enough. */
  lemma ReduceOutcome(g: Grammar, t: Tables, depth: nat, c: Conf<Tree>, r: nat)
    requires TreeParser(g, t, depth).Valid() && ValidStack(TreeParser(g, t, depth), c.stack)
    requires r < |g.rules| == t.dim.nrule && |g.rules[r].rhs| < 256 && |g.rules[r].rhs| < |c.stack|
    ensures var n, lhs := |g.rules[r].rhs|, g.rules[r].lhs;
            var rest, tree := c.stack[..|c.stack| - n], Node(r, Minors(c.stack[|c.stack| - n..]));
            var yyact := t.FindReduceAction(rest[|rest| - 1].stateno, lhs);
            var c' := Reduce(TreeParser(g, t, depth), c, r);
            && (yyact == t.dim.AcceptAction() ==> c'.status == Accepted)
            && (yyact < t.dim.nstate ==>
                  c' == Conf(rest + [Entry(yyact, lhs, tree)], c.input, c.status, c.printed) || c'.status == Overflow)
  {
    assert RuleInfos(g)[r] == RuleInfo(g.rules[r].lhs, |g.rules[r].rhs|);
    assert c.printed + [] == c.printed;
  }

  /** After a goto the run is where it was, with the right-hand side replaced. */
  lemma GotoStep(g: Grammar, states: seq<State>, c: Conf<Tree>, w: seq<nat>, k: nat, rest: seq<Entry<Tree>>, e: Entry<Tree>)
    requires RunningOk(g, states, c, w, k)
    requires Linked(states, rest) && TreesOk(g, rest) && e.stateno < |states|
    requires ShiftsTo(states[rest[|rest| - 1].stateno], e.major, e.stateno)
    requires ValidTree(g, e.minor) && Root(g, e.minor) == e.major
    requires Yields(Minors(c.stack[1..])) == Yields(Minors(rest[1..])) + Yield(e.minor)
    ensures RunningOk(g, states, Conf(rest + [e], c.input, Running, c.printed), w, k)
  {
    PushLinked(states, rest, e);
    PushYield(rest, e);
  }

  /** The goto entry for a left-hand side other than the start symbol. */
  lemma GotoEntry(g: Grammar, states: seq<State>, t: Tables, s: nat, lhs: nat)
    requires Remembers(g, states) && Implements(g, states, t) && s < |states|
    requires g.nterminal <= lhs < g.NSymbol() && HasShift(states[s], lhs)
    ensures t.FindReduceAction(s, lhs) < |states| && ShiftsTo(states[s], lhs, t.FindReduceAction(s, lhs))
  {
    var x :| 0 <= x < |states[s].shifts| && states[s].shifts[x].sym == lhs;
    assert ShiftOk(g, states, s, states[s].shifts[x].sym, states[s].shifts[x].target);
    assert states[s].shifts[x] == Shift(lhs, t.FindReduceAction(s, lhs));
  }

  /** The rule of the start symbol is reduced with nothing left below it. */
  lemma AcceptDerives(g: Grammar, states: seq<State>, c: Conf<Tree>, w: seq<nat>, r: nat, rest: seq<Entry<Tree>>, tree: Tree)
    requires Remembers(g, states) && RunningOk(g, states, c, w, |w|) && Linked(states, rest)
    requires r < |g.rules| && g.rules[r].lhs == g.start && Item(r, 0) in states[rest[|rest| - 1].stateno].cfp
    requires ValidTree(g, tree) && Root(g, tree) == g.start
    requires Yields(Minors(c.stack[1..])) == Yields(Minors(rest[1..])) + Yield(tree)
    ensures rest[|rest| - 1].stateno == 0 && Derives(g, g.start, w)
  {
    assert InitialOk(g, states, rest[|rest| - 1].stateno, r);
    if |rest| > 1 { OnlyBottomIsInitial(g, states, rest, |rest| - 1); }
    assert rest[1..] == [] && Yields(Minors(rest[1..])) == [];
    assert Yield(tree) == w[..|w|] == w;
  }

  /** Everything a reduce finds on the stack. */
  ghost predicate Popped(g: Grammar, states: seq<State>, stack: seq<Entry<Tree>>, r: nat, rest: seq<Entry<Tree>>, tree: Tree) {
    && r < |g.rules| && |g.rules[r].rhs| < |stack| && rest == stack[..|stack| - |g.rules[r].rhs|]
    && tree == Node(r, Minors(stack[|stack| - |g.rules[r].rhs|..]))
    && Linked(states, rest) && TreesOk(g, rest) && Item(r, 0) in states[rest[|rest| - 1].stateno].cfp
    && ValidTree(g, tree) && Root(g, tree) == g.rules[r].lhs
    && Yields(Minors(stack[1..])) == Yields(Minors(rest[1..])) + Yield(tree)
  }

  lemma PopRule(g: Grammar, states: seq<State>, stack: seq<Entry<Tree>>, r: nat) returns (rest: seq<Entry<Tree>>, tree: Tree)
    requires Remembers(g, states) && Linked(states, stack) && TreesOk(g, stack)
    requires r < |g.rules| && Item(r, |g.rules[r].rhs|) in states[stack[|stack| - 1].stateno].cfp
    ensures Popped(g, states, stack, r, rest, tree)
  {
    var n := |g.rules[r].rhs|;
    PopShape(g, states, stack, r);
    rest, tree := stack[..|stack| - n], Node(r, Minors(stack[|stack| - n..]));
    assert rest[|rest| - 1] == stack[|stack| - n - 1];
    assert Root(g, tree) == g.rules[r].lhs;
    PoppedTree(g, stack, r);
  }

  /** Reducing a rule of the start symbol at end of input accepts a derivable string. */
  lemma ReduceAccepts(g: Grammar, states: seq<State>, t: Tables, depth: nat, c: Conf<Tree>, w: seq<nat>, r: nat,
                      rest: seq<Entry<Tree>>, tree: Tree)
    requires Usable(g) && Remembers(g, states) && Implements(g, states, t) && TreeParser(g, t, depth).Valid()
    requires ValidStack(TreeParser(g, t, depth), c.stack) && RunningOk(g, states, c, w, |w|)
    requires Popped(g, states, c.stack, r, rest, tree) && g.rules[r].lhs == g.start
    ensures Good(g, states, Reduce(TreeParser(g, t, depth), c, r), w)
  {
    AcceptDerives(g, states, c, w, r, rest, tree);
    ReduceOutcome(g, t, depth, c, r);
  }

  /** Reducing any other rule pushes its left-hand side. */
  lemma ReduceGoes(g: Grammar, states: seq<State>, t: Tables, depth: nat, c: Conf<Tree>, w: seq<nat>, k: nat, r: nat,
                   rest: seq<Entry<Tree>>, tree: Tree)
    requires Usable(g) && Remembers(g, states) && Implements(g, states, t) && TreeParser(g, t, depth).Valid()
    requires ValidStack(TreeParser(g, t, depth), c.stack) && RunningOk(g, states, c, w, k) && c.status == Running
    requires Popped(g, states, c.stack, r, rest, tree) && g.rules[r].lhs != g.start
    ensures Good(g, states, Reduce(TreeParser(g, t, depth), c, r), w)
  {
    var lhs, s := g.rules[r].lhs, rest[|rest| - 1].stateno;
    assert g.ValidRule(g.rules[r]) && InitialOk(g, states, s, r);
    GotoEntry(g, states, t, s, lhs);
    GotoStep(g, states, c, w, k, rest, Entry(t.FindReduceAction(s, lhs), lhs, tree));
    ReduceOutcome(g, t, depth, c, r);
  }

  /** A reduce either accepts a derivable input or replaces a right-hand side by its left-hand side. */
  lemma ReduceStep(g: Grammar, states: seq<State>, t: Tables, depth: nat, c: Conf<Tree>, w: seq<nat>, k: nat, r: nat)
    requires Usable(g) && Remembers(g, states) && Implements(g, states, t) && TreeParser(g, t, depth).Valid()
    requires ValidStack(TreeParser(g, t, depth), c.stack) && RunningOk(g, states, c, w, k) && c.status == Running
    requires r < |g.rules| && Item(r, |g.rules[r].rhs|) in states[c.stack[|c.stack| - 1].stateno].cfp
    requires g.rules[r].lhs == g.start ==> k == |w|
    ensures Good(g, states, Reduce(TreeParser(g, t, depth), c, r), w)
  {
    var rest, tree := PopRule(g, states, c.stack, r);
    if g.rules[r].lhs == g.start {
      ReduceAccepts(g, states, t, depth, c, w, r, rest, tree);
    } else {
      ReduceGoes(g, states, t, depth, c, w, k, r, rest, tree);
    }
  }

  /** The end-of-input symbol is never shifted. */
  lemma ShiftNotAtEnd(g: Grammar, states: seq<State>, s: nat, x: nat, t: nat)
    requires Remembers(g, states) && s < |states| && ShiftsTo(states[s], x, t)
    ensures x > 0 && t < |states|
  {
    var k :| 0 <= k < |states[s].shifts| && states[s].shifts[k] == Shift(x, t);
    assert ShiftOk(g, states, s, states[s].shifts[k].sym, states[s].shifts[k].target);
  }

  /** The first token not yet shifted. */
  lemma NextToken(g: Grammar, states: seq<State>, c: Conf<Tree>, w: seq<nat>, k: nat)
    requires RunningOk(g, states, c, w, k) && forall i :: 0 <= i < |w| ==> 0 < w[i] < g.nterminal
    ensures c.input != [] && c.stack != [] && c.stack[|c.stack| - 1].stateno < |states|
    ensures c.input[0] == if k < |w| then Token(w[k], Leaf(w[k])) else Token(0, Leaf(0))
    ensures c.input[0].major == 0 <==> k == |w|
  {
    assert c.input[0] == Input(w)[k];
  }

  /** A shift keeps a running parser good. */
  lemma GoodShift(g: Grammar, states: seq<State>, p: Program<Tree>, c: Conf<Tree>, w: seq<nat>, k: nat, yyact: nat)
    requires g.Valid() && Remembers(g, states) && p.Valid() && p.tables.dim.nstate == |states| && ValidStack(p, c.stack)
    requires forall i :: 0 <= i < |w| ==> 0 < w[i] < g.nterminal
    requires RunningOk(g, states, c, w, k) && c.status == Running && c.stack != [] && c.input != []
    requires yyact == p.tables.FindShiftAction(c.stack[|c.stack| - 1].stateno, c.input[0].major)
    requires yyact < |states| && ShiftsTo(states[c.stack[|c.stack| - 1].stateno], c.input[0].major, yyact)
    ensures Good(g, states, Step(p, c), w)
  {
    NextToken(g, states, c, w, k);
    ShiftNotAtEnd(g, states, c.stack[|c.stack| - 1].stateno, c.input[0].major, yyact);
    ShiftStep(g, states, c, w, k, yyact);
  }

  /** A reduce keeps a running parser good, or accepts. */
  lemma GoodReduce(g: Grammar, states: seq<State>, t: Tables, depth: nat, c: Conf<Tree>, w: seq<nat>, k: nat, yyact: nat)
    requires Usable(g) && Remembers(g, states) && Implements(g, states, t) && TreeParser(g, t, depth).Valid()
    requires ValidStack(TreeParser(g, t, depth), c.stack) && RunningOk(g, states, c, w, k) && c.status == Running
    requires c.stack != [] && c.input != [] && c.stack[|c.stack| - 1].stateno < |states| && (c.input[0].major == 0 <==> k == |w|)
    requires yyact == t.FindShiftAction(c.stack[|c.stack| - 1].stateno, c.input[0].major)
    requires t.dim.nstate <= yyact < t.dim.nstate + t.dim.nrule
    requires ReduceOk(g, states[c.stack[|c.stack| - 1].stateno], c.input[0].major, yyact - t.dim.nstate)
    ensures Good(g, states, Step(TreeParser(g, t, depth), c), w)
  {
    ReduceStep(g, states, t, depth, c, w, k, yyact - t.dim.nstate);
    StepReduces(TreeParser(g, t, depth), c, yyact);
  }

  /** One round of the driver keeps a running parser good. */
  lemma GoodRound(g: Grammar, states: seq<State>, t: Tables, depth: nat, c: Conf<Tree>, w: seq<nat>, k: nat)
    requires Usable(g) && Remembers(g, states) && Implements(g, states, t) && TreeParser(g, t, depth).Valid()
    requires forall i :: 0 <= i < |w| ==> 0 < w[i] < g.nterminal
    requires ValidStack(TreeParser(g, t, depth), c.stack) && RunningOk(g, states, c, w, k) && c.status == Running
    ensures Good(g, states, Step(TreeParser(g, t, depth), c), w)
  {
    NextToken(g, states, c, w, k);
    var s, x := c.stack[|c.stack| - 1].stateno, c.input[0].major;
    var yyact := t.FindShiftAction(s, x);
    assert TerminalEntryOk(g, states[s], t, x, yyact);
    if yyact < t.dim.nstate {
      GoodShift(g, states, TreeParser(g, t, depth), c, w, k, yyact);
    } else if yyact < t.dim.nstate + t.dim.nrule {
      GoodReduce(g, states, t, depth, c, w, k, yyact);
    } else {
      StepFails(TreeParser(g, t, depth), c, yyact);
    }
  }

  lemma StepReduces(p: Program<Tree>, c: Conf<Tree>, yyact: nat)
    requires p.Valid() && ValidStack(p, c.stack) && c.status == Running && c.stack != [] && c.input != []
    requires yyact == p.tables.FindShiftAction(c.stack[|c.stack| - 1].stateno, c.input[0].major)
    requires p.tables.dim.nstate <= yyact < p.tables.dim.nstate + p.tables.dim.nrule
    ensures Step(p, c) == Reduce(p, c, yyact - p.tables.dim.nstate)
  {
  }

  lemma StepFails(p: Program<Tree>, c: Conf<Tree>, yyact: nat)
    requires p.Valid() && ValidStack(p, c.stack) && c.status == Running && c.stack != [] && c.input != []
    requires yyact == p.tables.FindShiftAction(c.stack[|c.stack| - 1].stateno, c.input[0].major)
    requires yyact == p.tables.dim.ErrorAction()
    ensures Step(p, c).status == SyntaxError
  {
  }

  lemma GoodStep(g: Grammar, states: seq<State>, t: Tables, depth: nat, c: Conf<Tree>, w: seq<nat>)
    requires Usable(g) && Remembers(g, states) && Implements(g, states, t) && TreeParser(g, t, depth).Valid()
    requires forall i :: 0 <= i < |w| ==> 0 < w[i] < g.nterminal
    requires ValidStack(TreeParser(g, t, depth), c.stack) && Good(g, states, c, w)
    ensures Good(g, states, Step(TreeParser(g, t, depth), c), w)
  {
    if c.status == Running {
      var k: nat :| RunningOk(g, states, c, w, k);
      GoodRound(g, states, t, depth, c, w, k);
    }
  }

  ghost function StartConf(w: seq<nat>): Conf<Tree> {
    Conf(InitialStack(Leaf(0)), Input(w), Running, [])
  }

  lemma StartIsGood(g: Grammar, states: seq<State>, w: seq<nat>)
    requires states != []
    ensures Good(g, states, StartConf(w), w)
  {
    var c := StartConf(w);
    assert c.stack[1..] == [] && Yields(Minors(c.stack[1..])) == [] == w[..0];
    assert Input(w)[0..] == Input(w);
    assert RunningOk(g, states, c, w, 0);
  }

  /** Main result: along every run on every input the stack derives exactly the tokens shifted,
      every reduce finds its right-hand side, and only derivable inputs are accepted. */
  lemma {:induction false} RunsAreSound(g: Grammar, states: seq<State>, t: Tables, depth: nat, w: seq<nat>, n: nat)
    requires Usable(g) && Remembers(g, states) && Implements(g, states, t) && TreeParser(g, t, depth).Valid()
    requires forall i :: 0 <= i < |w| ==> 0 < w[i] < g.nterminal
    ensures ValidStack(TreeParser(g, t, depth), StartConf(w).stack)
    ensures Good(g, states, Run(TreeParser(g, t, depth), StartConf(w), n), w)
  {
    if n == 0 {
      StartIsGood(g, states, w);
    } else {
      RunsAreSound(g, states, t, depth, w, n - 1);
      RunStaysGood(g, states, t, depth, TreeParser(g, t, depth), StartConf(w), w, n - 1);
    }
  }

  lemma RunStaysGood(g: Grammar, states: seq<State>, t: Tables, depth: nat, p: Program<Tree>, c: Conf<Tree>, w: seq<nat>, n: nat)
    requires Usable(g) && Remembers(g, states) && Implements(g, states, t) && p == TreeParser(g, t, depth) && p.Valid()
    requires forall i :: 0 <= i < |w| ==> 0 < w[i] < g.nterminal
    requires ValidStack(p, c.stack) && Good(g, states, Run(p, c, n), w)
    ensures Good(g, states, Run(p, c, n + 1), w)
  {
    var d := Run(p, c, n);
    GoodStep(g, states, t, depth, d, w);
    RunStep(p, c, n);
  }
}
