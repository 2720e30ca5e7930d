/**
 What the states of the automaton stand for, in terms of derivations alone: a state holds exactly the items
 that are valid for the prefixes that lead to it, and their follow sets hold exactly what can come next.
 */
module ViablePrefixes {
  import opened Grammars
  import opened Derivations
  import opened Items
  import opened States

  // ---------------------------------------------------------------- derivations down to one symbol

  /** Trees for a string of symbols. */
  ghost predicate Forest(g: Grammar, ts: seq<Tree>, syms: seq<nat>) {
    && |ts| == |syms|
    && forall i :: 0 <= i < |ts| ==> ValidTree(g, ts[i]) && Root(g, ts[i]) == syms[i]
  }

  /** One rule on the way down a derivation. The way goes on at position `dot`; the symbols before it are
      not expanded, the trees `right` hang from those behind it. */
  datatype Frame = Frame(rule: nat, dot: nat, right: seq<Tree>)

  /** The frames, outermost first, lead from the start symbol to an occurrence of `x`. */
  ghost predicate Spine(g: Grammar, fs: seq<Frame>, x: nat) {
    if fs == [] then x == g.start
    else
      var f := fs[|fs| - 1];
      && f.rule < |g.rules| && f.dot < |g.rules[f.rule].rhs| && g.rules[f.rule].rhs[f.dot] == x
      && Forest(g, f.right, g.rules[f.rule].rhs[f.dot + 1..])
      && Spine(g, fs[..|fs| - 1], g.rules[f.rule].lhs)
  }

  /** The symbols to the left of that occurrence. */
  ghost function Before(g: Grammar, fs: seq<Frame>, x: nat): seq<nat>
    requires Spine(g, fs, x)
  {
    if fs == [] then []
    else
      var f := fs[|fs| - 1];
      Before(g, fs[..|fs| - 1], g.rules[f.rule].lhs) + g.rules[f.rule].rhs[..f.dot]
  }

  /** The symbols to its right. */
  function After(fs: seq<Frame>): seq<nat> {
    if fs == [] then [] else Yields(fs[|fs| - 1].right) + After(fs[..|fs| - 1])
  }

  /** Such a way is a derivation of the symbols to the left, the symbol, and those to the right. */
  lemma {:induction false} SpineDerives(g: Grammar, fs: seq<Frame>, x: nat, t: Tree)
    requires g.Valid() && Spine(g, fs, x) && ValidTree(g, t) && Root(g, t) == x
    ensures Derives(g, g.start, Before(g, fs, x) + Yield(t) + After(fs))
    decreases |fs|
  {
    if fs == [] {
      assert [] + Yield(t) + [] == Yield(t);
    } else {
      var f, outer := fs[|fs| - 1], fs[..|fs| - 1];
      var rule := g.rules[f.rule];
      var u := Plug(g, f, t);
      SpineDerives(g, outer, rule.lhs, u);
      Regroup(Before(g, outer, rule.lhs), rule.rhs[..f.dot], Yield(t), Yields(f.right), After(outer));
    }
  }

  lemma Regroup(p: seq<nat>, q: seq<nat>, y: seq<nat>, z: seq<nat>, o: seq<nat>)
    ensures p + (q + (y + z)) + o == (p + q) + y + (z + o)
  {
  }

  /** The tree of a frame with `t` in its place. */
  lemma Plug(g: Grammar, f: Frame, t: Tree) returns (u: Tree)
    requires g.Valid() && f.rule < |g.rules| && f.dot < |g.rules[f.rule].rhs| && ValidTree(g, t) && Root(g, t) == g.rules[f.rule].rhs[f.dot]
    requires Forest(g, f.right, g.rules[f.rule].rhs[f.dot + 1..])
    ensures ValidTree(g, u) && Root(g, u) == g.rules[f.rule].lhs
    ensures Yield(u) == g.rules[f.rule].rhs[..f.dot] + (Yield(t) + Yields(f.right))
  {
    var rhs := g.rules[f.rule].rhs;
    assert g.ValidRule(g.rules[f.rule]);
    var left := Leaves(rhs[..f.dot]);
    var kids := left + ([t] + f.right);
    u := Node(f.rule, kids);
    forall i | 0 <= i < |kids| ensures Root(g, kids[i]) == rhs[i] && ValidTree(g, kids[i]) {
      if i > f.dot {
        assert kids[i] == f.right[i - f.dot - 1];
      }
    }
    YieldsOfLeaves(rhs[..f.dot]);
    YieldsConcat(left, [t] + f.right);
    assert ([t] + f.right)[1..] == f.right;
  }

  lemma {:induction false} YieldsOfLeaves(w: seq<nat>)
    ensures Yields(Leaves(w)) == w
  {
    if w != [] {
      assert Leaves(w)[1..] == Leaves(w[1..]);
      YieldsOfLeaves(w[1..]);
    }
  }

  /** The item is valid for the prefix: a derivation comes to its rule with the prefix on the left up to the dot. */
  ghost predicate ValidFor(g: Grammar, prefix: seq<nat>, a: Item) {
    exists fs :: ValidBy(g, prefix, a, fs)
  }

  ghost predicate ValidBy(g: Grammar, prefix: seq<nat>, a: Item, fs: seq<Frame>) {
    && ValidItem(g, a) && Spine(g, fs, g.rules[a.rule].lhs)
    && prefix == Before(g, fs, g.rules[a.rule].lhs) + g.rules[a.rule].rhs[..a.dot]
  }

  // ---------------------------------------------------------------- prefixes and states

  /** What is used of the canonical collection, state by state. */
  ghost predicate Automaton(g: Grammar, states: seq<State>) {
    && states != [] && Elems(states[0].bp) == StartItems(g)
    && forall s :: 0 <= s < |states| ==> StateOk(g, states, s)
  }

  ghost predicate StateOk(g: Grammar, states: seq<State>, s: nat)
    requires s < |states|
  {
    WellBuilt(g, states[s]) && ShiftsSound(g, states, s) && ShiftsComplete(g, states[s])
  }

  lemma CanonicalIsAutomaton(g: Grammar, states: seq<State>)
    requires Canonical(g, states)
    ensures Automaton(g, states)
  {
  }

  function Front(w: seq<nat>): seq<nat>
    requires w != []
  {
    w[..|w| - 1]
  }

  function Last(w: seq<nat>): nat
    requires w != []
  {
    w[|w| - 1]
  }

  /** State `q` shifts `x` and goes to state `s`. */
  ghost predicate GoesTo(states: seq<State>, q: nat, x: nat, s: nat) {
    q < |states| && exists k :: 0 <= k < |states[q].shifts| && states[q].shifts[k] == Shift(x, s)
  }

  /** Shifting the symbols of the prefix leads from state 0 to state `s`. */
  ghost predicate Reaches(states: seq<State>, prefix: seq<nat>, s: nat) {
    if prefix == [] then s == 0
    else exists q: nat :: Reaches(states, Front(prefix), q) && GoesTo(states, q, Last(prefix), s)
  }

  lemma ReachesOn(states: seq<State>, prefix: seq<nat>, q: nat, x: nat, s: nat)
    requires Reaches(states, prefix, q) && GoesTo(states, q, x, s)
    ensures Reaches(states, prefix + [x], s)
  {
    assert Front(prefix + [x]) == prefix && Last(prefix + [x]) == x;
  }

  lemma LastShift(states: seq<State>, prefix: seq<nat>, x: nat, s: nat) returns (q: nat)
    requires Reaches(states, prefix + [x], s)
    ensures Reaches(states, prefix, q) && GoesTo(states, q, x, s)
  {
    assert Front(prefix + [x]) == prefix && Last(prefix + [x]) == x;
    q :| Reaches(states, prefix, q) && GoesTo(states, q, x, s);
  }

  /** What a shift leads to. */
  lemma ShiftTarget(g: Grammar, states: seq<State>, q: nat, x: nat, s: nat)
    requires Automaton(g, states) && GoesTo(states, q, x, s)
    ensures s < |states| && Elems(states[s].bp) == Advance(g, Elems(states[q].cfp), x) && CanShift(g, states[q], x)
  {
    assert StateOk(g, states, q);
  }

  lemma ReachesValid(g: Grammar, states: seq<State>, prefix: seq<nat>, s: nat)
    requires Automaton(g, states) && Reaches(states, prefix, s)
    ensures s < |states|
  {
    if prefix != [] {
      var q: nat :| Reaches(states, Front(prefix), q) && GoesTo(states, q, Last(prefix), s);
      ShiftTarget(g, states, q, Last(prefix), s);
    }
  }

  lemma BasisIsIn(g: Grammar, states: seq<State>, s: nat, a: Item)
    requires Automaton(g, states) && s < |states| && a in Elems(states[s].bp)
    ensures a in states[s].cfp
  {
    assert StateOk(g, states, s);
    assert a in Elems(states[s].cfp);
  }

  lemma ClosureIsIn(g: Grammar, states: seq<State>, s: nat, a: Item, b: Item)
    requires Automaton(g, states) && s < |states| && a in states[s].cfp && Generates(g, a, b)
    ensures b in states[s].cfp
  {
    assert StateOk(g, states, s);
    assert a in Elems(states[s].cfp) && b in Elems(states[s].cfp);
  }

  /** An item with its dot moved over a symbol is in the state behind the shift. */
  lemma AdvancedIsIn(g: Grammar, states: seq<State>, q: nat, x: nat, s: nat, a: Item)
    requires Automaton(g, states) && GoesTo(states, q, x, s) && a in states[q].cfp && NextIs(g, a, x)
    ensures s < |states| && Item(a.rule, a.dot + 1) in states[s].cfp
  {
    ShiftTarget(g, states, q, x, s);
    assert a in Elems(states[q].cfp) && Item(a.rule, a.dot + 1) in Advance(g, Elems(states[q].cfp), x);
    BasisIsIn(g, states, s, Item(a.rule, a.dot + 1));
  }

  /** Moving the dot back over the last symbol of the prefix. */
  lemma DotBack(g: Grammar, prefix: seq<nat>, a: Item, fs: seq<Frame>)
    requires ValidBy(g, prefix, a, fs) && a.dot > 0
    ensures prefix != [] && prefix[|prefix| - 1] == g.rules[a.rule].rhs[a.dot - 1]
    ensures ValidBy(g, prefix[..|prefix| - 1], Item(a.rule, a.dot - 1), fs)
  {
    var rhs, b := g.rules[a.rule].rhs, Before(g, fs, g.rules[a.rule].lhs);
    assert rhs[..a.dot] == rhs[..a.dot - 1] + [rhs[a.dot - 1]];
    assert b + (rhs[..a.dot - 1] + [rhs[a.dot - 1]]) == (b + rhs[..a.dot - 1]) + [rhs[a.dot - 1]];
  }

  /** An initial item comes from the item of the innermost frame. */
  lemma FrameItem(g: Grammar, prefix: seq<nat>, a: Item, fs: seq<Frame>)
    requires ValidBy(g, prefix, a, fs) && a.dot == 0 && fs != []
    ensures var f := fs[|fs| - 1]; ValidBy(g, prefix, Item(f.rule, f.dot), fs[..|fs| - 1]) && Generates(g, Item(f.rule, f.dot), a)
  {
    var b := Before(g, fs, g.rules[a.rule].lhs);
    assert b + [] == b;
  }

  /** Completeness: every item that is valid for a prefix is in the state that the prefix leads to. */
  lemma {:induction false} ValidItemsAreThere(g: Grammar, states: seq<State>, prefix: seq<nat>, s: nat, a: Item, fs: seq<Frame>)
    requires Automaton(g, states) && Reaches(states, prefix, s) && ValidBy(g, prefix, a, fs)
    ensures s < |states| && a in states[s].cfp
    decreases |prefix|, |fs|
  {
    ReachesValid(g, states, prefix, s);
    if a.dot > 0 {
      DotBack(g, prefix, a, fs);
      var x, back, b := prefix[|prefix| - 1], prefix[..|prefix| - 1], Item(a.rule, a.dot - 1);
      assert prefix == back + [x];
      var q := LastShift(states, back, x, s);
      ValidItemsAreThere(g, states, back, q, b, fs);
      AdvancedIsIn(g, states, q, x, s, b);
    } else if fs == [] {
      assert prefix == [] && a in StartItems(g);
      BasisIsIn(g, states, s, a);
    } else {
      FrameItem(g, prefix, a, fs);
      var f := Item(fs[|fs| - 1].rule, fs[|fs| - 1].dot);
      ValidItemsAreThere(g, states, prefix, s, f, fs[..|fs| - 1]);
      ClosureIsIn(g, states, s, f, a);
    }
  }

  /** One more frame, with any trees behind the dot. */
  lemma PushFrame(g: Grammar, prefix: seq<nat>, a: Item, fs: seq<Frame>, b: Item, right: seq<Tree>)
    requires ValidBy(g, prefix, a, fs) && Generates(g, a, b) && Forest(g, right, g.rules[a.rule].rhs[a.dot + 1..])
    ensures ValidBy(g, prefix, b, fs + [Frame(a.rule, a.dot, right)])
    ensures After(fs + [Frame(a.rule, a.dot, right)]) == Yields(right) + After(fs)
  {
    var f := Frame(a.rule, a.dot, right);
    assert (fs + [f])[..|fs|] == fs;
    assert Before(g, fs + [f], g.rules[b.rule].lhs) + [] == prefix;
  }

  lemma LeavesAreForest(g: Grammar, w: seq<nat>)
    requires forall i :: 0 <= i < |w| ==> w[i] < g.NSymbol()
    ensures Forest(g, Leaves(w), w)
  {
  }

  /** What the closure adds to valid items is valid. */
  lemma ValidIsClosed(g: Grammar, prefix: seq<nat>, d: set<Item>)
    requires g.Valid() && d == (set a | a in AllItems(g) && ValidFor(g, prefix, a))
    ensures Closed(g, d)
  {
    forall a, b | a in d && Generates(g, a, b) ensures b in d {
      var fs :| ValidBy(g, prefix, a, fs);
      assert g.ValidRule(g.rules[a.rule]);
      LeavesAreForest(g, g.rules[a.rule].rhs[a.dot + 1..]);
      PushFrame(g, prefix, a, fs, b, Leaves(g.rules[a.rule].rhs[a.dot + 1..]));
      assert ValidFor(g, prefix, b);
    }
  }

  /** Moving the dot over a symbol extends the prefix by it. */
  lemma DotForward(g: Grammar, prefix: seq<nat>, a: Item, fs: seq<Frame>, x: nat)
    requires ValidBy(g, prefix, a, fs) && NextIs(g, a, x)
    ensures ValidBy(g, prefix + [x], Item(a.rule, a.dot + 1), fs)
  {
    var rhs, b := g.rules[a.rule].rhs, Before(g, fs, g.rules[a.rule].lhs);
    assert rhs[..a.dot + 1] == rhs[..a.dot] + [x];
    assert (b + rhs[..a.dot]) + [x] == b + (rhs[..a.dot] + [x]);
  }

  /** The start items are valid for the empty prefix. */
  lemma StartIsValid(g: Grammar, d: set<Item>)
    requires d == (set a | a in AllItems(g) && ValidFor(g, [], a))
    ensures StartItems(g) <= d
  {
    forall a | a in StartItems(g) ensures a in d {
      assert Before(g, [], g.start) + g.rules[a.rule].rhs[..0] == [];
      assert ValidBy(g, [], a, []);
    }
  }

  lemma BasisIsValid(g: Grammar, from: State, back: seq<nat>, x: nat, d: set<Item>)
    requires (forall a :: a in from.cfp ==> ValidFor(g, back, a))
    requires d == (set a | a in AllItems(g) && ValidFor(g, back + [x], a))
    ensures Advance(g, Elems(from.cfp), x) <= d
  {
    forall b | b in Advance(g, Elems(from.cfp), x) ensures b in d {
      var a :| a in Elems(from.cfp) && NextIs(g, a, x) && b == Item(a.rule, a.dot + 1);
      var fs :| ValidBy(g, back, a, fs);
      DotForward(g, back, a, fs, x);
    }
  }

  /** A state whose basis is valid is valid. */
  lemma ClosureIsValid(g: Grammar, states: seq<State>, prefix: seq<nat>, s: nat, d: set<Item>)
    requires g.Valid() && Automaton(g, states) && s < |states|
    requires d == (set a | a in AllItems(g) && ValidFor(g, prefix, a)) && Elems(states[s].bp) <= d
    ensures forall a :: a in states[s].cfp ==> ValidFor(g, prefix, a)
  {
    ValidIsClosed(g, prefix, d);
    assert StateOk(g, states, s);
    forall a | a in states[s].cfp ensures ValidFor(g, prefix, a) {
      assert a in Elems(states[s].cfp) && a in d;
    }
  }

  /** Soundness: every item of the state is valid for the prefix. */
  lemma {:induction false} ItemsAreValid(g: Grammar, states: seq<State>, prefix: seq<nat>, s: nat)
    requires g.Valid() && Automaton(g, states) && Reaches(states, prefix, s)
    ensures s < |states| && forall a :: a in states[s].cfp ==> ValidFor(g, prefix, a)
    decreases |prefix|
  {
    ReachesValid(g, states, prefix, s);
    var d := set a | a in AllItems(g) && ValidFor(g, prefix, a);
    if prefix == [] {
      StartIsValid(g, d);
    } else {
      var x, back := prefix[|prefix| - 1], prefix[..|prefix| - 1];
      assert prefix == back + [x];
      var q := LastShift(states, back, x, s);
      ItemsAreValid(g, states, back, q);
      BasisIsValid(g, states[q], back, x, d);
      ShiftTarget(g, states, q, x, s);
    }
    ClosureIsValid(g, states, prefix, s, d);
  }

  /** Main result: a state holds exactly the items that are valid for a prefix that leads to it. */
  lemma StateHoldsValidItems(g: Grammar, states: seq<State>, prefix: seq<nat>, s: nat, a: Item)
    requires g.Valid() && Automaton(g, states) && Reaches(states, prefix, s)
    ensures s < |states| && (a in states[s].cfp <==> ValidFor(g, prefix, a))
  {
    ItemsAreValid(g, states, prefix, s);
    if ValidFor(g, prefix, a) {
      var fs :| ValidBy(g, prefix, a, fs);
      ValidItemsAreThere(g, states, prefix, s, a, fs);
    }
  }

  /** Main result for a whole automaton. */
  ghost predicate HoldsValidItems(g: Grammar, states: seq<State>) {
    forall prefix, s: nat :: Reaches(states, prefix, s) ==> HoldsFor(g, states, s, prefix)
  }

  ghost predicate HoldsFor(g: Grammar, states: seq<State>, s: nat, prefix: seq<nat>) {
    s < |states| && forall a :: a in states[s].cfp <==> ValidFor(g, prefix, a)
  }

  lemma CanonicalHoldsValidItems(g: Grammar, states: seq<State>)
    requires g.Valid() && Canonical(g, states)
    ensures HoldsValidItems(g, states)
  {
    CanonicalIsAutomaton(g, states);
    forall prefix, s: nat | Reaches(states, prefix, s) ensures HoldsFor(g, states, s, prefix) {
      ReachesValid(g, states, prefix, s);
      forall a ensures a in states[s].cfp <==> ValidFor(g, prefix, a) {
        StateHoldsValidItems(g, states, prefix, s, a);
      }
    }
  }

  /** Main result: the automaton leads somewhere on exactly the viable prefixes, those with a valid item. */
  lemma ReachesViablePrefixes(g: Grammar, states: seq<State>, prefix: seq<nat>)
    requires g.Valid() && Automaton(g, states) && StartItems(g) != {}
    ensures (exists s: nat :: Reaches(states, prefix, s)) <==> (exists a :: ValidFor(g, prefix, a))
  {
    if s: nat :| Reaches(states, prefix, s) {
      var a := SomeItem(g, states, prefix, s);
      StateHoldsValidItems(g, states, prefix, s, a);
      assert ValidFor(g, prefix, a);
    }
    if a :| ValidFor(g, prefix, a) {
      var s := PrefixLeads(g, states, prefix, a);
      assert Reaches(states, prefix, s);
    }
  }

  /** No reachable state is empty. */
  lemma SomeItem(g: Grammar, states: seq<State>, prefix: seq<nat>, s: nat) returns (a: Item)
    requires Automaton(g, states) && StartItems(g) != {} && Reaches(states, prefix, s)
    ensures s < |states| && a in states[s].cfp
  {
    if prefix == [] {
      a :| a in StartItems(g);
      BasisIsIn(g, states, 0, a);
    } else {
      var q: nat :| Reaches(states, Front(prefix), q) && GoesTo(states, q, Last(prefix), s);
      ShiftTarget(g, states, q, Last(prefix), s);
      var j :| 0 <= j < |states[q].cfp| && NextIs(g, states[q].cfp[j], Last(prefix));
      var b := states[q].cfp[j];
      AdvancedIsIn(g, states, q, Last(prefix), s, b);
      a := Item(b.rule, b.dot + 1);
    }
  }

  /** A prefix with a valid item leads somewhere. */
  lemma {:induction false} PrefixLeads(g: Grammar, states: seq<State>, prefix: seq<nat>, a: Item) returns (s: nat)
    requires g.Valid() && Automaton(g, states) && ValidFor(g, prefix, a)
    ensures Reaches(states, prefix, s)
    decreases |prefix|
  {
    if prefix == [] {
      s := 0;
    } else {
      var back, x, c := BeforeLast(g, prefix, a);
      var q := PrefixLeads(g, states, back, c);
      s := LeadsOn(g, states, back, x, q, c);
    }
  }

  lemma LeadsOn(g: Grammar, states: seq<State>, back: seq<nat>, x: nat, q: nat, c: Item) returns (s: nat)
    requires g.Valid() && Automaton(g, states) && Reaches(states, back, q) && ValidFor(g, back, c) && NextIs(g, c, x)
    ensures Reaches(states, back + [x], s)
  {
    StateHoldsValidItems(g, states, back, q, c);
    s := ShiftOver(g, states, q, x, c);
    ReachesOn(states, back, q, x, s);
  }

  /** Before its last symbol a prefix has a valid item with its dot before that symbol. */
  lemma BeforeLast(g: Grammar, prefix: seq<nat>, a: Item) returns (back: seq<nat>, x: nat, c: Item)
    requires ValidFor(g, prefix, a) && prefix != []
    ensures prefix == back + [x] && ValidFor(g, back, c) && NextIs(g, c, x)
  {
    var fs :| ValidBy(g, prefix, a, fs);
    var b, bs := DottedItem(g, prefix, a, fs);
    DotBack(g, prefix, b, bs);
    back, x, c := prefix[..|prefix| - 1], prefix[|prefix| - 1], Item(b.rule, b.dot - 1);
  }

  /** For a prefix with symbols an item with symbols before its dot is valid. */
  lemma {:induction false} DottedItem(g: Grammar, prefix: seq<nat>, a: Item, fs: seq<Frame>) returns (b: Item, bs: seq<Frame>)
    requires ValidBy(g, prefix, a, fs) && prefix != []
    ensures ValidBy(g, prefix, b, bs) && b.dot > 0
    decreases |fs|
  {
    if a.dot > 0 {
      b, bs := a, fs;
    } else {
      FrameItem(g, prefix, a, fs);
      b, bs := DottedItem(g, prefix, Item(fs[|fs| - 1].rule, fs[|fs| - 1].dot), fs[..|fs| - 1]);
    }
  }

  lemma ShiftOver(g: Grammar, states: seq<State>, q: nat, x: nat, a: Item) returns (t: nat)
    requires Automaton(g, states) && q < |states| && a in states[q].cfp && NextIs(g, a, x)
    ensures GoesTo(states, q, x, t)
  {
    var j :| 0 <= j < |states[q].cfp| && states[q].cfp[j] == a;
    assert StateOk(g, states, q) && CanShift(g, states[q], x);
    var k :| 0 <= k < |states[q].shifts| && states[q].shifts[k].sym == x;
    t := states[q].shifts[k].target;
    assert states[q].shifts[k] == Shift(x, t);
  }

  /** Every state is reached by some prefix. */
  lemma {:induction false} RoutePrefix(states: seq<State>, p: seq<nat>) returns (prefix: seq<nat>)
    requires IsRoute(states, p)
    ensures Reaches(states, prefix, p[|p| - 1])
    decreases |p|
  {
    if |p| == 1 {
      prefix := [];
    } else {
      var n := |p| - 2;
      assert Leads(states[p[n]], p[n + 1]);
      var k :| 0 <= k < |states[p[n]].shifts| && states[p[n]].shifts[k].target == p[n + 1];
      RouteFront(states, p);
      var back := RoutePrefix(states, p[..n + 1]);
      var x := states[p[n]].shifts[k].sym;
      assert states[p[n]].shifts[k] == Shift(x, p[n + 1]);
      ReachesOn(states, back, p[n], x, p[n + 1]);
      prefix := back + [x];
    }
  }

  lemma RouteFront(states: seq<State>, p: seq<nat>)
    requires IsRoute(states, p) && |p| > 1
    ensures IsRoute(states, p[..|p| - 1])
  {
    var q := p[..|p| - 1];
    forall i | 0 <= i < |q| - 1 ensures Leads(states[q[i]], q[i + 1]) {
      assert Leads(states[p[i]], p[i + 1]);
    }
  }
}
