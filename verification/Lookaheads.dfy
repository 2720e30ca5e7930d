/**
 What the follow sets of the configurations are, in terms of derivations: `RestFirst` and `RestVanishes` are
 exact, and the propagated sets are exactly the LALR(1) lookaheads.
 */
module Lookaheads {
  import opened Wrappers
  import opened Grammars
  import opened Derivations
  import opened Items
  import opened States
  import opened FollowGraph
  import opened ViablePrefixes
  import FollowSets
  import FirstSets

  ghost predicate ExactFirst(g: Grammar, f: FirstInfo) {
    f.Valid(g) && FirstSets.LambdaExact(g, f.lambda) && FirstSets.FirstExact(g, f.first)
  }

  ghost predicate InGrammar(g: Grammar, w: seq<nat>) {
    forall i :: 0 <= i < |w| ==> w[i] < g.NSymbol()
  }

  // ---------------------------------------------------------------- strings of symbols

  /** Some derivation of the string begins with `t`. */
  ghost predicate CanBegin(g: Grammar, w: seq<nat>, t: nat) {
    exists ts :: Forest(g, ts, w) && Yields(ts) != [] && Yields(ts)[0] == t
  }

  /** The string derives the empty one. */
  ghost predicate CanVanish(g: Grammar, w: seq<nat>) {
    exists ts :: Forest(g, ts, w) && Yields(ts) == []
  }

  lemma ConsForest(g: Grammar, t: Tree, ts: seq<Tree>, x: nat, w: seq<nat>)
    requires ValidTree(g, t) && Root(g, t) == x && Forest(g, ts, w)
    ensures Forest(g, [t] + ts, [x] + w) && Yields([t] + ts) == Yield(t) + Yields(ts)
  {
    assert ([t] + ts)[1..] == ts;
  }

  lemma TailForest(g: Grammar, ts: seq<Tree>, w: seq<nat>)
    requires Forest(g, ts, w) && w != []
    ensures ts != [] && Forest(g, ts[1..], w[1..]) && Yields(ts) == Yield(ts[0]) + Yields(ts[1..])
  {
    forall i | 0 <= i < |ts[1..]| ensures ValidTree(g, ts[1..][i]) && Root(g, ts[1..][i]) == w[1..][i] {
      assert ts[1..][i] == ts[i + 1];
    }
  }

  /** What a string can begin with: its first symbol does, or vanishes and the rest does. */
  lemma CanBeginCons(g: Grammar, x: nat, w: seq<nat>, t: nat)
    requires InGrammar(g, [x] + w)
    ensures CanBegin(g, [x] + w, t) <==> CanStart(g, x, t) || (Derives(g, x, []) && CanBegin(g, w, t))
  {
    if CanBegin(g, [x] + w, t) {
      var ts :| Forest(g, ts, [x] + w) && Yields(ts) != [] && Yields(ts)[0] == t;
      TailForest(g, ts, [x] + w);
      assert ([x] + w)[1..] == w;
    }
    if CanStart(g, x, t) {
      var u :| ValidTree(g, u) && Root(g, u) == x && Yield(u) != [] && Yield(u)[0] == t;
      assert InGrammar(g, w) by { forall i | 0 <= i < |w| ensures w[i] < g.NSymbol() { assert ([x] + w)[i + 1] == w[i]; } }
      LeavesAreForest(g, w);
      ConsForest(g, u, Leaves(w), x, w);
    }
    if Derives(g, x, []) && CanBegin(g, w, t) {
      var u :| ValidTree(g, u) && Root(g, u) == x && Yield(u) == [];
      var ts :| Forest(g, ts, w) && Yields(ts) != [] && Yields(ts)[0] == t;
      ConsForest(g, u, ts, x, w);
    }
  }

  lemma CanVanishCons(g: Grammar, x: nat, w: seq<nat>)
    ensures CanVanish(g, [x] + w) <==> Derives(g, x, []) && CanVanish(g, w)
  {
    if CanVanish(g, [x] + w) {
      var ts :| Forest(g, ts, [x] + w) && Yields(ts) == [];
      TailForest(g, ts, [x] + w);
      assert ([x] + w)[1..] == w;
    }
    if Derives(g, x, []) && CanVanish(g, w) {
      var u :| ValidTree(g, u) && Root(g, u) == x && Yield(u) == [];
      var ts :| Forest(g, ts, w) && Yields(ts) == [];
      ConsForest(g, u, ts, x, w);
    }
  }

  lemma NothingBegins(g: Grammar, t: nat)
    ensures !CanBegin(g, [], t) && CanVanish(g, [])
  {
    assert Forest(g, [], []) && Yields([]) == [];
  }

  lemma RootOfRule(g: Grammar, u: Tree)
    requires g.Valid() && ValidTree(g, u) && u.Node?
    ensures !g.IsTerminal(Root(g, u))
  {
    assert g.ValidRule(g.rules[u.rule]);
  }

  /** A terminal derives itself only. */
  lemma TerminalStarts(g: Grammar, x: nat, t: nat)
    requires g.Valid() && g.IsTerminal(x)
    ensures (CanStart(g, x, t) <==> t == x) && !Derives(g, x, [])
  {
    assert ValidTree(g, Leaf(x)) && Yield(Leaf(x)) == [x];
    forall u | ValidTree(g, u) && Root(g, u) == x ensures u == Leaf(x) {
      if u.Node? { RootOfRule(g, u); }
    }
  }

  // ---------------------------------------------------------------- behind a dot

  /** The terminals found behind a dot are exactly those that a derivation of the rest can begin with. */
  lemma {:induction false} RestFirstIff(g: Grammar, f: FirstInfo, rhs: seq<nat>, i: nat, t: nat)
    requires g.Valid() && ExactFirst(g, f) && InGrammar(g, rhs) && i <= |rhs|
    ensures t in RestFirst(g, f, rhs, i) <==> t < g.nterminal && CanBegin(g, rhs[i..], t)
    decreases |rhs| - i
  {
    if i == |rhs| {
      assert rhs[i..] == [];
      NothingBegins(g, t);
    } else {
      var x, w := rhs[i], rhs[i + 1..];
      assert rhs[i..] == [x] + w;
      RestFirstIff(g, f, rhs, i + 1, t);
      CanBeginCons(g, x, w, t);
      if g.IsTerminal(x) {
        TerminalStarts(g, x, t);
      }
    }
  }

  /** The rest behind a dot can vanish exactly when it derives the empty string. */
  lemma {:induction false} RestVanishesIff(g: Grammar, f: FirstInfo, rhs: seq<nat>, i: nat)
    requires g.Valid() && ExactFirst(g, f) && InGrammar(g, rhs) && i <= |rhs|
    ensures RestVanishes(g, f, rhs, i) <==> CanVanish(g, rhs[i..])
    decreases |rhs| - i
  {
    if i == |rhs| {
      assert rhs[i..] == [];
      NothingBegins(g, 0);
    } else {
      var x, w := rhs[i], rhs[i + 1..];
      assert rhs[i..] == [x] + w;
      RestVanishesIff(g, f, rhs, i + 1);
      CanVanishCons(g, x, w);
      if g.IsTerminal(x) {
        TerminalStarts(g, x, 0);
      }
      assert RestVanishes(g, f, rhs, i) <==> !g.IsTerminal(x) && f.lambda[x] && RestVanishes(g, f, rhs, i + 1);
    }
  }

  /** `a` has its dot before the left-hand side of `b`, which is an initial item. */
  ghost predicate Opens(g: Grammar, a: Item, b: Item) {
    && ValidItem(g, a) && ValidItem(g, b) && a.dot < |g.rules[a.rule].rhs|
    && b.dot == 0 && g.rules[b.rule].lhs == g.rules[a.rule].rhs[a.dot]
  }

  ghost function Behind(g: Grammar, a: Item): seq<nat>
    requires ValidItem(g, a) && a.dot < |g.rules[a.rule].rhs|
  {
    g.rules[a.rule].rhs[a.dot + 1..]
  }

  /** `a` opens `b`, and what follows can begin with `t`. */
  ghost predicate Gives(g: Grammar, a: Item, b: Item, t: nat) {
    Opens(g, a, b) && CanBegin(g, Behind(g, a), t)
  }

  ghost predicate GivesTo(g: Grammar, items: seq<Item>, b: Item, t: nat) {
    exists k :: 0 <= k < |items| && Gives(g, items[k], b, t)
  }

  lemma GivesToCons(g: Grammar, items: seq<Item>, b: Item, t: nat)
    requires items != []
    ensures GivesTo(g, items, b, t) <==> Gives(g, items[0], b, t) || GivesTo(g, items[1..], b, t)
  {
    if GivesTo(g, items[1..], b, t) {
      var k :| 0 <= k < |items[1..]| && Gives(g, items[1..][k], b, t);
      assert items[k + 1] == items[1..][k];
    }
    if GivesTo(g, items, b, t) && !Gives(g, items[0], b, t) {
      var k :| 0 <= k < |items| && Gives(g, items[k], b, t);
      assert items[1..][k - 1] == items[k];
    }
  }

  /** What one item gives to another: the terminals of the scan behind its dot. */
  lemma GivesIff(g: Grammar, f: FirstInfo, a: Item, b: Item, t: nat)
    requires g.Valid() && ExactFirst(g, f) && ValidItem(g, a) && g.ValidRule(g.rules[a.rule])
    ensures Generates(g, a, b) && t in RestFirst(g, f, g.rules[a.rule].rhs, a.dot + 1) <==> t < g.nterminal && Gives(g, a, b, t)
  {
    if a.dot < |g.rules[a.rule].rhs| {
      RestFirstIff(g, f, g.rules[a.rule].rhs, a.dot + 1, t);
    }
  }

  /** What the items of a state offer to `b`: what can begin the rest of an item that opens it. */
  lemma {:induction false} OfferedIff(g: Grammar, f: FirstInfo, items: seq<Item>, b: Item, t: nat)
    requires g.Valid() && ExactFirst(g, f) && (forall k :: 0 <= k < |items| ==> ValidItem(g, items[k]))
    ensures t in Offered(g, f, items, b) <==> t < g.nterminal && GivesTo(g, items, b, t)
  {
    if items != [] {
      assert g.ValidRule(g.rules[items[0].rule]);
      OfferedIff(g, f, items[1..], b, t);
      GivesIff(g, f, items[0], b, t);
      GivesToCons(g, items, b, t);
    }
  }

  /** The initial follow set of a configuration, without reference to first sets. */
  lemma InitialFollowIff(g: Grammar, f: FirstInfo, states: seq<State>, c: Config, t: nat)
    requires g.Valid() && ExactFirst(g, f) && ValidStates(g, states) && c.s < |states|
    ensures t in InitialFollow(g, f, states, c) <==>
            (c.s == 0 && c.a in states[0].bp && t == 0) || (t < g.nterminal && GivesTo(g, states[c.s].cfp, c.a, t))
  {
    OfferedIff(g, f, states[c.s].cfp, c.a, t);
  }

  /** The links of a configuration: to what it opens if the rest vanishes, and over the shift of its state. */
  lemma IsLinkIff(g: Grammar, f: FirstInfo, states: seq<State>, x: Config, y: Config)
    requires g.Valid() && ExactFirst(g, f) && x.s < |states| && ValidItem(g, x.a)
    ensures IsLink(g, f, states, x, y) <==>
            || (x.s == y.s && Opens(g, x.a, y.a) && CanVanish(g, Behind(g, x.a)))
            || (x.a.dot < |g.rules[x.a.rule].rhs| && y.a == Item(x.a.rule, x.a.dot + 1) && GoesTo(states, x.s, g.rules[x.a.rule].rhs[x.a.dot], y.s))
  {
    assert g.ValidRule(g.rules[x.a.rule]);
    if x.a.dot < |g.rules[x.a.rule].rhs| {
      RestVanishesIff(g, f, g.rules[x.a.rule].rhs, x.a.dot + 1);
    }
  }

  // ---------------------------------------------------------------- LALR(1) lookaheads

  /** A derivation comes to the item with the prefix on the left up to its dot, and goes on with `t` behind the rule. */
  ghost predicate NextBy(g: Grammar, prefix: seq<nat>, a: Item, fs: seq<Frame>, t: nat) {
    ValidBy(g, prefix, a, fs) && (After(fs) + [0])[0] == t
  }

  /** `t` can follow the rule of `a` in state `s`: behind some prefix that leads there. */
  ghost predicate Lookahead(g: Grammar, states: seq<State>, s: nat, a: Item, t: nat) {
    exists prefix, fs :: Reaches(states, prefix, s) && NextBy(g, prefix, a, fs, t)
  }

  ghost predicate Reached(states: seq<State>, s: nat) {
    exists prefix :: Reaches(states, prefix, s)
  }

  /** The configurations and their follow sets. */
  ghost predicate Computed(g: Grammar, f: FirstInfo, states: seq<State>, configs: seq<Config>, links: seq<seq<nat>>, fws: seq<set<nat>>) {
    && g.Valid() && ExactFirst(g, f) && Automaton(g, states) && (forall s :: 0 <= s < |states| ==> Reached(states, s))
    && ValidStates(g, states) && ListsConfigs(states, configs) && FollowOf(g, f, states, configs, links, fws)
  }

  /** The symbol behind the rule of the innermost frame: in its own right part, or further out. */
  lemma HeadSplits(fs: seq<Frame>)
    requires fs != []
    ensures var ys := Yields(fs[|fs| - 1].right);
      (After(fs) + [0])[0] == if ys != [] then ys[0] else (After(fs[..|fs| - 1]) + [0])[0]
  {
  }

  /** `t` is in the follow set of the configuration. */
  ghost predicate InFollow(configs: seq<Config>, fws: seq<set<nat>>, s: nat, a: Item, t: nat) {
    |fws| == |configs| && exists c :: 0 <= c < |configs| && configs[c] == Config(s, a) && t in fws[c]
  }

  lemma StartsOut(g: Grammar, f: FirstInfo, states: seq<State>, configs: seq<Config>, links: seq<seq<nat>>, fws: seq<set<nat>>, s: nat, a: Item, t: nat)
    requires Computed(g, f, states, configs, links, fws) && s < |states| && a in states[s].cfp
    requires t in InitialFollow(g, f, states, Config(s, a))
    ensures InFollow(configs, fws, s, a, t)
  {
    assert Config(s, a) in configs;
    var c :| 0 <= c < |configs| && configs[c] == Config(s, a);
    var init := Initials(g, f, states, configs);
    assert t in init[c];
    FollowSets.FlowsStart(links, init, t, c);
  }

  lemma FlowsOn(g: Grammar, f: FirstInfo, states: seq<State>, configs: seq<Config>, links: seq<seq<nat>>, fws: seq<set<nat>>, x: Config, y: Config, t: nat)
    requires Computed(g, f, states, configs, links, fws) && x.s < |states| && y.s < |states| && y.a in states[y.s].cfp
    requires IsLink(g, f, states, x, y) && InFollow(configs, fws, x.s, x.a, t)
    ensures InFollow(configs, fws, y.s, y.a, t)
  {
    var c :| 0 <= c < |configs| && configs[c] == Config(x.s, x.a) && t in fws[c];
    assert Config(y.s, y.a) in configs;
    var d :| 0 <= d < |configs| && configs[d] == Config(y.s, y.a);
    LinksAreValid(g, f, states, configs, links);
    assert d in links[c];
    FollowSets.FlowsStep(links, Initials(g, f, states, configs), t, c, d);
  }

  lemma LinksAreValid(g: Grammar, f: FirstInfo, states: seq<State>, configs: seq<Config>, links: seq<seq<nat>>)
    requires g.Valid() && f.Valid(g) && ListsConfigs(states, configs) && LinksOf(g, f, states, configs, links)
    ensures FollowSets.ValidGraph(links)
  {
    forall c, k | 0 <= c < |links| && 0 <= k < |links[c]| ensures links[c][k] < |links| {
      assert links[c][k] in links[c];
    }
  }

  /** The trees right of a frame begin with `t`: it starts out at the item that the frame opens. */
  lemma GivenByFrame(g: Grammar, f: FirstInfo, states: seq<State>, s: nat, x: Item, a: Item, right: seq<Tree>, t: nat)
    requires g.Valid() && ExactFirst(g, f) && ValidStates(g, states) && s < |states| && x in states[s].cfp && t < g.nterminal
    requires Opens(g, x, a) && Forest(g, right, Behind(g, x)) && Yields(right) != [] && Yields(right)[0] == t
    ensures t in InitialFollow(g, f, states, Config(s, a))
  {
    var k :| 0 <= k < |states[s].cfp| && states[s].cfp[k] == x;
    assert Gives(g, states[s].cfp[k], a, t);
    InitialFollowIff(g, f, states, Config(s, a), t);
  }

  /** Whatever can come next has arrived. */
  lemma {:induction false} LookaheadArrives(g: Grammar, f: FirstInfo, states: seq<State>, configs: seq<Config>, links: seq<seq<nat>>, fws: seq<set<nat>>,
                                            prefix: seq<nat>, s: nat, a: Item, fs: seq<Frame>, t: nat)
    requires Computed(g, f, states, configs, links, fws) && Reaches(states, prefix, s) && NextBy(g, prefix, a, fs, t) && t < g.nterminal
    ensures InFollow(configs, fws, s, a, t)
    decreases |prefix|, |fs|
  {
    ValidItemsAreThere(g, states, prefix, s, a, fs);
    if a.dot > 0 {
      DotBack(g, prefix, a, fs);
      var x, back, b := prefix[|prefix| - 1], prefix[..|prefix| - 1], Item(a.rule, a.dot - 1);
      assert prefix == back + [x];
      var q := LastShift(states, back, x, s);
      LookaheadArrives(g, f, states, configs, links, fws, back, q, b, fs, t);
      IsLinkIff(g, f, states, Config(q, b), Config(s, a));
      FlowsOn(g, f, states, configs, links, fws, Config(q, b), Config(s, a), t);
    } else if fs == [] {
      assert prefix == [] && a in StartItems(g) && a in Elems(states[0].bp);
      StartsOut(g, f, states, configs, links, fws, s, a, t);
    } else {
      FrameItem(g, prefix, a, fs);
      HeadSplits(fs);
      var x, right, outer := Item(fs[|fs| - 1].rule, fs[|fs| - 1].dot), fs[|fs| - 1].right, fs[..|fs| - 1];
      ValidItemsAreThere(g, states, prefix, s, x, outer);
      if Yields(right) != [] {
        GivenByFrame(g, f, states, s, x, a, right, t);
        StartsOut(g, f, states, configs, links, fws, s, a, t);
      } else {
        LookaheadArrives(g, f, states, configs, links, fws, prefix, s, x, outer, t);
        assert CanVanish(g, Behind(g, x));
        IsLinkIff(g, f, states, Config(s, x), Config(s, a));
        FlowsOn(g, f, states, configs, links, fws, Config(s, x), Config(s, a), t);
      }
    }
  }

  /** Behind an item that opens `b`, its rest begins with `t`, or vanishes and `t` comes behind the item. */
  lemma OpenedNext(g: Grammar, states: seq<State>, s: nat, prefix: seq<nat>, a: Item, fs: seq<Frame>, b: Item, right: seq<Tree>, t: nat)
    requires Reaches(states, prefix, s) && ValidBy(g, prefix, a, fs) && Opens(g, a, b) && Forest(g, right, Behind(g, a))
    requires if Yields(right) != [] then Yields(right)[0] == t else NextBy(g, prefix, a, fs, t)
    ensures Lookahead(g, states, s, b, t)
  {
    PushFrame(g, prefix, a, fs, b, right);
    assert NextBy(g, prefix, b, fs + [Frame(a.rule, a.dot, right)], t);
  }

  /** What a configuration begins with can come next. */
  lemma InitialIsReal(g: Grammar, f: FirstInfo, states: seq<State>, c: Config, t: nat)
    requires g.Valid() && ExactFirst(g, f) && Automaton(g, states) && ValidStates(g, states)
    requires c.s < |states| && Reached(states, c.s) && t in InitialFollow(g, f, states, c)
    ensures t < g.nterminal && Lookahead(g, states, c.s, c.a, t)
  {
    InitialFollowIff(g, f, states, c, t);
    if c.s == 0 && c.a in states[0].bp && t == 0 {
      assert c.a in Elems(states[0].bp);
      assert Before(g, [], g.start) + g.rules[c.a.rule].rhs[..0] == [];
      assert Reaches(states, [], 0) && NextBy(g, [], c.a, [], 0);
    } else {
      var k :| 0 <= k < |states[c.s].cfp| && Gives(g, states[c.s].cfp[k], c.a, t);
      var x := states[c.s].cfp[k];
      var prefix :| Reaches(states, prefix, c.s);
      ItemsAreValid(g, states, prefix, c.s);
      assert x in states[c.s].cfp && ValidFor(g, prefix, x);
      var fs :| ValidBy(g, prefix, x, fs);
      var right :| Forest(g, right, Behind(g, x)) && Yields(right) != [] && Yields(right)[0] == t;
      OpenedNext(g, states, c.s, prefix, x, fs, c.a, right, t);
    }
  }

  /** What can come next at one end of a link can at the other. */
  lemma LinkIsReal(g: Grammar, f: FirstInfo, states: seq<State>, x: Config, y: Config, t: nat)
    requires g.Valid() && ExactFirst(g, f) && x.s < |states| && IsLink(g, f, states, x, y) && Lookahead(g, states, x.s, x.a, t)
    ensures Lookahead(g, states, y.s, y.a, t)
  {
    var prefix, fs :| Reaches(states, prefix, x.s) && NextBy(g, prefix, x.a, fs, t);
    IsLinkIff(g, f, states, x, y);
    if x.s == y.s && Opens(g, x.a, y.a) && CanVanish(g, Behind(g, x.a)) {
      var right :| Forest(g, right, Behind(g, x.a)) && Yields(right) == [];
      OpenedNext(g, states, x.s, prefix, x.a, fs, y.a, right, t);
    } else {
      var z := g.rules[x.a.rule].rhs[x.a.dot];
      DotForward(g, prefix, x.a, fs, z);
      ReachesOn(states, prefix, x.s, z, y.s);
      assert NextBy(g, prefix + [z], y.a, fs, t);
    }
  }

  /** Whatever has arrived can come next. */
  lemma {:induction false} LookaheadIsReal(g: Grammar, f: FirstInfo, states: seq<State>, configs: seq<Config>, links: seq<seq<nat>>, fws: seq<set<nat>>, p: seq<nat>, t: nat)
    requires Computed(g, f, states, configs, links, fws) && FollowSets.IsPath(links, p) && t in Initials(g, f, states, configs)[p[0]]
    ensures p[|p| - 1] < |configs| && t < g.nterminal && Lookahead(g, states, configs[p[|p| - 1]].s, configs[p[|p| - 1]].a, t)
    decreases |p|
  {
    var y := configs[p[|p| - 1]];
    if |p| == 1 {
      InitialIsReal(g, f, states, y, t);
    } else {
      var q, n := p[..|p| - 1], |p| - 2;
      assert FollowSets.IsPath(links, q);
      LookaheadIsReal(g, f, states, configs, links, fws, q, t);
      assert p[n + 1] in links[p[n]];
      LinkIsReal(g, f, states, configs[p[n]], y, t);
    }
  }

  /** Main result: the follow set of a configuration holds exactly its LALR(1) lookaheads. */
  lemma FollowSetsAreLookaheads(g: Grammar, f: FirstInfo, states: seq<State>, configs: seq<Config>, links: seq<seq<nat>>, fws: seq<set<nat>>, c: nat, t: nat)
    requires Computed(g, f, states, configs, links, fws) && c < |configs|
    ensures t in fws[c] <==> t < g.nterminal && Lookahead(g, states, configs[c].s, configs[c].a, t)
  {
    var y := configs[c];
    if t in fws[c] {
      var init := Initials(g, f, states, configs);
      var p :| FollowSets.IsPath(links, p) && t in init[p[0]] && p[|p| - 1] == c;
      LookaheadIsReal(g, f, states, configs, links, fws, p, t);
    }
    if t < g.nterminal && Lookahead(g, states, y.s, y.a, t) {
      var prefix, fs :| Reaches(states, prefix, y.s) && NextBy(g, prefix, y.a, fs, t);
      LookaheadArrives(g, f, states, configs, links, fws, prefix, y.s, y.a, fs, t);
      var d :| 0 <= d < |configs| && configs[d] == Config(y.s, y.a) && t in fws[d];
    }
  }

  /** Main result for a whole automaton. */
  ghost predicate HoldsLookaheads(g: Grammar, states: seq<State>, configs: seq<Config>, fws: seq<set<nat>>) {
    |fws| == |configs| &&
    forall c, t: nat :: 0 <= c < |configs| ==> (t in fws[c] <==> t < g.nterminal && Lookahead(g, states, configs[c].s, configs[c].a, t))
  }

  lemma FollowHoldsLookaheads(g: Grammar, f: FirstInfo, states: seq<State>, configs: seq<Config>, links: seq<seq<nat>>, fws: seq<set<nat>>)
    requires g.Valid() && ExactFirst(g, f) && Canonical(g, states) && ValidStates(g, states) && ListsConfigs(states, configs)
    requires FollowOf(g, f, states, configs, links, fws)
    ensures HoldsLookaheads(g, states, configs, fws)
  {
    CanonicalIsComputed(g, f, states, configs, links, fws);
    forall c, t: nat | 0 <= c < |configs|
      ensures t in fws[c] <==> t < g.nterminal && Lookahead(g, states, configs[c].s, configs[c].a, t)
    {
      FollowSetsAreLookaheads(g, f, states, configs, links, fws, c, t);
    }
  }

  /** Everything that the generator computes before its action tables satisfies the premises. */
  lemma CanonicalIsComputed(g: Grammar, f: FirstInfo, states: seq<State>, configs: seq<Config>, links: seq<seq<nat>>, fws: seq<set<nat>>)
    requires g.Valid() && ExactFirst(g, f) && Canonical(g, states) && ValidStates(g, states) && ListsConfigs(states, configs)
    requires FollowOf(g, f, states, configs, links, fws)
    ensures Computed(g, f, states, configs, links, fws)
  {
    CanonicalIsAutomaton(g, states);
    forall s | 0 <= s < |states| ensures Reached(states, s) {
      assert Reachable(states, s);
      var p :| IsRoute(states, p) && p[|p| - 1] == s;
      var prefix := RoutePrefix(states, p);
    }
  }
}
