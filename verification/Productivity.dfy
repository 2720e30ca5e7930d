/**
 When the generator aborts: FindActions asserts that every state has an action. A grammar in which
 every symbol of a right-hand side derives a string of terminals always passes; a concrete grammar
 with a nonterminal that derives none does not.
 */
module Productivity {
  import opened Wrappers
  import opened Grammars
  import opened Derivations
  import opened Items
  import opened States
  import opened FollowGraph
  import opened Lookaheads
  import opened Generator
  import opened Soundness
  import FollowSets
  import FirstSets

  // ---------------------------------------------------------------- productive grammars

  ghost predicate Terminals(g: Grammar, w: seq<nat>) {
    forall i :: 0 <= i < |w| ==> w[i] < g.nterminal
  }

  /** The symbol derives a string of terminals. */
  ghost predicate Yielding(g: Grammar, x: nat) {
    exists t :: ValidTree(g, t) && Root(g, t) == x && Terminals(g, Yield(t))
  }

  /** So does every symbol of a right-hand side. */
  ghost predicate Productive(g: Grammar) {
    forall r, i :: 0 <= r < |g.rules| && 0 <= i < |g.rules[r].rhs| ==> Yielding(g, g.rules[r].rhs[i])
  }

  ghost predicate HasTerminal(g: Grammar, s: set<nat>) {
    exists a :: a in s && a < g.nterminal
  }

  /** A productive nonterminal vanishes or has a first set. */
  lemma StartsOrVanishes(g: Grammar, f: FirstInfo, x: nat)
    requires ExactFirst(g, f) && g.nterminal <= x < g.NSymbol() && Yielding(g, x)
    ensures f.lambda[x] || HasTerminal(g, f.first[x])
  {
    var t :| ValidTree(g, t) && Root(g, t) == x && Terminals(g, Yield(t));
    if Yield(t) == [] {
      assert Derives(g, x, []);
    } else {
      assert CanStart(g, x, Yield(t)[0]);
    }
  }

  /** What follows a position of a right-hand side vanishes or can begin with a terminal. */
  lemma {:induction false} RestStartsOrVanishes(g: Grammar, f: FirstInfo, r: nat, i: nat)
    requires g.Valid() && ExactFirst(g, f) && Productive(g) && r < |g.rules| && g.ValidRule(g.rules[r]) && i <= |g.rules[r].rhs|
    ensures RestVanishes(g, f, g.rules[r].rhs, i) || HasTerminal(g, RestFirst(g, f, g.rules[r].rhs, i))
    decreases |g.rules[r].rhs| - i
  {
    var rhs := g.rules[r].rhs;
    if i < |rhs| {
      if g.IsTerminal(rhs[i]) {
        assert rhs[i] in RestFirst(g, f, rhs, i);
      } else {
        StartsOrVanishes(g, f, rhs[i]);
        RestStartsOrVanishes(g, f, r, i + 1);
        if HasTerminal(g, f.first[rhs[i]]) {
          var a :| a in f.first[rhs[i]] && a < g.nterminal;
          assert a in RestFirst(g, f, rhs, i);
        } else if HasTerminal(g, RestFirst(g, f, rhs, i + 1)) {
          var a :| a in RestFirst(g, f, rhs, i + 1) && a < g.nterminal;
          assert a in RestFirst(g, f, rhs, i);
        }
      }
    }
  }

  // ---------------------------------------------------------------- every configuration is fed

  /** The automaton with its follow sets. */
  ghost predicate Analysed(g: Grammar, f: FirstInfo, states: seq<State>, configs: seq<Config>, links: seq<seq<nat>>, fws: seq<set<nat>>) {
    && g.Valid() && ExactFirst(g, f) && ValidStates(g, states) && ListsConfigs(states, configs)
    && FollowOf(g, f, states, configs, links, fws)
  }

  /** The follow set of item `a` in state `s` has a terminal. */
  ghost predicate Fed(g: Grammar, configs: seq<Config>, fws: seq<set<nat>>, s: nat, a: Item) {
    |fws| == |configs| && exists c, t: nat :: 0 <= c < |configs| && configs[c] == Config(s, a) && t < g.nterminal && t in fws[c]
  }

  /** What one item of a state offers to the items it generates is in their initial follow sets. */
  lemma {:induction false} OfferedHas(g: Grammar, f: FirstInfo, items: seq<Item>, a: Item, b: Item, t: nat)
    requires g.Valid() && f.Valid(g) && (forall k :: 0 <= k < |items| ==> ValidItem(g, items[k])) && a in items && Generates(g, a, b)
    requires a.rule < |g.rules| && g.ValidRule(g.rules[a.rule]) && t in RestFirst(g, f, g.rules[a.rule].rhs, a.dot + 1)
    ensures t in Offered(g, f, items, b)
  {
    if items[0] != a {
      OfferedHas(g, f, items[1..], a, b, t);
    }
  }

  /** A terminal that starts out at a configuration feeds it. */
  lemma FedInitially(g: Grammar, f: FirstInfo, states: seq<State>, configs: seq<Config>, links: seq<seq<nat>>, fws: seq<set<nat>>, s: nat, a: Item, t: nat)
    requires Analysed(g, f, states, configs, links, fws) && s < |states| && a in states[s].cfp
    requires t < g.nterminal && t in InitialFollow(g, f, states, Config(s, a))
    ensures Fed(g, configs, fws, s, a)
  {
    assert Config(s, a) in configs;
    var c :| 0 <= c < |configs| && configs[c] == Config(s, a);
    var init := Initials(g, f, states, configs);
    assert t in init[c];
    FollowSets.FlowsStart(links, init, t, c);
    assert t in fws[c];
  }

  /** A link feeds its target. */
  lemma FedByLink(g: Grammar, f: FirstInfo, states: seq<State>, configs: seq<Config>, links: seq<seq<nat>>, fws: seq<set<nat>>,
                  s: nat, a: Item, s': nat, b: Item)
    requires Analysed(g, f, states, configs, links, fws) && s' < |states| && b in states[s'].cfp
    requires s < |states| && IsLink(g, f, states, Config(s, a), Config(s', b)) && Fed(g, configs, fws, s, a)
    ensures Fed(g, configs, fws, s', b)
  {
    var c, t: nat :| 0 <= c < |configs| && configs[c] == Config(s, a) && t < g.nterminal && t in fws[c];
    assert Config(s', b) in configs;
    var d: nat :| d < |configs| && configs[d] == Config(s', b);
    var init := Initials(g, f, states, configs);
    assert d in links[c];
    LinksAreValid(g, f, states, configs, links);
    FollowSets.FlowsStep(links, init, t, c, d);
    assert t in fws[d];
  }

  /** An item feeds the items it generates: by what can follow them in its rule, ... */
  lemma FedByRest(g: Grammar, f: FirstInfo, states: seq<State>, configs: seq<Config>, links: seq<seq<nat>>, fws: seq<set<nat>>, s: nat, a: Item, b: Item)
    requires Analysed(g, f, states, configs, links, fws) && s < |states|
    requires a in states[s].cfp && b in states[s].cfp && Generates(g, a, b) && g.ValidRule(g.rules[a.rule])
    requires HasTerminal(g, RestFirst(g, f, g.rules[a.rule].rhs, a.dot + 1))
    ensures Fed(g, configs, fws, s, b)
  {
    var t :| t in RestFirst(g, f, g.rules[a.rule].rhs, a.dot + 1) && t < g.nterminal;
    OfferedHas(g, f, states[s].cfp, a, b, t);
    FedInitially(g, f, states, configs, links, fws, s, b, t);
  }

  /** ... or by its own follow set. */
  lemma FedByOwn(g: Grammar, f: FirstInfo, states: seq<State>, configs: seq<Config>, links: seq<seq<nat>>, fws: seq<set<nat>>, s: nat, a: Item, b: Item)
    requires Analysed(g, f, states, configs, links, fws) && s < |states|
    requires b in states[s].cfp && Generates(g, a, b) && g.ValidRule(g.rules[a.rule]) && Fed(g, configs, fws, s, a)
    requires RestVanishes(g, f, g.rules[a.rule].rhs, a.dot + 1)
    ensures Fed(g, configs, fws, s, b)
  {
    LinkByGeneration(g, f, states, s, a, b);
    FedByLink(g, f, states, configs, links, fws, s, a, s, b);
  }

  lemma FedByGenerator(g: Grammar, f: FirstInfo, states: seq<State>, configs: seq<Config>, links: seq<seq<nat>>, fws: seq<set<nat>>, s: nat, a: Item, b: Item)
    requires Analysed(g, f, states, configs, links, fws) && s < |states| && Generates(g, a, b) && g.ValidRule(g.rules[a.rule])
    requires a in states[s].cfp && b in states[s].cfp && Fed(g, configs, fws, s, a)
    requires RestVanishes(g, f, g.rules[a.rule].rhs, a.dot + 1) || HasTerminal(g, RestFirst(g, f, g.rules[a.rule].rhs, a.dot + 1))
    ensures Fed(g, configs, fws, s, b)
  {
    if HasTerminal(g, RestFirst(g, f, g.rules[a.rule].rhs, a.dot + 1)) {
      FedByRest(g, f, states, configs, links, fws, s, a, b);
    } else {
      FedByOwn(g, f, states, configs, links, fws, s, a, b);
    }
  }

  lemma LinkByGeneration(g: Grammar, f: FirstInfo, states: seq<State>, s: nat, a: Item, b: Item)
    requires g.Valid() && f.Valid(g) && s < |states| && Generates(g, a, b) && g.ValidRule(g.rules[a.rule])
    requires RestVanishes(g, f, g.rules[a.rule].rhs, a.dot + 1)
    ensures IsLink(g, f, states, Config(s, a), Config(s, b))
  {
  }

  ghost predicate StateFed(g: Grammar, states: seq<State>, configs: seq<Config>, fws: seq<set<nat>>, s: nat)
    requires s < |states|
  {
    forall a :: a in states[s].cfp ==> Fed(g, configs, fws, s, a)
  }

  /** A state whose basis is fed is fed. */
  lemma ClosureFed(g: Grammar, f: FirstInfo, states: seq<State>, configs: seq<Config>, links: seq<seq<nat>>, fws: seq<set<nat>>, s: nat)
    requires Analysed(g, f, states, configs, links, fws) && Productive(g) && s < |states|
    requires IsClosure(g, Elems(states[s].bp), Elems(states[s].cfp))
    requires forall a :: a in states[s].bp ==> Fed(g, configs, fws, s, a)
    ensures StateFed(g, states, configs, fws, s)
  {
    var basis, all := Elems(states[s].bp), Elems(states[s].cfp);
    var fed := set a | a in all && Fed(g, configs, fws, s, a);
    forall a, b | a in fed && Generates(g, a, b) ensures b in fed {
      assert b in all && g.ValidRule(g.rules[a.rule]);
      RestStartsOrVanishes(g, f, a.rule, a.dot + 1);
      FedByGenerator(g, f, states, configs, links, fws, s, a, b);
    }
    assert basis <= fed && Closed(g, fed);
    forall a | a in states[s].cfp ensures Fed(g, configs, fws, s, a) {
      assert a in all && all <= fed;
    }
  }

  /** The first state is fed by the end mark. */
  lemma FirstStateFed(g: Grammar, f: FirstInfo, states: seq<State>, configs: seq<Config>, links: seq<seq<nat>>, fws: seq<set<nat>>)
    requires Analysed(g, f, states, configs, links, fws) && Productive(g) && states != []
    requires IsClosure(g, Elems(states[0].bp), Elems(states[0].cfp))
    ensures StateFed(g, states, configs, fws, 0)
  {
    forall a | a in states[0].bp ensures Fed(g, configs, fws, 0, a) {
      assert a in Elems(states[0].bp) && a in Elems(states[0].cfp);
      FedInitially(g, f, states, configs, links, fws, 0, a, 0);
    }
    ClosureFed(g, f, states, configs, links, fws, 0);
  }

  /** A shift feeds the state it leads to. */
  lemma TargetFed(g: Grammar, f: FirstInfo, states: seq<State>, configs: seq<Config>, links: seq<seq<nat>>, fws: seq<set<nat>>, s: nat, k: nat)
    requires Analysed(g, f, states, configs, links, fws) && Productive(g) && s < |states| && k < |states[s].shifts|
    requires ShiftsSound(g, states, s) && StateFed(g, states, configs, fws, s)
    requires var t := states[s].shifts[k].target; t < |states| && IsClosure(g, Elems(states[t].bp), Elems(states[t].cfp))
    ensures StateFed(g, states, configs, fws, states[s].shifts[k].target)
  {
    var x, t := states[s].shifts[k].sym, states[s].shifts[k].target;
    forall b | b in states[t].bp ensures Fed(g, configs, fws, t, b) {
      assert b in Elems(states[t].bp) && b in Elems(states[t].cfp);
      var a :| a in Elems(states[s].cfp) && NextIs(g, a, x) && b == Item(a.rule, a.dot + 1);
      assert states[s].shifts[k] == Shift(x, t) && Fed(g, configs, fws, s, a);
      assert IsLink(g, f, states, Config(s, a), Config(t, b));
      FedByLink(g, f, states, configs, links, fws, s, a, t, b);
    }
    ClosureFed(g, f, states, configs, links, fws, t);
  }

  ghost predicate Built(g: Grammar, states: seq<State>) {
    && states != []
    && (forall s :: 0 <= s < |states| ==> IsClosure(g, Elems(states[s].bp), Elems(states[s].cfp)))
    && (forall s :: 0 <= s < |states| ==> ShiftsSound(g, states, s))
  }

  /** In a productive grammar every follow set of every state has a terminal. */
  lemma {:induction false} RouteFed(g: Grammar, f: FirstInfo, states: seq<State>, configs: seq<Config>, links: seq<seq<nat>>, fws: seq<set<nat>>, p: seq<nat>)
    requires Analysed(g, f, states, configs, links, fws) && Productive(g) && Built(g, states) && IsRoute(states, p)
    ensures StateFed(g, states, configs, fws, p[|p| - 1])
    decreases |p|
  {
    if |p| == 1 {
      FirstStateFed(g, f, states, configs, links, fws);
    } else {
      var q, k := RouteStep(states, p);
      RouteFed(g, f, states, configs, links, fws, q);
      assert ShiftsSound(g, states, q[|q| - 1]);
      TargetFed(g, f, states, configs, links, fws, q[|q| - 1], k);
    }
  }

  /** The last shift of a route. */
  lemma RouteStep(states: seq<State>, p: seq<nat>) returns (q: seq<nat>, k: nat)
    requires IsRoute(states, p) && |p| > 1
    ensures IsRoute(states, q) && |q| == |p| - 1
    ensures k < |states[q[|q| - 1]].shifts| && states[q[|q| - 1]].shifts[k].target == p[|p| - 1]
  {
    q := p[..|p| - 1];
    forall i | 0 <= i < |q| - 1 ensures Leads(states[q[i]], q[i + 1]) {
      assert Leads(states[p[i]], p[i + 1]);
    }
    var n := |p| - 2;
    assert Leads(states[p[n]], p[n + 1]);
    k :| 0 <= k < |states[p[n]].shifts| && states[p[n]].shifts[k].target == p[n + 1];
  }

  /** The advanced items of a shift are not empty. */
  lemma TargetHasItem(g: Grammar, states: seq<State>, s: nat, k: nat) returns (b: Item)
    requires s < |states| && k < |states[s].shifts| && ShiftsSound(g, states, s)
    ensures states[s].shifts[k].target < |states| && b in Elems(states[states[s].shifts[k].target].bp)
  {
    var x := states[s].shifts[k].sym;
    assert CanShift(g, states[s], x);
    var j :| 0 <= j < |states[s].cfp| && NextIs(g, states[s].cfp[j], x);
    var a := states[s].cfp[j];
    assert a in Elems(states[s].cfp);
    b := Item(a.rule, a.dot + 1);
  }

  /** A state without shifts has only finished items. */
  lemma WithoutShifts(g: Grammar, st: State, b: Item)
    requires WellBuilt(g, st) && ShiftsComplete(g, st) && st.shifts == [] && b in Elems(st.bp)
    ensures b in st.cfp && ValidItem(g, b) && b.dot == |g.rules[b.rule].rhs|
  {
    assert b in Elems(st.cfp);
    var k :| 0 <= k < |st.cfp| && st.cfp[k] == b;
    if b.dot < |g.rules[b.rule].rhs| {
      assert NextIs(g, st.cfp[k], g.rules[b.rule].rhs[b.dot]);
      assert CanShift(g, st, g.rules[b.rule].rhs[b.dot]);
    }
  }

  /** Main result: for a productive grammar no state is without an action, so the generator does not abort. */
  lemma ProductiveNeverAborts(g: Grammar, f: FirstInfo, states: seq<State>, configs: seq<Config>, links: seq<seq<nat>>, fws: seq<set<nat>>, s: nat)
    requires Canonical(g, states) && Analysed(g, f, states, configs, links, fws) && Productive(g) && s < |states|
    ensures !Actionless(g, states, s, configs, fws)
  {
    assert WellBuilt(g, states[s]) && ShiftsComplete(g, states[s]) && Reachable(states, s);
    var p :| IsRoute(states, p) && p[|p| - 1] == s;
    CanonicalIsBuilt(g, states);
    if s > 0 && states[s].shifts == [] {
      StuckIsFed(g, f, states, configs, links, fws, p);
    }
  }

  lemma CanonicalIsBuilt(g: Grammar, states: seq<State>)
    requires Canonical(g, states)
    ensures Built(g, states)
  {
    forall s | 0 <= s < |states| ensures IsClosure(g, Elems(states[s].bp), Elems(states[s].cfp)) {
      assert WellBuilt(g, states[s]);
    }
  }

  /** A reachable state without shifts has a finished item with a follow set. */
  lemma StuckIsFed(g: Grammar, f: FirstInfo, states: seq<State>, configs: seq<Config>, links: seq<seq<nat>>, fws: seq<set<nat>>, p: seq<nat>)
    requires Analysed(g, f, states, configs, links, fws) && Productive(g) && Built(g, states) && IsRoute(states, p) && |p| > 1
    requires var st := states[p[|p| - 1]]; WellBuilt(g, st) && ShiftsComplete(g, st) && st.shifts == []
    ensures !Actionless(g, states, p[|p| - 1], configs, fws)
  {
    var s := p[|p| - 1];
    var q, k := RouteStep(states, p);
    assert ShiftsSound(g, states, q[|q| - 1]);
    var b := TargetHasItem(g, states, q[|q| - 1], k);
    WithoutShifts(g, states[s], b);
    RouteFed(g, f, states, configs, links, fws, p);
    var c, t: nat :| 0 <= c < |configs| && configs[c] == Config(s, b) && t < g.nterminal && t in fws[c];
    assert FinishedIn(g, configs[c], s);
  }

  // ---------------------------------------------------------------- a grammar on which the generator aborts

  const X := 1
  const Y := 2
  const B := 3
  const C := 4
  const MAIN := 6

  const PLAIN := Symbol(-1, UNK)

  /** main ::= b c.  b ::= Y.  c ::= c X.  The nonterminal c derives no string of terminals; symbol 5 is `error`. */
  const STUCK := Grammar([PLAIN, PLAIN, PLAIN, PLAIN, PLAIN, PLAIN, PLAIN], 3,
                         [Rule(MAIN, [B, C], None), Rule(B, [Y], None), Rule(C, [C, X], None)], MAIN)

  lemma StuckIsUsable()
    ensures Usable(STUCK)
  {
    assert STUCK.ValidRule(STUCK.rules[0]) && STUCK.ValidRule(STUCK.rules[1]) && STUCK.ValidRule(STUCK.rules[2]);
  }

  /** Whatever c derives begins with c. */
  lemma {:induction false} OnlyC(t: Tree)
    requires ValidTree(STUCK, t) && Root(STUCK, t) == C
    ensures Yield(t) != [] && Yield(t)[0] == C
    decreases t
  {
    match t
    case Leaf(_) =>
    case Node(r, kids) =>
      assert r == 2;
      OnlyC(kids[0]);
  }

  /** So c neither vanishes nor has a first set. */
  lemma NothingFromC(f: FirstInfo)
    requires ExactFirst(STUCK, f)
    ensures !f.lambda[C] && f.first[C] == {}
  {
    if f.lambda[C] {
      var t :| ValidTree(STUCK, t) && Root(STUCK, t) == C && Yield(t) == [];
      OnlyC(t);
    }
    forall a | a in f.first[C] ensures false {
      var t :| ValidTree(STUCK, t) && Root(STUCK, t) == C && Yield(t) != [] && Yield(t)[0] == a;
      OnlyC(t);
    }
  }

  /** Nothing is offered to an item of rule 1. */
  lemma {:induction false} NothingForB(f: FirstInfo, items: seq<Item>, b: Item)
    requires STUCK.Valid() && ExactFirst(STUCK, f) && b.rule == 1 && forall k :: 0 <= k < |items| ==> ValidItem(STUCK, items[k])
    ensures Offered(STUCK, f, items, b) == {}
  {
    if items != [] {
      NothingFromC(f);
      NothingForB(f, items[1..], b);
      if Generates(STUCK, items[0], b) {
        assert items[0] == Item(0, 0);
        assert RestFirst(STUCK, f, STUCK.rules[0].rhs, 1) == {};
      }
    }
  }

  /** No terminal flows to a configuration of rule 1. */
  lemma {:induction false} NoFlowToB(f: FirstInfo, states: seq<State>, configs: seq<Config>, links: seq<seq<nat>>, fws: seq<set<nat>>, p: seq<nat>, t: nat)
    requires Analysed(STUCK, f, states, configs, links, fws) && states != [] && (forall a :: a in states[0].bp ==> a == Item(0, 0))
    requires FollowSets.IsPath(links, p) && t in Initials(STUCK, f, states, configs)[p[0]]
    ensures configs[p[|p| - 1]].a.rule != 1
    decreases |p|
  {
    var y := configs[p[|p| - 1]];
    NothingFromC(f);
    if |p| == 1 {
      if y.a.rule == 1 {
        NothingForB(f, states[y.s].cfp, y.a);
      }
    } else {
      var q, n := p[..|p| - 1], |p| - 2;
      assert FollowSets.IsPath(links, q);
      NoFlowToB(f, states, configs, links, fws, q, t);
      assert p[n + 1] in links[p[n]];
      assert IsLink(STUCK, f, states, configs[p[n]], y);
      NotThroughMain(f, states, configs[p[n]], y);
    }
  }

  /** A link into an item of rule 1 comes from rule 1: the one that generates it does not vanish behind it. */
  lemma NotThroughMain(f: FirstInfo, states: seq<State>, x: Config, y: Config)
    requires STUCK.Valid() && f.Valid(STUCK) && !f.lambda[C] && x.s < |states| && IsLink(STUCK, f, states, x, y)
    ensures y.a.rule == 1 ==> x.a.rule == 1
  {
    assert STUCK.rules[0].rhs[1] == C && !RestVanishes(STUCK, f, STUCK.rules[0].rhs, 1);
    assert y.a.rule == 1 && Generates(STUCK, x.a, y.a) ==> x.a.rule == 0 && x.a.dot == 0;
  }

  /** The state behind Y holds nothing but the finished item of rule 1. */
  lemma StateBehindY(states: seq<State>) returns (s: nat)
    requires Canonical(STUCK, states)
    ensures 0 < s < |states| && states[s].shifts == [] && forall a :: a in states[s].cfp ==> a == Item(1, 1)
    ensures forall a :: a in states[0].bp ==> a == Item(0, 0)
  {
    assert WellBuilt(STUCK, states[0]) && ShiftsSound(STUCK, states, 0) && ShiftsComplete(STUCK, states[0]);
    FirstBasis(states[0]);
    s := ShiftOnY(states);
    assert WellBuilt(STUCK, states[s]) && ShiftsSound(STUCK, states, s);
    assert Item(0, 0) in states[0].bp && Item(0, 0) !in states[s].bp;
    assert states[s].shifts != [] ==> CanShift(STUCK, states[s], states[s].shifts[0].sym);
    OnlyFinished(states[s]);
  }

  lemma FirstBasis(st: State)
    requires Elems(st.bp) == StartItems(STUCK) && IsClosure(STUCK, Elems(st.bp), Elems(st.cfp))
    ensures (forall a :: a in st.bp <==> a == Item(0, 0)) && Item(1, 0) in st.cfp
  {
    forall a ensures a in st.bp <==> a == Item(0, 0) {
      assert a in st.bp <==> a in Elems(st.bp);
    }
    assert Item(0, 0) in Elems(st.cfp) && Generates(STUCK, Item(0, 0), Item(1, 0));
    assert Item(1, 0) in Elems(st.cfp);
  }

  lemma ShiftOnY(states: seq<State>) returns (s: nat)
    requires states != [] && ShiftsSound(STUCK, states, 0) && ShiftsComplete(STUCK, states[0]) && Item(1, 0) in states[0].cfp
    ensures s < |states| && forall a :: a in states[s].bp <==> a == Item(1, 1)
  {
    var st := states[0];
    var j :| 0 <= j < |st.cfp| && st.cfp[j] == Item(1, 0);
    assert NextIs(STUCK, st.cfp[j], Y) && CanShift(STUCK, st, Y) && HasShift(st, Y);
    var k :| 0 <= k < |st.shifts| && st.shifts[k].sym == Y;
    s := st.shifts[k].target;
    forall a ensures a in states[s].bp <==> a == Item(1, 1) {
      assert a in states[s].bp <==> a in Advance(STUCK, Elems(st.cfp), Y) by {
        assert a in states[s].bp <==> a in Elems(states[s].bp);
      }
      OnlyB(st.cfp, a);
    }
  }

  lemma OnlyB(cfp: seq<Item>, a: Item)
    requires Item(1, 0) in cfp
    ensures a in Advance(STUCK, Elems(cfp), Y) <==> a == Item(1, 1)
  {
    forall b | NextIs(STUCK, b, Y) ensures b == Item(1, 0) {
      assert b.rule == 0 || b.rule == 1 || b.rule == 2;
    }
    assert Item(1, 0) in Elems(cfp) && NextIs(STUCK, Item(1, 0), Y);
  }

  lemma OnlyFinished(st: State)
    requires IsClosure(STUCK, Elems(st.bp), Elems(st.cfp)) && forall a :: a in st.bp <==> a == Item(1, 1)
    ensures forall a :: a in st.cfp ==> a == Item(1, 1)
    ensures forall x :: !CanShift(STUCK, st, x)
  {
    var d := {Item(1, 1)};
    assert Elems(st.bp) <= d && Closed(STUCK, d);
    forall a | a in st.cfp ensures a == Item(1, 1) {
      assert a in Elems(st.cfp);
    }
    forall k, x: nat | 0 <= k < |st.cfp| ensures !NextIs(STUCK, st.cfp[k], x) {
      assert st.cfp[k] in st.cfp && |STUCK.rules[1].rhs| == 1;
    }
  }

  /** The generator aborts on this grammar, which it has no other objection to. */
  lemma StuckGrammarAborts(f: FirstInfo, states: seq<State>, configs: seq<Config>, links: seq<seq<nat>>, fws: seq<set<nat>>, outcome: Outcome)
    requires Canonical(STUCK, states) && Analysed(STUCK, f, states, configs, links, fws) && OutcomeOk(STUCK, states, configs, fws, outcome)
    ensures Usable(STUCK) && outcome == Aborted
  {
    StuckIsUsable();
    var s := StateBehindY(states);
    forall c, x: nat | 0 <= c < |configs| && x < STUCK.nterminal && FinishedIn(STUCK, configs[c], s) ensures x !in fws[c] {
      assert configs[c].a in states[s].cfp;
      if x in fws[c] {
        var init := Initials(STUCK, f, states, configs);
        var p :| FollowSets.IsPath(links, p) && x in init[p[0]] && p[|p| - 1] == c;
        NoFlowToB(f, states, configs, links, fws, p, x);
      }
    }
    assert Actionless(STUCK, states, s, configs, fws);
  }
}
