/**
 The propagation graph over all configurations of the automaton: initial follow sets and
 links as `Configlist_closure`, `buildshifts` and `FindLinks` leave them.
 */
module FollowGraph {
  import opened Wrappers
  import opened Grammars
  import opened Items
  import opened States
  import FollowSets

  /** A configuration of a state. */
  datatype Config = Config(s: nat, a: Item)

  /** Lookahead information from FindFirstSets. */
  datatype FirstInfo = FirstInfo(lambda: seq<bool>, first: seq<set<nat>>) {
    predicate Valid(g: Grammar) {
      |lambda| == |first| == g.NSymbol()
    }
  }

  ghost predicate TerminalsOnly(g: Grammar, f: FirstInfo) {
    forall x, t :: 0 <= x < |f.first| && t in f.first[x] ==> t < g.nterminal
  }

  /** Terminals that can begin what follows position `i` of a right-hand side. */
  function RestFirst(g: Grammar, f: FirstInfo, rhs: seq<nat>, i: nat): set<nat>
    requires f.Valid(g) && forall k :: 0 <= k < |rhs| ==> rhs[k] < g.NSymbol()
    decreases |rhs| - i
  {
    if i >= |rhs| then {}
    else if g.IsTerminal(rhs[i]) then {rhs[i]}
    else f.first[rhs[i]] + (if f.lambda[rhs[i]] then RestFirst(g, f, rhs, i + 1) else {})
  }

  /** Everything from position `i` on can vanish. */
  predicate RestVanishes(g: Grammar, f: FirstInfo, rhs: seq<nat>, i: nat)
    requires f.Valid(g) && forall k :: 0 <= k < |rhs| ==> rhs[k] < g.NSymbol()
  {
    forall k :: i <= k < |rhs| ==> !g.IsTerminal(rhs[k]) && f.lambda[rhs[k]]
  }

  /** What the items of a state contribute to the initial follow set of `b`. */
  function Offered(g: Grammar, f: FirstInfo, items: seq<Item>, b: Item): set<nat>
    requires g.Valid() && f.Valid(g) && forall k :: 0 <= k < |items| ==> ValidItem(g, items[k])
  {
    if items == [] then {}
    else
      assert ValidItem(g, items[0]) && g.ValidRule(g.rules[items[0].rule]);
      (if Generates(g, items[0], b) then RestFirst(g, f, g.rules[items[0].rule].rhs, items[0].dot + 1) else {})
      + Offered(g, f, items[1..], b)
  }

  ghost predicate ValidStates(g: Grammar, states: seq<State>) {
    forall s, k :: 0 <= s < |states| && 0 <= k < |states[s].cfp| ==> ValidItem(g, states[s].cfp[k])
  }

  /** The follow set of a configuration before propagation; the start rules begin with `$`. */
  function InitialFollow(g: Grammar, f: FirstInfo, states: seq<State>, c: Config): set<nat>
    requires g.Valid() && f.Valid(g) && ValidStates(g, states) && c.s < |states|
  {
    (if c.s == 0 && c.a in states[0].bp then {0} else {}) + Offered(g, f, states[c.s].cfp, c.a)
  }

  /** Does the follow set of `x` flow into `y`? */
  predicate IsLink(g: Grammar, f: FirstInfo, states: seq<State>, x: Config, y: Config)
    requires g.Valid() && f.Valid(g) && x.s < |states|
  {
    && x.a.rule < |g.rules| && x.a.dot < |g.rules[x.a.rule].rhs|
    && (|| (x.s == y.s && Generates(g, x.a, y.a) &&
            (assert g.ValidRule(g.rules[x.a.rule]); RestVanishes(g, f, g.rules[x.a.rule].rhs, x.a.dot + 1)))
        || (y.a == Item(x.a.rule, x.a.dot + 1) && Shift(g.rules[x.a.rule].rhs[x.a.dot], y.s) in states[x.s].shifts))
  }

  // ---------------------------------------------------------------- numbering the configurations

  /** Every configuration is listed once. */
  ghost predicate ListsConfigs(states: seq<State>, configs: seq<Config>) {
    && NoDuplicates(configs)
    && (forall c :: 0 <= c < |configs| ==> configs[c].s < |states| && configs[c].a in states[configs[c].s].cfp)
    && (forall s, a :: 0 <= s < |states| && a in states[s].cfp ==> Config(s, a) in configs)
  }

  method Configs(states: seq<State>) returns (configs: seq<Config>)
    requires forall s :: 0 <= s < |states| ==> NoDuplicates(states[s].cfp)
    ensures ListsConfigs(states, configs)
  {
    configs := [];
    for s := 0 to |states|
      invariant NoDuplicates(configs)
      invariant forall c :: 0 <= c < |configs| ==> configs[c].s < s && configs[c].a in states[configs[c].s].cfp
      invariant forall x, a :: 0 <= x < s && a in states[x].cfp ==> Config(x, a) in configs
    {
      var cfp := states[s].cfp;
      var before := configs;
      configs := configs + seq(|cfp|, k requires 0 <= k < |cfp| => Config(s, cfp[k]));
      forall a | a in cfp ensures Config(s, a) in configs {
        var k :| 0 <= k < |cfp| && cfp[k] == a;
        assert configs[|before| + k] == Config(s, a);
      }
    }
  }

  /** links[c] names exactly the configurations that `c` propagates to. */
  ghost predicate LinksOf(g: Grammar, f: FirstInfo, states: seq<State>, configs: seq<Config>, links: seq<seq<nat>>)
    requires g.Valid() && f.Valid(g) && ListsConfigs(states, configs)
  {
    && |links| == |configs|
    && (forall c, k: nat {:trigger k in links[c]} :: 0 <= c < |links| ==> (k in links[c] <==> k < |configs| && IsLink(g, f, states, configs[c], configs[k])))
  }

  // ---------------------------------------------------------------- follow sets

  /** The result of follow set computation, per configuration. */
  ghost predicate FollowOf(g: Grammar, f: FirstInfo, states: seq<State>, configs: seq<Config>, links: seq<seq<nat>>, fws: seq<set<nat>>)
    requires g.Valid() && f.Valid(g) && ValidStates(g, states) && ListsConfigs(states, configs)
  {
    && LinksOf(g, f, states, configs, links) && |fws| == |configs|
    && (forall c, t :: 0 <= c < |configs| ==>
          (t in fws[c] <==> FollowSets.Flows(links, Initials(g, f, states, configs), t, c)))
  }

  function Initials(g: Grammar, f: FirstInfo, states: seq<State>, configs: seq<Config>): (r: seq<set<nat>>)
    requires g.Valid() && f.Valid(g) && ValidStates(g, states)
    requires forall c :: 0 <= c < |configs| ==> configs[c].s < |states|
    ensures |r| == |configs|
  {
    seq(|configs|, c requires 0 <= c < |configs| => InitialFollow(g, f, states, configs[c]))
  }

  lemma {:induction false} RestFirstBounded(g: Grammar, f: FirstInfo, rhs: seq<nat>, i: nat)
    requires f.Valid(g) && TerminalsOnly(g, f) && forall k :: 0 <= k < |rhs| ==> rhs[k] < g.NSymbol()
    ensures forall t :: t in RestFirst(g, f, rhs, i) ==> t < g.nterminal
    decreases |rhs| - i
  {
    if i < |rhs| {
      RestFirstBounded(g, f, rhs, i + 1);
    }
  }

  lemma {:induction false} OfferedBounded(g: Grammar, f: FirstInfo, items: seq<Item>, b: Item)
    requires g.Valid() && f.Valid(g) && TerminalsOnly(g, f) && forall k :: 0 <= k < |items| ==> ValidItem(g, items[k])
    ensures forall t :: t in Offered(g, f, items, b) ==> t < g.nterminal
  {
    if items != [] {
      assert g.ValidRule(g.rules[items[0].rule]);
      RestFirstBounded(g, f, g.rules[items[0].rule].rhs, items[0].dot + 1);
      OfferedBounded(g, f, items[1..], b);
    }
  }

  // ---------------------------------------------------------------- the start rules

  lemma {:induction false} NothingOffered(g: Grammar, f: FirstInfo, items: seq<Item>, b: Item)
    requires g.Valid() && f.Valid(g) && g.StartOnNoRhs() && forall k :: 0 <= k < |items| ==> ValidItem(g, items[k])
    requires b.rule < |g.rules| && g.rules[b.rule].lhs == g.start
    ensures Offered(g, f, items, b) == {}
  {
    if items != [] {
      NothingOffered(g, f, items[1..], b);
    }
  }

  /** Whatever flows into a configuration of a start rule comes from that rule, hence is `$`. */
  lemma {:induction false} StartFlow(g: Grammar, f: FirstInfo, states: seq<State>, configs: seq<Config>, links: seq<seq<nat>>, p: seq<nat>, t: nat)
    requires g.Valid() && f.Valid(g) && g.StartOnNoRhs() && ValidStates(g, states) && ListsConfigs(states, configs)
    requires LinksOf(g, f, states, configs, links) && FollowSets.IsPath(links, p)
    requires t in Initials(g, f, states, configs)[p[0]]
    requires var b := configs[p[|p| - 1]].a; b.rule < |g.rules| && g.rules[b.rule].lhs == g.start
    ensures t == 0
    decreases |p|
  {
    if |p| == 1 {
      var c := configs[p[0]];
      NothingOffered(g, f, states[c.s].cfp, c.a);
    } else {
      var q := p[..|p| - 1];
      var x, y := configs[p[|p| - 2]], configs[p[|p| - 1]];
      assert p[|p| - 2 + 1] in links[p[|p| - 2]];
      assert IsLink(g, f, states, x, y);
      assert y.a == Item(x.a.rule, x.a.dot + 1);
      StartFlow(g, f, states, configs, links, q, t);
    }
  }

  /** The follow set of a start rule holds nothing but `$`. */
  lemma StartFollow(g: Grammar, f: FirstInfo, states: seq<State>, configs: seq<Config>, links: seq<seq<nat>>, fws: seq<set<nat>>, c: nat, t: nat)
    requires g.Valid() && f.Valid(g) && g.StartOnNoRhs() && ValidStates(g, states) && ListsConfigs(states, configs)
    requires FollowOf(g, f, states, configs, links, fws) && c < |configs| && t in fws[c]
    requires configs[c].a.rule < |g.rules| && g.rules[configs[c].a.rule].lhs == g.start
    ensures t == 0
  {
    var init := Initials(g, f, states, configs);
    var p :| FollowSets.IsPath(links, p) && t in init[p[0]] && p[|p| - 1] == c;
    StartFlow(g, f, states, configs, links, p, t);
  }
}
