/**
 How follow sets and propagation links come about: the closure loop fills the configurations of a
 state, `buildshifts` leaves links from the new configurations back to the old ones, `FindLinks`
 turns these around, and `FindFollowSets` propagates.
 */
module LinkBuilder {
  import opened Wrappers
  import opened Grammars
  import opened Items
  import opened States
  import opened FollowGraph
  import FollowSets

  // ---------------------------------------------------------------- inside a state

  /** `a` generates `b` and all that follows can vanish: what follows `a` follows `b`. */
  predicate Passes(g: Grammar, f: FirstInfo, a: Item, b: Item)
    requires g.Valid() && f.Valid(g)
  {
    a.rule < |g.rules| && Generates(g, a, b) && (assert g.ValidRule(g.rules[a.rule]); RestVanishes(g, f, g.rules[a.rule].rhs, a.dot + 1))
  }

  /** What `a` gives to the follow set of `b`. */
  function Gift(g: Grammar, f: FirstInfo, a: Item, b: Item): set<nat>
    requires g.Valid() && f.Valid(g) && ValidItem(g, a)
  {
    if Generates(g, a, b) then (assert g.ValidRule(g.rules[a.rule]); RestFirst(g, f, g.rules[a.rule].rhs, a.dot + 1)) else {}
  }

  /** The scan over the symbols behind a dot. */
  method ScanRest(g: Grammar, f: FirstInfo, rhs: seq<nat>, from: nat) returns (add: set<nat>, through: bool)
    requires f.Valid(g) && from <= |rhs| && forall k :: 0 <= k < |rhs| ==> rhs[k] < g.NSymbol()
    ensures add == RestFirst(g, f, rhs, from) && through == RestVanishes(g, f, rhs, from)
  {
    add := {};
    for i := from to |rhs|
      invariant add + RestFirst(g, f, rhs, i) == RestFirst(g, f, rhs, from)
      invariant forall k :: from <= k < i ==> !g.IsTerminal(rhs[k]) && f.lambda[rhs[k]]
    {
      if g.IsTerminal(rhs[i]) { return add + {rhs[i]}, false; }
      add := add + f.first[rhs[i]];
      if !f.lambda[rhs[i]] { return add, false; }
    }
    through := true;
  }

  /** The closure loop at configuration `a`: every rule of the nonterminal behind its dot. */
  method ExpandSets(g: Grammar, f: FirstInfo, a: Item, fws0: map<Item, set<nat>>) returns (fws: map<Item, set<nat>>, fplp: set<Item>)
    requires g.Valid() && f.Valid(g) && ValidItem(g, a) && forall b :: Generates(g, a, b) ==> b in fws0
    ensures fws.Keys == fws0.Keys && forall b :: b in fws0 ==> fws[b] == fws0[b] + Gift(g, f, a, b)
    ensures forall b :: b in fplp <==> Passes(g, f, a, b)
  {
    fws, fplp := fws0, {};
    var rhs := g.rules[a.rule].rhs;
    if a.dot >= |rhs| { return; }
    assert g.ValidRule(g.rules[a.rule]);
    var add, through := ScanRest(g, f, rhs, a.dot + 1);
    for r := 0 to |g.rules|
      invariant fws.Keys == fws0.Keys
      invariant forall b :: b in fws0 ==> fws[b] == fws0[b] + (if b.rule < r then Gift(g, f, a, b) else {})
      invariant forall b :: b in fplp <==> b.rule < r && Passes(g, f, a, b)
    {
      if g.rules[r].lhs == rhs[a.dot] {
        var newcfp := Item(r, 0);
        assert Generates(g, a, newcfp);
        fws := fws[newcfp := fws[newcfp] + add];
        if through { fplp := fplp + {newcfp}; }
      }
    }
  }

  lemma {:induction false} OfferedAppend(g: Grammar, f: FirstInfo, items: seq<Item>, a: Item, b: Item)
    requires g.Valid() && f.Valid(g) && ValidItem(g, a) && forall k :: 0 <= k < |items| ==> ValidItem(g, items[k])
    ensures Offered(g, f, items + [a], b) == Offered(g, f, items, b) + Gift(g, f, a, b)
  {
    if items == [] {
      assert items + [a] == [a] && [a][1..] == [];
    } else {
      assert (items + [a])[1..] == items[1..] + [a];
      OfferedAppend(g, f, items[1..], a, b);
    }
  }

  /** The sets after the configurations `items` have been visited. */
  ghost predicate SetsAfter(g: Grammar, f: FirstInfo, items: seq<Item>, fws0: map<Item, set<nat>>, fws: map<Item, set<nat>>)
    requires g.Valid() && f.Valid(g) && forall k :: 0 <= k < |items| ==> ValidItem(g, items[k])
  {
    fws.Keys == fws0.Keys && forall b :: b in fws0 ==> fws[b] == fws0[b] + Offered(g, f, items, b)
  }

  lemma SetsStep(g: Grammar, f: FirstInfo, items: seq<Item>, a: Item, fws0: map<Item, set<nat>>, fws: map<Item, set<nat>>, fws': map<Item, set<nat>>)
    requires g.Valid() && f.Valid(g) && ValidItem(g, a) && forall k :: 0 <= k < |items| ==> ValidItem(g, items[k])
    requires SetsAfter(g, f, items, fws0, fws)
    requires fws'.Keys == fws.Keys && forall b :: b in fws ==> fws'[b] == fws[b] + Gift(g, f, a, b)
    ensures SetsAfter(g, f, items + [a], fws0, fws')
  {
    forall b | b in fws0 ensures fws'[b] == fws0[b] + Offered(g, f, items + [a], b) {
      OfferedAppend(g, f, items, a, b);
    }
  }

  /** The links of the configurations visited. */
  ghost predicate LinksAfter(g: Grammar, f: FirstInfo, fplp: map<Item, set<Item>>)
    requires g.Valid() && f.Valid(g)
  {
    forall a, b :: a in fplp ==> (b in fplp[a] <==> Passes(g, f, a, b))
  }

  /** What the closure of a state leaves in its configurations, which begin with the sets `fws0`. */
  method ClosureSets(g: Grammar, f: FirstInfo, cfp: seq<Item>, fws0: map<Item, set<nat>>) returns (fws: map<Item, set<nat>>, fplp: map<Item, set<Item>>)
    requires g.Valid() && f.Valid(g) && forall k :: 0 <= k < |cfp| ==> ValidItem(g, cfp[k])
    requires forall k, b :: 0 <= k < |cfp| && Generates(g, cfp[k], b) ==> b in fws0
    ensures SetsAfter(g, f, cfp, fws0, fws)
    ensures LinksAfter(g, f, fplp) && forall a :: a in fplp <==> a in cfp
  {
    fws, fplp := fws0, map[];
    ghost var items: seq<Item> := [];
    for i := 0 to |cfp|
      invariant items == cfp[..i] && SetsAfter(g, f, items, fws0, fws)
      invariant LinksAfter(g, f, fplp) && forall a :: a in fplp <==> a in items
    {
      var fws', links := ExpandSets(g, f, cfp[i], fws);
      SetsStep(g, f, items, cfp[i], fws0, fws, fws');
      fws, fplp, items := fws', fplp[cfp[i] := links], items + [cfp[i]];
    }
    assert items == cfp;
  }

  /** The records of all states so far: initial follow sets and links inside the states. */
  ghost predicate Recorded(g: Grammar, f: FirstInfo, states: seq<State>, n: nat, fws: map<Config, set<nat>>, fplp: map<Config, set<Config>>)
    requires g.Valid() && f.Valid(g) && ValidStates(g, states) && n <= |states|
  {
    && (forall s, a :: 0 <= s < n && a in states[s].cfp ==> Config(s, a) in fws && Config(s, a) in fplp)
    && (forall c :: c in fws ==> c.s < n && fws[c] == InitialFollow(g, f, states, c))
    && (forall c :: c in fplp ==> c.s < n && c.a in states[c.s].cfp && InState(g, f, c, fplp[c]))
  }

  /** The links of `c` inside its state. */
  ghost predicate InState(g: Grammar, f: FirstInfo, c: Config, links: set<Config>)
    requires g.Valid() && f.Valid(g)
  {
    forall y :: y in links <==> y.s == c.s && Passes(g, f, c.a, y.a)
  }

  /** The sets of a state as sets of its configurations. */
  function SetsIn(s: nat, sets: map<Item, set<nat>>): (r: map<Config, set<nat>>)
    ensures forall c :: c in r <==> c.s == s && c.a in sets
    ensures forall c :: c in r ==> r[c] == sets[c.a]
  {
    map a | a in sets :: Config(s, a) := sets[a]
  }

  function LinksIn(s: nat, links: map<Item, set<Item>>): (r: map<Config, set<Config>>)
    ensures forall c :: c in r <==> c.s == s && c.a in links
    ensures forall c, y :: c in r ==> (y in r[c] <==> y.s == s && y.a in links[c.a])
  {
    map a | a in links :: Config(s, a) := set b | b in links[a] :: Config(s, b)
  }

  /** What the configurations of state `s` begin with: the end mark for the start rules. */
  function Beginning(s: nat, st: State): (r: map<Item, set<nat>>)
    ensures forall a :: a in r <==> a in st.cfp
    ensures forall a :: a in r ==> r[a] == if s == 0 && a in st.bp then {0} else {}
  {
    map a | a in st.cfp :: if s == 0 && a in st.bp then {0} else {}
  }

  lemma BeginningIsClosed(g: Grammar, s: nat, st: State)
    requires Closed(g, Elems(st.cfp))
    ensures forall k, b :: 0 <= k < |st.cfp| && Generates(g, st.cfp[k], b) ==> b in Beginning(s, st)
  {
    forall k, b | 0 <= k < |st.cfp| && Generates(g, st.cfp[k], b) ensures b in Beginning(s, st) {
      assert st.cfp[k] in Elems(st.cfp) && b in Elems(st.cfp);
    }
  }

  /** The configurations of one state; those of the start rules begin with the end mark. */
  method RecordState(g: Grammar, f: FirstInfo, states: seq<State>, s: nat) returns (fws: map<Config, set<nat>>, fplp: map<Config, set<Config>>)
    requires g.Valid() && f.Valid(g) && ValidStates(g, states) && s < |states| && Closed(g, Elems(states[s].cfp))
    ensures forall a :: a in states[s].cfp ==> Config(s, a) in fws && Config(s, a) in fplp
    ensures forall c :: c in fws ==> c.s == s && fws[c] == InitialFollow(g, f, states, c)
    ensures forall c :: c in fplp ==> c.s == s && c.a in states[s].cfp && InState(g, f, c, fplp[c])
  {
    var st := states[s];
    BeginningIsClosed(g, s, st);
    var sets, links := ClosureSets(g, f, st.cfp, Beginning(s, st));
    fws, fplp := SetsIn(s, sets), LinksIn(s, links);
    SetsAreInitial(g, f, states, s, sets);
    LinksAreInside(g, f, s, links);
  }

  lemma SetsAreInitial(g: Grammar, f: FirstInfo, states: seq<State>, s: nat, sets: map<Item, set<nat>>)
    requires g.Valid() && f.Valid(g) && ValidStates(g, states) && s < |states| && SetsAfter(g, f, states[s].cfp, Beginning(s, states[s]), sets)
    ensures forall c :: c in SetsIn(s, sets) ==> c.s == s && SetsIn(s, sets)[c] == InitialFollow(g, f, states, c)
  {
  }

  lemma LinksAreInside(g: Grammar, f: FirstInfo, s: nat, links: map<Item, set<Item>>)
    requires g.Valid() && f.Valid(g) && LinksAfter(g, f, links)
    ensures forall c :: c in LinksIn(s, links) ==> InState(g, f, c, LinksIn(s, links)[c])
  {
    forall c | c in LinksIn(s, links) ensures InState(g, f, c, LinksIn(s, links)[c]) {
      assert c.a in links;
    }
  }

  /** The configurations of all states after their closures. */
  method Records(g: Grammar, f: FirstInfo, states: seq<State>) returns (fws: map<Config, set<nat>>, fplp: map<Config, set<Config>>)
    requires g.Valid() && f.Valid(g) && ValidStates(g, states)
    requires forall s :: 0 <= s < |states| ==> Closed(g, Elems(states[s].cfp))
    ensures Recorded(g, f, states, |states|, fws, fplp)
  {
    fws, fplp := map[], map[];
    for s := 0 to |states|
      invariant Recorded(g, f, states, s, fws, fplp)
    {
      var sets, links := RecordState(g, f, states, s);
      fws, fplp := fws + sets, fplp + links;
    }
  }

  // ---------------------------------------------------------------- between states

  /** A back link: `y` is `a` with its dot moved over the symbol of the shift. */
  predicate Moves(g: Grammar, a: Item, sh: Shift, y: Config) {
    NextIs(g, a, sh.sym) && y == Config(sh.target, Item(a.rule, a.dot + 1))
  }

  /** Where the configurations of the state come from that `y` belongs to. */
  function Back(bplp: map<Config, set<Config>>, y: Config): set<Config> {
    if y in bplp then bplp[y] else {}
  }

  /** The back links for one shift of state `s`. */
  method BackOverShift(g: Grammar, s: nat, cfp: seq<Item>, sh: Shift, bplp0: map<Config, set<Config>>) returns (bplp: map<Config, set<Config>>)
    ensures forall x, y :: x in Back(bplp, y) <==> x in Back(bplp0, y) || (x.s == s && x.a in cfp && Moves(g, x.a, sh, y))
  {
    bplp := bplp0;
    for j := 0 to |cfp|
      invariant forall x, y :: x in Back(bplp, y) <==> x in Back(bplp0, y) || (x.s == s && x.a in cfp[..j] && Moves(g, x.a, sh, y))
    {
      assert cfp[..j + 1] == cfp[..j] + [cfp[j]];
      if NextIs(g, cfp[j], sh.sym) {
        var y := Config(sh.target, Item(cfp[j].rule, cfp[j].dot + 1));
        bplp := bplp[y := Back(bplp, y) + {Config(s, cfp[j])}];
      }
    }
    assert cfp[..|cfp|] == cfp;
  }

  /** `y` is `x` advanced over one of the first `n` shifts of its state. */
  ghost predicate Advanced(g: Grammar, st: State, n: nat, x: Config, y: Config)
    requires n <= |st.shifts|
  {
    x.a in st.cfp && exists k :: 0 <= k < n && Moves(g, x.a, st.shifts[k], y)
  }

  method BackFromState(g: Grammar, s: nat, st: State, bplp0: map<Config, set<Config>>) returns (bplp: map<Config, set<Config>>)
    ensures forall x, y :: x in Back(bplp, y) <==> x in Back(bplp0, y) || (x.s == s && Advanced(g, st, |st.shifts|, x, y))
  {
    bplp := bplp0;
    for k := 0 to |st.shifts|
      invariant forall x, y :: x in Back(bplp, y) <==> x in Back(bplp0, y) || (x.s == s && Advanced(g, st, k, x, y))
    {
      bplp := BackOverShift(g, s, st.cfp, st.shifts[k], bplp);
    }
  }

  /** All back links that building the shifts leaves. */
  method BackLinks(g: Grammar, states: seq<State>) returns (bplp: map<Config, set<Config>>)
    ensures forall x, y :: x in Back(bplp, y) <==> x.s < |states| && Advanced(g, states[x.s], |states[x.s].shifts|, x, y)
  {
    bplp := map[];
    for s := 0 to |states|
      invariant forall x, y :: x in Back(bplp, y) <==> x.s < s && Advanced(g, states[x.s], |states[x.s].shifts|, x, y)
    {
      bplp := BackFromState(g, s, states[s], bplp);
    }
  }

  /** The links back from one configuration become links forward to it. */
  method Forward(y: Config, back: set<Config>, fplp0: map<Config, set<Config>>) returns (fplp: map<Config, set<Config>>)
    requires forall x :: x in back ==> x in fplp0
    ensures fplp.Keys == fplp0.Keys && forall x :: x in fplp0 ==> fplp[x] == fplp0[x] + if x in back then {y} else {}
  {
    fplp := fplp0;
    var todo := back;
    while todo != {}
      invariant todo <= back && fplp.Keys == fplp0.Keys
      invariant forall x :: x in fplp0 ==> fplp[x] == fplp0[x] + if x in back - todo then {y} else {}
    {
      var other :| other in todo;
      fplp := fplp[other := fplp[other] + {y}];
      todo := todo - {other};
    }
  }

  /** FindLinks: all back links become forward links. */
  method FindLinks(configs: seq<Config>, bplp: map<Config, set<Config>>, fplp0: map<Config, set<Config>>) returns (fplp: map<Config, set<Config>>)
    requires forall x, y :: x in Back(bplp, y) ==> x in fplp0
    ensures fplp.Keys == fplp0.Keys
    ensures forall x, y :: x in fplp0 ==> (y in fplp[x] <==> y in fplp0[x] || (y in configs && x in Back(bplp, y)))
  {
    fplp := fplp0;
    for c := 0 to |configs|
      invariant fplp.Keys == fplp0.Keys
      invariant forall x, y :: x in fplp0 ==> (y in fplp[x] <==> y in fplp0[x] || (y in configs[..c] && x in Back(bplp, y)))
    {
      assert configs[..c + 1] == configs[..c] + [configs[c]];
      fplp := Forward(configs[c], Back(bplp, configs[c]), fplp);
    }
    assert configs[..|configs|] == configs;
  }

  // ---------------------------------------------------------------- the whole automaton

  /** The links that were made are those of the relation. */
  lemma LinksAgree(g: Grammar, f: FirstInfo, states: seq<State>, x: Config, y: Config)
    requires g.Valid() && f.Valid(g) && x.s < |states| && x.a in states[x.s].cfp
    ensures IsLink(g, f, states, x, y) <==>
            (x.s == y.s && Passes(g, f, x.a, y.a)) || Advanced(g, states[x.s], |states[x.s].shifts|, x, y)
  {
    var st := states[x.s];
    if Advanced(g, st, |st.shifts|, x, y) {
      var k :| 0 <= k < |st.shifts| && Moves(g, x.a, st.shifts[k], y);
      assert st.shifts[k] in st.shifts;
    }
    if IsLink(g, f, states, x, y) && !(x.s == y.s && Passes(g, f, x.a, y.a)) {
      var k :| 0 <= k < |st.shifts| && st.shifts[k] == Shift(g.rules[x.a.rule].rhs[x.a.dot], y.s);
      assert Moves(g, x.a, st.shifts[k], y);
    }
  }

  /** The numbers of the configurations that one links to. */
  method Numbers(configs: seq<Config>, links: set<Config>) returns (ks: seq<nat>)
    ensures forall k: nat :: k in ks <==> k < |configs| && configs[k] in links
  {
    ks := [];
    for j := 0 to |configs|
      invariant forall k: nat :: k in ks <==> k < j && configs[k] in links
    {
      if configs[j] in links {
        ks := ks + [j];
      }
    }
  }

  /** The records in the order of the configurations, with numbers for links. */
  method Numbered(g: Grammar, f: FirstInfo, states: seq<State>, configs: seq<Config>, fplp: map<Config, set<Config>>) returns (links: seq<seq<nat>>)
    requires g.Valid() && f.Valid(g) && ListsConfigs(states, configs)
    requires forall c :: 0 <= c < |configs| ==> configs[c] in fplp
    requires forall x, y :: x in fplp && y in configs ==> x.s < |states| && (y in fplp[x] <==> IsLink(g, f, states, x, y))
    ensures LinksOf(g, f, states, configs, links) && FollowSets.ValidGraph(links)
  {
    links := [];
    for c := 0 to |configs|
      invariant |links| == c
      invariant forall x, k: nat {:trigger k in links[x]} :: 0 <= x < c ==> (k in links[x] <==> k < |configs| && IsLink(g, f, states, configs[x], configs[k]))
    {
      var ks := Numbers(configs, fplp[configs[c]]);
      forall k: nat | k < |configs| ensures configs[k] in fplp[configs[c]] <==> IsLink(g, f, states, configs[c], configs[k]) {
        assert configs[k] in configs;
      }
      links := links + [ks];
    }
    forall c, k | 0 <= c < |links| && 0 <= k < |links[c]| ensures links[c][k] < |links| {
      assert links[c][k] in links[c];
    }
  }

  /** FindLinks and FindFollowSets on the configurations that the closures and shifts of the states left. */
  method Follow(g: Grammar, f: FirstInfo, states: seq<State>)
    returns (configs: seq<Config>, fws: seq<set<nat>>, ghost links: seq<seq<nat>>)
    requires g.Valid() && f.Valid(g) && TerminalsOnly(g, f) && ValidStates(g, states)
    requires forall s :: 0 <= s < |states| ==> NoDuplicates(states[s].cfp) && Closed(g, Elems(states[s].cfp))
    ensures ListsConfigs(states, configs) && FollowOf(g, f, states, configs, links, fws)
  {
    configs := Configs(states);
    var sets, fplp := Records(g, f, states);
    fplp := AllLinks(g, f, states, configs, fplp);
    var ls := Numbered(g, f, states, configs, fplp);
    links := ls;
    var init := seq(|configs|, c requires 0 <= c < |configs| => sets[configs[c]]);
    assert init == Initials(g, f, states, configs);
    forall c, t | 0 <= c < |init| && t in init[c] ensures t < g.nterminal {
      OfferedBounded(g, f, states[configs[c].s].cfp, configs[c].a);
    }
    fws := FollowSets.FindFollowSets(ls, init, g.nterminal);
  }

  /** Links inside states and between them. */
  method AllLinks(g: Grammar, f: FirstInfo, states: seq<State>, configs: seq<Config>, inside: map<Config, set<Config>>) returns (fplp: map<Config, set<Config>>)
    requires g.Valid() && f.Valid(g) && ListsConfigs(states, configs)
    requires forall s, a :: 0 <= s < |states| && a in states[s].cfp ==> Config(s, a) in inside
    requires forall c :: c in inside ==> c.s < |states| && c.a in states[c.s].cfp && InState(g, f, c, inside[c])
    ensures fplp.Keys == inside.Keys
    ensures forall x, y :: x in fplp && y in configs ==> (y in fplp[x] <==> IsLink(g, f, states, x, y))
  {
    var bplp := BackLinks(g, states);
    forall x, y | x in Back(bplp, y) ensures x in inside {
      assert x == Config(x.s, x.a);
    }
    fplp := FindLinks(configs, bplp, inside);
    forall x, y | x in fplp && y in configs ensures y in fplp[x] <==> IsLink(g, f, states, x, y) {
      LinksAgree(g, f, states, x, y);
    }
  }
}
