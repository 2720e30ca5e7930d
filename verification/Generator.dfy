/**
 The generator as a whole: from a grammar to the tables of its parser, and the proof that
 these tables satisfy what the soundness of runs needs.
 */
module Generator {
  import opened Wrappers
  import opened Grammars
  import opened Actions
  import opened Compression
  import opened Items
  import opened States
  import opened StateBuilder
  import opened FollowGraph
  import opened LinkBuilder
  import opened Tables
  import opened TableReport
  import opened Soundness
  import FirstSets
  import ViablePrefixes
  import Lookaheads
  import Driver

  // ---------------------------------------------------------------- FindActions: the raw actions of a state

  ghost predicate IsShift(st: State, a: Action) {
    a.kind == SHIFT && Shift(a.sp, a.arg) in st.shifts
  }

  /** A reduce on a terminal in the follow set of a finished item. */
  ghost predicate IsReduce(g: Grammar, s: nat, configs: seq<Config>, fws: seq<set<nat>>, a: Action) {
    && a.kind == REDUCE && a.sp < g.nterminal && a.arg < |g.rules| && |fws| == |configs|
    && exists c :: 0 <= c < |configs| && configs[c] == Config(s, Item(a.arg, |g.rules[a.arg].rhs|)) && a.sp in fws[c]
  }

  /** A reduce by one of the first `n` configurations. */
  ghost predicate IsReduceOf(g: Grammar, s: nat, configs: seq<Config>, fws: seq<set<nat>>, n: nat, a: Action)
    requires n <= |fws| == |configs|
  {
    && a.kind == REDUCE && a.sp < g.nterminal && a.arg < |g.rules|
    && exists c :: 0 <= c < n && configs[c] == Config(s, Item(a.arg, |g.rules[a.arg].rhs|)) && a.sp in fws[c]
  }

  ghost predicate IsAccept(g: Grammar, s: nat, a: Action) {
    s == 0 && a == Action(g.start, ACCEPT, 0)
  }

  method ShiftActions(st: State) returns (acts: seq<Action>)
    ensures |acts| == |st.shifts|
    ensures forall k :: 0 <= k < |acts| ==> acts[k] == Action(st.shifts[k].sym, SHIFT, st.shifts[k].target)
    ensures forall a :: a in acts <==> IsShift(st, a)
  {
    acts := seq(|st.shifts|, k requires 0 <= k < |st.shifts| => Action(st.shifts[k].sym, SHIFT, st.shifts[k].target));
    forall a | IsShift(st, a) ensures a in acts {
      var k :| 0 <= k < |st.shifts| && st.shifts[k] == Shift(a.sp, a.arg);
      assert acts[k] == a;
    }
  }

  /** The reduces of the finished item `configs[c]`, one per terminal of its follow set. */
  method ItemReduces(g: Grammar, rule: nat, fws: set<nat>) returns (acts: seq<Action>)
    ensures NoDuplicates(acts)
    ensures forall a :: a in acts <==> a.kind == REDUCE && a.arg == rule && a.sp < g.nterminal && a.sp in fws
  {
    acts := [];
    for j := 0 to g.nterminal
      invariant NoDuplicates(acts)
      invariant forall a :: a in acts <==> a.kind == REDUCE && a.arg == rule && a.sp < j && a.sp in fws
    {
      if j in fws {
        acts := acts + [Action(j, REDUCE, rule)];
      }
    }
  }

  method ReduceActions(g: Grammar, s: nat, configs: seq<Config>, fws: seq<set<nat>>) returns (acts: seq<Action>)
    requires NoDuplicates(configs) && |fws| == |configs|
    ensures NoDuplicates(acts) && forall a :: a in acts <==> IsReduce(g, s, configs, fws, a)
  {
    acts := [];
    for c := 0 to |configs|
      invariant NoDuplicates(acts)
      invariant forall a :: a in acts <==> IsReduceOf(g, s, configs, fws, c, a)
    {
      var cfg := configs[c];
      if cfg.s == s && cfg.a.rule < |g.rules| && cfg.a.dot == |g.rules[cfg.a.rule].rhs| {
        var more := ItemReduces(g, cfg.a.rule, fws[c]);
        NextReduces(g, s, configs, fws, c);
        AppendDisjoint(acts, more);
        acts := acts + more;
      }
    }
  }

  /** The reduces of the configuration at `c` are new. */
  lemma NextReduces(g: Grammar, s: nat, configs: seq<Config>, fws: seq<set<nat>>, c: nat)
    requires NoDuplicates(configs) && c < |fws| == |configs|
    requires configs[c].s == s && configs[c].a.rule < |g.rules| && configs[c].a.dot == |g.rules[configs[c].a.rule].rhs|
    ensures forall a: Action :: a.kind == REDUCE && a.arg == configs[c].a.rule ==> !IsReduceOf(g, s, configs, fws, c, a)
    ensures forall a :: IsReduceOf(g, s, configs, fws, c + 1, a) <==>
      IsReduceOf(g, s, configs, fws, c, a) || (a.kind == REDUCE && a.arg == configs[c].a.rule && a.sp < g.nterminal && a.sp in fws[c])
  {
    assert configs[c] == Config(s, Item(configs[c].a.rule, |g.rules[configs[c].a.rule].rhs|));
  }

  lemma AppendDisjoint(s: seq<Action>, t: seq<Action>)
    requires NoDuplicates(s) && NoDuplicates(t) && forall a :: a in s ==> a !in t
    ensures NoDuplicates(s + t)
  {
    forall i, j | 0 <= i < j < |s + t| ensures (s + t)[i] != (s + t)[j] {
      if i < |s| <= j {
        assert s[i] in s && t[j - |s|] in t;
      }
    }
  }

  /** All actions that FindActions gives to state `s`, before sorting. */
  ghost predicate RawOf(g: Grammar, states: seq<State>, s: nat, configs: seq<Config>, fws: seq<set<nat>>, raw: seq<Action>)
    requires s < |states|
  {
    && WellPosed(raw)
    && (forall a :: a in raw <==> IsShift(states[s], a) || IsReduce(g, s, configs, fws, a) || IsAccept(g, s, a))
  }

  method RawActions(g: Grammar, states: seq<State>, s: nat, configs: seq<Config>, fws: seq<set<nat>>) returns (raw: seq<Action>)
    requires g.Valid() && s < |states| && NoDuplicates(configs) && |fws| == |configs|
    requires forall j, k :: 0 <= j < k < |states[s].shifts| ==> states[s].shifts[j].sym != states[s].shifts[k].sym
    requires forall k :: 0 <= k < |states[s].shifts| ==> states[s].shifts[k].sym != g.start
    ensures RawOf(g, states, s, configs, fws, raw)
  {
    var shifts := ShiftActions(states[s]);
    var reduces := ReduceActions(g, s, configs, fws);
    var accept := if s == 0 then [Action(g.start, ACCEPT, 0)] else [];
    AppendDisjoint(shifts, reduces);
    AppendDisjoint(shifts + reduces, accept);
    raw := shifts + reduces + accept;
    forall a ensures a in raw <==> IsShift(states[s], a) || IsReduce(g, s, configs, fws, a) || IsAccept(g, s, a) {
      assert a in raw <==> a in shifts || a in reduces || a in accept;
    }
  }

  // ---------------------------------------------------------------- states without any action

  /** State `s` is not the first one, shifts nothing, and the follow sets of its finished items are empty. */
  ghost predicate Actionless(g: Grammar, states: seq<State>, s: nat, configs: seq<Config>, fws: seq<set<nat>>)
    requires s < |states| && |fws| == |configs|
  {
    && s > 0 && states[s].shifts == []
    && (forall c, x: nat :: 0 <= c < |configs| && x < g.nterminal && FinishedIn(g, configs[c], s) ==> x !in fws[c])
  }

  ghost predicate FinishedIn(g: Grammar, c: Config, s: nat) {
    c.s == s && c.a.rule < |g.rules| && c.a.dot == |g.rules[c.a.rule].rhs|
  }

  /** Exactly these states fail the assertion at the start of the conflict loop. */
  lemma ActionlessIff(g: Grammar, states: seq<State>, s: nat, configs: seq<Config>, fws: seq<set<nat>>, raw: seq<Action>)
    requires s < |states| && |fws| == |configs| && RawOf(g, states, s, configs, fws, raw)
    ensures raw == [] <==> Actionless(g, states, s, configs, fws)
  {
    assert IsAccept(g, s, Action(g.start, ACCEPT, 0)) <==> s == 0;
    if raw == [] {
      if states[s].shifts != [] {
        var k := states[s].shifts[0];
        assert IsShift(states[s], Action(k.sym, SHIFT, k.target));
      }
      forall c, x: nat | 0 <= c < |configs| && x < g.nterminal && FinishedIn(g, configs[c], s) ensures x !in fws[c] {
        var a := Action(x, REDUCE, configs[c].a.rule);
        assert configs[c] == Config(s, Item(a.arg, |g.rules[a.arg].rhs|));
        assert a !in raw && !IsReduce(g, s, configs, fws, a);
      }
    } else {
      var a := raw[0];
      assert a in raw;
      if IsReduce(g, s, configs, fws, a) {
        var c :| 0 <= c < |configs| && configs[c] == Config(s, Item(a.arg, |g.rules[a.arg].rhs|)) && a.sp in fws[c];
        assert FinishedIn(g, configs[c], s);
      }
    }
  }

  // ---------------------------------------------------------------- one state, from raw actions to decisions

  /** What is known about state `s` when its actions go into the tables. */
  ghost predicate Prepared(g: Grammar, states: seq<State>, s: nat, configs: seq<Config>, fws: seq<set<nat>>,
                           raw: seq<Action>, ap: seq<Action>, r: seq<Action>)
    requires s < |states|
  {
    && RawOf(g, states, s, configs, fws, raw) && Settled(raw, ap) && Won(g, raw, ap)
    && Deterministic(r) && Compressed(ap, r, g.NSymbol())
    && (forall a :: a in r ==> a.sp <= g.NSymbol() && a.kind != ERROR)
  }

  /** Live entries of the compressed list are raw actions, or the default reduce by a rule with two of them. */
  ghost predicate Source(raw: seq<Action>, dflt: nat, a: Action) {
    if a.sp < dflt then a in raw
    else a.kind == REDUCE && exists x, y :: x in raw && y in raw && x.sp != y.sp && x.kind == y.kind == REDUCE && x.arg == y.arg == a.arg
  }

  lemma EntrySource(ap: seq<Action>, raw: seq<Action>, r: seq<Action>, dflt: nat, a: Action)
    requires Settled(raw, ap) && Compressed(ap, r, dflt) && Deterministic(r) && a in r && a.Live() && a.sp <= dflt
    ensures Source(raw, dflt, a)
  {
    LiveOnMember(r, a);
    if a.sp < dflt {
      assert LiveOn(r, a.sp) == LiveOn(ap, a.sp);
    } else {
      var rb :| BestDefault(ap, r, dflt, rb);
      assert a == LiveOn(r, dflt)[0];
      var x, y := TwoReduces(ap, rb);
    }
  }

  lemma StateIsEmittable(g: Grammar, states: seq<State>, s: nat, configs: seq<Config>, fws: seq<set<nat>>,
                         raw: seq<Action>, ap: seq<Action>, r: seq<Action>, dim: Dimensions)
    requires g.Valid() && s < |states| && Prepared(g, states, s, configs, fws, raw, ap, r)
    requires dim == Dimensions(|states|, |g.rules|, g.nterminal, g.NSymbol())
    requires forall k :: 0 <= k < |states[s].shifts| ==> states[s].shifts[k].target < |states|
    ensures Emittable(dim, r)
  {
    forall a | a in r
      ensures a.kind == SHIFT ==> a.arg < dim.nstate
      ensures a.kind == REDUCE ==> a.arg < dim.nrule
    {
      if a.Live() {
        EntrySource(ap, raw, r, g.NSymbol(), a);
      }
    }
  }

  /** The follow sets relate to finished items: reduces in `raw` are justified, start rules only on `$`. */
  ghost predicate Justified(g: Grammar, states: seq<State>, s: nat, configs: seq<Config>, fws: seq<set<nat>>)
    requires s < |states|
  {
    forall a :: IsReduce(g, s, configs, fws, a) ==>
      Item(a.arg, |g.rules[a.arg].rhs|) in states[s].cfp && (g.rules[a.arg].lhs == g.start ==> a.sp == 0)
  }

  /** An action the automaton allows on terminal `x`. */
  ghost predicate Allowed(g: Grammar, st: State, x: nat, a: Action) {
    || (a.kind == SHIFT && ShiftsTo(st, x, a.arg))
    || (a.kind == REDUCE && ReduceOk(g, st, x, a.arg))
  }

  lemma OwnEntryAllowed(g: Grammar, states: seq<State>, s: nat, configs: seq<Config>, fws: seq<set<nat>>, raw: seq<Action>, a: Action)
    requires g.Valid() && s < |states| && RawOf(g, states, s, configs, fws, raw) && Justified(g, states, s, configs, fws)
    requires a in raw && a.sp < g.nterminal
    ensures Allowed(g, states[s], a.sp, a)
  {
    if a.kind == REDUCE {
      assert IsReduce(g, s, configs, fws, a);
    }
  }

  /** A default reduce is never by a rule of the start symbol: that would need two symbols, and it has only `$`. */
  lemma DefaultAllowed(g: Grammar, states: seq<State>, s: nat, configs: seq<Config>, fws: seq<set<nat>>, raw: seq<Action>, a: Action, x: nat)
    requires g.Valid() && s < |states| && RawOf(g, states, s, configs, fws, raw) && Justified(g, states, s, configs, fws)
    requires a.sp == g.NSymbol() && Source(raw, g.NSymbol(), a)
    ensures Allowed(g, states[s], x, a)
  {
    var y, z :| y in raw && z in raw && y.sp != z.sp && y.kind == z.kind == REDUCE && y.arg == z.arg == a.arg;
    assert IsReduce(g, s, configs, fws, y) && IsReduce(g, s, configs, fws, z);
  }

  /** Decisions on terminals are allowed by the automaton. */
  lemma TerminalDecision(g: Grammar, states: seq<State>, s: nat, configs: seq<Config>, fws: seq<set<nat>>,
                         raw: seq<Action>, ap: seq<Action>, r: seq<Action>, x: nat)
    requires g.Valid() && s < |states| && Prepared(g, states, s, configs, fws, raw, ap, r)
    requires Justified(g, states, s, configs, fws) && x < g.nterminal
    ensures var d := Decide(r, g.NSymbol(), x); d.Some? ==> Allowed(g, states[s], x, d.value)
  {
    var d := Decide(r, g.NSymbol(), x);
    if d.Some? {
      var a := d.value;
      LiveOnFrom(r, x);
      LiveOnFrom(r, g.NSymbol());
      assert a in r && a.Live() && (a.sp == x || a.sp == g.NSymbol());
      EntrySource(ap, raw, r, g.NSymbol(), a);
      if a.sp == x {
        OwnEntryAllowed(g, states, s, configs, fws, raw, a);
      } else {
        DefaultAllowed(g, states, s, configs, fws, raw, a, x);
      }
    }
  }

  lemma AllowedCode(g: Grammar, st: State, t: Tables, x: nat, d: Option<Action>)
    requires t.dim.nrule == |g.rules| && (d.Some? ==> Allowed(g, st, x, d.value))
    requires forall k :: 0 <= k < |st.shifts| ==> st.shifts[k].target < t.dim.nstate
    ensures CodeOf(t.dim, d) >= 0 && TerminalEntryOk(g, st, t, x, CodeOf(t.dim, d))
  {
  }

  /** On the symbols of its shifts a state decides for the shift. */
  lemma GotoDecision(g: Grammar, states: seq<State>, s: nat, configs: seq<Config>, fws: seq<set<nat>>,
                     raw: seq<Action>, ap: seq<Action>, r: seq<Action>, k: nat)
    requires g.Valid() && s < |states| && Prepared(g, states, s, configs, fws, raw, ap, r)
    requires k < |states[s].shifts| && g.nterminal <= states[s].shifts[k].sym < g.NSymbol()
    requires states[s].shifts[k].sym != g.start
    requires forall i, j :: 0 <= i < j < |states[s].shifts| ==> states[s].shifts[i].sym != states[s].shifts[j].sym
    ensures var d := Decide(r, g.NSymbol(), states[s].shifts[k].sym);
            d.Some? && d.value.kind == SHIFT && d.value.arg == states[s].shifts[k].target
  {
    var x := states[s].shifts[k].sym;
    assert IsShift(states[s], Action(x, SHIFT, states[s].shifts[k].target));
    assert Action(x, SHIFT, states[s].shifts[k].target) in raw;
    assert |LiveOn(ap, x)| == 1;
    var a := LiveOn(ap, x)[0];
    assert a in LiveOn(ap, x) && a in raw && a.sp == x;
  }

  lemma AcceptDecision(g: Grammar, states: seq<State>, configs: seq<Config>, fws: seq<set<nat>>,
                       raw: seq<Action>, ap: seq<Action>, r: seq<Action>)
    requires g.Valid() && states != [] && Prepared(g, states, 0, configs, fws, raw, ap, r)
    requires forall k :: 0 <= k < |states[0].shifts| ==> states[0].shifts[k].sym != g.start
    ensures var d := Decide(r, g.NSymbol(), g.start); d.Some? && d.value.kind == ACCEPT
  {
    assert Action(g.start, ACCEPT, 0) in raw;
    assert |LiveOn(ap, g.start)| == 1;
    var a := LiveOn(ap, g.start)[0];
    assert a in LiveOn(ap, g.start) && a in raw && a.sp == g.start;
  }

  // ---------------------------------------------------------------- the whole generator

  /** The facts about shifts that the canonical collection gives. */
  ghost predicate ShiftFacts(g: Grammar, states: seq<State>, s: nat)
    requires s < |states|
  {
    && (forall i, j :: 0 <= i < j < |states[s].shifts| ==> states[s].shifts[i].sym != states[s].shifts[j].sym)
    && (forall k :: 0 <= k < |states[s].shifts| ==>
          states[s].shifts[k].sym != g.start && states[s].shifts[k].sym < g.NSymbol() && states[s].shifts[k].target < |states|)
  }

  lemma CanonicalShiftFacts(g: Grammar, states: seq<State>, s: nat)
    requires g.Valid() && g.StartOnNoRhs() && Canonical(g, states) && s < |states|
    ensures ShiftFacts(g, states, s) && NoDuplicates(states[s].cfp) && Closed(g, Elems(states[s].cfp))
    ensures forall k :: 0 <= k < |states[s].cfp| ==> ValidItem(g, states[s].cfp[k])
  {
    assert ShiftsSound(g, states, s) && WellBuilt(g, states[s]);
    forall k | 0 <= k < |states[s].shifts| ensures states[s].shifts[k].sym != g.start && states[s].shifts[k].sym < g.NSymbol() {
      var x := states[s].shifts[k].sym;
      assert CanShift(g, states[s], x);
      var j :| 0 <= j < |states[s].cfp| && NextIs(g, states[s].cfp[j], x);
      assert g.ValidRule(g.rules[states[s].cfp[j].rule]);
    }
  }

  lemma FollowJustifies(g: Grammar, f: FirstInfo, states: seq<State>, configs: seq<Config>, links: seq<seq<nat>>, fws: seq<set<nat>>, s: nat)
    requires g.Valid() && f.Valid(g) && g.StartOnNoRhs() && ValidStates(g, states) && ListsConfigs(states, configs)
    requires FollowOf(g, f, states, configs, links, fws) && s < |states|
    ensures Justified(g, states, s, configs, fws)
  {
    forall a | IsReduce(g, s, configs, fws, a)
      ensures Item(a.arg, |g.rules[a.arg].rhs|) in states[s].cfp
      ensures g.rules[a.arg].lhs == g.start ==> a.sp == 0
    {
      var c :| 0 <= c < |configs| && configs[c] == Config(s, Item(a.arg, |g.rules[a.arg].rhs|)) && a.sp in fws[c];
      if g.rules[a.arg].lhs == g.start {
        StartFollow(g, f, states, configs, links, fws, c, a.sp);
      }
    }
  }

  /** A state is ready, has no action, or has more actions than the sort can hold. */
  datatype Readiness = Ready | NoAction | TooLong

  lemma SettledSymbols(raw: seq<Action>, ap: seq<Action>, n: nat)
    requires Settled(raw, ap) && forall a :: a in raw ==> a.sp < n
    ensures forall i :: 0 <= i < |ap| ==> ap[i].sp < n && ap[i].kind != ERROR && ap[i].kind != NOT_USED
  {
    forall i | 0 <= i < |ap| ensures ap[i].sp < n && ap[i].kind != ERROR && ap[i].kind != NOT_USED {
      assert ap[i] in ap;
      var b :| b in raw && b.sp == ap[i].sp;
    }
  }

  lemma RawSymbols(g: Grammar, states: seq<State>, s: nat, configs: seq<Config>, fws: seq<set<nat>>, raw: seq<Action>)
    requires g.Valid() && s < |states| && ShiftFacts(g, states, s) && RawOf(g, states, s, configs, fws, raw)
    ensures forall a :: a in raw ==> a.sp < g.NSymbol()
  {
  }

  /** FindActions and CompressTables for one state. */
  method PrepareState(g: Grammar, states: seq<State>, s: nat, configs: seq<Config>, fws: seq<set<nat>>)
    returns (ready: Readiness, ghost raw: seq<Action>, ghost ap: seq<Action>, r: seq<Action>)
    requires g.Valid() && s < |states| && NoDuplicates(configs) && |fws| == |configs| && ShiftFacts(g, states, s)
    ensures RawOf(g, states, s, configs, fws, raw)
    ensures match ready
            case Ready => raw != [] && Prepared(g, states, s, configs, fws, raw, ap, r)
            case NoAction => raw == []
            case TooLong => |raw| >= 0x4000_0000
  {
    var raw' := RawActions(g, states, s, configs, fws);
    raw, ap, r := raw', [], [];
    if |raw'| >= 0x4000_0000 { return TooLong, raw, ap, r; }
    var ok, ap', nconflict := SettleState(g, raw');
    if !ok { return NoAction, raw, ap, r; }
    ap := ap';
    RawSymbols(g, states, s, configs, fws, raw');
    SettledSymbols(raw', ap', g.NSymbol());
    r := Compress(ap', g.NSymbol());
    ready := Ready;
  }

  /** Every state is prepared. */
  ghost predicate AllPrepared(g: Grammar, states: seq<State>, configs: seq<Config>, fws: seq<set<nat>>,
                              raws: seq<seq<Action>>, aps: seq<seq<Action>>, lists: seq<seq<Action>>)
  {
    && |raws| == |aps| == |lists| <= |states|
    && (forall s :: 0 <= s < |lists| ==> Prepared(g, states, s, configs, fws, raws[s], aps[s], lists[s]))
  }

  lemma TerminalEntry(g: Grammar, states: seq<State>, s: nat, configs: seq<Config>, fws: seq<set<nat>>,
                      raw: seq<Action>, ap: seq<Action>, lists: seq<seq<Action>>, t: Tables, x: nat)
    requires g.Valid() && s < |states| == |lists| && Emitted(lists, t) && x < g.nterminal
    requires t.dim == Dimensions(|states|, |g.rules|, g.nterminal, g.NSymbol())
    requires Prepared(g, states, s, configs, fws, raw, ap, lists[s])
    requires ShiftFacts(g, states, s) && Justified(g, states, s, configs, fws)
    ensures TerminalEntryOk(g, states[s], t, x, t.FindShiftAction(s, x))
  {
    TerminalDecision(g, states, s, configs, fws, raw, ap, lists[s], x);
    AllowedCode(g, states[s], t, x, Decide(lists[s], g.NSymbol(), x));
  }

  lemma GotoEntryEmitted(g: Grammar, states: seq<State>, s: nat, configs: seq<Config>, fws: seq<set<nat>>,
                         raw: seq<Action>, ap: seq<Action>, lists: seq<seq<Action>>, t: Tables, k: nat)
    requires g.Valid() && s < |states| == |lists| && Emitted(lists, t) && k < |states[s].shifts|
    requires t.dim == Dimensions(|states|, |g.rules|, g.nterminal, g.NSymbol())
    requires g.nterminal <= states[s].shifts[k].sym < g.NSymbol()
    requires Prepared(g, states, s, configs, fws, raw, ap, lists[s]) && ShiftFacts(g, states, s)
    ensures t.FindReduceAction(s, states[s].shifts[k].sym) == states[s].shifts[k].target
  {
    GotoDecision(g, states, s, configs, fws, raw, ap, lists[s], k);
  }

  lemma AcceptEntry(g: Grammar, states: seq<State>, configs: seq<Config>, fws: seq<set<nat>>,
                    raw: seq<Action>, ap: seq<Action>, lists: seq<seq<Action>>, t: Tables)
    requires g.Valid() && 0 < |states| == |lists| && Emitted(lists, t)
    requires t.dim == Dimensions(|states|, |g.rules|, g.nterminal, g.NSymbol())
    requires Prepared(g, states, 0, configs, fws, raw, ap, lists[0]) && ShiftFacts(g, states, 0)
    ensures t.FindReduceAction(0, g.start) == t.dim.AcceptAction()
  {
    AcceptDecision(g, states, configs, fws, raw, ap, lists[0]);
  }

  /** Prepared lists, once emitted, make tables that implement the automaton. */
  lemma EmittedImplements(g: Grammar, states: seq<State>, configs: seq<Config>, fws: seq<set<nat>>,
                          raws: seq<seq<Action>>, aps: seq<seq<Action>>, lists: seq<seq<Action>>, t: Tables)
    requires g.Valid() && states != [] && |lists| == |states| && Emitted(lists, t)
    requires AllPrepared(g, states, configs, fws, raws, aps, lists)
    requires t.dim == Dimensions(|states|, |g.rules|, g.nterminal, g.NSymbol())
    requires forall s :: 0 <= s < |states| ==> ShiftFacts(g, states, s) && Justified(g, states, s, configs, fws)
    ensures Implements(g, states, t)
  {
    forall s, x: nat | 0 <= s < |states| && x < g.nterminal
      ensures TerminalEntryOk(g, states[s], t, x, t.FindShiftAction(s, x))
    {
      TerminalEntry(g, states, s, configs, fws, raws[s], aps[s], lists, t, x);
    }
    forall s, k | 0 <= s < |states| && 0 <= k < |states[s].shifts| && g.nterminal <= states[s].shifts[k].sym < g.NSymbol()
      ensures t.FindReduceAction(s, states[s].shifts[k].sym) == states[s].shifts[k].target
    {
      GotoEntryEmitted(g, states, s, configs, fws, raws[s], aps[s], lists, t, k);
    }
    AcceptEntry(g, states, configs, fws, raws[0], aps[0], lists, t);
  }

  /** What a parser with tables `t` finds for symbol `x` in state `s`. */
  function EntryFor(g: Grammar, t: Tables, s: nat, x: nat): nat
    requires t.Valid() && s < t.dim.nstate
  {
    if x < g.nterminal then t.FindShiftAction(s, x) else t.FindReduceAction(s, x)
  }

  /** `d` is the default of a state: the reduce by a rule with the most live reduces, if some rule has two, else an error. */
  ghost predicate IsDefault(dim: Dimensions, ap: seq<Action>, d: int) {
    || (d == dim.ErrorAction() && forall r :: CountReduce(ap, r) < 2)
    || (exists r :: CountReduce(ap, r) >= 2 && (forall r' :: CountReduce(ap, r') <= CountReduce(ap, r)) && d == Code(dim, Action(0, REDUCE, r)))
  }

  /** The answer for `x`: the code of the live action on `x`, else the default. */
  function Answer(dim: Dimensions, ap: seq<Action>, d: int, x: nat): int {
    if LiveOn(ap, x) != [] then Code(dim, LiveOn(ap, x)[0]) else d
  }

  /** The compressed list answers like the resolved one with its default. */
  lemma CompressedAnswers(dim: Dimensions, ap: seq<Action>, r: seq<Action>) returns (d: int)
    requires Compressed(ap, r, dim.nsymbol)
    ensures IsDefault(dim, ap, d)
    ensures forall x: nat :: x < dim.nsymbol ==> CodeOf(dim, Decide(r, dim.nsymbol, x)) == Answer(dim, ap, d, x)
  {
    if LiveOn(r, dim.nsymbol) == [] {
      d := dim.ErrorAction();
    } else {
      var rb :| BestDefault(ap, r, dim.nsymbol, rb);
      d := Code(dim, Action(0, REDUCE, rb));
    }
    forall x: nat | x < dim.nsymbol ensures CodeOf(dim, Decide(r, dim.nsymbol, x)) == Answer(dim, ap, d, x) {
      AnswerOn(dim, ap, r, d, x);
    }
  }

  lemma AnswerOn(dim: Dimensions, ap: seq<Action>, r: seq<Action>, d: int, x: nat)
    requires Compressed(ap, r, dim.nsymbol) && x < dim.nsymbol
    requires d == CodeOf(dim, if LiveOn(r, dim.nsymbol) == [] then None else Some(LiveOn(r, dim.nsymbol)[0]))
    ensures CodeOf(dim, Decide(r, dim.nsymbol, x)) == Answer(dim, ap, d, x)
  {
    if LiveOn(ap, x) == [] {
      assert LiveOn(r, x) == [];
    }
  }

  /**
   State `s` answers exactly: there are raw actions, precisely those of the state, and a resolution
   `ap` of their sorted list in which the champion of every symbol is live; on a symbol with an action
   the tables give that champion, on every other symbol the state's default.
   */
  ghost predicate DecidesIn(g: Grammar, states: seq<State>, configs: seq<Config>, fws: seq<set<nat>>, t: Tables, s: nat)
    requires t.Valid() && t.dim.nstate == |states| && s < |states|
  {
    exists raw, ap, d :: RawOf(g, states, s, configs, fws, raw) && Won(g, raw, ap) && IsDefault(t.dim, ap, d) && Answers(g, t, s, ap, d)
  }

  ghost predicate Answers(g: Grammar, t: Tables, s: nat, ap: seq<Action>, d: int)
    requires t.Valid() && s < t.dim.nstate
  {
    forall x: nat :: x < g.NSymbol() ==> EntryFor(g, t, s, x) == Answer(t.dim, ap, d, x)
  }

  ghost predicate Decides(g: Grammar, states: seq<State>, configs: seq<Config>, fws: seq<set<nat>>, t: Tables)
    requires t.Valid() && t.dim.nstate == |states|
  {
    forall s: nat :: s < |states| ==> DecidesIn(g, states, configs, fws, t, s)
  }

  lemma EmittedDecides(g: Grammar, states: seq<State>, configs: seq<Config>, fws: seq<set<nat>>,
                       raws: seq<seq<Action>>, aps: seq<seq<Action>>, lists: seq<seq<Action>>, t: Tables)
    requires |lists| == |states| && Emitted(lists, t) && AllPrepared(g, states, configs, fws, raws, aps, lists)
    requires t.dim == Dimensions(|states|, |g.rules|, g.nterminal, g.NSymbol())
    ensures Decides(g, states, configs, fws, t)
  {
    forall s: nat | s < |states| ensures DecidesIn(g, states, configs, fws, t, s) {
      assert Prepared(g, states, s, configs, fws, raws[s], aps[s], lists[s]);
      var d := CompressedAnswers(t.dim, aps[s], lists[s]);
      assert Answers(g, t, s, aps[s], d);
    }
  }

  /** The automaton exceeds the integers of the tables, or the actions of a state the 30 slots of the sort. */
  ghost predicate TooLarge(g: Grammar, states: seq<State>, configs: seq<Config>, fws: seq<set<nat>>) {
    || !Dimensions(|states|, |g.rules|, g.nterminal, g.NSymbol()).Valid()
    || 2 * |states| >= 0x4000_0000
    || 2 * |states| * g.NSymbol() > 0x7FFF_FFFF
    || exists s: nat, raw :: s < |states| && RawOf(g, states, s, configs, fws, raw) && |raw| >= 0x4000_0000
  }

  /** What becomes of a grammar: tables, a failed assertion in FindActions, or numbers that are too large. */
  datatype Outcome = Done(tables: Tables) | Aborted | Oversized

  /** The outcome is right. */
  ghost predicate OutcomeOk(g: Grammar, states: seq<State>, configs: seq<Config>, fws: seq<set<nat>>, outcome: Outcome)
    requires |fws| == |configs|
  {
    match outcome
    case Done(t) =>
      && (forall s :: 0 <= s < |states| ==> !Actionless(g, states, s, configs, fws))
      && Implements(g, states, t) && Decides(g, states, configs, fws, t)
    case Aborted => exists s :: 0 <= s < |states| && Actionless(g, states, s, configs, fws)
    case Oversized =>
      && (forall s :: 0 <= s < |states| ==> !Actionless(g, states, s, configs, fws))
      && TooLarge(g, states, configs, fws)
  }

  /** FindActions and CompressTables over all states: the first state without an action stops the program. */
  method PrepareStates(g: Grammar, states: seq<State>, configs: seq<Config>, fws: seq<set<nat>>)
    returns (ready: Readiness, ghost raws: seq<seq<Action>>, ghost aps: seq<seq<Action>>, lists: seq<seq<Action>>)
    requires g.Valid() && NoDuplicates(configs) && |fws| == |configs|
    requires forall s :: 0 <= s < |states| ==> ShiftFacts(g, states, s)
    ensures ready.NoAction? <==> exists s :: 0 <= s < |states| && Actionless(g, states, s, configs, fws)
    ensures ready.Ready? ==> |lists| == |states| && AllPrepared(g, states, configs, fws, raws, aps, lists)
    ensures ready.TooLong? ==> TooLarge(g, states, configs, fws)
  {
    raws, aps, lists, ready := [], [], [], Ready;
    for s := 0 to |states|
      invariant Underway(g, states, configs, fws, s, ready, raws, aps, lists)
    {
      var more;
      more, ready, raws, aps, lists := PrepareNext(g, states, s, configs, fws, ready, raws, aps, lists);
      if !more { return NoAction, raws, aps, lists; }
    }
  }

  /** The next state: an action is missing, there are too many, or the state is prepared. */
  method PrepareNext(g: Grammar, states: seq<State>, s: nat, configs: seq<Config>, fws: seq<set<nat>>, ready0: Readiness,
                     ghost raws0: seq<seq<Action>>, ghost aps0: seq<seq<Action>>, lists0: seq<seq<Action>>)
    returns (more: bool, ready: Readiness, ghost raws: seq<seq<Action>>, ghost aps: seq<seq<Action>>, lists: seq<seq<Action>>)
    requires g.Valid() && s < |states| && NoDuplicates(configs) && |fws| == |configs| && ShiftFacts(g, states, s)
    requires Underway(g, states, configs, fws, s, ready0, raws0, aps0, lists0)
    ensures more <==> !Actionless(g, states, s, configs, fws)
    ensures more ==> Underway(g, states, configs, fws, s + 1, ready, raws, aps, lists)
  {
    ready, raws, aps, lists := ready0, raws0, aps0, lists0;
    var one, raw, ap, r := PrepareState(g, states, s, configs, fws);
    ActionlessIff(g, states, s, configs, fws, raw);
    more := !one.NoAction?;
    if one.TooLong? {
      ready := TooLong;
    } else if more && ready.Ready? {
      OneMorePrepared(g, states, configs, fws, raws, aps, lists, raw, ap, r);
      raws, aps, lists := raws + [raw], aps + [ap], lists + [r];
    }
  }

  /** The first `n` states have actions, and are prepared unless one of them was too long. */
  ghost predicate Underway(g: Grammar, states: seq<State>, configs: seq<Config>, fws: seq<set<nat>>, n: nat, ready: Readiness,
                           raws: seq<seq<Action>>, aps: seq<seq<Action>>, lists: seq<seq<Action>>)
    requires n <= |states| && |fws| == |configs|
  {
    && (forall k :: 0 <= k < n ==> !Actionless(g, states, k, configs, fws))
    && match ready
       case Ready => |lists| == n && AllPrepared(g, states, configs, fws, raws, aps, lists)
       case TooLong => TooLarge(g, states, configs, fws)
       case NoAction => false
  }

  lemma OneMorePrepared(g: Grammar, states: seq<State>, configs: seq<Config>, fws: seq<set<nat>>,
                        raws: seq<seq<Action>>, aps: seq<seq<Action>>, lists: seq<seq<Action>>, raw: seq<Action>, ap: seq<Action>, r: seq<Action>)
    requires AllPrepared(g, states, configs, fws, raws, aps, lists) && |lists| < |states|
    requires Prepared(g, states, |lists|, configs, fws, raw, ap, r)
    ensures AllPrepared(g, states, configs, fws, raws + [raw], aps + [ap], lists + [r])
  {
    forall s | 0 <= s <= |lists| ensures Prepared(g, states, s, configs, fws, (raws + [raw])[s], (aps + [ap])[s], (lists + [r])[s]) {
      if s < |lists| {
        assert Prepared(g, states, s, configs, fws, raws[s], aps[s], lists[s]);
      }
    }
  }

  /** FindActions, CompressTables and ReportTable over all states. */
  method BuildTables(g: Grammar, f: FirstInfo, states: seq<State>)
    returns (res: Outcome, ghost configs: seq<Config>, ghost links: seq<seq<nat>>, ghost fws: seq<set<nat>>)
    requires Usable(g) && f.Valid(g) && TerminalsOnly(g, f) && Canonical(g, states)
    ensures ValidStates(g, states) && ListsConfigs(states, configs) && FollowOf(g, f, states, configs, links, fws)
    ensures OutcomeOk(g, states, configs, fws, res)
  {
    forall s | 0 <= s < |states|
      ensures ShiftFacts(g, states, s) && NoDuplicates(states[s].cfp) && Closed(g, Elems(states[s].cfp))
      ensures forall k :: 0 <= k < |states[s].cfp| ==> ValidItem(g, states[s].cfp[k])
    {
      CanonicalShiftFacts(g, states, s);
    }
    var cfgs, sets;
    cfgs, sets, links := Follow(g, f, states);
    configs, fws := cfgs, sets;
    forall s | 0 <= s < |states| ensures Justified(g, states, s, configs, fws) {
      FollowJustifies(g, f, states, configs, links, fws, s);
    }
    res := TablesFor(g, states, cfgs, sets);
  }

  /** The rest, given the follow sets. */
  method TablesFor(g: Grammar, states: seq<State>, configs: seq<Config>, fws: seq<set<nat>>) returns (res: Outcome)
    requires g.Valid() && states != [] && NoDuplicates(configs) && |fws| == |configs|
    requires forall s :: 0 <= s < |states| ==> ShiftFacts(g, states, s) && Justified(g, states, s, configs, fws)
    ensures OutcomeOk(g, states, configs, fws, res)
  {
    var ready, raws, aps, lists := PrepareStates(g, states, configs, fws);
    if ready.NoAction? { return Aborted; }
    var dim := Dimensions(|states|, |g.rules|, g.nterminal, g.NSymbol());
    if ready.TooLong? || !dim.Valid() || 2 * |states| >= 0x4000_0000 { return Oversized; }
    forall s | 0 <= s < |lists| ensures Emittable(dim, lists[s]) {
      assert Prepared(g, states, s, configs, fws, raws[s], aps[s], lists[s]) && ShiftFacts(g, states, s);
      StateIsEmittable(g, states, s, configs, fws, raws[s], aps[s], lists[s], dim);
    }
    var t := ReportTable(dim, lists);
    if t.None? { return Oversized; }
    EmittedImplements(g, states, configs, fws, raws, aps, lists, t.value);
    EmittedDecides(g, states, configs, fws, raws, aps, lists, t.value);
    res := Done(t.value);
  }

  /** The generator as a whole, for any hash function of its state table: exact nullable and first sets,
      the canonical states in the order of their numbers, the least follow sets, and an outcome: it aborts
      exactly when some state has no action; otherwise the tables answer exactly, unless a size is too large. */
  method Generate(g: Grammar, hash: seq<Item> -> int)
    returns (f: FirstInfo, states: seq<State>, outcome: Outcome, ghost configs: seq<Config>, ghost links: seq<seq<nat>>, ghost fws: seq<set<nat>>)
    requires Usable(g) && Buildable(g)
    ensures f.Valid(g) && FirstSets.LambdaExact(g, f.lambda) && FirstSets.FirstExact(g, f.first)
    ensures Canonical(g, states) && forall i :: 0 <= i < |states| ==> states[i].index == i
    ensures ViablePrefixes.HoldsValidItems(g, states) && Lookaheads.HoldsLookaheads(g, states, configs, fws)
    ensures ValidStates(g, states) && ListsConfigs(states, configs) && FollowOf(g, f, states, configs, links, fws)
    ensures OutcomeOk(g, states, configs, fws, outcome)
  {
    var lambda, first := FirstSets.FindFirstSets(g);
    f := FirstInfo(lambda, first);
    states := FindStates(g, hash);
    outcome, configs, links, fws := BuildTables(g, f, states);
    Lookaheads.FollowHoldsLookaheads(g, f, states, configs, links, fws);
  }

  /** Whatever the generator produces is sound: on every input, along every run, nothing
      underflows and only derivable strings are accepted. */
  lemma GeneratedParsersAreSound(g: Grammar, states: seq<State>, t: Tables, depth: nat, w: seq<nat>, n: nat)
    requires Usable(g) && Canonical(g, states) && Implements(g, states, t) && depth > 0
    requires forall i :: 0 <= i < |w| ==> 0 < w[i] < g.nterminal
    ensures TreeParser(g, t, depth).Valid() && Driver.ValidStack(TreeParser(g, t, depth), StartConf(w).stack)
    ensures Good(g, states, Driver.Run(TreeParser(g, t, depth), StartConf(w), n), w)
  {
    CanonicalRemembers(g, states);
    RunsAreSound(g, states, t, depth, w, n);
  }
}
