/**
 What a generated parser recognises: its tables follow the precedences of the grammar, and without conflicts it
 accepts exactly the language of the grammar, by exactly one derivation.
 */
module Language {
  import opened Wrappers
  import opened Grammars
  import opened Derivations
  import opened Actions
  import opened Compression
  import opened Precedence
  import opened Items
  import opened States
  import opened Tables
  import opened FollowGraph
  import opened ViablePrefixes
  import opened Lookaheads
  import opened Soundness
  import opened Completeness
  import opened ErrorDetection
  import opened Generator
  import Driver

  // ---------------------------------------------------------------- tables and precedences

  /** An action that FindActions gives to state `s`. */
  ghost predicate Acts(g: Grammar, states: seq<State>, s: nat, configs: seq<Config>, fws: seq<set<nat>>, a: Action)
    requires s < |states|
  {
    IsShift(states[s], a) || IsReduce(g, s, configs, fws, a) || IsAccept(g, s, a)
  }

  /** Main result: on every symbol with actions the tables have the one that should survive among all actions of the
      state there, by precedence, associativity and rule numbers. */
  lemma TablesFollowPrecedence(g: Grammar, states: seq<State>, configs: seq<Config>, fws: seq<set<nat>>, t: Tables, s: nat) returns (raw: seq<Action>)
    requires g.Valid() && t.Valid() && t.dim.nstate == |states| && s < |states| && Decides(g, states, configs, fws, t)
    ensures forall a :: a in raw <==> Acts(g, states, s, configs, fws, a)
    ensures forall x: nat, a :: x < g.NSymbol() && Survives(g, raw, x, a) ==> EntryFor(g, t, s, x) == Code(t.dim, a)
    ensures RawOf(g, states, s, configs, fws, raw)
  {
    assert DecidesIn(g, states, configs, fws, t, s);
    var ap, d;
    raw, ap, d :| RawOf(g, states, s, configs, fws, raw) && Won(g, raw, ap) && IsDefault(t.dim, ap, d) && Answers(g, t, s, ap, d);
    forall x: nat, a | x < g.NSymbol() && Survives(g, raw, x, a) ensures EntryFor(g, t, s, x) == Code(t.dim, a) {
      SurvivorLaw(g, raw, ap, x, a);
    }
  }

  // ---------------------------------------------------------------- grammars without conflicts

  /** No state has two actions on one symbol. */
  ghost predicate ConflictFree(g: Grammar, states: seq<State>, configs: seq<Config>, fws: seq<set<nat>>) {
    forall s, a, b :: 0 <= s < |states| && Acts(g, states, s, configs, fws, a) && Acts(g, states, s, configs, fws, b) && a.sp == b.sp ==> a == b
  }

  lemma LoneActionSurvives(g: Grammar, raw: seq<Action>, x: nat, a: Action)
    requires a in raw && a.sp == x && forall b :: b in raw && b.sp == x ==> b == a
    ensures Survives(g, raw, x, a)
  {
  }

  lemma LoneActionIsTaken(g: Grammar, states: seq<State>, configs: seq<Config>, fws: seq<set<nat>>, t: Tables, s: nat, a: Action)
    requires g.Valid() && t.Valid() && t.dim.nstate == |states| && s < |states| && Decides(g, states, configs, fws, t)
    requires ConflictFree(g, states, configs, fws) && Acts(g, states, s, configs, fws, a) && a.sp < g.NSymbol()
    ensures EntryFor(g, t, s, a.sp) == Code(t.dim, a)
  {
    var raw := TablesFollowPrecedence(g, states, configs, fws, t, s);
    LoneActionSurvives(g, raw, a.sp, a);
  }

  /** Without conflicts the tables do whatever the automaton and its follow sets suggest. */
  lemma ConflictFreeObeys(g: Grammar, states: seq<State>, configs: seq<Config>, fws: seq<set<nat>>, t: Tables)
    requires g.Valid() && Implements(g, states, t) && Decides(g, states, configs, fws, t) && ConflictFree(g, states, configs, fws)
    ensures Obeys(g, states, configs, fws, t)
  {
    forall s: nat, x: nat, s': nat | x < g.nterminal && GoesTo(states, s, x, s') ensures t.FindShiftAction(s, x) == s' {
      var k :| 0 <= k < |states[s].shifts| && states[s].shifts[k] == Shift(x, s');
      assert Shift(x, s') in states[s].shifts;
      LoneActionIsTaken(g, states, configs, fws, t, s, Action(x, SHIFT, s'));
    }
    forall s: nat, x: nat, r: nat | s < |states| && x < g.nterminal && r < |g.rules| && Finished(g, configs, fws, s, r, x)
      ensures t.FindShiftAction(s, x) == |states| + r
    {
      assert IsReduce(g, s, configs, fws, Action(x, REDUCE, r));
      LoneActionIsTaken(g, states, configs, fws, t, s, Action(x, REDUCE, r));
    }
  }

  /** What the generator establishes when it ends with tables. */
  ghost predicate Generated(g: Grammar, f: FirstInfo, states: seq<State>, configs: seq<Config>, links: seq<seq<nat>>, fws: seq<set<nat>>, t: Tables) {
    && Usable(g) && ExactFirst(g, f) && Canonical(g, states)
    && ValidStates(g, states) && ListsConfigs(states, configs) && FollowOf(g, f, states, configs, links, fws)
    && OutcomeOk(g, states, configs, fws, Done(t))
  }

  ghost function MachineOf(g: Grammar, f: FirstInfo, states: seq<State>, configs: seq<Config>, links: seq<seq<nat>>, fws: seq<set<nat>>, t: Tables, depth: nat): Machine {
    Machine(g, f, states, configs, links, fws, TreeParser(g, t, depth))
  }

  lemma MachineIsReady(g: Grammar, f: FirstInfo, states: seq<State>, configs: seq<Config>, links: seq<seq<nat>>, fws: seq<set<nat>>, t: Tables, depth: nat)
    requires Generated(g, f, states, configs, links, fws, t) && ConflictFree(g, states, configs, fws) && depth > 0
    ensures Working(MachineOf(g, f, states, configs, links, fws, t, depth))
  {
    CanonicalIsComputed(g, f, states, configs, links, fws);
    ConflictFreeObeys(g, states, configs, fws, t);
  }

  /** The generated parser accepts the input if its stack has this depth. */
  ghost predicate Accepts(g: Grammar, t: Tables, depth: nat, w: seq<nat>) {
    && TreeParser(g, t, depth).Valid() && Driver.ValidStack(TreeParser(g, t, depth), StartConf(w).stack)
    && exists n: nat :: Driver.RunFrom(TreeParser(g, t, depth), StartConf(w))(n).status == Driver.Accepted
  }

  /** Main result: a parser without conflicts accepts, on a deep enough stack, exactly the derivable inputs. */
  lemma AcceptsExactlyTheLanguage(g: Grammar, f: FirstInfo, states: seq<State>, configs: seq<Config>, links: seq<seq<nat>>, fws: seq<set<nat>>, t: Tables, w: seq<nat>)
    requires Generated(g, f, states, configs, links, fws, t) && ConflictFree(g, states, configs, fws) && Tokens(g, w)
    ensures (exists depth: nat :: depth > 0 && Accepts(g, t, depth, w)) <==> Derives(g, g.start, w)
  {
    if depth: nat :| depth > 0 && Accepts(g, t, depth, w) {
      AcceptedIsDerivable(g, states, t, depth, w);
    }
    if Derives(g, g.start, w) {
      var tree :| ValidTree(g, tree) && Root(g, tree) == g.start && Yield(tree) == w;
      var depth := StackFor(tree);
      AcceptsOnThisStack(g, f, states, configs, links, fws, t, depth, tree);
    }
  }

  lemma AcceptedIsDerivable(g: Grammar, states: seq<State>, t: Tables, depth: nat, w: seq<nat>)
    requires Usable(g) && Canonical(g, states) && Implements(g, states, t) && depth > 0 && Tokens(g, w) && Accepts(g, t, depth, w)
    ensures Derives(g, g.start, w)
  {
    var n: nat :| Driver.RunFrom(TreeParser(g, t, depth), StartConf(w))(n).status == Driver.Accepted;
    GeneratedParsersAreSound(g, states, t, depth, w, n);
  }

  /** Main result: it accepts a sentence exactly when its stack has the entries that the tree needs. */
  lemma AcceptsOnThisStack(g: Grammar, f: FirstInfo, states: seq<State>, configs: seq<Config>, links: seq<seq<nat>>, fws: seq<set<nat>>, t: Tables, depth: nat, tree: Tree)
    requires Generated(g, f, states, configs, links, fws, t) && ConflictFree(g, states, configs, fws) && Sentence(g, tree) && depth > 0
    ensures Accepts(g, t, depth, Yield(tree)) <==> StackFor(tree) <= depth
  {
    MachineIsReady(g, f, states, configs, links, fws, t, depth);
    var m := MachineOf(g, f, states, configs, links, fws, t, depth);
    AcceptsIffDeepEnough(m, tree);
    assert Driver.RunFrom(TreeParser(g, t, depth), StartConf(Yield(tree))) == WholeRun(m, Yield(tree));
  }

  /** Main result: where it reports a syntax error, no sentence goes on with that token. */
  lemma SyntaxErrorsAreReal(g: Grammar, f: FirstInfo, states: seq<State>, configs: seq<Config>, links: seq<seq<nat>>, fws: seq<set<nat>>, t: Tables, depth: nat,
                            w: seq<nat>, n: nat, i: nat, v: seq<nat>)
    requires Generated(g, f, states, configs, links, fws, t) && ConflictFree(g, states, configs, fws) && depth > 0 && i <= |w|
    requires TreeParser(g, t, depth).Valid() && Driver.ValidStack(TreeParser(g, t, depth), StartConf(w).stack)
    requires var c := Driver.RunFrom(TreeParser(g, t, depth), StartConf(w))(n); c.status == Driver.SyntaxError && c.input == Input(w)[i..]
    requires Tokens(g, v) && Agree(w, v, i + 1)
    ensures !Derives(g, g.start, v)
  {
    if Derives(g, g.start, v) {
      var tree :| ValidTree(g, tree) && Root(g, tree) == g.start && Yield(tree) == v;
      MachineIsReady(g, f, states, configs, links, fws, t, depth);
      ErrorMeansNoSentence(MachineOf(g, f, states, configs, links, fws, t, depth), w, n, i, tree);
    }
  }

  /** Main result: a grammar whose automaton has no conflicts is unambiguous. */
  lemma NoConflictsNoAmbiguity(g: Grammar, f: FirstInfo, states: seq<State>, configs: seq<Config>, links: seq<seq<nat>>, fws: seq<set<nat>>, t: Tables, a: Tree, b: Tree)
    requires Generated(g, f, states, configs, links, fws, t) && ConflictFree(g, states, configs, fws)
    requires Sentence(g, a) && Sentence(g, b) && Yield(a) == Yield(b)
    ensures a == b
  {
    var depth := StackFor(a) + StackFor(b);
    MachineIsReady(g, f, states, configs, links, fws, t, depth);
    ConflictFreeIsUnambiguous(MachineOf(g, f, states, configs, links, fws, t, depth), a, b);
  }
}
