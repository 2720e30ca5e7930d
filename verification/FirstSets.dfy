/** `FindFirstSets`: which nonterminals can vanish, and which terminals they can start with. */
module FirstSets {
  import opened Grammars
  import opened Derivations

  // ---------------------------------------------------------------- what the fixpoints satisfy

  ghost predicate LambdaSound(g: Grammar, lambda: seq<bool>) {
    |lambda| == g.NSymbol() && forall x :: 0 <= x < |lambda| && lambda[x] ==> Derives(g, x, [])
  }

  ghost predicate AllLambda(lambda: seq<bool>, rhs: seq<nat>, n: nat)
    requires n <= |rhs|
  {
    forall i :: 0 <= i < n ==> rhs[i] < |lambda| && lambda[rhs[i]]
  }

  ghost predicate LambdaClosedOn(g: Grammar, lambda: seq<bool>, r: nat)
    requires r < |g.rules|
  {
    var rule := g.rules[r];
    rule.lhs < |lambda| && (AllLambda(lambda, rule.rhs, |rule.rhs|) ==> lambda[rule.lhs])
  }

  /** A set of flags closed under the rules covers every symbol that derives the empty string. */
  lemma {:induction false} LambdaComplete(g: Grammar, lambda: seq<bool>, t: Tree)
    requires g.Valid() && |lambda| == g.NSymbol()
    requires forall r :: 0 <= r < |g.rules| ==> LambdaClosedOn(g, lambda, r)
    requires ValidTree(g, t) && Yield(t) == []
    ensures Root(g, t) < |lambda| && lambda[Root(g, t)]
    decreases t
  {
    YieldsEmptyParts(t.kids);
    forall i | 0 <= i < |t.kids|
      ensures g.rules[t.rule].rhs[i] < |lambda| && lambda[g.rules[t.rule].rhs[i]]
    {
      LambdaComplete(g, lambda, t.kids[i]);
    }
    assert LambdaClosedOn(g, lambda, t.rule);
  }

  ghost predicate LambdaExact(g: Grammar, lambda: seq<bool>) {
    |lambda| == g.NSymbol() && forall x :: 0 <= x < |lambda| ==> (lambda[x] <==> Derives(g, x, []))
  }

  ghost predicate FirstSound(g: Grammar, first: seq<set<nat>>) {
    && |first| == g.NSymbol()
    && forall x, a :: 0 <= x < |first| && a in first[x] ==> a < g.nterminal && CanStart(g, x, a)
  }

  /** What position `i` of rule `r` contributes to the first set of the left-hand side is there. */
  ghost predicate Contributed(g: Grammar, first: seq<set<nat>>, r: nat, i: nat)
    requires g.Valid() && |first| == g.NSymbol() && r < |g.rules| && i < |g.rules[r].rhs|
  {
    assert g.ValidRule(g.rules[r]);
    var x := g.rules[r].rhs[i];
    if g.IsTerminal(x) then x in first[g.rules[r].lhs] else first[x] <= first[g.rules[r].lhs]
  }

  ghost predicate FirstClosedOn(g: Grammar, lambda: seq<bool>, first: seq<set<nat>>, r: nat)
    requires g.Valid() && |first| == g.NSymbol() && r < |g.rules|
  {
    forall i :: 0 <= i < |g.rules[r].rhs| && AllLambda(lambda, g.rules[r].rhs, i) ==> Contributed(g, first, r, i)
  }

  lemma {:induction false} FirstComplete(g: Grammar, lambda: seq<bool>, first: seq<set<nat>>, t: Tree)
    requires g.Valid() && LambdaExact(g, lambda) && |first| == g.NSymbol()
    requires forall r :: 0 <= r < |g.rules| ==> FirstClosedOn(g, lambda, first, r)
    requires ValidTree(g, t) && Yield(t) != [] && Yield(t)[0] < g.nterminal
    ensures Root(g, t) < g.NSymbol()
    ensures if g.IsTerminal(Root(g, t)) then Root(g, t) == Yield(t)[0] else Yield(t)[0] in first[Root(g, t)]
    decreases t
  {
    match t
    case Leaf(_) =>
    case Node(r, kids) =>
      assert g.ValidRule(g.rules[r]);
      var rhs := g.rules[r].rhs;
      var i := FirstOfYields(kids);
      forall j | 0 <= j < i ensures lambda[rhs[j]] {
        assert Derives(g, rhs[j], []);
      }
      FirstComplete(g, lambda, first, kids[i]);
      assert FirstClosedOn(g, lambda, first, r) && AllLambda(lambda, rhs, i);
      assert Contributed(g, first, r, i);
  }

  ghost predicate FirstExact(g: Grammar, first: seq<set<nat>>) {
    && |first| == g.NSymbol()
    && forall x: nat, a: nat :: g.nterminal <= x < |first| ==> (a in first[x] <==> a < g.nterminal && CanStart(g, x, a))
  }

  // ---------------------------------------------------------------- the two do-while loops

  ghost function Unset(lambda: seq<bool>): set<nat> {
    set x: nat | x < |lambda| && !lambda[x]
  }

  method AllErasable(lambda: seq<bool>, rhs: seq<nat>) returns (all: bool)
    requires forall i :: 0 <= i < |rhs| ==> rhs[i] < |lambda|
    ensures all <==> AllLambda(lambda, rhs, |rhs|)
  {
    for i := 0 to |rhs|
      invariant AllLambda(lambda, rhs, i)
    {
      if !lambda[rhs[i]] { return false; }
    }
    return true;
  }

  /** One round over all rules; reports whether a flag was set. */
  method LambdaRound(g: Grammar, lambda0: seq<bool>) returns (lambda: seq<bool>, progress: bool)
    requires g.Valid() && LambdaSound(g, lambda0)
    ensures LambdaSound(g, lambda)
    ensures progress ==> Unset(lambda) < Unset(lambda0)
    ensures !progress ==> lambda == lambda0 && forall r :: 0 <= r < |g.rules| ==> LambdaClosedOn(g, lambda, r)
  {
    lambda, progress := lambda0, false;
    for k := 0 to |g.rules|
      invariant LambdaSound(g, lambda)
      invariant Unset(lambda) <= Unset(lambda0)
      invariant progress ==> Unset(lambda) < Unset(lambda0)
      invariant !progress ==> lambda == lambda0 && forall r :: 0 <= r < k ==> LambdaClosedOn(g, lambda, r)
    {
      var rp := g.rules[k];
      assert g.ValidRule(rp);
      if !lambda[rp.lhs] {
        var all := AllErasable(lambda, rp.rhs);
        if all {
          RuleDerivesEmpty(g, k);
          assert rp.lhs in Unset(lambda) && Unset(lambda[rp.lhs := true]) == Unset(lambda) - {rp.lhs};
          lambda, progress := lambda[rp.lhs := true], true;
        }
      }
    }
  }

  /** First half of FindFirstSets: exactly the symbols that derive the empty string are flagged. */
  method FindLambdas(g: Grammar) returns (lambda: seq<bool>)
    requires g.Valid()
    ensures LambdaExact(g, lambda)
  {
    lambda := seq(g.NSymbol(), _ => false);
    var progress := true;
    while progress
      invariant LambdaSound(g, lambda)
      invariant !progress ==> forall r :: 0 <= r < |g.rules| ==> LambdaClosedOn(g, lambda, r)
      decreases Unset(lambda), progress
    {
      lambda, progress := LambdaRound(g, lambda);
    }
    forall x | 0 <= x < |lambda| && Derives(g, x, []) ensures lambda[x] {
      var t :| ValidTree(g, t) && Root(g, t) == x && Yield(t) == [];
      LambdaComplete(g, lambda, t);
    }
  }

  /** The (symbol, terminal) pairs not yet in a first set. */
  ghost function Missing(g: Grammar, first: seq<set<nat>>): set<(nat, nat)> {
    set x: nat, a: nat | x < |first| && a < g.nterminal && a !in first[x] :: (x, a)
  }

  lemma MissingShrinks(g: Grammar, first: seq<set<nat>>, x: nat, more: set<nat>)
    requires x < |first| && forall a :: a in more ==> a < g.nterminal
    ensures Missing(g, first[x := first[x] + more]) <= Missing(g, first)
    ensures !(more <= first[x]) ==> Missing(g, first[x := first[x] + more]) < Missing(g, first)
  {
    var next := first[x := first[x] + more];
    if a :| a in more && a !in first[x] {
      assert (x, a) in Missing(g, first) && (x, a) !in Missing(g, next);
    }
  }

  /** SetAdd or SetUnion into the first set of the left-hand side, for position `i` of rule `r`. */
  method AddOffer(g: Grammar, lambda: seq<bool>, first0: seq<set<nat>>, r: nat, i: nat)
    returns (first: seq<set<nat>>, progress: bool)
    requires g.Valid() && LambdaExact(g, lambda) && FirstSound(g, first0) && r < |g.rules| && i < |g.rules[r].rhs|
    requires AllLambda(lambda, g.rules[r].rhs, i)
    ensures FirstSound(g, first) && Missing(g, first) <= Missing(g, first0)
    ensures progress ==> Missing(g, first) < Missing(g, first0)
    ensures !progress ==> first == first0 && Contributed(g, first, r, i)
  {
    SoundAddition(g, lambda, first0, r, i);
    var s1, s2 := g.rules[r].lhs, g.rules[r].rhs[i];
    var more := if !g.IsTerminal(s2) && s1 == s2 then {} else Offer(g, first0, s2);
    MissingShrinks(g, first0, s1, more);
    progress := !(more <= first0[s1]);
    first := first0[s1 := first0[s1] + more];
    if !progress {
      assert first0[s1] + more == first0[s1];
    }
  }

  /** The inner loop over one right-hand side. */
  method FirstFromRule(g: Grammar, lambda: seq<bool>, first0: seq<set<nat>>, r: nat)
    returns (first: seq<set<nat>>, progress: bool)
    requires g.Valid() && LambdaExact(g, lambda) && FirstSound(g, first0) && r < |g.rules|
    ensures FirstSound(g, first) && Missing(g, first) <= Missing(g, first0)
    ensures progress ==> Missing(g, first) < Missing(g, first0)
    ensures !progress ==> first == first0 && FirstClosedOn(g, lambda, first, r)
  {
    first, progress := first0, false;
    assert g.ValidRule(g.rules[r]);
    var rhs := g.rules[r].rhs;
    var i := 0;
    while i < |rhs|
      invariant 0 <= i <= |rhs| && AllLambda(lambda, rhs, i)
      invariant FirstSound(g, first) && Missing(g, first) <= Missing(g, first0)
      invariant progress ==> Missing(g, first) < Missing(g, first0)
      invariant !progress ==> first == first0 && forall j :: 0 <= j < i ==> Contributed(g, first, r, j)
    {
      var p;
      first, p := AddOffer(g, lambda, first, r, i);
      progress := progress || p;
      if g.IsTerminal(rhs[i]) || !lambda[rhs[i]] {
        if g.IsTerminal(rhs[i]) {
          TerminalNotErasable(g, lambda, rhs[i]);
        }
        return;
      }
      i := i + 1;
    }
  }

  lemma TerminalNotErasable(g: Grammar, lambda: seq<bool>, x: nat)
    requires g.Valid() && LambdaExact(g, lambda) && x < g.nterminal
    ensures !lambda[x]
  {
    forall t | ValidTree(g, t) && Yield(t) == [] ensures Root(g, t) >= g.nterminal {
      assert t.Node? && g.ValidRule(g.rules[t.rule]);
    }
  }

  /** What a right-hand side symbol offers to a first set. */
  function Offer(g: Grammar, first: seq<set<nat>>, x: nat): set<nat>
    requires x < |first|
  {
    if g.IsTerminal(x) then {x} else first[x]
  }

  lemma SoundAddition(g: Grammar, lambda: seq<bool>, first: seq<set<nat>>, r: nat, i: nat)
    requires g.Valid() && LambdaExact(g, lambda) && FirstSound(g, first) && r < |g.rules| && i < |g.rules[r].rhs|
    requires AllLambda(lambda, g.rules[r].rhs, i)
    ensures g.ValidRule(g.rules[r])
    ensures forall a :: a in Offer(g, first, g.rules[r].rhs[i]) ==> a < g.nterminal && CanStart(g, g.rules[r].lhs, a)
  {
    assert g.ValidRule(g.rules[r]);
    var x := g.rules[r].rhs[i];
    forall a | a in Offer(g, first, x) ensures a < g.nterminal && CanStart(g, g.rules[r].lhs, a) {
      if g.IsTerminal(x) {
        assert ValidTree(g, Leaf(x)) && Root(g, Leaf(x)) == x && Yield(Leaf(x)) == [x];
      }
      assert CanStart(g, x, a);
      RuleCanStart(g, r, i, a);
    }
  }

  method FirstRound(g: Grammar, lambda: seq<bool>, first0: seq<set<nat>>) returns (first: seq<set<nat>>, progress: bool)
    requires g.Valid() && LambdaExact(g, lambda) && FirstSound(g, first0)
    ensures FirstSound(g, first)
    ensures progress ==> Missing(g, first) < Missing(g, first0)
    ensures !progress ==> first == first0 && forall r :: 0 <= r < |g.rules| ==> FirstClosedOn(g, lambda, first, r)
  {
    first, progress := first0, false;
    for k := 0 to |g.rules|
      invariant FirstSound(g, first) && Missing(g, first) <= Missing(g, first0)
      invariant progress ==> Missing(g, first) < Missing(g, first0)
      invariant !progress ==> first == first0 && forall r :: 0 <= r < k ==> FirstClosedOn(g, lambda, first, r)
    {
      var p;
      first, p := FirstFromRule(g, lambda, first, k);
      progress := progress || p;
    }
  }

  /** FindFirstSets: both fixpoints are reached and both are exact. */
  method FindFirstSets(g: Grammar) returns (lambda: seq<bool>, first: seq<set<nat>>)
    requires g.Valid()
    ensures LambdaExact(g, lambda) && FirstExact(g, first) && FirstSound(g, first)
  {
    lambda := FindLambdas(g);
    first := seq(g.NSymbol(), _ => {});
    var progress := true;
    while progress
      invariant FirstSound(g, first)
      invariant !progress ==> forall r :: 0 <= r < |g.rules| ==> FirstClosedOn(g, lambda, first, r)
      decreases Missing(g, first), progress
    {
      first, progress := FirstRound(g, lambda, first);
    }
    forall x: nat, a: nat | g.nterminal <= x < |first| && a < g.nterminal && CanStart(g, x, a) ensures a in first[x] {
      var t :| ValidTree(g, t) && Root(g, t) == x && Yield(t) != [] && Yield(t)[0] == a;
      FirstComplete(g, lambda, first, t);
    }
  }
}
