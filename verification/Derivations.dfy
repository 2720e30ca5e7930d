/**
 Derivations of a grammar, as trees.  A leaf may be any symbol, so the yield of a tree
 is a sentential form; it is a sentence when all leaves are terminals.
 */
module Derivations {
  import opened Grammars

  datatype Tree = Leaf(sym: nat) | Node(rule: nat, kids: seq<Tree>)

  function Root(g: Grammar, t: Tree): nat {
    match t
    case Leaf(x) => x
    case Node(r, _) => if r < |g.rules| then g.rules[r].lhs else 0
  }

  /** Every node applies a rule of the grammar to its children. */
  ghost predicate ValidTree(g: Grammar, t: Tree)
    decreases t
  {
    match t
    case Leaf(x) => x < g.NSymbol()
    case Node(r, kids) =>
      && r < |g.rules| && |kids| == |g.rules[r].rhs|
      && (forall i :: 0 <= i < |kids| ==> Root(g, kids[i]) == g.rules[r].rhs[i])
      && (forall i :: 0 <= i < |kids| ==> ValidTree(g, kids[i]))
  }

  function Yield(t: Tree): seq<nat>
    decreases t, 1
  {
    match t
    case Leaf(x) => [x]
    case Node(_, kids) => Yields(kids)
  }

  function Yields(ts: seq<Tree>): seq<nat>
    decreases ts, 0
  {
    if ts == [] then [] else Yield(ts[0]) + Yields(ts[1..])
  }

  /** Symbol `x` derives the sentential form `w`. */
  ghost predicate Derives(g: Grammar, x: nat, w: seq<nat>) {
    exists t :: ValidTree(g, t) && Root(g, t) == x && Yield(t) == w
  }

  /** Symbol `x` derives a sentential form that starts with `a`. */
  ghost predicate CanStart(g: Grammar, x: nat, a: nat) {
    exists t :: ValidTree(g, t) && Root(g, t) == x && Yield(t) != [] && Yield(t)[0] == a
  }

  lemma {:induction false} YieldsConcat(s: seq<Tree>, t: seq<Tree>)
    ensures Yields(s + t) == Yields(s) + Yields(t)
  {
    if s == [] {
      assert s + t == t;
    } else {
      YieldsConcat(s[1..], t);
      assert (s + t)[0] == s[0] && (s + t)[1..] == s[1..] + t;
      var p, q, h := Yields(s[1..]), Yields(t), Yield(s[0]);
      assert h + (p + q) == (h + p) + q;
    }
  }

  lemma {:induction false} YieldsAllEmpty(ts: seq<Tree>)
    requires forall i :: 0 <= i < |ts| ==> Yield(ts[i]) == []
    ensures Yields(ts) == []
  {
    if ts != [] {
      YieldsAllEmpty(ts[1..]);
    }
  }

  lemma {:induction false} YieldsEmptyParts(ts: seq<Tree>)
    requires Yields(ts) == []
    ensures forall i :: 0 <= i < |ts| ==> Yield(ts[i]) == []
  {
    if ts != [] {
      YieldsEmptyParts(ts[1..]);
      assert forall i :: 1 <= i < |ts| ==> ts[i] == ts[1..][i - 1];
    }
  }

  /** The first symbol of a concatenated yield comes from the first child that is not empty. */
  lemma {:induction false} FirstOfYields(ts: seq<Tree>) returns (i: nat)
    requires Yields(ts) != []
    ensures i < |ts| && Yield(ts[i]) != [] && Yields(ts)[0] == Yield(ts[i])[0]
    ensures forall j :: 0 <= j < i ==> Yield(ts[j]) == []
  {
    if Yield(ts[0]) != [] {
      i := 0;
    } else {
      var k := FirstOfYields(ts[1..]);
      i := k + 1;
      assert forall j :: 1 <= j < i ==> ts[j] == ts[1..][j - 1];
    }
  }

  ghost function SomeEmptyTree(g: Grammar, x: nat): (t: Tree)
    requires Derives(g, x, [])
    ensures ValidTree(g, t) && Root(g, t) == x && Yield(t) == []
  {
    var t :| ValidTree(g, t) && Root(g, t) == x && Yield(t) == [];
    t
  }

  /** Trees for a right-hand side whose first `n` symbols derive the empty string. */
  ghost function EmptyTrees(g: Grammar, rhs: seq<nat>, n: nat): (ts: seq<Tree>)
    requires n <= |rhs| && forall i :: 0 <= i < n ==> Derives(g, rhs[i], [])
    ensures |ts| == n && Yields(ts) == []
    ensures forall i :: 0 <= i < n ==> ValidTree(g, ts[i]) && Root(g, ts[i]) == rhs[i]
  {
    var ts := seq(n, i requires 0 <= i < n => SomeEmptyTree(g, rhs[i]));
    YieldsAllEmpty(ts);
    ts
  }

  /** A rule whose symbols all derive the empty string lets its left-hand side do so. */
  lemma RuleDerivesEmpty(g: Grammar, r: nat)
    requires g.Valid() && r < |g.rules|
    requires forall i :: 0 <= i < |g.rules[r].rhs| ==> Derives(g, g.rules[r].rhs[i], [])
    ensures Derives(g, g.rules[r].lhs, [])
  {
    var rhs := g.rules[r].rhs;
    var t := Node(r, EmptyTrees(g, rhs, |rhs|));
    assert ValidTree(g, t) && Yield(t) == [];
  }

  /** Trees for a right-hand side: empty ones, then `u`, then leaves. */
  ghost function KidsAround(g: Grammar, rhs: seq<nat>, i: nat, u: Tree): (kids: seq<Tree>)
    requires i < |rhs| && forall j :: 0 <= j < i ==> Derives(g, rhs[j], [])
    ensures |kids| == |rhs|
  {
    EmptyTrees(g, rhs, i) + ([u] + Leaves(rhs[i + 1..]))
  }

  function Leaves(w: seq<nat>): (ts: seq<Tree>)
    ensures |ts| == |w| && forall k :: 0 <= k < |w| ==> ts[k] == Leaf(w[k])
  {
    seq(|w|, k requires 0 <= k < |w| => Leaf(w[k]))
  }

  lemma KidsAroundFit(g: Grammar, rhs: seq<nat>, i: nat, u: Tree, k: nat)
    requires i < |rhs| && k < |rhs| && forall j :: 0 <= j < i ==> Derives(g, rhs[j], [])
    requires ValidTree(g, u) && Root(g, u) == rhs[i] && forall j :: 0 <= j < |rhs| ==> rhs[j] < g.NSymbol()
    ensures Root(g, KidsAround(g, rhs, i, u)[k]) == rhs[k] && ValidTree(g, KidsAround(g, rhs, i, u)[k])
  {
    var kids := KidsAround(g, rhs, i, u);
    if k < i {
      assert kids[k] == EmptyTrees(g, rhs, i)[k];
    } else if k > i {
      assert kids[k] == Leaves(rhs[i + 1..])[k - i - 1] == Leaf(rhs[k]);
    }
  }

  lemma KidsAroundYield(g: Grammar, rhs: seq<nat>, i: nat, u: Tree)
    requires i < |rhs| && forall j :: 0 <= j < i ==> Derives(g, rhs[j], [])
    ensures Yields(KidsAround(g, rhs, i, u)) == Yield(u) + Yields(Leaves(rhs[i + 1..]))
  {
    var before, after := EmptyTrees(g, rhs, i), Leaves(rhs[i + 1..]);
    YieldsConcat(before, [u] + after);
    assert ([u] + after)[1..] == after;
  }

  /** A symbol after an erasable prefix of a right-hand side passes on what it can start with. */
  lemma RuleCanStart(g: Grammar, r: nat, i: nat, a: nat)
    requires g.Valid() && r < |g.rules| && i < |g.rules[r].rhs|
    requires forall j :: 0 <= j < i ==> Derives(g, g.rules[r].rhs[j], [])
    requires CanStart(g, g.rules[r].rhs[i], a)
    ensures CanStart(g, g.rules[r].lhs, a)
  {
    var rhs := g.rules[r].rhs;
    var u :| ValidTree(g, u) && Root(g, u) == rhs[i] && Yield(u) != [] && Yield(u)[0] == a;
    assert g.ValidRule(g.rules[r]);
    var kids := KidsAround(g, rhs, i, u);
    forall k | 0 <= k < |rhs| ensures Root(g, kids[k]) == rhs[k] && ValidTree(g, kids[k]) {
      KidsAroundFit(g, rhs, i, u, k);
    }
    KidsAroundYield(g, rhs, i, u);
    assert ValidTree(g, Node(r, kids)) && Yield(Node(r, kids))[0] == a;
  }
}
