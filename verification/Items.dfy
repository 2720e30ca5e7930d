/** LR(0) items and the closure of an item set (`Configlist_closure`). */
module Items {
  import opened Wrappers
  import opened Grammars
  import MergeSort

  /** A configuration without its follow set: a rule with a dot. */
  datatype Item = Item(rule: nat, dot: nat)

  ghost function Elems<T>(s: seq<T>): set<T> {
    set x | x in s
  }

  predicate ValidItem(g: Grammar, a: Item) {
    a.rule < |g.rules| && a.dot <= |g.rules[a.rule].rhs|
  }

  /** The dot of `a` is in front of symbol `x`. */
  predicate NextIs(g: Grammar, a: Item, x: nat) {
    a.rule < |g.rules| && a.dot < |g.rules[a.rule].rhs| && g.rules[a.rule].rhs[a.dot] == x
  }

  /** `b` is an initial item for the nonterminal behind the dot of `a`. */
  predicate Generates(g: Grammar, a: Item, b: Item) {
    b.dot == 0 && b.rule < |g.rules| && NextIs(g, a, g.rules[b.rule].lhs)
  }

  ghost function AllItems(g: Grammar): set<Item> {
    set r: nat, d: nat | r < |g.rules| && d <= |g.rules[r].rhs| :: Item(r, d)
  }

  ghost predicate Closed(g: Grammar, s: set<Item>) {
    forall a, b :: a in s && Generates(g, a, b) ==> b in s
  }

  /** `c` is the least closed set that contains `basis`. */
  ghost predicate IsClosure(g: Grammar, basis: set<Item>, c: set<Item>) {
    && basis <= c && Closed(g, c)
    && (forall d :: basis <= d && Closed(g, d) ==> c <= d)
  }

  lemma ClosureIsUnique(g: Grammar, basis: set<Item>, c: set<Item>, d: set<Item>)
    requires IsClosure(g, basis, c) && IsClosure(g, basis, d)
    ensures c == d
  {
  }

  /** An item of the closure that is not in the basis is generated by another item of the closure. */
  lemma ClosureItemIsGenerated(g: Grammar, basis: set<Item>, c: set<Item>, b: Item) returns (a: Item)
    requires IsClosure(g, basis, c) && b in c && b !in basis
    ensures a in c && Generates(g, a, b)
  {
    var d := c - {b};
    assert basis <= d && !(c <= d);
    var x, y :| x in d && Generates(g, x, y) && y !in d;
    a := x;
  }

  // ---------------------------------------------------------------- the closure loop

  /** Items whose consequences have been added. */
  ghost predicate Expanded(g: Grammar, current: seq<Item>, n: nat)
    requires n <= |current|
  {
    forall k, b :: 0 <= k < n && Generates(g, current[k], b) ==> b in current
  }

  ghost predicate ClosureSoFar(g: Grammar, basis: seq<Item>, current: seq<Item>) {
    && NoDuplicates(current) && basis <= current
    && (forall k :: 0 <= k < |current| ==> ValidItem(g, current[k]))
    && (forall d :: Elems(basis) <= d && Closed(g, d) ==> Elems(current) <= d)
  }

  /** Configlist_add for all rules of the nonterminal behind the dot of item `i`. */
  method ExpandItem(g: Grammar, ghost basis: seq<Item>, current0: seq<Item>, i: nat) returns (current: seq<Item>)
    requires g.Valid() && ClosureSoFar(g, basis, current0) && i < |current0|
    ensures ClosureSoFar(g, basis, current) && current0 <= current
    ensures forall b :: Generates(g, current0[i], b) ==> b in current
  {
    current := current0;
    var cfp := current0[i];
    if cfp.dot >= |g.rules[cfp.rule].rhs| { return; }
    var sp := g.rules[cfp.rule].rhs[cfp.dot];
    for r := 0 to |g.rules|
      invariant ClosureSoFar(g, basis, current) && current0 <= current
      invariant forall b :: Generates(g, cfp, b) && b.rule < r ==> b in current
    {
      if g.rules[r].lhs == sp && Item(r, 0) !in current {
        assert Generates(g, cfp, Item(r, 0)) && cfp in current;
        AddGenerated(g, basis, current, cfp, Item(r, 0));
        current := current + [Item(r, 0)];
      }
    }
  }

  lemma AddGenerated(g: Grammar, basis: seq<Item>, current: seq<Item>, a: Item, b: Item)
    requires ClosureSoFar(g, basis, current) && a in current && Generates(g, a, b) && b !in current
    ensures ClosureSoFar(g, basis, current + [b])
  {
    var next := current + [b];
    forall d | Elems(basis) <= d && Closed(g, d) ensures Elems(next) <= d {
      assert a in Elems(current) && Elems(current) <= d;
      assert Elems(next) == Elems(current) + {b};
    }
  }

  /** Configlist_closure: walk the list while it grows. */
  method Closure(g: Grammar, basis: seq<Item>) returns (current: seq<Item>)
    requires g.Valid() && NoDuplicates(basis) && forall k :: 0 <= k < |basis| ==> ValidItem(g, basis[k])
    ensures NoDuplicates(current) && basis <= current
    ensures forall k :: 0 <= k < |current| ==> ValidItem(g, current[k])
    ensures IsClosure(g, Elems(basis), Elems(current))
  {
    current := basis;
    var i := 0;
    while i < |current|
      invariant 0 <= i <= |current|
      invariant ClosureSoFar(g, basis, current) && Expanded(g, current, i)
      decreases AllItems(g) - Elems(current[..i])
    {
      ghost var before := current;
      current := ExpandItem(g, basis, current, i);
      assert current[i] == before[i];
      assert Expanded(g, current, i + 1) by {
        forall k, b | 0 <= k < i + 1 && Generates(g, current[k], b) ensures b in current {
          assert current[k] == before[k];
          assert k < i ==> b in before;
        }
      }
      NextIsNew(g, current, i, before);
      i := i + 1;
    }
    forall a, b | a in Elems(current) && Generates(g, a, b) ensures b in Elems(current) {
      var k :| 0 <= k < |current| && current[k] == a;
    }
  }

  lemma NextIsNew(g: Grammar, current: seq<Item>, i: nat, before: seq<Item>)
    requires i < |before| && before <= current && NoDuplicates(current) && ValidItem(g, current[i])
    ensures AllItems(g) - Elems(current[..i + 1]) < AllItems(g) - Elems(before[..i])
  {
    assert current[..i] == before[..i];
    assert current[..i + 1] == current[..i] + [current[i]];
    var a := current[i];
    assert a in AllItems(g) by { assert Item(a.rule, a.dot) == a; }
    assert a !in Elems(before[..i]) && a in Elems(current[..i + 1]);
  }

  // ---------------------------------------------------------------- Configcmp and sorted bases

  function ItemCmp(a: Item, b: Item): int {
    if a.rule != b.rule then a.rule - b.rule else a.dot - b.dot
  }

  lemma ItemCmpOrders()
    ensures MergeSort.TotalPreorder(ItemCmp)
  {
    forall a, b, c | MergeSort.Le(ItemCmp, a, b) && MergeSort.Le(ItemCmp, b, c)
      ensures MergeSort.Le(ItemCmp, a, c)
    { }
  }

  ghost predicate Ordered(s: seq<Item>) {
    forall i, j :: 0 <= i < j < |s| ==> ItemCmp(s[i], s[j]) < 0
  }

  /** A set of items has only one ordered list, so comparing lists compares sets. */
  lemma {:induction false} OrderedIsUnique(s: seq<Item>, t: seq<Item>)
    requires Ordered(s) && Ordered(t) && Elems(s) == Elems(t)
    ensures s == t
  {
    if s == [] {
      EmptyElems(t);
    } else {
      assert s[0] in Elems(s);
      assert t != [] && t[0] in Elems(t);
      assert s[0] == t[0];
      TailElems(s);
      TailElems(t);
      OrderedIsUnique(s[1..], t[1..]);
    }
  }

  lemma EmptyElems(s: seq<Item>)
    ensures Elems(s) == {} ==> s == []
  {
    if s != [] {
      assert s[0] in Elems(s);
    }
  }

  lemma TailElems(s: seq<Item>)
    requires s != [] && Ordered(s)
    ensures Elems(s[1..]) == Elems(s) - {s[0]} && Ordered(s[1..])
  {
    assert s == [s[0]] + s[1..];
    forall x | x in s[1..] ensures x != s[0] {
      var i :| 0 <= i < |s[1..]| && s[1..][i] == x;
      assert ItemCmp(s[0], s[i + 1]) < 0;
    }
  }

  /** Configlist_sortbasis. */
  method SortItems(s: seq<Item>) returns (r: seq<Item>)
    requires NoDuplicates(s) && |s| < 0x4000_0000
    ensures Ordered(r) && NoDuplicates(r) && Elems(r) == Elems(s) && |r| == |s|
  {
    r := MergeSort.Sort(ItemCmp, s);
    ItemCmpOrders();
    assert |multiset(r)| == |multiset(s)|;
    SortedOrdered(s, r);
  }

  lemma SortedOrdered(s: seq<Item>, r: seq<Item>)
    requires NoDuplicates(s) && multiset(r) == multiset(s) && MergeSort.Sorted(ItemCmp, r)
    ensures Ordered(r) && NoDuplicates(r) && Elems(r) == Elems(s)
  {
    PermutedMembers(s, r);
    PermutedNoDuplicates(s, r);
    forall i, j | 0 <= i < j < |r| ensures ItemCmp(r[i], r[j]) < 0 {
      assert MergeSort.Le(ItemCmp, r[i], r[j]);
    }
  }
}
