/** The recursive construction itself. */
module StateBuilder {
  import opened Wrappers
  import opened Grammars
  import opened Items
  import opened States
  import HashTable
  import ViablePrefixes

  ghost predicate Buildable(g: Grammar) {
    g.Valid() && |AllItems(g)| < 0x4000_0000
  }

  lemma {:induction false} NoDupSize(s: seq<Item>)
    requires NoDuplicates(s)
    ensures |Elems(s)| == |s|
  {
    if s != [] {
      var init, last := s[..|s| - 1], s[|s| - 1];
      NoDupSize(init);
      assert s == init + [last] && last !in init;
      assert Elems(s) == Elems(init) + {last};
    } else {
      assert Elems(s) == {};
    }
  }

  lemma ItemListSize(g: Grammar, s: seq<Item>)
    requires Buildable(g) && NoDuplicates(s) && forall k :: 0 <= k < |s| ==> ValidItem(g, s[k])
    ensures |s| < 0x4000_0000 && Elems(s) <= AllItems(g)
  {
    forall a | a in Elems(s) ensures a in AllItems(g) {
      assert ValidItem(g, a);
      assert a == Item(a.rule, a.dot);
    }
    NoDupSize(s);
    SubsetSize(Elems(s), AllItems(g));
  }

  /** The items of a list with the dot in front of `x`, advanced. */
  function AdvanceList(g: Grammar, s: seq<Item>, x: nat): seq<Item> {
    if s == [] then []
    else if NextIs(g, s[0], x) then [Item(s[0].rule, s[0].dot + 1)] + AdvanceList(g, s[1..], x)
    else AdvanceList(g, s[1..], x)
  }

  lemma {:induction false} AdvanceListMember(g: Grammar, s: seq<Item>, x: nat, b: Item)
    ensures b in AdvanceList(g, s, x) <==> b.dot > 0 && Item(b.rule, b.dot - 1) in s && NextIs(g, Item(b.rule, b.dot - 1), x)
  {
    if s != [] {
      AdvanceListMember(g, s[1..], x, b);
    }
  }

  lemma {:induction false} AdvanceListNoDup(g: Grammar, s: seq<Item>, x: nat)
    requires NoDuplicates(s)
    ensures NoDuplicates(AdvanceList(g, s, x))
    ensures forall k :: 0 <= k < |AdvanceList(g, s, x)| ==> ValidItem(g, AdvanceList(g, s, x)[k])
  {
    if s != [] {
      AdvanceListNoDup(g, s[1..], x);
      AdvanceListMember(g, s[1..], x, Item(s[0].rule, s[0].dot + 1));
    }
  }

  lemma AdvanceListElems(g: Grammar, s: seq<Item>, x: nat)
    ensures Elems(AdvanceList(g, s, x)) == Advance(g, Elems(s), x)
  {
    forall b ensures b in Elems(AdvanceList(g, s, x)) <==> b in Advance(g, Elems(s), x) {
      AdvanceListMember(g, s, x, b);
      if b.dot > 0 {
        var a := Item(b.rule, b.dot - 1);
        assert a in Elems(s) && NextIs(g, a, x) ==> b in Advance(g, Elems(s), x);
      }
    }
  }

  lemma {:induction false} AdvanceListSkips(g: Grammar, s: seq<Item>, x: nat, i: nat)
    requires i <= |s| && forall j :: 0 <= j < i ==> !NextIs(g, s[j], x)
    ensures AdvanceList(g, s[i..], x) == AdvanceList(g, s, x)
  {
    if i == 0 {
      assert s[0..] == s;
    } else {
      AdvanceListSkips(g, s, x, i - 1);
      assert s[i - 1..][1..] == s[i..];
    }
  }

  /** Collect the advanced items on symbol `sp`, marking their configurations COMPLETE. */
  method CollectAdvance(g: Grammar, cfp: seq<Item>, status0: seq<bool>, i: nat, sp: nat)
    returns (basis: seq<Item>, status: seq<bool>)
    requires |status0| == |cfp| && i < |cfp|
    requires forall j :: 0 <= j < |cfp| && NextIs(g, cfp[j], sp) ==> i <= j && !status0[j]
    ensures |status| == |cfp|
    ensures forall j :: 0 <= j < |cfp| ==> status[j] == (status0[j] || NextIs(g, cfp[j], sp))
    ensures basis == AdvanceList(g, cfp, sp)
  {
    basis, status := [], status0;
    for j := i to |cfp|
      invariant |status| == |cfp|
      invariant forall x :: 0 <= x < |cfp| ==> status[x] == (status0[x] || (x < j && NextIs(g, cfp[x], sp)))
      invariant basis + AdvanceList(g, cfp[j..], sp) == AdvanceList(g, cfp[i..], sp)
    {
      assert cfp[j..][1..] == cfp[j + 1..];
      if !status[j] && NextIs(g, cfp[j], sp) {
        status := status[j := true];
        basis := basis + [Item(cfp[j].rule, cfp[j].dot + 1)];
      }
    }
    AdvanceListSkips(g, cfp, sp, i);
  }

  /** The record of a new state: closure of the basis, sorted. */
  method MakeState(g: Grammar, bp: seq<Item>, index: nat) returns (stp: State)
    requires Buildable(g) && Ordered(bp) && NoDuplicates(bp) && forall k :: 0 <= k < |bp| ==> ValidItem(g, bp[k])
    ensures WellBuilt(g, stp) && stp.bp == bp && stp.index == index && stp.shifts == []
  {
    var current := Closure(g, bp);
    ItemListSize(g, current);
    var cfp := SortItems(current);
    forall k | 0 <= k < |cfp| ensures ValidItem(g, cfp[k]) {
      assert cfp[k] in Elems(cfp);
    }
    stp := State(bp, cfp, index, []);
  }

  /** Configlist_sortbasis. */
  method SortBasis(g: Grammar, basis: seq<Item>) returns (bp: seq<Item>)
    requires Buildable(g) && NoDuplicates(basis) && forall k :: 0 <= k < |basis| ==> ValidItem(g, basis[k])
    ensures Ordered(bp) && NoDuplicates(bp) && Elems(bp) == Elems(basis) <= AllItems(g)
    ensures forall k :: 0 <= k < |bp| ==> ValidItem(g, bp[k])
  {
    ItemListSize(g, basis);
    bp := SortItems(basis);
    forall k | 0 <= k < |bp| ensures ValidItem(g, bp[k]) {
      assert bp[k] in Elems(bp);
    }
  }

  /** The table of states in insertion order: position `i` has the basis of state `i`, whose sequence number is `i`. */
  ghost predicate Listed(view: seq<(seq<Item>, nat)>, states: seq<State>) {
    |view| == |states| && forall i :: 0 <= i < |states| ==> view[i] == (states[i].bp, i) && states[i].index == i
  }

  lemma ListedFind(view: seq<(seq<Item>, nat)>, states: seq<State>, bp: seq<Item>)
    requires Listed(view, states)
    ensures forall i :: (bp, i) in view ==> i < |states| && states[i].bp == bp
    ensures !HashTable.Holds(view, bp) ==> forall j :: 0 <= j < |states| ==> states[j].bp != bp
  {
    forall j | 0 <= j < |states| && states[j].bp == bp ensures HashTable.Holds(view, bp) {
      assert view[j].0 == bp;
    }
  }

  lemma ListedAppend(view: seq<(seq<Item>, nat)>, states: seq<State>, stp: State)
    requires Listed(view, states) && stp.index == |states|
    ensures Listed(view + [(stp.bp, |states|)], states + [stp])
  {
  }

  lemma StatesGrown(before: seq<State>, middle: seq<State>, after: seq<State>, s: nat)
    requires s == |before| && |middle| == s + 1 && middle[..s] == before && Extends(middle, after, s)
    ensures before <= after && s < |after| && after[s].bp == middle[s].bp
  {
    assert forall k :: 0 <= k < s ==> before[k] == middle[k];
  }

  class Builder {
    const g: Grammar
    const table: HashTable.Table<seq<Item>, nat>   // State_find and State_insert; states are named by where they are stored
    var states: seq<State>
    var nstate: nat
    ghost var pending: set<nat>
    ghost var origin: seq<Origin>

    ghost predicate Valid()
      reads this, table, table.ht
    {
      && Buildable(g) && Invariant(g, states, pending, origin) && nstate == |states|
      && table.Valid() && Listed(table.View(), states)
    }

    constructor (g: Grammar, hash: seq<Item> -> int)
      requires Buildable(g)
      ensures this.g == g && Valid() && states == [] && pending == {} && fresh(table) && fresh(table.ht)
    {
      this.g := g;
      HashTable.InitialSizes();
      table := new HashTable.Table(hash, 128);
      states, nstate, pending, origin := [], 0, {}, [];
    }

    /** State_find. */
    method FindState(bp: seq<Item>) returns (found: bool, i: nat)
      requires Valid()
      ensures found ==> i < |states| && states[i].bp == bp
      ensures !found ==> !HashTable.Holds(table.View(), bp) && forall j :: 0 <= j < |states| ==> states[j].bp != bp
    {
      ListedFind(table.View(), states, bp);
      var r := table.Find(bp);
      if r.None? { return false, 0; }
      return true, r.value;
    }

    /** A new state with its sequence number, entered into the table before its successors are built. */
    method NewState(bp: seq<Item>, ghost o: Origin) returns (i: nat)
      requires Valid() && Ordered(bp) && NoDuplicates(bp) && forall k :: 0 <= k < |bp| ==> ValidItem(g, bp[k])
      requires !HashTable.Holds(table.View(), bp) && forall j :: 0 <= j < |states| ==> states[j].bp != bp
      requires states != [] ==> o.from < |states| && CanShift(g, states[o.from], o.sym) &&
                                Elems(bp) == Advance(g, Elems(states[o.from].cfp), o.sym)
      requires Elems(bp) <= AllItems(g)
      modifies this, table, table.ht
      ensures Valid() && (table.ht == old(table.ht) || fresh(table.ht))
      ensures i == |old(states)| && |states| == i + 1 && states[..i] == old(states)
      ensures states[i].bp == bp && states[i].shifts == [] && pending == old(pending) + {i} && i !in old(pending)
      ensures Known(states) >= old(Known(states)) && Bases(g) - Known(states) < Bases(g) - old(Known(states))
    {
      i := nstate;
      var stp := MakeState(g, bp, i);
      AddState(g, states, pending, origin, stp, o);
      NewBasis(g, states, stp);
      Enter(stp, o);
    }

    /** State_insert, and the state takes its place. */
    method Enter(stp: State, ghost o: Origin)
      requires Buildable(g) && nstate == |states| && table.Valid() && Listed(table.View(), states)
      requires stp.index == |states| && !HashTable.Holds(table.View(), stp.bp)
      requires Invariant(g, states + [stp], pending + {|states|}, origin + [o])
      modifies this, table, table.ht
      ensures Valid() && (table.ht == old(table.ht) || fresh(table.ht))
      ensures states == old(states) + [stp] && pending == old(pending) + {|old(states)|}
    {
      ListedAppend(table.View(), states, stp);
      var ok := table.Insert(stp.bp, nstate);
      states, nstate, pending, origin := states + [stp], nstate + 1, pending + {nstate}, origin + [o];
    }

    /** getstate: the state with this basis, built with all its successors if it is new. */
    method GetState(basis: seq<Item>, ghost o: Origin) returns (i: nat)
      requires Valid() && NoDuplicates(basis) && forall k :: 0 <= k < |basis| ==> ValidItem(g, basis[k])
      requires states != [] ==> o.from < |states| && CanShift(g, states[o.from], o.sym) &&
                                Elems(basis) == Advance(g, Elems(states[o.from].cfp), o.sym)
      modifies this, table, table.ht
      ensures Valid() && (table.ht == old(table.ht) || fresh(table.ht))
      ensures pending == old(pending) && old(states) <= states
      ensures i < |states| && Elems(states[i].bp) == Elems(basis)
      ensures old(states) == [] ==> i == 0
      ensures Known(states) >= old(Known(states))
      decreases Bases(g) - Known(states), 0, 1
    {
      var found, bp;
      found, i, bp := FindBasis(basis);
      if found { return; }
      i := BuildState(bp, o);
    }

    /** A new state and all its successors. */
    method BuildState(bp: seq<Item>, ghost o: Origin) returns (i: nat)
      requires Valid() && Ordered(bp) && NoDuplicates(bp) && forall k :: 0 <= k < |bp| ==> ValidItem(g, bp[k])
      requires !HashTable.Holds(table.View(), bp) && forall j :: 0 <= j < |states| ==> states[j].bp != bp
      requires states != [] ==> o.from < |states| && CanShift(g, states[o.from], o.sym) &&
                                Elems(bp) == Advance(g, Elems(states[o.from].cfp), o.sym)
      requires Elems(bp) <= AllItems(g)
      modifies this, table, table.ht
      ensures Valid() && (table.ht == old(table.ht) || fresh(table.ht))
      ensures pending == old(pending) && old(states) <= states && Known(states) >= old(Known(states))
      ensures i == |old(states)| < |states| && states[i].bp == bp
      decreases Bases(g) - Known(states), 0, 0
    {
      ghost var before := states;
      i := NewState(bp, o);
      ghost var middle := states;
      BuildShifts(i);
      StatesGrown(before, middle, states, i);
    }

    /** Sort the basis and look for a state that has it. */
    method FindBasis(basis: seq<Item>) returns (found: bool, i: nat, bp: seq<Item>)
      requires Valid() && NoDuplicates(basis) && forall k :: 0 <= k < |basis| ==> ValidItem(g, basis[k])
      ensures Ordered(bp) && NoDuplicates(bp) && Elems(bp) == Elems(basis) <= AllItems(g)
      ensures forall k :: 0 <= k < |bp| ==> ValidItem(g, bp[k])
      ensures found ==> i < |states| && states[i].bp == bp
      ensures !found ==> !HashTable.Holds(table.View(), bp) && forall j :: 0 <= j < |states| ==> states[j].bp != bp
    {
      bp := SortBasis(g, basis);
      found, i := FindState(bp);
    }

    /** buildshifts: all successors of state `s`. */
    method BuildShifts(s: nat)
      requires Valid() && s < |states| && s in pending && states[s].shifts == []
      modifies this, table, table.ht
      ensures Valid() && (table.ht == old(table.ht) || fresh(table.ht))
      ensures pending == old(pending) - {s}
      ensures Extends(old(states), states, s) && Known(states) >= old(Known(states))
      decreases Bases(g) - Known(states), 1
    {
      var cfp := states[s].cfp;
      var status := seq(|cfp|, _ => false);
      for i := 0 to |cfp|
        invariant Valid() && (table.ht == old(table.ht) || fresh(table.ht)) && pending == old(pending)
        invariant Extends(old(states), states, s) && Known(states) >= old(Known(states))
        invariant states[s].cfp == cfp && StatusOk(g, states[s], status)
        invariant forall j, x :: 0 <= j < i && NextIs(g, cfp[j], x) ==> status[j]
      {
        assert WellBuilt(g, states[s]);
        if !status[i] && cfp[i].dot < |g.rules[cfp[i].rule].rhs| {
          var sp := g.rules[cfp[i].rule].rhs[cfp[i].dot];
          status := ShiftOn(s, i, sp, status);
        }
      }
      forall x: nat | CanShift(g, states[s], x) ensures HasShift(states[s], x) {
        var k :| 0 <= k < |cfp| && NextIs(g, cfp[k], x);
      }
      FinishState(g, states, pending, origin, s);
      pending := pending - {s};
    }

    /** One round of the outer loop of buildshifts. */
    method ShiftOn(s: nat, i: nat, sp: nat, status0: seq<bool>) returns (status: seq<bool>)
      requires Valid() && s < |states| && s in pending && i < |states[s].cfp|
      requires StatusOk(g, states[s], status0) && NextIs(g, states[s].cfp[i], sp) && !status0[i]
      requires forall j, x :: 0 <= j < i && NextIs(g, states[s].cfp[j], x) ==> status0[j]
      modifies this, table, table.ht
      ensures Valid() && (table.ht == old(table.ht) || fresh(table.ht)) && pending == old(pending)
      ensures Extends(old(states), states, s) && Known(states) >= old(Known(states))
      ensures StatusOk(g, states[s], status) && status[i]
      ensures forall j :: 0 <= j < |status| && status0[j] ==> status[j]
      decreases Bases(g) - Known(states), 1, 0
    {
      ghost var st := states[s];
      assert WellBuilt(g, st) && !HasShift(st, sp) && CanShift(g, st, sp);
      var basis;
      basis, status := CollectAdvance(g, states[s].cfp, status0, i, sp);
      AdvanceListElems(g, st.cfp, sp);
      AdvanceListNoDup(g, st.cfp, sp);
      var newstp := GetState(basis, Origin(s, sp));
      assert states[s] == st;
      AddShift(g, states, pending, origin, s, sp, newstp);
      ghost var before := states;
      states := states[s := states[s].(shifts := states[s].shifts + [Shift(sp, newstp)])];
      SameKnown(before, states);
      StatusAfter(g, st, states[s], status0, status, sp, newstp);
    }
  }

  /** A configuration is marked COMPLETE exactly when the symbol behind its dot has its shift. */
  ghost predicate StatusOk(g: Grammar, st: State, status: seq<bool>) {
    |status| == |st.cfp| &&
    forall j, x :: 0 <= j < |status| && NextIs(g, st.cfp[j], x) ==> (status[j] <==> HasShift(st, x))
  }

  lemma StatusAfter(g: Grammar, st: State, st': State, status0: seq<bool>, status: seq<bool>, sp: nat, t: nat)
    requires StatusOk(g, st, status0) && |status| == |st.cfp| && st' == st.(shifts := st.shifts + [Shift(sp, t)])
    requires forall j :: 0 <= j < |st.cfp| ==> status[j] == (status0[j] || NextIs(g, st.cfp[j], sp))
    ensures StatusOk(g, st', status)
  {
    forall x: nat ensures HasShift(st', x) <==> HasShift(st, x) || x == sp {
      assert st'.shifts[|st.shifts|].sym == sp;
      if HasShift(st, x) {
        var k :| 0 <= k < |st.shifts| && st.shifts[k].sym == x;
        assert st'.shifts[k].sym == x;
      }
    }
  }

  lemma SameKnown(a: seq<State>, b: seq<State>)
    requires |a| == |b| && forall i :: 0 <= i < |a| ==> a[i].bp == b[i].bp
    ensures Known(a) == Known(b)
  {
  }

  lemma NewBasis(g: Grammar, states: seq<State>, st: State)
    requires WellBuilt(g, st) && (forall i :: 0 <= i < |states| ==> WellBuilt(g, states[i]) && states[i].bp != st.bp)
    requires Elems(st.bp) <= AllItems(g)
    ensures Bases(g) - Known(states + [st]) < Bases(g) - Known(states)
    ensures Known(states + [st]) >= Known(states)
  {
    var next, b := states + [st], Elems(st.bp);
    assert next[|states|] == st;
    assert b in Known(next) && b in Bases(g);
    forall x | x in Known(states) ensures x in Known(next) {
      var i :| 0 <= i < |states| && Elems(states[i].bp) == x;
      assert next[i] == states[i];
    }
    forall i | 0 <= i < |states| ensures Elems(states[i].bp) != b {
      if Elems(states[i].bp) == b {
        OrderedIsUnique(states[i].bp, st.bp);
      }
    }
    assert b !in Known(states);
  }

  /** FindStates and State_arrayof: the canonical LR(0) collection as the table lists it, start state first, state `i` at `i`. */
  method FindStates(g: Grammar, hash: seq<Item> -> int) returns (sorted: seq<State>)
    requires Buildable(g)
    ensures Canonical(g, sorted) && forall i :: 0 <= i < |sorted| ==> sorted[i].index == i
    ensures ViablePrefixes.HoldsValidItems(g, sorted)
  {
    var basis := StartBasis(g);
    var b := new Builder(g, hash);
    var i := b.GetState(basis, Origin(0, 0));
    InvariantIsCanonical(g, b.states, b.origin);
    var addresses := b.table.ArrayOf();
    sorted := [];
    for k := 0 to |addresses|
      invariant sorted == b.states[..k]
    {
      sorted := sorted + [b.states[addresses[k]]];
    }
    assert sorted == b.states;
    ViablePrefixes.CanonicalHoldsValidItems(g, sorted);
  }

  /** The basis of the first state. */
  method StartBasis(g: Grammar) returns (basis: seq<Item>)
    ensures NoDuplicates(basis) && Elems(basis) == StartItems(g)
    ensures forall k :: 0 <= k < |basis| ==> ValidItem(g, basis[k])
  {
    basis := [];
    for r := 0 to |g.rules|
      invariant forall k :: 0 <= k < |basis| ==>
                  basis[k].dot == 0 && basis[k].rule < r && g.rules[basis[k].rule].lhs == g.start
      invariant NoDuplicates(basis)
      invariant forall x: nat :: x < r && g.rules[x].lhs == g.start ==> Item(x, 0) in basis
    {
      if g.rules[r].lhs == g.start {
        basis := basis + [Item(r, 0)];
      }
    }
  }
}
