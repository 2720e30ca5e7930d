/**
 Construction of the LR(0) automaton (`FindStates`, `getstate`, `buildshifts`): states are
 found by their sorted basis, and successors are built recursively.
 */
module States {
  import opened Wrappers
  import opened Grammars
  import opened Items

  datatype Shift = Shift(sym: nat, target: nat)

  /** A state: its sorted basis, its sorted closure, its sequence number, its shift actions. */
  datatype State = State(bp: seq<Item>, cfp: seq<Item>, index: nat, shifts: seq<Shift>)

  ghost function StartItems(g: Grammar): set<Item> {
    set r: nat | r < |g.rules| && g.rules[r].lhs == g.start :: Item(r, 0)
  }

  /** The items of `s` with the dot moved over `x`. */
  ghost function Advance(g: Grammar, s: set<Item>, x: nat): set<Item> {
    set a | a in s && NextIs(g, a, x) :: Item(a.rule, a.dot + 1)
  }

  // ---------------------------------------------------------------- what a finished automaton satisfies

  ghost predicate WellBuilt(g: Grammar, st: State) {
    && Ordered(st.bp) && NoDuplicates(st.cfp)
    && (forall k :: 0 <= k < |st.bp| ==> ValidItem(g, st.bp[k]))
    && (forall k :: 0 <= k < |st.cfp| ==> ValidItem(g, st.cfp[k]))
    && IsClosure(g, Elems(st.bp), Elems(st.cfp))
  }

  ghost predicate CanShift(g: Grammar, st: State, x: nat) {
    exists k :: 0 <= k < |st.cfp| && NextIs(g, st.cfp[k], x)
  }

  ghost predicate HasShift(st: State, x: nat) {
    exists k :: 0 <= k < |st.shifts| && st.shifts[k].sym == x
  }

  /** The shifts recorded so far: one per symbol, each leading to the state of the advanced items. */
  ghost predicate ShiftsSound(g: Grammar, states: seq<State>, i: nat)
    requires i < |states|
  {
    var st := states[i];
    && (forall j, k :: 0 <= j < k < |st.shifts| ==> st.shifts[j].sym != st.shifts[k].sym)
    && (forall k :: 0 <= k < |st.shifts| ==>
          && st.shifts[k].target < |states| && CanShift(g, st, st.shifts[k].sym)
          && Elems(states[st.shifts[k].target].bp) == Advance(g, Elems(st.cfp), st.shifts[k].sym))
  }

  ghost predicate ShiftsComplete(g: Grammar, st: State) {
    forall x: nat :: CanShift(g, st, x) ==> HasShift(st, x)
  }

  ghost predicate DistinctBases(states: seq<State>) {
    forall i, j :: 0 <= i < j < |states| ==> states[i].bp != states[j].bp
  }

  ghost predicate Leads(st: State, t: nat) {
    exists k :: 0 <= k < |st.shifts| && st.shifts[k].target == t
  }

  /** A chain of shifts from state 0. */
  ghost predicate IsRoute(states: seq<State>, p: seq<nat>) {
    && p != [] && p[0] == 0
    && (forall i :: 0 <= i < |p| ==> p[i] < |states|)
    && (forall i :: 0 <= i < |p| - 1 ==> Leads(states[p[i]], p[i + 1]))
  }

  ghost predicate Reachable(states: seq<State>, i: nat) {
    exists p :: IsRoute(states, p) && p[|p| - 1] == i
  }

  /** The canonical LR(0) collection of the grammar. */
  ghost predicate Canonical(g: Grammar, states: seq<State>) {
    && states != [] && Elems(states[0].bp) == StartItems(g)
    && (forall i :: 0 <= i < |states| ==> WellBuilt(g, states[i]))
    && (forall i, j :: 0 <= i < j < |states| ==> Elems(states[i].bp) != Elems(states[j].bp))
    && (forall i :: 0 <= i < |states| ==> ShiftsSound(g, states, i) && ShiftsComplete(g, states[i]))
    && (forall i :: 0 <= i < |states| ==> Reachable(states, i))
  }

  // ---------------------------------------------------------------- invariant of the construction

  /** Where a state came from: the state and symbol whose shift created it. */
  datatype Origin = Origin(from: nat, sym: nat)

  ghost predicate OriginOk(g: Grammar, states: seq<State>, origin: seq<Origin>, i: nat)
    requires |origin| == |states| && 0 < i < |states|
  {
    && origin[i].from < i && CanShift(g, states[origin[i].from], origin[i].sym)
    && Elems(states[i].bp) == Advance(g, Elems(states[origin[i].from].cfp), origin[i].sym)
  }

  /** `pending` are the states whose successors are still being built. */
  ghost predicate Invariant(g: Grammar, states: seq<State>, pending: set<nat>, origin: seq<Origin>) {
    && (forall i :: 0 <= i < |states| ==> WellBuilt(g, states[i]))
    && DistinctBases(states) && (forall i :: i in pending ==> i < |states|)
    && (forall i :: 0 <= i < |states| ==> ShiftsSound(g, states, i))
    && (forall i :: 0 <= i < |states| && i !in pending ==> ShiftsComplete(g, states[i]))
    && |origin| == |states|
    && (forall i :: 0 < i < |states| ==> OriginOk(g, states, origin, i))
  }

  ghost function Bases(g: Grammar): set<set<Item>> {
    set b | b <= AllItems(g)
  }

  ghost function Known(states: seq<State>): set<set<Item>> {
    set i | 0 <= i < |states| :: Elems(states[i].bp)
  }

  /** Nothing but the shifts of state `s` has changed in the first states, more states may have come. */
  ghost predicate Extends(old_: seq<State>, new_: seq<State>, s: nat) {
    && |old_| <= |new_|
    && (forall i :: 0 <= i < |old_| && i != s ==> new_[i] == old_[i])
    && (s < |old_| ==> new_[s].bp == old_[s].bp && new_[s].cfp == old_[s].cfp)
  }

  lemma AddState(g: Grammar, states: seq<State>, pending: set<nat>, origin: seq<Origin>, st: State, o: Origin)
    requires Invariant(g, states, pending, origin) && WellBuilt(g, st) && st.shifts == []
    requires forall i :: 0 <= i < |states| ==> states[i].bp != st.bp
    requires states != [] ==> o.from < |states| && CanShift(g, states[o.from], o.sym) &&
                              Elems(st.bp) == Advance(g, Elems(states[o.from].cfp), o.sym)
    ensures Invariant(g, states + [st], pending + {|states|}, origin + [o])
  {
    var next, origin' := states + [st], origin + [o];
    forall i | 0 <= i < |next| ensures ShiftsSound(g, next, i) {
      if i < |states| { MoreStates(g, states, st, i); }
    }
    forall i | 0 < i < |next| ensures OriginOk(g, next, origin', i) {
      if i < |states| { assert OriginOk(g, states, origin, i); }
    }
  }

  lemma MoreStates(g: Grammar, states: seq<State>, st: State, i: nat)
    requires i < |states| && ShiftsSound(g, states, i)
    ensures ShiftsSound(g, states + [st], i)
  {
    assert forall k :: 0 <= k < |states| ==> (states + [st])[k] == states[k];
  }

  lemma AddShift(g: Grammar, states: seq<State>, pending: set<nat>, origin: seq<Origin>, s: nat, x: nat, t: nat)
    requires Invariant(g, states, pending, origin) && s < |states| && s in pending
    requires !HasShift(states[s], x) && CanShift(g, states[s], x)
    requires t < |states| && Elems(states[t].bp) == Advance(g, Elems(states[s].cfp), x)
    ensures Invariant(g, states[s := states[s].(shifts := states[s].shifts + [Shift(x, t)])], pending, origin)
  {
    var st := states[s].(shifts := states[s].shifts + [Shift(x, t)]);
    var next := states[s := st];
    forall i | 0 <= i < |next| ensures ShiftsSound(g, next, i) && WellBuilt(g, next[i]) {
      assert ShiftsSound(g, states, i) && WellBuilt(g, states[i]);
      if i == s {
        AddShiftSound(g, states, s, x, t);
      } else {
        assert next[i] == states[i];
        assert forall k :: 0 <= k < |states| ==> next[k].bp == states[k].bp;
      }
    }
    forall i | 0 < i < |next| ensures OriginOk(g, next, origin, i) {
      assert OriginOk(g, states, origin, i);
      assert CanShift(g, next[origin[i].from], origin[i].sym);
    }
  }

  lemma AddShiftSound(g: Grammar, states: seq<State>, s: nat, x: nat, t: nat)
    requires s < |states| && ShiftsSound(g, states, s)
    requires !HasShift(states[s], x) && CanShift(g, states[s], x)
    requires t < |states| && Elems(states[t].bp) == Advance(g, Elems(states[s].cfp), x)
    ensures ShiftsSound(g, states[s := states[s].(shifts := states[s].shifts + [Shift(x, t)])], s)
  {
    var st := states[s].(shifts := states[s].shifts + [Shift(x, t)]);
    var next := states[s := st];
    forall k | 0 <= k < |st.shifts|
      ensures st.shifts[k].target < |next| && CanShift(g, st, st.shifts[k].sym)
      ensures Elems(next[st.shifts[k].target].bp) == Advance(g, Elems(st.cfp), st.shifts[k].sym)
    {
      var y := st.shifts[k].sym;
      assert CanShift(g, states[s], y);
    }
  }

  lemma FinishState(g: Grammar, states: seq<State>, pending: set<nat>, origin: seq<Origin>, s: nat)
    requires Invariant(g, states, pending, origin) && s < |states| && ShiftsComplete(g, states[s])
    ensures Invariant(g, states, pending - {s}, origin)
  {
  }

  /** When nothing is pending the invariant gives the canonical collection. */
  lemma InvariantIsCanonical(g: Grammar, states: seq<State>, origin: seq<Origin>)
    requires Invariant(g, states, {}, origin) && states != [] && Elems(states[0].bp) == StartItems(g)
    ensures Canonical(g, states)
  {
    forall i, j | 0 <= i < j < |states| ensures Elems(states[i].bp) != Elems(states[j].bp) {
      if Elems(states[i].bp) == Elems(states[j].bp) {
        OrderedIsUnique(states[i].bp, states[j].bp);
      }
    }
    forall i | 0 <= i < |states| ensures Reachable(states, i) {
      OriginReaches(g, states, origin, i);
    }
  }

  /** The shift that created a state is still there and still leads to it. */
  lemma OriginShift(g: Grammar, states: seq<State>, origin: seq<Origin>, i: nat) returns (k: nat)
    requires Invariant(g, states, {}, origin) && 0 < i < |states|
    ensures origin[i].from < i && k < |states[origin[i].from].shifts|
    ensures states[origin[i].from].shifts[k].target == i
  {
    var o := origin[i];
    assert OriginOk(g, states, origin, i);
    var st := states[o.from];
    assert ShiftsComplete(g, st) && HasShift(st, o.sym);
    k :| 0 <= k < |st.shifts| && st.shifts[k].sym == o.sym;
    assert ShiftsSound(g, states, o.from);
    var t := st.shifts[k].target;
    assert WellBuilt(g, states[t]) && WellBuilt(g, states[i]);
    OrderedIsUnique(states[t].bp, states[i].bp);
  }

  lemma ExtendRoute(states: seq<State>, j: nat, k: nat, i: nat)
    requires Reachable(states, j) && j < |states| && i < |states|
    requires k < |states[j].shifts| && states[j].shifts[k].target == i
    ensures Reachable(states, i)
  {
    var p :| IsRoute(states, p) && p[|p| - 1] == j;
    var q := p + [i];
    assert Leads(states[j], i);
    forall x | 0 <= x < |q| - 1 ensures Leads(states[q[x]], q[x + 1]) {
      assert x < |p| - 1 ==> q[x] == p[x] && q[x + 1] == p[x + 1];
    }
    assert IsRoute(states, q) && q[|q| - 1] == i;
  }

  lemma {:induction false} OriginReaches(g: Grammar, states: seq<State>, origin: seq<Origin>, i: nat)
    requires Invariant(g, states, {}, origin) && i < |states|
    ensures Reachable(states, i)
  {
    if i == 0 {
      assert IsRoute(states, [0]);
    } else {
      var k := OriginShift(g, states, origin, i);
      OriginReaches(g, states, origin, origin[i].from);
      ExtendRoute(states, origin[i].from, k, i);
    }
  }
}
