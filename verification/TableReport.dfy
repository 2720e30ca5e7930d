/** Table construction in `ReportTable`: from action lists to the emitted tables. */
module TableReport {
  import opened Wrappers
  import opened Actions
  import opened Compression
  import opened ActionTable
  import opened Tables
  import MergeSort

  ghost predicate AllEmittable(dim: Dimensions, states: seq<seq<Action>>) {
    dim.Valid() && |states| == dim.nstate && forall s :: 0 <= s < |states| ==> Emittable(dim, states[s])
  }

  /** The default action of a state, or the error action. */
  function DefaultCode(dim: Dimensions, ap: seq<Action>): nat {
    CodeOf(dim, if LiveOn(ap, dim.nsymbol) != [] then Some(LiveOn(ap, dim.nsymbol)[0]) else None)
  }

  /** Count the actions of one state and find its default. */
  method Summarize(dim: Dimensions, ap: seq<Action>) returns (nTknAct: nat, nNtAct: nat, iDflt: nat)
    requires dim.Valid() && Emittable(dim, ap)
    ensures nTknAct == |Entries(dim, ap, 0, dim.nterminal)|
    ensures nNtAct == |Entries(dim, ap, dim.nterminal, dim.nsymbol)|
    ensures iDflt == DefaultCode(dim, ap)
  {
    nTknAct, nNtAct, iDflt := 0, 0, dim.ErrorAction();
    assert |LiveOn(ap, dim.nsymbol)| <= 1;
    for i := 0 to |ap|
      invariant nTknAct + |Entries(dim, ap[i..], 0, dim.nterminal)| == |Entries(dim, ap, 0, dim.nterminal)|
      invariant nNtAct + |Entries(dim, ap[i..], dim.nterminal, dim.nsymbol)| == |Entries(dim, ap, dim.nterminal, dim.nsymbol)|
      invariant |LiveOn(ap[i..], dim.nsymbol)| <= 1
      invariant DefaultCode(dim, ap) == if LiveOn(ap[i..], dim.nsymbol) != [] then DefaultCode(dim, ap[i..]) else iDflt
    {
      assert ap[i..][1..] == ap[i + 1..] && ap[i] in ap;
      if Code(dim, ap[i]) >= 0 {
        if ap[i].sp < dim.nterminal {
          nTknAct := nTknAct + 1;
        } else if ap[i].sp < dim.nsymbol {
          nNtAct := nNtAct + 1;
        } else {
          iDflt := Code(dim, ap[i]);
        }
      }
    }
  }

  function AxCmp(a: AxSet, b: AxSet): int { b.nAction - a.nAction }

  /** The table of action sets before sorting: slots 2s and 2s+1 belong to state s. */
  method CollectAxSets(dim: Dimensions, states: seq<seq<Action>>) returns (ax: seq<AxSet>, iDflt: seq<nat>)
    requires AllEmittable(dim, states)
    ensures |ax| == 2 * |states| && |iDflt| == |states|
    ensures forall s :: 0 <= s < |states| ==>
              && ax[2 * s] == AxSet(s, true, |SetOf(dim, states, s, true)|)
              && ax[2 * s + 1] == AxSet(s, false, |SetOf(dim, states, s, false)|)
              && iDflt[s] == DefaultCode(dim, states[s])
  {
    ax, iDflt := [], [];
    for i := 0 to |states|
      invariant |ax| == 2 * i && |iDflt| == i
      invariant forall s :: 0 <= s < i ==>
                  && ax[2 * s] == AxSet(s, true, |SetOf(dim, states, s, true)|)
                  && ax[2 * s + 1] == AxSet(s, false, |SetOf(dim, states, s, false)|)
                  && iDflt[s] == DefaultCode(dim, states[s])
    {
      var nTknAct, nNtAct, dflt := Summarize(dim, states[i]);
      ax := ax + [AxSet(i, true, nTknAct), AxSet(i, false, nNtAct)];
      iDflt := iDflt + [dflt];
    }
  }

  lemma SortedIsAxSetsOf(dim: Dimensions, states: seq<seq<Action>>, raw: seq<AxSet>, ax: seq<AxSet>)
    requires |raw| == 2 * |states|
    requires forall s :: 0 <= s < |states| ==>
               && raw[2 * s] == AxSet(s, true, |SetOf(dim, states, s, true)|)
               && raw[2 * s + 1] == AxSet(s, false, |SetOf(dim, states, s, false)|)
    requires multiset(ax) == multiset(raw) && MergeSort.Sorted(AxCmp, ax)
    ensures AxSetsOf(dim, states, ax)
  {
    forall i | 0 <= i < |raw|
      ensures raw[i] == AxSet(i / 2, i % 2 == 0, |SetOf(dim, states, i / 2, i % 2 == 0)|)
    {
      assert i == 2 * (i / 2) + i % 2;
    }
    PermutedNoDuplicates(raw, ax);
    PermutedMembers(raw, ax);
    forall i, j | 0 <= i < j < |ax| ensures ax[i].nAction >= ax[j].nAction {
      assert MergeSort.Le(AxCmp, ax[i], ax[j]);
    }
    forall i | 0 <= i < |ax|
      ensures ax[i].stp < |states| && ax[i].nAction == |SetOf(dim, states, ax[i].stp, ax[i].isTkn)|
    {
      assert ax[i] in raw;
      var k :| 0 <= k < |raw| && raw[k] == ax[i];
    }
    forall s, k: bool | 0 <= s < |states| ensures AxSet(s, k, |SetOf(dim, states, s, k)|) in ax {
      assert raw[if k then 2 * s else 2 * s + 1] in raw;
    }
  }

  lemma NextEntry(pre: seq<Slot>, e: Slot, rest: seq<Slot>, all: seq<Slot>)
    requires Distinct(all) && all == pre + ([e] + rest)
    ensures Lacks(pre, e.lookahead) && all == (pre + [e]) + rest
  {
    assert all[|pre|] == e;
    assert forall k :: 0 <= k < |pre| ==> all[k] == pre[k];
  }

  /** Collect one set for the packed table. */
  method CollectSet(p: Acttab, dim: Dimensions, ap: seq<Action>, lo: nat, hi: nat)
    requires p.Valid() && p.aLookahead == [] && Emittable(dim, ap)
    modifies p
    ensures p.Valid() && p.placed == old(p.placed) && p.nAction == old(p.nAction)
    ensures p.aLookahead == Entries(dim, ap, lo, hi)
  {
    EntriesDistinct(dim, ap, lo, hi);
    ghost var all := Entries(dim, ap, lo, hi);
    assert ap[0..] == ap;
    var i := 0;
    while i < |ap|
      invariant 0 <= i <= |ap|
      invariant p.Valid() && p.placed == old(p.placed) && p.nAction == old(p.nAction)
      invariant p.aLookahead + Entries(dim, ap[i..], lo, hi) == all
    {
      assert ap[i..][1..] == ap[i + 1..] && ap[i] in ap;
      if lo <= ap[i].sp < hi {
        var action := Code(dim, ap[i]);
        if action >= 0 {
          NextEntry(p.aLookahead, Slot(ap[i].sp, action), Entries(dim, ap[i + 1..], lo, hi), all);
          p.Action(ap[i].sp, action);
        }
      }
      i := i + 1;
    }
    assert p.aLookahead == all;
  }

  /** Feed one set to the packed table. */
  method InsertSet(p: Acttab, dim: Dimensions, ap: seq<Action>, lo: nat, hi: nat) returns (off: int)
    requires p.Valid() && p.aLookahead == [] && Emittable(dim, ap)
    requires Entries(dim, ap, lo, hi) != []
    modifies p
    ensures p.Valid() && p.aLookahead == []
    ensures p.placed == old(p.placed) + [Placement(off, Entries(dim, ap, lo, hi))]
    ensures 0 < off + hi && off <= p.nAction && old(p.nAction) <= p.nAction <= old(p.nAction) + hi
  {
    CollectSet(p, dim, ap, lo, hi);
    LargestEntry(dim, ap, lo, hi);
    off := p.Insert();
  }

  lemma LargestEntry(dim: Dimensions, ap: seq<Action>, lo: nat, hi: nat)
    requires Emittable(dim, ap) && Entries(dim, ap, lo, hi) != []
    ensures Largest(Entries(dim, ap, lo, hi)) < hi
  {
    EntriesBounded(dim, ap, lo, hi);
    ExtremesBound(Entries(dim, ap, lo, hi));
  }

  /** Progress of the placement loop: the first `n` sets of `ax` are in the table. */
  ghost predicate PlacedSoFar(dim: Dimensions, states: seq<seq<Action>>, ax: seq<AxSet>, n: nat,
                              placed: seq<Placement>, tkn: seq<int>, nt: seq<int>)
    requires |tkn| == |nt| == |states| && n <= |ax| && forall i :: 0 <= i < |ax| ==> ax[i].stp < |states|
  {
    && |placed| == n
    && (forall i :: 0 <= i < n ==>
          && placed[i].entries == SetOf(dim, states, ax[i].stp, ax[i].isTkn)
          && placed[i].off == (if ax[i].isTkn then tkn[ax[i].stp] else nt[ax[i].stp]))
    && (forall i :: n <= i < |ax| ==> (if ax[i].isTkn then tkn[ax[i].stp] else nt[ax[i].stp]) == NO_OFFSET)
  }

  /** All offsets in use lie between `mn` and `mx`, which include 0. */
  ghost predicate Between(mn: int, ofst: seq<int>, mx: int) {
    mn <= 0 <= mx && forall s :: 0 <= s < |ofst| ==> ofst[s] == NO_OFFSET || mn <= ofst[s] <= mx
  }

  method InsertSetOf(p: Acttab, dim: Dimensions, states: seq<seq<Action>>, stp: nat, isTkn: bool) returns (ofst: int)
    requires p.Valid() && p.aLookahead == [] && AllEmittable(dim, states) && stp < |states|
    requires SetOf(dim, states, stp, isTkn) != []
    modifies p
    ensures p.Valid() && p.aLookahead == []
    ensures p.placed == old(p.placed) + [Placement(ofst, SetOf(dim, states, stp, isTkn))]
    ensures 0 < ofst + dim.nsymbol && ofst <= p.nAction && old(p.nAction) <= p.nAction <= old(p.nAction) + dim.nsymbol
  {
    if isTkn {
      ofst := InsertSet(p, dim, states[stp], 0, dim.nterminal);
    } else {
      ofst := InsertSet(p, dim, states[stp], dim.nterminal, dim.nsymbol);
    }
  }

  /** The smallest and largest offsets so far, within what the table allows. */
  ghost predicate Ranged(dim: Dimensions, mn: int, ofst: seq<int>, mx: int, nAction: nat) {
    Between(mn, ofst, mx) && 0 < mn + dim.nsymbol && mx <= nAction
  }

  /** The state of the placement loop: offsets of both kinds with their ranges. */
  datatype Offsets = Offsets(tkn: seq<int>, mnTkn: int, mxTkn: int, nt: seq<int>, mnNt: int, mxNt: int)

  ghost predicate Progress(dim: Dimensions, states: seq<seq<Action>>, ax: seq<AxSet>, n: nat, placed: seq<Placement>, nAction: nat, o: Offsets)
    requires forall i :: 0 <= i < |ax| ==> ax[i].stp < |states|
  {
    && n <= |ax| && |o.tkn| == |o.nt| == |states| && PlacedSoFar(dim, states, ax, n, placed, o.tkn, o.nt)
    && Ranged(dim, o.mnTkn, o.tkn, o.mxTkn, nAction) && Ranged(dim, o.mnNt, o.nt, o.mxNt, nAction)
    && nAction <= Room(n, dim.nsymbol)
  }

  /** What the rest of ReportTable needs of the placement. */
  ghost predicate AllPlaced(dim: Dimensions, states: seq<seq<Action>>, ax: seq<AxSet>, placed: seq<Placement>, nAction: nat, o: Offsets)
    requires forall i :: 0 <= i < |ax| ==> ax[i].stp < |states|
  {
    exists n: nat :: Progress(dim, states, ax, n, placed, nAction, o) && forall i :: n <= i < |ax| ==> ax[i].nAction == 0
  }

  /** The placement loop of ReportTable; it stops at the first empty set. */
  method PlaceAll(p: Acttab, dim: Dimensions, states: seq<seq<Action>>, ax: seq<AxSet>) returns (o: Offsets)
    requires p.Valid() && p.aLookahead == [] && p.placed == [] && p.nAction == 0 && AllEmittable(dim, states)
    requires AxListed(dim, states, ax)
    modifies p
    ensures p.Valid() && AllPlaced(dim, states, ax, p.placed, p.nAction, o)
  {
    var none := seq(|states|, _ => NO_OFFSET);
    o := Offsets(none, 0, 0, none, 0, 0);
    NothingPlaced(dim, states, ax, none);
    var i: nat := 0;
    while i < |ax| && ax[i].nAction > 0
      invariant i <= |ax| && p.Valid() && p.aLookahead == [] && Progress(dim, states, ax, i, p.placed, p.nAction, o)
    {
      o := PlaceOne(p, dim, states, ax, i, o);
      i := i + 1;
    }
    EmptySetsLast(ax, i);
  }

  /** Room for `i` sets of up to `n` slots. */
  function Room(i: nat, n: nat): nat {
    if i == 0 then 0 else Room(i - 1, n) + n
  }

  lemma {:induction false} RoomIsProduct(i: nat, n: nat)
    ensures Room(i, n) == i * n
  {
    if i > 0 {
      RoomIsProduct(i - 1, n);
      assert i * n == (i - 1) * n + n;
    }
  }

  lemma {:induction false} RoomGrows(i: nat, j: nat, n: nat)
    requires i <= j
    ensures Room(i, n) <= Room(j, n)
  {
    if i < j {
      RoomGrows(i, j - 1, n);
    }
  }

  lemma NothingPlaced(dim: Dimensions, states: seq<seq<Action>>, ax: seq<AxSet>, ofst: seq<int>)
    requires dim.Valid() && AxListed(dim, states, ax) && ofst == seq(|states|, _ => NO_OFFSET)
    ensures Progress(dim, states, ax, 0, [], 0, Offsets(ofst, 0, 0, ofst, 0, 0))
  {
  }

  /** Behind the first empty set all sets are empty. */
  lemma EmptySetsLast(ax: seq<AxSet>, i: nat)
    requires SortedAxSets(ax) && i <= |ax| && (i < |ax| ==> ax[i].nAction == 0)
    ensures forall k :: i <= k < |ax| ==> ax[k].nAction == 0
  {
  }

  /** One round of the placement loop. */
  method PlaceOne(p: Acttab, dim: Dimensions, states: seq<seq<Action>>, ax: seq<AxSet>, i: nat, o: Offsets) returns (o': Offsets)
    requires p.Valid() && p.aLookahead == [] && AllEmittable(dim, states)
    requires AxListed(dim, states, ax) && i < |ax| && ax[i].nAction > 0
    requires Progress(dim, states, ax, i, p.placed, p.nAction, o)
    modifies p
    ensures p.Valid() && p.aLookahead == [] && Progress(dim, states, ax, i + 1, p.placed, p.nAction, o')
  {
    var stp, isTkn := ax[i].stp, ax[i].isTkn;
    ghost var placed := p.placed;
    var ofst := InsertSetOf(p, dim, states, stp, isTkn);
    PlacedStep(dim, states, ax, i, placed, o.tkn, o.nt, ofst);
    o' := o;
    if isTkn {
      var tkn, mn, mx := NoteOffset(dim, o.tkn, o.mnTkn, o.mxTkn, stp, ofst, p.nAction);
      o' := o.(tkn := tkn, mnTkn := mn, mxTkn := mx);
    } else {
      var nt, mn, mx := NoteOffset(dim, o.nt, o.mnNt, o.mxNt, stp, ofst, p.nAction);
      o' := o.(nt := nt, mnNt := mn, mxNt := mx);
    }
  }

  /** Record an offset and widen the range of offsets. */
  method NoteOffset(dim: Dimensions, ofst0: seq<int>, mn0: int, mx0: int, stp: nat, off: int, ghost nAction: nat)
    returns (ofst: seq<int>, mn: int, mx: int)
    requires stp < |ofst0| && Ranged(dim, mn0, ofst0, mx0, nAction) && 0 < off + dim.nsymbol && off <= nAction
    ensures ofst == ofst0[stp := off] && Ranged(dim, mn, ofst, mx, nAction)
  {
    ofst := ofst0[stp := off];
    mn := if off < mn0 then off else mn0;
    mx := if off > mx0 then off else mx0;
  }

  lemma PlacedStep(dim: Dimensions, states: seq<seq<Action>>, ax: seq<AxSet>, i: nat,
                   placed: seq<Placement>, tkn: seq<int>, nt: seq<int>, ofst: int)
    requires i < |ax| && |tkn| == |nt| == |states| && AxListed(dim, states, ax)
    requires PlacedSoFar(dim, states, ax, i, placed, tkn, nt)
    ensures var s := ax[i].stp;
            PlacedSoFar(dim, states, ax, i + 1,
                        placed + [Placement(ofst, SetOf(dim, states, s, ax[i].isTkn))],
                        if ax[i].isTkn then tkn[s := ofst] else tkn,
                        if ax[i].isTkn then nt else nt[s := ofst])
  {
    forall k | 0 <= k < |ax| && k != i ensures ax[k].stp != ax[i].stp || ax[k].isTkn != ax[i].isTkn {
      assert ax[k] != ax[i];
    }
  }

  /** After the loop every set of every state is placed, or empty and without an offset. */
  lemma AllSetsPlaced(dim: Dimensions, states: seq<seq<Action>>, ax: seq<AxSet>, n: nat,
                      table: seq<Slot>, placed: seq<Placement>, tkn: seq<int>, nt: seq<int>, s: nat, k: bool)
    requires AllEmittable(dim, states) && AxSetsOf(dim, states, ax) && |tkn| == |nt| == |states| && n <= |ax| && s < |states|
    requires PlacedSoFar(dim, states, ax, n, placed, tkn, nt) && AllExact(table, placed)
    requires forall i :: n <= i < |ax| ==> ax[i].nAction == 0
    ensures Placed(table, if k then tkn[s] else nt[s], SetOf(dim, states, s, k))
  {
    var es := SetOf(dim, states, s, k);
    assert AxSet(s, k, |es|) in ax;
    var i :| 0 <= i < |ax| && ax[i] == AxSet(s, k, |es|);
    if i < n {
      assert placed[i].entries == es && es != [];
      var lo, hi := if k then 0 else dim.nterminal, if k then dim.nterminal else dim.nsymbol;
      EntriesBounded(dim, states[s], lo, hi);
      assert Lookup(table, placed[i].off, es[0].lookahead).Some?;
    }
  }

  /** Slots come only from the sets, so they hold symbols and action numbers. */
  lemma TableIsPrintable(dim: Dimensions, states: seq<seq<Action>>, ax: seq<AxSet>, n: nat,
                         table: seq<Slot>, placed: seq<Placement>, tkn: seq<int>, nt: seq<int>)
    requires AllEmittable(dim, states) && AxListed(dim, states, ax) && |tkn| == |nt| == |states| && n <= |ax|
    requires PlacedSoFar(dim, states, ax, n, placed, tkn, nt) && OnlyPlaced(table, placed)
    ensures Printable(dim, table)
  {
    forall k | 0 <= k < |table| && table[k].lookahead >= 0
      ensures table[k].lookahead < dim.nsymbol && 0 <= table[k].action <= dim.nstate + dim.nrule + 1
    {
      var i :| 0 <= i < |placed| && table[k] in placed[i].entries;
      var s, t := ax[i].stp, ax[i].isTkn;
      EntriesBounded(dim, states[s], if t then 0 else dim.nterminal, if t then dim.nterminal else dim.nsymbol);
    }
  }

  /** The emitted offset table, in the C type chosen for its range: the sentinel replaces NO_OFFSET. */
  function EmitOffsets(ofst: seq<int>, mn: int, mx: int): seq<int>
    requires -0x8000_0000 < mn <= 0 <= mx <= 0x7FFF_FFFF
  {
    seq(|ofst|, i requires 0 <= i < |ofst| =>
      MinimumSizeType(mn - 1, mx).Wrap(if ofst[i] == NO_OFFSET then mn - 1 else ofst[i]))
  }

  /** No offset is cut by the type of the table. */
  lemma OffsetsKept(ofst: seq<int>, mn: int, mx: int, s: nat)
    requires -0x8000_0000 < mn && mx <= 0x7FFF_FFFF && Between(mn, ofst, mx) && s < |ofst|
    ensures EmitOffsets(ofst, mn, mx)[s] == if ofst[s] == NO_OFFSET then mn - 1 else ofst[s]
  {
  }

  /** The emitted default table, in the type of action numbers. */
  function EmitDefaults(dim: Dimensions, iDflt: seq<nat>): seq<nat>
    requires dim.Valid()
  {
    seq(|iDflt|, i requires 0 <= i < |iDflt| => MinimumSizeType(0, dim.nstate + dim.nrule + 5).Wrap(iDflt[i]))
  }

  lemma DefaultsKept(dim: Dimensions, ap: seq<Action>, iDflt: seq<nat>, s: nat)
    requires dim.Valid() && Emittable(dim, ap) && s < |iDflt| && iDflt[s] == DefaultCode(dim, ap)
    ensures EmitDefaults(dim, iDflt)[s] == iDflt[s]
  {
    LiveOnFrom(ap, dim.nsymbol);
  }

  /** The driver's offset test and table read give the live action of the set or the default. */
  lemma DriverLookup(dim: Dimensions, ap: seq<Action>, lo: nat, hi: nat, table: seq<Slot>, off: int, mn: int, la: nat)
    requires dim.Valid() && Deterministic(ap) && lo <= la < hi <= dim.nsymbol && Printable(dim, table)
    requires Placed(table, off, Entries(dim, ap, lo, hi)) && (off == NO_OFFSET || mn <= off)
    ensures var yyA, yyL := EmitAction(dim, table), EmitLookahead(dim, table);
            var i := if off == NO_OFFSET then mn - 1 else off;
            CodeOf(dim, Decide(ap, dim.nsymbol, la)) ==
            if i == mn - 1 then DefaultCode(dim, ap)
            else if i + la < 0 || i + la >= |yyA| || yyL[i + la] != la then DefaultCode(dim, ap)
            else yyA[i + la]
  {
    if off == NO_OFFSET {
      if LiveOn(ap, la) != [] {
        EntriesHave(dim, ap, lo, hi, la);
      }
    } else {
      PlacedLookup(dim, ap, lo, hi, table, off, la);
      EmittedLookup(dim, table, off, la);
    }
  }

  /** Main result: for every state and symbol the generated parser finds the state's live action, or
      its default; there is no table only when its size exceeds a C integer, and then the bound on it does. */
  method ReportTable(dim: Dimensions, states: seq<seq<Action>>) returns (t: Option<Tables>)
    requires AllEmittable(dim, states) && 2 * dim.nstate < 0x4000_0000
    ensures t.Some? ==> t.value.dim == dim && Emitted(states, t.value)
    ensures t.None? ==> 2 * |states| * dim.nsymbol > 0x7FFF_FFFF
  {
    var raw, iDflt := CollectAxSets(dim, states);
    var ax := MergeSort.Sort(AxCmp, raw);
    assert MergeSort.TotalPreorder(AxCmp);
    SortedIsAxSetsOf(dim, states, raw, ax);
    assert |multiset(ax)| == |multiset(raw)|;
    var p := new Acttab();
    var o := PlaceAll(p, dim, states, ax);
    ghost var n: nat :| Progress(dim, states, ax, n, p.placed, p.nAction, o) && forall i :: n <= i < |ax| ==> ax[i].nAction == 0;
    RoomGrows(n, |ax|, dim.nsymbol);
    RoomIsProduct(|ax|, dim.nsymbol);
    if p.nAction > 0x7FFF_FFFF { return None; }
    var table := p.aAction[..p.nAction];
    TrimKeepsExact(p.aAction, p.nAction, p.placed);
    TableIsPrintable(dim, states, ax, n, table, p.placed, o.tkn, o.nt);
    forall s, k: bool | 0 <= s < |states|
      ensures Placed(table, if k then o.tkn[s] else o.nt[s], SetOf(dim, states, s, k))
    {
      AllSetsPlaced(dim, states, ax, n, table, p.placed, o.tkn, o.nt, s, k);
    }
    EmittedCorrectly(dim, states, table, o, iDflt);
    t := Some(EmitAll(dim, table, o, iDflt));
  }

  /** The offsets and their ranges fit a C integer. */
  ghost predicate IntRange(o: Offsets) {
    -0x8000_0000 < o.mnTkn <= 0 <= o.mxTkn <= 0x7FFF_FFFF && -0x8000_0000 < o.mnNt <= 0 <= o.mxNt <= 0x7FFF_FFFF
  }

  /** All tables as they are printed. */
  function EmitAll(dim: Dimensions, table: seq<Slot>, o: Offsets, iDflt: seq<nat>): Tables
    requires dim.Valid() && IntRange(o)
  {
    Tables(dim, EmitAction(dim, table), EmitLookahead(dim, table),
           EmitOffsets(o.tkn, o.mnTkn, o.mxTkn), o.mnTkn - 1, EmitOffsets(o.nt, o.mnNt, o.mxNt), o.mnNt - 1, EmitDefaults(dim, iDflt))
  }

  lemma TrimKeepsExact(table: seq<Slot>, n: nat, placed: seq<Placement>)
    requires n <= |table| && AllExact(table, placed) && OnlyPlaced(table, placed)
    requires forall k :: n <= k < |table| ==> table[k].lookahead < 0
    ensures AllExact(table[..n], placed) && OnlyPlaced(table[..n], placed)
  {
    forall off, la | 0 <= la ensures Lookup(table[..n], off, la) == Lookup(table, off, la) {
      TrimKeepsLookups(table, n, off, la);
    }
  }

  lemma EmittedCorrectly(dim: Dimensions, states: seq<seq<Action>>, table: seq<Slot>, o: Offsets, iDflt: seq<nat>)
    requires AllEmittable(dim, states) && Printable(dim, table) && |o.tkn| == |o.nt| == |iDflt| == |states|
    requires IntRange(o) && Between(o.mnTkn, o.tkn, o.mxTkn) && Between(o.mnNt, o.nt, o.mxNt)
    requires forall s, k: bool :: 0 <= s < |states| ==> Placed(table, if k then o.tkn[s] else o.nt[s], SetOf(dim, states, s, k))
    requires forall s :: 0 <= s < |states| ==> iDflt[s] == DefaultCode(dim, states[s])
    ensures Emitted(states, EmitAll(dim, table, o, iDflt))
  {
    var t := EmitAll(dim, table, o, iDflt);
    forall s, x: nat | 0 <= s < |states| && x < dim.nterminal
      ensures t.FindShiftAction(s, x) == CodeOf(dim, Decide(states[s], dim.nsymbol, x))
    {
      assert Placed(table, o.tkn[s], SetOf(dim, states, s, true));
      DriverLookup(dim, states[s], 0, dim.nterminal, table, o.tkn[s], o.mnTkn, x);
      OffsetsKept(o.tkn, o.mnTkn, o.mxTkn, s);
      DefaultsKept(dim, states[s], iDflt, s);
    }
    forall s, x: nat | 0 <= s < |states| && dim.nterminal <= x < dim.nsymbol
      ensures t.FindReduceAction(s, x) == CodeOf(dim, Decide(states[s], dim.nsymbol, x))
    {
      assert Placed(table, o.nt[s], SetOf(dim, states, s, false));
      DriverLookup(dim, states[s], dim.nterminal, dim.nsymbol, table, o.nt[s], o.mnNt, x);
      OffsetsKept(o.nt, o.mnNt, o.mxNt, s);
      DefaultsKept(dim, states[s], iDflt, s);
    }
  }
}
