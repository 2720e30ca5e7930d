/**
 The tables that LEMON emits for a parser (`ReportTable`) and the two functions of the
 generated parser that read them (`yy_find_shift_action`, `yy_find_reduce_action`).
 */
module Tables {
  import opened Wrappers
  import opened Actions
  import opened Compression
  import opened ActionTable

  const NO_OFFSET := -2147483647

  // ---------------------------------------------------------------- minimum_size_type

  /** An integer type of the generated C code, given by its range. */
  datatype CType = CType(lo: int, hi: int) {
    /** Conversion of an integer to this type. */
    function Wrap(v: int): int
      requires lo <= hi
    {
      lo + (v - lo) % (hi - lo + 1)
    }
  }

  /** minimum_size_type: the type chosen for values from lwr to upr can hold all of them. */
  function MinimumSizeType(lwr: int, upr: int): (t: CType)
    requires -0x8000_0000 <= lwr <= upr <= 0x7FFF_FFFF
    ensures t.lo <= lwr && upr <= t.hi && (lwr >= 0 ==> t.lo == 0)
    ensures forall v :: lwr <= v <= upr ==> t.Wrap(v) == v
  {
    if lwr >= 0 then
      if upr <= 255 then CType(0, 255)
      else if upr < 65535 then CType(0, 65535)
      else CType(0, 0xFFFF_FFFF)
    else if lwr >= -127 && upr <= 127 then CType(-128, 127)
    else if lwr >= -32767 && upr < 32767 then CType(-32768, 32767)
    else CType(-0x8000_0000, 0x7FFF_FFFF)
  }

  /** The types of one, two and four bytes, without sign for ranges that are not negative. */
  function SizedType(bytes: nat, lwr: int): CType {
    if lwr >= 0 then if bytes == 1 then CType(0, 255) else if bytes == 2 then CType(0, 65535) else CType(0, 0xFFFF_FFFF)
    else if bytes == 1 then CType(-128, 127) else if bytes == 2 then CType(-32768, 32767) else CType(-0x8000_0000, 0x7FFF_FFFF)
  }

  /** The type is the smallest that holds the range exactly when the range does not end at a limit that the tests leave out. */
  lemma SmallestTypeIff(lwr: int, upr: int)
    requires -0x8000_0000 <= lwr <= upr <= 0x7FFF_FFFF
    ensures exists n :: n in {1, 2, 4} && MinimumSizeType(lwr, upr) == SizedType(n, lwr)
    ensures (forall n, t :: n in {1, 2, 4} && t == SizedType(n, lwr) && t.lo <= lwr && upr <= t.hi ==> MinimumSizeType(lwr, upr).hi <= t.hi) <==>
            !(lwr >= 0 && upr == 65535) && !(lwr == -128 && upr <= 127)
            && !(lwr == -32768 && upr <= 32767) && !(-32768 <= lwr < 0 && upr == 32767)
  {
    var t := MinimumSizeType(lwr, upr);
    assert t == SizedType(1, lwr) || t == SizedType(2, lwr) || t == SizedType(4, lwr);
    assert SizedType(1, lwr).hi < SizedType(2, lwr).hi < SizedType(4, lwr).hi;
  }

  // ---------------------------------------------------------------- what the generated parser reads

  datatype Dimensions = Dimensions(nstate: nat, nrule: nat, nterminal: nat, nsymbol: nat) {
    predicate Valid() {
      0 < nterminal <= nsymbol && nsymbol + nstate + nrule + 5 <= 0x7FFF_FFFE
    }
    function NoCode(): nat { nsymbol + 1 }           // YYNOCODE
    function ErrorAction(): nat { nstate + nrule }   // YY_ERROR_ACTION
    function AcceptAction(): nat { nstate + nrule + 1 }
    function NoAction(): nat { nstate + nrule + 2 }
  }

  datatype Tables = Tables(dim: Dimensions,
                           yyAction: seq<nat>, yyLookahead: seq<int>,
                           shiftOfst: seq<int>, shiftUseDflt: int,
                           reduceOfst: seq<int>, reduceUseDflt: int,
                           yyDefault: seq<nat>)
  {
    predicate Valid() {
      && dim.Valid() && |yyAction| == |yyLookahead|
      && |shiftOfst| == |reduceOfst| == |yyDefault| == dim.nstate
    }

    /** yy_find_shift_action, without %fallback tokens. */
    function FindShiftAction(stateno: nat, la: int): nat
      requires Valid() && stateno < dim.nstate
    {
      var i := shiftOfst[stateno];
      if i == shiftUseDflt then yyDefault[stateno]
      else if la == dim.NoCode() then dim.NoAction()
      else if i + la < 0 || i + la >= |yyAction| || yyLookahead[i + la] != la then yyDefault[stateno]
      else yyAction[i + la]
    }

    /** yy_find_reduce_action. */
    function FindReduceAction(stateno: nat, la: int): nat
      requires Valid() && stateno < dim.nstate
    {
      var i := reduceOfst[stateno];
      if i == reduceUseDflt then yyDefault[stateno]
      else if la == dim.NoCode() then dim.NoAction()
      else if i + la < 0 || i + la >= |yyAction| || yyLookahead[i + la] != la then yyDefault[stateno]
      else yyAction[i + la]
    }
  }

  // ---------------------------------------------------------------- actions as numbers

  /** compute_action for a live action; other kinds produce no table entry. */
  function Code(dim: Dimensions, a: Action): int {
    match a.kind
    case SHIFT => a.arg
    case REDUCE => a.arg + dim.nstate
    case ERROR => dim.nstate + dim.nrule
    case ACCEPT => dim.nstate + dim.nrule + 1
    case _ => -1
  }

  /** The number that stands for a decision; without one the parser reports a syntax error. */
  function CodeOf(dim: Dimensions, d: Option<Action>): int {
    if d.Some? then Code(dim, d.value) else dim.ErrorAction()
  }

  /** An action list that is ready to be emitted. */
  ghost predicate Emittable(dim: Dimensions, ap: seq<Action>) {
    && Deterministic(ap)
    && (forall a :: a in ap ==>
          && a.kind != ERROR && a.sp <= dim.nsymbol
          && (a.kind == SHIFT ==> a.arg < dim.nstate)
          && (a.kind == REDUCE ==> a.arg < dim.nrule))
  }

  // ---------------------------------------------------------------- transaction sets

  /** The (lookahead, action) pairs of the live actions on symbols in [lo, hi). */
  function Entries(dim: Dimensions, ap: seq<Action>, lo: nat, hi: nat): seq<Slot> {
    if ap == [] then []
    else if lo <= ap[0].sp < hi && ap[0].Live() then
      [Slot(ap[0].sp, Code(dim, ap[0]))] + Entries(dim, ap[1..], lo, hi)
    else Entries(dim, ap[1..], lo, hi)
  }

  lemma {:induction false} EntriesLack(dim: Dimensions, ap: seq<Action>, lo: nat, hi: nat, la: nat)
    requires LiveOn(ap, la) == [] || !(lo <= la < hi)
    ensures Lacks(Entries(dim, ap, lo, hi), la)
  {
    if ap != [] {
      EntriesLack(dim, ap[1..], lo, hi, la);
    }
  }

  lemma {:induction false} EntriesHave(dim: Dimensions, ap: seq<Action>, lo: nat, hi: nat, la: nat)
    requires lo <= la < hi && LiveOn(ap, la) != []
    ensures Slot(la, Code(dim, LiveOn(ap, la)[0])) in Entries(dim, ap, lo, hi)
  {
    if !(ap[0].sp == la && ap[0].Live()) {
      EntriesHave(dim, ap[1..], lo, hi, la);
    }
  }

  lemma {:induction false} EntriesDistinct(dim: Dimensions, ap: seq<Action>, lo: nat, hi: nat)
    requires Deterministic(ap)
    ensures Distinct(Entries(dim, ap, lo, hi)) && NonNegative(Entries(dim, ap, lo, hi))
  {
    if ap != [] {
      forall s ensures |LiveOn(ap[1..], s)| <= 1 {
        assert |LiveOn(ap, s)| <= 1;
      }
      EntriesDistinct(dim, ap[1..], lo, hi);
      if lo <= ap[0].sp < hi && ap[0].Live() {
        assert |LiveOn(ap, ap[0].sp)| <= 1;
        EntriesLack(dim, ap[1..], lo, hi, ap[0].sp);
      }
    }
  }

  lemma {:induction false} EntriesBounded(dim: Dimensions, ap: seq<Action>, lo: nat, hi: nat)
    requires forall a :: a in ap ==> a.kind != ERROR && (a.kind == SHIFT ==> a.arg < dim.nstate) && (a.kind == REDUCE ==> a.arg < dim.nrule)
    ensures forall i :: 0 <= i < |Entries(dim, ap, lo, hi)| ==>
              lo <= Entries(dim, ap, lo, hi)[i].lookahead < hi &&
              0 <= Entries(dim, ap, lo, hi)[i].action <= dim.nstate + dim.nrule + 1
  {
    if ap != [] {
      assert ap[0] in ap;
      EntriesBounded(dim, ap[1..], lo, hi);
    }
  }

  // ---------------------------------------------------------------- lookup through emitted tables

  /** The two arrays written for the packed table, with the C conversions applied. */
  function EmitAction(dim: Dimensions, table: seq<Slot>): seq<nat>
    requires dim.Valid()
  {
    seq(|table|, i requires 0 <= i < |table| =>
      MinimumSizeType(0, dim.nstate + dim.nrule + 5).Wrap(
        if table[i].action < 0 then dim.nsymbol + dim.nrule + 2 else table[i].action))
  }

  function EmitLookahead(dim: Dimensions, table: seq<Slot>): seq<int>
    requires dim.Valid()
  {
    seq(|table|, i requires 0 <= i < |table| =>
      MinimumSizeType(0, dim.nsymbol + 5).Wrap(
        if table[i].lookahead < 0 then dim.nsymbol else table[i].lookahead))
  }

  /** Slots hold either nothing or a symbol below nsymbol and an action number. */
  ghost predicate Printable(dim: Dimensions, table: seq<Slot>) {
    forall i :: 0 <= i < |table| ==>
      table[i].lookahead < dim.nsymbol &&
      (table[i].lookahead >= 0 ==> 0 <= table[i].action <= dim.nstate + dim.nrule + 1)
  }

  /** Reading the emitted arrays is reading the packed table: the value written for an
      empty slot never matches a symbol, and no value in use is cut by its C type. */
  lemma EmittedLookup(dim: Dimensions, table: seq<Slot>, off: int, la: nat)
    requires dim.Valid() && Printable(dim, table) && la < dim.nsymbol
    ensures var yyA, yyL := EmitAction(dim, table), EmitLookahead(dim, table);
            if off + la < 0 || off + la >= |yyA| || yyL[off + la] != la
            then Lookup(table, off, la) == None
            else Lookup(table, off, la) == Some(yyA[off + la])
  {
    if 0 <= off + la < |table| {
      var e := table[off + la];
      assert EmitLookahead(dim, table)[off + la] ==
             (if e.lookahead < 0 then dim.nsymbol else e.lookahead);
      if e.lookahead == la {
        assert EmitAction(dim, table)[off + la] == e.action;
      }
    }
  }

  /** An empty slot is printed with a number that is no symbol. */
  lemma EmptySlots(dim: Dimensions, table: seq<Slot>, i: nat)
    requires dim.Valid() && i < |table| && table[i].lookahead < 0
    ensures EmitLookahead(dim, table)[i] == dim.nsymbol
  {
  }

  /** One of the two action sets of a state. */
  datatype AxSet = AxSet(stp: nat, isTkn: bool, nAction: nat)

  ghost predicate SortedAxSets(ax: seq<AxSet>) {
    forall i, j :: 0 <= i < j < |ax| ==> ax[i].nAction >= ax[j].nAction
  }

  function SetOf(dim: Dimensions, states: seq<seq<Action>>, stp: nat, isTkn: bool): seq<Slot>
    requires stp < |states|
  {
    if isTkn then Entries(dim, states[stp], 0, dim.nterminal)
    else Entries(dim, states[stp], dim.nterminal, dim.nsymbol)
  }

  /** `ax` lists sets of states with their sizes, none twice, largest first. */
  ghost predicate AxListed(dim: Dimensions, states: seq<seq<Action>>, ax: seq<AxSet>) {
    && SortedAxSets(ax) && NoDuplicates(ax)
    && (forall i :: 0 <= i < |ax| ==>
          ax[i].stp < |states| && ax[i].nAction == |SetOf(dim, states, ax[i].stp, ax[i].isTkn)|)
  }

  /** `ax` lists both sets of every state once, with their sizes, largest first. */
  ghost predicate AxSetsOf(dim: Dimensions, states: seq<seq<Action>>, ax: seq<AxSet>) {
    && AxListed(dim, states, ax)
    && (forall s, k: bool :: 0 <= s < |states| ==> AxSet(s, k, |SetOf(dim, states, s, k)|) in ax)
  }

  /** The offset recorded for a set: NO_OFFSET for an empty one, else a place where it reads back exactly. */
  ghost predicate Placed(table: seq<Slot>, off: int, entries: seq<Slot>) {
    if entries == [] then off == NO_OFFSET else off != NO_OFFSET && Exact(table, off, entries)
  }

  /** The driver's view of one set: own action, or nothing. */
  lemma PlacedLookup(dim: Dimensions, ap: seq<Action>, lo: nat, hi: nat, table: seq<Slot>, off: int, la: nat)
    requires Deterministic(ap) && lo <= la < hi && off != NO_OFFSET
    requires Placed(table, off, Entries(dim, ap, lo, hi))
    ensures Lookup(table, off, la) ==
            if LiveOn(ap, la) != [] then Some(Code(dim, LiveOn(ap, la)[0])) else None
  {
    var es := Entries(dim, ap, lo, hi);
    if LiveOn(ap, la) != [] {
      EntriesHave(dim, ap, lo, hi, la);
      var i :| 0 <= i < |es| && es[i] == Slot(la, Code(dim, LiveOn(ap, la)[0]));
    } else {
      EntriesLack(dim, ap, lo, hi, la);
    }
  }

  /** The relation between the action lists and the emitted tables. */
  ghost predicate Emitted(states: seq<seq<Action>>, t: Tables) {
    && t.Valid() && |states| == t.dim.nstate
    && (forall s, x: nat :: 0 <= s < |states| && x < t.dim.nterminal ==>
          t.FindShiftAction(s, x) == CodeOf(t.dim, Decide(states[s], t.dim.nsymbol, x)))
    && (forall s, x: nat :: 0 <= s < |states| && t.dim.nterminal <= x < t.dim.nsymbol ==>
          t.FindReduceAction(s, x) == CodeOf(t.dim, Decide(states[s], t.dim.nsymbol, x)))
  }
}
