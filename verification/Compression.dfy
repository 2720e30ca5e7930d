/**
 From the raw actions of one state to the list that goes into the tables: sorting,
 conflict resolution, and the default reduction introduced by `CompressTables`.
 */
module Compression {
  import opened Wrappers
  import opened Grammars
  import opened Actions
  import MergeSort

  // ---------------------------------------------------------------- actioncmp and Action_sort

  function Rank(k: Kind): int {
    match k
    case SHIFT => 0
    case ACCEPT => 1
    case REDUCE => 2
    case ERROR => 3
    case CONFLICT => 4
    case SH_RESOLVED => 5
    case RD_RESOLVED => 6
    case NOT_USED => 7
  }

  /** actioncmp: by symbol, then kind, then rule. */
  function ActionCmp(a: Action, b: Action): int {
    if a.sp != b.sp then a.sp - b.sp
    else if a.kind != b.kind then Rank(a.kind) - Rank(b.kind)
    else a.arg - b.arg
  }

  lemma ActionCmpOrders()
    ensures MergeSort.TotalPreorder(ActionCmp)
  {
    forall a, b, c | MergeSort.Le(ActionCmp, a, b) && MergeSort.Le(ActionCmp, b, c)
      ensures MergeSort.Le(ActionCmp, a, c)
    { }
  }

  /** What FindActions puts into one state: at most one shift per symbol, an accept on a
      symbol that is not shifted, and no reduce twice. */
  ghost predicate WellPosed(raw: seq<Action>) {
    && NoDuplicates(raw)
    && (forall a :: a in raw ==> a.Live())
    && (forall a, b :: a in raw && b in raw && a != b && a.sp == b.sp ==>
          a.kind != ACCEPT && !(a.kind == SHIFT && b.kind == SHIFT))
  }

  /** Sorting brings a well-posed list into the shape conflict resolution relies on. */
  lemma SortedIsAdmissible(raw: seq<Action>, list: seq<Action>)
    requires WellPosed(raw) && multiset(raw) == multiset(list) && MergeSort.Sorted(ActionCmp, list)
    ensures Grouped(list) && Admissible(list)
  {
    PermutedNoDuplicates(raw, list);
    PermutedMembers(raw, list);
    forall i, j | 0 <= i < j < |list|
      ensures list[i].sp <= list[j].sp && (list[i].sp == list[j].sp ==> Comparable(list[i], list[j]))
    {
      assert MergeSort.Le(ActionCmp, list[i], list[j]);
      assert list[i] in raw && list[j] in raw;
    }
  }

  /** The assertion in actioncmp: two actions with the same symbol and kind are reduces, live or not. */
  ghost predicate AssertionSafe(list: seq<Action>) {
    forall i, j :: 0 <= i < j < |list| && list[i].sp == list[j].sp && list[i].kind == list[j].kind ==> ReduceLike(list[i].kind)
  }

  predicate ReduceLike(k: Kind) { k == REDUCE || k == RD_RESOLVED || k == CONFLICT }

  /** It holds when the actions of a state are sorted for the first time. */
  lemma ComparisonAssertionHolds(list: seq<Action>)
    requires WellPosed(list)
    ensures AssertionSafe(list)
  {
    forall i, j | 0 <= i < j < |list| && list[i].sp == list[j].sp && list[i].kind == list[j].kind ensures ReduceLike(list[i].kind) {
      assert list[i] in list && list[j] in list && list[i] != list[j];
      assert list[i].Live();
    }
  }

  /** Resolution keeps it. */
  lemma EvolvedIsSafe(list: seq<Action>, ap: seq<Action>)
    requires WellPosed(list) && Evolved(list, ap)
    ensures AssertionSafe(ap) && forall i :: 0 <= i < |ap| ==> ap[i].kind != NOT_USED && ap[i].kind != ERROR
  {
    forall i | 0 <= i < |ap| ensures ap[i].kind != NOT_USED && ap[i].kind != ERROR {
      assert Evolve(list[i], ap[i]) && list[i] in list;
    }
    forall i, j | 0 <= i < j < |ap| && ap[i].sp == ap[j].sp && ap[i].kind == ap[j].kind ensures ReduceLike(ap[i].kind) {
      assert Evolve(list[i], ap[i]) && Evolve(list[j], ap[j]);
      assert list[i] in list && list[j] in list && list[i] != list[j];
    }
  }

  /** At most one live action per symbol. */
  ghost predicate Deterministic(ap: seq<Action>) {
    forall s :: |LiveOn(ap, s)| <= 1
  }

  lemma {:induction false} LiveOnMember(list: seq<Action>, a: Action)
    requires a in list && a.Live()
    ensures a in LiveOn(list, a.sp)
  {
    if list[0] == a {
    } else {
      assert a in list[1..];
      LiveOnMember(list[1..], a);
    }
  }

  /** The conflict loop of FindActions for one state. A state without any action fails the assertion
      at its start; otherwise no symbol loses its last action and none keeps two. */
  method SettleState(g: Grammar, raw: seq<Action>) returns (ok: bool, ap: seq<Action>, nconflict: nat)
    requires g.Valid() && WellPosed(raw) && |raw| < 0x4000_0000
    ensures ok <==> raw != []
    ensures ok ==> |ap| == |raw| && Settled(raw, ap) && Won(g, raw, ap) && AssertionSafe(ap) && Conflicts(ap) == nconflict
  {
    if raw == [] { return false, [], 0; }
    ComparisonAssertionHolds(raw);
    var list := MergeSort.Sort(ActionCmp, raw);
    ActionCmpOrders();
    SortedIsWellPosed(raw, list);
    ap, nconflict := ResolveAll(g, list);
    SettledProperties(g, raw, list);
    WonByChampions(g, raw, list);
    NoConflictsYet(list);
    assert |multiset(raw)| == |multiset(list)|;
    ok := true;
  }

  lemma SortedIsWellPosed(raw: seq<Action>, list: seq<Action>)
    requires WellPosed(raw) && SortOf(raw, list)
    ensures WellPosed(list) && Grouped(list) && Admissible(list) && forall a :: a in raw <==> a in list
  {
    SortedIsAdmissible(raw, list);
    PermutedMembers(raw, list);
    PermutedNoDuplicates(raw, list);
  }

  lemma WonByChampions(g: Grammar, raw: seq<Action>, list: seq<Action>)
    requires SortOf(raw, list) && Grouped(list) && Admissible(list)
    ensures Won(g, raw, ResolveList(g, list))
  {
    var ap := ResolveList(g, list);
    forall s: nat ensures LiveOn(ap, s) == Winners(g, list, s) {
      ResolveLeavesChampion(g, list, s);
    }
    assert WonIn(g, raw, ap, list);
  }

  lemma {:induction false} NoConflictsYet(list: seq<Action>)
    requires forall a :: a in list ==> a.Live()
    ensures Conflicts(list) == 0
  {
    if list != [] {
      assert list[0] in list;
      NoConflictsYet(list[1..]);
    }
  }

  lemma {:induction false} ResolveListEvolves(g: Grammar, list: seq<Action>)
    ensures Evolved(list, ResolveList(g, list))
    decreases |list|
  {
    if list != [] {
      var (x, rest) := Pass(g, list[0], list[1..]);
      PassEvolves(g, list[0], list[1..]);
      ResolveListEvolves(g, rest);
      var r := ResolveList(g, rest);
      forall i | 0 <= i < |list| ensures Evolve(list[i], ([x] + r)[i]) {
        if i > 0 {
          assert list[1..][i - 1] == list[i] && Evolve(list[1..][i - 1], rest[i - 1]) && Evolve(rest[i - 1], r[i - 1]);
        }
      }
    }
  }

  /** On every symbol one action survives if there was one, and it was there. */
  lemma OneSurvivor(g: Grammar, list: seq<Action>, s: nat)
    requires Grouped(list) && Admissible(list)
    ensures var r := LiveOn(ResolveList(g, list), s); |r| == (if LiveOn(list, s) == [] then 0 else 1) && forall a :: a in r ==> a in list
  {
    ResolveLeavesChampion(g, list, s);
    LiveOnFrom(list, s);
    if LiveOn(list, s) != [] {
      ChampionIn(g, LiveOn(list, s));
    }
  }

  lemma SettledProperties(g: Grammar, raw: seq<Action>, list: seq<Action>)
    requires WellPosed(list) && Grouped(list) && Admissible(list) && (forall a :: a in raw <==> a in list)
    ensures Settled(raw, ResolveList(g, list)) && AssertionSafe(ResolveList(g, list))
  {
    var ap := ResolveList(g, list);
    forall s ensures |LiveOn(ap, s)| <= 1 && forall a :: a in LiveOn(ap, s) ==> a in raw {
      OneSurvivor(g, list, s);
    }
    forall a | a in raw ensures |LiveOn(ap, a.sp)| == 1 {
      LiveOnMember(list, a);
      OneSurvivor(g, list, a.sp);
    }
    ResolveListEvolves(g, list);
    EvolvedIsSafe(list, ap);
    forall a | a in ap ensures a.kind != ERROR && a.kind != NOT_USED && exists b :: b in raw && b.sp == a.sp {
      var i :| 0 <= i < |ap| && ap[i] == a;
      assert Evolve(list[i], ap[i]) && list[i] in list;
    }
  }

  /** What conflict resolution leaves of the actions of a sorted list on symbol `s`. */
  function Winners(g: Grammar, list: seq<Action>, s: nat): seq<Action> {
    if LiveOn(list, s) == [] then [] else [Champion(g, LiveOn(list, s))]
  }

  /** The live actions of `ap` are the champions of the sorted list of raw actions. */
  ghost predicate Won(g: Grammar, raw: seq<Action>, ap: seq<Action>) {
    exists list :: WonIn(g, raw, ap, list)
  }

  ghost predicate WonIn(g: Grammar, raw: seq<Action>, ap: seq<Action>, list: seq<Action>) {
    && SortOf(raw, list)
    && forall s: nat :: LiveOn(ap, s) == Winners(g, list, s)
  }

  ghost predicate SortOf(raw: seq<Action>, list: seq<Action>) {
    MergeSort.Sorted(ActionCmp, list) && multiset(list) == multiset(raw)
  }

  /** The outcome of sorting and resolving: nobody loses the last action, live actions are original ones. */
  ghost predicate Settled(raw: seq<Action>, ap: seq<Action>) {
    && Deterministic(ap)
    && (forall a :: a in raw ==> |LiveOn(ap, a.sp)| == 1)
    && (forall s, a :: a in LiveOn(ap, s) ==> a in raw)
    && (forall a :: a in ap ==> a.kind != ERROR && a.kind != NOT_USED && exists b :: b in raw && b.sp == a.sp)
  }

  // ---------------------------------------------------------------- CompressTables

  /** How many live reduces by rule `r` the list holds. */
  function CountReduce(ap: seq<Action>, r: nat): nat {
    if ap == [] then 0 else (if ap[0].kind == REDUCE && ap[0].arg == r then 1 else 0) + CountReduce(ap[1..], r)
  }

  lemma {:induction false} CountConcat(s: seq<Action>, t: seq<Action>, r: nat)
    ensures CountReduce(s + t, r) == CountReduce(s, r) + CountReduce(t, r)
  {
    if s == [] {
      assert s + t == t;
    } else {
      assert (s + t)[1..] == s[1..] + t;
      CountConcat(s[1..], t, r);
    }
  }

  lemma CountSplit(ap: seq<Action>, i: nat, r: nat)
    requires i <= |ap|
    ensures CountReduce(ap, r) == CountReduce(ap[..i], r) + CountReduce(ap[i..], r)
  {
    assert ap == ap[..i] + ap[i..];
    CountConcat(ap[..i], ap[i..], r);
  }

  ghost predicate ReduceAt(ap: seq<Action>, i: nat, r: nat) {
    i < |ap| && ap[i].kind == REDUCE && ap[i].arg == r
  }

  ghost function ReducesOf(ap: seq<Action>, r: nat): set<nat> {
    set i: nat | i < |ap| && ReduceAt(ap, i, r)
  }

  /** The count is the number of places in the list. */
  lemma {:induction false} CountIsNumber(ap: seq<Action>, r: nat)
    ensures CountReduce(ap, r) == |ReducesOf(ap, r)|
    decreases |ap|
  {
    if ap != [] {
      var n := |ap| - 1;
      assert ap == ap[..n] + [ap[n]];
      CountConcat(ap[..n], [ap[n]], r);
      CountIsNumber(ap[..n], r);
      forall i: nat ensures i in ReducesOf(ap, r) <==> i in ReducesOf(ap[..n], r) || (i == n && ReduceAt(ap, n, r)) {
        assert i < n ==> ap[..n][i] == ap[i];
      }
      assert ReducesOf(ap, r) == ReducesOf(ap[..n], r) + (if ReduceAt(ap, n, r) then {n} else {});
      assert CountReduce([ap[n]], r) == if ReduceAt(ap, n, r) then 1 else 0;
    }
  }

  /** The reduce at `k` is the first by its rule, and every earlier rule has fewer. */
  ghost predicate FirstBest(ap: seq<Action>, k: nat, rbest: nat, nbest: nat) {
    && ReduceAt(ap, k, rbest) && nbest == CountReduce(ap, rbest)
    && forall i :: 0 <= i < k && ap[i].kind == REDUCE ==> CountReduce(ap, ap[i].arg) < nbest
  }

  /** The counting loops: the most frequent reduce of the state, the first of the list among equals. */
  method MostFrequent(ap: seq<Action>) returns (nbest: nat, rbest: nat)
    ensures nbest == CountReduce(ap, rbest) || (nbest == 0 && rbest == 0)
    ensures forall r :: CountReduce(ap, r) <= nbest
    ensures nbest > 0 ==> exists k :: FirstBest(ap, k, rbest, nbest)
  {
    nbest, rbest := 0, 0;
    ghost var k: nat := 0;
    for i := 0 to |ap|
      invariant nbest == 0 ==> rbest == 0
      invariant BestUpTo(ap, i, nbest, rbest, k)
    {
      if ap[i].kind == REDUCE && !(nbest > 0 && ap[i].arg == rbest) {
        var rp := ap[i].arg;
        var n := CountFrom(ap, i, rp, nbest > 0, rbest);
        CountRest(ap, i, rp, nbest);
        if n > nbest {
          nbest, rbest, k := n, rp, i;
        }
      }
    }
    BestOfAll(ap, nbest);
  }

  /** The best of the rules of the first `i` actions, found at `k`. */
  ghost predicate BestUpTo(ap: seq<Action>, i: nat, nbest: nat, rbest: nat, k: nat) {
    && (forall j :: 0 <= j < i && j < |ap| && ap[j].kind == REDUCE ==> CountReduce(ap, ap[j].arg) <= nbest)
    && (nbest > 0 ==> FirstBest(ap, k, rbest, nbest))
  }

  /** A rule that is new at `i` has all its reduces from there on; one with earlier reduces is not better than the best. */
  lemma CountRest(ap: seq<Action>, i: nat, rp: nat, nbest: nat)
    requires i <= |ap| && forall j :: 0 <= j < i && ap[j].kind == REDUCE ==> CountReduce(ap, ap[j].arg) <= nbest
    ensures CountReduce(ap[i..], rp) <= CountReduce(ap, rp)
    ensures CountReduce(ap[i..], rp) == CountReduce(ap, rp) || CountReduce(ap, rp) <= nbest
  {
    CountSplit(ap, i, rp);
    if CountReduce(ap[..i], rp) > 0 {
      var j := CountWitness(ap[..i], rp);
    }
  }

  lemma BestOfAll(ap: seq<Action>, nbest: nat)
    requires forall j :: 0 <= j < |ap| && ap[j].kind == REDUCE ==> CountReduce(ap, ap[j].arg) <= nbest
    ensures forall r :: CountReduce(ap, r) <= nbest
  {
    forall r ensures CountReduce(ap, r) <= nbest {
      if CountReduce(ap, r) > 0 {
        var j := CountWitness(ap, r);
      }
    }
  }

  method CountFrom(ap: seq<Action>, i: nat, rp: nat, best: bool, rbest: nat) returns (n: nat)
    requires i < |ap| && ap[i].kind == REDUCE && ap[i].arg == rp && !(best && rp == rbest)
    ensures n == CountReduce(ap[i..], rp)
  {
    n := 1;
    assert ap[i..][1..] == ap[i + 1..];
    for j := i + 1 to |ap|
      invariant n + CountReduce(ap[j..], rp) == CountReduce(ap[i..], rp)
    {
      assert ap[j..][1..] == ap[j + 1..];
      if ap[j].kind == REDUCE && !(best && ap[j].arg == rbest) && ap[j].arg == rp {
        n := n + 1;
      }
    }
  }

  /** The list after the first reduce by `r` became the default and the others were deleted. */
  function Defaulted(ap: seq<Action>, r: nat, dflt: nat, found: bool): (d: seq<Action>)
    ensures |d| == |ap|
  {
    if ap == [] then []
    else if ap[0].kind == REDUCE && ap[0].arg == r then
      [if found then Mark(ap[0], NOT_USED) else ap[0].(sp := dflt)] + Defaulted(ap[1..], r, dflt, true)
    else
      [ap[0]] + Defaulted(ap[1..], r, dflt, found)
  }

  /** Seen from one symbol, defaulting removes exactly the reduces by `r`. */
  lemma {:induction false} DefaultedLive(ap: seq<Action>, r: nat, dflt: nat, found: bool, s: nat)
    requires forall i :: 0 <= i < |ap| ==> ap[i].sp < dflt
    ensures s < dflt && |LiveOn(ap, s)| <= 1 ==>
              LiveOn(Defaulted(ap, r, dflt, found), s) ==
              if LiveOn(ap, s) != [] && LiveOn(ap, s)[0].kind == REDUCE && LiveOn(ap, s)[0].arg == r then [] else LiveOn(ap, s)
    ensures s == dflt ==>
              LiveOn(Defaulted(ap, r, dflt, found), s) ==
              if found || CountReduce(ap, r) == 0 then [] else [Action(dflt, REDUCE, r)]
  {
    if ap != [] {
      var hit := ap[0].kind == REDUCE && ap[0].arg == r;
      DefaultedLive(ap[1..], r, dflt, found || hit, s);
      LiveOnCons(Defaulted(ap, r, dflt, found)[0], Defaulted(ap[1..], r, dflt, found || hit), s);
      assert ap == [ap[0]] + ap[1..];
    }
  }

  lemma {:induction false} LiveOnMultiset(list: seq<Action>, s: nat, a: Action)
    ensures multiset(LiveOn(list, s))[a] == if a.sp == s && a.Live() then multiset(list)[a] else 0
  {
    if list != [] {
      LiveOnMultiset(list[1..], s, a);
      assert list == [list[0]] + list[1..];
    }
  }

  /** Re-sorting does not change what a deterministic list says about a symbol. */
  lemma PermutedLive(s: seq<Action>, t: seq<Action>, x: nat)
    requires multiset(s) == multiset(t) && |LiveOn(s, x)| <= 1
    ensures LiveOn(t, x) == LiveOn(s, x)
  {
    forall a ensures multiset(LiveOn(s, x))[a] == multiset(LiveOn(t, x))[a] {
      LiveOnMultiset(s, x, a);
      LiveOnMultiset(t, x, a);
    }
    SmallFromMultiset(LiveOn(s, x), LiveOn(t, x));
  }

  lemma SmallFromMultiset(s: seq<Action>, t: seq<Action>)
    requires |s| <= 1 && forall a :: multiset(s)[a] == multiset(t)[a]
    ensures s == t
  {
    assert multiset(s) == multiset(t);
    assert |multiset(s)| == |s| && |multiset(t)| == |t|;
    if |s| == 1 {
      assert t[0] in multiset(t);
    }
  }

  /** What a parser with default actions does on symbol `s`. */
  function Decide(ap: seq<Action>, dflt: nat, s: nat): Option<Action> {
    if LiveOn(ap, s) != [] then Some(LiveOn(ap, s)[0])
    else if LiveOn(ap, dflt) != [] then Some(LiveOn(ap, dflt)[0])
    else None
  }

  /** `r` means the same as `ap` wherever `ap` had an action, and only errors turned into defaults. */
  ghost predicate Compressed(ap: seq<Action>, r: seq<Action>, dflt: nat) {
    && (forall s: nat :: s < dflt && LiveOn(ap, s) != [] ==>
          var b := Decide(r, dflt, s);
          b.Some? && b.value.kind == LiveOn(ap, s)[0].kind && b.value.arg == LiveOn(ap, s)[0].arg)
    && (forall s: nat :: s < dflt && LiveOn(ap, s) == [] ==> LiveOn(r, s) == [])
    && (forall s: nat :: s < dflt && LiveOn(r, s) != [] ==> LiveOn(r, s) == LiveOn(ap, s))
    && (LiveOn(r, dflt) != [] ==> exists rb :: BestDefault(ap, r, dflt, rb))
    && (LiveOn(r, dflt) == [] ==> forall rb :: CountReduce(ap, rb) < 2)
  }

  /** The default reduces by a rule with at least two reduces, and none has more. */
  ghost predicate BestDefault(ap: seq<Action>, r: seq<Action>, dflt: nat, rb: nat) {
    && LiveOn(r, dflt) == [Action(dflt, REDUCE, rb)]
    && CountReduce(ap, rb) >= 2
    && forall rb' :: CountReduce(ap, rb') <= CountReduce(ap, rb)
  }

  lemma DefaultedThenSorted(ap: seq<Action>, r: seq<Action>, dflt: nat, rb: nat, s: nat)
    requires |LiveOn(ap, s)| <= 1 && (forall i :: 0 <= i < |ap| ==> ap[i].sp < dflt)
    requires multiset(r) == multiset(Defaulted(ap, rb, dflt, false)) && CountReduce(ap, rb) > 0
    ensures s < dflt ==>
              LiveOn(r, s) ==
              if LiveOn(ap, s) != [] && LiveOn(ap, s)[0].kind == REDUCE && LiveOn(ap, s)[0].arg == rb then [] else LiveOn(ap, s)
    ensures s == dflt ==> LiveOn(r, s) == [Action(dflt, REDUCE, rb)]
    ensures s > dflt ==> LiveOn(r, s) == []
  {
    var d := Defaulted(ap, rb, dflt, false);
    if s <= dflt {
      DefaultedLive(ap, rb, dflt, false, s);
      PermutedLive(d, r, s);
    } else {
      PermutedMembers(d, r);
      DefaultedSymbols(ap, rb, dflt, false);
      LiveOnNone(r, s);
    }
  }

  lemma DefaultedCompresses(ap: seq<Action>, r: seq<Action>, dflt: nat, rb: nat)
    requires Deterministic(ap) && (forall i :: 0 <= i < |ap| ==> ap[i].sp < dflt)
    requires CountReduce(ap, rb) >= 2 && forall rb' :: CountReduce(ap, rb') <= CountReduce(ap, rb)
    requires multiset(r) == multiset(Defaulted(ap, rb, dflt, false))
    ensures Deterministic(r) && Compressed(ap, r, dflt)
  {
    forall s: nat
      ensures |LiveOn(ap, s)| <= 1
      ensures s < dflt ==>
                LiveOn(r, s) ==
                if LiveOn(ap, s) != [] && LiveOn(ap, s)[0].kind == REDUCE && LiveOn(ap, s)[0].arg == rb then [] else LiveOn(ap, s)
      ensures s >= dflt ==> |LiveOn(r, s)| <= 1
    {
      DefaultedThenSorted(ap, r, dflt, rb, s);
    }
    DefaultedThenSorted(ap, r, dflt, rb, dflt);
    assert BestDefault(ap, r, dflt, rb);
  }

  lemma {:induction false} DefaultedSymbols(ap: seq<Action>, r: nat, dflt: nat, found: bool)
    requires forall i :: 0 <= i < |ap| ==> ap[i].sp < dflt
    ensures forall a :: a in Defaulted(ap, r, dflt, found) ==>
              a.sp <= dflt && (a.kind == ERROR ==> exists i :: 0 <= i < |ap| && ap[i].kind == ERROR)
  {
    if ap != [] {
      DefaultedSymbols(ap[1..], r, dflt, found || (ap[0].kind == REDUCE && ap[0].arg == r));
      assert forall i :: 0 <= i < |ap[1..]| ==> ap[1..][i] == ap[i + 1];
    }
  }

  lemma AbsentCount(ap: seq<Action>, dflt: nat)
    requires forall i :: 0 <= i < |ap| ==> ap[i].sp < dflt
    ensures LiveOn(ap, dflt) == []
  {
    LiveOnNone(ap, dflt);
  }

  /** CompressTables for one state. */
  method Compress(ap: seq<Action>, dflt: nat) returns (r: seq<Action>)
    requires Deterministic(ap) && |ap| < 0x4000_0000 && AssertionSafe(ap)
    requires forall i :: 0 <= i < |ap| ==> ap[i].sp < dflt && ap[i].kind != ERROR && ap[i].kind != NOT_USED
    ensures Deterministic(r) && Compressed(ap, r, dflt)
    ensures |r| == |ap| && forall a :: a in r ==> a.sp <= dflt && a.kind != ERROR
  {
    var nbest, rbest := MostFrequent(ap);
    if nbest < 2 {
      AbsentCount(ap, dflt);
      return ap;
    }
    var d := IntroduceDefault(ap, rbest, dflt);
    ResortAssertionHolds(ap, rbest, dflt);
    r := MergeSort.Sort(ActionCmp, d);
    ActionCmpOrders();
    DefaultedCompresses(ap, r, dflt, rbest);
    PermutedMembers(d, r);
    DefaultedSymbols(ap, rbest, dflt, false);
    assert |multiset(r)| == |multiset(d)|;
  }

  lemma DefaultedStep(ap: seq<Action>, r: nat, dflt: nat, found: bool, i: nat, d: seq<Action>)
    requires i < |ap|
    ensures var hit := ap[i].kind == REDUCE && ap[i].arg == r;
            var a := if !hit then ap[i] else if found then Mark(ap[i], NOT_USED) else ap[i].(sp := dflt);
            d + Defaulted(ap[i..], r, dflt, found) == (d + [a]) + Defaulted(ap[i + 1..], r, dflt, found || hit)
  {
    assert ap[i..][1..] == ap[i + 1..];
    var hit := ap[i].kind == REDUCE && ap[i].arg == r;
    var a := if !hit then ap[i] else if found then Mark(ap[i], NOT_USED) else ap[i].(sp := dflt);
    var tail := Defaulted(ap[i + 1..], r, dflt, found || hit);
    assert Defaulted(ap[i..], r, dflt, found) == [a] + tail;
    assert d + ([a] + tail) == (d + [a]) + tail;
  }

  method IntroduceDefault(ap: seq<Action>, rbest: nat, dflt: nat) returns (d: seq<Action>)
    requires CountReduce(ap, rbest) >= 2
    ensures d == Defaulted(ap, rbest, dflt, false)
  {
    d := [];
    var i, found := 0, false;
    assert ap[0..] == ap;
    while i < |ap|
      invariant 0 <= i <= |ap|
      invariant Defaulted(ap, rbest, dflt, false) == d + Defaulted(ap[i..], rbest, dflt, found)
    {
      DefaultedStep(ap, rbest, dflt, found, i, d);
      if ap[i].kind == REDUCE && ap[i].arg == rbest {
        d := d + [if found then Mark(ap[i], NOT_USED) else ap[i].(sp := dflt)];
        found := true;
      } else {
        d := d + [ap[i]];
      }
      i := i + 1;
    }
  }

  // ---------------------------------------------------------------- why a default needs two symbols

  lemma {:induction false} CountWitness(ap: seq<Action>, r: nat) returns (i: nat)
    requires CountReduce(ap, r) > 0
    ensures i < |ap| && ap[i].kind == REDUCE && ap[i].arg == r && CountReduce(ap[i + 1..], r) == CountReduce(ap, r) - 1
  {
    if ap[0].kind == REDUCE && ap[0].arg == r {
      i := 0;
    } else {
      var k := CountWitness(ap[1..], r);
      i := k + 1;
      assert ap[1..][k + 1..] == ap[i + 1..];
    }
  }

  lemma {:induction false} TwoLive(ap: seq<Action>, i: nat, j: nat)
    requires i < j < |ap| && ap[i].Live() && ap[j].Live() && ap[i].sp == ap[j].sp
    ensures |LiveOn(ap, ap[i].sp)| >= 2
  {
    if i == 0 {
      assert ap[j] in ap[1..];
      LiveOnMember(ap[1..], ap[j]);
    } else {
      TwoLive(ap[1..], i - 1, j - 1);
    }
  }

  lemma {:induction false} DefaultedAt(ap: seq<Action>, r: nat, dflt: nat, found: bool, i: nat)
    requires i < |ap|
    ensures var d := Defaulted(ap, r, dflt, found)[i];
      d == ap[i] || (ap[i].kind == REDUCE && ap[i].arg == r && (d == Mark(ap[i], NOT_USED) || d == ap[i].(sp := dflt)))
  {
    if i > 0 {
      DefaultedAt(ap[1..], r, dflt, found || (ap[0].kind == REDUCE && ap[0].arg == r), i - 1);
    }
  }

  /** The assertion in actioncmp also holds when the list is sorted again, with its default. */
  lemma ResortAssertionHolds(ap: seq<Action>, r: nat, dflt: nat)
    requires Deterministic(ap) && AssertionSafe(ap)
    requires forall i :: 0 <= i < |ap| ==> ap[i].sp < dflt && ap[i].kind != NOT_USED
    ensures AssertionSafe(Defaulted(ap, r, dflt, false))
  {
    var d := Defaulted(ap, r, dflt, false);
    forall i, j | 0 <= i < j < |d| && d[i].sp == d[j].sp && d[i].kind == d[j].kind ensures ReduceLike(d[i].kind) {
      DefaultedAt(ap, r, dflt, false, i);
      DefaultedAt(ap, r, dflt, false, j);
      if d[i].kind == NOT_USED {
        TwoLive(ap, i, j);
      }
    }
  }

  /** Two reduces by the same rule in a deterministic list are on different symbols. */
  lemma TwoReduces(ap: seq<Action>, r: nat) returns (a: Action, b: Action)
    requires Deterministic(ap) && CountReduce(ap, r) >= 2
    ensures a.kind == b.kind == REDUCE && a.arg == b.arg == r && a.sp != b.sp
    ensures a in LiveOn(ap, a.sp) && b in LiveOn(ap, b.sp)
  {
    var i := CountWitness(ap, r);
    var k := CountWitness(ap[i + 1..], r);
    var j := i + 1 + k;
    a, b := ap[i], ap[j];
    LiveOnMember(ap, a);
    LiveOnMember(ap, b);
    if a.sp == b.sp {
      TwoLive(ap, i, j);
    }
  }
}
