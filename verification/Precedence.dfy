/**
 What conflict resolution means: who survives among the actions of a state on one symbol, and how the others
 are marked, in terms of precedences, associativity and rule numbers alone.
 */
module Precedence {
  import opened Wrappers
  import opened Grammars
  import opened Actions
  import opened Compression
  import MergeSort

  /** The precedences are those of the grammar: of a symbol its own, of a rule that of its precedence symbol. */
  lemma PrecedencesAreDeclared(g: Grammar, x: nat, r: nat)
    requires g.Valid() && x < g.NSymbol() && r < |g.rules|
    ensures PrecOf(g, Some(x)) == g.symbols[x].prec
    ensures g.rules[r].precsym.Some? ==> RulePrec(g, r) == g.symbols[g.rules[r].precsym.value].prec
    ensures g.rules[r].precsym.None? ==> RulePrec(g, r) < 0
  {
    assert g.ValidRule(g.rules[r]);
  }

  // ---------------------------------------------------------------- who beats whom

  /** Rule `r` is preferred to shifting `x`: its precedence is higher, or equal with `x` left-associative. */
  predicate TakesFromShift(g: Grammar, x: nat, r: nat) {
    var px, pr := PrecOf(g, Some(x)), RulePrec(g, r);
    x < g.NSymbol() && px >= 0 && pr >= 0 && (pr > px || (pr == px && g.symbols[x].assoc == LEFT))
  }

  /** The later action `y` beats `c`, which came first. */
  predicate Outranks(g: Grammar, y: Action, c: Action) {
    if c.kind == SHIFT then TakesFromShift(g, c.sp, y.arg)
    else RulePrec(g, c.arg) >= 0 && RulePrec(g, y.arg) > RulePrec(g, c.arg)
  }

  /** How a reduce is marked that does not beat `c`: a conflict if precedence does not decide. */
  function LoserMark(g: Grammar, c: Action, y: Action): Kind {
    var py, pc := RulePrec(g, y.arg), if c.kind == SHIFT then PrecOf(g, Some(c.sp)) else RulePrec(g, c.arg);
    if py < 0 || pc < 0 then CONFLICT
    else if py < pc then RD_RESOLVED
    else if c.kind == SHIFT && c.sp < g.NSymbol() && g.symbols[c.sp].assoc == RIGHT then RD_RESOLVED
    else CONFLICT
  }

  function BeatenMark(c: Action): Kind { if c.kind == SHIFT then SH_RESOLVED else RD_RESOLVED }

  ghost predicate AllReduces(x: nat, rs: seq<Action>) {
    forall i :: 0 <= i < |rs| ==> rs[i].kind == REDUCE && rs[i].sp == x
  }

  /** The actions on one symbol in sorted order: a shift may come first, reduces follow. */
  ghost predicate IsGroup(g: Grammar, x: nat, group: seq<Action>) {
    && g.Valid() && x < g.NSymbol() && group != [] && AllReduces(x, group[1..])
    && group[0].sp == x && (group[0].kind == SHIFT || group[0].kind == REDUCE)
  }

  /** One confrontation, stated without the function that computes it. */
  lemma SettleMeans(g: Grammar, x: nat, c: Action, y: Action)
    requires g.Valid() && x < g.NSymbol() && c.sp == x == y.sp && (c.kind == SHIFT || c.kind == REDUCE) && y.kind == REDUCE
    ensures Settle(g, c, y) == if Outranks(g, y, c) then (Mark(c, BeatenMark(c)), y) else (c, Mark(y, LoserMark(g, c, y)))
    ensures Winner(g, c, y) == if Outranks(g, y, c) then y else c
  {
  }

  // ---------------------------------------------------------------- who survives

  /** The first of the reduces with the highest precedence. */
  ghost predicate FirstHighest(g: Grammar, rs: seq<Action>, k: nat) {
    && k < |rs| && RulePrec(g, rs[k].arg) >= 0
    && (forall i :: 0 <= i < |rs| ==> RulePrec(g, rs[i].arg) <= RulePrec(g, rs[k].arg))
    && (forall i :: 0 <= i < k ==> RulePrec(g, rs[i].arg) < RulePrec(g, rs[k].arg))
  }

  lemma ChampionNext(g: Grammar, c: Action, y: Action, rest: seq<Action>)
    ensures Champion(g, [c] + ([y] + rest)) == Champion(g, [Winner(g, c, y)] + rest)
  {
    ChampionOfTwo(g, c, y, rest);
  }

  lemma HeadAndTail(rs: seq<Action>)
    requires rs != []
    ensures rs == [rs[0]] + rs[1..]
  {
  }

  /** Nobody beats the first action: it wins. */
  lemma {:induction false} Unbeaten(g: Grammar, x: nat, c: Action, rs: seq<Action>)
    requires g.Valid() && x < g.NSymbol() && c.sp == x && (c.kind == SHIFT || c.kind == REDUCE) && AllReduces(x, rs)
    requires forall i :: 0 <= i < |rs| ==> !Outranks(g, rs[i], c)
    ensures Champion(g, [c] + rs) == c
    decreases |rs|
  {
    if rs == [] {
      assert [c] + rs == [c];
    } else {
      HeadAndTail(rs);
      ChampionNext(g, c, rs[0], rs[1..]);
      SettleMeans(g, x, c, rs[0]);
      Unbeaten(g, x, c, rs[1..]);
    }
  }

  /** The first action that beats `c` takes its place. */
  lemma {:induction false} Dethroned(g: Grammar, x: nat, c: Action, rs: seq<Action>, k: nat)
    requires g.Valid() && x < g.NSymbol() && c.sp == x && (c.kind == SHIFT || c.kind == REDUCE) && AllReduces(x, rs) && k < |rs|
    requires Outranks(g, rs[k], c) && forall i :: 0 <= i < k ==> !Outranks(g, rs[i], c)
    ensures Champion(g, [c] + rs) == Champion(g, rs[k..])
    decreases |rs|
  {
    HeadAndTail(rs);
    ChampionNext(g, c, rs[0], rs[1..]);
    SettleMeans(g, x, c, rs[0]);
    if k > 0 {
      Dethroned(g, x, c, rs[1..], k - 1);
      assert rs[1..][k - 1..] == rs[k..];
    } else {
      assert rs[0..] == rs;
    }
  }

  /** The first action that beats `c`, or the end of the list. */
  lemma FirstBeater(g: Grammar, c: Action, rs: seq<Action>) returns (k: nat)
    ensures k <= |rs| && (k < |rs| ==> Outranks(g, rs[k], c)) && forall i :: 0 <= i < k ==> !Outranks(g, rs[i], c)
  {
    k := 0;
    while k < |rs| && !Outranks(g, rs[k], c)
      invariant k <= |rs| && forall i :: 0 <= i < k ==> !Outranks(g, rs[i], c)
    {
      k := k + 1;
    }
  }

  /** All before position `b` are lower than it, so the first highest from there on is the first of all. */
  lemma HighestFrom(g: Grammar, rs: seq<Action>, b: nat, l: nat)
    requires b < |rs| && FirstHighest(g, rs[b..], l) && forall i :: 0 <= i < b ==> RulePrec(g, rs[i].arg) < RulePrec(g, rs[b].arg)
    ensures FirstHighest(g, rs, b + l)
  {
    var later := rs[b..];
    assert later[0] == rs[b];
    forall i | 0 <= i < |rs| ensures RulePrec(g, rs[i].arg) <= RulePrec(g, later[l].arg) && (i < b + l ==> RulePrec(g, rs[i].arg) < RulePrec(g, later[l].arg)) {
      if i >= b {
        assert later[i - b] == rs[i];
      }
    }
  }

  lemma HighestAlone(g: Grammar, rs: seq<Action>)
    requires rs != [] && RulePrec(g, rs[0].arg) >= 0 && forall i :: 0 <= i < |rs[1..]| ==> RulePrec(g, rs[1..][i].arg) <= RulePrec(g, rs[0].arg)
    ensures FirstHighest(g, rs, 0)
  {
    forall i | 0 <= i < |rs| ensures RulePrec(g, rs[i].arg) <= RulePrec(g, rs[0].arg) {
      if i > 0 {
        assert rs[1..][i - 1] == rs[i];
      }
    }
  }

  /** Among reduces: the first rule if it has no precedence, else the first of the highest precedence. */
  lemma {:induction false} ReducesWin(g: Grammar, x: nat, rs: seq<Action>) returns (k: nat)
    requires g.Valid() && x < g.NSymbol() && rs != [] && AllReduces(x, rs)
    ensures k < |rs| && Champion(g, rs) == rs[k]
    ensures if RulePrec(g, rs[0].arg) < 0 then k == 0 else FirstHighest(g, rs, k)
    decreases |rs|
  {
    HeadAndTail(rs);
    var c, tail := rs[0], rs[1..];
    var b := FirstBeater(g, c, tail);
    if b < |tail| {
      Dethroned(g, x, c, tail, b);
      assert tail[b..] == rs[b + 1..];
      var l := ReducesWin(g, x, tail[b..]);
      k := b + 1 + l;
      forall i | 0 <= i < b + 1 ensures RulePrec(g, rs[i].arg) < RulePrec(g, rs[b + 1].arg) {
        assert i > 0 ==> tail[i - 1] == rs[i];
      }
      HighestFrom(g, rs, b + 1, l);
    } else {
      Unbeaten(g, x, c, tail);
      k := 0;
      if RulePrec(g, c.arg) >= 0 { HighestAlone(g, rs); }
    }
  }

  /** Main result: a shift survives exactly when no reduce is preferred to it; otherwise the first reduce of
      the highest precedence does. */
  lemma ShiftOrReduce(g: Grammar, x: nat, shift: Action, rs: seq<Action>) returns (k: nat)
    requires g.Valid() && x < g.NSymbol() && shift.kind == SHIFT && shift.sp == x && AllReduces(x, rs)
    ensures Champion(g, [shift] + rs) == shift <==> forall i :: 0 <= i < |rs| ==> !TakesFromShift(g, x, rs[i].arg)
    ensures Champion(g, [shift] + rs) != shift ==> FirstHighest(g, rs, k) && Champion(g, [shift] + rs) == rs[k]
  {
    k := 0;
    var b := FirstBeater(g, shift, rs);
    if b < |rs| {
      Dethroned(g, x, shift, rs, b);
      var l := ReducesWin(g, x, rs[b..]);
      k := b + l;
      HighestFrom(g, rs, b, l);
    } else {
      Unbeaten(g, x, shift, rs);
    }
  }

  // ---------------------------------------------------------------- how losers are marked

  ghost predicate Dead(a: Action) {
    a.kind != SHIFT && a.kind != REDUCE
  }

  /** One pass: everything up to the first action that beats `c` is marked as its loser. */
  lemma {:induction false} PassMarks(g: Grammar, x: nat, c: Action, rs: seq<Action>, k: nat)
    requires g.Valid() && x < g.NSymbol() && c.sp == x && (c.kind == SHIFT || c.kind == REDUCE) && AllReduces(x, rs) && k <= |rs|
    requires (forall i :: 0 <= i < k ==> !Outranks(g, rs[i], c)) && (k < |rs| ==> Outranks(g, rs[k], c))
    ensures Pass(g, c, rs).0 == if k < |rs| then Mark(c, BeatenMark(c)) else c
    ensures forall i :: 0 <= i < |rs| ==> Pass(g, c, rs).1[i] == if i < k then Mark(rs[i], LoserMark(g, c, rs[i])) else rs[i]
    decreases |rs|
  {
    if rs != [] {
      SettleMeans(g, x, c, rs[0]);
      if k == 0 {
        PassDead(g, Mark(c, BeatenMark(c)), rs[1..]);
      } else {
        PassMarks(g, x, c, rs[1..], k - 1);
      }
    }
  }

  /** Actions that have lost are left alone. */
  lemma {:induction false} DeadStay(g: Grammar, dead: seq<Action>, rest: seq<Action>)
    requires forall i :: 0 <= i < |dead| ==> Dead(dead[i])
    ensures ResolveList(g, dead + rest) == dead + ResolveList(g, rest)
    decreases |dead|
  {
    if dead == [] {
      assert dead + rest == rest;
    } else {
      assert (dead + rest)[1..] == dead[1..] + rest;
      PassDead(g, dead[0], dead[1..] + rest);
      DeadStay(g, dead[1..], rest);
    }
  }

  /** A resolved group: the first action, its losers, and then what is left of the group of the one that beats it. */
  ghost predicate Parts(g: Grammar, group: seq<Action>, k: nat, whole: seq<Action>, rest: seq<Action>)
    requires k < |group|
  {
    && |whole| == |group| && |rest| == |group| - k - 1
    && whole[0] == (if k + 1 < |group| then Mark(group[0], BeatenMark(group[0])) else group[0])
    && (forall i :: 0 < i <= k ==> whole[i] == Mark(group[i], LoserMark(g, group[0], group[i])))
    && (forall i :: k < i < |group| ==> whole[i] == rest[i - k - 1])
  }

  lemma ResolveGroup(g: Grammar, x: nat, group: seq<Action>, k: nat)
    requires IsGroup(g, x, group) && k < |group|
    requires (forall i :: 0 < i <= k ==> !Outranks(g, group[i], group[0])) && (k + 1 < |group| ==> Outranks(g, group[k + 1], group[0]))
    ensures Parts(g, group, k, ResolveList(g, group), ResolveList(g, group[k + 1..]))
  {
    var c, rs := group[0], group[1..];
    PassMarks(g, x, c, rs, k);
    var dead := Pass(g, c, rs).1[..k];
    FrontOfPass(g, x, c, group, dead, k);
    DeadStay(g, dead, group[k + 1..]);
    ResolveUnfold(g, group, dead + group[k + 1..]);
    ThreeParts(g, group, k, dead, ResolveList(g, group[k + 1..]), ResolveList(g, group));
  }

  lemma FrontOfPass(g: Grammar, x: nat, c: Action, group: seq<Action>, dead: seq<Action>, k: nat)
    requires IsGroup(g, x, group) && k < |group| && c == group[0] && dead == Pass(g, c, group[1..]).1[..k]
    requires forall i :: 0 <= i < |group[1..]| ==>
               Pass(g, c, group[1..]).1[i] == if i < k then Mark(group[1..][i], LoserMark(g, c, group[1..][i])) else group[1..][i]
    ensures Pass(g, c, group[1..]).1 == dead + group[k + 1..]
    ensures forall i :: 0 <= i < k ==> Dead(dead[i]) && dead[i] == Mark(group[i + 1], LoserMark(g, c, group[i + 1]))
  {
    var after := Pass(g, c, group[1..]).1;
    forall i | k <= i < |after| ensures after[i] == group[k + 1..][i - k] {
      assert group[1..][i] == group[i + 1];
    }
  }

  lemma ResolveUnfold(g: Grammar, group: seq<Action>, after: seq<Action>)
    requires group != [] && Pass(g, group[0], group[1..]).1 == after
    ensures ResolveList(g, group) == [Pass(g, group[0], group[1..]).0] + ResolveList(g, after)
  {
  }

  lemma ThreeParts(g: Grammar, group: seq<Action>, k: nat, dead: seq<Action>, rest: seq<Action>, whole: seq<Action>)
    requires k < |group| && |dead| == k && |rest| == |group| - k - 1
    requires whole == [if k + 1 < |group| then Mark(group[0], BeatenMark(group[0])) else group[0]] + (dead + rest)
    requires forall i :: 0 <= i < k ==> dead[i] == Mark(group[i + 1], LoserMark(g, group[0], group[i + 1]))
    ensures Parts(g, group, k, whole, rest)
  {
  }

  ghost predicate BeatenLater(g: Grammar, group: seq<Action>, j: nat)
    requires j < |group|
  {
    exists k :: j < k < |group| && Outranks(g, group[k], group[j])
  }

  /** What becomes of action `j` of a group: it meets the champion of those before it. */
  function Fate(g: Grammar, group: seq<Action>, j: nat, later: bool): Action
    requires j < |group|
  {
    if j > 0 && !Outranks(g, group[j], Champion(g, group[..j])) then Mark(group[j], LoserMark(g, Champion(g, group[..j]), group[j]))
    else if later then Mark(group[j], BeatenMark(group[j]))
    else group[j]
  }

  /** Main result: every action meets the champion of those before it. If it loses, the mark says whether precedence
      decided; if it wins, it stays until a later action beats it. */
  lemma {:induction false} EveryFate(g: Grammar, x: nat, group: seq<Action>, j: nat)
    requires IsGroup(g, x, group) && j < |group|
    ensures ResolveList(g, group)[j] == Fate(g, group, j, BeatenLater(g, group, j))
    decreases |group|
  {
    var k := LastLoser(g, group);
    ResolveGroup(g, x, group, k);
    if j == 0 {
      assert BeatenLater(g, group, 0) <==> k + 1 < |group|;
    } else if j <= k {
      GroupFront(g, x, group, j);
      assert forall i :: 0 <= i < |group[1..j]| ==> !Outranks(g, group[1..j][i], group[0]);
      Unbeaten(g, x, group[0], group[1..j]);
      assert group[..j] == [group[0]] + group[1..j];
    } else {
      FateBeyond(g, x, group, k, j);
    }
  }

  /** The last action that loses to the first one before one beats it. */
  lemma LastLoser(g: Grammar, group: seq<Action>) returns (k: nat)
    requires group != []
    ensures k < |group| && (forall i :: 0 < i <= k ==> !Outranks(g, group[i], group[0]))
    ensures k + 1 < |group| ==> Outranks(g, group[k + 1], group[0])
  {
    k := 0;
    while k + 1 < |group| && !Outranks(g, group[k + 1], group[0])
      invariant k < |group| && forall i :: 0 < i <= k ==> !Outranks(g, group[i], group[0])
    {
      k := k + 1;
    }
  }

  lemma GroupFront(g: Grammar, x: nat, group: seq<Action>, j: nat)
    requires IsGroup(g, x, group) && 0 < j <= |group|
    ensures AllReduces(x, group[1..j]) && forall i :: 0 <= i < j - 1 ==> group[1..j][i] == group[i + 1]
  {
    forall i | 0 <= i < j - 1 ensures group[1..j][i].kind == REDUCE && group[1..j][i].sp == x {
      assert group[1..j][i] == group[1..][i];
    }
  }

  /** The group that begins with the first action that beats the old champion. */
  lemma LaterGroup(g: Grammar, x: nat, group: seq<Action>, k: nat)
    requires IsGroup(g, x, group) && k + 1 < |group|
    ensures IsGroup(g, x, group[k + 1..])
  {
    var h := group[k + 1..];
    forall i | 0 <= i < |h| ensures h[i].kind == REDUCE && h[i].sp == x {
      assert h[i] == group[1..][k + i];
    }
  }

  /** Behind that action, fates are those in its own group. */
  lemma {:induction false} FateBeyond(g: Grammar, x: nat, group: seq<Action>, k: nat, j: nat)
    requires IsGroup(g, x, group) && k < j < |group|
    requires (forall i :: 0 < i <= k ==> !Outranks(g, group[i], group[0])) && Outranks(g, group[k + 1], group[0])
    ensures ResolveList(g, group[k + 1..])[j - k - 1] == Fate(g, group, j, BeatenLater(g, group, j))
    decreases |group|, 0
  {
    var h, l := group[k + 1..], j - k - 1;
    LaterGroup(g, x, group, k);
    EveryFate(g, x, h, l);
    SameLater(g, group, k, j);
    GroupFront(g, x, group, j);
    var front := group[1..j];
    assert group[..j] == [group[0]] + front;
    if l == 0 {
      Unbeaten(g, x, group[0], front);
    } else {
      Dethroned(g, x, group[0], front, k);
      assert front[k..] == h[..l];
    }
  }

  lemma SameLater(g: Grammar, group: seq<Action>, k: nat, j: nat)
    requires k < j < |group|
    ensures BeatenLater(g, group[k + 1..], j - k - 1) == BeatenLater(g, group, j)
  {
    var h, l := group[k + 1..], j - k - 1;
    if BeatenLater(g, group, j) {
      var b :| j < b < |group| && Outranks(g, group[b], group[j]);
      assert h[b - k - 1] == group[b];
    }
    if BeatenLater(g, h, l) {
      var b :| l < b < |h| && Outranks(g, h[b], h[l]);
      assert group[b + k + 1] == h[b];
    }
  }

  /** Groups of different symbols do not meet. */
  lemma {:induction false} GroupsApart(g: Grammar, s: seq<Action>, t: seq<Action>)
    requires forall i, j :: 0 <= i < |s| && 0 <= j < |t| ==> s[i].sp != t[j].sp
    ensures ResolveList(g, s + t) == ResolveList(g, s) + ResolveList(g, t)
    decreases |s|
  {
    if s == [] {
      assert s + t == t;
    } else {
      PassApart(g, s[0], s[1..], t);
      assert (s + t)[1..] == s[1..] + t;
      PassEvolves(g, s[0], s[1..]);
      var (c, rest) := Pass(g, s[0], s[1..]);
      forall i, j | 0 <= i < |rest| && 0 <= j < |t| ensures rest[i].sp != t[j].sp {
        assert Evolve(s[1..][i], rest[i]) && s[1..][i] == s[i + 1];
      }
      GroupsApart(g, rest, t);
      assert [c] + (ResolveList(g, rest) + ResolveList(g, t)) == ([c] + ResolveList(g, rest)) + ResolveList(g, t);
    }
  }

  lemma {:induction false} PassApart(g: Grammar, c: Action, rs: seq<Action>, t: seq<Action>)
    requires forall j :: 0 <= j < |t| ==> c.sp != t[j].sp
    ensures Pass(g, c, rs + t) == (Pass(g, c, rs).0, Pass(g, c, rs).1 + t)
    decreases |rs|
  {
    if rs == [] {
      assert rs + t == t;
    } else if rs[0].sp == c.sp {
      var (c1, y) := Settle(g, c, rs[0]);
      assert (rs + t)[1..] == rs[1..] + t;
      PassApart(g, c1, rs[1..], t);
      assert [y] + (Pass(g, c1, rs[1..]).1 + t) == ([y] + Pass(g, c1, rs[1..]).1) + t;
    }
  }

  // ---------------------------------------------------------------- the survivor among the actions of a state

  ghost predicate ReduceOn(raw: seq<Action>, x: nat, a: Action) {
    a in raw && a.sp == x && a.kind == REDUCE
  }

  /** The reduce by the rule with the smallest number. */
  ghost predicate EarliestReduce(raw: seq<Action>, x: nat, b: Action) {
    ReduceOn(raw, x, b) && forall r :: ReduceOn(raw, x, r) ==> b.arg <= r.arg
  }

  /** The reduce of the highest precedence, with the smallest rule number among equals. */
  ghost predicate HighestReduce(g: Grammar, raw: seq<Action>, x: nat, b: Action) {
    && ReduceOn(raw, x, b) && RulePrec(g, b.arg) >= 0
    && forall r :: ReduceOn(raw, x, r) ==>
         RulePrec(g, r.arg) <= RulePrec(g, b.arg) && (RulePrec(g, r.arg) == RulePrec(g, b.arg) ==> b.arg <= r.arg)
  }

  ghost predicate ShiftThere(raw: seq<Action>, x: nat) {
    exists s :: s in raw && s.sp == x && s.kind == SHIFT
  }

  ghost predicate SomeTakes(g: Grammar, raw: seq<Action>, x: nat) {
    exists r :: ReduceOn(raw, x, r) && TakesFromShift(g, x, r.arg)
  }

  /** Action `b` is the one that should survive on symbol `x`, among all actions of a state in any order. */
  ghost predicate Survives(g: Grammar, raw: seq<Action>, x: nat, b: Action) {
    && b in raw && b.sp == x
    && match b.kind
       case SHIFT => !SomeTakes(g, raw, x)
       case REDUCE =>
         if ShiftThere(raw, x) then SomeTakes(g, raw, x) && HighestReduce(g, raw, x, b)
         else if RulePrec(g, b.arg) < 0 then EarliestReduce(raw, x, b)
         else HighestReduce(g, raw, x, b) && forall r :: EarliestReduce(raw, x, r) ==> RulePrec(g, r.arg) >= 0
       case _ => true
  }

  lemma {:induction false} LiveOnSorted(list: seq<Action>, x: nat)
    requires MergeSort.Sorted(ActionCmp, list) && NoDuplicates(list)
    ensures MergeSort.Sorted(ActionCmp, LiveOn(list, x)) && NoDuplicates(LiveOn(list, x))
  {
    if list != [] {
      LiveOnSorted(list[1..], x);
      LiveOnFrom(list[1..], x);
      var rest := LiveOn(list[1..], x);
      forall i | 0 <= i < |rest| ensures rest[i] != list[0] && MergeSort.Le(ActionCmp, list[0], rest[i]) {
        assert rest[i] in list[1..];
        var k :| 0 <= k < |list[1..]| && list[1..][k] == rest[i];
        assert list[k + 1] == rest[i];
      }
    }
  }

  /** The second action is a reduce, and not by an earlier rule. */
  ghost predicate Precedes(a: Action, b: Action) {
    b.kind == REDUCE && a.kind != ACCEPT && (a.kind == REDUCE ==> a.arg <= b.arg)
  }

  /** The actions on `x`, sorted: all of them, a shift first, then reduces by rising rule numbers. */
  ghost predicate SortedOn(raw: seq<Action>, x: nat, group: seq<Action>) {
    && (forall a :: a in group <==> a in raw && a.sp == x)
    && (forall i, j :: 0 <= i < j < |group| ==> Precedes(group[i], group[j]))
  }

  lemma Rivals(raw: seq<Action>, a: Action, b: Action)
    requires WellPosed(raw) && a in raw && b in raw && a != b && a.sp == b.sp
    ensures a.Live() && b.Live() && a.kind != ACCEPT && b.kind != ACCEPT && !(a.kind == SHIFT && b.kind == SHIFT)
  {
  }

  lemma GroupOf(g: Grammar, raw: seq<Action>, list: seq<Action>, x: nat)
    requires WellPosed(raw) && SortOf(raw, list)
    ensures SortedOn(raw, x, LiveOn(list, x))
  {
    PermutedNoDuplicates(raw, list);
    PermutedMembers(raw, list);
    LiveOnSorted(list, x);
    LiveOnFrom(list, x);
    forall a | a in raw && a.sp == x ensures a in LiveOn(list, x) {
      LiveOnMember(list, a);
    }
    SortedGroup(raw, x, LiveOn(list, x));
  }

  lemma SortedGroup(raw: seq<Action>, x: nat, group: seq<Action>)
    requires WellPosed(raw) && MergeSort.Sorted(ActionCmp, group) && NoDuplicates(group)
    requires forall a :: a in group <==> a in raw && a.sp == x
    ensures SortedOn(raw, x, group)
  {
    forall i, j | 0 <= i < j < |group|
      ensures Precedes(group[i], group[j])
    {
      var a, b := group[i], group[j];
      assert a in group && b in group && a != b && MergeSort.Le(ActionCmp, a, b);
      Rivals(raw, a, b);
      InOrder(a, b);
    }
  }

  lemma InOrder(a: Action, b: Action)
    requires a.sp == b.sp && a.Live() && b.Live() && a.kind != ACCEPT && b.kind != ACCEPT && !(a.kind == SHIFT && b.kind == SHIFT)
    requires MergeSort.Le(ActionCmp, a, b)
    ensures Precedes(a, b)
  {
  }

  /** The champion of a sorted group is the one that should survive. */
  lemma ChampionSurvives(g: Grammar, raw: seq<Action>, x: nat, group: seq<Action>)
    requires g.Valid() && x < g.NSymbol() && SortedOn(raw, x, group) && group != [] && forall a :: a in group ==> a.Live()
    ensures Survives(g, raw, x, Champion(g, group))
  {
    HeadAndTail(group);
    assert group[0] in group;
    var rs := group[1..];
    forall i | 0 <= i < |rs| ensures rs[i].kind == REDUCE && rs[i].sp == x {
      assert rs[i] == group[i + 1] && group[i + 1] in group;
    }
    if |group| > 1 {
      assert Precedes(group[0], group[1]);
    }
    if group[0].kind == SHIFT {
      ShiftFirst(g, raw, x, group);
    } else if group[0].kind == REDUCE {
      ReduceFirst(g, raw, x, group);
    }
  }

  lemma ReducesOfGroup(raw: seq<Action>, x: nat, group: seq<Action>, from: nat)
    requires SortedOn(raw, x, group) && from <= |group| && AllReduces(x, group[from..]) && forall i :: 0 <= i < from ==> group[i].kind != REDUCE
    ensures forall r :: ReduceOn(raw, x, r) <==> r in group[from..]
  {
    forall r | ReduceOn(raw, x, r) ensures r in group[from..] {
      assert r in group;
      var i :| 0 <= i < |group| && group[i] == r;
      assert group[from..][i - from] == r;
    }
    forall r | r in group[from..] ensures ReduceOn(raw, x, r) {
      assert r in group;
    }
  }

  /** The first highest of the reduces in rule order is the highest with the smallest rule number. */
  lemma FirstIsHighest(g: Grammar, raw: seq<Action>, x: nat, rs: seq<Action>, k: nat)
    requires (forall r :: ReduceOn(raw, x, r) <==> r in rs) && FirstHighest(g, rs, k)
    requires forall i, j :: 0 <= i < j < |rs| ==> rs[i].arg <= rs[j].arg
    ensures HighestReduce(g, raw, x, rs[k])
  {
    forall r | ReduceOn(raw, x, r)
      ensures RulePrec(g, r.arg) <= RulePrec(g, rs[k].arg) && (RulePrec(g, r.arg) == RulePrec(g, rs[k].arg) ==> rs[k].arg <= r.arg)
    {
      var i :| 0 <= i < |rs| && rs[i] == r;
    }
  }

  lemma ShiftFirst(g: Grammar, raw: seq<Action>, x: nat, group: seq<Action>)
    requires g.Valid() && x < g.NSymbol() && SortedOn(raw, x, group) && group != [] && group[0].kind == SHIFT && AllReduces(x, group[1..])
    ensures Survives(g, raw, x, Champion(g, group))
  {
    var rs := group[1..];
    HeadAndTail(group);
    assert group[0] in group;
    ReducesOfGroup(raw, x, group, 1);
    var k := ShiftOrReduce(g, x, group[0], rs);
    TakesIff(g, raw, x, rs);
    if Champion(g, group) != group[0] {
      forall i, j | 0 <= i < j < |rs| ensures rs[i].arg <= rs[j].arg {
        assert rs[i] == group[i + 1] && rs[j] == group[j + 1] && Precedes(group[i + 1], group[j + 1]);
      }
      FirstIsHighest(g, raw, x, rs, k);
      assert ShiftThere(raw, x);
    }
  }

  lemma TakesIff(g: Grammar, raw: seq<Action>, x: nat, rs: seq<Action>)
    requires forall r :: ReduceOn(raw, x, r) <==> r in rs
    ensures SomeTakes(g, raw, x) <==> exists i :: 0 <= i < |rs| && TakesFromShift(g, x, rs[i].arg)
  {
    if SomeTakes(g, raw, x) {
      var r :| ReduceOn(raw, x, r) && TakesFromShift(g, x, r.arg);
      var i :| 0 <= i < |rs| && rs[i] == r;
    }
    if i :| 0 <= i < |rs| && TakesFromShift(g, x, rs[i].arg) {
      assert rs[i] in rs;
    }
  }

  lemma ReduceFirst(g: Grammar, raw: seq<Action>, x: nat, group: seq<Action>)
    requires g.Valid() && x < g.NSymbol() && SortedOn(raw, x, group) && group != [] && group[0].kind == REDUCE && AllReduces(x, group[1..])
    requires group[0].sp == x
    ensures Survives(g, raw, x, Champion(g, group))
  {
    forall i | 0 <= i < |group| ensures group[i].kind == REDUCE && group[i].sp == x {
      if i > 0 {
        assert group[1..][i - 1] == group[i];
      }
    }
    assert group[0..] == group;
    ReducesOfGroup(raw, x, group, 0);
    var k := ReducesWin(g, x, group);
    assert group[k] in group && group[0] in group;
    assert !ShiftThere(raw, x);
    assert EarliestReduce(raw, x, group[0]) by {
      forall r | ReduceOn(raw, x, r) ensures group[0].arg <= r.arg {
        var i :| 0 <= i < |group| && group[i] == r;
      }
    }
    if RulePrec(g, group[0].arg) >= 0 {
      FirstIsHighest(g, raw, x, group, k);
      forall r | EarliestReduce(raw, x, r) ensures RulePrec(g, r.arg) >= 0 {
        assert r.arg == group[0].arg;
      }
    }
  }

  /** At most one action should survive. */
  lemma SurvivorIsUnique(g: Grammar, raw: seq<Action>, x: nat, a: Action, b: Action)
    requires WellPosed(raw) && Survives(g, raw, x, a) && Survives(g, raw, x, b)
    ensures a == b
  {
    if a != b {
      assert a.Live() && b.Live();
      if a.kind == REDUCE && b.kind == REDUCE {
        assert ReduceOn(raw, x, a) && ReduceOn(raw, x, b);
        OneReduce(g, raw, x, a, b);
      } else if a.kind == SHIFT {
        assert ShiftThere(raw, x);
      } else {
        assert ShiftThere(raw, x);
      }
    }
  }

  lemma OneReduce(g: Grammar, raw: seq<Action>, x: nat, a: Action, b: Action)
    requires Survives(g, raw, x, a) && Survives(g, raw, x, b) && a.kind == REDUCE == b.kind
    ensures a == b
  {
  }

  /** Main result: after sorting and resolving, the live action on a symbol is the one that should survive. */
  lemma SurvivorLaw(g: Grammar, raw: seq<Action>, ap: seq<Action>, x: nat, b: Action)
    requires g.Valid() && x < g.NSymbol() && WellPosed(raw) && Won(g, raw, ap)
    ensures LiveOn(ap, x) == [b] <==> Survives(g, raw, x, b)
  {
    var list :| WonIn(g, raw, ap, list);
    var group := LiveOn(list, x);
    GroupOf(g, raw, list, x);
    if group != [] {
      var c := Champion(g, group);
      ChampionSurvives(g, raw, x, group);
      if Survives(g, raw, x, b) {
        SurvivorIsUnique(g, raw, x, b, c);
      }
    } else {
      assert b !in group;
    }
  }

  // ---------------------------------------------------------------- the precedences of rules

  /** The rule has the precedence symbol that was declared for it, or else its first symbol with a precedence, or none. */
  ghost predicate PrecedenceFound(g: Grammar, rule: Rule, rule': Rule)
    requires forall i :: 0 <= i < |rule.rhs| ==> rule.rhs[i] < |g.symbols|
  {
    && rule' == rule.(precsym := rule'.precsym)
    && (rule.precsym.Some? ==> rule'.precsym == rule.precsym)
    && (rule.precsym.None? && rule'.precsym.None? ==> forall i :: 0 <= i < |rule.rhs| ==> g.symbols[rule.rhs[i]].prec < 0)
    && (rule.precsym.None? && rule'.precsym.Some? ==> exists i :: FirstWithPrecedence(g, rule.rhs, i, rule'.precsym.value))
  }

  ghost predicate FirstWithPrecedence(g: Grammar, rhs: seq<nat>, i: nat, x: nat)
    requires forall k :: 0 <= k < |rhs| ==> rhs[k] < |g.symbols|
  {
    && i < |rhs| && rhs[i] == x && g.symbols[rhs[i]].prec >= 0
    && forall k :: 0 <= k < i ==> g.symbols[rhs[k]].prec < 0
  }

  method RulePrecedence(g: Grammar, rule: Rule) returns (rule': Rule)
    requires forall i :: 0 <= i < |rule.rhs| ==> rule.rhs[i] < |g.symbols|
    ensures PrecedenceFound(g, rule, rule')
  {
    rule' := rule;
    if rule.precsym.Some? { return; }
    for i := 0 to |rule.rhs|
      invariant forall k :: 0 <= k < i ==> g.symbols[rule.rhs[k]].prec < 0
    {
      if g.symbols[rule.rhs[i]].prec >= 0 {
        assert FirstWithPrecedence(g, rule.rhs, i, rule.rhs[i]);
        return rule.(precsym := Some(rule.rhs[i]));
      }
    }
  }

  /** FindRulePrecedences: all rules, and nothing but their precedence symbols. */
  method FindRulePrecedences(g: Grammar) returns (h: Grammar)
    requires g.Valid()
    ensures h == g.(rules := h.rules) && |h.rules| == |g.rules| && h.Valid()
    ensures forall r :: 0 <= r < |g.rules| ==> g.ValidRule(g.rules[r]) && PrecedenceFound(g, g.rules[r], h.rules[r])
  {
    var rules: seq<Rule> := [];
    for r := 0 to |g.rules|
      invariant |rules| == r
      invariant forall k :: 0 <= k < r ==> g.ValidRule(g.rules[k]) && PrecedenceFound(g, g.rules[k], rules[k]) && g.ValidRule(rules[k])
    {
      assert g.ValidRule(g.rules[r]);
      var rule := RulePrecedence(g, g.rules[r]);
      rules := rules + [rule];
    }
    h := g.(rules := rules);
    forall r | 0 <= r < |h.rules| ensures h.ValidRule(h.rules[r]) {
      assert g.ValidRule(rules[r]);
    }
  }
}
