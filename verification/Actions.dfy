/** Parser actions of one state and their conflicts: `resolve_conflict` and the loop that drives it. */
module Actions {
  import opened Wrappers
  import opened Grammars

  datatype Kind = SHIFT | ACCEPT | REDUCE | ERROR | CONFLICT | SH_RESOLVED | RD_RESOLVED | NOT_USED

  /** `sp` is the look-ahead symbol; `arg` is the target state of a shift or the rule of a reduce. */
  datatype Action = Action(sp: nat, kind: Kind, arg: nat) {
    /** Actions of the other kinds produce no table entry. */
    predicate Live() { kind == SHIFT || kind == ACCEPT || kind == REDUCE }
  }

  /** The live actions on symbol `s`, in list order. */
  function LiveOn(list: seq<Action>, s: nat): (r: seq<Action>)
    ensures forall i :: 0 <= i < |r| ==> r[i].sp == s && r[i].Live()
  {
    if list == [] then []
    else if list[0].sp == s && list[0].Live() then [list[0]] + LiveOn(list[1..], s)
    else LiveOn(list[1..], s)
  }

  lemma {:induction false} LiveOnFrom(list: seq<Action>, s: nat)
    ensures forall a :: a in LiveOn(list, s) ==> a in list && a.sp == s && a.Live()
  {
    if list != [] {
      LiveOnFrom(list[1..], s);
    }
  }

  // ---------------------------------------------------------------- resolve_conflict

  datatype Judgement = KeepBoth | DropX(kind: Kind) | DropY(kind: Kind)

  function PrecOf(g: Grammar, sym: Option<nat>): int {
    if sym.Some? && sym.value < |g.symbols| then g.symbols[sym.value].prec else -1
  }

  function RulePrec(g: Grammar, r: nat): int {
    if r < |g.rules| then PrecOf(g, g.rules[r].precsym) else -1
  }

  /** Which of two conflicting actions loses, and how the loser is marked. */
  function Judge(g: Grammar, x: Action, y: Action): Judgement {
    if x.kind == SHIFT && y.kind == REDUCE then
      var px, py := PrecOf(g, Some(x.sp)), RulePrec(g, y.arg);
      if px < 0 || py < 0 then DropY(CONFLICT)
      else if px > py then DropY(RD_RESOLVED)
      else if px < py then DropX(SH_RESOLVED)
      else if g.symbols[x.sp].assoc == RIGHT then DropY(RD_RESOLVED)
      else if g.symbols[x.sp].assoc == LEFT then DropX(SH_RESOLVED)
      else DropY(CONFLICT)
    else if x.kind == REDUCE && y.kind == REDUCE then
      var px, py := RulePrec(g, x.arg), RulePrec(g, y.arg);
      if px < 0 || py < 0 || px == py then DropY(CONFLICT)
      else if px > py then DropY(RD_RESOLVED)
      else DropX(RD_RESOLVED)
    else KeepBoth
  }

  function Mark(a: Action, k: Kind): Action { a.(kind := k) }

  function Settle(g: Grammar, x: Action, y: Action): (Action, Action) {
    match Judge(g, x, y)
    case KeepBoth => (x, y)
    case DropX(k) => (Mark(x, k), y)
    case DropY(k) => (x, Mark(y, k))
  }

  /** What the sorted list guarantees about two actions on the same symbol. */
  predicate Comparable(x: Action, y: Action) {
    && (x.kind == SHIFT || x.kind == REDUCE || x.kind == SH_RESOLVED || x.kind == RD_RESOLVED || x.kind == CONFLICT)
    && (y.kind == REDUCE || y.kind == RD_RESOLVED || y.kind == CONFLICT)
  }

  /** resolve_conflict; the three assertions of the source are asserted here. */
  method ResolveConflict(g: Grammar, apx: Action, apy: Action) returns (x: Action, y: Action, errcnt: nat)
    requires g.Valid() && apx.sp == apy.sp && Comparable(apx, apy)
    ensures (x, y) == Settle(g, apx, apy)
    ensures errcnt == if y.kind == CONFLICT && apy.kind != CONFLICT then 1 else 0
  {
    x, y, errcnt := apx, apy, 0;
    if apx.kind == SHIFT && apy.kind == REDUCE {
      var spx, spy := PrecOf(g, Some(apx.sp)), RulePrec(g, apy.arg);
      if spx < 0 || spy < 0 {
        y, errcnt := Mark(apy, CONFLICT), 1;
      } else if spx > spy {
        y := Mark(apy, RD_RESOLVED);
      } else if spx < spy {
        x := Mark(apx, SH_RESOLVED);
      } else if g.symbols[apx.sp].assoc == RIGHT {
        y := Mark(apy, RD_RESOLVED);
      } else if g.symbols[apx.sp].assoc == LEFT {
        x := Mark(apx, SH_RESOLVED);
      } else {
        assert spx == spy && g.symbols[apx.sp].assoc == NONE;
        y, errcnt := Mark(apy, CONFLICT), 1;
      }
    } else if apx.kind == REDUCE && apy.kind == REDUCE {
      var spx, spy := RulePrec(g, apx.arg), RulePrec(g, apy.arg);
      if spx < 0 || spy < 0 || spx == spy {
        y, errcnt := Mark(apy, CONFLICT), 1;
      } else if spx > spy {
        y := Mark(apy, RD_RESOLVED);
      } else {
        x := Mark(apx, RD_RESOLVED);
      }
    } else {
      assert apx.kind == SH_RESOLVED || apx.kind == RD_RESOLVED || apx.kind == CONFLICT ||
             apy.kind == SH_RESOLVED || apy.kind == RD_RESOLVED || apy.kind == CONFLICT;
    }
  }

  // ---------------------------------------------------------------- the resolution loop

  function Winner(g: Grammar, x: Action, y: Action): Action {
    if Judge(g, x, y).DropX? then y else x
  }

  /** Reference semantics of a group of conflicting actions: a running champion. */
  function Champion(g: Grammar, group: seq<Action>): Action
    requires group != []
    decreases |group|
  {
    if |group| == 1 then group[0] else Champion(g, [Winner(g, group[0], group[1])] + group[2..])
  }

  lemma {:induction false} ChampionIn(g: Grammar, group: seq<Action>)
    requires group != []
    ensures Champion(g, group) in group
    decreases |group|
  {
    if |group| > 1 {
      var next := [Winner(g, group[0], group[1])] + group[2..];
      ChampionIn(g, next);
    }
  }

  /** The inner loop: action `x` against the actions on the same symbol that follow it. */
  function Pass(g: Grammar, x: Action, ys: seq<Action>): (r: (Action, seq<Action>))
    ensures |r.1| == |ys|
    decreases ys
  {
    if ys == [] || ys[0].sp != x.sp then (x, ys) else
      var (x1, y1) := Settle(g, x, ys[0]);
      var (x2, rest) := Pass(g, x1, ys[1..]);
      (x2, [y1] + rest)
  }

  function ResolveList(g: Grammar, list: seq<Action>): (r: seq<Action>)
    ensures |r| == |list|
    decreases |list|
  {
    if list == [] then [] else
      var (x, rest) := Pass(g, list[0], list[1..]);
      [x] + ResolveList(g, rest)
  }

  ghost predicate Grouped(list: seq<Action>) {
    forall i, j :: 0 <= i < j < |list| ==> list[i].sp <= list[j].sp
  }

  /** No group mixes in a second shift, an accept or a deleted action. */
  ghost predicate Admissible(list: seq<Action>) {
    forall i, j :: 0 <= i < j < |list| && list[i].sp == list[j].sp ==> Comparable(list[i], list[j])
  }

  /** How resolution may change an action: only a live one, only by marking it as a loser. */
  predicate Evolve(a: Action, b: Action) {
    && b.sp == a.sp && b.arg == a.arg
    && (b.kind == a.kind
        || (a.kind == SHIFT && b.kind == SH_RESOLVED)
        || (a.kind == REDUCE && (b.kind == RD_RESOLVED || b.kind == CONFLICT)))
  }

  ghost predicate Evolved(s: seq<Action>, t: seq<Action>) {
    |s| == |t| && forall i :: 0 <= i < |s| ==> Evolve(s[i], t[i])
  }

  lemma EvolvedKeepsShape(s: seq<Action>, t: seq<Action>)
    requires Evolved(s, t) && Grouped(s) && Admissible(s)
    ensures Grouped(t) && Admissible(t)
  {
    forall i, j | 0 <= i < j < |t| ensures t[i].sp <= t[j].sp && (t[i].sp == t[j].sp ==> Comparable(t[i], t[j])) {
      assert Evolve(s[i], t[i]) && Evolve(s[j], t[j]);
    }
  }

  lemma {:induction false} PassEvolves(g: Grammar, x: Action, ys: seq<Action>)
    ensures Evolve(x, Pass(g, x, ys).0) && Evolved(ys, Pass(g, x, ys).1)
    decreases ys
  {
    if ys != [] && ys[0].sp == x.sp {
      var x1 := Settle(g, x, ys[0]).0;
      PassEvolves(g, x1, ys[1..]);
    }
  }

  lemma {:induction false} LiveOnNone(list: seq<Action>, s: nat)
    requires forall i :: 0 <= i < |list| ==> list[i].sp != s || !list[i].Live()
    ensures LiveOn(list, s) == []
  {
    if list != [] {
      LiveOnNone(list[1..], s);
    }
  }

  lemma LiveOnCons(x: Action, list: seq<Action>, s: nat)
    ensures LiveOn([x] + list, s) == if x.sp == s && x.Live() then [x] + LiveOn(list, s) else LiveOn(list, s)
  {
    assert ([x] + list)[1..] == list;
  }

  lemma {:induction false} PassOther(g: Grammar, x: Action, ys: seq<Action>, s: nat)
    requires s != x.sp
    ensures LiveOn(Pass(g, x, ys).1, s) == LiveOn(ys, s)
    decreases ys
  {
    if ys != [] && ys[0].sp == x.sp {
      var x1 := Settle(g, x, ys[0]).0;
      PassOther(g, x1, ys[1..], s);
      LiveOnCons(Pass(g, x, ys).1[0], Pass(g, x1, ys[1..]).1, s);
    }
  }

  lemma {:induction false} PassDead(g: Grammar, x: Action, ys: seq<Action>)
    requires x.kind != SHIFT && x.kind != REDUCE
    ensures Pass(g, x, ys) == (x, ys)
    decreases ys
  {
    if ys != [] && ys[0].sp == x.sp {
      PassDead(g, x, ys[1..]);
      assert ys == [ys[0]] + ys[1..];
    }
  }

  ghost predicate Follows(x: Action, ys: seq<Action>) {
    Grouped([x] + ys) && Admissible([x] + ys)
  }

  lemma FollowsTail(x: Action, x1: Action, ys: seq<Action>)
    requires ys != [] && Follows(x, ys) && Evolve(x, x1)
    ensures Follows(x1, ys[1..]) && (ys[0].sp == x.sp ==> Comparable(x, ys[0])) && x.sp <= ys[0].sp
  {
    var l, t := [x] + ys, [x1] + ys[1..];
    assert l[0] == x && l[1] == ys[0];
    forall i, j | 0 <= i < j < |t| ensures t[i].sp <= t[j].sp && (t[i].sp == t[j].sp ==> Comparable(t[i], t[j])) {
      assert l[j + 1] == t[j] && (i > 0 ==> l[i + 1] == t[i]);
      assert l[0].sp == t[0].sp;
    }
  }

  lemma FollowsElsewhere(x: Action, ys: seq<Action>)
    requires Follows(x, ys) && (ys == [] || ys[0].sp != x.sp)
    ensures LiveOn(ys, x.sp) == []
  {
    forall i | 0 <= i < |ys| ensures ys[i].sp != x.sp {
      var l := [x] + ys;
      assert l[0] == x && l[1] == ys[0] && l[i + 1] == ys[i];
    }
    LiveOnNone(ys, x.sp);
  }

  /** The champion of a group is that of the winner of its first two and the rest. */
  lemma ChampionOfTwo(g: Grammar, x: Action, y: Action, ls: seq<Action>)
    ensures Champion(g, [x] + ([y] + ls)) == Champion(g, [Winner(g, x, y)] + ls)
  {
    var group := [x] + ([y] + ls);
    assert group[0] == x && group[1] == y && group[2..] == ls;
  }

  /** One pass of a live action either removes all later rivals, or removes the
      action and its rivals up to the one that beats it; the champion stays the same. */
  lemma {:induction false} PassChampion(g: Grammar, x: Action, ys: seq<Action>)
    requires x.kind == SHIFT || x.kind == REDUCE
    requires Follows(x, ys)
    ensures var (x', ys') := Pass(g, x, ys);
            var before, after := [x] + LiveOn(ys, x.sp), LiveOn(ys', x.sp);
            if x'.Live() then x' == x && after == [] && Champion(g, before) == x
            else after != [] && Champion(g, after) == Champion(g, before)
    decreases ys
  {
    if ys == [] || ys[0].sp != x.sp {
      FollowsElsewhere(x, ys);
    } else {
      var y, rest := ys[0], ys[1..];
      FollowsTail(x, x, ys);
      var ls := LiveOn(rest, x.sp);
      match Judge(g, x, y) {
        case KeepBoth =>
          PassChampion(g, x, rest);
          LiveOnCons(y, Pass(g, x, rest).1, x.sp);
        case DropY(k) =>
          PassChampion(g, x, rest);
          LiveOnCons(Mark(y, k), Pass(g, x, rest).1, x.sp);
          ChampionOfTwo(g, x, y, ls);
        case DropX(k) =>
          PassDead(g, Mark(x, k), rest);
          assert [y] + rest == ys;
          ChampionOfTwo(g, x, y, ls);
      }
    }
  }

  /** Main result: after all pairwise resolutions every symbol that had an action keeps
      exactly one live action, the champion of its group. */
  lemma {:induction false} ResolveLeavesChampion(g: Grammar, list: seq<Action>, s: nat)
    requires Grouped(list) && Admissible(list)
    ensures LiveOn(ResolveList(g, list), s) ==
            if LiveOn(list, s) == [] then [] else [Champion(g, LiveOn(list, s))]
    decreases |list|
  {
    if list != [] {
      var x, ys := list[0], list[1..];
      var (x', ys') := Pass(g, x, ys);
      assert list == [x] + ys;
      PassEvolves(g, x, ys);
      EvolvedKeepsShape(ys, ys');
      ResolveLeavesChampion(g, ys', s);
      LiveOnCons(x', ResolveList(g, ys'), s);
      if s != x.sp {
        PassOther(g, x, ys, s);
      } else if x.kind == SHIFT || x.kind == REDUCE {
        PassChampion(g, x, ys);
      } else {
        PassDead(g, x, ys);
        if x.kind == ACCEPT {
          AcceptIsAlone(x, ys);
        }
      }
    }
  }

  lemma AcceptIsAlone(x: Action, ys: seq<Action>)
    requires x.kind == ACCEPT && Follows(x, ys)
    ensures LiveOn(ys, x.sp) == []
  {
    forall i | 0 <= i < |ys| ensures ys[i].sp != x.sp {
      var l := [x] + ys;
      assert l[0] == x && l[i + 1] == ys[i];
    }
    LiveOnNone(ys, x.sp);
  }

  /** A shift survives exactly when precedence favours no reduce of its group. */
  lemma {:induction false} ShiftSurvivesIff(g: Grammar, x: Action, reduces: seq<Action>)
    requires x.kind == SHIFT && forall i :: 0 <= i < |reduces| ==> reduces[i].kind == REDUCE
    ensures Champion(g, [x] + reduces) == x <==>
            forall i :: 0 <= i < |reduces| ==>
              var px, pr := PrecOf(g, Some(x.sp)), RulePrec(g, reduces[i].arg);
              pr < 0 || px < 0 || pr < px || (pr == px && g.symbols[x.sp].assoc != LEFT)
    decreases |reduces|
  {
    if reduces != [] {
      var rest := reduces[1..];
      assert ([x] + reduces)[2..] == rest;
      if Judge(g, x, reduces[0]).DropX? {
        assert forall a :: a in [reduces[0]] + rest ==> a.kind == REDUCE;
        ChampionIn(g, [reduces[0]] + rest);
      } else {
        ShiftSurvivesIff(g, x, rest);
        assert forall i :: 1 <= i < |reduces| ==> reduces[i] == rest[i - 1];
      }
    }
  }

  /** Among reduces whose rules all have a precedence, the highest precedence wins; among
      reduces without any, the first rule wins. */
  lemma {:induction false} ReduceChampion(g: Grammar, rs: seq<Action>)
    requires rs != [] && forall i :: 0 <= i < |rs| ==> rs[i].kind == REDUCE
    ensures (forall i :: 0 <= i < |rs| ==> RulePrec(g, rs[i].arg) >= 0) ==>
              forall i :: 0 <= i < |rs| ==> RulePrec(g, rs[i].arg) <= RulePrec(g, Champion(g, rs).arg)
    ensures (forall i :: 0 <= i < |rs| ==> RulePrec(g, rs[i].arg) < 0) ==> Champion(g, rs) == rs[0]
    decreases |rs|
  {
    if |rs| > 1 {
      var next := [Winner(g, rs[0], rs[1])] + rs[2..];
      ReduceChampion(g, next);
      assert forall i :: 2 <= i < |rs| ==> next[i - 1] == rs[i];
      assert RulePrec(g, next[0].arg) <= RulePrec(g, Champion(g, rs).arg) ||
             !(forall i :: 0 <= i < |next| ==> RulePrec(g, next[i].arg) >= 0);
    }
  }

  /** The number of actions marked as unresolved conflicts. */
  ghost function Conflicts(list: seq<Action>): nat {
    if list == [] then 0 else (if list[0].kind == CONFLICT then 1 else 0) + Conflicts(list[1..])
  }

  lemma {:induction false} ConflictsConcat(s: seq<Action>, t: seq<Action>)
    ensures Conflicts(s + t) == Conflicts(s) + Conflicts(t)
  {
    if s == [] {
      assert s + t == t;
    } else {
      assert (s + t)[1..] == s[1..] + t;
      ConflictsConcat(s[1..], t);
    }
  }

  lemma PassStep(g: Grammar, x: Action, rest: seq<Action>, ys: seq<Action>)
    requires rest != [] && rest[0].sp == x.sp
    ensures var (x1, y) := Settle(g, x, rest[0]);
            && Pass(g, x1, rest[1..]).0 == Pass(g, x, rest).0
            && ys + Pass(g, x, rest).1 == (ys + [y]) + Pass(g, x1, rest[1..]).1
  {
    var (x1, y) := Settle(g, x, rest[0]);
    var tail := Pass(g, x1, rest[1..]).1;
    assert ys + ([y] + tail) == (ys + [y]) + tail;
  }

  /** The inner loop of FindActions: the action `apx` against those that follow it. */
  method PassOver(g: Grammar, apx: Action, aps: seq<Action>) returns (x: Action, ys: seq<Action>, errs: nat)
    requires g.Valid() && Follows(apx, aps)
    ensures (x, ys) == Pass(g, apx, aps)
    ensures Conflicts([x] + ys) == Conflicts([apx] + aps) + errs
  {
    x, ys, errs := apx, [], 0;
    var rest := aps;
    assert [] + Pass(g, apx, aps).1 == Pass(g, apx, aps).1;
    while rest != [] && rest[0].sp == x.sp
      invariant Follows(x, rest)
      invariant Pass(g, apx, aps) == (Pass(g, x, rest).0, ys + Pass(g, x, rest).1)
      invariant x.kind == CONFLICT <==> apx.kind == CONFLICT
      invariant Conflicts(ys) + Conflicts(rest) == Conflicts(aps) + errs
      decreases rest
    {
      var nap := rest[0];
      FollowsTail(x, x, rest);
      ghost var was := x;
      var y, errcnt;
      x, y, errcnt := ResolveConflict(g, x, nap);
      FollowsTail(was, x, rest);
      ConflictsConcat(ys, [y]);
      PassStep(g, was, rest, ys);
      ys, rest, errs := ys + [y], rest[1..], errs + errcnt;
    }
    ConflictsConcat(ys, rest);
    ys := ys + rest;
    ConflictsConcat([x], ys);
    ConflictsConcat([apx], aps);
  }

  /** The nested loops of FindActions over one state's sorted action list. */
  method ResolveAll(g: Grammar, list: seq<Action>) returns (ap: seq<Action>, nconflict: nat)
    requires g.Valid() && Grouped(list) && Admissible(list)
    ensures ap == ResolveList(g, list)
    ensures Conflicts(ap) == Conflicts(list) + nconflict
  {
    ap, nconflict := [], 0;
    var rest := list;
    while rest != []
      invariant Grouped(rest) && Admissible(rest)
      invariant ap + ResolveList(g, rest) == ResolveList(g, list)
      invariant Conflicts(ap) + Conflicts(rest) == Conflicts(list) + nconflict
      decreases |rest|
    {
      var x, ys, errs := ResolveFirst(g, rest);
      ConflictsConcat(ap, [x]);
      assert ap + ([x] + ResolveList(g, ys)) == (ap + [x]) + ResolveList(g, ys);
      ap, rest, nconflict := ap + [x], ys, nconflict + errs;
    }
  }

  /** One round of the outer loop. */
  method ResolveFirst(g: Grammar, list: seq<Action>) returns (x: Action, ys: seq<Action>, errs: nat)
    requires g.Valid() && list != [] && Grouped(list) && Admissible(list)
    ensures |ys| == |list| - 1 && Grouped(ys) && Admissible(ys)
    ensures ResolveList(g, list) == [x] + ResolveList(g, ys)
    ensures Conflicts([x]) + Conflicts(ys) == Conflicts(list) + errs
  {
    assert list == [list[0]] + list[1..];
    PassEvolves(g, list[0], list[1..]);
    x, ys, errs := PassOver(g, list[0], list[1..]);
    EvolvedKeepsShape(list[1..], ys);
    ConflictsConcat([x], ys);
  }
}
