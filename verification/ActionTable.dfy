/**
 The packed action table of the LEMON parser generator (the "acttab" module).

 Every state contributes up to two transaction sets, one over terminals and one
 over nonterminals.  A transaction set is a list of (lookahead, action) pairs.
 `Insert` finds an offset at which the pairs can be dropped into one shared,
 overlapping table; the generated parser later reads `table[offset + lookahead]`
 and trusts the entry only when the stored lookahead is the one it asked for.
 */
module ActionTable {
  import opened Wrappers

  datatype Slot = Slot(lookahead: int, action: int)

  const EMPTY := Slot(-1, -1)

  /** What a reader of the table sees for lookahead `la` at offset `off`. */
  function Lookup(table: seq<Slot>, off: int, la: int): Option<int> {
    if 0 <= off + la < |table| && table[off + la].lookahead == la then Some(table[off + la].action) else None
  }

  ghost predicate Distinct(s: seq<Slot>) {
    forall i, j :: 0 <= i < j < |s| ==> s[i].lookahead != s[j].lookahead
  }

  ghost predicate NonNegative(s: seq<Slot>) {
    forall i :: 0 <= i < |s| ==> 0 <= s[i].lookahead
  }

  ghost predicate Lacks(s: seq<Slot>, la: int) {
    forall i :: 0 <= i < |s| ==> s[i].lookahead != la
  }

  /** At `off`, the table answers exactly like the transaction set `s`: its own
      action for every member and a miss for every other lookahead. */
  ghost predicate Exact(table: seq<Slot>, off: int, s: seq<Slot>) {
    && (forall i :: 0 <= i < |s| ==> Lookup(table, off, s[i].lookahead) == Some(s[i].action))
    && (forall la :: 0 <= la && Lacks(s, la) ==> Lookup(table, off, la) == None)
  }

  /** A used slot that a reader at offset `off` would take for its own. */
  ghost predicate Hit(table: seq<Slot>, off: int, k: int) {
    0 <= k < |table| && 0 <= table[k].lookahead && table[k].lookahead == k - off
  }

  ghost predicate InRange(table: seq<Slot>, off: int, s: seq<Slot>) {
    forall i :: 0 <= i < |s| ==> 0 <= off + s[i].lookahead < |table|
  }

  /** The two situations in which the search for an offset stops. */
  ghost predicate Fresh(table: seq<Slot>, off: int, s: seq<Slot>) {
    && InRange(table, off, s)
    && (forall i :: 0 <= i < |s| ==> table[off + s[i].lookahead].lookahead < 0)
    && (forall k :: !Hit(table, off, k))
  }

  ghost predicate Same(table: seq<Slot>, off: int, s: seq<Slot>) {
    && InRange(table, off, s)
    && (forall i :: 0 <= i < |s| ==> table[off + s[i].lookahead] == s[i])
    && (forall k :: Hit(table, off, k) ==> table[k] in s)
  }

  /** The table after all pairs of `s` were stored at `off`, in order. */
  function Write(table: seq<Slot>, off: int, s: seq<Slot>): (r: seq<Slot>)
    requires InRange(table, off, s)
    ensures |r| == |table|
  {
    if s == [] then table else
      var last := s[|s| - 1];
      Write(table, off, s[..|s| - 1])[off + last.lookahead := last]
  }

  lemma {:induction false} WriteAt(table: seq<Slot>, off: int, s: seq<Slot>, k: int)
    requires InRange(table, off, s) && 0 <= k < |table|
    ensures Lacks(s, k - off) ==> Write(table, off, s)[k] == table[k]
    ensures Distinct(s) ==> forall i :: 0 <= i < |s| && off + s[i].lookahead == k ==> Write(table, off, s)[k] == s[i]
  {
    if s != [] {
      assert s == s[..|s| - 1] + [s[|s| - 1]];
      WriteAt(table, off, s[..|s| - 1], k);
    }
  }

  lemma AppendIsFresh(table: seq<Slot>, n: nat, s: seq<Slot>)
    requires NonNegative(s) && InRange(table, n, s)
    requires forall k :: n <= k < |table| ==> table[k].lookahead < 0
    ensures Fresh(table, n, s)
  {
  }

  /** A set stored into free slots reads back exactly. */
  lemma FreshIsExact(table: seq<Slot>, off: int, s: seq<Slot>)
    requires Distinct(s) && NonNegative(s) && Fresh(table, off, s)
    ensures Exact(Write(table, off, s), off, s)
  {
    var t := Write(table, off, s);
    forall i | 0 <= i < |s| ensures Lookup(t, off, s[i].lookahead) == Some(s[i].action) {
      WriteAt(table, off, s, off + s[i].lookahead);
    }
    forall la | 0 <= la && Lacks(s, la) ensures Lookup(t, off, la) == None {
      if 0 <= off + la < |t| {
        WriteAt(table, off, s, off + la);
        assert !Hit(table, off, off + la);
      }
    }
  }

  /** Storing a set into free slots disturbs no set placed earlier. */
  lemma FreshKeeps(table: seq<Slot>, off: int, s: seq<Slot>, off': int, s': seq<Slot>)
    requires Distinct(s) && NonNegative(s) && Fresh(table, off, s)
    requires s' != [] && NonNegative(s') && Exact(table, off', s')
    ensures Exact(Write(table, off, s), off', s')
  {
    var t := Write(table, off, s);
    assert off' != off by {
      var e := s'[0];
      assert Lookup(table, off', e.lookahead) == Some(e.action);
      assert !Hit(table, off, off' + e.lookahead);
    }
    forall la | 0 <= la ensures Lookup(t, off', la) == Lookup(table, off', la) {
      var k := off' + la;
      if 0 <= k < |t| {
        WriteAt(table, off, s, k);
        if i :| 0 <= i < |s| && off + s[i].lookahead == k {
          assert t[k] == s[i] && table[k].lookahead < 0;
        }
      }
    }
  }

  /** Storing a set over an identical earlier one changes nothing. */
  lemma SameIsIdentity(table: seq<Slot>, off: int, s: seq<Slot>)
    requires Distinct(s) && NonNegative(s) && Same(table, off, s)
    ensures Write(table, off, s) == table
    ensures Exact(table, off, s)
  {
    forall k | 0 <= k < |table| ensures Write(table, off, s)[k] == table[k] {
      WriteAt(table, off, s, k);
    }
    forall la | 0 <= la && Lacks(s, la) ensures Lookup(table, off, la) == None {
      if 0 <= off + la < |table| && table[off + la].lookahead == la {
        assert Hit(table, off, off + la);
      }
    }
  }

  ghost function Hits(table: seq<Slot>, off: int, n: nat): set<int>
    requires n <= |table|
  {
    set k | 0 <= k < n && Hit(table, off, k)
  }

  ghost function Places(off: int, s: seq<Slot>): set<int> {
    set i | 0 <= i < |s| :: off + s[i].lookahead
  }

  lemma {:induction false} PlacesSize(off: int, s: seq<Slot>)
    requires Distinct(s)
    ensures |Places(off, s)| == |s|
  {
    if s != [] {
      var init, last := s[..|s| - 1], s[|s| - 1];
      PlacesSize(off, init);
      assert s == init + [last];
      assert off + last.lookahead !in Places(off, init);
      assert Places(off, s) == Places(off, init) + {off + last.lookahead};
    } else {
      assert Places(off, s) == {};
    }
  }

  /** Counting the matching slots is enough to recognise a repeated set. */
  lemma CountingFindsSame(table: seq<Slot>, off: int, s: seq<Slot>, n: nat)
    requires Distinct(s) && NonNegative(s) && n <= |table|
    requires forall i :: 0 <= i < |s| ==> 0 <= off + s[i].lookahead < n && table[off + s[i].lookahead] == s[i]
    requires forall k :: n <= k < |table| ==> table[k].lookahead < 0
    requires |Hits(table, off, n)| == |s|
    ensures Same(table, off, s)
  {
    PlacesSize(off, s);
    var P, H := Places(off, s), Hits(table, off, n);
    assert P <= H;
    assert P == H by {
      if P != H {
        var x :| x in H && x !in P;
        SubsetSize(P + {x}, H);
      }
    }
    forall k | Hit(table, off, k) ensures table[k] in s {
      assert k in H;
    }
  }

  ghost predicate InPlace(table: seq<Slot>, off: int, e: Slot, n: nat) {
    0 <= off + e.lookahead < n <= |table| && table[off + e.lookahead] == e
  }

  /** All pairs of the set lie in their places below `n`. */
  ghost predicate StoredIn(table: seq<Slot>, off: int, s: seq<Slot>, n: nat) {
    forall x :: 0 <= x < |s| ==> InPlace(table, off, s[x], n)
  }

  /** The pairs are in place, and as many slots match as there are pairs. */
  ghost predicate Repeated(table: seq<Slot>, off: int, s: seq<Slot>, n: nat)
    requires n <= |table|
  {
    StoredIn(table, off, s, n) && |Hits(table, off, n)| == |s|
  }

  /** The test of the second scan is exact. */
  lemma RepeatIff(table: seq<Slot>, off: int, s: seq<Slot>, n: nat)
    requires Distinct(s) && NonNegative(s) && n <= |table|
    requires forall k :: n <= k < |table| ==> table[k].lookahead < 0
    ensures Same(table, off, s) <==> Repeated(table, off, s, n)
  {
    if Same(table, off, s) {
      SameIsCounted(table, off, s, n);
    }
    if StoredIn(table, off, s, n) && |Hits(table, off, n)| == |s| {
      forall i | 0 <= i < |s| ensures 0 <= off + s[i].lookahead < n && table[off + s[i].lookahead] == s[i] {
        assert InPlace(table, off, s[i], n);
      }
      CountingFindsSame(table, off, s, n);
    }
  }

  /** A repeated set passes the count. */
  lemma SameIsCounted(table: seq<Slot>, off: int, s: seq<Slot>, n: nat)
    requires Distinct(s) && NonNegative(s) && n <= |table| && Same(table, off, s)
    requires forall k :: n <= k < |table| ==> table[k].lookahead < 0
    ensures forall i :: 0 <= i < |s| ==> off + s[i].lookahead < n
    ensures |Hits(table, off, n)| == |s|
  {
    PlacesSize(off, s);
    forall i | 0 <= i < |s| ensures off + s[i].lookahead < n {
      assert table[off + s[i].lookahead] == s[i];
    }
    forall k | k in Hits(table, off, n) ensures k in Places(off, s) {
      var i :| 0 <= i < |s| && s[i] == table[k];
      assert off + s[i].lookahead == k;
    }
    assert Hits(table, off, n) == Places(off, s);
  }

  /** Distinct lookaheads matter: a set with a pair twice passes the count and then answers for a lookahead that it lacks. */
  lemma CountingNeedsDistinct(a: int, b: int)
    ensures var table, s := [Slot(1, a), Slot(2, b)], [Slot(1, a), Slot(1, a)];
      && (forall i :: 0 <= i < |s| ==> 0 <= -1 + s[i].lookahead < 2 && table[-1 + s[i].lookahead] == s[i])
      && |Hits(table, -1, 2)| == |s| && Write(table, -1, s) == table && !Exact(table, -1, s)
  {
    var table, s := [Slot(1, a), Slot(2, b)], [Slot(1, a), Slot(1, a)];
    assert Hits(table, -1, 2) == {0, 1};
    assert s[..1] == [Slot(1, a)] && s[..1][..0] == [];
    assert Write(table, -1, s[..1]) == table;
    assert Lacks(s, 2) && Lookup(table, -1, 2) == Some(b);
  }

  /** A transaction set together with the offset that was returned for it. */
  datatype Placement = Placement(off: int, entries: seq<Slot>)

  ghost predicate AllExact(table: seq<Slot>, placed: seq<Placement>) {
    forall i :: 0 <= i < |placed| ==>
      placed[i].entries != [] && NonNegative(placed[i].entries) && Exact(table, placed[i].off, placed[i].entries)
  }

  /** Every used slot holds a pair of some placed set. */
  ghost predicate OnlyPlaced(table: seq<Slot>, placed: seq<Placement>) {
    forall k :: 0 <= k < |table| && table[k].lookahead >= 0 ==> InSome(placed, table[k])
  }

  ghost predicate InSome(placed: seq<Placement>, e: Slot) {
    exists i :: 0 <= i < |placed| && e in placed[i].entries
  }

  lemma InsertAddsOnly(table: seq<Slot>, off: int, s: seq<Slot>, placed: seq<Placement>)
    requires Distinct(s) && InRange(table, off, s) && OnlyPlaced(table, placed)
    ensures OnlyPlaced(Write(table, off, s), placed + [Placement(off, s)])
  {
    var t, all := Write(table, off, s), placed + [Placement(off, s)];
    assert all[|placed|].entries == s;
    forall k | 0 <= k < |t| && t[k].lookahead >= 0 ensures InSome(all, t[k]) {
      WriteAt(table, off, s, k);
      if j :| 0 <= j < |s| && off + s[j].lookahead == k {
        assert t[k] in all[|placed|].entries;
      } else {
        var i :| 0 <= i < |placed| && t[k] in placed[i].entries;
        assert all[i] == placed[i];
      }
    }
  }

  /** Whichever way the search stopped, the new set and all earlier ones read back exactly. */
  lemma InsertKeepsAll(table: seq<Slot>, off: int, s: seq<Slot>, placed: seq<Placement>)
    requires s != [] && Distinct(s) && NonNegative(s)
    requires Fresh(table, off, s) || Same(table, off, s)
    requires AllExact(table, placed)
    ensures AllExact(Write(table, off, s), placed + [Placement(off, s)])
  {
    var t := Write(table, off, s);
    if Fresh(table, off, s) {
      FreshIsExact(table, off, s);
      forall i | 0 <= i < |placed| ensures Exact(t, placed[i].off, placed[i].entries) {
        FreshKeeps(table, off, s, placed[i].off, placed[i].entries);
      }
    } else {
      SameIsIdentity(table, off, s);
    }
  }

  /** Slots past the used part are empty, so cutting them off changes no lookup. */
  lemma TrimKeepsLookups(table: seq<Slot>, n: nat, off: int, la: int)
    requires n <= |table| && 0 <= la
    requires forall k :: n <= k < |table| ==> table[k].lookahead < 0
    ensures Lookup(table[..n], off, la) == Lookup(table, off, la)
  {
  }

  /** Used slots hold symbols, free ones -1. */
  ghost predicate Marked(table: seq<Slot>) {
    forall k :: 0 <= k < |table| ==> table[k].lookahead >= -1
  }

  /** The first pair with the smallest lookahead. */
  function Smallest(s: seq<Slot>): Slot
    requires s != []
  {
    var last := s[|s| - 1];
    if |s| == 1 then last else
      var m := Smallest(s[..|s| - 1]);
      if last.lookahead < m.lookahead then last else m
  }

  function Largest(s: seq<Slot>): int
    requires s != []
  {
    var last := s[|s| - 1];
    if |s| == 1 then last.lookahead else
      var m := Largest(s[..|s| - 1]);
      if m < last.lookahead then last.lookahead else m
  }

  lemma {:induction false} ExtremesBound(s: seq<Slot>)
    requires s != []
    ensures Smallest(s) in s && forall i :: 0 <= i < |s| ==> Smallest(s).lookahead <= s[i].lookahead <= Largest(s)
    ensures exists i :: 0 <= i < |s| && s[i].lookahead == Largest(s)
  {
    if |s| == 1 {
      assert s[0].lookahead == Largest(s);
    } else {
      var t := s[..|s| - 1];
      ExtremesBound(t);
      var i :| 0 <= i < |t| && t[i].lookahead == Largest(t);
      assert s[i] == t[i] && s[|s| - 1].lookahead <= Largest(s);
    }
  }

  /** A set of pairs with distinct lookaheads, the pair `mn` of the smallest and the largest lookahead `mx`. */
  ghost predicate SetOk(s: seq<Slot>, mn: Slot, mx: int) {
    && Distinct(s) && NonNegative(s)
    && (s != [] ==> mn == Smallest(s) && mx == Largest(s) && 0 <= mn.lookahead <= mx && Bounds(s, mn.lookahead, mx))
  }

  ghost predicate Bounds(s: seq<Slot>, lo: int, hi: int) {
    forall i :: 0 <= i < |s| ==> lo <= s[i].lookahead <= hi
  }

  lemma PairAdded(s: seq<Slot>, mn: Slot, mx: int, e: Slot)
    requires SetOk(s, mn, mx) && 0 <= e.lookahead && Lacks(s, e.lookahead)
    ensures SetOk(s + [e], if s == [] || e.lookahead < mn.lookahead then e else mn, if s == [] || mx < e.lookahead then e.lookahead else mx)
  {
    assert (s + [e])[..|s|] == s;
    ExtremesBound(s + [e]);
  }

  /** The set could go to offset `off` of a table with `n` slots in use: its slots are free, or beyond the table, and no
      slot is mistaken for one of its own, the free slot before the offset included; or the same set lies there. */
  ghost predicate Takes(table: seq<Slot>, n: nat, s: seq<Slot>, off: int) {
    || Same(table, off, s)
    || (&& (forall i :: 0 <= i < |s| ==> 0 <= off + s[i].lookahead && (off + s[i].lookahead < |table| ==> table[off + s[i].lookahead].lookahead < 0))
        && (forall k :: !Hit(table, off, k))
        && !(0 <= off - 1 < n && off - 1 < |table| && table[off - 1].lookahead == -1))
  }

  /** `off` is the first offset that takes the set, from the one that puts its smallest lookahead into slot 0 on; at worst it is `n`. */
  ghost predicate FirstPlace(table: seq<Slot>, n: nat, s: seq<Slot>, mn: int, off: int) {
    && -mn <= off <= n && (off < n ==> Takes(table, n, s, off))
    && forall o :: -mn <= o < off ==> !Takes(table, n, s, o)
  }

  /** Free slots at the end of the table do not matter. */
  lemma RoomIsFree(table: seq<Slot>, table': seq<Slot>, n: nat, s: seq<Slot>, off: int)
    requires n <= |table| <= |table'| && table'[..|table|] == table && NonNegative(s)
    requires forall k :: |table| <= k < |table'| ==> table'[k].lookahead == -1
    ensures Takes(table', n, s, off) <==> Takes(table, n, s, off)
  {
    forall k ensures Hit(table', off, k) <==> Hit(table, off, k) {
      assert 0 <= k < |table| ==> table'[k] == table[k];
    }
    SameSlots(table, table', s, off);
    forall k | 0 <= k < |table| ensures table'[k] == table[k] {
      assert table'[..|table|][k] == table[k];
    }
  }

  lemma FirstInGrown(table: seq<Slot>, table': seq<Slot>, n: nat, s: seq<Slot>, mn: int, off: int)
    requires n <= |table| <= |table'| && table'[..|table|] == table && NonNegative(s)
    requires forall k :: |table| <= k < |table'| ==> table'[k].lookahead == -1
    ensures FirstPlace(table', n, s, mn, off) <==> FirstPlace(table, n, s, mn, off)
  {
    forall o ensures Takes(table', n, s, o) <==> Takes(table, n, s, o) {
      RoomIsFree(table, table', n, s, o);
    }
  }

  /** What the slot of the first pair says: a free one leaves only free places, a used one only the same set, with the same pair. */
  lemma TakesByFirst(table: seq<Slot>, n: nat, s: seq<Slot>, off: int, e: Slot)
    requires e in s && e.lookahead >= 0 && 0 <= off + e.lookahead < |table|
    ensures table[off + e.lookahead].lookahead < 0 ==> !Same(table, off, s)
    ensures table[off + e.lookahead].lookahead >= 0 && Takes(table, n, s, off) ==> Same(table, off, s) && table[off + e.lookahead] == e
  {
  }

  /** In a table with room, what takes a set is one of the two cases of the search. */
  lemma TakesInRoom(table: seq<Slot>, n: nat, s: seq<Slot>, off: int)
    requires n <= |table| && forall i :: 0 <= i < |s| ==> off + s[i].lookahead < |table|
    ensures Takes(table, n, s, off) <==> Same(table, off, s) || (Fresh(table, off, s) && !(0 <= off - 1 < n && table[off - 1].lookahead == -1))
  {
  }

  /** The slot of the first pair decides which case can apply. */
  lemma SlotDecides(table: seq<Slot>, n: nat, s: seq<Slot>, off: int, e: Slot)
    requires n <= |table| && (forall i :: 0 <= i < |s| ==> off + s[i].lookahead < |table|) && e in s && e.lookahead >= 0 && 0 <= off + e.lookahead
    ensures off + e.lookahead < |table|
    ensures table[off + e.lookahead].lookahead < 0 ==>
              (Takes(table, n, s, off) <==> Fresh(table, off, s) && !(0 <= off - 1 < n && table[off - 1].lookahead == -1))
    ensures table[off + e.lookahead].lookahead >= 0 ==>
              (Takes(table, n, s, off) <==> table[off + e.lookahead] == e && Same(table, off, s))
  {
    var i :| 0 <= i < |s| && s[i] == e;
    TakesInRoom(table, n, s, off);
    TakesByFirst(table, n, s, off, e);
  }

  lemma SameSlots(table: seq<Slot>, table': seq<Slot>, s: seq<Slot>, off: int)
    requires |table| <= |table'| && table'[..|table|] == table && NonNegative(s)
    requires forall k :: |table| <= k < |table'| ==> table'[k].lookahead == -1
    requires forall k :: Hit(table', off, k) <==> Hit(table, off, k)
    ensures Same(table', off, s) <==> Same(table, off, s)
  {
    forall k | 0 <= k < |table| ensures table'[k] == table[k] {
      assert table'[..|table|][k] == table[k];
    }
  }

  class Acttab {
    var nAction: nat              // used slots of aAction
    var aAction: seq<Slot>        // the allocated table
    var mnLookahead: int
    var mnAction: int
    var mxLookahead: int
    var aLookahead: seq<Slot>     // the transaction set being collected
    ghost var placed: seq<Placement>

    ghost predicate ValidSet()
      reads this
    {
      SetOk(aLookahead, Slot(mnLookahead, mnAction), mxLookahead)
    }

    ghost predicate ValidTable()
      reads this
    {
      nAction <= |aAction| && forall k :: nAction <= k < |aAction| ==> aAction[k].lookahead < 0
    }

    ghost predicate Roomy()
      reads this
    {
      ValidSet() && ValidTable() && aLookahead != [] && nAction + mxLookahead + 1 < |aAction|
    }

    ghost predicate Valid()
      reads this
    {
      ValidSet() && ValidTable() && Marked(aAction) && AllExact(aAction, placed) && OnlyPlaced(aAction, placed)
    }

    constructor ()
      ensures Valid() && aLookahead == [] && placed == [] && nAction == 0
    {
      nAction, aAction, aLookahead, placed := 0, [], [], [];
      mnLookahead, mnAction, mxLookahead := 0, 0, 0;
    }

    /** acttab_action: add one pair to the transaction set. */
    method Action(lookahead: int, action: int)
      requires Valid() && 0 <= lookahead
      requires Lacks(aLookahead, lookahead)
      modifies this`aLookahead, this`mnLookahead, this`mnAction, this`mxLookahead
      ensures Valid()
      ensures aLookahead == old(aLookahead) + [Slot(lookahead, action)]
    {
      PairAdded(aLookahead, Slot(mnLookahead, mnAction), mxLookahead, Slot(lookahead, action));
      if aLookahead == [] {
        mxLookahead, mnLookahead, mnAction := lookahead, lookahead, action;
      } else {
        if mxLookahead < lookahead { mxLookahead := lookahead; }
        if mnLookahead > lookahead { mnLookahead, mnAction := lookahead, action; }
      }
      aLookahead := aLookahead + [Slot(lookahead, action)];
    }

    /** Make room for the worst case, in which the set is appended. */
    method Grow()
      requires Valid() && aLookahead != []
      modifies this`aAction
      ensures Valid() && Roomy()
      ensures |old(aAction)| <= |aAction| && aAction[..|old(aAction)|] == old(aAction)
      ensures forall k :: |old(aAction)| <= k < |aAction| ==> aAction[k].lookahead == -1
    {
      var n := mxLookahead + 1;
      if nAction + n >= |aAction| {
        var more := nAction + n + 20;
        var was := aAction;
        aAction := aAction + seq(more, i => EMPTY);
        forall i | 0 <= i < |placed| ensures Exact(aAction, placed[i].off, placed[i].entries) {
          forall la | 0 <= la
            ensures Lookup(aAction, placed[i].off, la) == Lookup(was, placed[i].off, la)
          { }
        }
      }
    }

    /** Slot `off - 1` is free and below nAction: the second loop of the scan takes it for a match, since both sides are -1. */
    ghost predicate FreeBefore(off: int)
      reads this
    {
      0 <= off - 1 < nAction <= |aAction| && aAction[off - 1].lookahead == -1
    }

    /** First scan of the search: are all target slots free, and is no other slot mistaken for ours? */
    method FitsInEmpty(i: nat) returns (fits: bool)
      requires Roomy() && Marked(aAction) && i < nAction + mnLookahead
      requires aAction[i].lookahead < 0
      ensures fits <==> Fresh(aAction, i - mnLookahead, aLookahead) && !FreeBefore(i - mnLookahead)
    {
      ghost var off := i - mnLookahead;
      var j := 0;
      while j < |aLookahead|
        invariant j <= |aLookahead|
        invariant forall x :: 0 <= x < j ==>
          0 <= off + aLookahead[x].lookahead < |aAction| && aAction[off + aLookahead[x].lookahead].lookahead < 0
      {
        var k := aLookahead[j].lookahead - mnLookahead + i;
        if k < 0 { break; }
        if aAction[k].lookahead >= 0 { break; }
        j := j + 1;
      }
      if j < |aLookahead| { return false; }
      j := 0;
      while j < nAction
        invariant j <= nAction
        invariant forall k :: 0 <= k < j ==> aAction[k].lookahead != k - off
      {
        if aAction[j].lookahead == j + mnLookahead - i { break; }
        j := j + 1;
      }
      fits := j == nAction;
      if !fits && !FreeBefore(off) {
        assert Hit(aAction, off, j);
      }
    }

    /** Second scan of the search: is the same set already stored here, and nothing else? */
    method RepeatsEarlier(i: nat) returns (same: bool)
      requires Roomy() && i < nAction + mnLookahead
      ensures same <==> Same(aAction, i - mnLookahead, aLookahead)
    {
      same := StoredAndCounted(i);
      RepeatIff(aAction, i - mnLookahead, aLookahead, nAction);
    }

    /** The two tests of the scan. */
    method StoredAndCounted(i: nat) returns (yes: bool)
      requires ValidTable()
      ensures yes <==> Repeated(aAction, i - mnLookahead, aLookahead, nAction)
    {
      yes := StoredAt(i);
      if yes {
        var n := CountHits(i - mnLookahead);
        yes := n == |aLookahead|;
      }
    }

    /** Its first loop: all pairs of the set lie in their places below nAction. */
    method StoredAt(i: nat) returns (all: bool)
      requires nAction <= |aAction|
      ensures all <==> StoredIn(aAction, i - mnLookahead, aLookahead, nAction)
    {
      for j := 0 to |aLookahead|
        invariant forall x :: 0 <= x < j ==> InPlace(aAction, i - mnLookahead, aLookahead[x], nAction)
      {
        var k := aLookahead[j].lookahead - mnLookahead + i;
        if k < 0 || k >= nAction { return false; }
        if aLookahead[j].lookahead != aAction[k].lookahead { return false; }
        if aLookahead[j].action != aAction[k].action { return false; }
      }
      all := true;
    }

    /** The number of used slots that a reader at `off` would accept. */
    method CountHits(off: int) returns (n: nat)
      requires ValidTable()
      ensures n == |Hits(aAction, off, nAction)|
    {
      n := 0;
      for j := 0 to nAction
        invariant n == |Hits(aAction, off, j)|
      {
        assert Hits(aAction, off, j + 1) ==
               Hits(aAction, off, j) + (if Hit(aAction, off, j) then {j} else {});
        if aAction[j].lookahead >= 0 && aAction[j].lookahead == j - off { n := n + 1; }
      }
    }

    /** acttab_insert: place the collected set, return its offset, start a new set. */
    method Insert() returns (off: int)
      requires Valid() && aLookahead != []
      modifies this
      ensures Valid() && aLookahead == []
      ensures placed == old(placed) + [Placement(off, old(aLookahead))]
      ensures -old(mxLookahead) <= off <= old(nAction) && old(nAction) <= nAction <= old(nAction) + old(mxLookahead) + 1
      ensures FirstPlace(old(aAction), old(nAction), old(aLookahead), old(mnLookahead), off)
    {
      ghost var before := aAction;
      Grow();
      off := FindOffset();
      FirstInGrown(before, aAction, nAction, aLookahead, mnLookahead, off);
      InsertKeepsAll(aAction, off, aLookahead, placed);
      InsertAddsOnly(aAction, off, aLookahead, placed);
      Store(off);
      aLookahead := [];
    }

    /** `takes` says what the tests of the search decide: whether the set could go to an offset. */
    ghost predicate IsTest(takes: int -> bool)
      reads this
    {
      forall o {:trigger Takes(aAction, nAction, aLookahead, o)} :: takes(o) <==> Takes(aAction, nAction, aLookahead, o)
    }

    /** The pair of the smallest lookahead decides which test applies. */
    lemma FirstDecides(i: nat, takes: int -> bool)
      requires Roomy() && IsTest(takes) && i < nAction + mnLookahead
      ensures aAction[i].lookahead < 0 ==> (takes(i - mnLookahead) <==> Fresh(aAction, i - mnLookahead, aLookahead) && !FreeBefore(i - mnLookahead))
      ensures aAction[i].lookahead >= 0 ==> (takes(i - mnLookahead) <==> aAction[i] == Slot(mnLookahead, mnAction) && Same(aAction, i - mnLookahead, aLookahead))
    {
      ExtremesBound(aLookahead);
      SlotDecides(aAction, nAction, aLookahead, i - mnLookahead, Slot(mnLookahead, mnAction));
    }

    method FreeTest(i: nat, ghost takes: int -> bool) returns (ok: bool)
      requires Roomy() && Marked(aAction) && IsTest(takes) && i < nAction + mnLookahead && aAction[i].lookahead < 0
      ensures ok <==> takes(i - mnLookahead)
    {
      FirstDecides(i, takes);
      ok := FitsInEmpty(i);
    }

    method RepeatTest(i: nat, ghost takes: int -> bool) returns (ok: bool)
      requires Roomy() && Marked(aAction) && IsTest(takes) && i < nAction + mnLookahead && aAction[i].lookahead >= 0
      ensures ok <==> takes(i - mnLookahead)
    {
      FirstDecides(i, takes);
      ok := false;
      if aAction[i].lookahead == mnLookahead && aAction[i].action == mnAction {
        ok := RepeatsEarlier(i);
      }
    }

    /** The search loop of acttab_insert: the first offset that works, at worst past the end. */
    method FindOffset() returns (off: int)
      requires Roomy() && Marked(aAction)
      ensures Fresh(aAction, off, aLookahead) || Same(aAction, off, aLookahead)
      ensures -mxLookahead <= off <= nAction
      ensures FirstPlace(aAction, nAction, aLookahead, mnLookahead, off)
    {
      ghost var table, n, s := aAction, nAction, aLookahead;
      ghost var takes := (o: int) => Takes(table, n, s, o);
      off := SearchOffset(takes);
      FoundWorks(off, takes);
    }

    /** An offset that takes the set, or the end of the table, is one of the two cases; it is the first if the others do not. */
    lemma FoundWorks(off: int, takes: int -> bool)
      requires Roomy() && Marked(aAction) && IsTest(takes) && -mnLookahead <= off <= nAction && (off < nAction ==> takes(off))
      requires forall o :: -mnLookahead <= o < off ==> !takes(o)
      ensures Fresh(aAction, off, aLookahead) || Same(aAction, off, aLookahead)
      ensures FirstPlace(aAction, nAction, aLookahead, mnLookahead, off)
    {
      if off < nAction {
        assert Takes(aAction, nAction, aLookahead, off);
        TakesInRoom(aAction, nAction, aLookahead, off);
      } else {
        AppendIsFresh(aAction, nAction, aLookahead);
      }
    }

    method SearchOffset(ghost takes: int -> bool) returns (off: int)
      requires Roomy() && Marked(aAction) && IsTest(takes)
      ensures -mnLookahead <= off <= nAction && (off < nAction ==> takes(off))
      ensures forall o :: -mnLookahead <= o < off ==> !takes(o)
    {
      for i := 0 to nAction + mnLookahead
        invariant forall o :: -mnLookahead <= o < i - mnLookahead ==> !takes(o)
      {
        var ok;
        if aAction[i].lookahead < 0 { ok := FreeTest(i, takes); } else { ok := RepeatTest(i, takes); }
        if ok { return i - mnLookahead; }
      }
      off := nAction;
    }

    method Store(off: int)
      requires InRange(aAction, off, aLookahead) && nAction <= |aAction| && off <= nAction && aLookahead != [] && Marked(aAction)
      requires forall i :: 0 <= i < |aLookahead| ==> 0 <= aLookahead[i].lookahead <= mxLookahead
      requires forall k :: nAction <= k < |aAction| ==> aAction[k].lookahead < 0
      modifies this`aAction, this`nAction, this`placed
      ensures aAction == Write(old(aAction), off, aLookahead)
      ensures placed == old(placed) + [Placement(off, aLookahead)]
      ensures Marked(aAction) && old(nAction) <= nAction <= |aAction| && nAction <= old(nAction) + mxLookahead + 1
      ensures forall k :: nAction <= k < |aAction| ==> aAction[k].lookahead < 0
    {
      var j := 0;
      while j < |aLookahead|
        invariant j <= |aLookahead|
        invariant placed == old(placed)
        invariant InRange(old(aAction), off, aLookahead[..j])
        invariant aAction == Write(old(aAction), off, aLookahead[..j])
        invariant Marked(aAction) && old(nAction) <= nAction <= |aAction| && (nAction == old(nAction) || nAction <= old(nAction) + mxLookahead + 1)
        invariant forall k :: nAction <= k < |aAction| ==> aAction[k].lookahead < 0
      {
        assert aLookahead[..j + 1][..j] == aLookahead[..j];
        var k := off + aLookahead[j].lookahead;
        aAction := aAction[k := aLookahead[j]];
        if k >= nAction { nAction := k + 1; }
        j := j + 1;
      }
      assert aLookahead[..j] == aLookahead;
      placed := placed + [Placement(off, aLookahead)];
    }
  }
}
