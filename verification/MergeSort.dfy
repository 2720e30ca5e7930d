/**
 The generic list sort of the LEMON parser generator (`merge` and `msort`).

 A list is a sequence of its nodes.  The sort feeds one node at a time into a
 binary counter of 30 slots: slot i is empty or holds a sorted run of 2^i nodes,
 and runs in higher slots are older.  `Merge(newer, older)` prefers the older
 run on ties, which is what makes the sort stable.
 */
module MergeSort {
  const LISTSIZE := 30

  /** A three-way comparison that orders its arguments, ties allowed. */
  ghost predicate TotalPreorder<T(!new)>(cmp: (T, T) -> int) {
    && (forall a, b :: Le(cmp, a, b) <==> cmp(b, a) >= 0)
    && (forall a, b, c :: Le(cmp, a, b) && Le(cmp, b, c) ==> Le(cmp, a, c))
  }

  ghost predicate Le<T(!new)>(cmp: (T, T) -> int, a: T, b: T) {
    cmp(a, b) <= 0
  }

  ghost predicate Sorted<T(!new)>(cmp: (T, T) -> int, s: seq<T>) {
    forall i, j :: 0 <= i < j < |s| ==> Le(cmp, s[i], s[j])
  }

  /** The elements of `s` that tie with `x`, in their order of appearance. */
  ghost function Ties<T(!new)>(cmp: (T, T) -> int, s: seq<T>, x: T): seq<T> {
    if s == [] then []
    else if cmp(s[0], x) == 0 then [s[0]] + Ties(cmp, s[1..], x)
    else Ties(cmp, s[1..], x)
  }

  ghost predicate StableSortOf<T(!new)>(cmp: (T, T) -> int, r: seq<T>, s: seq<T>) {
    && Sorted(cmp, r)
    && multiset(r) == multiset(s)
    && (forall x :: Ties(cmp, r, x) == Ties(cmp, s, x))
  }

  /** Merge of two sorted lists that takes `b` first on ties. */
  function MergeSpec<T(!new)>(cmp: (T, T) -> int, a: seq<T>, b: seq<T>): (r: seq<T>)
    ensures |r| == |a| + |b|
    decreases |a| + |b|
  {
    if a == [] then b
    else if b == [] then a
    else if cmp(a[0], b[0]) < 0 then [a[0]] + MergeSpec(cmp, a[1..], b)
    else [b[0]] + MergeSpec(cmp, a, b[1..])
  }

  lemma {:induction false} TiesConcat<T(!new)>(cmp: (T, T) -> int, s: seq<T>, t: seq<T>, x: T)
    ensures Ties(cmp, s + t, x) == Ties(cmp, s, x) + Ties(cmp, t, x)
  {
    if s == [] {
      assert s + t == t;
    } else {
      TiesConcat(cmp, s[1..], t, x);
      TiesCons(cmp, s[0], s[1..] + t, x);
      assert s + t == [s[0]] + (s[1..] + t);
      var p, q, h := Ties(cmp, s[1..], x), Ties(cmp, t, x), [s[0]];
      assert h + (p + q) == (h + p) + q;
    }
  }

  lemma TiesCons<T(!new)>(cmp: (T, T) -> int, h: T, s: seq<T>, x: T)
    ensures Ties(cmp, [h] + s, x) == if cmp(h, x) == 0 then [h] + Ties(cmp, s, x) else Ties(cmp, s, x)
  {
    assert ([h] + s)[1..] == s;
  }

  lemma {:induction false} MergePermutes<T(!new)>(cmp: (T, T) -> int, a: seq<T>, b: seq<T>)
    ensures multiset(MergeSpec(cmp, a, b)) == multiset(a) + multiset(b)
    decreases |a| + |b|
  {
    if a == [] || b == [] {
    } else if cmp(a[0], b[0]) < 0 {
      MergePermutes(cmp, a[1..], b);
      MultisetCons(a[0], a[1..], a);
      MultisetCons(a[0], MergeSpec(cmp, a[1..], b), MergeSpec(cmp, a, b));
    } else {
      MergePermutes(cmp, a, b[1..]);
      MultisetCons(b[0], b[1..], b);
      MultisetCons(b[0], MergeSpec(cmp, a, b[1..]), MergeSpec(cmp, a, b));
    }
  }

  lemma MultisetCons<T(!new)>(h: T, s: seq<T>, hs: seq<T>)
    requires hs == [h] + s
    ensures multiset(hs) == multiset{h} + multiset(s)
  {
  }

  lemma {:induction false} MergeSorts<T(!new)>(cmp: (T, T) -> int, a: seq<T>, b: seq<T>)
    requires TotalPreorder(cmp) && Sorted(cmp, a) && Sorted(cmp, b)
    ensures Sorted(cmp, MergeSpec(cmp, a, b))
    decreases |a| + |b|
  {
    if a == [] || b == [] {
    } else if cmp(a[0], b[0]) < 0 {
      MergeSorts(cmp, a[1..], b);
      HeadBelow(cmp, a[0], a[1..], b);
      PrependSorts(cmp, a[0], MergeSpec(cmp, a[1..], b));
    } else {
      MergeSorts(cmp, a, b[1..]);
      HeadBelow(cmp, b[0], a, b[1..]);
      PrependSorts(cmp, b[0], MergeSpec(cmp, a, b[1..]));
    }
  }

  lemma PrependSorts<T(!new)>(cmp: (T, T) -> int, h: T, m: seq<T>)
    requires Sorted(cmp, m) && forall i :: 0 <= i < |m| ==> Le(cmp, h, m[i])
    ensures Sorted(cmp, [h] + m)
  {
  }

  lemma HeadBelow<T(!new)>(cmp: (T, T) -> int, h: T, a: seq<T>, b: seq<T>)
    requires TotalPreorder(cmp) && Sorted(cmp, a) && Sorted(cmp, b)
    requires a != [] ==> Le(cmp, h, a[0])
    requires b != [] ==> Le(cmp, h, b[0])
    ensures forall i :: 0 <= i < |MergeSpec(cmp, a, b)| ==> Le(cmp, h, MergeSpec(cmp, a, b)[i])
  {
    var m := MergeSpec(cmp, a, b);
    forall i | 0 <= i < |m| ensures Le(cmp, h, m[i]) {
      MergePermutes(cmp, a, b);
      assert m[i] in multiset(m);
      assert m[i] in a || m[i] in b;
    }
  }

  /** On ties the elements of `b` come before those of `a`. */
  lemma {:induction false} MergeStable<T(!new)>(cmp: (T, T) -> int, a: seq<T>, b: seq<T>, x: T)
    requires TotalPreorder(cmp) && Sorted(cmp, a) && Sorted(cmp, b)
    ensures Ties(cmp, MergeSpec(cmp, a, b), x) == Ties(cmp, b, x) + Ties(cmp, a, x)
    decreases |a| + |b|
  {
    if a == [] || b == [] {
    } else if cmp(a[0], b[0]) < 0 {
      MergeStable(cmp, a[1..], b, x);
      TiesCons(cmp, a[0], MergeSpec(cmp, a[1..], b), x);
      if cmp(a[0], x) == 0 {
        NoTiesAbove(cmp, a[0], b, x);
        assert [] + Ties(cmp, a[1..], x) == Ties(cmp, a[1..], x);
      }
    } else {
      MergeStable(cmp, a, b[1..], x);
      TiesCons(cmp, b[0], MergeSpec(cmp, a, b[1..]), x);
      var p, q, h := Ties(cmp, b[1..], x), Ties(cmp, a, x), [b[0]];
      assert h + (p + q) == (h + p) + q;
    }
  }

  lemma NoTiesAbove<T(!new)>(cmp: (T, T) -> int, h: T, b: seq<T>, x: T)
    requires TotalPreorder(cmp) && Sorted(cmp, b) && cmp(h, x) == 0
    requires b != [] ==> cmp(h, b[0]) < 0
    ensures Ties(cmp, b, x) == []
  {
    forall i | 0 <= i < |b| ensures cmp(b[i], x) != 0 {
      assert Le(cmp, x, h) && !Le(cmp, b[0], h) && (i > 0 ==> Le(cmp, b[0], b[i]));
      assert !Le(cmp, b[i], x);
    }
    NoTies(cmp, b, x);
  }

  lemma {:induction false} NoTies<T(!new)>(cmp: (T, T) -> int, s: seq<T>, x: T)
    requires forall i :: 0 <= i < |s| ==> cmp(s[i], x) != 0
    ensures Ties(cmp, s, x) == []
  {
    if s != [] {
      NoTies(cmp, s[1..], x);
    }
  }

  /** merge: the loop that relinks the two lists into one. */
  method Merge<T(!new)>(cmp: (T, T) -> int, a: seq<T>, b: seq<T>) returns (head: seq<T>)
    ensures head == MergeSpec(cmp, a, b)
  {
    if a == [] {
      return b;
    } else if b == [] {
      return a;
    }
    var a', b' := a, b;
    ghost var whole, todo := MergeSpec(cmp, a, b), MergeSpec(cmp, a, b);
    head := [];
    while a' != [] && b' != []
      invariant head + todo == whole && todo == MergeSpec(cmp, a', b')
      decreases |a'| + |b'|
    {
      if cmp(a'[0], b'[0]) < 0 {
        todo := MergeSpec(cmp, a'[1..], b');
        assert head + ([a'[0]] + todo) == (head + [a'[0]]) + todo;
        head, a' := head + [a'[0]], a'[1..];
      } else {
        todo := MergeSpec(cmp, a', b'[1..]);
        assert head + ([b'[0]] + todo) == (head + [b'[0]]) + todo;
        head, b' := head + [b'[0]], b'[1..];
      }
    }
    head := head + (if a' != [] then a' else b');
  }

  function Pow2(n: nat): (r: nat)
    ensures r > 0
  {
    if n == 0 then 1 else 2 * Pow2(n - 1)
  }

  lemma Pow2Limit()
    ensures Pow2(LISTSIZE) == 0x4000_0000
  {
    assert Pow2(10) == 1024;
    assert Pow2(20) == 0x10_0000 by { assert Pow2(15) == 32768; }
    assert Pow2(25) == 0x200_0000;
  }

  /** Slot i is empty or holds 2^i nodes. */
  ghost predicate Counter<T(!new)>(slots: seq<seq<T>>) {
    forall i :: 0 <= i < |slots| ==> slots[i] == [] || |slots[i]| == Pow2(i)
  }

  ghost predicate AllSorted<T(!new)>(cmp: (T, T) -> int, slots: seq<seq<T>>) {
    forall i :: 0 <= i < |slots| ==> Sorted(cmp, slots[i])
  }

  /** All nodes held from slot `i` on, oldest first: higher slots hold older runs. */
  ghost function Held<T(!new)>(slots: seq<seq<T>>, i: nat): seq<T>
    requires i <= |slots|
    decreases |slots| - i
  {
    if i == |slots| then [] else Held(slots, i + 1) + slots[i]
  }

  /** The inner loop: carry the run `ep` upwards until a free slot, or the last one, takes it. */
  function PushSpec<T(!new)>(cmp: (T, T) -> int, slots: seq<seq<T>>, i: nat, ep: seq<T>): (r: seq<seq<T>>)
    requires i < |slots|
    ensures |r| == |slots|
    decreases |slots| - i
  {
    if i < |slots| - 1 && slots[i] != [] then
      PushSpec(cmp, slots[i := []], i + 1, MergeSpec(cmp, ep, slots[i]))
    else
      slots[i := ep]
  }

  function FeedSpec<T(!new)>(cmp: (T, T) -> int, slots: seq<seq<T>>, list: seq<T>): (r: seq<seq<T>>)
    requires slots != []
    ensures |r| == |slots|
    decreases list
  {
    if list == [] then slots else FeedSpec(cmp, PushSpec(cmp, slots, 0, [list[0]]), list[1..])
  }

  /** The last loop: merge all runs, starting with the newest. */
  function CollectSpec<T(!new)>(cmp: (T, T) -> int, slots: seq<seq<T>>, i: nat, ep: seq<T>): seq<T>
    requires i <= |slots|
    decreases |slots| - i
  {
    if i == |slots| then ep
    else CollectSpec(cmp, slots, i + 1, if slots[i] != [] then MergeSpec(cmp, ep, slots[i]) else ep)
  }

  function NoRuns<T(!new)>(): (r: seq<seq<T>>)
    ensures |r| == LISTSIZE && forall i :: 0 <= i < |r| ==> r[i] == []
  {
    seq(LISTSIZE, i => [])
  }

  function SortSpec<T(!new)>(cmp: (T, T) -> int, list: seq<T>): seq<T> {
    CollectSpec(cmp, FeedSpec(cmp, NoRuns(), list), 0, [])
  }

  lemma {:induction false} HeldFrame<T(!new)>(s: seq<seq<T>>, t: seq<seq<T>>, i: nat)
    requires |s| == |t| && i <= |s| && forall j :: i <= j < |s| ==> s[j] == t[j]
    ensures Held(s, i) == Held(t, i)
    decreases |s| - i
  {
    if i < |s| {
      HeldFrame(s, t, i + 1);
    }
  }

  /** The slots from i on can hold at most 2^|slots| - 2^i nodes, and do so only when all are full. */
  lemma {:induction false} HeldBound<T(!new)>(slots: seq<seq<T>>, i: nat)
    requires Counter(slots) && i <= |slots|
    ensures |Held(slots, i)| <= Pow2(|slots|) - Pow2(i)
    decreases |slots| - i
  {
    if i < |slots| {
      HeldBound(slots, i + 1);
    }
  }

  lemma {:induction false} HeldEmptyBelow<T(!new)>(slots: seq<seq<T>>, i: nat)
    requires i <= |slots| && forall j :: 0 <= j < i ==> slots[j] == []
    ensures Held(slots, 0) == Held(slots, i)
  {
    if i > 0 {
      HeldEmptyBelow(slots, i - 1);
      assert Held(slots, i - 1) == Held(slots, i) + [];
    }
  }

  /** `now` holds the same nodes as `seen` and keeps tied nodes in the order of `seen`. */
  ghost predicate SameTies<T(!new)>(cmp: (T, T) -> int, now: seq<T>, seen: seq<T>) {
    multiset(now) == multiset(seen) && forall x :: Ties(cmp, now, x) == Ties(cmp, seen, x)
  }

  lemma SameTiesSize<T(!new)>(cmp: (T, T) -> int, now: seq<T>, seen: seq<T>)
    requires SameTies(cmp, now, seen)
    ensures |now| == |seen|
  {
    assert |multiset(now)| == |multiset(seen)|;
  }

  lemma SameTiesAppend<T(!new)>(cmp: (T, T) -> int, now: seq<T>, seen: seq<T>, node: T)
    requires SameTies(cmp, now, seen)
    ensures SameTies(cmp, now + [node], seen + [node])
  {
    forall x ensures Ties(cmp, now + [node], x) == Ties(cmp, seen + [node], x) {
      TiesConcat(cmp, now, [node], x);
      TiesConcat(cmp, seen, [node], x);
    }
  }

  /** Merging the newest run into the next older one keeps the order of ties. */
  lemma MergeKeepsTies<T(!new)>(cmp: (T, T) -> int, older: seq<T>, run: seq<T>, ep: seq<T>, seen: seq<T>)
    requires TotalPreorder(cmp) && Sorted(cmp, run) && Sorted(cmp, ep)
    requires SameTies(cmp, older + run + ep, seen)
    ensures SameTies(cmp, older + MergeSpec(cmp, ep, run), seen)
  {
    var m := MergeSpec(cmp, ep, run);
    assert multiset(older + m) == multiset(seen) by {
      MergePermutes(cmp, ep, run);
    }
    forall x ensures Ties(cmp, older + m, x) == Ties(cmp, seen, x) {
      TiesOfMerge(cmp, older, run, ep, x);
    }
  }

  lemma TiesOfMerge<T(!new)>(cmp: (T, T) -> int, older: seq<T>, run: seq<T>, ep: seq<T>, x: T)
    requires TotalPreorder(cmp) && Sorted(cmp, run) && Sorted(cmp, ep)
    ensures Ties(cmp, older + MergeSpec(cmp, ep, run), x) == Ties(cmp, older + run + ep, x)
  {
    var m := MergeSpec(cmp, ep, run);
    assert Ties(cmp, m, x) == Ties(cmp, run, x) + Ties(cmp, ep, x) by { MergeStable(cmp, ep, run, x); }
    TiesConcat(cmp, older, m, x);
    TiesConcat(cmp, older, run, x);
    TiesConcat(cmp, older + run, ep, x);
  }

  /** Pushing keeps the counter shape, whatever the number of nodes. */
  lemma {:induction false} PushCounts<T(!new)>(cmp: (T, T) -> int, slots: seq<seq<T>>, i: nat, ep: seq<T>)
    requires i < |slots| && Counter(slots) && |ep| == Pow2(i)
    ensures Counter(PushSpec(cmp, slots, i, ep))
    decreases |slots| - i
  {
    if i < |slots| - 1 && slots[i] != [] {
      PushCounts(cmp, slots[i := []], i + 1, MergeSpec(cmp, ep, slots[i]));
    }
  }

  lemma {:induction false} PushSorts<T(!new)>(cmp: (T, T) -> int, slots: seq<seq<T>>, i: nat, ep: seq<T>)
    requires TotalPreorder(cmp) && i < |slots| && AllSorted(cmp, slots) && Sorted(cmp, ep)
    ensures AllSorted(cmp, PushSpec(cmp, slots, i, ep))
    decreases |slots| - i
  {
    if i < |slots| - 1 && slots[i] != [] {
      MergeSorts(cmp, ep, slots[i]);
      PushSorts(cmp, slots[i := []], i + 1, MergeSpec(cmp, ep, slots[i]));
    }
  }

  /** While the counter does not overflow, pushing loses nothing and keeps ties in order. */
  lemma {:induction false} PushKeeps<T(!new)>(cmp: (T, T) -> int, slots: seq<seq<T>>, i: nat, ep: seq<T>, seen: seq<T>)
    requires TotalPreorder(cmp) && i < |slots| && Counter(slots) && AllSorted(cmp, slots)
    requires |ep| == Pow2(i) && Sorted(cmp, ep) && forall j :: 0 <= j < i ==> slots[j] == []
    requires SameTies(cmp, Held(slots, i) + ep, seen) && |seen| < Pow2(|slots|)
    ensures SameTies(cmp, Held(PushSpec(cmp, slots, i, ep), 0), seen)
    decreases |slots| - i
  {
    if i < |slots| - 1 && slots[i] != [] {
      CarryKeeps(cmp, slots, i, ep, seen);
      PushKeeps(cmp, slots[i := []], i + 1, MergeSpec(cmp, ep, slots[i]), seen);
    } else {
      StoreKeeps(cmp, slots, i, ep, seen);
    }
  }

  lemma StoreKeeps<T(!new)>(cmp: (T, T) -> int, slots: seq<seq<T>>, i: nat, ep: seq<T>, seen: seq<T>)
    requires i < |slots| && Counter(slots) && (i < |slots| - 1 ==> slots[i] == [])
    requires |ep| == Pow2(i) && forall j :: 0 <= j < i ==> slots[j] == []
    requires SameTies(cmp, Held(slots, i) + ep, seen) && |seen| < Pow2(|slots|)
    ensures SameTies(cmp, Held(slots[i := ep], 0), seen)
  {
    SameTiesSize(cmp, Held(slots, i) + ep, seen);
    LastSlotFree(slots, i, |seen|);
    HeldAfterStore(slots, i, ep);
  }

  lemma CarryKeeps<T(!new)>(cmp: (T, T) -> int, slots: seq<seq<T>>, i: nat, ep: seq<T>, seen: seq<T>)
    requires TotalPreorder(cmp) && i < |slots| && AllSorted(cmp, slots) && Sorted(cmp, ep)
    requires SameTies(cmp, Held(slots, i) + ep, seen)
    ensures Sorted(cmp, MergeSpec(cmp, ep, slots[i]))
    ensures SameTies(cmp, Held(slots[i := []], i + 1) + MergeSpec(cmp, ep, slots[i]), seen)
  {
    MergeSorts(cmp, ep, slots[i]);
    MergeKeepsTies(cmp, Held(slots, i + 1), slots[i], ep, seen);
    HeldFrame(slots, slots[i := []], i + 1);
  }

  lemma HeldAfterStore<T(!new)>(slots: seq<seq<T>>, i: nat, ep: seq<T>)
    requires i < |slots| && forall j :: 0 <= j <= i ==> slots[j] == []
    ensures Held(slots[i := ep], 0) == Held(slots, i) + ep
  {
    var t := slots[i := ep];
    HeldEmptyBelow(t, i);
    HeldFrame(slots, t, i + 1);
    assert Held(slots, i) == Held(slots, i + 1);
  }

  /** The carry stops at a free slot: a full last slot would mean 2^30 nodes. */
  lemma LastSlotFree<T(!new)>(slots: seq<seq<T>>, i: nat, n: nat)
    requires i < |slots| && Counter(slots) && n < Pow2(|slots|)
    requires |Held(slots, i)| + Pow2(i) == n && (i < |slots| - 1 ==> slots[i] == [])
    ensures slots[i] == []
  {
  }

  lemma {:induction false} FeedCounts<T(!new)>(cmp: (T, T) -> int, slots: seq<seq<T>>, list: seq<T>)
    requires slots != [] && Counter(slots)
    ensures Counter(FeedSpec(cmp, slots, list))
    decreases list
  {
    if list != [] {
      PushCounts(cmp, slots, 0, [list[0]]);
      FeedCounts(cmp, PushSpec(cmp, slots, 0, [list[0]]), list[1..]);
    }
  }

  lemma {:induction false} FeedKeeps<T(!new)>(cmp: (T, T) -> int, slots: seq<seq<T>>, list: seq<T>, seen: seq<T>)
    requires TotalPreorder(cmp) && slots != [] && Counter(slots) && AllSorted(cmp, slots)
    requires SameTies(cmp, Held(slots, 0), seen) && |seen + list| < Pow2(|slots|)
    ensures AllSorted(cmp, FeedSpec(cmp, slots, list))
    ensures SameTies(cmp, Held(FeedSpec(cmp, slots, list), 0), seen + list)
    decreases list
  {
    if list == [] {
      assert seen + list == seen;
    } else {
      var next := PushSpec(cmp, slots, 0, [list[0]]);
      SameTiesAppend(cmp, Held(slots, 0), seen, list[0]);
      PushCounts(cmp, slots, 0, [list[0]]);
      PushSorts(cmp, slots, 0, [list[0]]);
      PushKeeps(cmp, slots, 0, [list[0]], seen + [list[0]]);
      assert seen + [list[0]] + list[1..] == seen + list;
      FeedKeeps(cmp, next, list[1..], seen + [list[0]]);
    }
  }

  lemma {:induction false} CollectSize<T(!new)>(cmp: (T, T) -> int, slots: seq<seq<T>>, i: nat, ep: seq<T>)
    requires i <= |slots|
    ensures |CollectSpec(cmp, slots, i, ep)| == |Held(slots, i)| + |ep|
    decreases |slots| - i
  {
    if i < |slots| {
      CollectSize(cmp, slots, i + 1, if slots[i] != [] then MergeSpec(cmp, ep, slots[i]) else ep);
    }
  }

  lemma {:induction false} CollectKeeps<T(!new)>(cmp: (T, T) -> int, slots: seq<seq<T>>, i: nat, ep: seq<T>, seen: seq<T>)
    requires TotalPreorder(cmp) && i <= |slots| && AllSorted(cmp, slots) && Sorted(cmp, ep)
    requires SameTies(cmp, Held(slots, i) + ep, seen)
    ensures StableSortOf(cmp, CollectSpec(cmp, slots, i, ep), seen)
    decreases |slots| - i
  {
    if i == |slots| {
      assert Held(slots, i) + ep == ep;
    } else if slots[i] == [] {
      assert Held(slots, i) == Held(slots, i + 1);
      CollectKeeps(cmp, slots, i + 1, ep, seen);
    } else {
      MergeSorts(cmp, ep, slots[i]);
      MergeKeepsTies(cmp, Held(slots, i + 1), slots[i], ep, seen);
      CollectKeeps(cmp, slots, i + 1, MergeSpec(cmp, ep, slots[i]), seen);
    }
  }

  lemma NoRunsHeld<T(!new)>(cmp: (T, T) -> int)
    ensures Held<T>(NoRuns(), 0) == []
    ensures Counter<T>(NoRuns()) && AllSorted<T>(cmp, NoRuns())
  {
    HeldEmptyBelow<T>(NoRuns(), LISTSIZE);
  }

  /** Feeding a list into empty slots and collecting them sorts it. */
  lemma FeedThenCollect<T(!new)>(cmp: (T, T) -> int, slots: seq<seq<T>>, list: seq<T>)
    requires TotalPreorder(cmp) && slots != [] && Counter(slots) && AllSorted(cmp, slots) && Held(slots, 0) == []
    requires |list| < Pow2(|slots|)
    ensures StableSortOf(cmp, CollectSpec(cmp, FeedSpec(cmp, slots, list), 0, []), list)
  {
    assert [] + list == list;
    FeedKeeps(cmp, slots, list, []);
    var full := FeedSpec(cmp, slots, list);
    assert Held(full, 0) + [] == Held(full, 0);
    CollectKeeps(cmp, full, 0, [], list);
  }

  /** Main result: below 2^30 nodes the sort is a stable sorting permutation. */
  lemma SortIsStableSort<T(!new)>(cmp: (T, T) -> int, list: seq<T>)
    requires TotalPreorder(cmp) && |list| < 0x4000_0000
    ensures StableSortOf(cmp, SortSpec(cmp, list), list)
  {
    Pow2Limit();
    NoRunsHeld<T>(cmp);
    FeedThenCollect(cmp, NoRuns(), list);
  }

  /** The bound is exact: from 2^30 nodes on, the 30-slot counter drops some of them. */
  lemma SortKeepsAllNodesIff<T(!new)>(cmp: (T, T) -> int, list: seq<T>)
    requires TotalPreorder(cmp)
    ensures multiset(SortSpec(cmp, list)) == multiset(list) <==> |list| < 0x4000_0000
  {
    if |list| < 0x4000_0000 {
      SortIsStableSort(cmp, list);
    } else {
      Pow2Limit();
      NoRunsHeld<T>(cmp);
      var slots := FeedSpec(cmp, NoRuns(), list);
      FeedCounts(cmp, NoRuns(), list);
      HeldBound(slots, 0);
      CollectSize(cmp, slots, 0, []);
      assert |multiset(SortSpec(cmp, list))| == |SortSpec(cmp, list)| < |list| == |multiset(list)|;
    }
  }

  method Push<T(!new)>(cmp: (T, T) -> int, slots: array<seq<T>>, node: T)
    requires slots.Length == LISTSIZE
    modifies slots
    ensures slots[..] == PushSpec(cmp, old(slots[..]), 0, [node])
  {
    var ep := [node];
    var i := 0;
    while i < LISTSIZE - 1 && slots[i] != []
      invariant 0 <= i < LISTSIZE
      invariant PushSpec(cmp, slots[..], i, ep) == PushSpec(cmp, old(slots[..]), 0, [node])
    {
      ghost var before := slots[..];
      ep := Merge(cmp, ep, slots[i]);
      slots[i] := [];
      assert slots[..] == before[i := []];
      i := i + 1;
    }
    slots[i] := ep;
  }

  /** msort: feed every node into the counter, then merge what is left. */
  method Sort<T(!new)>(cmp: (T, T) -> int, list: seq<T>) returns (r: seq<T>)
    ensures r == SortSpec(cmp, list)
    ensures TotalPreorder(cmp) && |list| < 0x4000_0000 ==> StableSortOf(cmp, r, list)
  {
    var slots := new seq<T>[LISTSIZE](i => []);
    assert slots[..] == NoRuns();
    var rest := list;
    while rest != []
      invariant FeedSpec(cmp, slots[..], rest) == FeedSpec(cmp, NoRuns(), list)
      decreases rest
    {
      Push(cmp, slots, rest[0]);
      rest := rest[1..];
    }
    r := [];
    for i := 0 to LISTSIZE
      invariant CollectSpec(cmp, slots[..], i, r) == SortSpec(cmp, list)
    {
      if slots[i] != [] {
        r := Merge(cmp, r, slots[i]);
      }
    }
    if TotalPreorder(cmp) && |list| < 0x4000_0000 {
      SortIsStableSort(cmp, list);
    }
  }
}
