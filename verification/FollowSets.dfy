/**
 `FindFollowSets`: follow sets flow along propagation links until nothing changes.
 Configurations are numbered; `links[c]` lists where the follow set of `c` is copied to.
 */
module FollowSets {
  ghost predicate ValidGraph(links: seq<seq<nat>>) {
    forall c, k :: 0 <= c < |links| && 0 <= k < |links[c]| ==> links[c][k] < |links|
  }

  /** A chain of propagation links. */
  ghost predicate IsPath(links: seq<seq<nat>>, p: seq<nat>) {
    && p != []
    && (forall i :: 0 <= i < |p| ==> p[i] < |links|)
    && (forall i :: 0 <= i < |p| - 1 ==> p[i + 1] in links[p[i]])
  }

  /** Terminal `t` starts out in some configuration from which a chain of links leads to `c`. */
  ghost predicate Flows(links: seq<seq<nat>>, init: seq<set<nat>>, t: nat, c: nat)
    requires |init| == |links|
  {
    exists p :: IsPath(links, p) && t in init[p[0]] && p[|p| - 1] == c
  }

  lemma FlowsStart(links: seq<seq<nat>>, init: seq<set<nat>>, t: nat, c: nat)
    requires |init| == |links| && c < |links| && t in init[c]
    ensures Flows(links, init, t, c)
  {
    assert IsPath(links, [c]);
  }

  lemma FlowsStep(links: seq<seq<nat>>, init: seq<set<nat>>, t: nat, c: nat, d: nat)
    requires |init| == |links| && ValidGraph(links) && c < |links| && d in links[c] && Flows(links, init, t, c)
    ensures Flows(links, init, t, d)
  {
    var p :| IsPath(links, p) && t in init[p[0]] && p[|p| - 1] == c;
    var q := p + [d];
    assert IsPath(links, q) && q[0] == p[0] && q[|q| - 1] == d;
  }

  /** The set of `c` has been copied along all its links. */
  ghost predicate Satisfied(links: seq<seq<nat>>, fws: seq<set<nat>>, c: nat)
    requires |fws| == |links| && ValidGraph(links) && c < |links|
  {
    forall k :: 0 <= k < |links[c]| ==> fws[c] <= fws[links[c][k]]
  }

  ghost predicate SatisfiedUpTo(links: seq<seq<nat>>, fws: seq<set<nat>>, c: nat, n: nat)
    requires |fws| == |links| && ValidGraph(links) && c < |links| && n <= |links[c]|
  {
    forall k :: 0 <= k < n ==> fws[c] <= fws[links[c][k]]
  }

  ghost predicate Sound(links: seq<seq<nat>>, init: seq<set<nat>>, fws: seq<set<nat>>) {
    && |fws| == |init| == |links|
    && (forall c :: 0 <= c < |init| ==> init[c] <= fws[c])
    && (forall c, t :: 0 <= c < |fws| && t in fws[c] ==> Flows(links, init, t, c))
  }

  /** Once every configuration is satisfied, whatever flows to `c` has arrived. */
  lemma {:induction false} SatisfiedIsComplete(links: seq<seq<nat>>, init: seq<set<nat>>, fws: seq<set<nat>>, p: seq<nat>, t: nat)
    requires ValidGraph(links) && Sound(links, init, fws)
    requires forall c :: 0 <= c < |links| ==> Satisfied(links, fws, c)
    requires IsPath(links, p) && t in init[p[0]]
    ensures t in fws[p[|p| - 1]]
    decreases p
  {
    if |p| > 1 {
      var q := p[..|p| - 1];
      SatisfiedIsComplete(links, init, fws, q, t);
      var c := q[|q| - 1];
      assert p[|p| - 2 + 1] in links[p[|p| - 2]];
      var k :| 0 <= k < |links[c]| && links[c][k] == p[|p| - 1];
      assert Satisfied(links, fws, c);
    }
  }

  ghost predicate Bounded(fws: seq<set<nat>>, n: nat) {
    forall c, t :: 0 <= c < |fws| && t in fws[c] ==> t < n
  }

  ghost function Missing(fws: seq<set<nat>>, n: nat): set<(nat, nat)> {
    set c: nat, t: nat | c < |fws| && t < n && t !in fws[c] :: (c, t)
  }

  lemma MissingShrinks(fws: seq<set<nat>>, n: nat, d: nat, more: set<nat>)
    requires d < |fws| && Bounded(fws, n) && forall t :: t in more ==> t < n
    ensures Missing(fws[d := fws[d] + more], n) <= Missing(fws, n)
    ensures !(more <= fws[d]) ==> Missing(fws[d := fws[d] + more], n) < Missing(fws, n)
  {
    if t :| t in more && t !in fws[d] {
      assert (d, t) in Missing(fws, n) && (d, t) !in Missing(fws[d := fws[d] + more], n);
    }
  }

  /** COMPLETE configurations are the satisfied ones (status true stands for COMPLETE). */
  ghost predicate Invariant(links: seq<seq<nat>>, init: seq<set<nat>>, fws: seq<set<nat>>, status: seq<bool>, n: nat) {
    && ValidGraph(links) && Sound(links, init, fws) && Bounded(fws, n) && |status| == |links|
    && forall c :: 0 <= c < |links| && status[c] ==> Satisfied(links, fws, c)
  }

  /** SetUnion along one link, marking the target INCOMPLETE when it changed. */
  method Propagate(links: seq<seq<nat>>, ghost init: seq<set<nat>>, fws0: seq<set<nat>>, status0: seq<bool>, c: nat, k: nat, ghost n: nat)
    returns (fws: seq<set<nat>>, status: seq<bool>, change: bool)
    requires Invariant(links, init, fws0, status0, n) && c < |links| && k < |links[c]| && !status0[c]
    ensures Invariant(links, init, fws, status, n) && !status[c]
    ensures SatisfiedUpTo(links, fws0, c, k) ==> SatisfiedUpTo(links, fws, c, k + 1)
    ensures Missing(fws, n) <= Missing(fws0, n)
    ensures change ==> Missing(fws, n) < Missing(fws0, n)
    ensures !change ==> fws == fws0 && status == status0
  {
    var d := links[c][k];
    MissingShrinks(fws0, n, d, fws0[c]);
    change := !(fws0[c] <= fws0[d]);
    fws := fws0[d := fws0[d] + fws0[c]];
    status := if change then status0[d := false] else status0;
    if !change {
      assert fws0[d] + fws0[c] == fws0[d];
      assert fws == fws0;
    } else {
      UnionIsSound(links, init, fws0, fws, c, d, n);
      UnionSatisfies(links, fws0, fws, status0, status, d);
    }
    SatisfiedNext(links, fws0, fws, c, k);
  }

  /** Copying along a link adds only what flows. */
  lemma UnionIsSound(links: seq<seq<nat>>, init: seq<set<nat>>, fws: seq<set<nat>>, fws': seq<set<nat>>, c: nat, d: nat, n: nat)
    requires ValidGraph(links) && Sound(links, init, fws) && Bounded(fws, n) && c < |links| && d < |links| && d in links[c]
    requires fws' == fws[d := fws[d] + fws[c]]
    ensures Sound(links, init, fws') && Bounded(fws', n)
  {
    forall t | t in fws[c] ensures Flows(links, init, t, d) {
      FlowsStep(links, init, t, c, d);
    }
  }

  /** A larger set leaves the other configurations satisfied. */
  lemma UnionSatisfies(links: seq<seq<nat>>, fws: seq<set<nat>>, fws': seq<set<nat>>, status: seq<bool>, status': seq<bool>, d: nat)
    requires ValidGraph(links) && |fws| == |fws'| == |links| == |status| && d < |links| && status' == status[d := false]
    requires forall x :: 0 <= x < |links| && status[x] ==> Satisfied(links, fws, x)
    requires forall x :: 0 <= x < |links| ==> fws[x] <= fws'[x] && (x != d ==> fws'[x] == fws[x])
    ensures forall x :: 0 <= x < |links| && status'[x] ==> Satisfied(links, fws', x)
  {
    forall x | 0 <= x < |links| && status'[x] ensures Satisfied(links, fws', x) {
      assert Satisfied(links, fws, x);
      forall k | 0 <= k < |links[x]| ensures fws'[x] <= fws'[links[x][k]] {
        assert fws[x] <= fws[links[x][k]];
      }
    }
  }

  /** One more link of `c` is satisfied. */
  lemma SatisfiedNext(links: seq<seq<nat>>, fws: seq<set<nat>>, fws': seq<set<nat>>, c: nat, k: nat)
    requires ValidGraph(links) && |fws| == |links| && c < |links| && k < |links[c]|
    requires fws' == fws[links[c][k] := fws[links[c][k]] + fws[c]]
    ensures SatisfiedUpTo(links, fws, c, k) ==> SatisfiedUpTo(links, fws', c, k + 1)
  {
  }

  /** Copy the set of one INCOMPLETE configuration along all its links; it is then COMPLETE. */
  method Settle(links: seq<seq<nat>>, ghost init: seq<set<nat>>, fws0: seq<set<nat>>, status0: seq<bool>, c: nat, ghost n: nat)
    returns (fws: seq<set<nat>>, status: seq<bool>, progress: bool)
    requires Invariant(links, init, fws0, status0, n) && c < |links| && !status0[c]
    ensures Invariant(links, init, fws, status, n)
    ensures Missing(fws, n) <= Missing(fws0, n)
    ensures progress ==> Missing(fws, n) < Missing(fws0, n)
    ensures !progress ==> fws == fws0 && status == status0[c := true]
  {
    fws, status, progress := fws0, status0, false;
    for k := 0 to |links[c]|
      invariant Invariant(links, init, fws, status, n) && !status[c]
      invariant SatisfiedUpTo(links, fws, c, k)
      invariant Missing(fws, n) <= Missing(fws0, n)
      invariant progress ==> Missing(fws, n) < Missing(fws0, n)
      invariant !progress ==> fws == fws0 && status == status0
    {
      var change;
      fws, status, change := Propagate(links, init, fws, status, c, k, n);
      progress := progress || change;
    }
    MarkComplete(links, init, fws, status, c, n);
    status := status[c := true];
  }

  lemma MarkComplete(links: seq<seq<nat>>, init: seq<set<nat>>, fws: seq<set<nat>>, status: seq<bool>, c: nat, n: nat)
    requires Invariant(links, init, fws, status, n) && c < |links| && SatisfiedUpTo(links, fws, c, |links[c]|)
    ensures Invariant(links, init, fws, status[c := true], n)
  {
    assert Satisfied(links, fws, c);
  }

  method Round(links: seq<seq<nat>>, ghost init: seq<set<nat>>, fws0: seq<set<nat>>, status0: seq<bool>, ghost n: nat)
    returns (fws: seq<set<nat>>, status: seq<bool>, progress: bool)
    requires Invariant(links, init, fws0, status0, n)
    ensures Invariant(links, init, fws, status, n)
    ensures progress ==> Missing(fws, n) < Missing(fws0, n)
    ensures !progress ==> fws == fws0 && forall c :: 0 <= c < |links| ==> status[c]
  {
    fws, status, progress := fws0, status0, false;
    for c := 0 to |links|
      invariant Invariant(links, init, fws, status, n)
      invariant Missing(fws, n) <= Missing(fws0, n)
      invariant progress ==> Missing(fws, n) < Missing(fws0, n)
      invariant !progress ==> fws == fws0 && forall x :: 0 <= x < c ==> status[x]
    {
      if !status[c] {
        var p;
        fws, status, p := Settle(links, init, fws, status, c, n);
        progress := progress || p;
      }
    }
  }

  /** FindFollowSets terminates with the least solution: a terminal ends up in a follow
      set exactly when it was there at the start or reaches it along links. */
  method FindFollowSets(links: seq<seq<nat>>, init: seq<set<nat>>, ghost n: nat) returns (fws: seq<set<nat>>)
    requires ValidGraph(links) && |init| == |links| && Bounded(init, n)
    ensures |fws| == |links| && Bounded(fws, n)
    ensures forall c, t :: 0 <= c < |links| ==> (t in fws[c] <==> Flows(links, init, t, c))
  {
    fws := init;
    var status := seq(|links|, _ => false);
    forall c, t | 0 <= c < |init| && t in init[c] ensures Flows(links, init, t, c) {
      FlowsStart(links, init, t, c);
    }
    var progress := true;
    while progress
      invariant Invariant(links, init, fws, status, n)
      invariant !progress ==> forall c :: 0 <= c < |links| ==> status[c]
      decreases Missing(fws, n), progress
    {
      fws, status, progress := Round(links, init, fws, status, n);
    }
    forall c, t: nat | 0 <= c < |links| && Flows(links, init, t, c) ensures t in fws[c] {
      var p :| IsPath(links, p) && t in init[p[0]] && p[|p| - 1] == c;
      SatisfiedIsComplete(links, init, fws, p, t);
    }
  }
}
