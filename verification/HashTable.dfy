/**
 The chained hash tables of the LEMON parser generator (Strsafe, Symbol, State and
 Configtable share one scheme): records live in an array in insertion order, buckets are
 chained through record indices, and the table doubles when it is full.
 */
module HashTable {
  import opened Wrappers

  /** A record; `next` is the index of the next record of the same bucket, or -1. */
  datatype Record<K, D> = Record(key: K, data: D, next: int)

  ghost predicate PowerOfTwo(n: nat)
  {
    n == 1 || (n > 1 && n % 2 == 0 && PowerOfTwo(n / 2))
  }

  /** The initial sizes of the tables. */
  lemma InitialSizes()
    ensures PowerOfTwo(64) && PowerOfTwo(128) && PowerOfTwo(1024)
  {
    assert PowerOfTwo(2) && PowerOfTwo(4) && PowerOfTwo(8) && PowerOfTwo(16) && PowerOfTwo(32) && PowerOfTwo(64);
    assert PowerOfTwo(128) && PowerOfTwo(256) && PowerOfTwo(512);
  }

  /** `hash & (size - 1)` for a size that is a power of two. */
  function Bucket<K>(hash: K -> int, size: nat, key: K): nat
    requires size > 0
  {
    hash(key) % size
  }

  /** `i` is the youngest of the first `n` records that falls into bucket `h`, or -1 if there is none. */
  ghost predicate Youngest<K(!new), D(!new)>(hash: K -> int, size: nat, tbl: seq<Record<K, D>>, h: nat, n: nat, i: int)
    requires size > 0 && n <= |tbl|
  {
    && -1 <= i < n
    && (i >= 0 ==> Bucket(hash, size, tbl[i].key) == h)
    && (forall j :: i < j < n ==> Bucket(hash, size, tbl[j].key) != h)
  }

  /** The chains lead from each record to the next older one of its bucket. */
  ghost predicate Chained<K(!new), D(!new)>(hash: K -> int, size: nat, tbl: seq<Record<K, D>>)
    requires size > 0
  {
    forall i :: 0 <= i < |tbl| ==> Youngest(hash, size, tbl, Bucket(hash, size, tbl[i].key), i, tbl[i].next)
  }

  /** Every chain starts at the youngest record of its bucket. */
  ghost predicate Headed<K(!new), D(!new)>(hash: K -> int, size: nat, tbl: seq<Record<K, D>>, heads: seq<int>)
    requires size > 0
  {
    |heads| == size && forall h :: 0 <= h < size ==> Youngest(hash, size, tbl, h, |tbl|, heads[h])
  }

  ghost predicate DistinctKeys<K(!new), D(!new)>(tbl: seq<Record<K, D>>) {
    forall i, j :: 0 <= i < j < |tbl| ==> tbl[i].key != tbl[j].key
  }

  /** The content of a table: keys and data in insertion order. */
  ghost function Content<K(!new), D(!new)>(tbl: seq<Record<K, D>>): seq<(K, D)> {
    seq(|tbl|, i requires 0 <= i < |tbl| => (tbl[i].key, tbl[i].data))
  }

  ghost predicate Holds<K(!new), D(!new)>(s: seq<(K, D)>, key: K) {
    exists i :: 0 <= i < |s| && s[i].0 == key
  }

  /** Linking a record in front of its bucket's chain keeps the chains. */
  lemma LinkKeepsChains<K(!new), D(!new)>(hash: K -> int, size: nat, tbl: seq<Record<K, D>>, heads: seq<int>, key: K, data: D)
    requires size > 0 && Chained(hash, size, tbl) && Headed(hash, size, tbl, heads)
    ensures Chained(hash, size, tbl + [Record(key, data, heads[Bucket(hash, size, key)])])
  {
    var tbl' := tbl + [Record(key, data, heads[Bucket(hash, size, key)])];
    forall i | 0 <= i < |tbl'| ensures Youngest(hash, size, tbl', Bucket(hash, size, tbl'[i].key), i, tbl'[i].next) {
      if i < |tbl| {
        assert Youngest(hash, size, tbl, Bucket(hash, size, tbl[i].key), i, tbl[i].next);
      } else {
        assert Youngest(hash, size, tbl, Bucket(hash, size, key), |tbl|, heads[Bucket(hash, size, key)]);
      }
    }
  }

  lemma LinkKeepsHeads<K(!new), D(!new)>(hash: K -> int, size: nat, tbl: seq<Record<K, D>>, heads: seq<int>, key: K, data: D)
    requires size > 0 && Headed(hash, size, tbl, heads)
    ensures Headed(hash, size, tbl + [Record(key, data, heads[Bucket(hash, size, key)])], heads[Bucket(hash, size, key) := |tbl|])
  {
    var b := Bucket(hash, size, key);
    var tbl' := tbl + [Record(key, data, heads[b])];
    var heads' := heads[b := |tbl|];
    forall h | 0 <= h < size ensures Youngest(hash, size, tbl', h, |tbl'|, heads'[h]) {
      assert Youngest(hash, size, tbl, h, |tbl|, heads[h]);
    }
  }

  /** Appending a record with a new key appends its pair and keeps the keys distinct, whatever its chain link. */
  lemma AppendContent<K(!new), D(!new)>(tbl: seq<Record<K, D>>, key: K, data: D)
    requires DistinctKeys(tbl) && !Holds(Content(tbl), key)
    ensures forall next :: var tbl' := tbl + [Record(key, data, next)];
      DistinctKeys(tbl') && Content(tbl') == Content(tbl) + [(key, data)]
  {
    forall next: int
      ensures var tbl' := tbl + [Record(key, data, next)]; DistinctKeys(tbl') && Content(tbl') == Content(tbl) + [(key, data)]
    {
      var tbl' := tbl + [Record(key, data, next)];
      forall i, j | 0 <= i < j < |tbl'| ensures tbl'[i].key != tbl'[j].key {
        assert Content(tbl)[i].0 == tbl[i].key;
      }
      assert Content(tbl') == Content(tbl) + [(key, data)];
    }
  }

  class Table<K(==, !new), D(!new)> {
    const hash: K -> int
    var size: nat
    var tbl: seq<Record<K, D>>     // the first `count` records
    var ht: array<int>             // youngest record of each bucket, or -1

    ghost predicate Valid()
      reads this, ht
    {
      && size > 0 && PowerOfTwo(size) && ht.Length == size && |tbl| <= size
      && DistinctKeys(tbl) && Chained(hash, size, tbl)
      && Headed(hash, size, tbl, ht[..])
    }

    /** The table as a list of pairs in insertion order. */
    ghost function View(): seq<(K, D)>
      reads this
    {
      Content(tbl)
    }

    constructor (hash: K -> int, size: nat)
      requires PowerOfTwo(size) && size > 0
      ensures Valid() && View() == [] && this.hash == hash && fresh(ht)
    {
      this.hash := hash;
      this.size := size;
      tbl := [];
      ht := new int[size](_ => -1);
    }

    /** Walk the chain of the key's bucket. */
    method Search(key: K) returns (np: int)
      requires Valid()
      ensures np == -1 ==> !Holds(View(), key)
      ensures np != -1 ==> 0 <= np < |tbl| && tbl[np].key == key
    {
      var h := Bucket(hash, size, key);
      np := ht[h];
      assert Youngest(hash, size, tbl, h, |tbl|, ht[..][h]);
      while np != -1
        invariant -1 <= np < |tbl| && (np >= 0 ==> Bucket(hash, size, tbl[np].key) == h)
        invariant forall j :: np < j < |tbl| ==> tbl[j].key != key
        decreases np
      {
        if tbl[np].key == key { return; }
        assert Youngest(hash, size, tbl, h, np, tbl[np].next);
        np := tbl[np].next;
      }
    }

    /** X_find: the data of the only record with this key. */
    method Find(key: K) returns (r: Option<D>)
      requires Valid()
      ensures r.None? <==> !Holds(View(), key)
      ensures r.Some? ==> (key, r.value) in View()
    {
      var np := Search(key);
      if np == -1 { return None; }
      assert View()[np] == (key, tbl[np].data);
      r := Some(tbl[np].data);
    }

    /** Double the table and chain all records anew, oldest first. */
    method Grow()
      requires Valid()
      modifies this, ht
      ensures Valid() && View() == old(View()) && size == 2 * old(size) && fresh(ht)
    {
      var size' := size * 2;
      var ht' := new int[size'](_ => -1);
      var tbl': seq<Record<K, D>> := [];
      for i := 0 to |tbl|
        invariant |tbl'| == i && forall j :: 0 <= j < i ==> tbl'[j].key == tbl[j].key && tbl'[j].data == tbl[j].data
        invariant Chained(hash, size', tbl')
        invariant Headed(hash, size', tbl', ht'[..])
        modifies ht'
      {
        tbl' := Link(hash, size', tbl', ht', tbl[i].key, tbl[i].data);
      }
      assert Content(tbl') == Content(tbl);
      size, tbl, ht := size', tbl', ht';
    }

    /** Put a record at the head of its bucket's chain. */
    static method Link(hash: K -> int, size: nat, tbl: seq<Record<K, D>>, ht: array<int>, key: K, data: D) returns (tbl': seq<Record<K, D>>)
      requires size > 0 && ht.Length == size && Chained(hash, size, tbl)
      requires Headed(hash, size, tbl, ht[..])
      modifies ht
      ensures Chained(hash, size, tbl') && |tbl'| == |tbl| + 1
      ensures tbl' == tbl + [Record(key, data, tbl'[|tbl|].next)]
      ensures Headed(hash, size, tbl', ht[..])
    {
      var h := Bucket(hash, size, key);
      tbl' := tbl + [Record(key, data, ht[h])];
      LinkKeepsChains(hash, size, tbl, ht[..], key, data);
      LinkKeepsHeads(hash, size, tbl, ht[..], key, data);
      assert ht[..][h := |tbl|] == ht[..h] + [|tbl|] + ht[h + 1..];
      ht[h] := |tbl|;
    }

    /** Append a record whose key is not in the table yet, doubling the table when it is full. */
    method Append(key: K, data: D)
      requires Valid() && !Holds(View(), key)
      modifies this, ht
      ensures Valid() && (ht == old(ht) || fresh(ht))
      ensures View() == old(View()) + [(key, data)]
    {
      if |tbl| >= size {
        Grow();
      }
      AppendContent(tbl, key, data);
      tbl := Link(hash, size, tbl, ht, key, data);
    }

    /** X_insert: append the pair unless the key is there already. */
    method Insert(key: K, data: D) returns (ok: bool)
      requires Valid()
      modifies this, ht
      ensures Valid() && (ht == old(ht) || fresh(ht))
      ensures ok <==> !old(Holds(View(), key))
      ensures View() == if ok then old(View()) + [(key, data)] else old(View())
    {
      var np := Search(key);
      if np != -1 {
        assert View()[np].0 == key;
        return false;
      }
      Append(key, data);
      ok := true;
    }

    /** Strsafe and Symbol_new: the address of the one record for `key`, inserted if necessary. */
    method Intern(key: K, data: D) returns (p: nat)
      requires Valid()
      modifies this, ht
      ensures Valid() && (ht == old(ht) || fresh(ht))
      ensures LivesAt(View(), key, p)
      ensures View() == Interned(old(View()), (key, data))
    {
      var np := Search(key);
      if np != -1 {
        assert View()[np].0 == key;
        return np;
      }
      Append(key, data);
      p := |tbl| - 1;
    }

    /** X_arrayof: the data of all records, in the order of their insertion. */
    method ArrayOf() returns (a: seq<D>)
      requires Valid()
      ensures |a| == |View()| && forall i :: 0 <= i < |a| ==> a[i] == View()[i].1
    {
      a := [];
      for i := 0 to |tbl|
        invariant |a| == i && forall j :: 0 <= j < i ==> a[j] == tbl[j].data
      {
        a := a + [tbl[i].data];
      }
    }

    /** Configtable_clear. */
    method Clear()
      requires Valid()
      modifies this, ht
      ensures Valid() && View() == [] && ht == old(ht) && size == old(size)
    {
      for i := 0 to size
        invariant forall h :: 0 <= h < i ==> ht[h] == -1
        modifies ht
      {
        ht[i] := -1;
      }
      tbl := [];
    }
  }

  ghost predicate DistinctPairs<K(!new), D(!new)>(view: seq<(K, D)>) {
    forall i, j :: 0 <= i < j < |view| ==> view[i].0 != view[j].0
  }

  ghost predicate LivesAt<K(!new), D(!new)>(view: seq<(K, D)>, key: K, p: nat) {
    p < |view| && view[p].0 == key
  }

  /** What one Intern call makes of a table's content. */
  ghost function Interned<K(!new), D(!new)>(view: seq<(K, D)>, request: (K, D)): seq<(K, D)> {
    if Holds(view, request.0) then view else view + [request]
  }

  /** What a run of Intern calls makes of a table's content. */
  ghost function InternedAll<K(!new), D(!new)>(view: seq<(K, D)>, requests: seq<(K, D)>): seq<(K, D)> {
    if requests == [] then view
    else Interned(InternedAll(view, requests[..|requests| - 1]), requests[|requests| - 1])
  }

  lemma {:induction false} InternedAllGrows<K(!new), D(!new)>(view: seq<(K, D)>, requests: seq<(K, D)>, n: nat)
    requires DistinctPairs(view) && n <= |requests|
    ensures DistinctPairs(InternedAll(view, requests))
    ensures InternedAll(view, requests[..n]) <= InternedAll(view, requests)
  {
    if requests == [] || n == |requests| {
      assert requests[..n] == requests;
      if requests != [] {
        InternedAllGrows(view, requests, n - 1);
      }
    } else {
      var m := |requests| - 1;
      InternedAllGrows(view, requests[..m], n);
      assert requests[..m][..n] == requests[..n];
    }
  }

  /**
   Over every run of Intern calls, resizes included, two calls return one address exactly
   when their keys are equal. `ps[i]` is the address that call `i` returned at its time.
   */
  lemma OneAddressPerKey<K(!new), D(!new)>(view: seq<(K, D)>, requests: seq<(K, D)>, ps: seq<nat>)
    requires DistinctPairs(view) && |ps| == |requests|
    requires forall i :: 0 <= i < |ps| ==> LivesAt(InternedAll(view, requests[..i + 1]), requests[i].0, ps[i])
    ensures forall i, j :: 0 <= i < |ps| && 0 <= j < |ps| ==> (ps[i] == ps[j] <==> requests[i].0 == requests[j].0)
  {
    var end := InternedAll(view, requests);
    InternedAllGrows(view, requests, 0);
    forall i | 0 <= i < |ps| ensures LivesAt(end, requests[i].0, ps[i]) {
      InternedAllGrows(view, requests, i + 1);
      assert LivesAt(InternedAll(view, requests[..i + 1]), requests[i].0, ps[i]);
    }
  }
}
