/** What several modules share. */
module Wrappers {
  datatype Option<+T> = None | Some(value: T)

  type Byte = x: int | 0 <= x < 256

  ghost predicate NoDuplicates<T(!new)>(s: seq<T>) {
    forall i, j :: 0 <= i < j < |s| ==> s[i] != s[j]
  }

  lemma {:induction false} SubsetSize<T>(a: set<T>, b: set<T>)
    requires a <= b
    ensures |a| <= |b|
  {
    if a != {} {
      var x :| x in a;
      SubsetSize(a - {x}, b - {x});
    }
  }

  lemma {:induction false} NoDuplicatesCount<T(!new)>(s: seq<T>, x: T)
    requires NoDuplicates(s)
    ensures multiset(s)[x] <= 1
  {
    if s != [] {
      NoDuplicatesCount(s[1..], x);
      assert s == [s[0]] + s[1..];
    }
  }

  lemma CountTwice<T(!new)>(s: seq<T>, i: nat, j: nat)
    requires i < j < |s| && s[i] == s[j]
    ensures multiset(s)[s[i]] >= 2
  {
    assert s == s[..j] + [s[j]] + s[j + 1..];
    assert s[i] in s[..j];
  }

  lemma PermutedNoDuplicates<T(!new)>(s: seq<T>, t: seq<T>)
    requires NoDuplicates(s) && multiset(s) == multiset(t)
    ensures NoDuplicates(t)
  {
    forall i, j | 0 <= i < j < |t| ensures t[i] != t[j] {
      NoDuplicatesCount(s, t[i]);
      if t[i] == t[j] {
        CountTwice(t, i, j);
      }
    }
  }

  lemma PermutedMembers<T(!new)>(s: seq<T>, t: seq<T>)
    requires multiset(s) == multiset(t)
    ensures forall x :: x in s <==> x in t
  {
    forall x ensures x in s <==> x in t {
      assert x in s <==> x in multiset(s);
      assert x in t <==> x in multiset(t);
    }
  }
}
