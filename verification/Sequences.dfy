/** Sequences without duplicates, and what inserting and dropping an element does to them. */
module Sequences {
  ghost predicate NoDup<T(!new)>(s: seq<T>) {
    forall i, j :: 0 <= i < j < |s| ==> s[i] != s[j]
  }

  /** s with x inserted at position k. */
  ghost function Inserted<T>(s: seq<T>, k: nat, x: T): seq<T>
    requires k <= |s|
  {
    s[..k] + [x] + s[k..]
  }

  /** s without its element at position k. */
  ghost function Without<T>(s: seq<T>, k: nat): seq<T>
    requires k < |s|
  {
    s[..k] + s[k+1..]
  }

  lemma InsertedAt<T(!new)>(s: seq<T>, k: nat, x: T)
    requires k <= |s|
    ensures |Inserted(s, k, x)| == |s| + 1 && Inserted(s, k, x)[k] == x
    ensures forall i :: 0 <= i < k ==> Inserted(s, k, x)[i] == s[i]
    ensures forall i :: k < i <= |s| ==> Inserted(s, k, x)[i] == s[i - 1]
    ensures forall y :: y in Inserted(s, k, x) <==> y == x || y in s
    ensures NoDup(s) && x !in s ==> NoDup(Inserted(s, k, x))
  {
  }

  lemma WithoutAt<T(!new)>(s: seq<T>, k: nat)
    requires k < |s|
    ensures |Without(s, k)| == |s| - 1
    ensures forall i :: 0 <= i < |s| - 1 ==> Without(s, k)[i] == s[if i < k then i else i + 1]
    ensures NoDup(s) ==> NoDup(Without(s, k))
    ensures forall y :: y in Without(s, k) ==> y in s
    ensures NoDup(s) ==> forall y :: y in Without(s, k) <==> y in s && y != s[k]
  {
  }

  lemma {:induction false} RangeSize(s: set<int>, n: nat)
    requires forall x :: x in s ==> 0 <= x < n
    ensures |s| <= n
    decreases n
  {
    if n > 0 {
      RangeSize(s - {n - 1}, n - 1);
      if n - 1 in s { assert s == s - {n - 1} + {n - 1}; } else { assert s == s - {n - 1}; }
    } else {
      assert forall x :: x in s <==> x in {};
    }
  }

  lemma {:induction false} NoDupSize<T>(s: seq<T>)
    requires forall i, j :: 0 <= i < j < |s| ==> s[i] != s[j]
    ensures |(set x | x in s)| == |s|
  {
    if s == [] {
    } else {
      var r := s[..|s| - 1];
      NoDupSize(r);
      assert (set x | x in s) == (set x | x in r) + {s[|s| - 1]};
    }
  }
}
