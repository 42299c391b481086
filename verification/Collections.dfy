/** Stock result types and the few facts about sequences that several histories share. */
module Collections {

  datatype Option<+T> = None | Some(value: T)

  datatype Result<+T, +E> = Success(value: T) | Failure(error: E) {
    predicate IsFailure() {
      Failure?
    }

    function PropagateFailure<U>(): Result<U, E>
      requires Failure?
    {
      Failure(error)
    }

    function Extract(): T
      requires Success?
    {
      value
    }
  }

  ghost predicate NoDup<T(!new)>(s: seq<T>) {
    forall i, j :: 0 <= i < j < |s| ==> s[i] != s[j]
  }

  lemma {:induction false} NoDupCount<T(!new)>(s: seq<T>, x: T)
    requires NoDup(s)
    ensures multiset(s)[x] == if x in s then 1 else 0
  {
    if s != [] {
      var n := |s| - 1;
      NoDupCount(s[..n], x);
      assert s == s[..n] + [s[n]];
      assert x in s <==> x in s[..n] || x == s[n];
    }
  }

  /** Two duplicate-free lists of the same elements are rearrangements of each other. */
  lemma SameElements<T(!new)>(s: seq<T>, t: seq<T>)
    requires NoDup(s) && NoDup(t)
    requires forall x :: x in s <==> x in t
    ensures multiset(s) == multiset(t)
  {
    forall x
      ensures multiset(s)[x] == multiset(t)[x]
    {
      NoDupCount(s, x);
      NoDupCount(t, x);
    }
  }

  lemma NoDupTransfers<T(!new)>(s: seq<T>, t: seq<T>)
    requires NoDup(s) && multiset(s) == multiset(t)
    ensures NoDup(t)
  {
    forall i, j | 0 <= i < j < |t|
      ensures t[i] != t[j]
    {
      assert t == t[..j] + [t[j]] + t[j + 1..];
      NoDupCount(s, t[j]);
      assert multiset(t)[t[j]] >= multiset(t[..j])[t[j]] + 1;
      assert t[j] !in t[..j] && t[i] == t[..j][i];
    }
  }

  lemma SameMembers<T>(s: seq<T>, t: seq<T>, x: T)
    requires multiset(s) == multiset(t)
    ensures x in s <==> x in t
  {
    assert x in s <==> x in multiset(s);
    assert x in t <==> x in multiset(t);
  }

  lemma {:induction false} CountAll<T(!new)>(s: seq<T>, x: T)
    requires forall y :: y in s ==> y == x
    ensures multiset(s)[x] == |s|
    ensures forall i :: 0 <= i < |s| ==> s[i] == x
  {
    if s != [] {
      var n := |s| - 1;
      assert s == s[..n] + [s[n]];
      assert s[n] in s && forall y :: y in s[..n] ==> y in s;
      CountAll(s[..n], x);
    }
  }

  lemma OnlyElement<T(!new)>(s: seq<T>, x: T)
    requires NoDup(s) && x in s
    requires forall y :: y in s ==> y == x
    ensures s == [x]
  {
    NoDupCount(s, x);
    CountAll(s, x);
  }

  lemma {:induction false} SetOfNoDup<T(!new)>(s: seq<T>)
    requires NoDup(s)
    ensures |set x | x in s| == |s|
  {
    if s != [] {
      var n := |s| - 1;
      SetOfNoDup(s[..n]);
      assert s == s[..n] + [s[n]];
      assert (set x | x in s) == (set x | x in s[..n]) + {s[n]};
    }
  }

  lemma WithoutOne<T>(s: seq<T>, i: nat)
    requires i < |s|
    ensures multiset(s[..i] + s[i + 1..]) == multiset(s) - multiset{s[i]}
  {
    assert s == s[..i] + [s[i]] + s[i + 1..];
  }

  /** Finds the head of one list in a rearrangement of it; what is left is again a rearrangement. */
  lemma MatchHead<T>(s: seq<T>, t: seq<T>) returns (i: nat)
    requires s != [] && multiset(s) == multiset(t)
    ensures i < |t| && t[i] == s[0] && multiset(s[1..]) == multiset(t[..i] + t[i + 1..])
  {
    SameMembers(s, t, s[0]);
    i :| 0 <= i < |t| && t[i] == s[0];
    WithoutOne(t, i);
    WithoutOne(s, 0);
    assert s[..0] + s[1..] == s[1..];
  }

  lemma SubsetOfSameSize<T(!new)>(s: set<T>, t: set<T>)
    requires s <= t && |s| == |t|
    ensures s == t
  {
    assert |t - s| == |t| - |s|;
    assert t == s + (t - s);
  }
}
