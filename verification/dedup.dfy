/** `remove_duplicates` (main.py): order-preserving deduplication. */
module Dedup {
  import opened Sequences

  /** The list `unique` holds after the loop of `remove_duplicates` has seen all of `s`:
      each element is appended when it is not already in `unique`. */
  function RemoveDuplicates<T(==)>(s: seq<T>): (unique: seq<T>)
    ensures NoDuplicates(unique)
    ensures forall i :: 0 <= i < |unique| ==> unique[i] in s
    ensures forall i :: 0 <= i < |s| ==> s[i] in unique
    ensures |unique| <= |s|
    decreases |s|
  {
    if |s| == 0 then []
    else
      var seen := RemoveDuplicates(s[..|s| - 1]);
      var last := s[|s| - 1];
      assert forall i :: 0 <= i < |s| - 1 ==> s[i] == s[..|s| - 1][i];
      if last in seen then seen else seen + [last]
  }

  /** The survivors appear in the order of their first occurrence in the input. */
  lemma {:induction false} FirstOccurrenceOrder<T>(s: seq<T>)
    ensures InFirstOccurrenceOrder(RemoveDuplicates(s), s)
    decreases |s|
  {
    if |s| > 0 {
      var n := |s| - 1;
      var seen := RemoveDuplicates(s[..n]);
      var last := s[n];
      FirstOccurrenceOrder(s[..n]);
      OrderSurvivesExtension(seen, s, n);
      if last !in seen {
        assert last !in s[..n];
        assert FirstIndex(s, last) == n;
        OrderWithLaterElement(seen, s, last);
      }
    }
  }

  /** Elements of a prefix keep their first indices, and so their order, in the whole list. */
  lemma OrderSurvivesExtension<T>(u: seq<T>, s: seq<T>, n: nat)
    requires n <= |s|
    requires forall i :: 0 <= i < |u| ==> u[i] in s[..n]
    requires InFirstOccurrenceOrder(u, s[..n])
    ensures forall i :: 0 <= i < |u| ==> u[i] in s && FirstIndex(s, u[i]) < n
    ensures InFirstOccurrenceOrder(u, s)
  {
    forall i | 0 <= i < |u|
      ensures u[i] in s && FirstIndex(s, u[i]) == FirstIndex(s[..n], u[i]) < n
    {
      FirstIndexOfPrefix(s, n, u[i]);
    }
  }

  /** Appending an element first seen after all of `u` keeps first-occurrence order. */
  lemma OrderWithLaterElement<T>(u: seq<T>, s: seq<T>, x: T)
    requires x in s
    requires forall i :: 0 <= i < |u| ==> u[i] in s && FirstIndex(s, u[i]) < FirstIndex(s, x)
    requires InFirstOccurrenceOrder(u, s)
    ensures InFirstOccurrenceOrder(u + [x], s)
  {
    var v := u + [x];
    forall i, j | 0 <= i < j < |v| && v[i] in s && v[j] in s
      ensures FirstIndex(s, v[i]) < FirstIndex(s, v[j])
    {
      assert v[i] == u[i];
      if j < |u| {
        assert v[j] == u[j];
      }
    }
  }

  /** A list without repetitions passes through unchanged. */
  lemma {:induction false} RemoveDuplicatesOfDistinct<T>(s: seq<T>)
    requires NoDuplicates(s)
    ensures RemoveDuplicates(s) == s
    decreases |s|
  {
    if |s| > 0 {
      var prefix := s[..|s| - 1];
      RemoveDuplicatesOfDistinct(prefix);
      assert s[|s| - 1] !in prefix;
      assert prefix + [s[|s| - 1]] == s;
    }
  }

  /** Removing duplicates twice is the same as removing them once. */
  lemma {:induction false} RemoveDuplicatesIdempotent<T>(s: seq<T>)
    ensures RemoveDuplicates(RemoveDuplicates(s)) == RemoveDuplicates(s)
  {
    RemoveDuplicatesOfDistinct(RemoveDuplicates(s));
  }
}
