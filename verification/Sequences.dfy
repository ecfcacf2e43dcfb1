/** Sequences: reversal, concatenation of lists of lists, elements without duplicates, and prefixes. They
    are shared by the queues, the buses, the experiments and the barcodes, and have no counterpart in a
    single source file; where a component needs only one fact about a sequence, the fact stands there. */
module Sequences {

  function Reversed<T>(s: seq<T>): (r: seq<T>)
    ensures |r| == |s| && forall i :: 0 <= i < |s| ==> r[i] == s[|s| - 1 - i]
  {
    if s == [] then [] else Reversed(s[1..]) + [s[0]]
  }

  lemma Joined<T>(a: seq<T>, b: seq<T>)
    ensures multiset(a + b) == multiset(a) + multiset(b)
  {
  }

  lemma ReversedAppend<T>(a: seq<T>, b: seq<T>)
    ensures Reversed(a + b) == Reversed(b) + Reversed(a)
  {
  }

  lemma ReversedTwice<T>(a: seq<T>)
    ensures Reversed(Reversed(a)) == a
  {
  }

  function Flatten<T>(lists: seq<seq<T>>): seq<T> {
    if lists == [] then [] else lists[0] + Flatten(lists[1..])
  }

  ghost predicate NoDuplicates<T>(s: seq<T>) {
    forall i, j :: 0 <= i < j < |s| ==> s[i] != s[j]
  }

  ghost function Members<T>(s: seq<T>): set<T> { set x | x in s }

  lemma {:induction false} CountMembers<T>(s: seq<T>)
    requires NoDuplicates(s)
    ensures |Members(s)| == |s|
  {
    if s != [] {
      var init, last := s[..|s| - 1], s[|s| - 1];
      CountMembers(init);
      assert Members(s) == Members(init) + {last};
    }
  }

  /** The first occurrences, in order. */
  ghost function Distinct<T(!new)>(values: seq<T>): (ds: seq<T>)
    ensures NoDuplicates(ds)
    ensures forall v :: v in ds <==> v in values
  {
    if values == [] then []
    else
      var init, last := Distinct(values[..|values| - 1]), values[|values| - 1];
      if last in init then init else init + [last]
  }

  lemma {:induction false} DistinctGrows<T(!new)>(values: seq<T>, k: nat)
    requires k <= |values|
    ensures Distinct(values[..k]) <= Distinct(values)
    decreases |values|
  {
    if k < |values| {
      var init := values[..|values| - 1];
      DistinctGrows(init, k);
      assert init[..k] == values[..k];
    } else {
      assert values[..k] == values;
    }
  }

  lemma {:induction false} DistinctOfDistinct<T(!new)>(values: seq<T>)
    requires NoDuplicates(values)
    ensures Distinct(values) == values
  {
    if values != [] {
      var init := values[..|values| - 1];
      DistinctOfDistinct(init);
      assert values == init + [values[|values| - 1]];
    }
  }

  function AtMost<T>(values: seq<T>, n: nat): seq<T> { if |values| <= n then values else values[..n] }
}
