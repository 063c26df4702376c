/** Sets and sequences, as far as several modules need them. */
module Collections {

  function Members<T>(s: seq<T>): set<T> {
    set x | x in s
  }

  predicate Distinct<T(==)>(s: seq<T>) {
    forall i, j :: 0 <= i < j < |s| ==> s[i] != s[j]
  }

  lemma {:induction false} MembersCount<T>(s: seq<T>)
    requires Distinct(s)
    ensures |Members(s)| == |s|
    decreases |s|
  {
    if s == [] {
    } else {
      MembersCount(s[1..]);
      assert Members(s) == {s[0]} + Members(s[1..]);
    }
  }

  lemma Smaller<T>(a: set<T>, b: set<T>)
    requires a <= b
    ensures |a| <= |b|
    ensures |b - a| == |b| - |a|
  {
    assert (b - a) + a == b;
  }
}
