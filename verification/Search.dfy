/** First occurrence of a pattern, as std::string::find reports it. */
module Search {

  datatype Option<+T> = None | Some(value: T)

  predicate OccursAt<T(==)>(s: seq<T>, pattern: seq<T>, i: nat) {
    i + |pattern| <= |s| && s[i..i + |pattern|] == pattern
  }

  /** The first occurrence at or after i. */
  function FindFrom<T(==)>(s: seq<T>, pattern: seq<T>, i: nat): (r: Option<nat>)
    ensures r.Some? ==> r.value >= i && OccursAt(s, pattern, r.value)
    ensures r.Some? ==> forall j: nat :: i <= j < r.value ==> !OccursAt(s, pattern, j)
    ensures r.None? ==> forall j: nat :: i <= j ==> !OccursAt(s, pattern, j)
    decreases |s| - i
  {
    if i + |pattern| > |s| then None
    else if OccursAt(s, pattern, i) then Some(i)
    else FindFrom(s, pattern, i + 1)
  }

  function Find<T(==)>(s: seq<T>, pattern: seq<T>): Option<nat> {
    FindFrom(s, pattern, 0)
  }

  lemma FoundFirst<T>(s: seq<T>, pattern: seq<T>, i: nat, from: nat)
    requires from <= i && OccursAt(s, pattern, i)
    requires forall j: nat :: from <= j < i ==> !OccursAt(s, pattern, j)
    ensures FindFrom(s, pattern, from) == Some(i)
  {
  }

  /** Appending cannot move the first occurrence. */
  lemma FindIsStable<T>(a: seq<T>, b: seq<T>, pattern: seq<T>)
    requires Find(a, pattern).Some?
    ensures Find(a + b, pattern) == Find(a, pattern)
  {
    var i := Find(a, pattern).value;
    assert (a + b)[i..i + |pattern|] == a[i..i + |pattern|];
    forall j: nat | j < i ensures !OccursAt(a + b, pattern, j) {
      assert !OccursAt(a, pattern, j);
      assert (a + b)[j..j + |pattern|] == a[j..j + |pattern|];
    }
    FoundFirst(a + b, pattern, i, 0);
  }

  lemma FoundWithin<T>(s: seq<T>, pattern: seq<T>)
    requires Find(s, pattern).Some?
    ensures Find(s, pattern).value + |pattern| <= |s|
  {
  }

  /** An occurrence starts with the first element of the pattern. */
  lemma OccurrencesStart<T>(s: seq<T>, pattern: seq<T>)
    requires pattern != []
    ensures forall i: nat :: OccursAt(s, pattern, i) ==> i < |s| && s[i] == pattern[0]
  {
    forall i: nat | OccursAt(s, pattern, i) ensures i < |s| && s[i] == pattern[0] {
      assert s[i..i + |pattern|][0] == s[i];
    }
  }
}
