/** Order-preserving removal of duplicates, as the image collector applies it to
    the gallery's `src` values. */
module Dedup {

  predicate Distinct<T(==)>(s: seq<T>) {
    forall i, j | 0 <= i < j < |s| :: s[i] != s[j]
  }

  /** The index of the first occurrence of `x` in `s`. */
  function FirstIndex<T(==)>(s: seq<T>, x: T): (k: nat)
    requires x in s
    ensures k < |s| && s[k] == x && x !in s[..k]
  {
    if s[0] == x then 0 else 1 + FirstIndex(s[1..], x)
  }

  /** The elements of `s`, each kept at its first occurrence. */
  function Unique<T(==)>(s: seq<T>): (r: seq<T>)
    ensures Distinct(r)
    ensures forall i | 0 <= i < |r| :: r[i] in s
    ensures forall i | 0 <= i < |s| :: s[i] in r
    ensures |r| <= |s|
  {
    if s == [] then []
    else
      var kept := Unique(s[..|s| - 1]);
      var x := s[|s| - 1];
      if x in kept then kept else kept + [x]
  }

  /** `removeDuplicates`: walk the input and append each element not collected yet. */
  method RemoveDuplicates<T(==)>(a: seq<T>) returns (unique: seq<T>)
    ensures unique == Unique(a)
  {
    unique := [];
    var i := 0;
    while i < |a|
      invariant 0 <= i <= |a|
      invariant unique == Unique(a[..i])
    {
      assert a[..i + 1][..i] == a[..i];
      if a[i] !in unique {
        unique := unique + [a[i]];
      }
      i := i + 1;
    }
    assert a[..|a|] == a;
  }

  lemma {:induction false} FirstIndexOfPrefix<T>(s: seq<T>, x: T, y: T)
    requires y in s
    ensures FirstIndex(s + [x], y) == FirstIndex(s, y)
  {
    if s[0] != y {
      assert (s + [x])[1..] == s[1..] + [x];
      FirstIndexOfPrefix(s[1..], x, y);
    }
  }

  lemma {:induction false} FirstIndexOfNew<T>(s: seq<T>, x: T)
    requires x !in s
    ensures FirstIndex(s + [x], x) == |s|
  {
    if s != [] {
      assert (s + [x])[1..] == s[1..] + [x];
      FirstIndexOfNew(s[1..], x);
    }
  }

  /** The kept elements appear in the order of their first occurrences in the input. */
  lemma {:induction false} UniqueKeepsFirstOccurrenceOrder<T>(s: seq<T>)
    ensures forall i, j | 0 <= i < j < |Unique(s)| :: FirstIndex(s, Unique(s)[i]) < FirstIndex(s, Unique(s)[j])
  {
    if s != [] {
      var init, x := s[..|s| - 1], s[|s| - 1];
      assert s == init + [x];
      UniqueKeepsFirstOccurrenceOrder(init);
      var kept := Unique(init);
      forall y | y in kept ensures FirstIndex(s, y) == FirstIndex(init, y) {
        FirstIndexOfPrefix(init, x, y);
      }
      if x !in kept {
        FirstIndexOfNew(init, x);
        forall y | y in kept ensures FirstIndex(init, y) < |init| { }
      }
    }
  }

  /** A sequence without repetitions is returned unchanged, and only such a sequence is. */
  lemma {:induction false} UniqueFixesExactlyDistinct<T>(s: seq<T>)
    ensures Unique(s) == s <==> Distinct(s)
  {
    if s != [] && Distinct(s) {
      var init := s[..|s| - 1];
      UniqueFixesExactlyDistinct(init);
      assert s[|s| - 1] !in init;
      assert s == init + [s[|s| - 1]];
    }
  }

  /** Removing duplicates twice is removing them once. */
  lemma UniqueIdempotent<T>(s: seq<T>)
    ensures Unique(Unique(s)) == Unique(s)
  {
    UniqueFixesExactlyDistinct(Unique(s));
  }

  /** The example of first-seen order: `[a, b, a, c, b]` becomes `[a, b, c]`. */
  lemma UniqueExample()
    ensures Unique(['a', 'b', 'a', 'c', 'b']) == ['a', 'b', 'c']
  {
    var s := ['a', 'b', 'a', 'c', 'b'];
    assert Unique(s[..1]) == ['a'] by { assert s[..1][..0] == []; }
    assert Unique(s[..2]) == ['a', 'b'] by { assert s[..2][..1] == s[..1]; }
    assert Unique(s[..3]) == ['a', 'b'] by { assert s[..3][..2] == s[..2]; }
    assert Unique(s[..4]) == ['a', 'b', 'c'] by { assert s[..4][..3] == s[..3]; }
    assert s[..4] == s[..|s| - 1];
  }

  /** A gallery that repeats its first image keeps one copy of it. */
  lemma RepeatedFirstIsDropped<T>(x: T, y: T)
    requires x != y
    ensures Unique([x, y, x]) == [x, y]
  {
    var s := [x, y, x];
    assert Unique(s[..1]) == [x] by { assert s[..1][..0] == []; }
    assert Unique(s[..2]) == [x, y] by { assert s[..2][..1] == s[..1]; }
    assert s[..2] == s[..|s| - 1];
  }
}
