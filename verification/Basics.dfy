/** Facts about sequences and sets that several models share. */
module Basics {

  datatype Option<+T> = None | Some(value: T)

  predicate Distinct<T(==)>(s: seq<T>) {
    forall i, j :: 0 <= i < j < |s| ==> s[i] != s[j]
  }

  lemma DistinctJoin<T>(a: seq<T>, b: seq<T>)
    requires Distinct(a) && Distinct(b) && forall x :: x in a ==> x !in b
    ensures Distinct(a + b)
  {
    forall i, j | 0 <= i < j < |a + b| ensures (a + b)[i] != (a + b)[j] {
      if i < |a| <= j {
        assert a[i] in a && b[j - |a|] in b;
      }
    }
  }

  lemma SeqAssoc<T>(a: seq<T>, b: seq<T>, c: seq<T>)
    ensures a + b + c == a + (b + c)
  {
  }

  lemma {:induction false} SubsetSize<T>(a: set<T>, b: set<T>)
    requires a <= b
    ensures |a| <= |b|
  {
    if a != {} {
      var x :| x in a;
      SubsetSize(a - {x}, b - {x});
    }
  }

  predicate Ascends(s: seq<nat>) {
    forall i, j :: 0 <= i < j < |s| ==> s[i] < s[j]
  }

  /** `r` is what stands in `s` at the indices `at`, in the order of `s`. */
  predicate Picks<T(==)>(s: seq<T>, at: seq<nat>, r: seq<T>) {
    && Ascends(at) && |r| == |at|
    && forall k :: 0 <= k < |at| ==> at[k] < |s| && r[k] == s[at[k]]
  }

  lemma PicksNothing<T>(s: seq<T>)
    ensures Picks(s, [], [])
  {
  }

  lemma PicksKept<T>(s: seq<T>, at: seq<nat>, r: seq<T>, x: T)
    requires Picks(s, at, r)
    ensures Picks(s + [x], at, r)
  {
  }

  lemma PicksLast<T>(s: seq<T>, at: seq<nat>, r: seq<T>, x: T)
    requires Picks(s, at, r)
    ensures Picks(s + [x], at + [|s|], r + [x])
  {
  }

  /** The elements of `s`, each where it first occurs. */
  function Firsts<T(==)>(s: seq<T>): seq<T> {
    if s == [] then []
    else
      var before, x := Firsts(s[..|s| - 1]), s[|s| - 1];
      if x in before then before else before + [x]
  }

  lemma {:induction false} FirstsKeep<T>(s: seq<T>)
    ensures Distinct(Firsts(s)) && forall x :: x in Firsts(s) <==> x in s
  {
    if s != [] {
      var init := s[..|s| - 1];
      FirstsKeep(init);
      assert s == init + [s[|s| - 1]];
    }
  }

  lemma NoFirsts<T>()
    ensures Firsts<T>([]) == []
  {
  }

  lemma FirstsStep<T>(s: seq<T>, x: T)
    ensures Firsts(s + [x]) == if x in Firsts(s) then Firsts(s) else Firsts(s) + [x]
    ensures x in Firsts(s) <==> x in s
  {
    FirstsKeep(s);
    assert (s + [x])[..|s|] == s;
  }

  /** `at` are the indices where an element first occurs. */
  ghost predicate FirstIndices<T>(s: seq<T>, at: seq<nat>) {
    forall i :: i in at <==> 0 <= i < |s| && s[i] !in s[..i]
  }

  lemma {:induction false} FirstsExactly<T>(s: seq<T>) returns (at: seq<nat>)
    ensures Picks(s, at, Firsts(s)) && FirstIndices(s, at)
  {
    hide *;
    if s == [] {
      at := [];
      NoIndices<T>();
    } else {
      var n := |s| - 1;
      var init := s[..n];
      var before := FirstsExactly(init);
      FirstsStep(init, s[n]);
      PicksKept(init, before, Firsts(init), s[n]);
      PicksLast(init, before, Firsts(init), s[n]);
      NewIndex(s, before);
      at := if s[n] in init then before else before + [n];
      assert s == init + [s[n]];
    }
  }

  lemma NoIndices<T>()
    ensures Picks<T>([], [], Firsts([])) && FirstIndices<T>([], [])
  {
  }

  lemma NewIndex<T>(s: seq<T>, at: seq<nat>)
    requires s != [] && FirstIndices(s[..|s| - 1], at)
    ensures var n := |s| - 1; FirstIndices(s, if s[n] in s[..n] then at else at + [n])
  {
    var n := |s| - 1;
    var all := if s[n] in s[..n] then at else at + [n];
    forall i ensures i in all <==> 0 <= i < |s| && s[i] !in s[..i] {
      if 0 <= i < n {
        assert s[..i] == s[..n][..i];
      }
    }
  }
}
