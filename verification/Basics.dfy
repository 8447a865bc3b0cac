/** Optional values, and facts about sequences without repetitions. */
module Basics {

  datatype Option<T> = None | Some(value: T)

  function Min(a: int, b: int): int { if a < b then a else b }

  /** Some element of a set. */
  ghost function Pick<T>(s: set<T>): (x: T)
    requires s != {}
    ensures x in s
  {
    var x :| x in s; x
  }

  /** A position of x in s. */
  ghost function Find<T>(s: seq<T>, x: T): (i: nat)
    requires x in s
    ensures i < |s| && s[i] == x
  {
    var i: nat :| i < |s| && s[i] == x; i
  }

  /** Taking the last element off a concatenation. */
  lemma ConcatLast<T>(a: seq<T>, b: seq<T>)
    requires b != []
    ensures a + b == (a + b[..|b| - 1]) + [b[|b| - 1]]
  {
  }

  ghost predicate Distinct<T>(s: seq<T>) {
    forall i, j :: 0 <= i < j < |s| ==> s[i] != s[j]
  }

  lemma DistinctConcat<T>(a: seq<T>, b: seq<T>)
    requires Distinct(a) && Distinct(b) && forall i :: 0 <= i < |b| ==> b[i] !in a
    ensures Distinct(a + b)
  {
  }

  /** A sequence without repetitions is no longer than the set it is drawn from, and exhausts it if as long. */
  lemma {:induction false} DistinctFits<T>(s: seq<T>, vs: set<T>)
    requires Distinct(s)
    requires forall i :: 0 <= i < |s| ==> s[i] in vs
    ensures |s| <= |vs|
    ensures |s| == |vs| ==> forall v :: v in vs ==> v in s
    decreases |s|
  {
    if s == [] {
      assert |vs| == 0 ==> vs == {};
    } else {
      var n := |s| - 1;
      DistinctFits(s[..n], vs - {s[n]});
      assert s == s[..n] + [s[n]];
    }
  }

  /** The first n natural numbers. */
  function Range(n: nat): set<nat> { if n == 0 then {} else Range(n - 1) + {n - 1} }

  lemma {:induction false} RangeContents(n: nat)
    ensures |Range(n)| == n && forall c :: c in Range(n) <==> 0 <= c < n
  {
    if n > 0 { RangeContents(n - 1); }
  }
}
