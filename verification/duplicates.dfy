/** `findDuplicatedEntities`: the names proposed more than once across all
    microservices. */
module Duplicates {
  import opened J = Json

  /** `Array.prototype.indexOf`: the first position of `x`, or -1. */
  function IndexOf(xs: seq<Json>, x: Json): (p: int)
    ensures -1 <= p < |xs|
    ensures p == -1 <==> x !in xs
    ensures p >= 0 ==> xs[p] == x && x !in xs[..p]
  {
    if |xs| == 0 then -1
    else if xs[0] == x then 0
    else
      var p := IndexOf(xs[1..], x);
      if p < 0 then -1
      else
        assert xs[..1 + p] == [xs[0]] + xs[1..][..p];
        1 + p
  }

  /** The values found at a position other than their first one: exactly those that
      occur at least twice. */
  function FindDuplicatedEntities(xs: seq<Json>): (dups: set<Json>)
    ensures forall x :: x in dups <==> multiset(xs)[x] >= 2
  {
    var dups := set i | 0 <= i < |xs| && IndexOf(xs, xs[i]) != i :: xs[i];
    DuplicatedIffRepeated(xs, dups);
    dups
  }

  lemma DuplicatedIffRepeated(xs: seq<Json>, dups: set<Json>)
    requires dups == set i | 0 <= i < |xs| && IndexOf(xs, xs[i]) != i :: xs[i]
    ensures forall x :: x in dups <==> multiset(xs)[x] >= 2
  {
    forall x ensures x in dups <==> multiset(xs)[x] >= 2 {
      if x in dups {
        var i :| 0 <= i < |xs| && IndexOf(xs, xs[i]) != i && xs[i] == x;
        TwoPositions(xs, IndexOf(xs, x), i);
      }
      if multiset(xs)[x] >= 2 {
        var p := IndexOf(xs, x);
        assert x in multiset(xs);
        if forall i :: 0 <= i < |xs| && i != p ==> xs[i] != x {
          OnePosition(xs, p);
          assert false;
        }
        var i :| 0 <= i < |xs| && i != p && xs[i] == x;
        assert x in dups;
      }
    }
  }

  /** Two distinct positions holding `x` make it occur at least twice. */
  lemma TwoPositions(xs: seq<Json>, i: int, j: int)
    requires 0 <= i < j < |xs| && xs[i] == xs[j]
    ensures multiset(xs)[xs[i]] >= 2
  {
    assert xs == xs[..j] + xs[j..];
    assert xs[i] in xs[..j];
    assert xs[j] in xs[j..];
    assert multiset(xs) == multiset(xs[..j]) + multiset(xs[j..]);
  }

  /** A value held at one position only occurs once. */
  lemma OnePosition(xs: seq<Json>, p: int)
    requires 0 <= p < |xs|
    requires forall i :: 0 <= i < |xs| && i != p ==> xs[i] != xs[p]
    ensures multiset(xs)[xs[p]] == 1
  {
    var x := xs[p];
    assert xs == xs[..p] + [x] + xs[p + 1..];
    assert x !in xs[..p];
    assert x !in xs[p + 1..];
    assert multiset(xs) == multiset(xs[..p]) + multiset([x]) + multiset(xs[p + 1..]);
  }
}
