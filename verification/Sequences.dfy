/** Sequences without repetition, and how many elements fit in a set; and sequences in pieces. */
module Sequences {

  ghost predicate Distinct<T>(s: seq<T>) {
    forall i, j :: 0 <= i < j < |s| ==> s[i] != s[j]
  }

  function Elems<T>(s: seq<T>): set<T> {
    set x | x in s
  }

  lemma {:induction false} DistinctFits<T>(s: seq<T>, u: set<T>)
    requires Distinct(s) && forall i :: 0 <= i < |s| ==> s[i] in u
    ensures |s| <= |u|
    ensures |s| == |u| ==> forall x :: x in u ==> x in s
  {
    if s == [] {
    } else {
      var n := |s| - 1;
      DistinctFits(s[..n], u - {s[n]});
      assert forall x :: x in u ==> x == s[n] || x in u - {s[n]};
    }
  }

  lemma {:induction false} SetFits<T>(u: set<T>, s: seq<T>)
    requires forall x :: x in u ==> x in s
    ensures |u| <= |s|
  {
    if u != {} {
      var x :| x in u;
      var k :| 0 <= k < |s| && s[k] == x;
      var rest := s[..k] + s[k + 1..];
      forall y | y in u - {x} ensures y in rest {
        var j :| 0 <= j < |s| && s[j] == y;
        assert y == rest[if j < k then j else j - 1];
      }
      SetFits(u - {x}, rest);
    }
  }

  lemma {:induction false} DistinctOnce<T>(s: seq<T>, x: T)
    requires Distinct(s) && x in s
    ensures multiset(s)[x] == 1
  {
    var n := |s| - 1;
    assert s == s[..n] + [s[n]];
    if x == s[n] {
      assert x !in s[..n];
    } else {
      DistinctOnce(s[..n], x);
    }
  }

  function Flatten<T>(pieces: seq<seq<T>>): seq<T> {
    if pieces == [] then [] else pieces[0] + Flatten(pieces[1..])
  }

  /** Taking a beginning off the first piece takes it off the whole. */
  lemma FlattenTakes<T>(first: seq<T>, n: nat, rest: seq<seq<T>>)
    requires n <= |first|
    ensures Flatten([first] + rest) == first[..n] + Flatten([first[n..]] + rest)
    ensures Flatten([first] + rest) == first + Flatten(rest)
  {
    assert ([first] + rest)[1..] == rest && ([first[n..]] + rest)[1..] == rest;
    assert first == first[..n] + first[n..];
    assert first + Flatten(rest) == first[..n] + (first[n..] + Flatten(rest));
  }
}
