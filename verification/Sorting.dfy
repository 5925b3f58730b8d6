/** Sorted sequences of naturals: the order in which the program visits or stores positions. */
module Sorting {

  predicate Ascending(s: seq<nat>) {
    forall i, j :: 0 <= i < j < |s| ==> s[i] < s[j]
  }

  lemma {:induction false} LeastExists(s: set<nat>) returns (m: nat)
    requires s != {}
    ensures m in s && forall x :: x in s ==> m <= x
  {
    var one :| one in s;
    var rest := s - {one};
    m := one;
    if rest != {} {
      var k := LeastExists(rest);
      if k < one { m := k; }
    }
    forall x | x in s
      ensures m <= x
    {
      if x != one { assert x in rest; }
    }
  }

  lemma {:induction false} LeastThere(s: set<nat>)
    requires s != {}
    ensures exists m :: m in s && forall x :: x in s ==> m <= x
  {
    var m := LeastExists(s);
  }

  function Least(s: set<nat>): (m: nat)
    requires s != {}
    ensures m in s && forall x :: x in s ==> m <= x
  {
    LeastThere(s);
    var m :| m in s && forall x :: x in s ==> m <= x;
    m
  }

  /** The members of a set in ascending order, as collecting and sorting them gives. */
  function Sorted(s: set<nat>): (r: seq<nat>)
    ensures Ascending(r)
    ensures forall x :: x in r <==> x in s
    ensures |r| == |s|
  {
    if s == {} then [] else
    var m := Least(s);
    [m] + Sorted(s - {m})
  }
}
