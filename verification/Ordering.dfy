/** Sorted lists of texts without repetition: what a sort and a dedup, or an ordered set, make of a list. */
module Ordering {
  import opened Wrappers
  import Json

  predicate Distinct(xs: seq<string>) {
    forall i, j :: 0 <= i < j < |xs| ==> xs[i] != xs[j]
  }

  /** The distinct texts of a list, in order. */
  function Ordered(xs: seq<string>): (r: seq<string>)
    ensures forall x :: x in r <==> x in xs
  {
    if xs == [] then []
    else
      var n := |xs| - 1;
      var front := Ordered(xs[..n]);
      OrderedStep(xs);
      if xs[n] in front then front else Json.InsertAt(front, Json.Slot(front, xs[n]), xs[n])
  }

  lemma OrderedStep(xs: seq<string>)
    requires xs != []
    ensures forall x :: x in xs <==> x in xs[..|xs| - 1] || x == xs[|xs| - 1]
  {
    assert xs == xs[..|xs| - 1] + [xs[|xs| - 1]];
  }

  lemma {:induction false} OrderedSorted(xs: seq<string>)
    ensures Json.Sorted(Ordered(xs)) && Distinct(Ordered(xs))
  {
    hide Less;
    if xs != [] {
      var n := |xs| - 1;
      OrderedSorted(xs[..n]);
      var front := Ordered(xs[..n]);
      if xs[n] !in front {
        Json.InsertSorted(front, xs[n]);
      }
    }
    SortedDistinct(Ordered(xs));
  }

  lemma SortedDistinct(xs: seq<string>)
    requires Json.Sorted(xs)
    ensures Distinct(xs)
  {
    forall i, j | 0 <= i < j < |xs|
      ensures xs[i] != xs[j]
    {
      LessTotal(xs[i], xs[j]);
    }
  }

  lemma First(xs: seq<string>) returns (x: string)
    requires xs != []
    ensures x in xs
  {
    x := xs[0];
  }

  function Front(xs: seq<string>): seq<string>
    requires xs != []
  {
    xs[..|xs| - 1]
  }

  lemma SameLast(a: seq<string>, b: seq<string>)
    requires a != [] && b != [] && Json.Sorted(a) && Json.Sorted(b) && forall x :: x in a <==> x in b
    ensures a[|a| - 1] == b[|b| - 1]
  {
    hide Less;
    var x, y := a[|a| - 1], b[|b| - 1];
    LessTotal(x, y);
    assert x in b && y in a;
    var i :| 0 <= i < |b| && b[i] == x;
    var j :| 0 <= j < |a| && a[j] == y;
    assert i < |b| - 1 ==> Less(x, y);
    assert j < |a| - 1 ==> Less(y, x);
  }

  lemma FrontMembers(a: seq<string>)
    requires a != [] && Json.Sorted(a)
    ensures Json.Sorted(Front(a)) && forall x :: x in Front(a) <==> x in a && x != a[|a| - 1]
    ensures a == Front(a) + [a[|a| - 1]] && |Front(a)| < |a|
  {
    hide Less;
    SortedDistinct(a);
    assert a == Front(a) + [a[|a| - 1]];
  }

  lemma {:induction false} SortedSame(a: seq<string>, b: seq<string>)
    requires Json.Sorted(a) && Json.Sorted(b) && forall x :: x in a <==> x in b
    ensures a == b
    decreases |a|
  {
    hide Json.Sorted, Front;
    if a == [] {
      if b != [] {
        var x := First(b);
      }
    } else if b == [] {
      var x := First(a);
    } else {
      SameLast(a, b);
      FrontMembers(a);
      FrontMembers(b);
      SortedSame(Front(a), Front(b));
    }
  }

  lemma OrderedSame(a: seq<string>, b: seq<string>)
    requires forall x :: x in a <==> x in b
    ensures Ordered(a) == Ordered(b) && (a == [] <==> b == [])
  {
    hide Ordered;
    OrderedSorted(a);
    OrderedSorted(b);
    SortedSame(Ordered(a), Ordered(b));
    if a != [] {
      var x := First(a);
    }
    if b != [] {
      var y := First(b);
    }
  }
}
