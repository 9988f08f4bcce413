/** What the modules share: optional values and sequences of sequences. */
module Basics {
  datatype Option<+T> = None | Some(value: T)

  predicate Distinct<T(==)>(xs: seq<T>) {
    forall i, j :: 0 <= i < j < |xs| ==> xs[i] != xs[j]
  }

  function Flatten<T>(xss: seq<seq<T>>): seq<T> {
    if |xss| == 0 then [] else Flatten(xss[..|xss| - 1]) + xss[|xss| - 1]
  }

  lemma FlattenSnoc<T>(xss: seq<seq<T>>, xs: seq<T>)
    ensures Flatten(xss + [xs]) == Flatten(xss) + xs
  {
    assert (xss + [xs])[..|xss|] == xss;
  }

  lemma {:induction false} FlattenCons<T>(xs: seq<T>, xss: seq<seq<T>>)
    ensures Flatten([xs] + xss) == xs + Flatten(xss)
  {
    if |xss| == 0 {
      FlattenOne(xs);
      assert [xs] + xss == [xs];
    } else {
      var front, last := xss[..|xss| - 1], xss[|xss| - 1];
      calc {
        Flatten([xs] + xss);
        { assert [xs] + xss == ([xs] + front) + [last]; }
        Flatten(([xs] + front) + [last]);
        { FlattenSnoc([xs] + front, last); }
        Flatten([xs] + front) + last;
        { FlattenCons(xs, front); }
        (xs + Flatten(front)) + last;
        { SeqAssociative(xs, Flatten(front), last); }
        xs + Flatten(xss);
      }
    }
  }

  lemma FlattenOne<T>(xs: seq<T>)
    ensures Flatten([xs]) == xs
  {
    assert [xs][..0] == [];
    assert [] + xs == xs;
  }

  lemma SeqAssociative<T>(a: seq<T>, b: seq<T>, c: seq<T>)
    ensures (a + b) + c == a + (b + c)
  {
  }
}
