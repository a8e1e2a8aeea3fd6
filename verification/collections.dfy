/** Sequences used as the source's arrays and insertion-ordered sets. */
module Collections {

  predicate NoDup<T(==)>(xs: seq<T>) {
    forall i, j :: 0 <= i < j < |xs| ==> xs[i] != xs[j]
  }

  /** `xs.filter(x => x !== u)`, and `set.delete(u)` on a duplicate-free
      sequence. */
  function Without<T(==,!new)>(xs: seq<T>, u: T): (r: seq<T>)
    ensures forall v :: v in r <==> v in xs && v != u
    ensures NoDup(xs) ==> NoDup(r)
    ensures |r| <= |xs|
    ensures u !in xs ==> r == xs
  {
    if xs == [] then []
    else
      var rest := Without(xs[1..], u);
      assert forall v :: v in xs <==> v == xs[0] || v in xs[1..];
      if xs[0] == u then rest
      else
        assert NoDup(xs) ==> xs[0] !in xs[1..];
        [xs[0]] + rest
  }

  /** The distinct elements of a sequence. */
  function Elems<T>(xs: seq<T>): set<T> {
    set x | x in xs
  }

  /** A sequence has as many distinct elements as entries exactly when it
      repeats none. */
  lemma {:induction false} ElemsCard<T>(xs: seq<T>)
    ensures |Elems(xs)| <= |xs|
    ensures |Elems(xs)| == |xs| <==> NoDup(xs)
  {
    if xs != [] {
      var tail := xs[1..];
      ElemsCard(tail);
      assert Elems(xs) == Elems(tail) + {xs[0]};
      if xs[0] in tail {
        assert Elems(xs) == Elems(tail);
        var j :| 0 <= j < |tail| && tail[j] == xs[0];
        assert xs[0] == xs[j + 1];
        assert !NoDup(xs);
      } else {
        assert |Elems(xs)| == |Elems(tail)| + 1;
        if NoDup(xs) {
          assert NoDup(tail) by {
            forall i, j | 0 <= i < j < |tail| ensures tail[i] != tail[j] {
              assert tail[i] == xs[i + 1] && tail[j] == xs[j + 1];
            }
          }
        }
        if NoDup(tail) {
          forall i, j | 0 <= i < j < |xs| ensures xs[i] != xs[j] {
            if i == 0 {
              assert xs[j] == tail[j - 1];
            } else {
              assert xs[i] == tail[i - 1] && xs[j] == tail[j - 1];
            }
          }
        }
      }
    }
  }

  /** The distinct listed values a store lookup `{ _id: { $in: xs } }` finds
      among the stored ones. */
  function Found<T>(xs: seq<T>, stored: set<T>): set<T> {
    set x | x in xs && x in stored
  }

  /** The lookup finds as many values as were listed exactly when the list
      repeats none and every one is stored. */
  lemma FoundAllIff<T>(xs: seq<T>, stored: set<T>)
    ensures |Found(xs, stored)| == |xs| <==> NoDup(xs) && forall x :: x in xs ==> x in stored
  {
    var found := Found(xs, stored);
    ElemsCard(xs);
    assert found <= Elems(xs);
    if forall x :: x in xs ==> x in stored {
      assert found == Elems(xs);
    } else {
      var x :| x in xs && x !in stored;
      var missing := Elems(xs) - found;
      assert x in missing;
      assert Elems(xs) == found + missing && found * missing == {};
      assert |Elems(xs)| == |found| + |missing|;
    }
  }

  /** `xs.filter(x => !present.includes(x))`. */
  function Missing<T(==,!new)>(xs: seq<T>, present: seq<T>): (r: seq<T>)
    ensures forall v :: v in r <==> v in xs && v !in present
    ensures NoDup(xs) ==> NoDup(r)
  {
    if xs == [] then []
    else
      var rest := Missing(xs[1..], present);
      assert forall v :: v in xs <==> v == xs[0] || v in xs[1..];
      if xs[0] in present then rest
      else
        assert NoDup(xs) ==> xs[0] !in xs[1..];
        [xs[0]] + rest
  }
}
