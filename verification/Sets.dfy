/** Finite sets: choosing an element, and sizes of subsets. */
module Sets {
  ghost function Element<T>(s: set<T>): (x: T)
    requires s != {}
    ensures x in s
  {
    var x :| x in s; x
  }

  lemma {:induction false} SubsetIsSmaller<T>(a: set<T>, b: set<T>)
    requires a <= b
    ensures |a| <= |b|
    decreases a
  {
    if a != {} {
      var x := Element(a);
      SubsetIsSmaller(a - {x}, b - {x});
    }
  }
}
