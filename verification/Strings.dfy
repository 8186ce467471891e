/** The order of strings: Go's < on names. */
module Strings {
  predicate StringLess(a: string, b: string) {
    b != "" && (a == "" || a[0] < b[0] || (a[0] == b[0] && StringLess(a[1..], b[1..])))
  }

  /** A strict total order. */
  lemma {:induction false} StringOrder(a: string, b: string, c: string)
    ensures !StringLess(a, a)
    ensures StringLess(a, b) || a == b || StringLess(b, a)
    ensures StringLess(a, b) && StringLess(b, c) ==> StringLess(a, c)
    decreases |a|
  {
    if a != "" {
      var b1, c1 := if b == "" then "" else b[1..], if c == "" then "" else c[1..];
      StringOrder(a[1..], b1, c1);
      assert b != "" && a[0] == b[0] && a[1..] == b[1..] ==> a == b by {
        assert a == [a[0]] + a[1..];
        assert b != "" ==> b == [b[0]] + b[1..];
      }
    }
  }

  /** The strings agree up to some place, where the first one ends or has the smaller character. */
  ghost predicate DifferAt(a: string, b: string, k: nat) {
    k <= |a| && k < |b| && a[..k] == b[..k] && (k == |a| || a[k] < b[k])
  }

  lemma {:induction false} LessAtFirstDifference(a: string, b: string)
    ensures StringLess(a, b) <==> exists k: nat :: DifferAt(a, b, k)
    decreases |b|
  {
    if b != "" {
      if a == "" {
        assert DifferAt(a, b, 0);
      } else {
        LessAtFirstDifference(a[1..], b[1..]);
        if a[0] < b[0] {
          assert DifferAt(a, b, 0);
        }
        if a[0] == b[0] && StringLess(a[1..], b[1..]) {
          var k: nat :| DifferAt(a[1..], b[1..], k);
          assert a[..k + 1] == [a[0]] + a[1..][..k] && b[..k + 1] == [b[0]] + b[1..][..k];
          assert DifferAt(a, b, k + 1);
        }
        if k: nat :| DifferAt(a, b, k) && k > 0 {
          assert a[0] == a[..k][0] && b[0] == b[..k][0];
          assert a[1..][..k - 1] == a[..k][1..] && b[1..][..k - 1] == b[..k][1..];
          assert DifferAt(a[1..], b[1..], k - 1);
        }
      }
    }
  }
}
