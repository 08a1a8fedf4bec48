/**
 * The order in which Go's encoding/json writes the keys of a map: ascending
 * string order (for strings of Unicode scalar values, comparing code points
 * is the same as comparing their UTF-8 bytes). `Least` picks the first key of
 * a non-empty key set, which lets a map be written out as a sequence.
 */
module KeyOrder {

  /** `a` sorts no later than `b`: a prefix of `b`, or smaller at the first difference. */
  predicate Below(a: string, b: string) {
    a == [] || (b != [] && (a[0] < b[0] || (a[0] == b[0] && Below(a[1..], b[1..]))))
  }

  lemma {:induction false} BelowTotal(a: string, b: string)
    ensures Below(a, b) || Below(b, a)
  {
    if a != [] && b != [] && a[0] == b[0] {
      BelowTotal(a[1..], b[1..]);
    }
  }

  lemma {:induction false} BelowAntisymmetric(a: string, b: string)
    requires Below(a, b) && Below(b, a)
    ensures a == b
  {
    if a != [] && b != [] {
      BelowAntisymmetric(a[1..], b[1..]);
      assert a == [a[0]] + a[1..];
      assert b == [b[0]] + b[1..];
    }
  }

  lemma {:induction false} BelowTransitive(a: string, b: string, c: string)
    requires Below(a, b) && Below(b, c)
    ensures Below(a, c)
  {
    if a != [] && a[0] == b[0] && b[0] == c[0] {
      BelowTransitive(a[1..], b[1..], c[1..]);
    }
  }

  predicate IsLeast(k: string, ks: set<string>) {
    k in ks && forall j | j in ks :: Below(k, j)
  }

  lemma {:induction false} LeastExists(ks: set<string>)
    requires ks != {}
    ensures exists k :: IsLeast(k, ks)
    decreases |ks|
  {
    var x :| x in ks;
    if ks == {x} {
      assert IsLeast(x, ks) by {
        forall j | j in ks ensures Below(x, j) {
          BelowTotal(x, j);
        }
      }
    } else {
      var others := ks - {x};
      assert |others| < |ks|;
      LeastExists(others);
      var m :| IsLeast(m, others);
      BelowTotal(m, x);
      if Below(m, x) {
        assert IsLeast(m, ks);
      } else {
        assert IsLeast(x, ks) by {
          forall j | j in ks ensures Below(x, j) {
            if j != x {
              BelowTransitive(x, m, j);
            } else {
              BelowTotal(x, j);
            }
          }
        }
      }
    }
  }

  lemma LeastUnique(k1: string, k2: string, ks: set<string>)
    requires IsLeast(k1, ks) && IsLeast(k2, ks)
    ensures k1 == k2
  {
    BelowAntisymmetric(k1, k2);
  }

  /** The first key of `ks` in ascending order. */
  function Least(ks: set<string>): (k: string)
    requires ks != {}
    ensures k in ks
    ensures forall j | j in ks :: Below(k, j)
  {
    LeastExists(ks);
    var k :| IsLeast(k, ks);
    assert forall k1, k2 | IsLeast(k1, ks) && IsLeast(k2, ks) :: k1 == k2 by {
      forall k1, k2 | IsLeast(k1, ks) && IsLeast(k2, ks) ensures k1 == k2 {
        LeastUnique(k1, k2, ks);
      }
    }
    k
  }
}
