/**
 * The order in which strings compare: character by character on code
 * points, a proper prefix coming first. Grouping rows by candidate hands
 * the groups over in this order of their names.
 */
module TextOrder {

  /** `a` sorts strictly before `b`. */
  predicate NameLess(a: string, b: string)
  {
    if a == [] then b != []
    else b != [] && (a[0] < b[0] || (a[0] == b[0] && NameLess(a[1..], b[1..])))
  }

  lemma {:induction false} NameLessIrreflexive(a: string)
    ensures !NameLess(a, a)
  {
    if a != [] {
      NameLessIrreflexive(a[1..]);
    }
  }

  /** Two different names are ordered one way and not the other. */
  lemma {:induction false} NameLessTotal(a: string, b: string)
    ensures a != b <==> NameLess(a, b) || NameLess(b, a)
    ensures !(NameLess(a, b) && NameLess(b, a))
  {
    if a == b {
      NameLessIrreflexive(a);
    } else if a != [] && b != [] {
      NameLessTotal(a[1..], b[1..]);
      if a[0] == b[0] {
        assert a == [a[0]] + a[1..] && b == [b[0]] + b[1..];
      }
    }
  }

  lemma {:induction false} NameLessTransitive(a: string, b: string, c: string)
    requires NameLess(a, b) && NameLess(b, c)
    ensures NameLess(a, c)
  {
    if a != [] && a[0] == b[0] && b[0] == c[0] {
      NameLessTransitive(a[1..], b[1..], c[1..]);
    }
  }
}
