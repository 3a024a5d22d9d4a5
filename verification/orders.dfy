/**
  The orderings Python uses on the values this system sorts: strings compare
  code point by code point, and lists of strings compare element by element,
  a proper prefix being the smaller.
 */
module Orders {

  /** Python's `a < b` on strings. */
  predicate StrLess(a: string, b: string)
    decreases |a|
  {
    if |a| == 0 then |b| > 0
    else if |b| == 0 then false
    else if a[0] < b[0] then true
    else if a[0] == b[0] then StrLess(a[1..], b[1..])
    else false
  }

  lemma StrLessIrreflexive(a: string)
    ensures !StrLess(a, a)
  {
    if |a| > 0 {
      StrLessIrreflexive(a[1..]);
    }
  }

  lemma StrLessTransitive(a: string, b: string, c: string)
    requires StrLess(a, b) && StrLess(b, c)
    ensures StrLess(a, c)
  {
    if |a| > 0 && |b| > 0 && |c| > 0 && a[0] == b[0] == c[0] {
      StrLessTransitive(a[1..], b[1..], c[1..]);
    }
  }

  lemma StrLessTotal(a: string, b: string)
    ensures StrLess(a, b) || a == b || StrLess(b, a)
  {
    if |a| > 0 && |b| > 0 && a[0] == b[0] {
      StrLessTotal(a[1..], b[1..]);
      if a[1..] == b[1..] {
        assert a == [a[0]] + a[1..] && b == [b[0]] + b[1..];
      }
    }
  }

  lemma StrLessAsymmetric(a: string, b: string)
    ensures StrLess(a, b) ==> !StrLess(b, a)
  {
    if StrLess(a, b) && StrLess(b, a) {
      StrLessTransitive(a, b, a);
      StrLessIrreflexive(a);
    }
  }

  /** Python's `a < b` on lists of strings. */
  predicate ListLess(a: seq<string>, b: seq<string>)
    decreases |a|
  {
    if |a| == 0 then |b| > 0
    else if |b| == 0 then false
    else if StrLess(a[0], b[0]) then true
    else if a[0] == b[0] then ListLess(a[1..], b[1..])
    else false
  }

  lemma ListLessIrreflexive(a: seq<string>)
    ensures !ListLess(a, a)
  {
    if |a| > 0 {
      StrLessIrreflexive(a[0]);
      ListLessIrreflexive(a[1..]);
    }
  }

  lemma ListLessTransitive(a: seq<string>, b: seq<string>, c: seq<string>)
    requires ListLess(a, b) && ListLess(b, c)
    ensures ListLess(a, c)
  {
    if |a| > 0 && |b| > 0 && |c| > 0 {
      StrLessIrreflexive(a[0]);
      StrLessIrreflexive(b[0]);
      if a[0] == b[0] == c[0] {
        ListLessTransitive(a[1..], b[1..], c[1..]);
      } else if StrLess(a[0], b[0]) && StrLess(b[0], c[0]) {
        StrLessTransitive(a[0], b[0], c[0]);
      }
    }
  }

  lemma ListLessTotal(a: seq<string>, b: seq<string>)
    ensures ListLess(a, b) || a == b || ListLess(b, a)
  {
    if |a| > 0 && |b| > 0 {
      StrLessTotal(a[0], b[0]);
      if a[0] == b[0] {
        ListLessTotal(a[1..], b[1..]);
        if a[1..] == b[1..] {
          assert a == [a[0]] + a[1..] && b == [b[0]] + b[1..];
        }
      }
    }
  }

  /** A strict total order on T, as the generic sort needs it. */
  ghost predicate StrictTotalOrder<T(!new)>(less: (T, T) -> bool)
  {
    && (forall a :: !less(a, a))
    && (forall a, b, c :: less(a, b) && less(b, c) ==> less(a, c))
    && (forall a, b :: less(a, b) || a == b || less(b, a))
  }

  lemma StrLessIsStrictTotalOrder()
    ensures StrictTotalOrder(StrLess)
  {
    forall a {
      StrLessIrreflexive(a);
    }
    forall a, b, c | StrLess(a, b) && StrLess(b, c) {
      StrLessTransitive(a, b, c);
    }
    forall a, b {
      StrLessTotal(a, b);
    }
  }

  lemma ListLessIsStrictTotalOrder()
    ensures StrictTotalOrder(ListLess)
  {
    forall a {
      ListLessIrreflexive(a);
    }
    forall a, b, c | ListLess(a, b) && ListLess(b, c) {
      ListLessTransitive(a, b, c);
    }
    forall a, b {
      ListLessTotal(a, b);
    }
  }
}
