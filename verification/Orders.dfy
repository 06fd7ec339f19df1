/**
  What `ORDER BY` promises: an enumeration of the selected rows in which no row comes after a
  row it should precede. Rows that compare equal may come in any order, and a second query may
  return them in another order.
 */
module Orders {

  ghost predicate StrictOrder<T(!new)>(less: (T, T) -> bool) {
    && (forall x :: !less(x, x))
    && (forall x, y, z :: less(x, y) && less(y, z) ==> less(x, z))
  }

  predicate Distinct<T(==)>(s: seq<T>) {
    forall i, j :: 0 <= i < j < |s| ==> s[i] != s[j]
  }

  /** `s` lists exactly the elements of `elements`, each once. */
  ghost predicate Enumerates<T(!new)>(s: seq<T>, elements: set<T>) {
    Distinct(s) && forall x :: x in s <==> x in elements
  }

  ghost predicate NoInversion<T>(s: seq<T>, less: (T, T) -> bool) {
    forall i, j :: 0 <= i < j < |s| ==> !less(s[j], s[i])
  }

  ghost predicate StrictlySorted<T>(s: seq<T>, less: (T, T) -> bool) {
    forall i, j :: 0 <= i < j < |s| ==> less(s[i], s[j])
  }

  /** The result of `SELECT ... ORDER BY` over a set of rows. */
  ghost predicate OrderedBy<T(!new)>(s: seq<T>, elements: set<T>, less: (T, T) -> bool) {
    Enumerates(s, elements) && NoInversion(s, less)
  }

  /** A nonempty finite set has an element nothing else precedes. */
  lemma MinimalExists<T(!new)>(s: set<T>, less: (T, T) -> bool) returns (m: T)
    requires StrictOrder(less)
    requires s != {}
    ensures m in s
    ensures forall y :: y in s ==> !less(y, m)
  {
    var x :| x in s;
    m := x;
    var below := set y | y in s && less(y, x);
    if below != {} {
      assert below < s;
      m := MinimalExists(below, less);
      assert less(m, x);
      assert forall y :: y in s && less(y, m) ==> less(y, x);
    } else {
      assert forall y :: y in s && less(y, x) ==> y in below;
    }
  }

  /** An `ORDER BY` always has a result. */
  lemma {:induction false} ListingExists<T(!new)>(elements: set<T>, less: (T, T) -> bool) returns (s: seq<T>)
    requires StrictOrder(less)
    ensures OrderedBy(s, elements, less)
    decreases |elements|
  {
    s := [];
    if elements != {} {
      var first := MinimalExists(elements, less);
      var rest := ListingExists(elements - {first}, less);
      s := [first] + rest;
      forall i, j | 0 <= i < j < |s| ensures s[i] != s[j] && !less(s[j], s[i]) {
        assert s[j] in rest && (i > 0 ==> s[i] == rest[i - 1] && s[j] == rest[j - 1]);
      }
    }
  }

  method OrderBy<T(==, !new)>(elements: set<T>, less: (T, T) -> bool) returns (r: seq<T>)
    requires StrictOrder(less)
    ensures OrderedBy(r, elements, less)
  {
    var rest := elements;
    r := [];
    while rest != {}
      invariant rest <= elements
      invariant Enumerates(r, elements - rest)
      invariant NoInversion(r, less)
      invariant forall x, y :: x in r && y in rest ==> !less(y, x)
      decreases |rest|
    {
      ghost var m := MinimalExists(rest, less);
      var next :| next in rest && forall y :: y in rest ==> !less(y, next);
      r := r + [next];
      rest := rest - {next};
    }
  }

  /** Distinct sort keys leave no freedom: every ORDER BY result is the strictly sorted listing. */
  lemma {:induction false} StrictOrderUnique<T(!new)>(a: seq<T>, b: seq<T>, less: (T, T) -> bool)
    requires Distinct(a) && Distinct(b)
    requires forall x :: x in a <==> x in b
    requires NoInversion(a, less)
    requires StrictlySorted(b, less)
    ensures a == b
  {
    var elements := set x | x in a;
    EnumerationLength(a, elements);
    EnumerationLength(b, elements);
    if a != [] {
      assert a[0] in b;
      assert b[0] in a;
      var q :| 0 <= q < |b| && b[q] == a[0];
      var p :| 0 <= p < |a| && a[p] == b[0];
      assert q == 0;
      var a', b' := a[1..], b[1..];
      forall x ensures x in a' <==> x in b' {
        if x in a' {
          assert x in a;
          assert x != a[0];
          assert x in b;
        }
        if x in b' {
          assert x in b;
          assert x != b[0];
          assert x in a;
        }
      }
      StrictOrderUnique(a', b', less);
      assert a == [a[0]] + a' && b == [b[0]] + b';
    }
  }

  /** A duplicate-free sequence that lists a set is as long as the set. */
  lemma {:induction false} EnumerationLength<T(!new)>(s: seq<T>, elements: set<T>)
    requires Enumerates(s, elements)
    ensures |s| == |elements|
  {
    if s != [] {
      var rest := elements - {s[0]};
      assert s[0] in elements;
      forall x ensures x in s[1..] <==> x in rest {
        if x in rest {
          assert x in s && x != s[0];
        }
      }
      EnumerationLength(s[1..], rest);
    }
  }

  /** Pigeonhole: a duplicate-free choice of |b| elements out of `b` is all of `b`. */
  lemma Pigeonhole<T(!new)>(a: seq<T>, b: seq<T>)
    requires Distinct(a) && Distinct(b)
    requires |a| == |b|
    requires forall x :: x in a ==> x in b
    ensures forall x :: x in b ==> x in a
  {
    var sa, sb := set x | x in a, set x | x in b;
    EnumerationLength(a, sa);
    EnumerationLength(b, sb);
    forall x | x in b ensures x in a {
      if x !in a {
        SubsetSize(sa, sb - {x});
      }
    }
  }

  lemma {:induction false} SubsetSize<T>(a: set<T>, b: set<T>)
    requires a <= b
    ensures |a| <= |b|
  {
    if a != {} {
      var x :| x in a;
      SubsetSize(a - {x}, b - {x});
    }
  }
}
