/** The order in which a sorted map visits its keys. */
module KeyOrder {

  ghost predicate IsOrder<T(!new)>(below: (T, T) -> bool) {
    && (forall a, b :: below(a, b) || below(b, a))
    && (forall a, b :: below(a, b) && below(b, a) ==> a == b)
    && (forall a, b, c :: below(a, b) && below(b, c) ==> below(a, c))
  }

  predicate IsLeast<T(==)>(below: (T, T) -> bool, m: T, s: set<T>) {
    m in s && forall x <- s :: below(m, x)
  }

  /** A finite set that is not empty has a least element. */
  lemma {:induction false} Least<T(!new)>(below: (T, T) -> bool, s: set<T>)
    requires IsOrder(below) && s != {}
    ensures exists m :: IsLeast(below, m, s)
    decreases |s|
  {
    var x :| x in s;
    if s == {x} {
      assert IsLeast(below, x, s);
    } else {
      var rest := s - {x};
      assert rest != {} by {
        assert s == rest + {x};
      }
      Least(below, rest);
      var m :| IsLeast(below, m, rest);
      assert IsLeast(below, if below(x, m) then x else m, s);
    }
  }

  /** Strictly ascending. */
  predicate Ascending<T(==)>(below: (T, T) -> bool, ids: seq<T>) {
    forall i, j :: 0 <= i < j < |ids| ==> below(ids[i], ids[j]) && ids[i] != ids[j]
  }

  // ----- strings -----

  /** Character by character; a shorter string comes before its extensions. */
  predicate StringBelow(a: string, b: string) {
    a == "" || (b != "" && (a[0] < b[0] || (a[0] == b[0] && StringBelow(a[1..], b[1..]))))
  }

  /** Either a prefix, or smaller at the first difference. */
  lemma {:induction false} StringBelowExactly(a: string, b: string)
    ensures StringBelow(a, b) <==> a <= b || exists i :: DiffersAt(a, b, i)
  {
    if a != "" && b != "" && a[0] == b[0] {
      StringBelowExactly(a[1..], b[1..]);
      assert a == [a[0]] + a[1..] && b == [b[0]] + b[1..];
      assert a <= b <==> a[1..] <= b[1..];
      if i :| DiffersAt(a, b, i) {
        assert a[1..][..i - 1] == a[..i][1..] && b[1..][..i - 1] == b[..i][1..];
        assert DiffersAt(a[1..], b[1..], i - 1);
      }
      if i :| DiffersAt(a[1..], b[1..], i) {
        assert a[..i + 1] == [a[0]] + a[1..][..i] && b[..i + 1] == [b[0]] + b[1..][..i];
        assert DiffersAt(a, b, i + 1);
      }
    } else if a != "" && b != "" {
      assert DiffersAt(a, b, 0) <==> a[0] < b[0];
      assert forall i :: DiffersAt(a, b, i) ==> i == 0 || a[..i][0] == b[..i][0];
    }
  }

  /** The strings agree up to i, and there a has the smaller character. */
  predicate DiffersAt(a: string, b: string, i: int) {
    0 <= i < |a| && i < |b| && a[..i] == b[..i] && a[i] < b[i]
  }

  /** StringBelow as a value. */
  function Strings(): (string, string) -> bool {
    (a, b) => StringBelow(a, b)
  }

  lemma {:induction false} StringsTotal(a: string, b: string)
    ensures StringBelow(a, b) || StringBelow(b, a)
    ensures StringBelow(a, b) && StringBelow(b, a) ==> a == b
  {
    if a != "" && b != "" && a[0] == b[0] {
      StringsTotal(a[1..], b[1..]);
      assert a == [a[0]] + a[1..] && b == [b[0]] + b[1..];
    }
  }

  lemma {:induction false} StringsTransitive(a: string, b: string, c: string)
    requires StringBelow(a, b) && StringBelow(b, c)
    ensures StringBelow(a, c)
  {
    if a != "" && a[0] == b[0] == c[0] {
      StringsTransitive(a[1..], b[1..], c[1..]);
    }
  }

  lemma StringsAreOrdered()
    ensures IsOrder(Strings())
  {
    forall a, b
      ensures Strings()(a, b) || Strings()(b, a)
      ensures Strings()(a, b) && Strings()(b, a) ==> a == b
    {
      StringsTotal(a, b);
    }
    forall a, b, c | Strings()(a, b) && Strings()(b, c)
      ensures Strings()(a, c)
    {
      StringsTransitive(a, b, c);
    }
  }
}
