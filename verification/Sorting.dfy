/** A stable sort, by insertion from the left: what `list.sort` promises of its result. */
module Sorting {

  // `x` goes after everything that may stand before it.
  function Insert<T>(s: seq<T>, x: T, before: (T, T) -> bool): seq<T> {
    if s == [] || before(s[|s| - 1], x) then s + [x]
    else Insert(s[..|s| - 1], x, before) + [s[|s| - 1]]
  }

  function Sort<T>(s: seq<T>, before: (T, T) -> bool): seq<T> {
    if s == [] then [] else Insert(Sort(s[..|s| - 1], before), s[|s| - 1], before)
  }

  ghost predicate Preorder<T(!new)>(before: (T, T) -> bool) {
    && (forall x, y :: before(x, y) || before(y, x))
    && (forall x, y, z :: before(x, y) && before(y, z) ==> before(x, z))
  }

  ghost predicate Ordered<T>(s: seq<T>, before: (T, T) -> bool) {
    forall i, j :: 0 <= i < j < |s| ==> before(s[i], s[j])
  }

  lemma {:induction false} InsertContent<T>(s: seq<T>, x: T, before: (T, T) -> bool)
    ensures multiset(Insert(s, x, before)) == multiset(s) + multiset{x}
  {
    if s != [] && !before(s[|s| - 1], x) {
      InsertContent(s[..|s| - 1], x, before);
      assert s == s[..|s| - 1] + [s[|s| - 1]];
    }
  }

  lemma OrderedOneMore<T>(s: seq<T>, x: T, before: (T, T) -> bool)
    requires Ordered(s, before) && forall y <- s :: before(y, x)
    ensures Ordered(s + [x], before)
  {
    forall i, j | 0 <= i < j < |s + [x]| ensures before((s + [x])[i], (s + [x])[j]) {
      assert s[i] in s;
    }
  }

  lemma {:induction false} InsertKeepsOrder<T(!new)>(s: seq<T>, x: T, before: (T, T) -> bool)
    requires Preorder(before) && Ordered(s, before)
    ensures Ordered(Insert(s, x, before), before)
  {
    if s == [] {
      OrderedOneMore(s, x, before);
    } else {
      var init, last := s[..|s| - 1], s[|s| - 1];
      if before(last, x) {
        forall y | y in s ensures before(y, x) {
          assert y == last || before(y, last);
        }
        OrderedOneMore(s, x, before);
      } else {
        InsertKeepsOrder(init, x, before);
        InsertContent(init, x, before);
        forall y | y in Insert(init, x, before) ensures before(y, last) {
          assert y in multiset(Insert(init, x, before));
          assert y == x || y in init;
        }
        OrderedOneMore(Insert(init, x, before), last, before);
      }
    }
  }

  lemma {:induction false} SortContent<T>(s: seq<T>, before: (T, T) -> bool)
    ensures multiset(Sort(s, before)) == multiset(s)
  {
    if s != [] {
      SortContent(s[..|s| - 1], before);
      InsertContent(Sort(s[..|s| - 1], before), s[|s| - 1], before);
      assert s == s[..|s| - 1] + [s[|s| - 1]];
    }
  }

  lemma {:induction false} SortIsOrdered<T(!new)>(s: seq<T>, before: (T, T) -> bool)
    requires Preorder(before)
    ensures Ordered(Sort(s, before), before)
  {
    if s != [] {
      SortIsOrdered(s[..|s| - 1], before);
      InsertKeepsOrder(Sort(s[..|s| - 1], before), s[|s| - 1], before);
    }
  }

  // The elements of `s` that satisfy `keep`, in order.
  function Where<T>(s: seq<T>, keep: T -> bool): seq<T> {
    if s == [] then []
    else Where(s[..|s| - 1], keep) + if keep(s[|s| - 1]) then [s[|s| - 1]] else []
  }

  lemma WhereSnoc<T>(s: seq<T>, x: T, keep: T -> bool)
    ensures Where(s + [x], keep) == Where(s, keep) + if keep(x) then [x] else []
  {
    assert (s + [x])[..|s|] == s;
  }

  lemma {:induction false} InsertIsStable<T(!new)>(s: seq<T>, x: T, before: (T, T) -> bool, keep: T -> bool)
    requires forall y, z :: keep(y) && keep(z) ==> before(y, z)
    ensures Where(Insert(s, x, before), keep) == Where(s, keep) + if keep(x) then [x] else []
  {
    if s == [] || before(s[|s| - 1], x) {
      WhereSnoc(s, x, keep);
    } else {
      var init, last := s[..|s| - 1], s[|s| - 1];
      InsertIsStable(init, x, before, keep);
      WhereSnoc(Insert(init, x, before), last, keep);
    }
  }

  // Elements that may stand in either order keep the order they had.
  lemma {:induction false} SortIsStable<T(!new)>(s: seq<T>, before: (T, T) -> bool, keep: T -> bool)
    requires forall y, z :: keep(y) && keep(z) ==> before(y, z)
    ensures Where(Sort(s, before), keep) == Where(s, keep)
  {
    if s != [] {
      SortIsStable(s[..|s| - 1], before, keep);
      InsertIsStable(Sort(s[..|s| - 1], before), s[|s| - 1], before, keep);
    }
  }
}
