/** The two sorts planning and funding rely on: symbols in dictionary order, and a stable insertion sort. */
module Ordering {
  // Dictionary order on strings.
  predicate Before(a: string, b: string) {
    a == "" || (b != "" && (a[0] < b[0] || (a[0] == b[0] && Before(a[1..], b[1..]))))
  }

  // Where two strings first differ, if they do.
  ghost predicate Parting(a: string, b: string, k: nat) {
    && k <= |a| && k <= |b| && a[..k] == b[..k]
    && (k < |a| && k < |b| ==> a[k] != b[k])
  }

  /** Dictionary order goes by the first difference: the smaller character is first there, or the string that ends. */
  lemma {:induction false} BeforeAtTheParting(a: string, b: string, k: nat)
    requires Parting(a, b, k)
    ensures Before(a, b) <==> k == |a| || (k < |b| && a[k] < b[k])
    decreases k
  {
    if k > 0 {
      assert a[0] == a[..k][0] == b[..k][0] == b[0];
      assert a[1..][..k - 1] == a[..k][1..] && b[1..][..k - 1] == b[..k][1..];
      BeforeAtTheParting(a[1..], b[1..], k - 1);
    }
  }

  lemma {:induction false} BeforeOfPrefixes(a: string, b: string, n: nat)
    requires Before(a, b)
    ensures Before(if |a| <= n then a else a[..n], if |b| <= n then b else b[..n])
    decreases n
  {
    if n > 0 && a != "" && a[0] == b[0] {
      BeforeOfPrefixes(a[1..], b[1..], n - 1);
      assert |a| > n ==> a[..n][1..] == a[1..][..n - 1];
      assert |b| > n ==> b[..n][1..] == b[1..][..n - 1];
    }
  }

  lemma {:induction false} BeforeTotal(a: string, b: string)
    ensures Before(a, b) || Before(b, a)
    ensures Before(a, b) && Before(b, a) ==> a == b
  {
    if a != "" && b != "" && a[0] == b[0] {
      BeforeTotal(a[1..], b[1..]);
      assert a == [a[0]] + a[1..] && b == [b[0]] + b[1..];
    }
  }

  lemma {:induction false} BeforeTransitive(a: string, b: string, c: string)
    requires Before(a, b) && Before(b, c)
    ensures Before(a, c)
  {
    if a != "" && b != "" && c != "" && a[0] == b[0] == c[0] {
      BeforeTransitive(a[1..], b[1..], c[1..]);
    }
  }

  lemma {:induction false} FirstExists(s: set<string>)
    requires s != {}
    ensures exists x :: x in s && forall y :: y in s ==> Before(x, y)
  {
    var x :| x in s;
    if s == {x} {
      BeforeTotal(x, x);
    } else {
      FirstExists(s - {x});
      var m :| m in s - {x} && forall y :: y in s - {x} ==> Before(m, y);
      FirstOfBoth(s, x, m);
    }
  }

  lemma FirstOfBoth(s: set<string>, x: string, m: string)
    requires x in s && m in s && forall y :: y in s && y != x ==> Before(m, y)
    ensures exists first :: first in s && forall y :: y in s ==> Before(first, y)
  {
    BeforeTotal(x, m);
    BeforeTotal(x, x);
    if Before(x, m) {
      forall y | y in s ensures Before(x, y) {
        if y != x { BeforeTransitive(x, m, y); }
      }
    } else {
      assert forall y :: y in s ==> Before(m, y);
    }
  }

  function First(s: set<string>): (x: string)
    requires s != {}
    ensures x in s && forall y :: y in s ==> Before(x, y)
  {
    FirstExists(s);
    assert forall x, y :: x in s && y in s && Before(x, y) && Before(y, x) ==> x == y by {
      forall x, y | x in s && y in s && Before(x, y) && Before(y, x) ensures x == y { BeforeTotal(x, y); }
    }
    var x :| x in s && forall y :: y in s ==> Before(x, y);
    x
  }

  function Sorted(s: set<string>): (q: seq<string>)
    ensures forall x :: x in q <==> x in s
    ensures forall i, j :: 0 <= i < j < |q| ==> q[i] != q[j] && Before(q[i], q[j])
    decreases |s|
  {
    if s == {} then [] else
      var x := First(s);
      [x] + Sorted(s - {x})
  }

  // Insert after everything that may stay in front, which keeps equal elements in their order.
  function Insert<T>(x: T, s: seq<T>, before: (T, T) -> bool): seq<T> {
    if s == [] || !before(s[0], x) then [x] + s else [s[0]] + Insert(x, s[1..], before)
  }

  function SortBy<T>(s: seq<T>, before: (T, T) -> bool): seq<T> {
    if s == [] then [] else Insert(s[|s| - 1], SortBy(s[..|s| - 1], before), before)
  }

  ghost predicate InOrder<T(!new)>(s: seq<T>, before: (T, T) -> bool) {
    forall i, j :: 0 <= i < j < |s| ==> before(s[i], s[j])
  }

  ghost predicate TotalPreorder<T(!new)>(before: (T, T) -> bool) {
    && (forall x, y :: before(x, y) || before(y, x))
    && (forall x, y, z :: before(x, y) && before(y, z) ==> before(x, z))
  }

  lemma {:induction false} InsertKeepsAll<T(!new)>(x: T, s: seq<T>, before: (T, T) -> bool)
    ensures multiset(Insert(x, s, before)) == multiset(s) + multiset{x}
  {
    if s != [] && before(s[0], x) {
      InsertKeepsAll(x, s[1..], before);
      assert s == [s[0]] + s[1..];
    }
  }

  lemma InsertedIn<T(!new)>(x: T, s: seq<T>, before: (T, T) -> bool)
    ensures forall y :: y in Insert(x, s, before) ==> y == x || y in s
  {
    InsertKeepsAll(x, s, before);
    forall y | y in Insert(x, s, before) ensures y == x || y in s {
      assert y in multiset(Insert(x, s, before));
    }
  }

  lemma InFrontOf<T(!new)>(first: T, rest: seq<T>, before: (T, T) -> bool)
    requires InOrder(rest, before) && forall y :: y in rest ==> before(first, y)
    ensures InOrder([first] + rest, before)
  {
    var all := [first] + rest;
    forall i, j | 0 <= i < j < |all| ensures before(all[i], all[j]) {
      assert all[j] == rest[j - 1] && rest[j - 1] in rest;
      if i > 0 { assert all[i] == rest[i - 1]; }
    }
  }

  lemma RestInOrder<T(!new)>(s: seq<T>, before: (T, T) -> bool)
    requires s != [] && InOrder(s, before)
    ensures InOrder(s[1..], before) && forall y :: y in s[1..] ==> before(s[0], y)
  {
    forall y | y in s[1..] ensures before(s[0], y) {
      var i :| 0 <= i < |s| - 1 && s[1..][i] == y;
      assert s[i + 1] == y;
    }
  }

  lemma {:induction false} InsertInOrder<T(!new)>(x: T, s: seq<T>, before: (T, T) -> bool)
    requires TotalPreorder(before) && InOrder(s, before)
    ensures InOrder(Insert(x, s, before), before)
  {
    if s != [] {
      RestInOrder(s, before);
      if before(s[0], x) {
        InsertInOrder(x, s[1..], before);
        InsertedIn(x, s[1..], before);
        InFrontOf(s[0], Insert(x, s[1..], before), before);
      } else {
        assert before(x, s[0]);
        forall y | y in s ensures before(x, y) {
          assert y == s[0] || y in s[1..];
        }
        InFrontOf(x, s, before);
      }
    }
  }

  lemma InsertKeeps<T(!new)>(x: T, s: seq<T>, before: (T, T) -> bool)
    ensures multiset(Insert(x, s, before)) == multiset(s) + multiset{x}
    ensures TotalPreorder(before) && InOrder(s, before) ==> InOrder(Insert(x, s, before), before)
  {
    InsertKeepsAll(x, s, before);
    if TotalPreorder(before) && InOrder(s, before) { InsertInOrder(x, s, before); }
  }

  /** What may stay in front is passed over. */
  lemma {:induction false} InsertPast<T(!new)>(x: T, front: seq<T>, rest: seq<T>, before: (T, T) -> bool)
    requires forall y :: y in front ==> before(y, x)
    ensures Insert(x, front + rest, before) == front + Insert(x, rest, before)
  {
    if front == [] {
      assert front + rest == rest;
    } else {
      assert (front + rest)[1..] == front[1..] + rest && front[0] in front;
      InsertPast(x, front[1..], rest, before);
    }
  }

  lemma PushedLast<T>(s: seq<T>)
    requires s != []
    ensures multiset(s) == multiset(s[..|s| - 1]) + multiset{s[|s| - 1]}
  {
    assert s == s[..|s| - 1] + [s[|s| - 1]];
  }

  lemma {:induction false} SortBySorts<T(!new)>(s: seq<T>, before: (T, T) -> bool)
    ensures multiset(SortBy(s, before)) == multiset(s)
    ensures TotalPreorder(before) ==> InOrder(SortBy(s, before), before)
  {
    if s != [] {
      SortBySorts(s[..|s| - 1], before);
      InsertKeeps(s[|s| - 1], SortBy(s[..|s| - 1], before), before);
      PushedLast(s);
    }
  }

  // The elements that are kept, in their order.
  function Where<T>(s: seq<T>, keep: T -> bool): seq<T> {
    if s == [] then [] else (if keep(s[0]) then [s[0]] else []) + Where(s[1..], keep)
  }

  lemma {:induction false} WhereIsPart<T>(s: seq<T>, keep: T -> bool)
    ensures forall x :: x in Where(s, keep) <==> x in s && keep(x)
  {
    if s != [] {
      WhereIsPart(s[1..], keep);
      assert s == [s[0]] + s[1..];
    }
  }

  lemma {:induction false} WhereAll<T>(s: seq<T>, keep: T -> bool)
    requires forall x :: x in s ==> keep(x)
    ensures Where(s, keep) == s
  {
    if s != [] {
      assert s == [s[0]] + s[1..];
      WhereAll(s[1..], keep);
    }
  }

  lemma WhereOneFirst<T>(x: T, s: seq<T>, keep: T -> bool)
    ensures Where([x] + s, keep) == if keep(x) then [x] + Where(s, keep) else Where(s, keep)
  {
    assert ([x] + s)[1..] == s;
  }

  lemma Regrouped<T>(a: seq<T>, b: seq<T>, c: seq<T>)
    ensures a + (b + c) == (a + b) + c
  {
  }

  lemma {:induction false} WhereOneMore<T>(s: seq<T>, x: T, keep: T -> bool)
    ensures Where(s + [x], keep) == if keep(x) then Where(s, keep) + [x] else Where(s, keep)
  {
    if s == [] {
      WhereOneFirst(x, [], keep);
      assert s + [x] == [x] + [];
    } else {
      var rest := s[1..];
      WhereOneMore(rest, x, keep);
      WhereOneFirst(s[0], rest + [x], keep);
      WhereOneFirst(s[0], rest, keep);
      Regrouped([s[0]], rest, [x]);
      Regrouped([s[0]], Where(rest, keep), [x]);
      assert s == [s[0]] + rest;
    }
  }

  lemma InsertBehind<T>(x: T, first: T, rest: seq<T>, before: (T, T) -> bool)
    requires before(first, x)
    ensures Insert(x, [first] + rest, before) == [first] + Insert(x, rest, before)
  {
    assert ([first] + rest)[1..] == rest;
  }

  lemma {:induction false} InsertWhere<T(!new)>(x: T, s: seq<T>, before: (T, T) -> bool, keep: T -> bool)
    requires TotalPreorder(before) && InOrder(s, before)
    ensures Where(Insert(x, s, before), keep) == if keep(x) then Insert(x, Where(s, keep), before) else Where(s, keep)
  {
    if s == [] {
      WhereOneFirst(x, [], keep);
      assert [x] + [] == [x];
    } else {
      RestInOrder(s, before);
      if before(s[0], x) {
        InsertWhere(x, s[1..], before, keep);
        WhereOneFirst(s[0], Insert(x, s[1..], before), keep);
        InsertBehind(x, s[0], Where(s[1..], keep), before);
        assert Where(s, keep) == if keep(s[0]) then [s[0]] + Where(s[1..], keep) else Where(s[1..], keep);
      } else {
        WhereOneFirst(x, s, keep);
        FirstKept(x, s, before, keep);
      }
    }
  }

  lemma FirstKept<T(!new)>(x: T, s: seq<T>, before: (T, T) -> bool, keep: T -> bool)
    requires TotalPreorder(before) && InOrder(s, before) && s != [] && !before(s[0], x)
    ensures Insert(x, Where(s, keep), before) == [x] + Where(s, keep)
  {
    WhereIsPart(s, keep);
    RestInOrder(s, before);
    if Where(s, keep) != [] {
      var y := Where(s, keep)[0];
      assert y in Where(s, keep);
      assert s == [s[0]] + s[1..];
      assert before(s[0], y);
    }
  }

  lemma SortOneMore<T>(s: seq<T>, x: T, before: (T, T) -> bool)
    ensures SortBy(s + [x], before) == Insert(x, SortBy(s, before), before)
  {
    assert (s + [x])[..|s|] == s;
  }

  /** Sorting what is kept and keeping from what is sorted come to the same. */
  lemma {:induction false} SortWhere<T(!new)>(s: seq<T>, before: (T, T) -> bool, keep: T -> bool)
    requires TotalPreorder(before)
    ensures Where(SortBy(s, before), keep) == SortBy(Where(s, keep), before)
  {
    if s != [] {
      var init, x := s[..|s| - 1], s[|s| - 1];
      SortWhere(init, before, keep);
      SortBySorts(init, before);
      InsertWhere(x, SortBy(init, before), before, keep);
      assert s == init + [x];
      WhereOneMore(init, x, keep);
      SortOneMore(Where(init, keep), x, before);
    }
  }

  // Nothing comes before nothing but itself.
  ghost predicate Strict<T(!new)>(s: seq<T>, before: (T, T) -> bool) {
    forall x, y :: x in s && y in s && before(x, y) && before(y, x) ==> x == y
  }

  /** Two sequences of the same elements that are both in order are the same, where no two different elements
      tie. */
  lemma {:induction false} InOrderIsUnique<T(!new)>(s: seq<T>, t: seq<T>, before: (T, T) -> bool)
    requires multiset(s) == multiset(t) && InOrder(s, before) && InOrder(t, before) && Strict(s, before)
    ensures s == t
  {
    assert |s| == |multiset(s)| == |multiset(t)| == |t|;
    if s != [] {
      LastIsSame(s, t, before);
      WithoutLast(s, t);
      StillInOrder(s, before);
      StillInOrder(t, before);
      InOrderIsUnique(s[..|s| - 1], t[..|t| - 1], before);
      assert s == s[..|s| - 1] + [s[|s| - 1]] && t == t[..|t| - 1] + [t[|t| - 1]];
    }
  }

  lemma WithoutLast<T>(s: seq<T>, t: seq<T>)
    requires s != [] && |s| == |t| && multiset(s) == multiset(t) && s[|s| - 1] == t[|t| - 1]
    ensures multiset(s[..|s| - 1]) == multiset(t[..|t| - 1])
  {
    PushedLast(s);
    PushedLast(t);
    assert multiset(s[..|s| - 1]) == multiset(s) - multiset{s[|s| - 1]};
    assert multiset(t[..|t| - 1]) == multiset(t) - multiset{t[|t| - 1]};
  }

  lemma StillInOrder<T(!new)>(s: seq<T>, before: (T, T) -> bool)
    requires s != [] && InOrder(s, before)
    ensures InOrder(s[..|s| - 1], before) && (Strict(s, before) ==> Strict(s[..|s| - 1], before))
  {
    assert forall x :: x in s[..|s| - 1] ==> x in s;
  }

  lemma LastIsSame<T(!new)>(s: seq<T>, t: seq<T>, before: (T, T) -> bool)
    requires multiset(s) == multiset(t) && s != [] && |s| == |t| && InOrder(s, before) && InOrder(t, before)
             && Strict(s, before)
    ensures s[|s| - 1] == t[|t| - 1]
  {
    var n := |s| - 1;
    var a, b := s[n], t[n];
    assert a in multiset(t) && b in multiset(s);
    var i :| 0 <= i < |t| && t[i] == a;
    var j :| 0 <= j < |s| && s[j] == b;
    if i < n && j < n {
      assert before(t[i], t[n]) && before(s[j], s[n]);
    }
  }
}
