/** Python's string order and its stable `sorted`. */
module Sorting {
  import opened Models

  /** Lexicographic order by code point. */
  predicate StringLe(a: string, b: string) {
    a == "" || (b != "" && (a[0] < b[0] || (a[0] == b[0] && StringLe(a[1..], b[1..]))))
  }

  /** The order goes by the first place where the texts differ; a text comes before its continuations. */
  lemma {:induction false} StringLeIff(a: string, b: string)
    ensures StringLe(a, b)
       <==> exists k | 0 <= k <= |a| && k <= |b| ::
              a[..k] == b[..k] && (k == |a| || (k < |b| && a[k] < b[k]))
  {
    if a != "" && b != "" && a[0] == b[0] {
      StringLeIff(a[1..], b[1..]);
      if StringLe(a[1..], b[1..]) {
        var k :| 0 <= k <= |a| - 1 && k <= |b| - 1 && a[1..][..k] == b[1..][..k]
                 && (k == |a| - 1 || (k < |b| - 1 && a[1..][k] < b[1..][k]));
        assert a[..k + 1] == [a[0]] + a[1..][..k] && b[..k + 1] == [b[0]] + b[1..][..k];
      }
      if k :| 0 <= k <= |a| && k <= |b| && a[..k] == b[..k] && (k == |a| || (k < |b| && a[k] < b[k])) {
        assert a[1..][..k - 1] == a[..k][1..] && b[1..][..k - 1] == b[..k][1..];
      }
    } else if a != "" && b != "" {
      forall k | 0 < k <= |a| && k <= |b| ensures a[..k] != b[..k] {
        assert a[..k][0] != b[..k][0];
      }
      assert a[..0] == b[..0];
    } else {
      assert a[..0] == b[..0];
    }
  }

  lemma {:induction false} StringLeTotal(a: string, b: string)
    ensures StringLe(a, b) || StringLe(b, a)
  {
    if a != "" && b != "" && a[0] == b[0] {
      StringLeTotal(a[1..], b[1..]);
    }
  }

  lemma {:induction false} StringLeTransitive(a: string, b: string, c: string)
    requires StringLe(a, b) && StringLe(b, c)
    ensures StringLe(a, c)
  {
    if a != "" && a[0] == b[0] == c[0] {
      StringLeTransitive(a[1..], b[1..], c[1..]);
    }
  }

  lemma {:induction false} StringLeAntisymmetric(a: string, b: string)
    requires StringLe(a, b) && StringLe(b, a)
    ensures a == b
  {
    if a != "" {
      StringLeAntisymmetric(a[1..], b[1..]);
      assert a == [a[0]] + a[1..] && b == [b[0]] + b[1..];
    }
  }

  ghost predicate TotalPreorder<T(!new)>(le: (T, T) -> bool) {
    && (forall a, b :: le(a, b) || le(b, a))
    && (forall a, b, c :: le(a, b) && le(b, c) ==> le(a, c))
  }

  ghost predicate Ordered<T>(le: (T, T) -> bool, xs: seq<T>) {
    forall i, j | 0 <= i < j < |xs| :: le(xs[i], xs[j])
  }

  /** Puts `x` behind every element of `xs` that must not come after it. */
  function Insert<T>(le: (T, T) -> bool, xs: seq<T>, x: T): seq<T> {
    if xs == [] || le(xs[|xs| - 1], x) then xs + [x]
    else Insert(le, xs[..|xs| - 1], x) + [xs[|xs| - 1]]
  }

  /** A stable sort by `le`. */
  function Sort<T>(le: (T, T) -> bool, xs: seq<T>): seq<T> {
    if xs == [] then [] else Insert(le, Sort(le, xs[..|xs| - 1]), xs[|xs| - 1])
  }

  lemma {:induction false} InsertPermutes<T>(le: (T, T) -> bool, xs: seq<T>, x: T)
    ensures multiset(Insert(le, xs, x)) == multiset(xs) + multiset{x}
  {
    if xs != [] && !le(xs[|xs| - 1], x) {
      InsertPermutes(le, xs[..|xs| - 1], x);
      assert xs == xs[..|xs| - 1] + [xs[|xs| - 1]];
    }
  }

  lemma {:induction false} SortPermutes<T>(le: (T, T) -> bool, xs: seq<T>)
    ensures multiset(Sort(le, xs)) == multiset(xs)
  {
    if xs != [] {
      SortPermutes(le, xs[..|xs| - 1]);
      InsertPermutes(le, Sort(le, xs[..|xs| - 1]), xs[|xs| - 1]);
      assert xs == xs[..|xs| - 1] + [xs[|xs| - 1]];
    }
  }

  lemma {:induction false} InsertOrders<T(!new)>(le: (T, T) -> bool, xs: seq<T>, x: T)
    requires TotalPreorder(le) && Ordered(le, xs)
    ensures Ordered(le, Insert(le, xs, x))
  {
    if xs != [] && !le(xs[|xs| - 1], x) {
      var init, last := xs[..|xs| - 1], xs[|xs| - 1];
      InsertOrders(le, init, x);
      InsertPermutes(le, init, x);
      var r := Insert(le, init, x);
      forall i | 0 <= i < |r| ensures le(r[i], last) {
        assert r[i] in multiset(r);
        assert r[i] in multiset(init) + multiset{x};
      }
    } else {
      forall i | 0 <= i < |xs| ensures le(xs[i], x) {
        assert le(xs[i], xs[|xs| - 1]) || i == |xs| - 1;
      }
    }
  }

  lemma {:induction false} SortOrders<T(!new)>(le: (T, T) -> bool, xs: seq<T>)
    requires TotalPreorder(le)
    ensures Ordered(le, Sort(le, xs))
  {
    if xs != [] {
      SortOrders(le, xs[..|xs| - 1]);
      InsertOrders(le, Sort(le, xs[..|xs| - 1]), xs[|xs| - 1]);
    }
  }

  function Select<T>(p: T -> bool, xs: seq<T>): seq<T> {
    if xs == [] then []
    else Select(p, xs[..|xs| - 1]) + if p(xs[|xs| - 1]) then [xs[|xs| - 1]] else []
  }

  lemma {:induction false} SelectElements<T>(p: T -> bool, xs: seq<T>)
    ensures |Select(p, xs)| <= |xs|
    ensures forall x :: x in Select(p, xs) <==> x in xs && p(x)
    ensures |Select(p, xs)| == |xs| ==> Select(p, xs) == xs
  {
    if xs != [] {
      SelectElements(p, xs[..|xs| - 1]);
      assert xs == xs[..|xs| - 1] + [xs[|xs| - 1]];
    }
  }

  lemma {:induction false} SelectAll<T>(p: T -> bool, xs: seq<T>)
    requires forall x | x in xs :: p(x)
    ensures Select(p, xs) == xs
  {
    if xs != [] {
      var init := xs[..|xs| - 1];
      assert xs == init + [xs[|xs| - 1]];
      assert forall x | x in init :: x in xs;
      SelectAll(p, init);
    }
  }

  lemma SelectAppend<T>(p: T -> bool, xs: seq<T>, x: T)
    ensures Select(p, xs + [x]) == Select(p, xs) + if p(x) then [x] else []
  {
  }

  /** Elements the order cannot tell apart keep their relative positions. */
  ghost predicate TiesWith<T(!new)>(le: (T, T) -> bool, x: T, p: T -> bool) {
    forall y :: p(y) <==> le(x, y) && le(y, x)
  }

  lemma {:induction false} InsertStable<T(!new)>(le: (T, T) -> bool, xs: seq<T>, x: T, k: T, p: T -> bool)
    requires TotalPreorder(le) && TiesWith(le, k, p)
    ensures Select(p, Insert(le, xs, x)) == Select(p, xs) + if p(x) then [x] else []
  {
    if xs == [] || le(xs[|xs| - 1], x) {
      SelectAppend(p, xs, x);
    } else {
      var init, last := xs[..|xs| - 1], xs[|xs| - 1];
      InsertStable(le, init, x, k, p);
      SelectAppend(p, Insert(le, init, x), last);
      assert !(p(x) && p(last));
    }
  }

  lemma {:induction false} SortStable<T(!new)>(le: (T, T) -> bool, xs: seq<T>, k: T, p: T -> bool)
    requires TotalPreorder(le) && TiesWith(le, k, p)
    ensures Select(p, Sort(le, xs)) == Select(p, xs)
  {
    if xs != [] {
      SortStable(le, xs[..|xs| - 1], k, p);
      InsertStable(le, Sort(le, xs[..|xs| - 1]), xs[|xs| - 1], k, p);
    }
  }

  lemma NoDuplicatesPermutes<T(!new)>(xs: seq<T>, ys: seq<T>)
    requires NoDuplicates(xs) && multiset(xs) == multiset(ys)
    ensures NoDuplicates(ys)
    ensures forall x :: x in ys <==> x in xs
  {
    forall i, j | 0 <= i < j < |ys| ensures ys[i] != ys[j] {
      if ys[i] == ys[j] {
        MultiplicityOfTwice(ys, i, j);
        MultiplicityOfDistinct(xs);
      }
    }
    forall x ensures x in ys <==> x in xs {
      assert x in ys <==> x in multiset(ys);
      assert x in xs <==> x in multiset(xs);
    }
  }

  lemma MultiplicityOfTwice<T>(ys: seq<T>, i: nat, j: nat)
    requires i < j < |ys| && ys[i] == ys[j]
    ensures multiset(ys)[ys[i]] >= 2
  {
    assert ys == ys[..j] + ys[j..];
    assert ys[..j][i] == ys[i] && ys[j..][0] == ys[j];
    assert ys[i] in multiset(ys[..j]) && ys[i] in multiset(ys[j..]);
  }

  lemma {:induction false} MultiplicityOfDistinct<T(!new)>(xs: seq<T>)
    requires NoDuplicates(xs)
    ensures forall x :: multiset(xs)[x] <= 1
  {
    if xs != [] {
      MultiplicityOfDistinct(xs[..|xs| - 1]);
      assert xs == xs[..|xs| - 1] + [xs[|xs| - 1]];
    }
  }

  /** Strictly increasing names: sorted, and no name twice. */
  ghost predicate StrictlySorted(names: seq<string>) {
    forall i, j | 0 <= i < j < |names| :: StringLe(names[i], names[j]) && names[i] != names[j]
  }

  lemma StringLeTotalPreorder()
    ensures TotalPreorder(StringLe)
  {
    forall a: string, b: string ensures StringLe(a, b) || StringLe(b, a) {
      StringLeTotal(a, b);
    }
    forall a: string, b: string, c: string | StringLe(a, b) && StringLe(b, c) ensures StringLe(a, c) {
      StringLeTransitive(a, b, c);
    }
  }

  function SortNames(names: seq<string>): seq<string> {
    Sort(StringLe, names)
  }

  lemma SortNamesStrict(names: seq<string>)
    requires NoDuplicates(names)
    ensures StrictlySorted(SortNames(names))
    ensures forall x :: x in SortNames(names) <==> x in names
  {
    StringLeTotalPreorder();
    SortOrders(StringLe, names);
    SortPermutes(StringLe, names);
    NoDuplicatesPermutes(names, SortNames(names));
  }

  /** A strictly sorted list is determined by its elements, whatever listing it was sorted from. */
  lemma {:induction false} StrictlySortedUnique(xs: seq<string>, ys: seq<string>)
    requires StrictlySorted(xs) && StrictlySorted(ys)
    requires forall x :: x in xs <==> x in ys
    ensures xs == ys
  {
    assert forall k | 0 <= k < |xs| :: xs[k] in ys;
    assert forall k | 0 <= k < |ys| :: ys[k] in xs;
    if xs != [] && ys != [] {
      assert xs[0] in ys && ys[0] in xs;
      if xs[0] != ys[0] {
        StringLeAntisymmetric(xs[0], ys[0]);
      }
      forall x ensures x in xs[1..] <==> x in ys[1..] {
        assert x in xs <==> x == xs[0] || x in xs[1..] by { assert xs == [xs[0]] + xs[1..]; }
        assert x in ys <==> x == ys[0] || x in ys[1..] by { assert ys == [ys[0]] + ys[1..]; }
      }
      StrictlySortedUnique(xs[1..], ys[1..]);
      assert xs == [xs[0]] + xs[1..] && ys == [ys[0]] + ys[1..];
    }
  }
}
