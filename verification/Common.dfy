/** Small vocabulary shared by every module: results of operations that may refuse,
    Python's order on strings, and Python's stable `sorted`. */
module Common {

  datatype Option<+T> = None | Some(value: T)

  /** An operation that either returns or raises. */
  datatype Result<+T, +E> = Ok(value: T) | Refused(error: E)

  function Elements<T>(xs: seq<T>): set<T> {
    set x | x in xs
  }

  predicate Distinct<T(==)>(xs: seq<T>) {
    forall i, j | 0 <= i < j < |xs| :: xs[i] != xs[j]
  }

  lemma DistinctElements<T>(xs: seq<T>)
    requires Distinct(xs)
    ensures |Elements(xs)| == |xs|
  {
    if xs != [] {
      assert Elements(xs) == {xs[0]} + Elements(xs[1..]);
      DistinctElements(xs[1..]);
    }
  }

  /** `len(xs) == len(set(xs))`. */
  lemma DistinctExactly<T>(xs: seq<T>)
    ensures |Elements(xs)| == |xs| <==> Distinct(xs)
    ensures |Elements(xs)| <= |xs|
  {
    if xs != [] {
      assert Elements(xs) == {xs[0]} + Elements(xs[1..]);
      DistinctExactly(xs[1..]);
      if xs[0] !in xs[1..] {
        assert |Elements(xs)| == 1 + |Elements(xs[1..])|;
      } else {
        assert Elements(xs) == Elements(xs[1..]);
      }
    }
  }

  /** `[f(x) for x in xs]`. */
  function Each<T, U>(f: T -> U, xs: seq<T>): (r: seq<U>)
    ensures |r| == |xs|
  {
    seq(|xs|, i requires 0 <= i < |xs| => f(xs[i]))
  }

  function Concat<T>(parts: seq<seq<T>>): seq<T> {
    if parts == [] then [] else parts[0] + Concat(parts[1..])
  }

  lemma ConcatAppend<T>(parts: seq<seq<T>>, last: seq<T>)
    ensures Concat(parts + [last]) == Concat(parts) + last
  {
    if parts == [] {
    } else {
      assert (parts + [last])[1..] == parts[1..] + [last];
      ConcatAppend(parts[1..], last);
    }
  }

  lemma AppendAssociates<T>(a: seq<T>, b: seq<T>, c: seq<T>)
    ensures a + b + c == a + (b + c)
  {
  }

  lemma HeadAndTail<T>(xs: seq<T>)
    requires xs != []
    ensures [xs[0]] + xs[1..] == xs
  {
  }

  lemma PrefixNext<T>(xs: seq<T>, i: nat)
    requires i < |xs|
    ensures xs[..i + 1] == xs[..i] + [xs[i]]
  {
  }

  lemma AppendNothing<T>(a: seq<T>)
    ensures [] + a == a && a + [] == a
  {
  }

  // ---- Places in a sequence ----

  ghost predicate Rising(at: seq<nat>) {
    forall j, k | 0 <= j < k < |at| :: at[j] < at[k]
  }

  lemma PlacesNext(at: seq<nat>, n: nat)
    requires Rising(at) && forall j | 0 <= j < |at| :: at[j] < n
    ensures Rising(at + [n]) && Elements(at + [n]) == Elements(at) + {n}
  {
  }

  // ---- Text ----

  /** The hexadecimal form of a SHA-256 digest. */
  ghost predicate IsSha(s: string) {
    |s| == 64 && forall i | 0 <= i < |s| :: '0' <= s[i] <= '9' || 'a' <= s[i] <= 'f'
  }

  /** 64 characters, none of them outside `0123456789abcdef`. */
  method CheckSha(s: string) returns (ok: bool)
    ensures ok <==> IsSha(s)
  {
    ok := |s| == 64 && forall i | 0 <= i < |s| :: s[i] in "0123456789abcdef";
  }

  /** Strict lexicographic order by code point: `a < b` on Python strings. */
  predicate Before(a: string, b: string) {
    b != [] && (a == [] || a[0] < b[0] || (a[0] == b[0] && Before(a[1..], b[1..])))
  }

  lemma BeforeTotal(a: string, b: string)
    ensures a == b || Before(a, b) || Before(b, a)
  {
    if a != [] && b != [] && a[0] == b[0] {
      BeforeTotal(a[1..], b[1..]);
      assert a == [a[0]] + a[1..] && b == [b[0]] + b[1..];
    }
  }

  lemma BeforeTransitive(a: string, b: string, c: string)
    requires Before(a, b) && Before(b, c)
    ensures Before(a, c)
  {
  }

  /** `a` and `b` agree below `k`, where `a` ends or has the lesser character. */
  ghost predicate DecidedAt(a: string, b: string, k: nat) {
    k <= |a| && k < |b| && a[..k] == b[..k] && (k == |a| || a[k] < b[k])
  }

  lemma DecidedLater(a: string, b: string, k: nat)
    requires a != [] && b != [] && a[0] == b[0]
    ensures DecidedAt(a, b, k + 1) <==> DecidedAt(a[1..], b[1..], k)
  {
    if k < |a| && k < |b| {
      HeadAndTail(a[..k + 1]);
      HeadAndTail(b[..k + 1]);
      assert a[1..][..k] == a[..k + 1][1..] && b[1..][..k] == b[..k + 1][1..];
    }
  }

  /** The order is decided at the first place where the two differ; a beginning comes first. */
  lemma {:induction false} BeforeMeans(a: string, b: string)
    ensures Before(a, b) <==> exists k: nat :: DecidedAt(a, b, k)
  {
    if a == [] || b == [] || a[0] != b[0] {
      assert Before(a, b) ==> DecidedAt(a, b, 0);
      assert forall k: nat | DecidedAt(a, b, k) && k > 0 :: a[..k][0] == b[..k][0];
    } else {
      BeforeMeans(a[1..], b[1..]);
      if Before(a, b) {
        var k: nat :| DecidedAt(a[1..], b[1..], k);
        DecidedLater(a, b, k);
      }
      if k: nat :| DecidedAt(a, b, k) {
        if k > 0 { DecidedLater(a, b, k - 1); }
      }
    }
  }

  predicate AtMost(a: string, b: string) {
    a == b || Before(a, b)
  }

  ghost predicate TotalPreorder<T(!new)>(leq: (T, T) -> bool) {
    && (forall a, b :: leq(a, b) || leq(b, a))
    && (forall a, b, c :: leq(a, b) && leq(b, c) ==> leq(a, c))
  }

  lemma AtMostIsOrder()
    ensures TotalPreorder(AtMost)
  {
    forall a: string, b: string ensures AtMost(a, b) || AtMost(b, a) {
      BeforeTotal(a, b);
    }
    forall a: string, b: string, c: string | AtMost(a, b) && AtMost(b, c) ensures AtMost(a, c) {
      if a != b && b != c { BeforeTransitive(a, b, c); }
    }
  }

  predicate Sorted<T>(xs: seq<T>, leq: (T, T) -> bool) {
    forall i, j | 0 <= i < j < |xs| :: leq(xs[i], xs[j])
  }

  /** Puts `x` in front of the first element it is not after: earlier elements win ties. */
  function Insert<T>(x: T, xs: seq<T>, leq: (T, T) -> bool): (r: seq<T>)
    ensures multiset(r) == multiset(xs) + multiset{x}
    ensures |r| == |xs| + 1
  {
    if xs == [] then [x]
    else if leq(x, xs[0]) then [x] + xs
    else
      assert xs == [xs[0]] + xs[1..];
      [xs[0]] + Insert(x, xs[1..], leq)
  }

  lemma SameElements<T>(xs: seq<T>, ys: seq<T>)
    requires multiset(xs) == multiset(ys)
    ensures Elements(xs) == Elements(ys)
  {
    assert forall x | x in xs :: x in multiset(xs);
    assert forall y | y in ys :: y in multiset(ys);
  }

  /** Python's `sorted(xs, key=...)`, which is stable. */
  function SortBy<T>(xs: seq<T>, leq: (T, T) -> bool): (r: seq<T>)
    ensures multiset(r) == multiset(xs)
    ensures |r| == |xs|
    ensures Elements(r) == Elements(xs)
  {
    if xs == [] then []
    else
      assert xs == [xs[0]] + xs[1..];
      var r := Insert(xs[0], SortBy(xs[1..], leq), leq);
      SameElements(r, xs);
      r
  }

  lemma InsertSorted<T(!new)>(x: T, xs: seq<T>, leq: (T, T) -> bool)
    requires TotalPreorder(leq) && Sorted(xs, leq)
    ensures Sorted(Insert(x, xs, leq), leq)
  {
    if xs == [] || leq(x, xs[0]) {
    } else {
      InsertSorted(x, xs[1..], leq);
      var tail := Insert(x, xs[1..], leq);
      forall j | 0 <= j < |tail| ensures leq(xs[0], tail[j]) {
        assert tail[j] in multiset(tail);
        assert tail[j] == x || tail[j] in multiset(xs[1..]);
      }
    }
  }

  lemma SortBySorted<T(!new)>(xs: seq<T>, leq: (T, T) -> bool)
    requires TotalPreorder(leq)
    ensures Sorted(SortBy(xs, leq), leq)
  {
    if xs != [] {
      SortBySorted(xs[1..], leq);
      InsertSorted(xs[0], SortBy(xs[1..], leq), leq);
    }
  }

  lemma DistinctOnce<T>(xs: seq<T>)
    requires Distinct(xs)
    ensures forall x :: multiset(xs)[x] <= 1
  {
    if xs != [] {
      DistinctOnce(xs[1..]);
      assert xs == [xs[0]] + xs[1..];
      assert xs[0] !in multiset(xs[1..]);
    }
  }

  lemma OnceDistinct<T>(xs: seq<T>)
    requires forall x :: multiset(xs)[x] <= 1
    ensures Distinct(xs)
  {
    forall i, j | 0 <= i < j < |xs| ensures xs[i] != xs[j] {
      assert xs == xs[..j] + xs[j..];
      assert multiset(xs) == multiset(xs[..j]) + multiset(xs[j..]);
      assert xs[..j][i] in multiset(xs[..j]) && xs[j..][0] in multiset(xs[j..]);
      assert multiset(xs)[xs[i]] == multiset(xs[..j])[xs[i]] + multiset(xs[j..])[xs[i]];
    }
  }

  lemma SortByDistinct<T>(xs: seq<T>, leq: (T, T) -> bool)
    requires Distinct(xs)
    ensures Distinct(SortBy(xs, leq))
  {
    DistinctOnce(xs);
    OnceDistinct(SortBy(xs, leq));
  }
}
