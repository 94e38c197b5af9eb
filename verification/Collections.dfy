/** Values, failures, filtered lists and sorted lists shared by the other modules. */
module Collections {

  datatype Option<+T> = None | Some(value: T)

  datatype Result<+T, +E> = Ok(value: T) | Err(error: E)

  /** An identifier, standing for the rank of its text in the collation order. */
  type Id = nat

  /** The largest integer a JavaScript number holds without loss, 2^53 - 1. */
  const MAX_SAFE_INTEGER: int := 9007199254740991

  predicate IsSafe(n: int) {
    -MAX_SAFE_INTEGER <= n <= MAX_SAFE_INTEGER
  }

  function Max(a: int, b: int): int {
    if a < b then b else a
  }

  function Min(a: int, b: int): int {
    if b < a then b else a
  }

  // ---------- filter and map in one pass ----------

  function Kept<U>(o: Option<U>): seq<U> {
    match o
    case Some(u) => [u]
    case None => []
  }

  /** The images of the elements that `f` keeps, in list order. */
  function Collect<T, U>(s: seq<T>, f: T -> Option<U>): seq<U> {
    if s == [] then []
    else Collect(s[..|s| - 1], f) + Kept(f(s[|s| - 1]))
  }

  lemma {:induction false} CollectStep<T, U>(s: seq<T>, i: nat, f: T -> Option<U>)
    requires i < |s|
    ensures Collect(s[..i + 1], f) == Collect(s[..i], f) + Kept(f(s[i]))
  {
    assert s[..i + 1][..i] == s[..i];
  }

  lemma {:induction false} CollectMember<T, U>(s: seq<T>, f: T -> Option<U>, u: U)
    ensures u in Collect(s, f) <==> exists x :: x in s && f(x) == Some(u)
  {
    if s == [] {
    } else {
      var n := |s| - 1;
      CollectMember(s[..n], f, u);
      assert s == s[..n] + [s[n]];
      if exists x :: x in s && f(x) == Some(u) {
        var x :| x in s && f(x) == Some(u);
        assert x in s[..n] || x == s[n];
      }
    }
  }

  lemma {:induction false} CollectConcat<T, U>(s: seq<T>, t: seq<T>, f: T -> Option<U>)
    ensures Collect(s + t, f) == Collect(s, f) + Collect(t, f)
  {
    if t == [] {
      assert s + t == s;
    } else {
      var n := |t| - 1;
      assert (s + t)[..|s + t| - 1] == s + t[..n];
      CollectConcat(s, t[..n], f);
    }
  }

  /** A permuted list collects to a permutation of the collected list. */
  lemma {:induction false} CollectPermutation<T, U>(s: seq<T>, t: seq<T>, f: T -> Option<U>)
    requires multiset(s) == multiset(t)
    ensures multiset(Collect(s, f)) == multiset(Collect(t, f))
    decreases |s|
  {
    if s == [] {
      assert |multiset(t)| == 0;
    } else {
      var n := |s| - 1;
      var x := s[n];
      assert s == s[..n] + [x];
      assert x in multiset(t);
      var i :| 0 <= i < |t| && t[i] == x;
      var rest := t[..i] + t[i + 1..];
      assert t == t[..i] + [x] + t[i + 1..];
      assert multiset(s) == multiset(s[..n]) + multiset{x};
      assert multiset(t) == multiset(rest) + multiset{x};
      assert multiset(s[..n]) == multiset(s) - multiset{x};
      CollectPermutation(s[..n], rest, f);
      CollectConcat(t[..i], t[i + 1..], f);
      CollectConcat(t[..i] + [x], t[i + 1..], f);
      CollectStep(t, i, f);
      assert t[..i + 1] == t[..i] + [x];
    }
  }

  lemma {:induction false} CollectAll<T, U>(s: seq<T>, f: T -> Option<U>)
    requires forall x :: x in s ==> f(x).Some?
    ensures |Collect(s, f)| == |s|
    ensures forall i :: 0 <= i < |s| ==> Collect(s, f)[i] == f(s[i]).value
  {
    if s != [] {
      CollectAll(s[..|s| - 1], f);
    }
  }

  /** Two passes are one. */
  lemma {:induction false} CollectCompose<T(!new), U, V>(s: seq<T>, f: T -> Option<U>, g: U -> Option<V>,
                                                         h: T -> Option<V>)
    requires forall x :: h(x) == match f(x) case None => None case Some(u) => g(u)
    ensures Collect(Collect(s, f), g) == Collect(s, h)
  {
    if s != [] {
      var n := |s| - 1;
      CollectCompose(s[..n], f, g, h);
      CollectConcat(Collect(s[..n], f), Kept(f(s[n])), g);
      if f(s[n]).Some? {
        assert Collect(Kept(f(s[n])), g) == Kept(g(f(s[n]).value));
      }
    }
  }

  /** A classification splits a list without losing or repeating anything. */
  lemma {:induction false} CollectPartition<T(!new), U>(s: seq<T>, f: T -> Option<U>, g: T -> Option<U>,
                                                        h: T -> Option<U>)
    requires forall x :: (f(x) == h(x) && g(x).None?) || (g(x) == h(x) && f(x).None?)
    ensures multiset(Collect(s, h)) == multiset(Collect(s, f)) + multiset(Collect(s, g))
  {
    if s != [] {
      CollectPartition(s[..|s| - 1], f, g, h);
    }
  }

  // ---------- sorting ----------

  ghost predicate TotalPreorder<T(!new)>(leq: (T, T) -> bool) {
    && (forall x, y :: leq(x, y) || leq(y, x))
    && (forall x, y, z :: leq(x, y) && leq(y, z) ==> leq(x, z))
  }

  ghost predicate SortedBy<T>(s: seq<T>, leq: (T, T) -> bool) {
    forall i, j :: 0 <= i < j < |s| ==> leq(s[i], s[j])
  }

  /** Equal keys mean equal elements, among the elements of `s`. */
  ghost predicate TiesAreEqual<T>(s: seq<T>, leq: (T, T) -> bool) {
    forall x, y :: x in s && y in s && leq(x, y) && leq(y, x) ==> x == y
  }

  /** Places `x` after every element of the sorted list that is not greater. */
  function InsertBy<T>(s: seq<T>, x: T, leq: (T, T) -> bool): seq<T> {
    if s == [] then [x]
    else if leq(s[|s| - 1], x) then s + [x]
    else InsertBy(s[..|s| - 1], x, leq) + [s[|s| - 1]]
  }

  /** The stable sort of JavaScript's Array.prototype.sort. */
  function SortBy<T>(s: seq<T>, leq: (T, T) -> bool): seq<T> {
    if s == [] then [] else InsertBy(SortBy(s[..|s| - 1], leq), s[|s| - 1], leq)
  }

  lemma {:induction false} InsertBySorts<T(!new)>(s: seq<T>, x: T, leq: (T, T) -> bool)
    requires TotalPreorder(leq) && SortedBy(s, leq)
    ensures SortedBy(InsertBy(s, x, leq), leq)
    ensures multiset(InsertBy(s, x, leq)) == multiset(s) + multiset{x}
  {
    if s == [] {
    } else {
      var n := |s| - 1;
      assert s == s[..n] + [s[n]];
      if leq(s[n], x) {
      } else {
        InsertBySorts(s[..n], x, leq);
        var r := InsertBy(s[..n], x, leq);
        forall i | 0 <= i < |r| ensures leq(r[i], s[n]) {
          assert r[i] in multiset(r);
          if r[i] != x {
            assert r[i] in multiset(s[..n]);
            assert r[i] in s[..n];
          }
        }
      }
    }
  }

  lemma {:induction false} SortBySorts<T(!new)>(s: seq<T>, leq: (T, T) -> bool)
    requires TotalPreorder(leq)
    ensures SortedBy(SortBy(s, leq), leq)
    ensures multiset(SortBy(s, leq)) == multiset(s)
    ensures |SortBy(s, leq)| == |s|
  {
    if s != [] {
      var n := |s| - 1;
      SortBySorts(s[..n], leq);
      InsertBySorts(SortBy(s[..n], leq), s[n], leq);
      assert s == s[..n] + [s[n]];
    }
    assert |multiset(SortBy(s, leq))| == |multiset(s)|;
  }

  lemma SameMembers<T>(s: seq<T>, t: seq<T>)
    requires multiset(s) == multiset(t)
    ensures forall x :: x in s <==> x in t
    ensures |s| == |t|
  {
    forall x ensures x in s <==> x in t {
      assert x in s <==> x in multiset(s);
      assert x in t <==> x in multiset(t);
    }
    assert |multiset(s)| == |multiset(t)|;
  }

  lemma HeadAndTail<T>(s: seq<T>)
    requires s != []
    ensures multiset(s[1..]) == multiset(s) - multiset{s[0]}
  {
    assert s == [s[0]] + s[1..];
  }

  lemma SameHead<T>(s: seq<T>, t: seq<T>, leq: (T, T) -> bool)
    requires s != [] && t != [] && s[0] in t && t[0] in s
    requires SortedBy(s, leq) && SortedBy(t, leq) && TiesAreEqual(s, leq)
    ensures s[0] == t[0]
  {
  }

  /** Sorting leaves nothing of the order in which the elements came. */
  lemma {:induction false} SortedUnique<T>(s: seq<T>, t: seq<T>, leq: (T, T) -> bool)
    requires multiset(s) == multiset(t)
    requires SortedBy(s, leq) && SortedBy(t, leq) && TiesAreEqual(s, leq)
    ensures s == t
    decreases |s|
  {
    SameMembers(s, t);
    if s != [] {
      SameHead(s, t, leq);
      HeadAndTail(s);
      HeadAndTail(t);
      SortedUnique(s[1..], t[1..], leq);
      assert s == [s[0]] + s[1..] && t == [t[0]] + t[1..];
    }
  }

  lemma {:induction false} SortPermutation<T(!new)>(s: seq<T>, t: seq<T>, leq: (T, T) -> bool)
    requires multiset(s) == multiset(t)
    requires TotalPreorder(leq) && TiesAreEqual(s, leq)
    ensures SortBy(s, leq) == SortBy(t, leq)
  {
    SortBySorts(s, leq);
    SortBySorts(t, leq);
    SameMembers(s, SortBy(s, leq));
    SortedUnique(SortBy(s, leq), SortBy(t, leq), leq);
  }
}
