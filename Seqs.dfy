/** The LINQ operators the query layer is built from (Where, Select,
    SelectMany, Any), as functions on finite sequences, with the laws the
    combinators rely on: order preservation, membership, distribution of a
    filter over a flattening, and monotonicity with respect to subsequences.
    LINQ's deferred execution is not modelled: a sequence is a value, so
    enumerating it twice gives the same elements. */
module Seqs {
  import opened Results

  /** a occurs in b in order, possibly with gaps (greedy matching). */
  ghost predicate Subsequence<T>(a: seq<T>, b: seq<T>)
    decreases |b|
  {
    a == [] ||
    (b != [] && if a[0] == b[0] then Subsequence(a[1..], b[1..]) else Subsequence(a, b[1..]))
  }

  /** r holds every element that passes p exactly as often as s does; with
      Subsequence(r, s) and membership this pins r down to Where(p, s). */
  ghost predicate KeepsCopies<T(!new)>(r: seq<T>, s: seq<T>, p: T -> bool) {
    forall x :: p(x) ==> multiset(r)[x] == multiset(s)[x]
  }

  /** Where: the elements of s that pass p, in their order in s. */
  function Filter<T(!new)>(p: T -> bool, s: seq<T>): (r: seq<T>)
    ensures |r| <= |s|
    ensures forall x :: x in r <==> x in s && p(x)
    ensures Subsequence(r, s)
  {
    if s == [] then []
    else
      var rest := Filter(p, s[1..]);
      if p(s[0]) then
        assert ([s[0]] + rest)[1..] == rest;
        [s[0]] + rest
      else
        SubsequenceSkip(rest, s);
        rest
  }

  /** Select: f applied to every element, in order. */
  function Map<T, U>(f: T -> U, s: seq<T>): (r: seq<U>)
    ensures |r| == |s|
    ensures forall i :: 0 <= i < |s| ==> r[i] == f(s[i])
  {
    if s == [] then [] else [f(s[0])] + Map(f, s[1..])
  }

  /** SelectMany: the concatenation of f's results, in the order of s. */
  function FlatMap<T(!new), U(!new)>(f: T -> seq<U>, s: seq<T>): (r: seq<U>)
    ensures forall y :: y in r <==> exists x :: x in s && y in f(x)
  {
    if s == [] then []
    else
      var rest := FlatMap(f, s[1..]);
      assert forall x :: x in s <==> x == s[0] || x in s[1..];
      f(s[0]) + rest
  }

  /** Any: some element passes p. */
  function Any<T(!new)>(p: T -> bool, s: seq<T>): (r: bool)
    ensures r <==> exists x :: x in s && p(x)
  {
    if s == [] then false
    else
      assert forall x :: x in s <==> x == s[0] || x in s[1..];
      p(s[0]) || Any(p, s[1..])
  }

  /** Where with a test that may throw: the query aborts with the exception
      of the first element whose test throws; otherwise the elements whose
      test gives true, in order. */
  function TryFilter<T(!new)>(test: T -> Result<bool>, s: seq<T>): (r: Result<seq<T>>)
    ensures r.Ok? <==> forall x :: x in s ==> test(x).Ok?
    ensures r.Ok? ==> Subsequence(r.value, s)
    ensures r.Ok? ==> forall x :: x in r.value <==> x in s && test(x) == Ok(true)
    ensures r.Ok? ==> forall x :: test(x) == Ok(true) ==> multiset(r.value)[x] == multiset(s)[x]
    ensures r.Throws? ==> exists i :: 0 <= i < |s| && test(s[i]) == Throws(r.exception) &&
                                     forall j :: 0 <= j < i ==> test(s[j]).Ok?
  {
    if s == [] then Ok([])
    else
      assert forall x :: x in s <==> x == s[0] || x in s[1..];
      match test(s[0])
      case Throws(e) => Throws(e)
      case Ok(keep) =>
        match TryFilter(test, s[1..])
        case Throws(e) =>
          assert forall j :: 1 <= j < |s| ==> s[j] == s[1..][j - 1];
          Throws(e)
        case Ok(rest) =>
          assert s == [s[0]] + s[1..];
          assert multiset(s) == multiset{s[0]} + multiset(s[1..]);
          if keep then
            assert ([s[0]] + rest)[1..] == rest;
            Ok([s[0]] + rest)
          else
            SubsequenceSkip(rest, s);
            Ok(rest)
  }

  // ---------------------------------------------------------------------
  // Subsequences

  lemma {:induction false} SubsequenceTail<T>(a: seq<T>, b: seq<T>)
    requires a != [] && Subsequence(a, b)
    ensures Subsequence(a[1..], b)
    decreases |b|, 1
  {
    if a[0] == b[0] {
      SubsequenceSkip(a[1..], b);
    } else {
      SubsequenceTail(a, b[1..]);
      SubsequenceSkip(a[1..], b);
    }
  }

  /** Dropping the head of b keeps a subsequence a subsequence of b. */
  lemma {:induction false} SubsequenceSkip<T>(a: seq<T>, b: seq<T>)
    requires b != [] && Subsequence(a, b[1..])
    ensures Subsequence(a, b)
    decreases |b|, 0
  {
    if a != [] && a[0] == b[0] {
      SubsequenceTail(a, b[1..]);
    }
  }

  lemma {:induction false} SubsequenceReflexive<T>(a: seq<T>)
    ensures Subsequence(a, a)
    decreases |a|
  {
    if a != [] {
      SubsequenceReflexive(a[1..]);
    }
  }

  /** Every element of a subsequence occurs in the longer sequence. */
  lemma {:induction false} SubsequenceMembers<T>(a: seq<T>, b: seq<T>)
    requires Subsequence(a, b)
    ensures forall x :: x in a ==> x in b
    decreases |b|
  {
    if a != [] {
      if a[0] == b[0] {
        SubsequenceMembers(a[1..], b[1..]);
        assert forall x :: x in a ==> x == a[0] || x in a[1..];
      } else {
        SubsequenceMembers(a, b[1..]);
      }
    }
  }

  lemma {:induction false} SubsequencePrepend<T>(x: seq<T>, a: seq<T>, b: seq<T>)
    requires Subsequence(a, b)
    ensures Subsequence(a, x + b)
    decreases |x|
  {
    if x != [] {
      assert (x + b)[1..] == x[1..] + b;
      SubsequencePrepend(x[1..], a, b);
      SubsequenceSkip(a, x + b);
    } else {
      assert x + b == b;
    }
  }

  /** Subsequences concatenate. */
  lemma {:induction false} SubsequenceConcat<T>(a1: seq<T>, b1: seq<T>, a2: seq<T>, b2: seq<T>)
    requires Subsequence(a1, b1) && Subsequence(a2, b2)
    ensures Subsequence(a1 + a2, b1 + b2)
    decreases |b1|
  {
    if a1 == [] {
      assert a1 + a2 == a2;
      SubsequencePrepend(b1, a2, b2);
    } else {
      assert (a1 + a2)[0] == a1[0] && (b1 + b2)[0] == b1[0];
      assert (b1 + b2)[1..] == b1[1..] + b2;
      if a1[0] == b1[0] {
        assert (a1 + a2)[1..] == a1[1..] + a2;
        SubsequenceConcat(a1[1..], b1[1..], a2, b2);
      } else {
        SubsequenceConcat(a1, b1[1..], a2, b2);
      }
    }
  }

  lemma {:induction false} SubsequenceTransitive<T>(a: seq<T>, b: seq<T>, c: seq<T>)
    requires Subsequence(a, b) && Subsequence(b, c)
    ensures Subsequence(a, c)
    decreases |c|
  {
    if a != [] {
      assert b != [] && c != [];
      if b[0] == c[0] {
        if a[0] == b[0] {
          SubsequenceTransitive(a[1..], b[1..], c[1..]);
        } else {
          SubsequenceTransitive(a, b[1..], c[1..]);
          SubsequenceSkip(a, c);
        }
      } else {
        SubsequenceTransitive(a, b, c[1..]);
        SubsequenceSkip(a, c);
      }
    }
  }

  /** Filtering preserves the subsequence relation. */
  lemma {:induction false} FilterMonotone<T(!new)>(p: T -> bool, a: seq<T>, b: seq<T>)
    requires Subsequence(a, b)
    ensures Subsequence(Filter(p, a), Filter(p, b))
    decreases |b|
  {
    if a == [] {
    } else if a[0] == b[0] {
      FilterMonotone(p, a[1..], b[1..]);
      if p(b[0]) {
        var fa := Filter(p, a);
        assert fa[0] == b[0] && fa[1..] == Filter(p, a[1..]);
      }
    } else {
      FilterMonotone(p, a, b[1..]);
      if p(b[0]) {
        SubsequenceSkip(Filter(p, a), Filter(p, b));
      }
    }
  }

  /** Mapping preserves the subsequence relation. */
  lemma {:induction false} MapMonotone<T, U>(f: T -> U, a: seq<T>, b: seq<T>)
    requires Subsequence(a, b)
    ensures Subsequence(Map(f, a), Map(f, b))
    decreases |b|
  {
    if a == [] {
    } else if a[0] == b[0] {
      MapMonotone(f, a[1..], b[1..]);
      assert Map(f, a)[1..] == Map(f, a[1..]);
      assert Map(f, b)[1..] == Map(f, b[1..]);
    } else {
      MapMonotone(f, a, b[1..]);
      assert Map(f, b)[1..] == Map(f, b[1..]);
      SubsequenceSkip(Map(f, a), Map(f, b));
    }
  }

  /** Flattening with pointwise-smaller results gives a smaller result. */
  lemma {:induction false} FlatMapMonotone<T(!new), U(!new)>(f: T -> seq<U>, g: T -> seq<U>, s: seq<T>)
    requires forall x :: x in s ==> Subsequence(f(x), g(x))
    ensures Subsequence(FlatMap(f, s), FlatMap(g, s))
    decreases |s|
  {
    if s != [] {
      FlatMapMonotone(f, g, s[1..]);
      SubsequenceConcat(f(s[0]), g(s[0]), FlatMap(f, s[1..]), FlatMap(g, s[1..]));
    }
  }

  // ---------------------------------------------------------------------
  // Laws of Where, Select and SelectMany

  /** Where keeps every passing element exactly as often as it occurs. */
  lemma {:induction false} FilterCounts<T(!new)>(p: T -> bool, s: seq<T>)
    ensures forall x :: multiset(Filter(p, s))[x] == if p(x) then multiset(s)[x] else 0
    decreases |s|
  {
    if s != [] {
      FilterCounts(p, s[1..]);
      assert s == [s[0]] + s[1..];
      assert multiset(s) == multiset{s[0]} + multiset(s[1..]);
    }
  }

  lemma {:induction false} FilterConcat<T(!new)>(p: T -> bool, a: seq<T>, b: seq<T>)
    ensures Filter(p, a + b) == Filter(p, a) + Filter(p, b)
    decreases |a|
  {
    if a != [] {
      assert (a + b)[0] == a[0] && (a + b)[1..] == a[1..] + b;
      FilterConcat(p, a[1..], b);
    } else {
      assert a + b == b;
    }
  }

  /** Where is the identity on a sequence whose elements all pass. */
  lemma {:induction false} FilterAll<T(!new)>(p: T -> bool, s: seq<T>)
    requires forall x :: x in s ==> p(x)
    ensures Filter(p, s) == s
    decreases |s|
  {
    if s != [] {
      assert forall x :: x in s[1..] ==> x in s;
      FilterAll(p, s[1..]);
    }
  }

  /** Where is empty on a sequence none of whose elements pass. */
  lemma FilterNone<T(!new)>(p: T -> bool, s: seq<T>)
    requires forall x :: x in s ==> !p(x)
    ensures Filter(p, s) == []
  {
    if Filter(p, s) != [] {
      assert Filter(p, s)[0] in Filter(p, s);
    }
  }

  /** Where is idempotent. */
  lemma {:induction false} FilterIdempotent<T(!new)>(p: T -> bool, s: seq<T>)
    ensures Filter(p, Filter(p, s)) == Filter(p, s)
  {
    FilterAll(p, Filter(p, s));
  }

  /** Two Where clauses commute. */
  lemma {:induction false} FilterCommutes<T(!new)>(p: T -> bool, q: T -> bool, s: seq<T>)
    ensures Filter(p, Filter(q, s)) == Filter(q, Filter(p, s))
    decreases |s|
  {
    if s != [] {
      FilterCommutes(p, q, s[1..]);
      var fq, fp := Filter(q, s), Filter(p, s);
      if q(s[0]) {
        assert fq[0] == s[0] && fq[1..] == Filter(q, s[1..]);
      }
      if p(s[0]) {
        assert fp[0] == s[0] && fp[1..] == Filter(p, s[1..]);
      }
    }
  }

  /** Where with two tests that agree on s gives the same result. */
  lemma {:induction false} FilterCongruent<T(!new)>(p: T -> bool, q: T -> bool, s: seq<T>)
    requires forall x :: x in s ==> p(x) == q(x)
    ensures Filter(p, s) == Filter(q, s)
    decreases |s|
  {
    if s != [] {
      assert forall x :: x in s[1..] ==> x in s;
      FilterCongruent(p, q, s[1..]);
    }
  }

  /** A narrower filter after a wider one is the narrower one alone. */
  lemma {:induction false} FilterNarrows<T(!new)>(p: T -> bool, q: T -> bool, s: seq<T>)
    requires forall x :: q(x) ==> p(x)
    ensures Filter(q, Filter(p, s)) == Filter(q, s)
    decreases |s|
  {
    if s != [] {
      FilterNarrows(p, q, s[1..]);
      if p(s[0]) {
        var fp := Filter(p, s);
        assert fp[0] == s[0] && fp[1..] == Filter(p, s[1..]);
      }
    }
  }

  /** Filtering after Select is selecting after the corresponding filter. */
  lemma {:induction false} FilterMap<T(!new), U(!new)>(p: T -> bool, q: U -> bool, f: T -> U, s: seq<T>)
    requires forall x :: q(f(x)) == p(x)
    ensures Filter(q, Map(f, s)) == Map(f, Filter(p, s))
    decreases |s|
  {
    if s != [] {
      FilterMap(p, q, f, s[1..]);
      var ms := Map(f, s);
      assert ms[0] == f(s[0]) && ms[1..] == Map(f, s[1..]);
      if p(s[0]) {
        var fs := Filter(p, s);
        assert fs[0] == s[0] && fs[1..] == Filter(p, s[1..]);
        assert Map(f, fs)[1..] == Map(f, fs[1..]);
      }
    }
  }

  lemma {:induction false} FlatMapConcat<T(!new), U(!new)>(f: T -> seq<U>, a: seq<T>, b: seq<T>)
    ensures FlatMap(f, a + b) == FlatMap(f, a) + FlatMap(f, b)
    decreases |a|
  {
    if a != [] {
      assert (a + b)[0] == a[0] && (a + b)[1..] == a[1..] + b;
      FlatMapConcat(f, a[1..], b);
    } else {
      assert a + b == b;
    }
  }

  /** Filtering a flattening is flattening the per-element filters: g is
      the filter of p applied to each f(x). */
  lemma {:induction false} FilterFlatMap<T(!new), U(!new)>(p: U -> bool, f: T -> seq<U>, g: T -> seq<U>, s: seq<T>)
    requires forall x :: x in s ==> g(x) == Filter(p, f(x))
    ensures Filter(p, FlatMap(f, s)) == FlatMap(g, s)
    decreases |s|
  {
    if s != [] {
      assert forall x :: x in s[1..] ==> x in s;
      FilterConcat(p, f(s[0]), FlatMap(f, s[1..]));
      FilterFlatMap(p, f, g, s[1..]);
    }
  }

  /** Flattening with pointwise-equal functions gives the same result. */
  lemma {:induction false} FlatMapCongruent<T(!new), U(!new)>(f: T -> seq<U>, g: T -> seq<U>, s: seq<T>)
    requires forall x :: x in s ==> f(x) == g(x)
    ensures FlatMap(f, s) == FlatMap(g, s)
    decreases |s|
  {
    if s != [] {
      assert forall x :: x in s[1..] ==> x in s;
      FlatMapCongruent(f, g, s[1..]);
    }
  }

  lemma {:induction false} MapConcat<T, U>(f: T -> U, a: seq<T>, b: seq<T>)
    ensures Map(f, a + b) == Map(f, a) + Map(f, b)
  {
  }

  /** Two throwing tests that agree wherever the first does not throw give
      the same query whenever the first query succeeds. */
  lemma {:induction false} TryFilterCongruent<T(!new)>(t1: T -> Result<bool>, t2: T -> Result<bool>, s: seq<T>)
    requires forall x :: x in s && t1(x).Ok? ==> t2(x) == t1(x)
    ensures TryFilter(t1, s).Ok? ==> TryFilter(t2, s) == TryFilter(t1, s)
    decreases |s|
  {
    if s != [] {
      assert forall x :: x in s[1..] ==> x in s;
      TryFilterCongruent(t1, t2, s[1..]);
    }
  }

  /** A test that fails exactly where another does and keeps no more
      elements gives a subsequence of the other's result. */
  lemma {:induction false} TryFilterWeaker<T(!new)>(t1: T -> Result<bool>, t2: T -> Result<bool>, s: seq<T>)
    requires forall x :: x in s ==> (t1(x).Ok? <==> t2(x).Ok?)
    requires forall x :: x in s && t1(x) == Ok(true) ==> t2(x) == Ok(true)
    ensures TryFilter(t1, s).Ok? <==> TryFilter(t2, s).Ok?
    ensures TryFilter(t1, s).Ok? ==> Subsequence(TryFilter(t1, s).value, TryFilter(t2, s).value)
    decreases |s|
  {
    if s != [] && TryFilter(t1, s).Ok? {
      assert forall x :: x in s[1..] ==> x in s;
      TryFilterWeaker(t1, t2, s[1..]);
      var r1, r2 := TryFilter(t1, s[1..]).value, TryFilter(t2, s[1..]).value;
      if t1(s[0]) == Ok(true) {
        SubsequenceReflexive([s[0]]);
        SubsequenceConcat([s[0]], [s[0]], r1, r2);
      } else if t2(s[0]) == Ok(true) {
        SubsequencePrepend([s[0]], r1, r2);
      }
    }
  }

  /** Where over a single element. */
  lemma TryFilterSingleton<T(!new)>(test: T -> Result<bool>, x: T)
    ensures test(x).Throws? ==> TryFilter(test, [x]) == Throws(test(x).exception)
    ensures test(x).Ok? ==> TryFilter(test, [x]) == Ok(if test(x).value then [x] else [])
  {
    var s := [x];
    assert s[0] == x && s[1..] == [];
    assert TryFilter(test, s[1..]) == Ok([]);
    assert [s[0]] + [] == [x];
  }
}
