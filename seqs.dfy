/** Option and the list operations the Python code writes as comprehensions
    and `for` loops: keep-if, map, first match and concatenation of lists. */
module Seqs {

  datatype Option<T> = None | Some(value: T)

  /** The elements of `s` that satisfy `p`, in order. */
  function Filter<T>(p: T -> bool, s: seq<T>): (r: seq<T>)
    ensures |r| <= |s|
    ensures forall x :: x in r ==> x in s && p(x)
    ensures forall x :: x in s && p(x) ==> x in r
  {
    if s == [] then []
    else (if p(s[0]) then [s[0]] else []) + Filter(p, s[1..])
  }

  /** No element occurs twice in `s`. */
  ghost predicate Distinct<T>(s: seq<T>) {
    forall i, j :: 0 <= i < j < |s| ==> s[i] != s[j]
  }

  /** Keeping some elements of a list without repeats gives one without
      repeats. */
  lemma {:induction false} FilterDistinct<T>(p: T -> bool, s: seq<T>)
    requires Distinct(s)
    ensures Distinct(Filter(p, s))
  {
    if s != [] {
      var rest := s[1..];
      forall i, j | 0 <= i < j < |rest| ensures rest[i] != rest[j] {
        assert rest[i] == s[i + 1] && rest[j] == s[j + 1];
      }
      FilterDistinct(p, rest);
      forall k | 0 <= k < |rest| ensures rest[k] != s[0] {
        assert rest[k] == s[k + 1];
      }
      var tail := Filter(p, rest);
      var r := Filter(p, s);
      if p(s[0]) {
        assert r == [s[0]] + tail;
        forall i, j | 0 <= i < j < |r| ensures r[i] != r[j] {
          assert r[j] == tail[j - 1] && r[j] in tail;
          if i > 0 {
            assert r[i] == tail[i - 1];
          }
        }
      } else {
        assert r == tail;
      }
    }
  }

  /** `f` applied to each element of `s`. */
  function Map<A, B>(f: A -> B, s: seq<A>): (r: seq<B>)
    ensures |r| == |s|
    ensures forall i :: 0 <= i < |s| ==> r[i] == f(s[i])
  {
    if s == [] then [] else [f(s[0])] + Map(f, s[1..])
  }

  /** The first element of `s` that satisfies `p`. */
  function FirstMatch<T>(p: T -> bool, s: seq<T>): (r: Option<T>)
    ensures r.Some? ==> r.value in s && p(r.value)
    ensures r.None? <==> forall x :: x in s ==> !p(x)
  {
    if s == [] then None
    else if p(s[0]) then Some(s[0])
    else FirstMatch(p, s[1..])
  }

  /** Keeping is decided element by element, so it distributes over `+`: the
      kept elements stay in their original order. */
  lemma {:induction false} FilterAppend<T>(p: T -> bool, a: seq<T>, b: seq<T>)
    ensures Filter(p, a + b) == Filter(p, a) + Filter(p, b)
  {
    if a == [] {
      assert a + b == b;
    } else {
      assert (a + b)[0] == a[0] && (a + b)[1..] == a[1..] + b;
      FilterAppend(p, a[1..], b);
      var head := if p(a[0]) then [a[0]] else [];
      calc {
        Filter(p, a + b);
        head + Filter(p, a[1..] + b);
        head + (Filter(p, a[1..]) + Filter(p, b));
        (head + Filter(p, a[1..])) + Filter(p, b);
      }
    }
  }

  lemma {:induction false} MapAppend<A, B>(f: A -> B, a: seq<A>, b: seq<A>)
    ensures Map(f, a + b) == Map(f, a) + Map(f, b)
  {
    if a == [] {
      assert a + b == b;
    } else {
      assert (a + b)[0] == a[0] && (a + b)[1..] == a[1..] + b;
      MapAppend(f, a[1..], b);
      var head := [f(a[0])];
      calc {
        Map(f, a + b);
        head + Map(f, a[1..] + b);
        head + (Map(f, a[1..]) + Map(f, b));
        (head + Map(f, a[1..])) + Map(f, b);
      }
    }
  }

  /** The first match is the head of the list of all matches. */
  lemma {:induction false} FirstMatchIsHeadOfFilter<T>(p: T -> bool, s: seq<T>)
    ensures FirstMatch(p, s) == if Filter(p, s) == [] then None else Some(Filter(p, s)[0])
  {
    if s != [] {
      FirstMatchIsHeadOfFilter(p, s[1..]);
    }
  }

  lemma FilterNone<T>(p: T -> bool, s: seq<T>)
    requires forall x :: x in s ==> !p(x)
    ensures Filter(p, s) == []
  {
    if Filter(p, s) != [] {
      assert Filter(p, s)[0] in Filter(p, s);
    }
  }

  /** Keep-after-map: every kept value is the image of some input and passes
      the test. */
  lemma FilterMapSound<A, B>(p: B -> bool, f: A -> B, s: seq<A>)
    ensures forall y :: y in Filter(p, Map(f, s)) ==> p(y) && exists x :: x in s && y == f(x)
  {
    forall y | y in Filter(p, Map(f, s)) ensures exists x :: x in s && y == f(x) {
      var i :| 0 <= i < |Map(f, s)| && Map(f, s)[i] == y;
      assert s[i] in s;
    }
  }

  /** Keep-after-map: the image of every input that passes the test is kept. */
  lemma FilterMapComplete<A, B>(p: B -> bool, f: A -> B, s: seq<A>)
    ensures forall x :: x in s && p(f(x)) ==> f(x) in Filter(p, Map(f, s))
  {
    forall x | x in s && p(f(x)) ensures f(x) in Filter(p, Map(f, s)) {
      var i :| 0 <= i < |s| && s[i] == x;
      assert Map(f, s)[i] == f(x);
    }
  }

  /** Keep-after-map: a property every kept image has holds of every kept
      element. */
  lemma FilterMapAll<A, B>(p: B -> bool, q: B -> bool, f: A -> B, s: seq<A>)
    requires forall x :: x in s && p(f(x)) ==> q(f(x))
    ensures forall y :: y in Filter(p, Map(f, s)) ==> q(y)
  {
    FilterMapSound(p, f, s);
    forall y | y in Filter(p, Map(f, s)) ensures q(y) {
      var x :| x in s && y == f(x);
    }
  }

  /** Select, map, then keep: a pipeline that decides element by element
      distributes over `+`. */
  lemma PipelineAppend<A, B>(p: A -> bool, f: A -> B, q: B -> bool, a: seq<A>, b: seq<A>)
    ensures Filter(q, Map(f, Filter(p, a + b)))
         == Filter(q, Map(f, Filter(p, a))) + Filter(q, Map(f, Filter(p, b)))
  {
    FilterAppend(p, a, b);
    MapAppend(f, Filter(p, a), Filter(p, b));
    FilterAppend(q, Map(f, Filter(p, a)), Map(f, Filter(p, b)));
  }

  /** The values of the `Some`s, in order. */
  function Somes<T>(os: seq<Option<T>>): seq<T> {
    if os == [] then []
    else (match os[0] case Some(x) => [x] case None => []) + Somes(os[1..])
  }

  lemma {:induction false} SomesAppend<T>(a: seq<Option<T>>, b: seq<Option<T>>)
    ensures Somes(a + b) == Somes(a) + Somes(b)
  {
    if a == [] {
      assert a + b == b;
    } else {
      assert (a + b)[0] == a[0] && (a + b)[1..] == a[1..] + b;
      SomesAppend(a[1..], b);
      var head := match a[0] case Some(x) => [x] case None => [];
      calc {
        Somes(a + b);
        head + Somes(a[1..] + b);
        head + (Somes(a[1..]) + Somes(b));
        (head + Somes(a[1..])) + Somes(b);
      }
    }
  }

  lemma SomesSingle<T>(o: Option<T>)
    ensures Somes([o]) == match o case Some(x) => [x] case None => []
  {
    assert [o][1..] == [];
  }

  lemma {:induction false} SomesIn<T>(os: seq<Option<T>>)
    ensures forall x :: x in Somes(os) <==> Some(x) in os
  {
    if os != [] {
      SomesIn(os[1..]);
      assert os == [os[0]] + os[1..];
    }
  }
}
