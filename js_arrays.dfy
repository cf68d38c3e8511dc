/** Models of the JavaScript built-ins the project leans on:
    `Array.prototype.filter` and `Array.from(new Set(xs))`. */
module JsArrays {

  datatype Option<T> = None | Some(value: T)

  /** `s.filter(p)`: the elements of `s` that satisfy `p`, in their order in `s`. */
  function Filter<T>(s: seq<T>, p: T -> bool): (r: seq<T>)
    ensures |r| <= |s|
    ensures forall i :: 0 <= i < |r| ==> r[i] in s && p(r[i])
  {
    if s == [] then []
    else Filter(s[..|s| - 1], p) + (if p(s[|s| - 1]) then [s[|s| - 1]] else [])
  }

  lemma FilterSnoc<T>(s: seq<T>, x: T, p: T -> bool)
    ensures Filter(s + [x], p) == Filter(s, p) + (if p(x) then [x] else [])
  {
    assert (s + [x])[..|s|] == s;
  }

  /** Everything of `s` that satisfies `p` is kept. */
  lemma {:induction false} FilterMember<T>(s: seq<T>, p: T -> bool, x: T)
    ensures x in Filter(s, p) <==> x in s && p(x)
  {
    if s != [] {
      var s0 := s[..|s| - 1];
      assert s == s0 + [s[|s| - 1]];
      FilterMember(s0, p, x);
    }
  }

  /** The filtered array is non-empty exactly when some element satisfies `p`. */
  lemma {:induction false} FilterNonEmpty<T>(s: seq<T>, p: T -> bool)
    ensures |Filter(s, p)| > 0 <==> exists i :: 0 <= i < |s| && p(s[i])
  {
    if s != [] {
      var s0 := s[..|s| - 1];
      FilterNonEmpty(s0, p);
      if exists i :: 0 <= i < |s0| && p(s0[i]) {
        var i :| 0 <= i < |s0| && p(s0[i]);
        assert s[i] == s0[i];
      }
    }
  }

  /** Filtering by a predicate and by its negation splits `s` without loss or overlap. */
  lemma {:induction false} FilterPartition<T>(s: seq<T>, p: T -> bool, q: T -> bool)
    requires forall x :: q(x) == !p(x)
    ensures multiset(Filter(s, p)) + multiset(Filter(s, q)) == multiset(s)
  {
    if s != [] {
      var s0 := s[..|s| - 1];
      assert s == s0 + [s[|s| - 1]];
      FilterPartition(s0, p, q);
    }
  }

  ghost predicate NoDuplicates<T>(s: seq<T>)
  {
    forall i, j :: 0 <= i < j < |s| ==> s[i] != s[j]
  }

  /** The elements of `s` at their first occurrence, in the order of `s`. */
  function Distinct<T(==)>(s: seq<T>): (r: seq<T>)
    ensures forall i :: 0 <= i < |r| ==> r[i] in s
    ensures forall i :: 0 <= i < |s| ==> s[i] in r
    ensures NoDuplicates(r)
  {
    if s == [] then []
    else
      var init, x := s[..|s| - 1], s[|s| - 1];
      assert s == init + [x];
      if x in init then Distinct(init) else Distinct(init) + [x]
  }

  /** Predicate "not one of `a`", as a value for `Filter`. */
  function NotIn<T(==)>(a: seq<T>): T -> bool
  {
    x => x !in a
  }

  /** The first occurrences in `a + b` are those of `a`, then those of `b` that `a` lacks. */
  lemma {:induction false} DistinctConcat<T>(a: seq<T>, b: seq<T>)
    ensures Distinct(a + b) == Distinct(a) + Filter(Distinct(b), NotIn(a))
    decreases |b|
  {
    if b == [] {
      assert a + b == a;
    } else {
      var b0, y := b[..|b| - 1], b[|b| - 1];
      assert (a + b)[..|a + b| - 1] == a + b0;
      assert (a + b)[|a + b| - 1] == y;
      DistinctConcat(a, b0);
      if y !in b0 {
        FilterSnoc(Distinct(b0), y, NotIn(a));
      }
    }
  }

  /** A JavaScript Set being filled from `rest`: it keeps insertion order and
      ignores an element it already holds. */
  function InsertAll<T(==)>(held: seq<T>, rest: seq<T>): seq<T>
    decreases |rest|
  {
    if rest == [] then held
    else InsertAll(if rest[0] in held then held else held + [rest[0]], rest[1..])
  }

  /** Inserting into a set that holds the first occurrences of `done` yields the
      first occurrences of `done + rest`. */
  lemma {:induction false} InsertAllDistinct<T>(done: seq<T>, rest: seq<T>)
    ensures InsertAll(Distinct(done), rest) == Distinct(done + rest)
    decreases |rest|
  {
    if rest == [] {
      assert done + rest == done;
    } else {
      var x, d := rest[0], done + [rest[0]];
      assert d + rest[1..] == done + rest;
      DistinctSnoc(done, x);
      var held := if x in Distinct(done) then Distinct(done) else Distinct(done) + [x];
      assert InsertAll(Distinct(done), rest) == InsertAll(held, rest[1..]);
      InsertAllDistinct(d, rest[1..]);
    }
  }

  /** Appending one element adds it unless it already occurred. */
  lemma DistinctSnoc<T>(s: seq<T>, x: T)
    ensures Distinct(s + [x]) == if x in Distinct(s) then Distinct(s) else Distinct(s) + [x]
  {
    var d := s + [x];
    assert d[..|d| - 1] == s && d[|d| - 1] == x;
    if x in Distinct(s) {
      var i :| 0 <= i < |Distinct(s)| && Distinct(s)[i] == x;
    }
  }

  /** `Array.from(new Set(s))`. */
  function SetFromArray<T(==)>(s: seq<T>): (r: seq<T>)
    ensures r == Distinct(s)
  {
    InsertAllDistinct([], s);
    assert [] + s == s;
    InsertAll([], s)
  }
}
