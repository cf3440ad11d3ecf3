/**
 * plugin/utilities/some.ts: the "is present" test of JavaScript, which rejects
 * exactly `null` and `undefined` and accepts every other value, falsy ones included.
 */
module Some {

  /** A JavaScript value that may also be `null` or `undefined`. */
  datatype Nullable<T> = Null | Undefined | Value(v: T)

  predicate IsSome<T>(x: Nullable<T>) {
    !x.Null? && !x.Undefined?
  }

  /** `s.filter(some)`: the present values of `s`, in their order. */
  function FilterSome<T(==)>(s: seq<Nullable<T>>): (r: seq<T>)
    ensures |r| <= |s|
    ensures forall i :: 0 <= i < |r| ==> Value(r[i]) in s
    ensures forall i :: 0 <= i < |s| && IsSome(s[i]) ==> s[i].v in r
  {
    if s == [] then []
    else if IsSome(s[0]) then [s[0].v] + FilterSome(s[1..])
    else FilterSome(s[1..])
  }

  /** Every element of `xs`, wrapped as a present value. */
  function Values<T>(xs: seq<T>): (r: seq<Nullable<T>>)
    ensures |r| == |xs|
    ensures forall i :: 0 <= i < |xs| ==> r[i] == Value(xs[i])
  {
    seq(|xs|, i requires 0 <= i < |xs| => Value(xs[i]))
  }

  /** `some` accepts every value that is not null or undefined, whatever it is. */
  lemma SomeAcceptsEveryValue<T>(x: Nullable<T>)
    ensures IsSome(x) <==> exists v :: x == Value(v)
  {
    if IsSome(x) {
      assert x == Value(x.v);
    }
  }

  /** Filtering distributes over concatenation: the relative order of kept values never changes. */
  lemma {:induction false} FilterSomeAppend<T>(a: seq<Nullable<T>>, b: seq<Nullable<T>>)
    ensures FilterSome(a + b) == FilterSome(a) + FilterSome(b)
  {
    if a == [] {
      assert a + b == b;
    } else {
      assert (a + b)[1..] == a[1..] + b;
      FilterSomeAppend(a[1..], b);
    }
  }

  /** A sequence with nothing missing passes the filter unchanged. */
  lemma {:induction false} FilterSomeKeepsValues<T>(xs: seq<T>)
    ensures FilterSome(Values(xs)) == xs
  {
    if xs != [] {
      var vs := Values(xs);
      assert vs[1..] == Values(xs[1..]);
      FilterSomeKeepsValues(xs[1..]);
      FilterSomeKeepsHead(vs);
      assert xs == [vs[0].v] + xs[1..];
    }
  }

  lemma FilterSomeKeepsHead<T>(s: seq<Nullable<T>>)
    requires s != [] && IsSome(s[0])
    ensures FilterSome(s) == [s[0].v] + FilterSome(s[1..])
  {
  }

  /** Only null and undefined are removed: each removal is of a missing entry. */
  lemma {:induction false} FilterSomeDropsOnlyMissing<T>(s: seq<Nullable<T>>)
    ensures |FilterSome(s)| == |s| - CountMissing(s)
  {
    if s != [] {
      FilterSomeDropsOnlyMissing(s[1..]);
    }
  }

  function CountMissing<T>(s: seq<Nullable<T>>): nat {
    if s == [] then 0 else (if IsSome(s[0]) then 0 else 1) + CountMissing(s[1..])
  }
}
