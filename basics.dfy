/** Small shared vocabulary: an optional value and order-preserving sub-lists. */
module Basics {

  datatype Option<+T> = None | Some(value: T)

  /** `xs` is obtained from `ys` by deleting elements, keeping the order of the rest. */
  predicate SubList<T(==)>(xs: seq<T>, ys: seq<T>)
    decreases |ys|
  {
    if xs == [] then true
    else if ys == [] then false
    else if xs[0] == ys[0] then SubList(xs[1..], ys[1..])
    else SubList(xs, ys[1..])
  }

  lemma {:induction false} SubListMembers<T>(xs: seq<T>, ys: seq<T>)
    requires SubList(xs, ys)
    ensures |xs| <= |ys|
    ensures forall x :: x in xs ==> x in ys
    decreases |ys|
  {
    if xs != [] && ys != [] {
      if xs[0] == ys[0] {
        SubListMembers(xs[1..], ys[1..]);
        assert xs == [xs[0]] + xs[1..];
      } else {
        SubListMembers(xs, ys[1..]);
      }
      assert ys == [ys[0]] + ys[1..];
    }
  }

  /** Dropping the head of a sub-list keeps it a sub-list. */
  lemma {:induction false} SubListDropHead<T>(xs: seq<T>, ys: seq<T>)
    requires xs != [] && SubList(xs, ys)
    ensures SubList(xs[1..], ys)
    decreases |ys|, 1
  {
    if xs[1..] != [] {
      if xs[0] == ys[0] {
        SubListDropHeadStep(xs[1..], ys);
      } else {
        SubListDropHead(xs, ys[1..]);
        SubListDropHeadStep(xs[1..], ys);
      }
    }
  }

  /** A sub-list of the tail is a sub-list of the whole. */
  lemma {:induction false} SubListDropHeadStep<T>(xs: seq<T>, ys: seq<T>)
    requires ys != [] && SubList(xs, ys[1..])
    ensures SubList(xs, ys)
    decreases |ys|, 0
  {
    if xs != [] && xs[0] == ys[0] {
      SubListDropHead(xs, ys[1..]);
    }
  }

  lemma {:induction false} SubListTrans<T>(xs: seq<T>, ys: seq<T>, zs: seq<T>)
    requires SubList(xs, ys) && SubList(ys, zs)
    ensures SubList(xs, zs)
    decreases |zs|
  {
    if xs != [] && ys != [] && zs != [] {
      if ys[0] == zs[0] {
        if xs[0] == ys[0] {
          SubListTrans(xs[1..], ys[1..], zs[1..]);
        } else {
          SubListTrans(xs, ys[1..], zs[1..]);
        }
      } else {
        SubListTrans(xs, ys, zs[1..]);
        SubListDropHeadStep(xs, zs);
      }
    }
  }

  /** Elements of `s` that satisfy `f`, in their original order (JavaScript's Array.filter). */
  function Filter<T(==,!new)>(s: seq<T>, f: T -> bool): (r: seq<T>)
    ensures SubList(r, s)
    ensures forall x :: x in r ==> x in s && f(x)
    ensures forall x :: x in s && f(x) ==> x in r
    ensures forall x {:trigger multiset(r)[x]} :: multiset(r)[x] == if f(x) then multiset(s)[x] else 0
  {
    if s == [] then []
    else
      var rest := Filter(s[1..], f);
      assert s == [s[0]] + s[1..];
      if f(s[0]) then [s[0]] + rest else rest
  }

  /** Filtering keeps everything when every element passes. */
  lemma {:induction false} FilterAll<T(!new)>(s: seq<T>, f: T -> bool)
    requires forall x :: x in s ==> f(x)
    ensures Filter(s, f) == s
  {
    if s != [] {
      FilterAll(s[1..], f);
      assert s == [s[0]] + s[1..];
    }
  }

  /** Filtering keeps nothing when no element passes. */
  lemma FilterNone<T(!new)>(s: seq<T>, f: T -> bool)
    requires forall x :: x in s ==> !f(x)
    ensures Filter(s, f) == []
  {
    var r := Filter(s, f);
    assert multiset(r) == multiset{} by {
      forall x ensures multiset(r)[x] == 0 {
        assert f(x) ==> x !in s;
      }
    }
  }

  /** Filtering twice keeps what passes both predicates. */
  lemma {:induction false} FilterFilter<T(!new)>(s: seq<T>, f: T -> bool, g: T -> bool)
    ensures Filter(Filter(s, f), g) == Filter(s, x => f(x) && g(x))
  {
    if s != [] {
      FilterFilter(s[1..], f, g);
      var rest := Filter(s[1..], f);
      if f(s[0]) {
        assert ([s[0]] + rest)[1..] == rest;
      }
    }
  }

  /** One step of `Filter`. */
  lemma FilterCons<T(!new)>(h: T, t: seq<T>, f: T -> bool)
    ensures Filter([h] + t, f) == if f(h) then [h] + Filter(t, f) else Filter(t, f)
  {
    assert ([h] + t)[1..] == t;
  }

  /** Filtering distributes over concatenation. */
  lemma {:induction false} FilterConcat<T(!new)>(x: seq<T>, y: seq<T>, f: T -> bool)
    ensures Filter(x + y, f) == Filter(x, f) + Filter(y, f)
  {
    if x == [] {
      assert x + y == y;
    } else {
      var t := x[1..];
      FilterConcat(t, y, f);
      assert x == [x[0]] + t;
      FilterConcatStep(x[0], t, y, f);
    }
  }

  lemma FilterConcatStep<T(!new)>(h: T, t: seq<T>, y: seq<T>, f: T -> bool)
    requires Filter(t + y, f) == Filter(t, f) + Filter(y, f)
    ensures Filter([h] + t + y, f) == Filter([h] + t, f) + Filter(y, f)
  {
    assert [h] + t + y == [h] + (t + y);
    FilterCons(h, t + y, f);
    FilterCons(h, t, f);
  }
}
