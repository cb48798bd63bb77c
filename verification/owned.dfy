/** The owned value of owned/owned.go: a goroutine owns a value and applies
    the filters sent to it one at a time. A filter is modelled as a function
    from the held value to the new value together with what it reports on its
    reply channel, so the rendezvous on that channel disappears. */
module Owned {

  /** A filter sent on the channel: it maps the held value to the new one and
      reports a result (the value sent on `ret`). */
  type Filter<!T, R> = T -> (T, R)

  /** The value after one accepted filter. */
  function Next<T, R>(v: T, f: Filter<T, R>): T
  {
    f(v).0
  }

  /** Left fold: `FoldLeft(f, x, [a, b])` is `f(f(x, a), b)`. */
  function FoldLeft<A, B>(f: (A, B) -> A, init: A, s: seq<B>): A
    decreases |s|
  {
    if s == [] then init else FoldLeft(f, f(init, s[0]), s[1..])
  }

  lemma {:induction false} FoldLeftSnoc<A, B>(f: (A, B) -> A, init: A, s: seq<B>, x: B)
    ensures FoldLeft(f, init, s + [x]) == f(FoldLeft(f, init, s), x)
    decreases |s|
  {
    if s != [] {
      assert (s + [x])[1..] == s[1..] + [x];
      FoldLeftSnoc(f, f(init, s[0]), s[1..], x);
    }
  }

  /** Serving `s` then `t` is serving `s + t`: the value a filter sees is
      the result of all filters accepted before it. */
  lemma {:induction false} FoldLeftAppend<A, B>(f: (A, B) -> A, init: A, s: seq<B>, t: seq<B>)
    ensures FoldLeft(f, init, s + t) == FoldLeft(f, FoldLeft(f, init, s), t)
    decreases |s|
  {
    if s != [] {
      assert (s + t)[1..] == s[1..] + t;
      FoldLeftAppend(f, f(init, s[0]), s[1..], t);
    } else {
      assert s + t == t;
    }
  }

  /** The goroutine of `New(v0)`: it ranges over the channel until it is
      closed, replacing the held value by each filter's result. `ops` is the
      sequence of filters accepted before the close; `replies` collects what
      each filter reported. */
  method Serve<T, R>(v0: T, ops: seq<Filter<T, R>>) returns (v: T, replies: seq<R>)
    ensures v == FoldLeft(Next, v0, ops)
    ensures |replies| == |ops|
    ensures forall i :: 0 <= i < |ops| ==> replies[i] == ops[i](FoldLeft(Next, v0, ops[..i])).1
  {
    v := v0;
    replies := [];
    var i := 0;
    while i < |ops|
      invariant 0 <= i <= |ops|
      invariant v == FoldLeft(Next, v0, ops[..i])
      invariant |replies| == i
      invariant forall k :: 0 <= k < i ==> replies[k] == ops[k](FoldLeft(Next, v0, ops[..k])).1
    {
      var (w, rep) := ops[i](v);
      FoldLeftSnoc(Next, v0, ops[..i], ops[i]);
      assert ops[..i + 1] == ops[..i] + [ops[i]];
      v, replies := w, replies + [rep];
      i := i + 1;
    }
    assert ops[..i] == ops;
  }

  /** The filter of `Get`: reports the value and keeps it. */
  function GetFilter<T>(): Filter<T, T>
  {
    v => (v, v)
  }

  /** The filter of `Set(to)`: reports the old value and installs `to`. */
  function SetFilter<T>(to: T): Filter<T, T>
  {
    v => (to, v)
  }

  /** The filter of `CAS(cmp, set)`, with `set` renamed `swap`. */
  function CasFilter<T(==)>(cmp: T, swap: T): Filter<T, bool>
  {
    v => if v == cmp then (swap, true) else (v, false)
  }

  /** `Get` on a container holding `v`: the new held value and the result. */
  function Get<T>(v: T): (r: (T, T))
    ensures r.1 == v
    ensures r.0 == v
  {
    GetFilter()(v)
  }

  /** `Set(to)` on a container holding `v`. */
  function Set<T>(v: T, to: T): (r: (T, T))
    ensures r.1 == v
    ensures r.0 == to
  {
    SetFilter(to)(v)
  }

  /** `CAS(cmp, set)` on a container holding `v` (`set` is named `swap` here). */
  function Cas<T(==)>(v: T, cmp: T, swap: T): (r: (T, bool))
    ensures r.1 <==> v == cmp
    ensures r.1 ==> r.0 == swap
    ensures !r.1 ==> r.0 == v
  {
    CasFilter(cmp, swap)(v)
  }

  /** After a swap reported as done, `Get` observes the swapped-in value;
      after a refused swap, it observes the old value. */
  lemma CasThenGet<T>(v: T, cmp: T, swap: T)
    ensures Get(Cas(v, cmp, swap).0).1 == (if v == cmp then swap else v)
  {
  }

  /** After `Set(to)`, `Get` observes `to`, and a second `Set` reports it. */
  lemma SetThenGet<T>(v: T, to: T, next: T)
    ensures Get(Set(v, to).0).1 == to
    ensures Set(Set(v, to).0, next).1 == to
  {
  }

  /** The values of owned/owned_test.go: `New(nil)` and then ints. */
  datatype Any = NilValue | IntValue(i: int)

  /** What the filters of that example report. */
  datatype Report = Quiet | Printed(v: Any) | Swapped(ok: bool)

  /** The example of owned/owned_test.go: overwrite with 42, observe 42,
      compare-and-swap 42 for 23. */
  method Example() returns (v: Any, replies: seq<Report>)
    ensures v == IntValue(23)
    ensures replies == [Quiet, Printed(IntValue(42)), Swapped(true)]
  {
    var ops: seq<Filter<Any, Report>> := [
      _ => (IntValue(42), Quiet),
      v => (v, Printed(v)),
      (v: Any) => if v.IntValue? && v.i == 42 then (IntValue(23), Swapped(true)) else (v, Swapped(false))
    ];
    v, replies := Serve(NilValue, ops);
    assert ops[..0] == [];
    FoldLeftSnoc(Next, NilValue, [], ops[0]);
    assert ops[..1] == [] + [ops[0]];
    FoldLeftSnoc(Next, NilValue, ops[..1], ops[1]);
    assert ops[..2] == ops[..1] + [ops[1]];
    FoldLeftSnoc(Next, NilValue, ops[..2], ops[2]);
    assert ops == ops[..2] + [ops[2]];
    assert replies[0] == Quiet && replies[1] == Printed(IntValue(42)) && replies[2] == Swapped(true);
  }
}
