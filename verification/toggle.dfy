/** The toggle of toggle/toggle.go: a condition variable usable in a select.
    The goroutine started by `create` is recast as a transition system whose
    state records where that goroutine is waiting; each channel operation of
    the user (a send on `w`, `close(w)`, a receive on `r`) is one transition. */
module Toggle {

  /** A payload. The channels carry `interface{}`, so `nil` can be written
      and is also what a receive on the closed read end yields. */
  datatype Val<T> = Nil | Some(x: T)

  /** Where the goroutine is. */
  datatype State<T> =
    | Idle                              // blocked receiving from `w`
    | Pending(v: Val<T>, wOpen: bool)   // in the inner select, holding `v`
    | Done                              // `r` is closed and the goroutine returned

  /** A toggle: the policy chosen at creation (`last` is true for `Last`) and
      the goroutine's state. */
  datatype Toggle<T> = Toggle(last: bool, st: State<T>)

  /** What a receive on `r` does: it would block, or it yields a value and
      Go's `ok` flag. */
  datatype ReadResult<T> = Blocked | Received(v: Val<T>, ok: bool)

  /** The writer may still send on `w` and close it: `w` has not been closed.
      Sending on or closing a closed channel panics in Go. */
  predicate WriteOpen<T>(t: Toggle<T>)
  {
    t.st.Idle? || (t.st.Pending? && t.st.wOpen)
  }

  /** A receive on `r` completes without blocking. */
  predicate ReadEnabled<T>(t: Toggle<T>)
  {
    !t.st.Idle?
  }

  /** `create(last)`: a fresh goroutine waiting for its first write. */
  function Create<T>(last: bool): (t: Toggle<T>)
    ensures t.last == last
    ensures WriteOpen(t) && !ReadEnabled(t)
  {
    Toggle(last, Idle)
  }

  /** `First()`: yields the first value written since the last read. */
  function First<T>(): (t: Toggle<T>)
    ensures !t.last && WriteOpen(t) && !ReadEnabled(t)
  {
    Create(false)
  }

  /** `Last()`: yields the last value written since the last read. */
  function Last<T>(): (t: Toggle<T>)
    ensures t.last && WriteOpen(t) && !ReadEnabled(t)
  {
    Create(true)
  }

  /** `w <- x`. In `Idle` the receive at the top of the loop takes the value;
      while pending the select's receive case takes it, and only `Last`
      copies it over the pending value. */
  function Write<T>(t: Toggle<T>, x: Val<T>): (t': Toggle<T>)
    requires WriteOpen(t)
    ensures t'.last == t.last
    ensures WriteOpen(t') && ReadEnabled(t')
    ensures t'.st.v == (if t.st.Pending? && !t.last then t.st.v else x)
  {
    if t.st.Idle? then t.(st := Pending(x, true))
    else t.(st := Pending(if t.last then x else t.st.v, true))
  }

  /** `close(w)`. In `Idle` the receive at the top of the loop returns
      `(nil, false)`, and that `nil` becomes the value the select offers.
      While pending the select's receive case sees `(nil, false)`; under
      `Last` that `nil` overwrites the pending value. */
  function Close<T>(t: Toggle<T>): (t': Toggle<T>)
    requires WriteOpen(t)
    ensures t'.last == t.last
    ensures t'.st.Pending? && !WriteOpen(t') && ReadEnabled(t')
    ensures t'.st.v == (if t.st.Pending? && !t.last then t.st.v else Nil)
  {
    if t.st.Idle? then t.(st := Pending(Nil, false))
    else t.(st := Pending(if t.last then Nil else t.st.v, false))
  }

  /** `<-r`. Blocks in `Idle`; while pending hands over the value, going back
      to `Idle` or, once `w` is closed, closing `r`; after that every
      receive yields Go's zero value with `ok == false`. */
  function Read<T>(t: Toggle<T>): (res: (ReadResult<T>, Toggle<T>))
    ensures res.1.last == t.last
    ensures res.0.Blocked? <==> !ReadEnabled(t)
    ensures res.0.Blocked? ==> res.1 == t
    ensures res.0.Received? && res.0.ok ==> !res.1.st.Pending?
    ensures res.0.Received? && !res.0.ok ==> res.0.v == Nil && res.1 == t
    ensures t.st.Pending? ==> res.0 == Received(t.st.v, true) && res.1.st == (if t.st.wOpen then Idle else Done)
    ensures t.st.Done? ==> res == (Received(Nil, false), t)
    ensures WriteOpen(res.1) <==> WriteOpen(t)
  {
    match t.st
    case Idle => (Blocked, t)
    case Pending(v, wOpen) => (Received(v, true), t.(st := if wOpen then Idle else Done))
    case Done => (Received(Nil, false), t)
  }

  /** One action of the toggle's users. */
  datatype Event<T> = Send(x: Val<T>) | CloseW | Recv

  /** What a trace shows: the result of a receive, or the panic of a send on
      or close of a closed `w`, which ends the program. */
  datatype Obs<T> = Got(r: ReadResult<T>) | Panicked

  /** Runs a trace of events on the goroutine; a blocked receive is reported
      as in a select with a `default` case. */
  function Run<T>(t: Toggle<T>, evs: seq<Event<T>>): (r: seq<Obs<T>>)
    ensures |r| <= |evs|
    ensures forall i :: 0 <= i < |r| - 1 ==> r[i].Got?
    decreases |evs|
  {
    if evs == [] then []
    else match evs[0]
      case Send(x) => if WriteOpen(t) then Run(Write(t, x), evs[1..]) else [Panicked]
      case CloseW => if WriteOpen(t) then Run(Close(t), evs[1..]) else [Panicked]
      case Recv => var (r, t') := Read(t); [Got(r)] + Run(t', evs[1..])
  }

  // ---------------------------------------------------------------------
  // Reference semantics: the toggle described by its history instead of
  // by the goroutine's control point.
  // ---------------------------------------------------------------------

  /** The values written since the last successful read, whether `w` was
      closed, and whether the final read has happened. */
  datatype Spec<T> = Spec(last: bool, since: seq<Val<T>>, closed: bool, finished: bool)

  ghost predicate SpecValid<T>(a: Spec<T>)
  {
    a.finished ==> a.closed && a.since == []
  }

  /** The value a read hands over: the first value written since the last
      read under `First`, the last one under `Last`; `nil` when nothing was
      written before the close, and always `nil` under `Last` once `w` is
      closed, because the close itself counts as a write of `nil`. */
  function Delivered<T>(a: Spec<T>): Val<T>
  {
    if a.last then (if a.closed || a.since == [] then Nil else a.since[|a.since| - 1])
    else if a.since == [] then Nil else a.since[0]
  }

  function SpecRun<T>(a: Spec<T>, evs: seq<Event<T>>): seq<Obs<T>>
    decreases |evs|
  {
    if evs == [] then []
    else match evs[0]
      case Send(x) =>
        if a.closed then [Panicked] else SpecRun(a.(since := a.since + [x]), evs[1..])
      case CloseW =>
        if a.closed then [Panicked] else SpecRun(a.(closed := true), evs[1..])
      case Recv =>
        if a.finished then [Got(Received(Nil, false))] + SpecRun(a, evs[1..])
        else if a.since == [] && !a.closed then [Got(Blocked)] + SpecRun(a, evs[1..])
        else [Got(Received(Delivered(a), true))] + SpecRun(a.(since := [], finished := a.closed), evs[1..])
  }

  /** The goroutine state that a history leaves behind. */
  function Abs<T>(a: Spec<T>): Toggle<T>
  {
    if a.finished then Toggle(a.last, Done)
    else if a.since == [] && !a.closed then Toggle(a.last, Idle)
    else Toggle(a.last, Pending(Delivered(a), !a.closed))
  }

  /** The writer may write exactly when the history has no close. */
  lemma WriteOpenMatchesSpec<T>(a: Spec<T>)
    requires SpecValid(a)
    ensures WriteOpen(Abs(a)) <==> !a.closed
  {
  }

  /** A write commutes with the abstraction. */
  lemma WriteRefines<T>(a: Spec<T>, x: Val<T>)
    requires SpecValid(a) && !a.closed
    ensures Write(Abs(a), x) == Abs(a.(since := a.since + [x]))
  {
  }

  /** A close commutes with the abstraction. */
  lemma CloseRefines<T>(a: Spec<T>)
    requires SpecValid(a) && !a.closed
    ensures Close(Abs(a)) == Abs(a.(closed := true))
  {
  }

  /** The goroutine produces exactly the observations of the reference
      semantics, on every trace, from every reachable state. */
  lemma {:induction false} RunRefines<T>(a: Spec<T>, evs: seq<Event<T>>)
    requires SpecValid(a)
    ensures Run(Abs(a), evs) == SpecRun(a, evs)
    decreases |evs|
  {
    if evs != [] {
      WriteOpenMatchesSpec(a);
      match evs[0]
      case Send(x) =>
        if !a.closed {
          WriteRefines(a, x);
          RunRefines(a.(since := a.since + [x]), evs[1..]);
        }
      case CloseW =>
        if !a.closed {
          CloseRefines(a);
          RunRefines(a.(closed := true), evs[1..]);
        }
      case Recv =>
        if a.finished || (a.since == [] && !a.closed) {
          RunRefines(a, evs[1..]);
        } else {
          RunRefines(a.(since := [], finished := a.closed), evs[1..]);
        }
    }
  }

  /** A freshly created toggle behaves as the reference semantics started
      with an empty history. */
  lemma CreateRefines<T>(last: bool, evs: seq<Event<T>>)
    ensures Run(Create(last), evs) == SpecRun(Spec(last, [], false, false), evs)
  {
    RunRefines(Spec(last, [], false, false), evs);
  }

  // ---------------------------------------------------------------------
  // The properties the package documents, one transition at a time.
  // ---------------------------------------------------------------------

  /** With nothing written since the last read, a non-blocking read reports
      that there is nothing to read, and nothing changes. */
  lemma IdleReadBlocks<T>(t: Toggle<T>)
    requires t.st.Idle?
    ensures Read(t) == (Blocked, t)
  {
  }

  /** While `w` is open a send is accepted in every state and leaves `w`
      open: writes never block. */
  lemma WritesNeverBlock<T>(t: Toggle<T>, xs: seq<Val<T>>)
    requires WriteOpen(t)
    ensures Run(t, seq(|xs|, i requires 0 <= i < |xs| => Send(xs[i]))) == []
    decreases |xs|
  {
    if xs != [] {
      var evs := seq(|xs|, i requires 0 <= i < |xs| => Send(xs[i]));
      assert evs[0] == Send(xs[0]);
      assert evs[1..] == seq(|xs[1..]|, i requires 0 <= i < |xs[1..]| => Send(xs[1..][i]));
      WritesNeverBlock(Write(t, xs[0]), xs[1..]);
    }
  }

  /** A write in `Idle` is delivered by the next read, which goes back to
      `Idle`: one value per read. */
  lemma WriteThenRead<T>(t: Toggle<T>, x: Val<T>)
    requires t.st.Idle?
    ensures Read(Write(t, x)) == (Received(x, true), t)
  {
  }

  /** A second write before a read is dropped under `First` and replaces the
      pending value under `Last`. */
  lemma SecondWritePolicy<T>(t: Toggle<T>, x: Val<T>, y: Val<T>)
    requires t.st.Idle?
    ensures Read(Write(Write(t, x), y)).0 == Received(if t.last then y else x, true)
  {
  }

  /** Under `First`, closing with a value pending still delivers that value,
      after which the toggle is done. */
  lemma FirstDrainsOnClose<T>(v: Val<T>)
    ensures Read(Close(Toggle(false, Pending(v, true)))) == (Received(v, true), Toggle(false, Done))
  {
  }

  /** Under `Last`, closing with a value pending replaces it by `nil`: the
      drain yields `(nil, true)`, so the pending value is lost. */
  lemma LastLosesOnClose<T>(v: Val<T>)
    ensures Read(Close(Toggle(true, Pending(v, true)))) == (Received(Nil, true), Toggle(true, Done))
  {
  }

  /** Closing an idle toggle yields exactly one `(nil, true)` read, and only
      then `(nil, false)`. */
  lemma CloseWhileIdle<T>(t: Toggle<T>)
    requires t.st.Idle?
    ensures Run(t, [CloseW, Recv, Recv]) == [Got(Received(Nil, true)), Got(Received(Nil, false))]
  {
  }

  /** `Done` is terminal: every read yields `(nil, false)` and nothing
      changes; any further send panics. */
  lemma {:induction false} DoneIsTerminal<T>(t: Toggle<T>, n: nat)
    requires t.st.Done?
    ensures Run(t, seq(n, _ => Recv)) == seq(n, _ => Got(Received(Nil, false)))
  {
    if n > 0 {
      DoneIsTerminal(t, n - 1);
      var evs: seq<Event<T>> := seq(n, _ => Recv);
      var obs: seq<Obs<T>> := seq(n, _ => Got(Received(Nil, false)));
      assert evs[1..] == seq(n - 1, _ => Recv);
      assert obs == [Got(Received(Nil, false))] + seq(n - 1, _ => Got(Received(Nil, false)));
    }
  }

  /** The example of toggle/toggle_test.go under `First`, extended by one
      read after the close. */
  lemma FirstExample()
    ensures
      var evs: seq<Event<string>> := [Recv, Send(Some("First")), Recv, Send(Some("Second")),
                                      Send(Some("Third")), Recv, Send(Some("Fourth")), CloseW, Recv, Recv];
      Run(First(), evs)
        == [Got(Blocked), Got(Received(Some("First"), true)), Got(Received(Some("Second"), true)),
            Got(Received(Some("Fourth"), true)), Got(Received(Nil, false))]
  {
    var evs: seq<Event<string>> := [Recv, Send(Some("First")), Recv, Send(Some("Second")),
                                    Send(Some("Third")), Recv, Send(Some("Fourth")), CloseW, Recv, Recv];
    var o1: Obs<string> := Got(Received(Nil, false));
    var t7 := Toggle(false, Pending(Some("Fourth"), false));
    assert Run(Toggle(false, Done), evs[9..]) == [o1];
    assert Run(t7, evs[8..]) == [Got(Received(Some("Fourth"), true)), o1];
    var t5 := Toggle(false, Pending(Some("Second"), true));
    assert Run(Toggle(false, Idle), evs[6..]) == Run(t7, evs[8..]);
    assert Run(t5, evs[5..]) == [Got(Received(Some("Second"), true))] + Run(t7, evs[8..]);
    assert Run(Toggle(false, Idle), evs[3..]) == Run(t5, evs[5..]);
    assert Run(Toggle(false, Pending(Some("First"), true)), evs[2..])
        == [Got(Received(Some("First"), true))] + Run(Toggle(false, Idle), evs[3..]);
  }
}
