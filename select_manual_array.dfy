/** SelectSumImpl/SelectManualArray.cs: a hand-written Select over an array,
    an object that is both the enumerable and its own enumerator. `_state` is
    0 before GetEnumerator, i + 1 while item i is next, and -1 once disposed. */
module SelectArray {
  import opened Outcomes
  import opened Enumeration

  /** `(uint)i < (uint)length`, the bounds test of MoveNext. */
  function ToUInt32(i: int): (u: nat)
    ensures u < 0x1_0000_0000 && (u - i) % 0x1_0000_0000 == 0
  {
    i % 0x1_0000_0000
  }

  /** For a 32-bit index and an array length, the unsigned comparison is the
      two-sided bounds check: negative indices wrap to huge values. */
  lemma UnsignedBoundsCheck(i: int, length: nat)
    requires -0x8000_0000 <= i < 0x8000_0000 && length <= MaxArrayLength
    ensures (ToUInt32(i) < length) <==> (0 <= i < length)
  {
  }

  /** The enumerator's fields: `_state` and `_current` (None for the
      `default!` it starts with). */
  datatype Position<R> = Position(state: int, current: Option<R>)

  datatype Move<R> = Move(next: Position<R>, result: Attempt<bool>)

  /** MoveNext: the selector's exception propagates without disposing. */
  function MoveArray<S, R>(source: seq<S>, f: Selector<S, R>, p: Position<R>): (m: Move<R>)
    ensures m.result == Returned(true) <==> 1 <= p.state <= |source| && f(source[p.state - 1]).Returned?
    ensures m.result == Returned(true) ==>
      m.next == Position(p.state + 1, Some(f(source[p.state - 1]).value))
    ensures m.result == Returned(false) ==> m.next == Position(-1, p.current)
  {
    var i := p.state - 1;
    if 0 <= i < |source| then
      match f(source[i])
      case Returned(y) => Move(Position(p.state + 1, Some(y)), Returned(true))
      case Threw(e) => Move(p, Threw(e))
    else
      Move(Position(-1, p.current), Returned(false))
  }

  /** What repeated MoveNext calls observe from `p` until one returns false
      or throws. */
  function EnumerateArray<S, R>(source: seq<S>, f: Selector<S, R>, p: Position<R>): Yield<R>
    decreases if 1 <= p.state <= |source| + 1 then |source| + 2 - p.state else 0
  {
    var i := p.state - 1;
    if 0 <= i < |source| then
      match f(source[i])
      case Returned(y) =>
        var rest := EnumerateArray(source, f, Position(p.state + 1, Some(y)));
        Yield([y] + rest.values, rest.fault)
      case Threw(e) => Yield([], Some(e))
    else
      Yield([], None)
  }

  /** EnumerateArray follows MoveArray step by step. */
  lemma EnumerateArrayUnfolds<S, R>(source: seq<S>, f: Selector<S, R>, p: Position<R>)
    ensures var m := MoveArray(source, f, p);
      EnumerateArray(source, f, p) ==
        match m.result
        case Returned(true) =>
          var rest := EnumerateArray(source, f, m.next);
          Yield([m.next.current.value] + rest.values, rest.fault)
        case Returned(false) => Yield([], None)
        case Threw(e) => Yield([], Some(e))
  {
  }

  /** From state k + 1 the enumerator yields the Select of source[k..]. */
  lemma {:induction false} EnumerateArrayFrom<S, R>(source: seq<S>, f: Selector<S, R>, k: nat, current: Option<R>)
    requires k <= |source|
    ensures EnumerateArray(source, f, Position(k + 1, current)) == SelectAll(f, source[k..])
    decreases |source| - k
  {
    if k < |source| {
      assert source[k..][0] == source[k];
      assert source[k..][1..] == source[k + 1..];
      match f(source[k])
      case Returned(y) => EnumerateArrayFrom(source, f, k + 1, Some(y));
      case Threw(e) =>
    }
  }

  /** A fresh enumerator (state 1) yields exactly the Select of the source. */
  lemma FreshArrayEnumeratesSelect<S, R>(source: seq<S>, f: Selector<S, R>, current: Option<R>)
    ensures EnumerateArray(source, f, Position(1, current)) == SelectAll(f, source)
  {
    EnumerateArrayFrom(source, f, 0, current);
    assert source[0..] == source;
  }

  /** Once MoveNext has returned false the state is -1, and every later call
      returns false again. */
  lemma ArrayStaysExhausted<S, R>(source: seq<S>, f: Selector<S, R>, p: Position<R>)
    requires MoveArray(source, f, p).result == Returned(false)
    ensures var q := MoveArray(source, f, p).next;
      q.state == -1 && MoveArray(source, f, q) == Move(q, Returned(false))
  {
  }

  /** A selector that throws leaves the enumerator where it was, so the next
      MoveNext calls it on the same item again. */
  lemma ArrayFaultKeepsPosition<S, R>(source: seq<S>, f: Selector<S, R>, p: Position<R>)
    requires MoveArray(source, f, p).result.Threw?
    ensures MoveArray(source, f, p).next == p
    ensures 1 <= p.state <= |source| && f(source[p.state - 1]).Threw?
  {
  }

  class SelectManualArray<S, R> {
    const source: DotNetArray<S>       // _source
    const selector: Selector<S, R>     // _selector
    const threadId: int                // _threadId: the creating thread
    var current: Option<R>             // _current
    var state: int                     // _state

    function Pos(): Position<R>
      reads this
    {
      Position(state, current)
    }

    ghost predicate Valid()
      reads this
    {
      -1 <= state <= |source| + 1
    }

    constructor (source: DotNetArray<S>, selector: Selector<S, R>, creatingThread: int)
      ensures Valid()
      ensures this.source == source && this.selector == selector && threadId == creatingThread
      ensures state == 0 && current == None
    {
      this.source := source;
      this.selector := selector;
      threadId := creatingThread;
      current := None;
      state := 0;
    }

    /** GetEnumerator: the creating thread's first call reuses this object;
        any other call returns a new one over the same source and selector.
        Either way the result is in state 1. */
    method GetEnumerator(currentThread: int) returns (e: SelectManualArray<S, R>)
      requires Valid()
      modifies this
      ensures Valid() && e.Valid()
      ensures e.state == 1 && e.source == source && e.selector == selector
      ensures old(threadId == currentThread && state == 0) ==> e == this && current == old(current)
      ensures !old(threadId == currentThread && state == 0) ==>
        fresh(e) && e.threadId == currentThread && e.current == None && state == old(state) && current == old(current)
    {
      if threadId == currentThread && state == 0 {
        state := 1;
        return this;
      }
      e := new SelectManualArray(source, selector, currentThread);
      e.state := 1;
    }

    method MoveNext() returns (r: Attempt<bool>)
      requires Valid()
      modifies this
      ensures Valid()
      ensures Move(Pos(), r) == MoveArray(source, selector, old(Pos()))
    {
      var i := state - 1;
      UnsignedBoundsCheck(i, |source|);
      if ToUInt32(i) < |source| {
        var y := selector(source[i]);
        if y.Threw? {
          return Threw(y.error);
        }
        current := Some(y.value);
        state := state + 1;
        return Returned(true);
      }
      Dispose();
      r := Returned(false);
    }

    method Dispose()
      modifies this
      ensures state == -1 && current == old(current)
    {
      state := -1;
    }

    /** Reset always throws NotSupportedException. */
    method Reset() returns (r: Attempt<()>)
      ensures r == Threw(NotSupported)
    {
      r := Threw(NotSupported);
    }

    function Current(): Option<R>
      reads this
    {
      current
    }
  }
}
