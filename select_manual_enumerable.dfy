/** SelectSumImpl/SelectManualEnumerable.cs: a hand-written Select over any
    enumerable. `_state` is 0 before GetEnumerator, 1 before the source's
    enumerator is obtained, 2 while it is being read, and -1 once disposed.
    The source's enumerator is a cursor over the source's elements. */
module SelectEnumerable {
  import opened Outcomes
  import opened Enumeration

  /** The source's enumerator: its elements, how many MoveNext calls have
      returned true, and whether it was disposed. */
  datatype Cursor<S> = Cursor(items: seq<S>, taken: nat, disposed: bool)

  /** The enumerator's fields `_state`, `_enumerator` and `_current`. */
  datatype Position<S, R> = Position(state: int, enumerator: Option<Cursor<S>>, current: Option<R>)

  datatype Move<S, R> = Move(next: Position<S, R>, result: Attempt<bool>)

  /** Dispose: `_state = -1; _enumerator?.Dispose();` */
  function Disposed<S, R>(p: Position<S, R>): (q: Position<S, R>)
    ensures q.state == -1 && q.current == p.current
    ensures q.enumerator.Some? <==> p.enumerator.Some?
    ensures q.enumerator.Some? ==>
      q.enumerator.value == p.enumerator.value.(disposed := true)
  {
    p.(state := -1, enumerator := match p.enumerator
                                  case Some(c) => Some(c.(disposed := true))
                                  case None => None)
  }

  /** How many more MoveNext calls can return true from `p`. */
  function Remaining<S, R>(source: seq<S>, p: Position<S, R>): nat {
    if p.state == 1 then |source| + 1
    else if p.state == 2 && p.enumerator.Some? && p.enumerator.value.taken <= |p.enumerator.value.items| then
      |p.enumerator.value.items| - p.enumerator.value.taken
    else 0
  }

  /** MoveNext: state 1 obtains the source's enumerator and falls into state
      2; state 2 advances it and applies the selector, disposing before a
      selector exception propagates; every other case disposes and returns
      false. */
  function MoveEnumerable<S, R>(source: seq<S>, f: Selector<S, R>, p: Position<S, R>): (m: Move<S, R>)
    ensures m.result == Returned(true) ==>
      m.next.current.Some? && Remaining(source, m.next) < Remaining(source, p)
    ensures m.result == Returned(true) <==>
      || (p.state == 1 && source != [] && f(source[0]).Returned?)
      || (p.state == 2 && p.enumerator.Some? && p.enumerator.value.taken < |p.enumerator.value.items|
          && f(p.enumerator.value.items[p.enumerator.value.taken]).Returned?)
    ensures p.state != 1 && p.state != 2 ==> m == Move(Disposed(p), Returned(false))
  {
    var p := if p.state == 1 then p.(state := 2, enumerator := Some(Cursor(source, 0, false))) else p;
    if p.state == 2 && p.enumerator.Some? && p.enumerator.value.taken < |p.enumerator.value.items| then
      var c := p.enumerator.value;
      var advanced := p.(enumerator := Some(c.(taken := c.taken + 1)));
      match f(c.items[c.taken])
      case Returned(y) => Move(advanced.(current := Some(y)), Returned(true))
      case Threw(e) => Move(Disposed(advanced), Threw(e))
    else
      Move(Disposed(p), Returned(false))
  }

  /** What repeated MoveNext calls observe from `p` until one returns false
      or throws. */
  function EnumerateEnumerable<S, R>(source: seq<S>, f: Selector<S, R>, p: Position<S, R>): Yield<R>
    decreases Remaining(source, p)
  {
    var m := MoveEnumerable(source, f, p);
    match m.result
    case Threw(e) => Yield([], Some(e))
    case Returned(moved) =>
      if moved then
        var rest := EnumerateEnumerable(source, f, m.next);
        Yield([m.next.current.value] + rest.values, rest.fault)
      else
        Yield([], None)
  }

  /** Reading the source's enumerator from item k on yields the Select of
      source[k..]. */
  lemma {:induction false} EnumerateFromCursor<S, R>(source: seq<S>, f: Selector<S, R>, k: nat, current: Option<R>)
    requires k <= |source|
    ensures EnumerateEnumerable(source, f, Position(2, Some(Cursor(source, k, false)), current))
         == SelectAll(f, source[k..])
    decreases |source| - k
  {
    if k < |source| {
      assert source[k..][0] == source[k];
      assert source[k..][1..] == source[k + 1..];
      match f(source[k])
      case Returned(y) => EnumerateFromCursor(source, f, k + 1, Some(y));
      case Threw(e) =>
    }
  }

  /** An enumerator in state 1 yields exactly the Select of the source. */
  lemma FreshEnumerableEnumeratesSelect<S, R>(source: seq<S>, f: Selector<S, R>, e: Option<Cursor<S>>, current: Option<R>)
    ensures EnumerateEnumerable(source, f, Position(1, e, current)) == SelectAll(f, source)
  {
    var p := Position(1, e, current);
    EnumerateFromCursor(source, f, 0, current);
    assert source[0..] == source;
    if source != [] {
      match f(source[0])
      case Returned(y) =>
        EnumerateFromCursor(source, f, 1, Some(y));
        assert MoveEnumerable(source, f, p).next == Position(2, Some(Cursor(source, 1, false)), Some(y));
      case Threw(_) =>
    }
  }

  /** The enumerator is about to read item `n` of the source: in state 1
      before the first MoveNext, otherwise in state 2 with the source's
      enumerator open after `n` items. */
  ghost predicate ReadingAt<S, R>(source: seq<S>, p: Position<S, R>, n: nat) {
    if n == 0 then p.state == 1 else p.state == 2 && p.enumerator == Some(Cursor(source, n, false))
  }

  /** One MoveNext while reading: a selector that returns moves on to item
      n + 1 and exposes its result; at the end of the source the call returns
      false. */
  lemma CursorStep<S, R>(source: seq<S>, f: Selector<S, R>, p: Position<S, R>, n: nat)
    requires n <= |source| && ReadingAt(source, p, n)
    ensures var m := MoveEnumerable(source, f, p);
      && (n < |source| && f(source[n]).Returned? ==>
            && m.result == Returned(true) && ReadingAt(source, m.next, n + 1)
            && m.next.current == Some(f(source[n]).value))
      && (n == |source| ==> m.result == Returned(false))
  {
  }

  /** Once MoveNext has returned false or thrown, the enumerator is disposed
      (state -1, the source's enumerator disposed), and every later call
      returns false. */
  lemma EnumerableStaysDisposed<S, R>(source: seq<S>, f: Selector<S, R>, p: Position<S, R>)
    requires MoveEnumerable(source, f, p).result != Returned(true)
    ensures var q := MoveEnumerable(source, f, p).next;
      && q.state == -1
      && (q.enumerator.Some? ==> q.enumerator.value.disposed)
      && MoveEnumerable(source, f, q) == Move(q, Returned(false))
  {
  }

  class SelectManualEnumerable<S, R> {
    const source: seq<S>               // _source
    const selector: Selector<S, R>     // _selector
    const threadId: int                // _threadId: the creating thread
    var current: Option<R>             // _current
    var enumerator: Option<Cursor<S>>  // _enumerator
    var state: int                     // _state

    function Pos(): Position<S, R>
      reads this
    {
      Position(state, enumerator, current)
    }

    /** The `Debug.Assert(_enumerator is not null)` of state 2, and the
        source's enumerator reads this object's source. */
    ghost predicate Valid()
      reads this
    {
      && (state == 2 ==> enumerator.Some?)
      && (enumerator.Some? ==> enumerator.value.items == source && enumerator.value.taken <= |source|)
    }

    constructor (source: seq<S>, selector: Selector<S, R>, creatingThread: int)
      ensures Valid()
      ensures this.source == source && this.selector == selector && threadId == creatingThread
      ensures state == 0 && enumerator == None && current == None
    {
      this.source := source;
      this.selector := selector;
      threadId := creatingThread;
      current := None;
      enumerator := None;
      state := 0;
    }

    /** GetEnumerator: the creating thread's first call reuses this object;
        any other call returns a new one over the same source and selector.
        Either way the result is in state 1. */
    method GetEnumerator(currentThread: int) returns (e: SelectManualEnumerable<S, R>)
      requires Valid()
      modifies this
      ensures Valid() && e.Valid()
      ensures e.state == 1 && e.source == source && e.selector == selector
      ensures old(threadId == currentThread && state == 0) ==>
        e == this && enumerator == old(enumerator) && current == old(current)
      ensures !old(threadId == currentThread && state == 0) ==>
        && fresh(e) && e.threadId == currentThread && e.enumerator == None && e.current == None
        && state == old(state) && enumerator == old(enumerator) && current == old(current)
    {
      if threadId == currentThread && state == 0 {
        state := 1;
        return this;
      }
      e := new SelectManualEnumerable(source, selector, currentThread);
      e.state := 1;
    }

    method MoveNext() returns (r: Attempt<bool>)
      requires Valid()
      modifies this
      ensures Valid()
      ensures Move(Pos(), r) == MoveEnumerable(source, selector, old(Pos()))
    {
      if state == 1 {
        enumerator := Some(Cursor(source, 0, false));
        state := 2;
      }
      if state == 2 {
        var c := enumerator.value;
        if c.taken < |c.items| {
          enumerator := Some(c.(taken := c.taken + 1));
          var y := selector(c.items[c.taken]);
          if y.Threw? {
            Dispose();
            return Threw(y.error);
          }
          current := Some(y.value);
          return Returned(true);
        }
      }
      Dispose();
      r := Returned(false);
    }

    method Dispose()
      requires Valid()
      modifies this
      ensures Valid()
      ensures Pos() == Disposed(old(Pos()))
    {
      state := -1;
      if enumerator.Some? {
        enumerator := Some(enumerator.value.(disposed := true));
      }
    }

    /** Reset always throws NotSupportedException. */
    method Reset() returns (r: Attempt<()>)
      ensures r == Threw(NotSupported)
    {
      r := Threw(NotSupported);
    }

    function Current(): Option<R>
      reads this
    {
      current
    }
  }
}
