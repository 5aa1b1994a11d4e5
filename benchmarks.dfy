/** SelectSumImpl/Benchmarks.cs: four Select implementations (two iterator
    methods, two built on the hand-written enumerators), their argument
    checks and array dispatch, and the Sum loops that add up `i + 2` over the
    benchmark's source with C#'s wrapping `int` arithmetic. */
module Benchmarks {
  import opened Outcomes
  import opened Enumeration
  import SelectArray
  import SelectEnumerable

  /** An `IEnumerable<TSource>` argument: null, an array, or another
      enumerable. */
  datatype Source<S> = Null | ArraySource(elements: DotNetArray<S>) | SequenceSource(items: seq<S>)

  function Elements<S>(source: Source<S>): seq<S>
    requires !source.Null?
  {
    if source.ArraySource? then source.elements else source.items
  }

  /* ---------------------------------------------------------------- */
  /* The iterator-method Selects                                       */
  /* ---------------------------------------------------------------- */

  /** The iterator method a Select returns: the local `Impl`,
      `EnumerableImpl` or `ArrayImpl`. */
  datatype IteratorKind = Impl | EnumerableImpl | ArrayImpl

  /** An iterator over `elements`; every kind's body is
      `foreach (var item in source) yield return selector(item);`. */
  datatype Iterator<!S, R> = Iterator(kind: IteratorKind, elements: seq<S>, selector: Selector<S, R>)

  /** What enumerating an iterator observes. */
  function Enumerate<S, R>(it: Iterator<S, R>): Yield<R> {
    SelectAll(it.selector, it.elements)
  }

  /** `ArgumentNullException.ThrowIfNull(source); ThrowIfNull(selector);` */
  function CheckArguments<S, R>(source: Source<S>, selector: Option<Selector<S, R>>): (r: Option<Error>)
    ensures r == None <==> !source.Null? && selector.Some?
    ensures source.Null? ==> r == Some(ArgumentNull("source"))
    ensures !source.Null? && selector.None? ==> r == Some(ArgumentNull("selector"))
  {
    if source.Null? then Some(ArgumentNull("source"))
    else if selector.None? then Some(ArgumentNull("selector"))
    else None
  }

  /** SelectCompiler: the arguments are checked eagerly, and the iterator it
      returns yields `selector(item)` for each item in source order. */
  function SelectCompiler<S, R>(source: Source<S>, selector: Option<Selector<S, R>>): (r: Attempt<Iterator<S, R>>)
    ensures r.Threw? <==> CheckArguments(source, selector).Some?
    ensures r.Threw? ==> Some(r.error) == CheckArguments(source, selector)
    ensures r.Returned? ==> Enumerate(r.value) == SelectAll(selector.value, Elements(source))
  {
    match CheckArguments(source, selector)
    case Some(e) => Threw(e)
    case None => Returned(Iterator(Impl, Elements(source), selector.value))
  }

  /** OptimizedSelectCompiler: as SelectCompiler, but an array source gets
      `ArrayImpl` and any other source `EnumerableImpl`; both enumerate the
      same values as SelectCompiler's iterator. */
  function OptimizedSelectCompiler<S, R>(source: Source<S>, selector: Option<Selector<S, R>>): (r: Attempt<Iterator<S, R>>)
    ensures r.Threw? <==> CheckArguments(source, selector).Some?
    ensures r.Threw? ==> Some(r.error) == CheckArguments(source, selector)
    ensures r.Returned? ==> (r.value.kind == ArrayImpl <==> source.ArraySource?)
    ensures r.Returned? ==> r.value.kind != Impl
    ensures r.Returned? ==> Enumerate(r.value) == Enumerate(SelectCompiler(source, selector).value)
  {
    match CheckArguments(source, selector)
    case Some(e) => Threw(e)
    case None =>
      if source.ArraySource? then Returned(Iterator(ArrayImpl, source.elements, selector.value))
      else Returned(Iterator(EnumerableImpl, source.items, selector.value))
  }

  /* ---------------------------------------------------------------- */
  /* The hand-written Selects                                          */
  /* ---------------------------------------------------------------- */

  /** SelectManual: checks the arguments and wraps any source, arrays
      included, in a SelectManualEnumerable created on `thread`. */
  method SelectManual<S, R>(source: Source<S>, selector: Option<Selector<S, R>>, thread: int)
    returns (r: Attempt<SelectEnumerable.SelectManualEnumerable<S, R>>)
    ensures r.Threw? <==> CheckArguments(source, selector).Some?
    ensures r.Threw? ==> Some(r.error) == CheckArguments(source, selector)
    ensures r.Returned? ==>
      && fresh(r.value) && r.value.Valid()
      && r.value.source == Elements(source) && r.value.selector == selector.value
      && r.value.threadId == thread && r.value.state == 0
  {
    var check := CheckArguments(source, selector);
    if check.Some? {
      return Threw(check.value);
    }
    var e := new SelectEnumerable.SelectManualEnumerable(Elements(source), selector.value, thread);
    r := Returned(e);
  }

  /** The enumerable OptimizedSelectManual returns. */
  datatype ManualSelect<!S, R> =
    | OverArray(arrayEnumerable: SelectArray.SelectManualArray<S, R>)
    | OverEnumerable(enumerable: SelectEnumerable.SelectManualEnumerable<S, R>)

  /** OptimizedSelectManual: a SelectManualArray for an array source, a
      SelectManualEnumerable for any other. */
  method OptimizedSelectManual<S, R>(source: Source<S>, selector: Option<Selector<S, R>>, thread: int)
    returns (r: Attempt<ManualSelect<S, R>>)
    ensures r.Threw? <==> CheckArguments(source, selector).Some?
    ensures r.Threw? ==> Some(r.error) == CheckArguments(source, selector)
    ensures r.Returned? ==> (r.value.OverArray? <==> source.ArraySource?)
    ensures r.Returned? && r.value.OverArray? ==>
      var a := r.value.arrayEnumerable;
      && fresh(a) && a.Valid() && a.source == source.elements && a.selector == selector.value
      && a.threadId == thread && a.state == 0
    ensures r.Returned? && r.value.OverEnumerable? ==>
      var e := r.value.enumerable;
      && fresh(e) && e.Valid() && e.source == source.items && e.selector == selector.value
      && e.threadId == thread && e.state == 0
  {
    var check := CheckArguments(source, selector);
    if check.Some? {
      return Threw(check.value);
    }
    if source.ArraySource? {
      var a := new SelectArray.SelectManualArray(source.elements, selector.value, thread);
      return Returned(OverArray(a));
    }
    var e := new SelectEnumerable.SelectManualEnumerable(source.items, selector.value, thread);
    r := Returned(OverEnumerable(e));
  }

  /* ---------------------------------------------------------------- */
  /* The Sum benchmarks                                                */
  /* ---------------------------------------------------------------- */

  /** The values of C#'s 32-bit `int`. */
  type Int32 = x: int | -0x8000_0000 <= x < 0x8000_0000

  /** C#'s unchecked 32-bit `int` arithmetic. */
  function Wrap32(x: int): (r: int)
    ensures -0x8000_0000 <= r < 0x8000_0000
  {
    (x + 0x8000_0000) % 0x1_0000_0000 - 0x8000_0000
  }

  /** The wrapped value is the one 32-bit value congruent to x modulo 2^32. */
  lemma Wrap32Congruent(x: int, r: int)
    requires -0x8000_0000 <= r < 0x8000_0000
    ensures Wrap32(x) == r <==> (r - x) % 0x1_0000_0000 == 0
  {
    var m := 0x1_0000_0000;
    var k := (x + 0x8000_0000) / m;
    assert Wrap32(x) == x - k * m;
    if (r - x) % m == 0 {
      var j := (r - x) / m;
      assert r == x + j * m;
      assert -0x8000_0000 <= x + j * m < 0x8000_0000;
      assert -0x8000_0000 <= x - k * m < 0x8000_0000;
      assert (j + k) * m < m && (j + k) * m > -m;
      assert j + k == 0;
    } else {
      assert Wrap32(x) - x == (-k) * m;
    }
  }

  lemma Wrap32Small(x: int)
    requires -0x8000_0000 <= x < 0x8000_0000
    ensures Wrap32(x) == x
  {
  }

  /** Wrapping after every addition is the same as wrapping once. */
  lemma Wrap32Add(a: int, b: int)
    ensures Wrap32(Wrap32(a) + b) == Wrap32(a + b)
  {
    var k := (a + 0x8000_0000) / 0x1_0000_0000;
    assert Wrap32(a) == a - k * 0x1_0000_0000;
    assert Wrap32(a) + b + 0x8000_0000 == (a + b + 0x8000_0000) - k * 0x1_0000_0000;
    ModShift(a + b + 0x8000_0000, k);
  }

  lemma ModShift(x: int, k: int)
    ensures (x - k * 0x1_0000_0000) % 0x1_0000_0000 == x % 0x1_0000_0000
  {
    var m := 0x1_0000_0000;
    var q := x / m;
    assert x == q * m + x % m;
    assert x - k * m == (q - k) * m + x % m;
    assert 0 <= x % m < m;
  }

  /** The selector of every Sum benchmark: `i => i + 2` on `int`. */
  function PlusTwo(i: Int32): (r: Attempt<int>)
    ensures r.Returned? && -0x8000_0000 <= r.value < 0x8000_0000
    ensures (r.value - (i + 2)) % 0x1_0000_0000 == 0
    ensures i + 2 < 0x8000_0000 ==> r.value == i + 2
  {
    Returned(Wrap32(i + 2))
  }

  /** The exact sum of a sequence. */
  function Total(xs: seq<int>): int {
    if xs == [] then 0 else Total(xs[..|xs| - 1]) + xs[|xs| - 1]
  }

  /** What every Sum benchmark returns for `source`: the wrapped sum of
      `i + 2` over it, or the ArgumentNullException of the Select. */
  function ReferenceSum(source: Source<Int32>): Attempt<int> {
    if source.Null? then Threw(ArgumentNull("source"))
    else Returned(Wrap32(Total(SelectAll(PlusTwo, Elements(source)).values)))
  }

  /** One `sum += i` of a foreach: the wrapped running sum stays the wrapped
      exact sum of what has been added. */
  lemma SumStep(xs: seq<int>, k: nat, sum: int, y: int)
    requires k < |xs| && sum == Wrap32(Total(xs[..k])) && y == xs[k]
    ensures Wrap32(sum + y) == Wrap32(Total(xs[..k + 1]))
  {
    assert xs[..k + 1][..k] == xs[..k];
    Wrap32Add(Total(xs[..k]), xs[k]);
  }

  /** `int sum = 0; foreach (int i in values) sum += i;` */
  method SumValues(values: seq<int>) returns (sum: int)
    ensures sum == Wrap32(Total(values))
  {
    sum := 0;
    var k := 0;
    while k < |values|
      invariant 0 <= k <= |values|
      invariant sum == Wrap32(Total(values[..k]))
    {
      SumStep(values, k, sum, values[k]);
      sum := Wrap32(sum + values[k]);
      k := k + 1;
    }
    assert values[..k] == values;
  }

  /** SumCompiler. */
  method SumCompiler(source: Source<Int32>) returns (r: Attempt<int>)
    ensures r == ReferenceSum(source)
  {
    var it := SelectCompiler(source, Some(PlusTwo));
    if it.Threw? {
      return Threw(it.error);
    }
    var sum := SumValues(Enumerate(it.value).values);
    r := Returned(sum);
  }

  /** OptimizedSumCompiler. */
  method OptimizedSumCompiler(source: Source<Int32>) returns (r: Attempt<int>)
    ensures r == ReferenceSum(source)
  {
    var it := OptimizedSelectCompiler(source, Some(PlusTwo));
    if it.Threw? {
      return Threw(it.error);
    }
    var sum := SumValues(Enumerate(it.value).values);
    r := Returned(sum);
  }

  /** `foreach (int i in e) sum += i;` over a SelectManualEnumerable whose
      selector does not throw: GetEnumerator on the current thread, MoveNext
      and Current until MoveNext returns false, then Dispose, which leaves
      the enumerator in state -1. */
  method SumOverEnumerable(e: SelectEnumerable.SelectManualEnumerable<Int32, int>, thread: int) returns (sum: int)
    requires e.Valid() && e.state == 0 && e.threadId == thread
    requires NeverThrows(e.selector, e.source)
    modifies e
    ensures sum == Wrap32(Total(SelectAll(e.selector, e.source).values))
    ensures e.state == -1
  {
    var xs, f := e.source, e.selector;
    ghost var ys := SelectAll(f, xs).values;
    SelectAllMaps(f, xs);
    var it := e.GetEnumerator(thread);
    assert it == e;
    sum := 0;
    ghost var n := 0;
    while true
      invariant it == e && it.Valid() && it.source == xs && it.selector == f
      invariant 0 <= n <= |xs| && sum == Wrap32(Total(ys[..n]))
      invariant SelectEnumerable.ReadingAt(xs, it.Pos(), n)
      decreases |xs| - n
    {
      SelectEnumerable.CursorStep(xs, f, it.Pos(), n);
      var moved := it.MoveNext();
      if moved != Returned(true) {
        break;
      }
      SumStep(ys, n, sum, it.Current().value);
      sum := Wrap32(sum + it.Current().value);
      n := n + 1;
    }
    assert ys[..n] == ys;
    it.Dispose();
  }

  /** The same foreach over a SelectManualArray. */
  method SumOverArray(e: SelectArray.SelectManualArray<Int32, int>, thread: int) returns (sum: int)
    requires e.Valid() && e.state == 0 && e.threadId == thread
    requires NeverThrows(e.selector, e.source)
    modifies e
    ensures sum == Wrap32(Total(SelectAll(e.selector, e.source).values))
    ensures e.state == -1
  {
    var xs, f := e.source, e.selector;
    ghost var ys := SelectAll(f, xs).values;
    SelectAllMaps(f, xs);
    var it := e.GetEnumerator(thread);
    assert it == e;
    sum := 0;
    ghost var n := 0;
    while true
      invariant it == e && it.Valid() && it.source == xs && it.selector == f
      invariant 0 <= n <= |xs| && sum == Wrap32(Total(ys[..n])) && it.state == n + 1
      decreases |xs| - n
    {
      var moved := it.MoveNext();
      if moved != Returned(true) {
        break;
      }
      SumStep(ys, n, sum, it.Current().value);
      sum := Wrap32(sum + it.Current().value);
      n := n + 1;
    }
    assert ys[..n] == ys;
    it.Dispose();
  }

  /** SumManual, run on `thread`. */
  method SumManual(source: Source<Int32>, thread: int) returns (r: Attempt<int>)
    ensures r == ReferenceSum(source)
  {
    var en := SelectManual(source, Some(PlusTwo), thread);
    if en.Threw? {
      return Threw(en.error);
    }
    var sum := SumOverEnumerable(en.value, thread);
    r := Returned(sum);
  }

  /** OptimizedSumManual, run on `thread`. */
  method OptimizedSumManual(source: Source<Int32>, thread: int) returns (r: Attempt<int>)
    ensures r == ReferenceSum(source)
  {
    var en := OptimizedSelectManual(source, Some(PlusTwo), thread);
    if en.Threw? {
      return Threw(en.error);
    }
    var sum;
    match en.value {
      case OverArray(a) => sum := SumOverArray(a, thread);
      case OverEnumerable(e) => sum := SumOverEnumerable(e, thread);
    }
    r := Returned(sum);
  }

  /* ---------------------------------------------------------------- */
  /* The benchmark's source                                            */
  /* ---------------------------------------------------------------- */

  /** `Enumerable.Range(0, 10000).ToArray()`. */
  function BenchmarkSource(): (s: Source<Int32>)
    ensures s.ArraySource? && |s.elements| == 10000
    ensures forall i :: 0 <= i < 10000 ==> s.elements[i] == i
  {
    ArraySource(seq(10000, i => i))
  }

  /** The exact sum of 2, 3, ..., n + 1. */
  lemma {:induction false} ShiftedRangeTotal(ys: seq<int>)
    requires forall i :: 0 <= i < |ys| ==> ys[i] == i + 2
    ensures 2 * Total(ys) == |ys| * (|ys| - 1) + 4 * |ys|
    decreases |ys|
  {
    if ys != [] {
      var n := |ys|;
      var front := ys[..n - 1];
      assert forall i :: 0 <= i < |front| ==> front[i] == ys[i];
      ShiftedRangeTotal(front);
      assert 2 * Total(ys) == (n - 1) * (n - 2) + 4 * (n - 1) + 2 * (n + 1);
      assert (n - 1) * (n - 2) == n * (n - 1) - 2 * (n - 1);
    }
  }

  /** Over 0, 1, ..., n - 1 with n at most 10000, no `i + 2` wraps, so the
      Select yields 2, 3, ..., n + 1. */
  lemma SelectRange(xs: seq<Int32>)
    requires |xs| <= 10000
    requires forall i :: 0 <= i < |xs| ==> xs[i] == i
    ensures SelectAll(PlusTwo, xs).fault == None
    ensures var ys := SelectAll(PlusTwo, xs).values;
      |ys| == |xs| && forall i :: 0 <= i < |ys| ==> ys[i] == i + 2
  {
    SelectAllMaps(PlusTwo, xs);
    forall i | 0 <= i < |xs| ensures PlusTwo(xs[i]).value == i + 2 {
      Wrap32Small(i + 2);
    }
  }

  /** All four hand-written Sum benchmarks return 50015000 on the benchmark's
      source; the sum fits in an `int`, so nothing wraps. */
  lemma BenchmarkSum()
    ensures ReferenceSum(BenchmarkSource()) == Returned(50015000)
    ensures Total(SelectAll(PlusTwo, Elements(BenchmarkSource())).values) == 50015000
  {
    var xs := Elements(BenchmarkSource());
    assert |xs| == 10000;
    SelectRange(xs);
    var ys := SelectAll(PlusTwo, xs).values;
    ShiftedRangeTotal(ys);
    assert 2 * Total(ys) == 10000 * 9999 + 40000;
    Wrap32Small(50015000);
  }
}
