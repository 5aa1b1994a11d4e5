/** The reference meaning of `foreach (var item in source) yield return
    selector(item);`, against which every Select implementation of
    SelectSumImpl/ is proved. */
module Enumeration {
  import opened Outcomes

  /** The largest length of a .NET array (Array.MaxLength). */
  const MaxArrayLength: nat := 0x7FFF_FFC7

  /** The elements of a .NET array. */
  type DotNetArray<S> = s: seq<S> | |s| <= MaxArrayLength witness []

  /** A selector (Func<TSource, TResult>) either returns or throws. */
  type Selector<!S, R> = S -> Attempt<R>

  /** What enumerating a Select to the end observes: the values yielded, and
      the exception that ended it, if one did. */
  datatype Yield<R> = Yield(values: seq<R>, fault: Option<Error>)

  function SelectAll<S, R>(f: Selector<S, R>, source: seq<S>): Yield<R>
    decreases |source|
  {
    if source == [] then Yield([], None)
    else
      match f(source[0])
      case Threw(e) => Yield([], Some(e))
      case Returned(y) =>
        var rest := SelectAll(f, source[1..]);
        Yield([y] + rest.values, rest.fault)
  }

  predicate NeverThrows<S, R>(f: Selector<S, R>, source: seq<S>) {
    forall i :: 0 <= i < |source| ==> f(source[i]).Returned?
  }

  /** A selector that never throws yields `selector(item)` for every item,
      in source order, and ends normally. */
  lemma {:induction false} SelectAllMaps<S, R>(f: Selector<S, R>, source: seq<S>)
    requires NeverThrows(f, source)
    ensures SelectAll(f, source).fault == None
    ensures |SelectAll(f, source).values| == |source|
    ensures forall i :: 0 <= i < |source| ==> SelectAll(f, source).values[i] == f(source[i]).value
    decreases |source|
  {
    if source != [] {
      assert forall i :: 0 <= i < |source[1..]| ==> source[1..][i] == source[i + 1];
      SelectAllMaps(f, source[1..]);
    }
  }

  /** When the selector first throws on item `k`, the enumeration yields the
      first `k` results and ends with that exception. */
  lemma {:induction false} SelectAllStopsAtFault<S, R>(f: Selector<S, R>, source: seq<S>, k: nat)
    requires k < |source| && f(source[k]).Threw? && NeverThrows(f, source[..k])
    ensures SelectAll(f, source).fault == Some(f(source[k]).error)
    ensures |SelectAll(f, source).values| == k
    ensures forall i :: 0 <= i < k ==> SelectAll(f, source).values[i] == f(source[i]).value
    decreases k
  {
    if k > 0 {
      assert f(source[0]) == f(source[..k][0]);
      var tail := source[1..];
      var prefix := tail[..k - 1];
      forall i | 0 <= i < |prefix| ensures f(prefix[i]).Returned? {
        assert prefix[i] == source[..k][i + 1];
      }
      SelectAllStopsAtFault(f, tail, k - 1);
    }
  }
}
