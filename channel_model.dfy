/** The state of the hand-written channel and each of its locked operations as
    a function of that state. Every public operation of the channel classes in
    ChannelsImpl/ChannelImpl.cs runs as one block under the channel's lock, so
    each is one atomic step here. */
module ChannelModel {
  import opened Outcomes

  /** A deferred-result handle (a TaskCompletionSource): an index into the
      channel's `status` sequence, which records every handle ever created. */
  type Handle = nat

  /** The five successive versions of the channel class. */
  datatype Variant =
    | Simple       // SimpleChannelImpl: no waiting handle, no WaitToReadAsync or TryRead
    | Buggy        // BuggyChannelImpl: resolves the waiting handle before clearing it
    | SimpleFix    // BuggyChannelSimpleFixImpl: WriteAsync clears the waiting handle, then resolves it
    | ForcedAsync  // FixedBuggyChannelImpl: as SimpleFix, continuations run asynchronously
    | Final        // FinalChannelImpl: as ForcedAsync, plus a lock-free fast path and ReadAllAsync

  /** The versions that have the waiting handle, WaitToReadAsync and TryRead. */
  predicate HasReadiness(v: Variant) {
    v != Simple
  }

  /** The versions whose handles are created with
      TaskCreationOptions.RunContinuationsAsynchronously: resolving one of
      their handles never runs the awaiting consumer inside the resolving call. */
  predicate RunsContinuationsAsynchronously(v: Variant) {
    v == ForcedAsync || v == Final
  }

  const CompletedMessage: string := "Channel is completed"

  /** The failure a read observes on a completed, empty channel. */
  const ChannelCompleted: Error := InvalidOperation(CompletedMessage)

  /** What a handle holds: not yet resolved, a value handed to a reader, the
      completion failure, or the boolean of a waiting handle. */
  datatype Status<T> = Pending | HasValue(value: T) | Failed(error: Error) | HasBool(flag: bool)

  /** `_items`, `_readers`, `_waitingReaders`, `_isCompleted`, and the status
      of every handle the channel has created. */
  datatype ChannelState<T> = ChannelState(
    items: seq<T>,
    readers: seq<Handle>,
    waiting: Option<Handle>,
    completed: bool,
    status: seq<Status<T>>)

  function Empty<T>(): ChannelState<T> {
    ChannelState([], [], None, false, [])
  }

  /** The invariant every locked operation keeps. */
  ghost predicate Valid<T>(v: Variant, s: ChannelState<T>) {
    // a value is either handed to a waiting reader or buffered, never both
    && !(s.items != [] && s.readers != [])
    // an armed waiting handle means nothing is buffered
    && (s.waiting.Some? ==> s.items == [])
    && (!HasReadiness(v) ==> s.waiting == None)
    // after completion nobody waits any more
    && (s.completed ==> s.readers == [] && s.waiting == None)
    // queued reader handles are distinct, known and unresolved
    && (forall i :: 0 <= i < |s.readers| ==> s.readers[i] < |s.status| && s.status[s.readers[i]] == Pending)
    && (forall i, j :: 0 <= i < j < |s.readers| ==> s.readers[i] != s.readers[j])
    // the armed waiting handle is known, unresolved and not a reader handle
    && (s.waiting.Some? ==>
          s.waiting.value < |s.status| && s.status[s.waiting.value] == Pending && s.waiting.value !in s.readers)
  }

  /** SetResult / SetException on handle `h`. */
  function Resolve<T>(status: seq<Status<T>>, h: Handle, r: Status<T>): seq<Status<T>> {
    if h < |status| then status[h := r] else status
  }

  /** WriteAsync: hand `x` to the oldest pending reader, or buffer it and
      signal the armed waiting handle with true. */
  function Write<T>(s: ChannelState<T>, x: T): (t: ChannelState<T>)
    ensures |t.status| == |s.status| && t.completed == s.completed
    ensures s.readers == [] ==> t.items == s.items + [x] && t.waiting == None
    ensures s.readers != [] ==> t.items == s.items && |t.readers| == |s.readers| - 1
  {
    if s.readers != [] then
      s.(readers := s.readers[1..], status := Resolve(s.status, s.readers[0], HasValue(x)))
    else
      match s.waiting
      case None => s.(items := s.items + [x])
      case Some(w) => s.(items := s.items + [x], waiting := None, status := Resolve(s.status, w, HasBool(true)))
  }

  /** What ReadAsync returns: a value at once, a faulted task, or the Task of
      a new reader handle. */
  datatype ReadOutcome<T> = Item(value: T) | Faulted(error: Error) | Suspended(handle: Handle)

  datatype ReadStep<T> = ReadStep(next: ChannelState<T>, outcome: ReadOutcome<T>)

  /** ReadAsync. */
  function Read<T>(s: ChannelState<T>): (r: ReadStep<T>)
    ensures r.next.completed == s.completed && r.next.waiting == s.waiting
    ensures r.outcome.Item? <==> s.items != []
    ensures r.outcome.Suspended? ==>
      r.outcome.handle == |s.status| && r.next.status == s.status + [Pending] && r.next.readers == s.readers + [|s.status|]
    ensures !r.outcome.Suspended? ==> r.next.status == s.status && r.next.readers == s.readers
  {
    if s.items != [] then
      ReadStep(s.(items := s.items[1..]), Item(s.items[0]))
    else if s.completed then
      ReadStep(s, Faulted(ChannelCompleted))
    else
      var h := |s.status|;
      ReadStep(s.(readers := s.readers + [h], status := s.status + [Pending]), Suspended(h))
  }

  /** The `while (_readers.TryDequeue(...)) SetException(...)` loop of Complete. */
  function FailAll<T>(status: seq<Status<T>>, hs: seq<Handle>): (r: seq<Status<T>>)
    ensures |r| == |status|
    decreases |hs|
  {
    if hs == [] then status else FailAll(Resolve(status, hs[0], Failed(ChannelCompleted)), hs[1..])
  }

  /** Complete. */
  function Complete<T>(s: ChannelState<T>): (t: ChannelState<T>)
    ensures t.completed && t.readers == [] && t.waiting == None
    ensures t.items == s.items && |t.status| == |s.status|
  {
    var failed := FailAll(s.status, s.readers);
    var signalled := match s.waiting
      case None => failed
      case Some(w) => Resolve(failed, w, HasBool(false));
    ChannelState(s.items, [], None, true, signalled)
  }

  /** What WaitToReadAsync returns: a boolean at once, or the Task of the
      shared waiting handle. */
  datatype WaitOutcome = Ready(available: bool) | Armed(handle: Handle)

  datatype WaitStep<T> = WaitStep(next: ChannelState<T>, outcome: WaitOutcome)

  /** WaitToReadAsync: arms the shared waiting handle, or joins the armed one. */
  function WaitToRead<T>(s: ChannelState<T>): (w: WaitStep<T>)
    ensures w.next.items == s.items && w.next.readers == s.readers && w.next.completed == s.completed
    ensures w.outcome == Ready(true) <==> s.items != []
    ensures w.outcome.Armed? ==> w.next.waiting == Some(w.outcome.handle)
    ensures s.waiting.None? && w.outcome.Armed? ==>
      w.outcome.handle == |s.status| && w.next.status == s.status + [Pending]
    ensures s.waiting.Some? && w.outcome.Armed? ==> w.next == s
  {
    if s.items != [] then
      WaitStep(s, Ready(true))
    else if s.completed then
      WaitStep(s, Ready(false))
    else
      match s.waiting
      case Some(w) => WaitStep(s, Armed(w))
      case None =>
        var h := |s.status|;
        WaitStep(s.(waiting := Some(h), status := s.status + [Pending]), Armed(h))
  }

  datatype TakeStep<T> = TakeStep(next: ChannelState<T>, item: Option<T>)

  /** TryRead. */
  function TryRead<T>(s: ChannelState<T>): (t: TakeStep<T>)
    ensures t.item.Some? <==> s.items != []
    ensures t.item.Some? ==> [t.item.value] + t.next.items == s.items
    ensures t.next.readers == s.readers && t.next.waiting == s.waiting && t.next.status == s.status
  {
    if s.items != [] then TakeStep(s.(items := s.items[1..]), Some(s.items[0])) else TakeStep(s, None)
  }

  /** The state in which WriteAsync resolves the armed waiting handle with
      true: what a continuation that runs synchronously inside that SetResult
      observes. BuggyChannelImpl resolves the handle while it is still armed;
      the later versions take it out of `_waitingReaders` first. None when the
      write resolves no waiting handle. */
  function WriteSignalPoint<T>(v: Variant, s: ChannelState<T>, x: T): (r: Option<ChannelState<T>>)
    ensures r.Some? <==> s.readers == [] && s.waiting.Some?
    ensures r.Some? ==> r.value.items == s.items + [x]
    ensures r.Some? ==> (r.value.waiting == s.waiting <==> v == Buggy)
  {
    if s.readers != [] || s.waiting.None? then None
    else
      var resolved := Resolve(s.status, s.waiting.value, HasBool(true));
      if v == Buggy then Some(s.(items := s.items + [x], status := resolved))
      else Some(s.(items := s.items + [x], waiting := None, status := resolved))
  }

  /** The state a consumer awaiting the waiting handle first observes when a
      write resolves it: inside SetResult for the versions that run
      continuations synchronously, after WriteAsync has returned for the
      others. None when the write resolves no waiting handle. */
  function ResumedState<T>(v: Variant, s: ChannelState<T>, x: T): (r: Option<ChannelState<T>>)
    ensures r.Some? <==> s.readers == [] && s.waiting.Some?
    ensures r.Some? ==> r.value.items == s.items + [x]
  {
    if WriteSignalPoint(v, s, x).None? then None
    else if RunsContinuationsAsynchronously(v) then Some(Write(s, x))
    else WriteSignalPoint(v, s, x)
  }

  /** What `await` on a WaitToReadAsync result gives without suspending: the
      boolean of a ready result or of an already resolved handle; None when
      the consumer suspends on a pending handle. */
  function Awaited<T>(w: WaitStep<T>): Option<bool> {
    match w.outcome
    case Ready(b) => Some(b)
    case Armed(h) =>
      if h < |w.next.status| && w.next.status[h].HasBool? then Some(w.next.status[h].flag) else None
  }

  /** `rounds` turns of the consumer loop
      `while (await WaitToReadAsync()) { if (TryRead(out var item)) ... }`
      run without any other thread acting: the items it takes, and whether it
      stopped (suspended on a pending handle or saw false) within those rounds. */
  datatype LoopRun<T> = LoopRun(taken: seq<T>, stopped: bool)

  function ConsumerLoop<T>(s: ChannelState<T>, rounds: nat): (r: LoopRun<T>)
    ensures r.taken <= s.items && |r.taken| <= rounds
    decreases rounds
  {
    if rounds == 0 then LoopRun([], false)
    else
      var w := WaitToRead(s);
      if Awaited(w) != Some(true) then LoopRun([], true)
      else
        var t := TryRead(w.next);
        var rest := ConsumerLoop(t.next, rounds - 1);
        match t.item
        case Some(x) => LoopRun([x] + rest.taken, rest.stopped)
        case None => rest
  }
}
