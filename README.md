# LinqDeeperDive: hand-written channels and Select enumerators, in Dafny

LinqDeeperDive is a C# study project with two parts, and this Dafny model covers both.

**The channel classes.** `ChannelsImpl/ChannelImpl.cs` builds a small unbounded channel in five versions, each one
fixing a flaw of the one before:

- `SimpleChannelImpl` has `WriteAsync`, `ReadAsync` and `Complete`.
- `BuggyChannelImpl` adds a shared waiting handle, with `WaitToReadAsync` and `TryRead`, and in doing so introduces a
  livelock.
- `BuggyChannelSimpleFixImpl` clears the waiting handle before resolving it in `WriteAsync`. Its `Complete` still
  resolves the handle first and clears it afterwards, as do the later versions.
- `FixedBuggyChannelImpl` also creates every handle with `RunContinuationsAsynchronously`.
- `FinalChannelImpl` adds a lock-free fast path and `ReadAllAsync`.

**The Select implementations.** `SelectSumImpl/` has four implementations of LINQ's `Select`:

- two C# iterator methods (`SelectCompiler`, `OptimizedSelectCompiler`);
- two hand-written state-machine enumerators (`SelectManualEnumerable`, `SelectManualArray`), reached through
  `SelectManual` and `OptimizedSelectManual`;
- benchmarks that sum `i + 2` over `0 .. 9999` through each implementation.

The model has these modules:

- `Outcomes` (`outcomes.dfy`): `Option`, the exceptions the core throws, and `Attempt`, the outcome of a call that
  returns or throws.
- `ChannelModel` (`channel_model.dfy`): the channel's state as a value.
  - Every operation is one block under the channel's lock, so each is a function from state to state.
  - A deferred result (a `TaskCompletionSource`) is a *handle*: an index into `status`, the status of every handle the
    channel has created so far.
  - `Variant` selects one of the five versions.
  - `WriteSignalPoint` and `ResumedState` describe the state a consumer sees when a write wakes it. It sees the state
    inside `SetResult` when continuations run synchronously, and after `WriteAsync` returns when they run
    asynchronously.
  - `ConsumerLoop` runs the loop `while (await WaitToReadAsync()) if (TryRead(...)) ...` for a number of rounds.
- `ChannelProperties` (`channel_properties.dfy`): what the operations promise, proved about `ChannelModel`:
  - the invariant `Valid`, and that every operation keeps it;
  - who receives a written value;
  - every handle is resolved at most once;
  - no value is lost or duplicated over any run of operations;
  - FIFO order;
  - what completion does;
  - the livelock of `BuggyChannelImpl`, and that in the later versions a consumer resumed by a write suspends instead.
- `ChannelImpl` (`channel.dfy`): the class `Channel`. Its fields are `_items`, `_readers`, `_waitingReaders` and
  `_isCompleted`, plus the handle statuses. Each method updates them in place and is proved to produce exactly the
  model function's new state.
- `Enumeration` (`enumeration.dfy`): `SelectAll`, the reference meaning of
  `foreach (var item in source) yield return selector(item);`. A selector may throw.
- `SelectArray` (`select_manual_array.dfy`) and `SelectEnumerable` (`select_manual_enumerable.dfy`): the two
  enumerator classes. Each method is proved against a step function (`MoveArray`, `MoveEnumerable`), and every full
  enumeration from a fresh enumerator is proved to equal `SelectAll`.
- `Benchmarks` (`benchmarks.dfy`):
  - the four Select entry points, with their argument checks and array dispatch;
  - the four Sum benchmarks, with C#'s wrapping `int` addition made explicit (`Wrap32`);
  - the value every benchmark returns on the benchmark's source, 50015000.

## Model

| member | source | states |
|---|---|---|
| ChannelModel.Write | LinqDeeperDive/ChannelsImpl/ChannelImpl.cs:620-640 | WriteAsync as one step: it creates no handle and leaves completion alone; with no reader queued it buffers the value at the back and disarms the waiting handle, otherwise it consumes one queued reader and buffers nothing (the handle it resolves: `WriteHandsOverOrBuffers`, `ApplySettles`) |
| ChannelModel.Read | LinqDeeperDive/ChannelsImpl/ChannelImpl.cs:646-671 | ReadAsync as one step: an item iff one is buffered; a suspended read gets the fresh handle numbered `\|status\|`, appended pending and queued at the back; otherwise no handle changes; completion and the waiting handle are untouched (`ReadTakesOrQueues`) |
| ChannelModel.FailAll | LinqDeeperDive/ChannelsImpl/ChannelImpl.cs:376-379 | the dequeue loop of Complete over the handle statuses; it keeps their number, and `FailAllResolves` gives each handle's status |
| ChannelModel.Complete | LinqDeeperDive/ChannelsImpl/ChannelImpl.cs:673-688 | Complete as one step: completed, no queued reader, no waiting handle, the items and the number of handles kept (`CompleteResolvesOutstanding` gives each handle) |
| ChannelModel.WaitToRead | LinqDeeperDive/ChannelsImpl/ChannelImpl.cs:694-713 | WaitToReadAsync as one step: items, readers and completion unchanged; true at once iff items are buffered; an armed result is the waiting handle: the armed one with nothing changed, else a fresh pending one |
| ChannelModel.TryRead | LinqDeeperDive/ChannelsImpl/ChannelImpl.cs:720-723 | TryRead as one step: an item iff one is buffered, and then exactly the front of the buffer; no handle changes |
| ChannelModel.WriteSignalPoint | LinqDeeperDive/ChannelsImpl/ChannelImpl.cs:181-185 | the state a synchronous continuation sees inside SetResult(true): it exists iff the write signals the waiting handle, has the new item buffered, and still shows the waiting handle armed iff the version is BuggyChannelImpl (the later versions clear it first, 339-341) |
| ChannelModel.ResumedState | LinqDeeperDive/ChannelsImpl/ChannelImpl.cs:548-553 | the state a consumer woken by a write first sees, inside SetResult or, with RunContinuationsAsynchronously, after WriteAsync returns: it exists iff the write signals the waiting handle and always has the new item buffered (`OnlyBuggyResumesEarly`) |
| ChannelModel.ConsumerLoop | LinqDeeperDive/ChannelsImpl/ChannelImpl.cs:293-299 | the consumer loop `while (await WaitToReadAsync()) if (TryRead(...))` run for a number of rounds: what it takes is a prefix of the buffered items, at most one per round (`ConsumerLoopProgresses`, `StaleSignalSpins`) |
| ChannelImpl.Channel.constructor | LinqDeeperDive/ChannelsImpl/ChannelImpl.cs:603-609 | a new channel has no items, no queued readers, no waiting handle, is not completed and satisfies the invariant |
| ChannelImpl.Channel.WriteAsync | LinqDeeperDive/ChannelsImpl/ChannelImpl.cs:168-190 | the new state is `Write` of the old one and the invariant is kept; the Buggy version resolves the waiting handle and then clears it, the others (326-346, 473-493, 620-640) clear it first |
| ChannelImpl.Channel.ReadAsync | LinqDeeperDive/ChannelsImpl/ChannelImpl.cs:77-97 | the outcome and new state are `Read` of the old state: the oldest buffered item, the completion failure, or a new pending reader handle |
| ChannelImpl.Channel.Complete | LinqDeeperDive/ChannelsImpl/ChannelImpl.cs:370-385 | the loop fails the queued reader handles oldest first, then resolves the waiting handle with false; the new state is `Complete` of the old one |
| ChannelImpl.Channel.WaitToReadAsync | LinqDeeperDive/ChannelsImpl/ChannelImpl.cs:694-713 | true at once iff items are buffered; false at once on a completed empty channel; otherwise the armed waiting handle, created if absent and still pending; items, readers and completion unchanged |
| ChannelImpl.Channel.TryRead | LinqDeeperDive/ChannelsImpl/ChannelImpl.cs:720-723 | takes the oldest buffered item if any, and changes nothing else |
| ChannelImpl.Channel.ReadAllAsync | LinqDeeperDive/ChannelsImpl/ChannelImpl.cs:759-768 | run alone, it yields exactly the buffered items in FIFO order and empties the buffer, leaving every handle as it was; the final state and result are those of WaitToReadAsync on the emptied channel: false on a completed channel, otherwise suspension on the waiting handle, the one already armed if there is one |
| ChannelProperties.WaitOnEmpty | LinqDeeperDive/ChannelsImpl/ChannelImpl.cs:694-713 | on an empty channel WaitToReadAsync answers false when completed, and otherwise returns a pending waiting handle, keeping the armed one if there is one |
| ChannelProperties.EmptyIsValid | LinqDeeperDive/ChannelsImpl/ChannelImpl.cs:605-609 | a new channel satisfies the invariant |
| ChannelProperties.WriteKeepsValid | LinqDeeperDive/ChannelsImpl/ChannelImpl.cs:620-640 | WriteAsync keeps the invariant: queued reader handles are distinct and pending, the waiting handle is pending and never armed while items are buffered |
| ChannelProperties.ReadKeepsValid | LinqDeeperDive/ChannelsImpl/ChannelImpl.cs:646-671 | ReadAsync keeps the invariant |
| ChannelProperties.CompleteKeepsValid | LinqDeeperDive/ChannelsImpl/ChannelImpl.cs:673-688 | Complete keeps the invariant |
| ChannelProperties.WaitToReadKeepsValid | LinqDeeperDive/ChannelsImpl/ChannelImpl.cs:694-713 | WaitToReadAsync keeps the invariant |
| ChannelProperties.TryReadKeepsValid | LinqDeeperDive/ChannelsImpl/ChannelImpl.cs:720-723 | TryRead keeps the invariant |
| ChannelProperties.WriteHandsOverOrBuffers | LinqDeeperDive/ChannelsImpl/ChannelImpl.cs:326-346 | a write hands the value to the oldest queued reader, or buffers it at the back and resolves the armed waiting handle with true; no other handle changes |
| ChannelProperties.ReadTakesOrQueues | LinqDeeperDive/ChannelsImpl/ChannelImpl.cs:348-368 | a read takes the oldest item; on a completed empty channel it fails and changes nothing; otherwise it queues exactly one new pending handle at the back |
| ChannelProperties.FailAllResolves | LinqDeeperDive/ChannelsImpl/ChannelImpl.cs:376-379 | the dequeue loop fails exactly the handles in the queue and leaves every other handle as it was |
| ChannelProperties.CompleteResolvesOutstanding | LinqDeeperDive/ChannelsImpl/ChannelImpl.cs:214-231 | Complete fails every queued reader, resolves the waiting handle with false, empties both, keeps the buffered items and changes no other handle |
| ChannelProperties.CompleteIdempotent | LinqDeeperDive/ChannelsImpl/ChannelImpl.cs:673-688 | completing twice is the same as completing once |
| ChannelProperties.CompletedChannelAnswersAtOnce | LinqDeeperDive/ChannelsImpl/ChannelImpl.cs:495-515 | on a completed channel ReadAsync returns the next item or the "Channel is completed" failure and never queues a handle; WaitToReadAsync answers at once |
| ChannelProperties.ApplyKeepsValid | LinqDeeperDive/ChannelsImpl/ChannelImpl.cs:603-723 | every operation the version has keeps the invariant |
| ChannelProperties.RunKeepsValid | LinqDeeperDive/ChannelsImpl/ChannelImpl.cs:603-723 | every sequence of operations keeps the invariant |
| ChannelProperties.ApplySettles | LinqDeeperDive/ChannelsImpl/ChannelImpl.cs:620-688 | an operation resolves exactly its targets (the reader or waiting handle a write signals, the queued readers and waiting handle on completion), each of them pending before, and leaves every other handle as it was |
| ChannelProperties.RunSettles | LinqDeeperDive/ChannelsImpl/ChannelImpl.cs:603-723 | over any run, every handle resolved in the starting state keeps its status to the end and no handle is dropped |
| ChannelProperties.RunSplit | LinqDeeperDive/ChannelsImpl/ChannelImpl.cs:603-723 | running a sequence of operations is running its first k operations and then the rest |
| ChannelProperties.RunSettlesAfterEveryStep | LinqDeeperDive/ChannelsImpl/ChannelImpl.cs:603-723 | the state after any prefix of a run is valid, and every handle resolved by then keeps its status to the end of the run |
| ChannelProperties.RunResolvesOnlyPending | LinqDeeperDive/ChannelsImpl/ChannelImpl.cs:620-688 | at every step of any run, the operation resolves only handles that are still pending: SetResult / SetException never hit a completed handle |
| ChannelProperties.ApplyNoOrphan | LinqDeeperDive/ChannelsImpl/ChannelImpl.cs:603-723 | every operation keeps every pending handle reachable: each is a queued reader or the armed waiting handle |
| ChannelProperties.RunNoOrphan | LinqDeeperDive/ChannelsImpl/ChannelImpl.cs:603-723 | every sequence of operations keeps every pending handle reachable |
| ChannelProperties.CompletedLeavesNothingPending | LinqDeeperDive/ChannelsImpl/ChannelImpl.cs:673-688 | whatever operations a channel has been through, Complete leaves none of the handles it ever created pending; with `RunResolvesOnlyPending`, every handle is resolved exactly once |
| ChannelProperties.WriteConserves | LinqDeeperDive/ChannelsImpl/ChannelImpl.cs:620-640 | a write adds its value exactly once to what the channel holds (buffered plus handed to handles) |
| ChannelProperties.HandOverConserves | LinqDeeperDive/ChannelsImpl/ChannelImpl.cs:624-629 | a write that finds a queued reader moves the value into that reader's handle: the channel holds exactly one more copy of it |
| ChannelProperties.BufferConserves | LinqDeeperDive/ChannelsImpl/ChannelImpl.cs:631-637 | a write with no queued reader buffers the value, and signalling the waiting handle hands over no value |
| ChannelProperties.ReadConserves | LinqDeeperDive/ChannelsImpl/ChannelImpl.cs:646-671 | what a read returns is exactly what leaves the channel |
| ChannelProperties.CompleteConserves | LinqDeeperDive/ChannelsImpl/ChannelImpl.cs:673-688 | completion neither drops nor creates a value |
| ChannelProperties.WaitToReadConserves | LinqDeeperDive/ChannelsImpl/ChannelImpl.cs:694-713 | waiting neither drops nor creates a value |
| ChannelProperties.TryReadConserves | LinqDeeperDive/ChannelsImpl/ChannelImpl.cs:720-723 | what TryRead returns is exactly what leaves the channel |
| ChannelProperties.ApplyConserves | LinqDeeperDive/ChannelsImpl/ChannelImpl.cs:603-723 | one operation: held plus written equals held afterwards plus returned |
| ChannelProperties.NoValueLostOrDuplicated | LinqDeeperDive/ChannelsImpl/ChannelImpl.cs:603-723 | over any run, every written value is returned to one reader, handed to one reader handle, or still buffered: none lost, none duplicated |
| ChannelProperties.WriteAllBuffers | LinqDeeperDive/ChannelsImpl/ChannelImpl.cs:59-75 | with no reader queued, writes are buffered in the order written |
| ChannelProperties.CompletedDrainsInOrder | LinqDeeperDive/ChannelsImpl/ChannelImpl.cs:77-97 | after completion, reads return the buffered items in FIFO order, then the completion failure |
| ChannelProperties.ProduceThenConsume | LinqDeeperDive/ChannelsImpl/ChannelImpl.cs:43-110 | N writes, Complete, then N + 1 reads: the N values in order, then "Channel is completed" |
| ChannelProperties.WaitersShareOneHandle | LinqDeeperDive/ChannelsImpl/ChannelImpl.cs:251-252 | waiters on an empty open channel all get the same pending handle |
| ChannelProperties.SignalPointBeforeReturn | LinqDeeperDive/ChannelsImpl/ChannelImpl.cs:339-341 | once WriteAsync returns, the state inside SetResult differs from the final one at most in the waiting handle |
| ChannelProperties.OnlyBuggyResumesEarly | LinqDeeperDive/ChannelsImpl/ChannelImpl.cs:181-185 | a consumer woken by a write sees the state WriteAsync leaves behind iff the version is not BuggyChannelImpl |
| ChannelProperties.ConsumerLoopProgresses | LinqDeeperDive/ChannelsImpl/ChannelImpl.cs:761-767 | from any valid state the consumer loop takes the buffered items in FIFO order, one per round, then stops |
| ChannelProperties.StaleSignalSpins | LinqDeeperDive/ChannelsImpl/ChannelImpl.cs:241-252 | with the waiting handle armed but already true and nothing buffered, the consumer loop takes nothing and never stops |
| ChannelProperties.BuggyWriteLivelocks | LinqDeeperDive/ChannelsImpl/ChannelImpl.cs:168-190 | in BuggyChannelImpl a consumer resumed inside SetResult(true) sees a state outside the invariant, takes the item, then spins forever |
| ChannelProperties.FixedWriteSuspends | LinqDeeperDive/ChannelsImpl/ChannelImpl.cs:326-346 | in the later versions the resumed consumer sees a valid state, takes the item and suspends in its first round |
| Enumeration.SelectAllMaps | LinqDeeperDive/SelectSumImpl/Benchmarks.cs:78-84 | a selector that never throws yields `selector(item)` for every item, in order, and ends normally |
| Enumeration.SelectAllStopsAtFault | LinqDeeperDive/SelectSumImpl/Benchmarks.cs:78-84 | when the selector first throws on item k, the first k results are yielded and the exception ends the enumeration |
| SelectArray.ToUInt32 | LinqDeeperDive/SelectSumImpl/SelectManualArray.cs:39 | the `(uint)` cast: the one value in [0, 2^32) congruent to the index modulo 2^32 (`UnsignedBoundsCheck`) |
| SelectArray.MoveArray | LinqDeeperDive/SelectSumImpl/SelectManualArray.cs:34-48 | MoveNext as one step: true iff the state names an item and the selector returns on it, moving to the next state with that result as current; false sets the state to -1 and keeps current (a throw: `ArrayFaultKeepsPosition`) |
| SelectArray.UnsignedBoundsCheck | LinqDeeperDive/SelectSumImpl/SelectManualArray.cs:36-39 | `(uint)i < (uint)Length` is exactly `0 <= i < Length` for a 32-bit index |
| SelectArray.EnumerateArrayUnfolds | LinqDeeperDive/SelectSumImpl/SelectManualArray.cs:34-48 | enumerating is repeated MoveNext: each true contributes Current, false ends, a throw ends with the exception |
| SelectArray.EnumerateArrayFrom | LinqDeeperDive/SelectSumImpl/SelectManualArray.cs:34-48 | from state k + 1 the enumerator yields the Select of the array from item k |
| SelectArray.FreshArrayEnumeratesSelect | LinqDeeperDive/SelectSumImpl/SelectManualArray.cs:21-48 | a fresh enumerator yields exactly the Select of the array |
| SelectArray.ArrayStaysExhausted | LinqDeeperDive/SelectSumImpl/SelectManualArray.cs:46-53 | after MoveNext returns false the state is -1 and every later call returns false |
| SelectArray.ArrayFaultKeepsPosition | LinqDeeperDive/SelectSumImpl/SelectManualArray.cs:39-42 | a throwing selector leaves the state unchanged and undisposed |
| SelectArray.SelectManualArray.constructor | LinqDeeperDive/SelectSumImpl/SelectManualArray.cs:8-19 | stores the array, the selector and the creating thread, in state 0 |
| SelectArray.SelectManualArray.GetEnumerator | LinqDeeperDive/SelectSumImpl/SelectManualArray.cs:21-30 | the creating thread's first call reuses this object; any other call returns a fresh one on the calling thread; either way in state 1 |
| SelectArray.SelectManualArray.MoveNext | LinqDeeperDive/SelectSumImpl/SelectManualArray.cs:34-48 | the result and new state are `MoveArray` of the old state |
| SelectArray.SelectManualArray.Dispose | LinqDeeperDive/SelectSumImpl/SelectManualArray.cs:50-53 | sets the state to -1 and nothing else |
| SelectArray.SelectManualArray.Reset | LinqDeeperDive/SelectSumImpl/SelectManualArray.cs:55-58 | always throws NotSupportedException |
| SelectArray.SelectManualArray.Current | LinqDeeperDive/SelectSumImpl/SelectManualArray.cs:60 | returns `_current`, with no contract of its own: after MoveNext returns true it holds the selector's result for the item just passed (`MoveArray`), which `SumOverArray` reads |
| SelectEnumerable.Disposed | LinqDeeperDive/SelectSumImpl/SelectManualEnumerable.cs:66-70 | Dispose as one step: state -1, current kept, and the source's enumerator, if any, marked disposed and otherwise unchanged |
| SelectEnumerable.MoveEnumerable | LinqDeeperDive/SelectSumImpl/SelectManualEnumerable.cs:35-64 | MoveNext as one step: true iff it obtains or holds the source's enumerator with an item left and the selector returns on that item; a true result exposes a current value and strictly reduces the moves left; in any state other than 1 or 2 (never handed out, or disposed) it disposes and returns false |
| SelectEnumerable.EnumerateFromCursor | LinqDeeperDive/SelectSumImpl/SelectManualEnumerable.cs:43-59 | reading the source's enumerator from item k yields the Select of the rest of the source |
| SelectEnumerable.FreshEnumerableEnumeratesSelect | LinqDeeperDive/SelectSumImpl/SelectManualEnumerable.cs:35-64 | an enumerator in state 1 yields exactly the Select of the source |
| SelectEnumerable.CursorStep | LinqDeeperDive/SelectSumImpl/SelectManualEnumerable.cs:37-63 | one MoveNext about to read item n (state 1 before the first call, else the source's enumerator open after n items): a returning selector moves on to item n + 1 and exposes its result; at the end of the source it returns false |
| SelectEnumerable.EnumerableStaysDisposed | LinqDeeperDive/SelectSumImpl/SelectManualEnumerable.cs:54-70 | after false or a selector exception the enumerator and the source's enumerator are disposed and every later call returns false |
| SelectEnumerable.SelectManualEnumerable.constructor | LinqDeeperDive/SelectSumImpl/SelectManualEnumerable.cs:8-20 | stores the source, the selector and the creating thread, in state 0 with no source enumerator |
| SelectEnumerable.SelectManualEnumerable.GetEnumerator | LinqDeeperDive/SelectSumImpl/SelectManualEnumerable.cs:22-31 | reuse on the creating thread's first call, else a fresh object on the calling thread; either way in state 1 |
| SelectEnumerable.SelectManualEnumerable.MoveNext | LinqDeeperDive/SelectSumImpl/SelectManualEnumerable.cs:35-64 | the result and new state are `MoveEnumerable` of the old state |
| SelectEnumerable.SelectManualEnumerable.Dispose | LinqDeeperDive/SelectSumImpl/SelectManualEnumerable.cs:66-70 | state -1, and the source's enumerator, if any, disposed |
| SelectEnumerable.SelectManualEnumerable.Reset | LinqDeeperDive/SelectSumImpl/SelectManualEnumerable.cs:72-75 | always throws NotSupportedException |
| SelectEnumerable.SelectManualEnumerable.Current | LinqDeeperDive/SelectSumImpl/SelectManualEnumerable.cs:77 | returns `_current`, with no contract of its own: after MoveNext returns true it holds the selector's result for the item just read (`CursorStep`), which `SumOverEnumerable` reads |
| Benchmarks.CheckArguments | LinqDeeperDive/SelectSumImpl/Benchmarks.cs:73-74 | no exception iff source and selector are both non-null; a null source is reported first, as "source", then a null "selector" |
| Benchmarks.SelectCompiler | LinqDeeperDive/SelectSumImpl/Benchmarks.cs:71-85 | throws exactly the argument check's exception, eagerly; otherwise the iterator yields the Select of the source |
| Benchmarks.OptimizedSelectCompiler | LinqDeeperDive/SelectSumImpl/Benchmarks.cs:87-120 | same checks; the array iterator is chosen iff the source is an array, and it yields the same values as SelectCompiler |
| Benchmarks.SelectManual | LinqDeeperDive/SelectSumImpl/Benchmarks.cs:122-129 | same checks; otherwise a fresh SelectManualEnumerable over the source, in state 0 |
| Benchmarks.OptimizedSelectManual | LinqDeeperDive/SelectSumImpl/Benchmarks.cs:131-143 | same checks; a SelectManualArray iff the source is an array, else a SelectManualEnumerable |
| Benchmarks.PlusTwo | LinqDeeperDive/SelectSumImpl/Benchmarks.cs:18 | the selector `i => i + 2` on `int`: it never throws, its result is the 32-bit value congruent to i + 2, and it is i + 2 whenever that fits |
| Benchmarks.Wrap32 | LinqDeeperDive/SelectSumImpl/Benchmarks.cs:20 | the result of unchecked `int` arithmetic lies in the 32-bit range |
| Benchmarks.Wrap32Congruent | LinqDeeperDive/SelectSumImpl/Benchmarks.cs:20 | the wrapped value is the one 32-bit value congruent to the exact one modulo 2^32 |
| Benchmarks.Wrap32Small | LinqDeeperDive/SelectSumImpl/Benchmarks.cs:20 | values already in range do not wrap |
| Benchmarks.Wrap32Add | LinqDeeperDive/SelectSumImpl/Benchmarks.cs:17-21 | wrapping after every `sum += i` equals wrapping the exact sum once |
| Benchmarks.SumValues | LinqDeeperDive/SelectSumImpl/Benchmarks.cs:17-23 | the foreach sum is the wrapped exact total of the values |
| Benchmarks.SumCompiler | LinqDeeperDive/SelectSumImpl/Benchmarks.cs:15-24 | returns the wrapped sum of `i + 2` over the source |
| Benchmarks.OptimizedSumCompiler | LinqDeeperDive/SelectSumImpl/Benchmarks.cs:27-36 | returns the same as SumCompiler |
| Benchmarks.SumOverEnumerable | LinqDeeperDive/SelectSumImpl/Benchmarks.cs:44-47 | a foreach over a SelectManualEnumerable sums exactly the Select of its source |
| Benchmarks.SumOverArray | LinqDeeperDive/SelectSumImpl/Benchmarks.cs:57-60 | a foreach over a SelectManualArray sums exactly the Select of its array |
| Benchmarks.SumManual | LinqDeeperDive/SelectSumImpl/Benchmarks.cs:40-50 | returns the same as SumCompiler |
| Benchmarks.OptimizedSumManual | LinqDeeperDive/SelectSumImpl/Benchmarks.cs:53-63 | returns the same as SumCompiler, through whichever enumerator the source selects |
| Benchmarks.BenchmarkSource | LinqDeeperDive/SelectSumImpl/Benchmarks.cs:12 | the field `source`, `Enumerable.Range(0, 10000).ToArray()`: an array of 10000 elements whose element i is i |
| Benchmarks.SelectRange | LinqDeeperDive/SelectSumImpl/Benchmarks.cs:12 | over 0 .. n - 1 with n at most 10000, no `i + 2` wraps and the Select yields 2 .. n + 1 |
| Benchmarks.ShiftedRangeTotal | LinqDeeperDive/SelectSumImpl/Benchmarks.cs:12 | 2 + 3 + ... + (n + 1), doubled, is n(n - 1) + 4n |
| Benchmarks.BenchmarkSum | LinqDeeperDive/SelectSumImpl/Benchmarks.cs:12-63 | on `Enumerable.Range(0, 10000).ToArray()` every Sum benchmark returns 50015000, and the exact, unwrapped total is 50015000 too, so nothing wraps |

## Left out

- `DefaultChannel` and every static `Run` method of `ChannelImpl.cs` are left out. They are demonstrations that drive
  a channel from `Task.Run`, print to the console and sleep.
- `Program.cs` is not part of this model. It only starts the benchmarks and demos.
- Threads, interleaving and the scheduling of continuations are not modelled. Each locked operation is one atomic
  step; runs of operations are sequences of such steps.
  - The livelock is captured through the state a woken consumer sees (`ResumedState`), not through a scheduler.
  - The thread that ends up running a synchronously resumed consumer is not modelled.
  - The doc comment of `BuggyChannelSimpleFixImpl` (ChannelImpl.cs:305-306) says the livelock could still appear
    there. The model shows no livelock for one atomic write followed by one consumer: the resumed consumer sees a
    valid state and suspends in its first round (`FixedWriteSuspends`). What running a continuation synchronously
    inside `SetResult` does beyond that is not modelled: the consumer running on the writer's thread while the lock
    is held, re-entry into the channel, and other threads.
- ChannelImpl.Channel.ReadAsync: the lock-free first attempt of `FinalChannelImpl` (ChannelImpl.cs:648-651) is
  modelled as the same dequeue as the locked one. Run alone the two are identical; a race between them and other
  threads is not modelled.
- ChannelImpl.Channel.TryRead: in `FinalChannelImpl`, `TryRead` runs without the lock over a `ConcurrentQueue`. It is
  modelled as one atomic dequeue.
- ChannelImpl.Channel.ReadAllAsync: the `IAsyncEnumerable` is modelled as running alone until its first suspension.
  Resumption by a later write is covered by the model-level `ConsumerLoop` lemmas.
- Which versions have which operations is a precondition:
  - `WaitToReadAsync` and `TryRead` require a version other than `SimpleChannelImpl`;
  - `ReadAllAsync` requires `FinalChannelImpl`.
- `TryRead` is private in the middle versions. The model does not track visibility.
- The value a `ValueTask` wraps is the method's result. The `ValueTask`/`Task` machinery itself is left out.
- Exceptions thrown by the source enumerable of `SelectManualEnumerable` and of the iterators are left out: the model
  reads a source as a sequence. Exceptions thrown by the selector are modelled.
- `Current` before the first successful `MoveNext` is C#'s `default!`. It is modelled as `None`.
- `Environment.CurrentManagedThreadId` is a parameter (the creating thread and the calling thread).
- `SumLinq` (Benchmarks.cs:65-69) is left out. It calls the library's `Enumerable.Sum`, whose checked arithmetic is
  not part of this model.
- The benchmark attributes and the BenchmarkDotNet runner are left out.
- The benchmarks read the field `source` (Benchmarks.cs:12). In the model it is a parameter, and `BenchmarkSum`
  proves the result for the field's actual value.
- Benchmarks.SumOverEnumerable and Benchmarks.SumOverArray require a selector that never throws, which the
  benchmarks' `i => i + 2` satisfies. The exception path of `foreach` over a throwing selector is covered by the
  enumerator lemmas (`ArrayFaultKeepsPosition`, `EnumerableStaysDisposed`), not by the sums.
- The iterator-method state machines that the C# compiler generates for `SelectCompiler`'s `Impl`, `EnumerableImpl`
  and `ArrayImpl` are not modelled step by step. They are modelled by what they yield (`SelectAll`).
