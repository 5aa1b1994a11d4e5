/** The channel classes of ChannelsImpl/ChannelImpl.cs as one class whose
    `variant` selects which of the five versions it is. Each method is one
    block under the channel's lock, proved against ChannelModel. */
module ChannelImpl {
  import opened Outcomes
  import opened ChannelModel
  import ChannelProperties

  class Channel<T> {
    const variant: Variant
    var items: seq<T>                  // _items
    var readers: seq<Handle>           // _readers
    var waiting: Option<Handle>        // _waitingReaders
    var completed: bool                // _isCompleted
    var status: seq<Status<T>>         // the handles created so far

    function Model(): ChannelState<T>
      reads this
    {
      ChannelState(items, readers, waiting, completed, status)
    }

    ghost predicate Valid()
      reads this
    {
      ChannelModel.Valid(variant, Model())
    }

    constructor (variant: Variant)
      ensures this.variant == variant && Valid()
      ensures Model() == Empty()
    {
      this.variant := variant;
      items, readers, waiting, completed, status := [], [], None, false, [];
    }

    /** WriteAsync. BuggyChannelImpl resolves the waiting handle and then
        clears the field; the later versions clear it first. */
    method WriteAsync(x: T)
      requires Valid()
      modifies this
      ensures Valid()
      ensures Model() == Write(old(Model()), x)
    {
      ChannelProperties.WriteKeepsValid(variant, Model(), x);
      if readers != [] {
        var tcs := readers[0];
        readers := readers[1..];
        status := Resolve(status, tcs, HasValue(x));
      } else {
        items := items + [x];
        if variant == Buggy {
          if waiting.Some? {
            status := Resolve(status, waiting.value, HasBool(true));
            waiting := None;
          }
        } else {
          var waitingReaders := waiting;
          waiting := None;
          if waitingReaders.Some? {
            status := Resolve(status, waitingReaders.value, HasBool(true));
          }
        }
      }
    }

    /** ReadAsync. FinalChannelImpl first tries to dequeue without the lock
        and then repeats the attempt under it; run alone, that is the same
        single check. */
    method ReadAsync() returns (r: ReadOutcome<T>)
      requires Valid()
      modifies this
      ensures Valid()
      ensures ReadStep(Model(), r) == Read(old(Model()))
    {
      ChannelProperties.ReadKeepsValid(variant, Model());
      if items != [] {
        r := Item(items[0]);
        items := items[1..];
        return;
      }
      if completed {
        r := Faulted(ChannelCompleted);
        return;
      }
      var tcs := |status|;
      status := status + [Pending];
      readers := readers + [tcs];
      r := Suspended(tcs);
    }

    /** Complete: fails the queued reader handles one by one, oldest first,
        then resolves the armed waiting handle with false and clears it. */
    method Complete()
      requires Valid()
      modifies this
      ensures Valid()
      ensures Model() == ChannelModel.Complete(old(Model()))
    {
      ChannelProperties.CompleteKeepsValid(variant, Model());
      completed := true;
      while readers != []
        invariant FailAll(status, readers) == FailAll(old(status), old(readers))
        invariant items == old(items) && waiting == old(waiting) && completed
        decreases |readers|
      {
        var tcs := readers[0];
        readers := readers[1..];
        status := Resolve(status, tcs, Failed(ChannelCompleted));
      }
      var waitingReaders := waiting;
      if waitingReaders.Some? {
        status := Resolve(status, waitingReaders.value, HasBool(false));
      }
      waiting := None;
    }

    /** WaitToReadAsync (not in SimpleChannelImpl). */
    method WaitToReadAsync() returns (r: WaitOutcome)
      requires Valid() && HasReadiness(variant)
      modifies this
      ensures Valid()
      ensures WaitStep(Model(), r) == WaitToRead(old(Model()))
      ensures items == old(items) && readers == old(readers) && completed == old(completed)
      ensures r == Ready(true) <==> items != []
      ensures items == [] && completed ==> r == Ready(false)
      ensures items == [] && !completed ==> waiting.Some? && r == Armed(waiting.value) && status[waiting.value] == Pending
    {
      ChannelProperties.WaitToReadKeepsValid(variant, Model());
      if items != [] {
        return Ready(true);
      }
      if completed {
        return Ready(false);
      }
      if waiting.None? {
        waiting := Some(|status|);
        status := status + [Pending];
      }
      r := Armed(waiting.value);
    }

    /** TryRead (private in the middle versions, public in FinalChannelImpl,
        absent from SimpleChannelImpl). */
    method TryRead() returns (item: Option<T>)
      requires Valid() && HasReadiness(variant)
      modifies this
      ensures Valid()
      ensures TakeStep(Model(), item) == ChannelModel.TryRead(old(Model()))
      ensures old(items) != [] ==> item == Some(old(items)[0]) && items == old(items)[1..]
      ensures readers == old(readers) && completed == old(completed)
    {
      ChannelProperties.TryReadKeepsValid(variant, Model());
      if items != [] {
        item := Some(items[0]);
        items := items[1..];
      } else {
        item := None;
      }
    }

    /** ReadAllAsync of FinalChannelImpl: alternates WaitToReadAsync and
        TryRead while the wait reports true. Run alone it yields every
        buffered item in FIFO order and leaves every handle as it was; it then
        ends on a completed channel and otherwise suspends on the waiting
        handle, the one already armed if there is one. */
    method ReadAllAsync() returns (yielded: seq<T>, last: WaitOutcome)
      requires Valid() && variant == Final
      modifies this
      ensures Valid()
      ensures yielded == old(items) && items == []
      ensures readers == old(readers) && completed == old(completed)
      ensures completed ==> last == Ready(false)
      ensures !completed ==> waiting.Some? && last == Armed(waiting.value) && status[waiting.value] == Pending
      ensures Model() == WaitToRead(old(Model()).(items := [])).next
      ensures last == WaitToRead(old(Model()).(items := [])).outcome
    {
      yielded := [];
      while true
        invariant Valid()
        invariant old(items) == yielded + items
        invariant readers == old(readers) && waiting == old(waiting)
        invariant completed == old(completed) && status == old(status)
        decreases |items|
      {
        ghost var m := Model();
        last := WaitToReadAsync();
        if last != Ready(true) {
          assert m.items == [] && m == old(Model()).(items := []);
          ChannelProperties.WaitOnEmpty(variant, m);
          break;
        }
        assert Model() == m;
        var item := TryRead();
        assert item == Some(m.items[0]) && items == m.items[1..];
        MoveFront(yielded, m.items);
        yielded := yielded + [item.value];
      }
    }
  }

  /** Moving the front element of `rest` to the back of `done` keeps their
      concatenation. */
  lemma MoveFront<T>(done: seq<T>, rest: seq<T>)
    requires rest != []
    ensures done + rest == (done + [rest[0]]) + rest[1..]
  {
    assert rest == [rest[0]] + rest[1..];
  }
}
