/** What the channel's locked operations promise, proved about ChannelModel:
    the invariant each keeps, who receives each value, that a handle is
    resolved at most once, that no value is lost or duplicated, what
    completion does, and why the first waiting-handle version livelocks. */
module ChannelProperties {
  import opened Outcomes
  import opened ChannelModel

  /* ---------------------------------------------------------------- */
  /* The invariant                                                     */
  /* ---------------------------------------------------------------- */

  lemma EmptyIsValid<T>(v: Variant)
    ensures Valid(v, Empty<T>())
  {
  }

  lemma WriteKeepsValid<T>(v: Variant, s: ChannelState<T>, x: T)
    requires Valid(v, s)
    ensures Valid(v, Write(s, x))
  {
    var t := Write(s, x);
    if s.readers != [] {
      forall i, j | 0 <= i < j < |t.readers| ensures t.readers[i] != t.readers[j] {
        assert t.readers[i] == s.readers[i + 1] && t.readers[j] == s.readers[j + 1];
      }
      forall i | 0 <= i < |t.readers| ensures t.readers[i] < |t.status| && t.status[t.readers[i]] == Pending {
        assert t.readers[i] == s.readers[i + 1];
        assert s.readers[i + 1] != s.readers[0];
      }
      if t.waiting.Some? {
        assert s.waiting.value !in s.readers;
        assert t.waiting.value != s.readers[0];
      }
    }
  }

  lemma ReadKeepsValid<T>(v: Variant, s: ChannelState<T>)
    requires Valid(v, s)
    ensures Valid(v, Read(s).next)
  {
    var t := Read(s).next;
    if s.items == [] && !s.completed {
      var h := |s.status|;
      forall i | 0 <= i < |t.readers| ensures t.readers[i] < |t.status| && t.status[t.readers[i]] == Pending {
        if i < |s.readers| { assert t.readers[i] == s.readers[i]; }
      }
      forall i, j | 0 <= i < j < |t.readers| ensures t.readers[i] != t.readers[j] {
        if j < |s.readers| {
          assert t.readers[i] == s.readers[i] && t.readers[j] == s.readers[j];
        } else {
          assert t.readers[i] == s.readers[i] < |s.status|;
        }
      }
      if t.waiting.Some? {
        assert t.waiting.value < h;
        assert t.waiting.value !in s.readers;
      }
    }
  }

  lemma CompleteKeepsValid<T>(v: Variant, s: ChannelState<T>)
    requires Valid(v, s)
    ensures Valid(v, Complete(s))
  {
  }

  lemma WaitToReadKeepsValid<T>(v: Variant, s: ChannelState<T>)
    requires Valid(v, s) && HasReadiness(v)
    ensures Valid(v, WaitToRead(s).next)
  {
    var t := WaitToRead(s).next;
    if s.items == [] && !s.completed && s.waiting.None? {
      forall i | 0 <= i < |t.readers| ensures t.status[t.readers[i]] == Pending && t.readers[i] != |s.status| {
        assert t.readers[i] == s.readers[i] < |s.status|;
      }
    }
  }

  lemma TryReadKeepsValid<T>(v: Variant, s: ChannelState<T>)
    requires Valid(v, s)
    ensures Valid(v, TryRead(s).next)
  {
  }

  /* ---------------------------------------------------------------- */
  /* Who receives a written value                                      */
  /* ---------------------------------------------------------------- */

  /** WriteAsync gives the value to the oldest pending reader when there is
      one, leaving the buffer and the waiting handle alone; otherwise it
      buffers the value at the back and resolves the armed waiting handle,
      if any, with true. No other handle changes. */
  lemma WriteHandsOverOrBuffers<T>(v: Variant, s: ChannelState<T>, x: T)
    requires Valid(v, s)
    ensures var t := Write(s, x);
      && |t.status| == |s.status| && t.completed == s.completed
      && (s.readers != [] ==>
            && t.status[s.readers[0]] == HasValue(x)
            && t.readers == s.readers[1..] && t.items == s.items && t.waiting == s.waiting
            && (forall h :: 0 <= h < |s.status| && h != s.readers[0] ==> t.status[h] == s.status[h]))
      && (s.readers == [] ==>
            && t.items == s.items + [x] && t.readers == [] && t.waiting == None
            && (s.waiting.Some? ==> t.status[s.waiting.value] == HasBool(true))
            && (forall h :: 0 <= h < |s.status| && Some(h) != s.waiting ==> t.status[h] == s.status[h]))
  {
  }

  /** ReadAsync takes the oldest buffered value; on a completed empty channel
      it fails and changes nothing; otherwise it queues exactly one new
      pending reader handle at the back. */
  lemma ReadTakesOrQueues<T>(v: Variant, s: ChannelState<T>)
    requires Valid(v, s)
    ensures var r := Read(s);
      && (s.items != [] ==> r.outcome == Item(s.items[0]) && r.next.items == s.items[1..]
                            && r.next.readers == s.readers && r.next.status == s.status)
      && (s.items == [] && s.completed ==> r == ReadStep(s, Faulted(ChannelCompleted)))
      && (s.items == [] && !s.completed ==>
            && r.outcome.Suspended? && r.outcome.handle !in s.readers
            && r.next.readers == s.readers + [r.outcome.handle]
            && r.next.status == s.status + [Pending] && r.next.items == [])
  {
    if s.items == [] && !s.completed {
      assert forall i :: 0 <= i < |s.readers| ==> s.readers[i] < |s.status|;
    }
  }

  /* ---------------------------------------------------------------- */
  /* Handles are resolved at most once                                 */
  /* ---------------------------------------------------------------- */

  /** `t` extends `s`, and every handle resolved in `s` is resolved the same
      way in `t`. */
  ghost predicate Settles<T>(s: seq<Status<T>>, t: seq<Status<T>>) {
    |s| <= |t| && forall h :: 0 <= h < |s| && s[h] != Pending ==> t[h] == s[h]
  }

  lemma {:induction false} FailAllResolves<T>(status: seq<Status<T>>, hs: seq<Handle>, h: Handle)
    requires forall i :: 0 <= i < |hs| ==> hs[i] < |status|
    ensures |FailAll(status, hs)| == |status|
    ensures h < |status| ==> FailAll(status, hs)[h] == if h in hs then Failed(ChannelCompleted) else status[h]
    decreases |hs|
  {
    if hs != [] {
      var next := Resolve(status, hs[0], Failed(ChannelCompleted));
      assert forall i :: 0 <= i < |hs[1..]| ==> hs[1..][i] == hs[i + 1];
      FailAllResolves(next, hs[1..], h);
      assert h in hs <==> h == hs[0] || h in hs[1..];
    }
  }

  /** Complete fails every queued reader handle, resolves the armed waiting
      handle with false, empties both, keeps the buffered items and changes
      no other handle. */
  lemma CompleteResolvesOutstanding<T>(v: Variant, s: ChannelState<T>)
    requires Valid(v, s)
    ensures var t := Complete(s);
      && t.completed && t.readers == [] && t.waiting == None && t.items == s.items
      && |t.status| == |s.status|
      && (forall h :: 0 <= h < |s.status| ==>
            t.status[h] == if h in s.readers then Failed(ChannelCompleted)
                           else if s.waiting == Some(h) then HasBool(false)
                           else s.status[h])
  {
    var failed := FailAll(s.status, s.readers);
    var t := Complete(s);
    FailAllResolves(s.status, s.readers, 0);
    assert t.status == if s.waiting.Some? then Resolve(failed, s.waiting.value, HasBool(false)) else failed;
    forall h | 0 <= h < |s.status|
      ensures t.status[h] == if h in s.readers then Failed(ChannelCompleted)
                             else if s.waiting == Some(h) then HasBool(false)
                             else s.status[h]
    {
      FailAllResolves(s.status, s.readers, h);
      if s.waiting == Some(h) {
        assert h !in s.readers;
      } else if s.waiting.Some? {
        assert t.status[h] == failed[h];
      }
    }
  }

  /** Completing twice is the same as completing once. */
  lemma CompleteIdempotent<T>(v: Variant, s: ChannelState<T>)
    requires Valid(v, s)
    ensures Complete(Complete(s)) == Complete(s)
  {
  }

  /** On a completed channel ReadAsync and WaitToReadAsync answer at once and
      never queue a handle. */
  lemma CompletedChannelAnswersAtOnce<T>(v: Variant, s: ChannelState<T>)
    requires Valid(v, s) && s.completed
    ensures Read(s).outcome == if s.items != [] then Item(s.items[0]) else Faulted(ChannelCompleted)
    ensures Read(s).next.readers == [] && Read(s).next.waiting == None
    ensures WaitToRead(s) == WaitStep(s, Ready(s.items != []))
  {
  }

  lemma ResolvePendingSettles<T>(status: seq<Status<T>>, h: Handle, r: Status<T>)
    requires h < |status| && status[h] == Pending
    ensures Settles(status, Resolve(status, h, r))
  {
  }

  /* ---------------------------------------------------------------- */
  /* Runs of operations                                                */
  /* ---------------------------------------------------------------- */

  datatype Op<T> = WriteOp(x: T) | ReadOp | CompleteOp | WaitOp | TryReadOp

  datatype Observation<T> =
    | Wrote
    | ReadGave(read: ReadOutcome<T>)
    | Completed
    | WaitGave(wait: WaitOutcome)
    | TryGave(item: Option<T>)

  /** The operations the version `v` has. */
  predicate Allowed<T>(v: Variant, op: Op<T>) {
    HasReadiness(v) || !(op.WaitOp? || op.TryReadOp?)
  }

  datatype Applied<T> = Applied(next: ChannelState<T>, observed: Observation<T>)

  function Apply<T>(s: ChannelState<T>, op: Op<T>): Applied<T> {
    match op
    case WriteOp(x) => Applied(Write(s, x), Wrote)
    case ReadOp => var r := Read(s); Applied(r.next, ReadGave(r.outcome))
    case CompleteOp => Applied(Complete(s), Completed)
    case WaitOp => var w := WaitToRead(s); Applied(w.next, WaitGave(w.outcome))
    case TryReadOp => var t := TryRead(s); Applied(t.next, TryGave(t.item))
  }

  datatype Trace<T> = Trace(last: ChannelState<T>, observed: seq<Observation<T>>)

  /** The operations `ops`, one after the other, each under the lock. */
  function Run<T>(s: ChannelState<T>, ops: seq<Op<T>>): Trace<T>
    decreases |ops|
  {
    if ops == [] then Trace(s, [])
    else
      var a := Apply(s, ops[0]);
      var rest := Run(a.next, ops[1..]);
      Trace(rest.last, [a.observed] + rest.observed)
  }

  lemma ApplyKeepsValid<T>(v: Variant, s: ChannelState<T>, op: Op<T>)
    requires Valid(v, s) && Allowed(v, op)
    ensures Valid(v, Apply(s, op).next)
  {
    match op
    case WriteOp(x) => WriteKeepsValid(v, s, x);
    case ReadOp => ReadKeepsValid(v, s);
    case CompleteOp => CompleteKeepsValid(v, s);
    case WaitOp => WaitToReadKeepsValid(v, s);
    case TryReadOp => TryReadKeepsValid(v, s);
  }

  /** Every run of allowed operations keeps the invariant. */
  lemma {:induction false} RunKeepsValid<T>(v: Variant, s: ChannelState<T>, ops: seq<Op<T>>)
    requires Valid(v, s)
    requires forall i :: 0 <= i < |ops| ==> Allowed(v, ops[i])
    ensures Valid(v, Run(s, ops).last)
    decreases |ops|
  {
    if ops != [] {
      ApplyKeepsValid(v, s, ops[0]);
      assert forall i :: 0 <= i < |ops[1..]| ==> ops[1..][i] == ops[i + 1];
      RunKeepsValid(v, Apply(s, ops[0]).next, ops[1..]);
    }
  }

  /** The handles an operation resolves: the reader handed a value or the
      waiting handle signalled by a write; every queued reader and the
      waiting handle on completion. */
  function Targets<T>(s: ChannelState<T>, op: Op<T>): set<Handle> {
    match op
    case WriteOp(_) =>
      if s.readers != [] then {s.readers[0]} else if s.waiting.Some? then {s.waiting.value} else {}
    case CompleteOp =>
      (set h | h in s.readers) + (if s.waiting.Some? then {s.waiting.value} else {})
    case _ => {}
  }

  /** One operation resolves exactly its targets, each of them pending
      before (SetResult and SetException never hit a completed handle), and
      leaves every other handle as it was. */
  lemma ApplySettles<T>(v: Variant, s: ChannelState<T>, op: Op<T>)
    requires Valid(v, s) && Allowed(v, op)
    ensures Settles(s.status, Apply(s, op).next.status)
    ensures forall h :: h in Targets(s, op) ==>
      h < |s.status| && s.status[h] == Pending && Apply(s, op).next.status[h] != Pending
    ensures forall h :: 0 <= h < |s.status| && h !in Targets(s, op) ==> Apply(s, op).next.status[h] == s.status[h]
  {
    match op
    case WriteOp(x) =>
      if s.readers != [] {
        ResolvePendingSettles(s.status, s.readers[0], HasValue(x));
      } else if s.waiting.Some? {
        ResolvePendingSettles(s.status, s.waiting.value, HasBool(true));
      }
    case ReadOp =>
    case CompleteOp =>
      CompleteResolvesOutstanding(v, s);
    case WaitOp =>
    case TryReadOp =>
  }

  /** No run of operations changes a handle that is already resolved: every
      handle is resolved at most once. */
  lemma {:induction false} RunSettles<T>(v: Variant, s: ChannelState<T>, ops: seq<Op<T>>)
    requires Valid(v, s)
    requires forall i :: 0 <= i < |ops| ==> Allowed(v, ops[i])
    ensures Settles(s.status, Run(s, ops).last.status)
    decreases |ops|
  {
    if ops != [] {
      ApplySettles(v, s, ops[0]);
      ApplyKeepsValid(v, s, ops[0]);
      assert forall i :: 0 <= i < |ops[1..]| ==> ops[1..][i] == ops[i + 1];
      RunSettles(v, Apply(s, ops[0]).next, ops[1..]);
    }
  }

  /** Running `ops` is running its first `k` operations, then the rest. */
  lemma {:induction false} RunSplit<T>(s: ChannelState<T>, ops: seq<Op<T>>, k: nat)
    requires k <= |ops|
    ensures Run(s, ops).last == Run(Run(s, ops[..k]).last, ops[k..]).last
    decreases k
  {
    if k == 0 {
      assert ops[..0] == [] && ops[0..] == ops;
    } else {
      assert ops[..k][0] == ops[0];
      assert ops[..k][1..] == ops[1..][..k - 1];
      assert ops[k..] == ops[1..][k - 1..];
      RunSplit(Apply(s, ops[0]).next, ops[1..], k - 1);
    }
  }

  /** The state after any prefix of a run: valid, and every handle resolved
      by then keeps its status to the end of the run. */
  lemma RunSettlesAfterEveryStep<T>(v: Variant, s: ChannelState<T>, ops: seq<Op<T>>, k: nat)
    requires Valid(v, s)
    requires forall i :: 0 <= i < |ops| ==> Allowed(v, ops[i])
    requires k <= |ops|
    ensures Valid(v, Run(s, ops[..k]).last)
    ensures Settles(Run(s, ops[..k]).last.status, Run(s, ops).last.status)
  {
    var p := Run(s, ops[..k]).last;
    assert forall i :: 0 <= i < |ops[..k]| ==> ops[..k][i] == ops[i];
    RunKeepsValid(v, s, ops[..k]);
    assert forall i :: 0 <= i < |ops[k..]| ==> ops[k..][i] == ops[k + i];
    RunSplit(s, ops, k);
    RunSettles(v, p, ops[k..]);
  }

  /** At every step of a run, the operation resolves only handles that are
      still pending: no handle is ever resolved twice. */
  lemma RunResolvesOnlyPending<T>(v: Variant, s: ChannelState<T>, ops: seq<Op<T>>, k: nat)
    requires Valid(v, s)
    requires forall i :: 0 <= i < |ops| ==> Allowed(v, ops[i])
    requires k < |ops|
    ensures var p := Run(s, ops[..k]).last;
      forall h :: h in Targets(p, ops[k]) ==> h < |p.status| && p.status[h] == Pending
  {
    RunSettlesAfterEveryStep(v, s, ops, k);
    ApplySettles(v, Run(s, ops[..k]).last, ops[k]);
  }

  /** Every pending handle is still reachable by the channel: it is a queued
      reader or the armed waiting handle, so a later write or Complete
      resolves it. */
  ghost predicate NoOrphan<T>(s: ChannelState<T>) {
    forall h :: 0 <= h < |s.status| && s.status[h] == Pending ==> h in s.readers || s.waiting == Some(h)
  }

  /** Every operation keeps every pending handle reachable. */
  lemma ApplyNoOrphan<T>(v: Variant, s: ChannelState<T>, op: Op<T>)
    requires Valid(v, s) && NoOrphan(s)
    ensures NoOrphan(Apply(s, op).next)
  {
    var t := Apply(s, op).next;
    match op
    case WriteOp(x) =>
      if s.readers != [] {
        assert s.readers == [s.readers[0]] + s.readers[1..];
        forall h | 0 <= h < |t.status| && t.status[h] == Pending
          ensures h in t.readers || t.waiting == Some(h)
        {
          assert h != s.readers[0];
        }
      }
    case CompleteOp =>
      CompleteResolvesOutstanding(v, s);
    case ReadOp =>
    case WaitOp =>
    case TryReadOp =>
  }

  /** Every run of allowed operations keeps every pending handle reachable. */
  lemma {:induction false} RunNoOrphan<T>(v: Variant, s: ChannelState<T>, ops: seq<Op<T>>)
    requires Valid(v, s) && NoOrphan(s)
    requires forall i :: 0 <= i < |ops| ==> Allowed(v, ops[i])
    ensures NoOrphan(Run(s, ops).last)
    decreases |ops|
  {
    if ops != [] {
      ApplyKeepsValid(v, s, ops[0]);
      ApplyNoOrphan(v, s, ops[0]);
      assert forall i :: 0 <= i < |ops[1..]| ==> ops[1..][i] == ops[i + 1];
      RunNoOrphan(v, Apply(s, ops[0]).next, ops[1..]);
    }
  }

  /** Every handle is resolved at least once: whatever a channel has been
      through, once it is completed no handle it ever created is left
      pending. */
  lemma CompletedLeavesNothingPending<T>(v: Variant, ops: seq<Op<T>>)
    requires forall i :: 0 <= i < |ops| ==> Allowed(v, ops[i])
    ensures var t := Complete(Run(Empty(), ops).last);
      forall h :: 0 <= h < |t.status| ==> t.status[h] != Pending
  {
    var s: ChannelState<T> := Empty();
    EmptyIsValid<T>(v);
    RunKeepsValid(v, s, ops);
    RunNoOrphan(v, s, ops);
    CompleteResolvesOutstanding(v, Run(s, ops).last);
  }

  /* ---------------------------------------------------------------- */
  /* No value is lost or duplicated                                    */
  /* ---------------------------------------------------------------- */

  function Carried<T>(st: Status<T>): multiset<T> {
    if st.HasValue? then multiset{st.value} else multiset{}
  }

  /** The values handed to reader handles. */
  function Delivered<T>(status: seq<Status<T>>): multiset<T> {
    if status == [] then multiset{} else Delivered(status[..|status| - 1]) + Carried(status[|status| - 1])
  }

  /** The values the channel is responsible for: buffered or handed over. */
  function Held<T>(s: ChannelState<T>): multiset<T> {
    multiset(s.items) + Delivered(s.status)
  }

  /** The value an operation brings into the channel. */
  function Given<T>(op: Op<T>): multiset<T> {
    if op.WriteOp? then multiset{op.x} else multiset{}
  }

  /** The value an operation returns directly to its caller. */
  function Taken<T>(o: Observation<T>): multiset<T> {
    match o
    case ReadGave(Item(x)) => multiset{x}
    case TryGave(Some(x)) => multiset{x}
    case _ => multiset{}
  }

  function Written<T>(ops: seq<Op<T>>): multiset<T>
    decreases |ops|
  {
    if ops == [] then multiset{} else Given(ops[0]) + Written(ops[1..])
  }

  /** The values returned directly to callers of ReadAsync and TryRead. */
  function Received<T>(obs: seq<Observation<T>>): multiset<T>
    decreases |obs|
  {
    if obs == [] then multiset{} else Taken(obs[0]) + Received(obs[1..])
  }

  lemma {:induction false} DeliveredResolve<T>(status: seq<Status<T>>, h: Handle, r: Status<T>)
    requires h < |status|
    ensures Delivered(Resolve(status, h, r)) + Carried(status[h]) == Delivered(status) + Carried(r)
    decreases |status|
  {
    var n := |status|;
    var u := Resolve(status, h, r);
    assert u == status[h := r];
    var front := status[..n - 1];
    assert Delivered(status) == Delivered(front) + Carried(status[n - 1]);
    if h == n - 1 {
      assert u[..n - 1] == front;
      assert Delivered(u) == Delivered(front) + Carried(r);
      AddToBoth(Delivered(front), multiset{}, Delivered(front), multiset{}, Carried(r));
      Swap(Delivered(front), Carried(r), Carried(status[h]));
    } else {
      var resolved := Resolve(front, h, r);
      assert u[..n - 1] == resolved;
      assert Delivered(u) == Delivered(resolved) + Carried(status[n - 1]);
      assert front[h] == status[h];
      DeliveredResolve(front, h, r);
      AddToBoth(Delivered(resolved), Carried(status[h]), Delivered(front), Carried(r), Carried(status[n - 1]));
    }
  }

  lemma Swap<T>(a: multiset<T>, b: multiset<T>, c: multiset<T>)
    ensures a + b + c == a + c + b
  {
    forall x ensures (a + b + c)[x] == (a + c + b)[x] {
    }
  }

  lemma AddToBoth<T>(a: multiset<T>, b: multiset<T>, c: multiset<T>, d: multiset<T>, e: multiset<T>)
    requires a + b == c + d
    ensures a + e + b == c + e + d
  {
    forall x ensures (a + e + b)[x] == (c + e + d)[x] {
      assert (a + b)[x] == (c + d)[x];
    }
  }

  lemma DeliveredAppendPending<T>(status: seq<Status<T>>)
    ensures Delivered(status + [Pending]) == Delivered(status)
  {
    assert (status + [Pending])[..|status|] == status;
  }

  /** Resolving a pending handle with anything but a value leaves the
      delivered values alone. */
  lemma ResolvePendingKeepsDelivered<T>(status: seq<Status<T>>, h: Handle, r: Status<T>)
    requires h < |status| && status[h] == Pending && !r.HasValue?
    ensures Delivered(Resolve(status, h, r)) == Delivered(status)
  {
    DeliveredResolve(status, h, r);
    var a, b := Delivered(Resolve(status, h, r)), Delivered(status);
    assert a + multiset{} == b + multiset{};
    assert a + multiset{} == a && b + multiset{} == b;
  }

  lemma {:induction false} FailAllKeepsDelivered<T>(status: seq<Status<T>>, hs: seq<Handle>)
    requires forall i :: 0 <= i < |hs| ==> hs[i] < |status| && status[hs[i]] == Pending
    requires forall i, j :: 0 <= i < j < |hs| ==> hs[i] != hs[j]
    ensures Delivered(FailAll(status, hs)) == Delivered(status)
    decreases |hs|
  {
    if hs != [] {
      var next := Resolve(status, hs[0], Failed(ChannelCompleted));
      ResolvePendingKeepsDelivered(status, hs[0], Failed(ChannelCompleted));
      var tail := hs[1..];
      assert forall i :: 0 <= i < |tail| ==> tail[i] == hs[i + 1];
      assert forall i :: 0 <= i < |tail| ==> tail[i] != hs[0];
      FailAllKeepsDelivered(next, tail);
    }
  }

  /** A write with a reader queued hands the value to that reader's handle. */
  lemma HandOverConserves<T>(s: ChannelState<T>, x: T)
    requires s.readers != [] && s.readers[0] < |s.status| && s.status[s.readers[0]] == Pending
    ensures Held(Write(s, x)) == Held(s) + multiset{x}
  {
    var t := Write(s, x);
    var h := s.readers[0];
    DeliveredResolve(s.status, h, HasValue(x));
    assert Carried(s.status[h]) == multiset{};
    NothingAdded(Delivered(t.status));
    assert Delivered(t.status) == Delivered(s.status) + multiset{x};
    assert t.items == s.items;
  }

  /** A write with no reader queued buffers the value. */
  lemma BufferConserves<T>(s: ChannelState<T>, x: T)
    requires s.readers == []
    requires s.waiting.Some? ==> s.waiting.value < |s.status| && s.status[s.waiting.value] == Pending
    ensures Held(Write(s, x)) == Held(s) + multiset{x}
  {
    var t := Write(s, x);
    if s.waiting.Some? {
      ResolvePendingKeepsDelivered(s.status, s.waiting.value, HasBool(true));
    }
    assert Delivered(t.status) == Delivered(s.status);
    assert t.items == s.items + [x];
    assert multiset(t.items) == multiset(s.items) + multiset{x};
  }

  lemma WriteConserves<T>(v: Variant, s: ChannelState<T>, x: T)
    requires Valid(v, s)
    ensures Held(Write(s, x)) == Held(s) + multiset{x}
    ensures Held(s) + Given(WriteOp(x)) == Held(Apply(s, WriteOp(x)).next) + Taken(Apply(s, WriteOp(x)).observed)
  {
    var t := Write(s, x);
    if s.readers != [] {
      HandOverConserves(s, x);
    } else {
      BufferConserves(s, x);
    }
    var a := Apply(s, WriteOp(x));
    assert a.next == t && Taken(a.observed) == multiset{} && Given(WriteOp(x)) == multiset{x};
    NothingAdded(Held(t));
  }

  lemma ReadConserves<T>(s: ChannelState<T>)
    ensures Held(s) == Held(Read(s).next) + Taken(ReadGave(Read(s).outcome))
    ensures Held(s) + Given(ReadOp) == Held(Apply(s, ReadOp).next) + Taken(Apply(s, ReadOp).observed)
  {
    var r := Read(s);
    if s.items != [] {
      var x, rest := s.items[0], s.items[1..];
      assert s.items == [x] + rest;
      assert r.next.items == rest && r.next.status == s.status && r.outcome == Item(x);
      assert multiset(s.items) == multiset(rest) + multiset{x};
    } else if !s.completed {
      DeliveredAppendPending(s.status);
      assert Taken(ReadGave(r.outcome)) == multiset{};
    }
    var a := Apply(s, ReadOp);
    assert a.next == r.next && a.observed == ReadGave(r.outcome) && Given<T>(ReadOp) == multiset{};
    NothingAdded(Held(s));
  }

  lemma CompleteConserves<T>(v: Variant, s: ChannelState<T>)
    requires Valid(v, s)
    ensures Held(Complete(s)) == Held(s)
    ensures Held(s) + Given(CompleteOp) == Held(Apply(s, CompleteOp).next) + Taken(Apply(s, CompleteOp).observed)
  {
    FailAllKeepsDelivered(s.status, s.readers);
    if s.waiting.Some? {
      var failed := FailAll(s.status, s.readers);
      FailAllResolves(s.status, s.readers, s.waiting.value);
      ResolvePendingKeepsDelivered(failed, s.waiting.value, HasBool(false));
    }
    var a := Apply(s, CompleteOp);
    assert a.next == Complete(s) && Taken(a.observed) == multiset{} && Given<T>(CompleteOp) == multiset{};
    NothingAdded(Held(s));
    NothingAdded(Held(a.next));
  }

  lemma WaitToReadConserves<T>(s: ChannelState<T>)
    ensures Held(WaitToRead(s).next) == Held(s)
    ensures Held(s) + Given(WaitOp) == Held(Apply(s, WaitOp).next) + Taken(Apply(s, WaitOp).observed)
  {
    if s.items == [] && !s.completed && s.waiting.None? {
      DeliveredAppendPending(s.status);
    }
    var a := Apply(s, WaitOp);
    assert a.next == WaitToRead(s).next && Taken(a.observed) == multiset{} && Given<T>(WaitOp) == multiset{};
    NothingAdded(Held(s));
    NothingAdded(Held(a.next));
  }

  lemma TryReadConserves<T>(s: ChannelState<T>)
    ensures Held(s) == Held(TryRead(s).next) + Taken(TryGave(TryRead(s).item))
    ensures Held(s) + Given(TryReadOp) == Held(Apply(s, TryReadOp).next) + Taken(Apply(s, TryReadOp).observed)
  {
    var t := TryRead(s);
    if s.items != [] {
      var x, rest := s.items[0], s.items[1..];
      assert s.items == [x] + rest;
      assert t.next.items == rest && t.next.status == s.status && t.item == Some(x);
      assert multiset(s.items) == multiset(rest) + multiset{x};
    } else {
      assert t.next == s && Taken(TryGave(t.item)) == multiset{};
    }
    var a := Apply(s, TryReadOp);
    assert a.next == t.next && a.observed == TryGave(t.item) && Given<T>(TryReadOp) == multiset{};
    NothingAdded(Held(s));
  }

  /** One operation neither creates nor destroys a value: what the channel
      held plus what was written equals what it holds plus what was returned. */
  lemma ApplyConserves<T>(v: Variant, s: ChannelState<T>, op: Op<T>)
    requires Valid(v, s)
    ensures Held(s) + Given(op) == Held(Apply(s, op).next) + Taken(Apply(s, op).observed)
  {
    match op
    case WriteOp(x) => WriteConserves(v, s, x);
    case ReadOp => ReadConserves(s);
    case CompleteOp => CompleteConserves(v, s);
    case WaitOp => WaitToReadConserves(s);
    case TryReadOp => TryReadConserves(s);
  }

  lemma NothingAdded<T>(m: multiset<T>)
    ensures m + multiset{} == m
  {
  }

  /** Over any run of operations every written value is either returned to
      exactly one reader, handed to exactly one reader handle, or still
      buffered: none is lost and none is duplicated. */
  lemma {:induction false} NoValueLostOrDuplicated<T>(v: Variant, s: ChannelState<T>, ops: seq<Op<T>>)
    requires Valid(v, s)
    requires forall i :: 0 <= i < |ops| ==> Allowed(v, ops[i])
    ensures Held(s) + Written(ops) == Held(Run(s, ops).last) + Received(Run(s, ops).observed)
    decreases |ops|
  {
    if ops != [] {
      var a := Apply(s, ops[0]);
      var rest := Run(a.next, ops[1..]);
      ApplyConserves(v, s, ops[0]);
      ApplyKeepsValid(v, s, ops[0]);
      assert forall i :: 0 <= i < |ops[1..]| ==> ops[1..][i] == ops[i + 1];
      NoValueLostOrDuplicated(v, a.next, ops[1..]);
      assert ([a.observed] + rest.observed)[1..] == rest.observed;
      var t := Run(s, ops);
      assert t.last == rest.last;
      assert Received(t.observed) == Taken(a.observed) + Received(rest.observed);
      assert Written(ops) == Given(ops[0]) + Written(ops[1..]);
      Regroup(Held(s), Given(ops[0]), Written(ops[1..]), Held(a.next), Taken(a.observed),
              Held(rest.last), Received(rest.observed));
    }
  }

  /** a + g == n + t and n + w == l + r give a + (g + w) == l + (t + r). */
  lemma Regroup<T>(a: multiset<T>, g: multiset<T>, w: multiset<T>, n: multiset<T>, t: multiset<T>,
                   l: multiset<T>, r: multiset<T>)
    requires a + g == n + t && n + w == l + r
    ensures a + (g + w) == l + (t + r)
  {
    forall x ensures (a + (g + w))[x] == (l + (t + r))[x] {
      assert (a + g)[x] == (n + t)[x] && (n + w)[x] == (l + r)[x];
    }
  }

  /* ---------------------------------------------------------------- */
  /* FIFO: produce, complete, then consume                             */
  /* ---------------------------------------------------------------- */

  function WriteAll<T>(s: ChannelState<T>, xs: seq<T>): ChannelState<T>
    decreases |xs|
  {
    if xs == [] then s else WriteAll(Write(s, xs[0]), xs[1..])
  }

  /** The outcomes of `n` successive ReadAsync calls. */
  function Reads<T>(s: ChannelState<T>, n: nat): seq<ReadOutcome<T>>
    decreases n
  {
    if n == 0 then [] else [Read(s).outcome] + Reads(Read(s).next, n - 1)
  }

  /** With no reader waiting, writes are buffered in the order written. */
  lemma {:induction false} WriteAllBuffers<T>(v: Variant, s: ChannelState<T>, xs: seq<T>)
    requires Valid(v, s) && s.readers == []
    ensures WriteAll(s, xs).items == s.items + xs
    ensures WriteAll(s, xs).readers == [] && Valid(v, WriteAll(s, xs))
    decreases |xs|
  {
    if xs != [] {
      WriteKeepsValid(v, s, xs[0]);
      WriteAllBuffers(v, Write(s, xs[0]), xs[1..]);
      assert s.items + xs == (s.items + [xs[0]]) + xs[1..];
    }
  }

  /** On a completed channel successive reads return the buffered items in
      FIFO order and then the completion failure. */
  lemma {:induction false} CompletedDrainsInOrder<T>(v: Variant, s: ChannelState<T>)
    requires Valid(v, s) && s.completed
    ensures var r := Reads(s, |s.items| + 1);
      && |r| == |s.items| + 1
      && (forall i :: 0 <= i < |s.items| ==> r[i] == Item(s.items[i]))
      && r[|s.items|] == Faulted(ChannelCompleted)
    decreases |s.items|
  {
    if s.items != [] {
      var t := Read(s).next;
      ReadKeepsValid(v, s);
      CompletedDrainsInOrder(v, t);
      assert t.items == s.items[1..];
    }
  }

  /** N writes into a fresh channel, then Complete, then N + 1 reads: the
      reads see the N values in the order written, then the failure. */
  lemma ProduceThenConsume<T>(v: Variant, xs: seq<T>)
    ensures var r := Reads(Complete(WriteAll(Empty(), xs)), |xs| + 1);
      && |r| == |xs| + 1
      && (forall i :: 0 <= i < |xs| ==> r[i] == Item(xs[i]))
      && r[|xs|] == Faulted(ChannelCompleted)
  {
    EmptyIsValid<T>(v);
    WriteAllBuffers(v, Empty(), xs);
    CompleteKeepsValid(v, WriteAll(Empty(), xs));
    CompletedDrainsInOrder(v, Complete(WriteAll(Empty(), xs)));
  }

  /* ---------------------------------------------------------------- */
  /* The shared waiting handle and the livelock                        */
  /* ---------------------------------------------------------------- */

  /** Waiters that call WaitToReadAsync before anything arrives all get the
      same handle, so all observe the same outcome. */
  lemma WaitersShareOneHandle<T>(v: Variant, s: ChannelState<T>)
    requires Valid(v, s) && HasReadiness(v) && s.items == [] && !s.completed
    ensures var first := WaitToRead(s);
      && first.outcome.Armed?
      && WaitToRead(first.next) == WaitStep(first.next, first.outcome)
      && first.next.status[first.outcome.handle] == Pending
  {
  }

  /** WaitToReadAsync on an empty channel: false at once when completed;
      otherwise the waiting handle, pending, and the armed one if there is
      one (`??=`). */
  lemma WaitOnEmpty<T>(v: Variant, s: ChannelState<T>)
    requires Valid(v, s) && s.items == []
    ensures var w := WaitToRead(s);
      && w.next.items == [] && w.next.readers == s.readers && w.next.completed == s.completed
      && (s.completed ==> w.outcome == Ready(false))
      && (!s.completed ==>
            && w.next.waiting.Some? && w.outcome == Armed(w.next.waiting.value)
            && w.next.status[w.next.waiting.value] == Pending)
      && (s.waiting.Some? ==> w.next.waiting == s.waiting && w.next.status == s.status)
  {
  }

  /** Once WriteAsync returns, every version is in the same state. */
  lemma SignalPointBeforeReturn<T>(v: Variant, s: ChannelState<T>, x: T)
    requires WriteSignalPoint(v, s, x).Some?
    ensures WriteSignalPoint(v, s, x).value.(waiting := None) == Write(s, x)
  {
  }

  /** A resumed consumer sees the state WriteAsync leaves behind in every
      version except BuggyChannelImpl. */
  lemma OnlyBuggyResumesEarly<T>(v: Variant, s: ChannelState<T>, x: T)
    requires WriteSignalPoint(v, s, x).Some?
    ensures ResumedState(v, s, x).Some?
    ensures ResumedState(v, s, x).value == Write(s, x) <==> v != Buggy
  {
    SignalPointBeforeReturn(v, s, x);
  }

  /** From any state satisfying the invariant, the consumer loop takes the
      buffered items in FIFO order, one per round, and then stops: a round
      that reports "available" always yields an item. */
  lemma {:induction false} ConsumerLoopProgresses<T>(v: Variant, s: ChannelState<T>, rounds: nat)
    requires Valid(v, s) && HasReadiness(v)
    ensures ConsumerLoop(s, rounds) ==
      if rounds <= |s.items| then LoopRun(s.items[..rounds], false) else LoopRun(s.items, true)
    decreases rounds
  {
    if rounds > 0 && s.items != [] {
      var t := TryRead(s);
      TryReadKeepsValid(v, s);
      ConsumerLoopProgresses(v, t.next, rounds - 1);
      if rounds <= |s.items| {
        assert [s.items[0]] + s.items[1..][..rounds - 1] == s.items[..rounds];
      } else {
        assert [s.items[0]] + s.items[1..] == s.items;
      }
    }
  }

  /** A state in which the waiting handle is still armed although already
      resolved with true, and nothing is buffered. */
  ghost predicate StaleSignal<T>(s: ChannelState<T>) {
    && s.items == [] && !s.completed && s.waiting.Some?
    && s.waiting.value < |s.status| && s.status[s.waiting.value] == HasBool(true)
  }

  lemma {:induction false} StaleSignalSpins<T>(s: ChannelState<T>, rounds: nat)
    requires StaleSignal(s)
    ensures ConsumerLoop(s, rounds) == LoopRun([], false)
    decreases rounds
  {
    if rounds > 0 {
      assert WaitToRead(s) == WaitStep(s, Armed(s.waiting.value));
      assert TryRead(s) == TakeStep(s, None);
      StaleSignalSpins(s, rounds - 1);
    }
  }

  /** BuggyChannelImpl: a consumer whose continuation runs synchronously
      inside WriteAsync's SetResult(true) takes the new item, then finds the
      waiting handle still armed and already true, so every later round is
      told "available", takes nothing and never suspends: a livelock. The
      state it sees breaks the invariant. */
  lemma BuggyWriteLivelocks<T>(s: ChannelState<T>, x: T, rounds: nat)
    requires Valid(Buggy, s) && s.readers == [] && s.waiting.Some?
    ensures var p := ResumedState(Buggy, s, x).value;
      && !Valid(Buggy, p)
      && TryRead(p).item == Some(x)
      && ConsumerLoop(TryRead(p).next, rounds) == LoopRun([], false)
  {
    var p := ResumedState(Buggy, s, x).value;
    assert p.items == [x];
    StaleSignalSpins(TryRead(p).next, rounds);
  }

  /** The versions that clear the waiting handle before resolving it, or
      resume the consumer only after WriteAsync returns: the resumed consumer
      takes the new item and then suspends on a fresh pending handle in its
      first round. */
  lemma FixedWriteSuspends<T>(v: Variant, s: ChannelState<T>, x: T, rounds: nat)
    requires HasReadiness(v) && v != Buggy
    requires Valid(v, s) && s.readers == [] && s.waiting.Some?
    ensures var p := ResumedState(v, s, x).value;
      && Valid(v, p)
      && TryRead(p).item == Some(x)
      && ConsumerLoop(TryRead(p).next, rounds) == LoopRun([], rounds > 0)
  {
    var p := ResumedState(v, s, x).value;
    WriteKeepsValid(v, s, x);
    assert p == Write(s, x);
    TryReadKeepsValid(v, p);
    ConsumerLoopProgresses(v, TryRead(p).next, rounds);
  }
}
