/** The stream manager and its streams as objects, updated in place. */
module StreamManagers {
  import opened StreamProtocol
  import opened StreamInvariant
  import opened StreamService

  type Operation = Op<CUstream>

  class CUstream {
    var operations: seq<Operation>
    var pending: bool
    ghost var pushed: seq<Operation>
    ghost var completed: seq<Operation>

    constructor ()
      ensures View() == EmptyQueue()
    {
      operations, pending := [], false;
      pushed, completed := [], [];
    }

    ghost function View(): Queue<CUstream>
      reads this
    {
      Queue(operations, pending, pushed, completed)
    }

    method Empty() returns (empty: bool)
      ensures empty == (operations == [])
    {
      empty := operations == [];
    }

    method Busy() returns (busy: bool)
      ensures busy == pending
    {
      busy := pending;
    }

    method Push(op: Operation)
      modifies this
      ensures View() == Pushed(old(View()), op)
      ensures operations == old(operations) + [op] && pending == old(pending)
    {
      operations := operations + [op];
      pushed := pushed + [op];
    }

    method RecordNextDone()
      requires Started(View())
      modifies this
      ensures View() == Completed(old(View()))
      ensures operations == old(operations)[1..] && !pending
    {
      assert pending;
      completed := completed + [operations[0]];
      operations := operations[1..];
      pending := false;
    }

    method Next() returns (op: Operation)
      requires operations != []
      modifies this
      ensures View() == old(View()).(pending := true)
      ensures pending && operations == old(operations) && op == operations[0]
    {
      pending := true;
      op := operations[0];
    }
  }

  class StreamManager {
    var streams: seq<CUstream>
    const streamZero: CUstream
    var gridIdToStream: map<nat, CUstream>
    var serviceStreamZero: bool
    const launchBlocking: bool
    /** The kernels inside the simulator: accepted by `launch`, not yet returned by `finished_kernel`. */
    var gpu: set<nat>

    ghost function Streams(): set<CUstream>
      reads this
    {
      (set s | s in streams) + {streamZero}
    }

    ghost function View(): Manager<CUstream>
      reads this, Streams()
    {
      Manager(streams, streamZero, map s | s in Streams() :: s.View(),
              gridIdToStream, serviceStreamZero, launchBlocking, gpu)
    }

    constructor (launchBlocking: bool)
      ensures fresh(streamZero) && this.launchBlocking == launchBlocking
      ensures View() == Initial(streamZero, launchBlocking)
    {
      var zero := new CUstream();
      this.launchBlocking := launchBlocking;
      streamZero := zero;
      streams, gridIdToStream, serviceStreamZero, gpu := [], map[], false, {};
      new;
    }

    /** All streams but these are as they were. */
    twostate predicate OthersSame(but: set<CUstream>)
      reads this, Streams()
    {
      streams == old(streams) &&
      forall s | s in Streams() && s !in but :: s.operations == old(s.operations) && s.pending == old(s.pending)
    }

    /** The front operation of `s` is under way; a kernel is entered in the map. */
    twostate predicate Starts(s: CUstream, new op: Operation)
      requires s in old(Streams())
      reads this, Streams(), s
    {
      && old(s.operations) != [] && !old(s.pending) && op == old(s.operations[0])
      && s.pending && s.operations == old(s.operations) && OthersSame({s}) && gpu == old(gpu)
      && gridIdToStream == if op.kind == KernelLaunch then old(gridIdToStream)[op.kernel := s] else old(gridIdToStream)
    }

    /** The front operation of `s` is done. */
    twostate predicate Finishes(s: CUstream)
      requires s in old(Streams())
      reads this, Streams(), s
    {
      old(s.operations) != [] && s.operations == old(s.operations)[1..] && !s.pending && OthersSame({s})
    }

    /** A change to one stream shows as a change to its queue alone. */
    twostate lemma OneStream(s: CUstream)
      requires s in Streams() && streams == old(streams)
      requires forall t | t in Streams() && t != s :: t.View() == old(t.View())
      requires gridIdToStream == old(gridIdToStream) && serviceStreamZero == old(serviceStreamZero) && gpu == old(gpu)
      ensures View() == WithQueue(old(View()), s, s.View())
    {
    }

    method PushOn(stream: CUstream, op: Operation)
      requires stream in Streams()
      modifies Streams()
      ensures View() == WithQueue(old(View()), stream, Pushed(old(View()).queues[stream], op))
      ensures stream.operations == old(stream.operations) + [op] && stream.pending == old(stream.pending)
      ensures OthersSame({stream})
    {
      stream.Push(op);
      OneStream(stream);
    }

    method CompleteOn(stream: CUstream)
      requires stream in Streams() && Started(stream.View())
      modifies Streams()
      ensures View() == WithQueue(old(View()), stream, Completed(old(View()).queues[stream]))
      ensures Finishes(stream)
    {
      stream.RecordNextDone();
      OneStream(stream);
    }

    /** Starts the front operation of a stream, and enters a kernel in the map. */
    method StartOn(stream: CUstream) returns (op: Operation)
      requires stream in Streams() && stream.operations != [] && !stream.pending
      modifies this, Streams()
      ensures streams == old(streams) && (View(), op) == StartFront(old(View()), stream)
      ensures Starts(stream, op) && serviceStreamZero == old(serviceStreamZero)
    {
      op := stream.Next();
      OneStream(stream);
      ghost var m := View();
      if op.kind == KernelLaunch {
        gridIdToStream := gridIdToStream[op.kernel := stream];
      }
      assert View().queues == m.queues;
    }

    /** Host thread: the critical section of `push` that accepts the operation. */
    method Accept(op: Operation, limitHit: bool)
      requires op.stream.Some? ==> op.stream.value in streams
      modifies Streams()
      ensures View() == Accepted(old(View()), op, limitHit)
      ensures limitHit ==> OthersSame({})
      ensures !limitHit && op.stream.Some? && !launchBlocking ==>
                var s := op.stream.value;
                s.operations == old(s.operations) + [op] && s.pending == old(s.pending) && OthersSame({s})
      ensures !limitHit && (op.stream.None? || launchBlocking) ==>
                && streamZero.operations == old(streamZero.operations) + [op.(stream := Some(streamZero))]
                && streamZero.pending == old(streamZero.pending) && OthersSame({streamZero})
    {
      if !limitHit {
        if op.stream.Some? && !launchBlocking {
          PushOn(op.stream.value, op);
        } else {
          PushOn(streamZero, op.(stream := Some(streamZero)));
        }
      }
    }

    /** Host thread. */
    method AddStream(stream: CUstream)
      requires stream.View() == EmptyQueue() && stream !in Streams()
      modifies this
      ensures View() == Added(old(View()), stream)
      ensures streams == old(streams) + [stream]
    {
      streams := streams + [stream];
      assert Streams() == old(Streams()) + {stream};
    }

    /** The search for a stream in the list. */
    method IndexOf(stream: CUstream) returns (i: nat)
      requires stream in streams
      ensures i < |streams| && streams[i] == stream && stream !in streams[..i]
    {
      i := 0;
      while streams[i] != stream
        invariant 0 <= i < |streams| && stream !in streams[..i]
        decreases |streams| - i
      {
        i := i + 1;
      }
    }

    /** Host thread, once the stream has drained. */
    method DestroyStream(stream: CUstream)
      requires stream in streams && stream.operations == [] && stream != streamZero
      requires forall i, j | 0 <= i < j < |streams| :: streams[i] != streams[j]
      modifies this
      ensures View() == Destroyed(old(View()), stream)
      ensures exists i :: 0 <= i < |old(streams)| && old(streams)[i] == stream &&
                streams == old(streams)[..i] + old(streams)[i + 1..]
    {
      var i := IndexOf(stream);
      WithoutAt(streams, i);
      WithoutRemoves(streams, stream);
      streams := streams[..i] + streams[i + 1..];
      assert Streams() == old(Streams()) - {stream};
    }

    /** Drops a kernel that has finished from the map and the simulator. */
    method Forget(uid: nat)
      modifies this`gridIdToStream, this`gpu
      ensures gridIdToStream == old(gridIdToStream) - {uid} && gpu == old(gpu) - {uid}
      ensures View() == old(View()).(grid := old(gridIdToStream) - {uid}, gpu := old(gpu) - {uid})
    {
      gridIdToStream := gridIdToStream - {uid};
      gpu := gpu - {uid};
      assert View().queues == old(View()).queues;
    }

    /** GPU thread: called with the uid `finished_kernel` returns, 0 if there is none. */
    method RegisterFinishedKernel(uid: nat) returns (registered: bool)
      requires Registrable(View(), uid)
      modifies this, Streams()
      ensures View() == Registered(old(View()), uid)
      ensures streams == old(streams) && registered == (uid > 0)
      ensures uid == 0 ==> OthersSame({}) && gridIdToStream == old(gridIdToStream) && gpu == old(gpu)
      ensures uid > 0 ==>
                && uid in old(gridIdToStream) && old(gridIdToStream)[uid] in old(Streams())
                && Finishes(old(gridIdToStream)[uid])
                && gridIdToStream == old(gridIdToStream) - {uid} && gpu == old(gpu) - {uid}
      ensures serviceStreamZero == old(serviceStreamZero)
    {
      if uid > 0 {
        var stream := gridIdToStream[uid];
        assert stream.operations[0].kernel == uid;
        CompleteOn(stream);
        Forget(uid);
        return true;
      }
      return false;
    }

    method ConcurrentStreamsEmpty() returns (result: bool)
      ensures result == ConcurrentEmpty(View())
    {
      result := true;
      for i := 0 to |streams|
        invariant result == forall k | 0 <= k < i :: streams[k].operations == []
      {
        var empty := streams[i].Empty();
        if !empty { result := false; }
      }
      assert forall k | 0 <= k < |streams| ::
          streams[k] in streams && View().queues[streams[k]].ops == streams[k].operations;
    }

    /** The i-th stream is the first that is idle and has work. */
    lemma ReadyAt(i: nat)
      requires i < |streams| && !streams[i].pending && streams[i].operations != []
      requires forall j | 0 <= j < i :: streams[j].pending || streams[j].operations == []
      ensures Ready(View().queues, streams) == Some(streams[i])
    {
      hide Ready;
      var queues := View().queues;
      forall j | 0 <= j <= i
        ensures streams[j] in queues && queues[streams[j]] == streams[j].View()
      {
        assert streams[j] in Streams();
      }
      ReadyIsFirst(queues, streams, i);
    }

    lemma NoneReady()
      requires forall j | 0 <= j < |streams| :: streams[j].pending || streams[j].operations == []
      ensures Ready(View().queues, streams) == None
    {
      hide Ready;
      var queues := View().queues;
      forall s | s in streams
        ensures s in queues && queues[s] == s.View()
      {
        assert s in Streams();
      }
      NotReady(queues, streams);
    }

    /** GPU thread: the first concurrent stream that is idle and has work. */
    method FirstReady() returns (r: Option<CUstream>)
      ensures r == Ready(View().queues, streams)
    {
      hide Ready, View;
      for i := 0 to |streams|
        invariant forall j | 0 <= j < i :: streams[j].pending || streams[j].operations == []
      {
        var stream := streams[i];
        var busy := stream.Busy();
        var empty := stream.Empty();
        if !busy && !empty {
          ReadyAt(i);
          return Some(stream);
        }
      }
      NoneReady();
      r := None;
    }

    /** GPU thread: the operation to perform next. */
    method NextOperation() returns (op: Operation)
      requires WellFormed(View())
      modifies this, Streams()
      ensures streams == old(streams)
      ensures (View(), op) == Front(old(View()))
      ensures Serves(old(View()), View(), op)
    {
      FrontServes(View());
      hide Chosen, Serves, Prepared, WellFormed;
      Prepare();
      PreparedWellFormed(old(View()));
      op := Choose();
    }

    /** Stream zero is serviced from now on if the concurrent streams are empty. */
    method Prepare()
      requires WellFormed(View())
      modifies this
      ensures streams == old(streams) && View() == Prepared(old(View()))
    {
      hide QueueInv;
      var none := ConcurrentStreamsEmpty();
      if none {
        serviceStreamZero := true;
      }
      assert View().queues == old(View()).queues;
    }

    method Choose() returns (op: Operation)
      requires WellFormed(View())
      modifies this, Streams()
      ensures streams == old(streams)
      ensures (View(), op) == Chosen(old(View()))
    {
      hide Ready, StartFront, QueueInv;
      op := NoOperation();
      if serviceStreamZero {
        var empty := streamZero.Empty();
        if !empty {
          var busy := streamZero.Busy();
          if !busy {
            op := StartOn(streamZero);
          }
        } else {
          serviceStreamZero := false;
          assert View().queues == old(View()).queues;
        }
      } else {
        var ready := FirstReady();
        ReadyHasWork(View().queues, streams);
        if ready.Some? {
          op := StartOn(ready.value);
        }
      }
    }

    /** GPU thread. */
    method DoOperation(op: Operation, canStart: bool)
      requires Performable(View(), op)
      modifies this, Streams()
      ensures View() == Performed(old(View()), op, canStart)
      ensures streams == old(streams) && serviceStreamZero == old(serviceStreamZero)
      ensures op.kind == NoOp || (op.kind == KernelLaunch && !canStart) ==>
                OthersSame({}) && gridIdToStream == old(gridIdToStream) && gpu == old(gpu)
      ensures op.kind == KernelLaunch && canStart && !op.simMode ==>
                OthersSame({}) && gridIdToStream == old(gridIdToStream) && gpu == old(gpu) + {op.kernel}
      ensures op.kind == KernelLaunch && canStart && op.simMode && op.kernel > 0 ==>
                && op.kernel in old(gridIdToStream) && old(gridIdToStream)[op.kernel] in old(Streams())
                && Finishes(old(gridIdToStream)[op.kernel])
                && gridIdToStream == old(gridIdToStream) - {op.kernel} && gpu == old(gpu) - {op.kernel}
      ensures op.kind != NoOp && op.kind != KernelLaunch ==>
                && op.stream.Some? && op.stream.value in old(Streams()) && Finishes(op.stream.value)
                && gridIdToStream == old(gridIdToStream) && gpu == old(gpu)
    {
      if op.kind == NoOp { return; }
      assert !op.done && op.stream.Some?;
      if op.kind == KernelLaunch {
        if canStart {
          if op.simMode {
            var _ := RegisterFinishedKernel(op.kernel);
          } else {
            gpu := gpu + {op.kernel};
          }
        }
      } else {
        CompleteOn(op.stream.value);
      }
    }

    /** GPU thread: one round of service, under the manager's lock. */
    method Operation(finished: nat, canStart: bool) returns (check: bool)
      requires Inv(View()) && (finished == 0 || finished in gpu)
      modifies this, Streams()
      ensures View() == Operated(old(View()), finished, canStart) && Inv(View())
    {
      RegisterKeepsInv(View(), finished);
      check := RegisterFinishedKernel(finished);
      ServiceKeepsInv(View(), canStart);
      var op := NextOperation();
      DoOperation(op, canStart);
    }
  }

  lemma {:induction false} WithoutAt<S>(order: seq<S>, i: nat)
    requires i < |order| && order[i] !in order[..i]
    ensures Without(order, order[i]) == order[..i] + order[i + 1..]
  {
    if i > 0 {
      assert order[0] in order[..i];
      assert order[1..][..i - 1] == order[1..i];
      WithoutAt(order[1..], i - 1);
    }
  }
}
