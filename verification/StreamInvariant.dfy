/** Every step of the stream protocol keeps its invariant, and what follows for whole runs. */
module StreamInvariant {
  import opened StreamProtocol

  // ---------------------------------------------------------------- unique kernels

  /** No queued kernel has this uid. */
  ghost predicate Fresh<S>(queues: map<S, Queue<S>>, uid: nat) {
    forall s, i | s in queues && 0 <= i < |queues[s].ops| && Kernel(queues[s].ops[i]) :: queues[s].ops[i].kernel != uid
  }

  lemma PushUnique<S>(queues: map<S, Queue<S>>, s: S, op: Op<S>)
    requires UniqueKernels(queues) && s in queues && (Kernel(op) ==> Fresh(queues, op.kernel))
    ensures UniqueKernels(queues[s := Pushed(queues[s], op)])
  {
  }

  lemma CompleteUnique<S>(queues: map<S, Queue<S>>, s: S)
    requires UniqueKernels(queues) && s in queues && Started(queues[s])
    ensures UniqueKernels(queues[s := Completed(queues[s])])
  {
  }

  lemma StartUnique<S>(queues: map<S, Queue<S>>, s: S)
    requires UniqueKernels(queues) && s in queues
    ensures UniqueKernels(queues[s := queues[s].(pending := true)])
  {
  }

  // ---------------------------------------------------------------- host steps

  /** What a host thread may push: a proper operation, for a known stream; a new kernel each time. */
  ghost predicate Pushable<S>(m: Manager<S>, op: Op<S>) {
    && op.kind != NoOp && !op.done
    && (op.stream.Some? ==> op.stream.value in m.order)
    && (Kernel(op) ==> op.kernel > 0 && Fresh(m.queues, op.kernel))
  }

  /** The uid of the kernel a queue has in flight. */
  function Flight<S>(q: Queue<S>): Option<nat> {
    if Started(q) && Kernel(q.ops[0]) then Some(q.ops[0].kernel) else None
  }

  /** If the same streams have the same kernels in flight, the map stays exact. */
  lemma SameGrid<S>(m: Manager<S>, m': Manager<S>)
    requires GridExact(m) && m'.grid == m.grid
    requires forall s | s in m.queues && Flight(m.queues[s]).Some? ::
        s in m'.queues && Flight(m'.queues[s]) == Flight(m.queues[s])
    requires forall s | s in m'.queues && Flight(m'.queues[s]).Some? ::
        s in m.queues && Flight(m.queues[s]) == Flight(m'.queues[s])
    ensures GridExact(m')
  {
    forall uid | uid in m'.grid
      ensures InFlight(m'.queues, m'.grid[uid], uid)
    {
      assert InFlight(m.queues, m.grid[uid], uid);
      assert Flight(m.queues[m.grid[uid]]) == Some(uid);
    }
    forall s, uid | s in m'.queues && InFlight(m'.queues, s, uid)
      ensures uid in m'.grid && m'.grid[uid] == s
    {
      assert Flight(m'.queues[s]) == Some(uid);
      assert InFlight(m.queues, s, uid);
    }
  }

  lemma PushKeepsQueue<S>(s: S, q: Queue<S>, op: Op<S>)
    requires QueueInv(s, q) && op.stream == Some(s) && op.kind != NoOp && !op.done && (Kernel(op) ==> op.kernel > 0)
    ensures QueueInv(s, Pushed(q, op)) && Flight(Pushed(q, op)) == Flight(q) && (q.pending ==> q.ops != [])
  {
    assert q.pushed + [op] == q.completed + (q.ops + [op]);
  }

  lemma PushKeepsInv<S>(m: Manager<S>, s: S, op: Op<S>)
    requires Inv(m) && s in m.queues && op.stream == Some(s) && op.kind != NoOp && !op.done
    requires Kernel(op) ==> op.kernel > 0 && Fresh(m.queues, op.kernel)
    ensures Inv(WithQueue(m, s, Pushed(m.queues[s], op)))
  {
    hide QueueInv, UniqueKernels, GridExact, Flight;
    PushUnique(m.queues, s, op);
    PushKeepsQueue(s, m.queues[s], op);
    SameGrid(m, WithQueue(m, s, Pushed(m.queues[s], op)));
  }

  lemma AcceptKeepsInv<S>(m: Manager<S>, op: Op<S>, limitHit: bool)
    requires Inv(m) && Pushable(m, op)
    ensures Inv(Accepted(m, op, limitHit))
  {
    if !limitHit {
      if op.stream.Some? && !m.blocking {
        PushKeepsInv(m, op.stream.value, op);
      } else {
        PushKeepsInv(m, m.zero, op.(stream := Some(m.zero)));
      }
    }
  }

  lemma AddKeepsInv<S>(m: Manager<S>, s: S)
    requires Inv(m) && s !in m.queues
    ensures Inv(Added(m, s))
  {
    AddUnique(m.queues, s);
    hide UniqueKernels, GridExact;
    SameGrid(m, Added(m, s));
  }

  lemma AddUnique<S>(queues: map<S, Queue<S>>, s: S)
    requires UniqueKernels(queues) && s !in queues
    ensures UniqueKernels(queues[s := EmptyQueue()])
  {
  }

  lemma {:induction false} WithoutRemoves<S>(order: seq<S>, s: S)
    requires forall i, j | 0 <= i < j < |order| :: order[i] != order[j]
    ensures var r := Without(order, s);
            && (forall t | t in r :: t in order && t != s)
            && (forall t | t in order && t != s :: t in r)
            && (forall i, j | 0 <= i < j < |r| :: r[i] != r[j])
  {
    if order != [] {
      assert forall i | 0 <= i < |order[1..]| :: order[1..][i] == order[i + 1];
      assert order[0] !in order[1..];
      WithoutRemoves(order[1..], s);
    }
  }

  lemma DestroyKeepsInv<S>(m: Manager<S>, s: S)
    requires Inv(m) && s in m.order && m.queues[s].ops == []
    ensures Inv(Destroyed(m, s))
  {
    assert Flight(m.queues[s]) == None;
    hide UniqueKernels, GridExact, QueueInv, Flight, Without;
    WithoutRemoves(m.order, s);
    RemoveUnique(m.queues, s);
    SameGrid(m, Destroyed(m, s));
  }

  lemma RemoveUnique<S>(queues: map<S, Queue<S>>, s: S)
    requires UniqueKernels(queues)
    ensures UniqueKernels(queues - {s})
  {
  }

  // ---------------------------------------------------------------- GPU steps

  /** The invariant with the front operation of stream `s` freshly started. */
  ghost predicate MidInv<S>(m: Manager<S>, s: S) {
    && WellFormed(m) && UniqueKernels(m.queues) && GridExact(m) && Exclusive(m)
    && s in m.queues && Started(m.queues[s])
    && (forall t | t in m.queues && t != s && m.queues[t].pending :: Kernel(m.queues[t].ops[0]))
    && m.gpu <= m.grid.Keys
  }

  lemma CompleteKeepsGrid<S>(m: Manager<S>, s: S)
    requires GridExact(m) && s in m.queues && Started(m.queues[s])
    ensures var op := m.queues[s].ops[0];
            GridExact(WithQueue(m, s, Completed(m.queues[s])).
              (grid := if Kernel(op) then m.grid - {op.kernel} else m.grid))
  {
    var q := m.queues[s];
    var op := q.ops[0];
    var m' := WithQueue(m, s, Completed(q)).(grid := if Kernel(op) then m.grid - {op.kernel} else m.grid);
    assert forall t, uid | t in m'.queues :: InFlight(m'.queues, t, uid) <==> InFlight(m.queues, t, uid) && t != s;
    forall uid | uid in m'.grid
      ensures InFlight(m'.queues, m'.grid[uid], uid)
    {
      assert InFlight(m.queues, m.grid[uid], uid);
    }
    forall t, uid | t in m'.queues && InFlight(m'.queues, t, uid)
      ensures uid in m'.grid && m'.grid[uid] == t
    {
      assert InFlight(m.queues, t, uid);
      if Kernel(op) { assert InFlight(m.queues, s, op.kernel); }
    }
  }

  lemma CompleteKeepsQueue<S>(s: S, q: Queue<S>)
    requires QueueInv(s, q) && Started(q)
    ensures QueueInv(s, Completed(q))
  {
    assert q.completed + q.ops == (q.completed + [q.ops[0]]) + q.ops[1..];
  }

  /** Completing the started operation of `s`, and dropping its kernel from the map, restores the invariant. */
  lemma CompleteKeepsInv<S>(m: Manager<S>, s: S)
    requires MidInv(m, s)
    ensures var op := m.queues[s].ops[0];
            var m' := WithQueue(m, s, Completed(m.queues[s]));
            Inv(if Kernel(op) then m'.(grid := m.grid - {op.kernel}, gpu := m.gpu - {op.kernel}) else m')
  {
    hide UniqueKernels, GridExact, QueueInv;
    CompleteUnique(m.queues, s);
    CompleteKeepsGrid(m, s);
    CompleteKeepsQueue(s, m.queues[s]);
    GpuIrrelevant(WithQueue(m, s, Completed(m.queues[s])).(grid := m.grid - {m.queues[s].ops[0].kernel}),
        m.gpu - {m.queues[s].ops[0].kernel});
  }

  lemma GpuIrrelevant<S>(m: Manager<S>, gpu: set<nat>)
    ensures GridExact(m) <==> GridExact(m.(gpu := gpu))
  {
  }

  /** A finished kernel passes the checks of register_finished_kernel, which keeps the invariant. */
  lemma RegisterKeepsInv<S>(m: Manager<S>, uid: nat)
    requires Inv(m) && (uid == 0 || uid in m.gpu)
    ensures Registrable(m, uid) && Inv(Registered(m, uid))
  {
    if uid != 0 {
      assert InFlight(m.queues, m.grid[uid], uid);
      CompleteKeepsInv(m, m.grid[uid]);
    }
  }

  /** A kernel about to be started is not in the map yet. */
  lemma NotYetInGrid<S>(m: Manager<S>, s: S)
    requires UniqueKernels(m.queues) && GridExact(m)
    requires s in m.queues && m.queues[s].ops != [] && !m.queues[s].pending && Kernel(m.queues[s].ops[0])
    ensures m.queues[s].ops[0].kernel !in m.grid
  {
    var uid := m.queues[s].ops[0].kernel;
    assert forall t | t in m.queues :: !InFlight(m.queues, t, uid);
  }

  lemma StartKeepsGrid<S>(m: Manager<S>, s: S)
    requires UniqueKernels(m.queues) && GridExact(m)
    requires s in m.queues && m.queues[s].ops != [] && !m.queues[s].pending
    ensures GridExact(StartFront(m, s).0)
  {
    var (m', op) := StartFront(m, s);
    if Kernel(op) {
      NotYetInGrid(m, s);
      hide UniqueKernels;
      StartedInGrid(m, s);
    } else {
      hide UniqueKernels, GridExact;
      SameGrid(m, m');
    }
  }

  lemma StartedInGrid<S>(m: Manager<S>, s: S)
    requires GridExact(m) && s in m.queues && m.queues[s].ops != [] && !m.queues[s].pending
    requires Kernel(m.queues[s].ops[0]) && m.queues[s].ops[0].kernel !in m.grid
    ensures GridExact(StartFront(m, s).0)
  {
    var (m', op) := StartFront(m, s);
    forall uid | uid in m'.grid
      ensures InFlight(m'.queues, m'.grid[uid], uid)
    {
      if uid != op.kernel { assert InFlight(m.queues, m.grid[uid], uid); }
    }
    forall t, uid | t in m'.queues && InFlight(m'.queues, t, uid)
      ensures uid in m'.grid && m'.grid[uid] == t
    {
      if t != s { assert InFlight(m.queues, t, uid); }
    }
  }

  lemma FrontOfQueue<S>(s: S, q: Queue<S>)
    requires QueueInv(s, q) && q.ops != []
    ensures QueueInv(s, q.(pending := true))
    ensures q.ops[0].stream == Some(s) && !q.ops[0].done && q.ops[0].kind != NoOp
        && (Kernel(q.ops[0]) ==> q.ops[0].kernel > 0)
  {
    assert q.ops[0] in q.ops;
  }

  lemma StartKeepsInv<S>(m: Manager<S>, s: S)
    requires Inv(m) && s in m.queues && m.queues[s].ops != [] && !m.queues[s].pending
    requires if s == m.zero then m.serviceZero else !m.serviceZero
    ensures var (m', op) := StartFront(m, s);
            MidInv(m', s) && op == m'.queues[s].ops[0] && op.stream == Some(s) && !op.done && op.kind != NoOp
  {
    hide UniqueKernels, GridExact, QueueInv;
    StartUnique(m.queues, s);
    StartKeepsGrid(m, s);
    FrontOfQueue(s, m.queues[s]);
  }

  lemma StartedIsRegistrable<S>(m: Manager<S>, s: S)
    requires GridExact(m) && s in m.queues && Started(m.queues[s]) && Kernel(m.queues[s].ops[0])
    ensures Registrable(m, m.queues[s].ops[0].kernel) && m.queues[s].ops[0].kernel in m.grid
        && m.grid[m.queues[s].ops[0].kernel] == s
  {
    assert InFlight(m.queues, s, m.queues[s].ops[0].kernel);
  }

  /** Performing the operation that was just started. */
  lemma PerformKeepsInv<S>(m: Manager<S>, s: S, op: Op<S>, canStart: bool)
    requires MidInv(m, s) && op == m.queues[s].ops[0] && op.stream == Some(s) && !op.done && op.kind != NoOp
    ensures Performable(m, op) && Inv(Performed(m, op, canStart))
  {
    hide UniqueKernels, QueueInv, GridExact;
    FrontOfQueue(s, m.queues[s]);
    CompleteKeepsInv(m, s);
    if Kernel(op) {
      StartedIsRegistrable(m, s);
      GpuIrrelevant(m, m.gpu + {op.kernel});
    }
  }

  lemma PreparedKeepsInv<S>(m: Manager<S>)
    requires Inv(m)
    ensures Inv(Prepared(m))
  {
    hide UniqueKernels;
    var m1 := Prepared(m);
    assert forall s | s in m.order && ConcurrentEmpty(m) :: m.queues[s].ops == [];
    assert forall t, uid | t in m.queues :: InFlight(m1.queues, t, uid) <==> InFlight(m.queues, t, uid);
  }

  /** The choice and execution of one operation by the GPU thread. */
  lemma ServiceKeepsInv<S>(m: Manager<S>, canStart: bool)
    requires Inv(m)
    ensures var (m', op) := Front(m);
            Performable(m', op) && Inv(Performed(m', op, canStart))
  {
    var m1 := Prepared(m);
    PreparedKeepsInv(m);
    if m1.serviceZero {
      if m1.queues[m1.zero].ops != [] {
        if !m1.queues[m1.zero].pending {
          StartKeepsInv(m1, m1.zero);
          var (m2, op) := StartFront(m1, m1.zero);
          PerformKeepsInv(m2, m1.zero, op, canStart);
        }
      } else {
        var m2 := m1.(serviceZero := false);
        assert forall t, uid | t in m1.queues :: InFlight(m2.queues, t, uid) <==> InFlight(m1.queues, t, uid);
      }
    } else {
      ReadyHasWork(m1.queues, m1.order);
      match Ready(m1.queues, m1.order) {
        case Some(s) =>
          StartKeepsInv(m1, s);
          var (m2, op) := StartFront(m1, s);
          PerformKeepsInv(m2, s, op, canStart);
        case None =>
      }
    }
  }

  // ---------------------------------------------------------------- whole runs

  /** One critical section, with what the environment chooses in it. */
  datatype Event<S> =
    | Push(op: Op<S>, limitHit: bool)
    | Add(stream: S)
    | Destroy(stream: S)
    | Finish(uid: nat)
    | Service(finished: nat, canStart: bool)

  ghost predicate Enabled<S>(m: Manager<S>, e: Event<S>) {
    match e
    case Push(op, _) => Pushable(m, op)
    case Add(s) => s !in m.queues
    case Destroy(s) => s in m.order && s in m.queues && m.queues[s].ops == []
    case Finish(uid) => uid == 0 || uid in m.gpu
    case Service(uid, _) => uid == 0 || uid in m.gpu
  }

  /** `operation`: register a finished kernel, choose the next operation, perform it. */
  ghost function Operated<S>(m: Manager<S>, finished: nat, canStart: bool): Manager<S>
    requires Inv(m) && (finished == 0 || finished in m.gpu)
  {
    RegisterKeepsInv(m, finished);
    var m1 := Registered(m, finished);
    ServiceKeepsInv(m1, canStart);
    var (m2, op) := Front(m1);
    Performed(m2, op, canStart)
  }

  ghost function Stepped<S>(m: Manager<S>, e: Event<S>): Manager<S>
    requires Inv(m) && Enabled(m, e)
  {
    match e
    case Push(op, limitHit) => Accepted(m, op, limitHit)
    case Add(s) => Added(m, s)
    case Destroy(s) => Destroyed(m, s)
    case Finish(uid) => RegisterKeepsInv(m, uid); Registered(m, uid)
    case Service(uid, canStart) => Operated(m, uid, canStart)
  }

  lemma StepKeepsInv<S>(m: Manager<S>, e: Event<S>)
    requires Inv(m) && Enabled(m, e)
    ensures Inv(Stepped(m, e))
  {
    match e
    case Push(op, limitHit) => AcceptKeepsInv(m, op, limitHit);
    case Add(s) => AddKeepsInv(m, s);
    case Destroy(s) => DestroyKeepsInv(m, s);
    case Finish(uid) => RegisterKeepsInv(m, uid);
    case Service(uid, canStart) =>
      RegisterKeepsInv(m, uid);
      ServiceKeepsInv(Registered(m, uid), canStart);
  }

  /** Histories only grow: what has been pushed or completed on stream `s` stays so. */
  ghost predicate Extends<S>(m: Manager<S>, m': Manager<S>, s: S) {
    s in m.queues && s in m'.queues ==>
      m.queues[s].pushed <= m'.queues[s].pushed && m.queues[s].completed <= m'.queues[s].completed
  }

  lemma StartExtends<S>(m: Manager<S>, t: S, s: S)
    requires t in m.queues && m.queues[t].ops != []
    ensures Extends(m, StartFront(m, t).0, s) && StartFront(m, t).0.queues.Keys == m.queues.Keys
  {
  }

  lemma FrontExtends<S>(m: Manager<S>, s: S)
    requires WellFormed(m)
    ensures Extends(m, Front(m).0, s) && Front(m).0.queues.Keys == m.queues.Keys
  {
    var m1 := Prepared(m);
    ReadyHasWork(m1.queues, m1.order);
    hide QueueInv, Ready, StartFront;
    if m1.serviceZero {
      if m1.queues[m1.zero].ops != [] && !m1.queues[m1.zero].pending { StartExtends(m1, m1.zero, s); }
    } else if Ready(m1.queues, m1.order).Some? {
      StartExtends(m1, Ready(m1.queues, m1.order).value, s);
    }
  }

  lemma PerformedExtends<S>(m: Manager<S>, op: Op<S>, canStart: bool, s: S)
    requires Performable(m, op)
    ensures Extends(m, Performed(m, op, canStart), s) && Performed(m, op, canStart).queues.Keys == m.queues.Keys
  {
  }

  lemma ServiceExtends<S>(m: Manager<S>, canStart: bool, s: S)
    requires Inv(m)
    ensures var (m', op) := Front(m);
            Performable(m', op) && Extends(m, Performed(m', op, canStart), s)
            && Performed(m', op, canStart).queues.Keys == m.queues.Keys
  {
    ServiceKeepsInv(m, canStart);
    FrontExtends(m, s);
    var (m', op) := Front(m);
    PerformedExtends(m', op, canStart, s);
    hide Inv, Front, Performed, Performable;
  }

  lemma RegisteredExtends<S>(m: Manager<S>, uid: nat, s: S)
    requires Registrable(m, uid)
    ensures Extends(m, Registered(m, uid), s) && Registered(m, uid).queues.Keys == m.queues.Keys
  {
  }

  lemma OperatedExtends<S>(m: Manager<S>, finished: nat, canStart: bool, s: S)
    requires Inv(m) && (finished == 0 || finished in m.gpu)
    ensures Extends(m, Operated(m, finished, canStart), s)
  {
    RegisterKeepsInv(m, finished);
    hide Inv, Front, Performed, Performable, Registered, Registrable;
    RegisteredExtends(m, finished, s);
    ServiceExtends(Registered(m, finished), canStart, s);
  }

  lemma StepExtendsHistories<S>(m: Manager<S>, e: Event<S>, s: S)
    requires Inv(m) && Enabled(m, e)
    ensures Extends(m, Stepped(m, e), s)
  {
    hide UniqueKernels, GridExact, QueueInv, Exclusive, Operated, Registered;
    match e
    case Push(op, limitHit) =>
    case Add(t) =>
    case Destroy(t) =>
    case Finish(uid) =>
      RegisterKeepsInv(m, uid);
      RegisteredExtends(m, uid, s);
    case Service(uid, canStart) =>
      OperatedExtends(m, uid, canStart, s);
  }

  /** A run: `Stepped` is defined in the states that satisfy the invariant, and `RunKeepsInv` shows
      that all of them do.  `states[k + 1]` follows from `states[k]` by the k-th event, from the empty manager on. */
  ghost predicate IsRun<S>(zero: S, blocking: bool, events: seq<Event<S>>, states: seq<Manager<S>>) {
    && |states| == |events| + 1
    && states[0] == Initial(zero, blocking)
    && forall k | 0 <= k < |events| ::
         Inv(states[k]) ==> Enabled(states[k], events[k]) && states[k + 1] == Stepped(states[k], events[k])
  }

  function Initial<S>(zero: S, blocking: bool): Manager<S> {
    Manager([], zero, map[zero := EmptyQueue()], map[], false, blocking, {})
  }

  lemma {:induction false} RunKeepsInv<S>(zero: S, blocking: bool, events: seq<Event<S>>, states: seq<Manager<S>>,
      k: nat)
    requires IsRun(zero, blocking, events, states) && k < |states|
    ensures Inv(states[k])
  {
    if k > 0 {
      RunKeepsInv(zero, blocking, events, states, k - 1);
      StepKeepsInv(states[k - 1], events[k - 1]);
    }
  }

  /** In every state of every run: a stream-zero operation is in flight only while no concurrent
      operation is; each stream completes its operations in the order they were pushed, and only the
      front one is in flight; and the grid map names exactly the kernels in flight, each on its stream. */
  lemma RunsAreSafe<S>(zero: S, blocking: bool, events: seq<Event<S>>, states: seq<Manager<S>>, k: nat)
    requires IsRun(zero, blocking, events, states) && k < |states|
    ensures var m := states[k];
      && m.zero in m.queues
      && (m.queues[m.zero].pending ==> forall s | s in m.queues && s != m.zero :: !m.queues[s].pending)
      && (forall s | s in m.queues ::
            var q := m.queues[s];
            q.completed <= q.pushed && q.ops == q.pushed[|q.completed|..] && (q.pending ==> q.ops != [])
            && forall op | op in q.ops :: op.stream == Some(s))
      && (forall uid :: uid in m.grid <==> exists s | s in m.queues :: InFlight(m.queues, s, uid))
      && (forall uid | uid in m.grid :: InFlight(m.queues, m.grid[uid], uid))
      && (forall uid | uid in m.gpu :: Registrable(m, uid))
  {
    RunKeepsInv(zero, blocking, events, states, k);
    var m := states[k];
    forall uid | uid in m.gpu
      ensures Registrable(m, uid)
    {
      RegisterKeepsInv(m, uid);
    }
    forall uid | uid in m.grid
      ensures exists s | s in m.queues :: InFlight(m.queues, s, uid)
    {
      assert InFlight(m.queues, m.grid[uid], uid);
    }
  }
}
