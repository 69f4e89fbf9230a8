/**
 The stream protocol as a state machine: host threads push operations, the GPU thread services
 them.  Each step is one critical section of the stream manager.  `S` identifies a stream.
 */
module StreamProtocol {

  datatype Option<+T> = None | Some(value: T)

  datatype Kind = NoOp | HostToDevice | DeviceToHost | DeviceToDevice | ToSymbol | FromSymbol | KernelLaunch
      | EventRecord

  /** `payload` stands for the addresses and sizes, `kernel` for the uid of the kernel (0: none). */
  datatype Op<S> = Op(kind: Kind, stream: Option<S>, kernel: nat, simMode: bool, done: bool, payload: nat)

  function NoOperation<S>(): Op<S> {
    Op(NoOp, None, 0, false, true, 0)
  }

  /** A stream: its queue, whether the front operation has started, and the two histories. */
  datatype Queue<S> = Queue(ops: seq<Op<S>>, pending: bool, pushed: seq<Op<S>>, completed: seq<Op<S>>)

  /** `gpu` holds the kernels the simulator has accepted and not yet reported as finished. */
  datatype Manager<S> = Manager(
    order: seq<S>, zero: S, queues: map<S, Queue<S>>,
    grid: map<nat, S>, serviceZero: bool, blocking: bool, gpu: set<nat>)

  function EmptyQueue<S>(): Queue<S> {
    Queue([], false, [], [])
  }

  // ---------------------------------------------------------------- stream operations

  function Pushed<S>(q: Queue<S>, op: Op<S>): Queue<S> {
    q.(ops := q.ops + [op], pushed := q.pushed + [op])
  }

  /** Popping the front needs a started operation. */
  predicate Started<S>(q: Queue<S>) {
    q.pending && q.ops != []
  }

  function Completed<S>(q: Queue<S>): Queue<S>
    requires Started(q)
  {
    q.(ops := q.ops[1..], pending := false, completed := q.completed + [q.ops[0]])
  }

  function WithQueue<S>(m: Manager<S>, s: S, q: Queue<S>): Manager<S> {
    m.(queues := m.queues[s := q])
  }

  // ---------------------------------------------------------------- the invariant

  predicate Kernel<S>(op: Op<S>) {
    op.kind == KernelLaunch
  }

  ghost predicate QueueInv<S>(s: S, q: Queue<S>) {
    && q.pushed == q.completed + q.ops
    && (q.pending ==> q.ops != [])
    && forall op | op in q.ops :: op.stream == Some(s) && !op.done && op.kind != NoOp && (Kernel(op) ==> op.kernel > 0)
  }

  /** Every queued kernel has a uid of its own. */
  ghost predicate UniqueKernels<S>(queues: map<S, Queue<S>>) {
    forall s, t, i, j | s in queues && t in queues && 0 <= i < |queues[s].ops| && 0 <= j < |queues[t].ops|
                        && Kernel(queues[s].ops[i]) && Kernel(queues[t].ops[j])
                            && queues[s].ops[i].kernel == queues[t].ops[j].kernel ::
      s == t && i == j
  }

  /** The kernel that is in flight on stream `s`, if any. */
  ghost predicate InFlight<S>(queues: map<S, Queue<S>>, s: S, uid: nat) {
    s in queues && Started(queues[s]) && Kernel(queues[s].ops[0]) && queues[s].ops[0].kernel == uid
  }

  ghost predicate GridExact<S>(m: Manager<S>) {
    && (forall uid | uid in m.grid :: InFlight(m.queues, m.grid[uid], uid))
    && forall s, uid | s in m.queues && InFlight(m.queues, s, uid) :: uid in m.grid && m.grid[uid] == s
  }

  /** A stream-zero operation never overlaps one of a concurrent stream. */
  ghost predicate Exclusive<S>(m: Manager<S>)
    requires m.zero in m.queues && forall s | s in m.order :: s in m.queues
  {
    && (m.serviceZero ==> forall s | s in m.order :: !m.queues[s].pending)
    && (m.queues[m.zero].pending ==> m.serviceZero)
  }

  ghost predicate WellFormed<S>(m: Manager<S>) {
    && m.zero in m.queues && m.zero !in m.order
    && (forall s | s in m.order :: s in m.queues)
    && (forall s | s in m.queues :: s == m.zero || s in m.order)
    && (forall i, j | 0 <= i < j < |m.order| :: m.order[i] != m.order[j])
    && (forall s | s in m.queues :: QueueInv(s, m.queues[s]))
  }

  /** Holds between critical sections. */
  ghost predicate Inv<S>(m: Manager<S>) {
    && WellFormed(m) && UniqueKernels(m.queues) && GridExact(m) && Exclusive(m)
    && (forall s | s in m.queues && m.queues[s].pending :: Kernel(m.queues[s].ops[0]))
    && m.gpu <= m.grid.Keys
  }

  // ---------------------------------------------------------------- host steps

  /** Acceptance of an operation: on its stream, or on stream zero when it has none or launches block. */
  function Accepted<S>(m: Manager<S>, op: Op<S>, limitHit: bool): Manager<S>
    requires m.zero in m.queues && (op.stream.Some? ==> op.stream.value in m.queues)
  {
    if limitHit then m
    else if op.stream.Some? && !m.blocking then WithQueue(m, op.stream.value, Pushed(m.queues[op.stream.value], op))
    else WithQueue(m, m.zero, Pushed(m.queues[m.zero], op.(stream := Some(m.zero))))
  }

  function Added<S>(m: Manager<S>, s: S): Manager<S> {
    m.(order := m.order + [s], queues := m.queues[s := EmptyQueue()])
  }

  function Without<S(==)>(order: seq<S>, s: S): seq<S> {
    if order == [] then []
    else if order[0] == s then order[1..]
    else [order[0]] + Without(order[1..], s)
  }

  function Destroyed<S(==)>(m: Manager<S>, s: S): Manager<S> {
    m.(order := Without(m.order, s), queues := m.queues - {s})
  }

  // ---------------------------------------------------------------- GPU steps

  /** The checks of register_finished_kernel: the uid is in flight on the stream the map names. */
  predicate Registrable<S>(m: Manager<S>, uid: nat) {
    uid == 0 ||
    (uid in m.grid && m.grid[uid] in m.queues && Started(m.queues[m.grid[uid]])
        && m.queues[m.grid[uid]].ops[0].kernel == uid)
  }

  function Registered<S>(m: Manager<S>, uid: nat): Manager<S>
    requires Registrable(m, uid)
  {
    if uid == 0 then m
    else
      var s := m.grid[uid];
      WithQueue(m, s, Completed(m.queues[s])).(grid := m.grid - {uid}, gpu := m.gpu - {uid})
  }

  function ConcurrentEmpty<S>(m: Manager<S>): bool
    requires forall s | s in m.order :: s in m.queues
  {
    forall s | s in m.order :: m.queues[s].ops == []
  }

  /** The first concurrent stream that has work and is idle. */
  function Ready<S>(queues: map<S, Queue<S>>, order: seq<S>): Option<S>
    requires forall s | s in order :: s in queues
  {
    if order == [] then None
    else if !queues[order[0]].pending && queues[order[0]].ops != [] then Some(order[0])
    else Ready(queues, order[1..])
  }

  /** Starting the front operation of `s`; kernels are entered in the grid map. */
  function StartFront<S>(m: Manager<S>, s: S): (Manager<S>, Op<S>)
    requires s in m.queues && m.queues[s].ops != []
  {
    var op := m.queues[s].ops[0];
    var m' := WithQueue(m, s, m.queues[s].(pending := true));
    (if Kernel(op) then m'.(grid := m'.grid[op.kernel := s]) else m', op)
  }

  /** Stream zero is serviced from the moment the concurrent streams are all empty. */
  function Prepared<S>(m: Manager<S>): Manager<S>
    requires WellFormed(m)
  {
    if ConcurrentEmpty(m) then m.(serviceZero := true) else m
  }

  /** Stream zero while it is being serviced, else the first concurrent stream that is ready. */
  function Chosen<S>(m: Manager<S>): (Manager<S>, Op<S>)
    requires WellFormed(m)
  {
    if m.serviceZero then
      if m.queues[m.zero].ops != [] then
        if !m.queues[m.zero].pending then StartFront(m, m.zero) else (m, NoOperation())
      else (m.(serviceZero := false), NoOperation())
    else
      ReadyHasWork(m.queues, m.order);
      match Ready(m.queues, m.order)
      case Some(s) => StartFront(m, s)
      case None => (m, NoOperation())
  }

  /** `front`: choose the operation to service next, or none. */
  function Front<S>(m: Manager<S>): (Manager<S>, Op<S>)
    requires WellFormed(m)
  {
    Chosen(Prepared(m))
  }

  lemma ReadyHasWork<S>(queues: map<S, Queue<S>>, order: seq<S>)
    requires forall s | s in order :: s in queues
    ensures var r := Ready(queues, order);
            r.Some? ==> r.value in order && queues[r.value].ops != [] && !queues[r.value].pending
  {
  }

  /** What performing `op` asserts: it is not done and its stream is waiting for it. */
  predicate Performable<S>(m: Manager<S>, op: Op<S>) {
    op.kind == NoOp ||
    (!op.done && op.stream.Some? && op.stream.value in m.queues && Started(m.queues[op.stream.value])
     && (Kernel(op) && op.simMode ==> Registrable(m, op.kernel)))
  }

  /** `do_operation`: copies and events complete at once; a functionally simulated kernel too; a
      timed kernel is handed to the simulator if it has room. */
  function Performed<S>(m: Manager<S>, op: Op<S>, canStart: bool): Manager<S>
    requires Performable(m, op)
  {
    if op.kind == NoOp then m
    else if !Kernel(op) then WithQueue(m, op.stream.value, Completed(m.queues[op.stream.value]))
    else if !canStart then m
    else if op.simMode then Registered(m, op.kernel)
    else m.(gpu := m.gpu + {op.kernel})
  }
}
