/** Which operation the GPU thread serves next, and that all operations are served in the end. */
module StreamService {
  import opened StreamProtocol
  import opened StreamInvariant

  // ---------------------------------------------------------------- the choice

  /** The stream has work and none of it is under way. */
  predicate Idle<S>(m: Manager<S>, s: S)
    requires s in m.queues
  {
    !m.queues[s].pending && m.queues[s].ops != []
  }

  /** The i-th concurrent stream is the first that is idle. */
  ghost predicate FirstIdle<S>(m: Manager<S>, i: nat)
    requires i < |m.order| && forall s | s in m.order :: s in m.queues
  {
    Idle(m, m.order[i]) && forall j | 0 <= j < i :: !Idle(m, m.order[j])
  }

  /** The front operation of `s` gets under way, and nothing else changes but the service flag. */
  predicate Begins<S(==)>(m: Manager<S>, m': Manager<S>, op: Op<S>, s: S, serviceZero: bool)
    requires s in m.queues
  {
    && m.queues[s].ops != [] && op == m.queues[s].ops[0]
    && m' == m.(queues := m.queues[s := m.queues[s].(pending := true)], serviceZero := serviceZero,
                grid := if op.kind == KernelLaunch then m.grid[op.kernel := s] else m.grid)
  }

  predicate BeginsNone<S(==)>(m: Manager<S>, m': Manager<S>, op: Op<S>, serviceZero: bool) {
    op.kind == NoOp && m' == m.(serviceZero := serviceZero)
  }

  /** Stream zero is served once all concurrent streams are empty, until it is empty itself; at other
      times the first concurrent stream that is idle is. */
  ghost predicate Serves<S>(m: Manager<S>, m': Manager<S>, op: Op<S>)
    requires m.zero in m.queues && forall s | s in m.order :: s in m.queues
  {
    if m.serviceZero || forall s | s in m.order :: m.queues[s].ops == [] then
      && (m.queues[m.zero].ops == [] ==> BeginsNone(m, m', op, false))
      && (m.queues[m.zero].ops != [] && m.queues[m.zero].pending ==> BeginsNone(m, m', op, true))
      && (Idle(m, m.zero) ==> Begins(m, m', op, m.zero, true))
    else
      && ((forall s | s in m.order :: !Idle(m, s)) ==> BeginsNone(m, m', op, false))
      && forall i: nat | i < |m.order| && FirstIdle(m, i) :: Begins(m, m', op, m.order[i], false)
  }

  lemma {:induction false} ReadyIsFirst<S>(queues: map<S, Queue<S>>, order: seq<S>, i: nat)
    requires (forall s | s in order :: s in queues) && i < |order|
    requires !queues[order[i]].pending && queues[order[i]].ops != []
    requires forall j | 0 <= j < i :: queues[order[j]].pending || queues[order[j]].ops == []
    ensures Ready(queues, order) == Some(order[i])
  {
    if i > 0 {
      assert order[0] == order[0];
      ReadyIsFirst(queues, order[1..], i - 1);
    }
  }

  lemma {:induction false} NotReady<S>(queues: map<S, Queue<S>>, order: seq<S>)
    requires forall s | s in order :: s in queues
    requires forall s | s in order :: queues[s].pending || queues[s].ops == []
    ensures Ready(queues, order) == None
  {
    if order != [] {
      NotReady(queues, order[1..]);
    }
  }

  lemma FrontServes<S>(m: Manager<S>)
    requires WellFormed(m)
    ensures Serves(m, Front(m).0, Front(m).1)
  {
    hide QueueInv, Ready;
    var (m', op) := Front(m);
    if !(m.serviceZero || forall s | s in m.order :: m.queues[s].ops == []) {
      assert Prepared(m) == m;
      if forall s | s in m.order :: !Idle(m, s) {
        NotReady(m.queues, m.order);
      }
      forall i: nat | i < |m.order| && FirstIdle(m, i)
        ensures Begins(m, m', op, m.order[i], false)
      {
        assert forall j | 0 <= j < i :: !Idle(m, m.order[j]);
        ReadyIsFirst(m.queues, m.order, i);
      }
    }
  }

  // ---------------------------------------------------------------- what is left to do

  /** The number of operations queued on these streams. */
  function Queued<S>(queues: map<S, Queue<S>>, order: seq<S>): nat
    requires forall s | s in order :: s in queues
  {
    if order == [] then 0 else |queues[order[0]].ops| + Queued(queues, order[1..])
  }

  predicate Distinct<S(==)>(order: seq<S>) {
    forall i, j | 0 <= i < j < |order| :: order[i] != order[j]
  }

  lemma {:induction false} QueuedSame<S>(queues: map<S, Queue<S>>, queues': map<S, Queue<S>>, order: seq<S>)
    requires forall s | s in order :: s in queues && s in queues' && |queues[s].ops| == |queues'[s].ops|
    ensures Queued(queues, order) == Queued(queues', order)
  {
    if order != [] { QueuedSame(queues, queues', order[1..]); }
  }

  /** A change to the queue of one stream changes the number by as much. */
  lemma {:induction false} QueuedChange<S>(queues: map<S, Queue<S>>, s: S, q: Queue<S>, order: seq<S>)
    requires (forall t | t in order :: t in queues) && s in order && Distinct(order)
    ensures Queued(queues[s := q], order) + |queues[s].ops| == Queued(queues, order) + |q.ops|
  {
    var rest := order[1..];
    assert forall i | 0 <= i < |rest| :: rest[i] == order[i + 1];
    if order[0] == s {
      QueuedSame(queues, queues[s := q], rest);
    } else {
      QueuedChange(queues, s, q, rest);
    }
  }

  /** Different streams with work: no more than there is work. */
  lemma {:induction false} InjectiveBound<S>(queues: map<S, Queue<S>>, order: seq<S>, grid: map<nat, S>, uids: set<nat>)
    requires forall s | s in order :: s in queues
    requires forall u | u in uids :: u in grid && grid[u] in order && queues[grid[u]].ops != []
    requires forall u, v | u in uids && v in uids && grid[u] == grid[v] :: u == v
    ensures |uids| <= Queued(queues, order)
  {
    if order == [] {
      assert uids == {};
    } else {
      var s, rest := order[0], order[1..];
      assert order == [s] + rest;
      if u :| u in uids && grid[u] == s {
        InjectiveBound(queues, rest, grid, uids - {u});
        assert uids == (uids - {u}) + {u};
      } else {
        InjectiveBound(queues, rest, grid, uids);
      }
    }
  }

  /** Stream zero and the concurrent streams, each once. */
  ghost predicate Listed<S>(m: Manager<S>) {
    && m.zero in m.queues && m.zero !in m.order && Distinct(m.order)
    && (forall s | s in m.order :: s in m.queues)
    && (forall s | s in m.queues :: s == m.zero || s in m.order)
  }

  lemma InvLists<S>(m: Manager<S>)
    requires WellFormed(m)
    ensures Listed(m)
  {
  }

  function AllStreams<S>(m: Manager<S>): seq<S> {
    [m.zero] + m.order
  }

  lemma AllListed<S>(m: Manager<S>)
    requires Listed(m)
    ensures Distinct(AllStreams(m)) && forall s :: s in AllStreams(m) <==> s in m.queues
  {
    var all := AllStreams(m);
    assert forall i | 0 < i < |all| :: all[i] == m.order[i - 1] && all[i] in m.order;
  }

  /** All operations that are not completed. */
  ghost function Work<S>(m: Manager<S>): nat
    requires Listed(m)
  {
    AllListed(m);
    Queued(m.queues, AllStreams(m))
  }

  /** One queue changes. */
  lemma WorkChange<S>(m: Manager<S>, m': Manager<S>, s: S, q: Queue<S>)
    requires Listed(m) && s in m.queues && m'.zero == m.zero && m'.order == m.order && m'.queues == m.queues[s := q]
    ensures Listed(m') && Work(m') + |m.queues[s].ops| == Work(m) + |q.ops|
  {
    AllListed(m);
    AllListed(m');
    QueuedChange(m.queues, s, q, AllStreams(m));
  }

  /** Every kernel under way is inside the simulator. */
  ghost predicate AllRoomed<S>(m: Manager<S>) {
    m.gpu == m.grid.Keys
  }

  /** The kernels inside the simulator are queued. */
  lemma GpuIsWork<S>(m: Manager<S>)
    requires Inv(m)
    ensures Listed(m) && |m.gpu| <= Work(m)
  {
    InvLists(m);
    AllListed(m);
    hide WellFormed, UniqueKernels;
    forall u | u in m.gpu
      ensures u in m.grid && m.grid[u] in AllStreams(m) && m.queues[m.grid[u]].ops != []
    {
      assert InFlight(m.queues, m.grid[u], u);
    }
    forall u, v | u in m.gpu && v in m.gpu && m.grid[u] == m.grid[v]
      ensures u == v
    {
      assert InFlight(m.queues, m.grid[u], u) && InFlight(m.queues, m.grid[v], v);
    }
    InjectiveBound(m.queues, AllStreams(m), m.grid, m.gpu);
  }

  /** What a round of service uses up: an operation counts four, less two once its kernel is inside
      the simulator, and one more while stream zero is being serviced. */
  ghost function Left<S>(m: Manager<S>): int
    requires Listed(m)
  {
    4 * Work(m) - 2 * |m.gpu| + if m.serviceZero then 1 else 0
  }

  lemma OnFlight<S>(m: Manager<S>, uid: nat)
    requires Inv(m) && uid in m.gpu
    ensures uid in m.grid && m.grid[uid] in m.queues && Started(m.queues[m.grid[uid]])
    ensures m.queues[m.grid[uid]].ops[0].kernel == uid && Kernel(m.queues[m.grid[uid]].ops[0])
  {
    hide WellFormed, UniqueKernels;
    assert InFlight(m.queues, m.grid[uid], uid);
  }

  lemma InvParts<S>(m: Manager<S>)
    requires Inv(m)
    ensures WellFormed(m) && Listed(m) && UniqueKernels(m.queues) && GridExact(m) && m.gpu <= m.grid.Keys
  {
  }

  lemma RegisteredUses<S>(m: Manager<S>, uid: nat)
    requires Listed(m) && uid in m.gpu && Registrable(m, uid) && uid > 0
    ensures var m' := Registered(m, uid);
            Listed(m') && Left(m') == Left(m) - 2 && Work(m') == Work(m) - 1 && (AllRoomed(m) ==> AllRoomed(m'))
  {
    hide Listed, Work;
    var s := m.grid[uid];
    WorkChange(m, Registered(m, uid), s, Completed(m.queues[s]));
  }

  lemma RegisterUses<S>(m: Manager<S>, uid: nat)
    requires Inv(m) && (uid == 0 || uid in m.gpu)
    ensures Registrable(m, uid) && Listed(m) && Listed(Registered(m, uid)) && Inv(Registered(m, uid))
    ensures Left(Registered(m, uid)) == Left(m) - if uid == 0 then 0 else 2
    ensures Work(Registered(m, uid)) == Work(m) - if uid == 0 then 0 else 1
    ensures AllRoomed(m) ==> AllRoomed(Registered(m, uid))
  {
    hide Inv, Listed, Work, Left, Registrable, WellFormed, UniqueKernels, GridExact, AllRoomed;
    RegisterKeepsInv(m, uid);
    InvParts(m);
    if uid != 0 { RegisteredUses(m, uid); }
  }

  /** The operation on `s` that has just been started is performed by a GPU with room. */
  lemma PerformUses<S>(m: Manager<S>, s: S, op: Op<S>)
    requires Listed(m) && s in m.queues && Started(m.queues[s]) && op == m.queues[s].ops[0] && op.stream == Some(s)
    requires op.kind != NoOp && Performable(m, op)
    requires Kernel(op) ==> op.kernel > 0 && op.kernel in m.grid && m.grid[op.kernel] == s && op.kernel !in m.gpu
    ensures var m' := Performed(m, op, true);
            && Listed(m') && Left(m') <= Left(m) - 2 && Work(m') <= Work(m)
            && (m.grid.Keys == (if Kernel(op) then m.gpu + {op.kernel} else m.gpu) ==> AllRoomed(m'))
  {
    var m' := Performed(m, op, true);
    hide Work;
    if Kernel(op) && !op.simMode {
      SameWork(m, m');
    } else {
      hide Listed;
      WorkChange(m, m', s, Completed(m.queues[s]));
    }
  }

  lemma SameWork<S>(m: Manager<S>, m': Manager<S>)
    requires Listed(m) && m'.zero == m.zero && m'.order == m.order && m'.queues == m.queues
    ensures Listed(m') && Work(m') == Work(m)
  {
  }

  lemma StartFacts<S>(m: Manager<S>, s: S)
    requires Inv(m) && s in m.queues && Idle(m, s)
    ensures var op := m.queues[s].ops[0];
            op.stream == Some(s) && op.kind != NoOp
            && (Kernel(op) ==> op.kernel > 0 && op.kernel !in m.grid && op.kernel !in m.gpu)
  {
    hide UniqueKernels, GridExact;
    FrontOfQueue(s, m.queues[s]);
    if Kernel(m.queues[s].ops[0]) { NotYetInGrid(m, s); }
  }

  lemma StartLeaves<S>(m: Manager<S>, s: S)
    requires Listed(m) && s in m.queues && Idle(m, s)
    ensures var (m1, op) := StartFront(m, s);
            && Listed(m1) && Left(m1) == Left(m) && Work(m1) == Work(m)
            && s in m1.queues && Started(m1.queues[s]) && op == m1.queues[s].ops[0] == m.queues[s].ops[0]
            && m1.grid == (if Kernel(op) then m.grid[op.kernel := s] else m.grid) && m1.gpu == m.gpu
  {
    hide Listed, Work;
    WorkChange(m, StartFront(m, s).0, s, m.queues[s].(pending := true));
  }

  lemma StartPerformable<S>(m: Manager<S>, s: S)
    requires Inv(m) && s in m.queues && Idle(m, s) && (if s == m.zero then m.serviceZero else !m.serviceZero)
    ensures Performable(StartFront(m, s).0, StartFront(m, s).1)
  {
    hide Inv, MidInv, Performable, Performed;
    StartKeepsInv(m, s);
    PerformKeepsInv(StartFront(m, s).0, s, StartFront(m, s).1, true);
  }

  /** The front operation of `s` is started and performed. */
  lemma StartUses<S>(m: Manager<S>, s: S)
    requires Inv(m) && s in m.queues && Idle(m, s) && (if s == m.zero then m.serviceZero else !m.serviceZero)
    ensures var (m1, op) := StartFront(m, s);
            && Performable(m1, op) && Listed(m)
            && var m' := Performed(m1, op, true);
               Listed(m') && Left(m') <= Left(m) - 2 && Work(m') <= Work(m) && (AllRoomed(m) ==> AllRoomed(m'))
  {
    hide Inv, Listed, Work, Left, WellFormed, UniqueKernels, GridExact, Performed, Performable, StartFront;
    InvParts(m);
    StartFacts(m, s);
    StartPerformable(m, s);
    StartLeaves(m, s);
    PerformUses(StartFront(m, s).0, s, StartFront(m, s).1);
  }

  // ---------------------------------------------------------------- one round of service

  lemma {:induction false} NothingQueued<S>(queues: map<S, Queue<S>>, order: seq<S>)
    requires forall s | s in order :: s in queues
    ensures Queued(queues, order) == 0 <==> forall s | s in order :: queues[s].ops == []
  {
    if order != [] {
      NothingQueued(queues, order[1..]);
      assert order == [order[0]] + order[1..];
    }
  }

  lemma NoWork<S>(m: Manager<S>)
    requires Listed(m)
    ensures Work(m) == 0 <==> forall s | s in m.queues :: m.queues[s].ops == []
  {
    AllListed(m);
    NothingQueued(m.queues, AllStreams(m));
  }

  lemma PendingInGrid<S>(m: Manager<S>, s: S)
    requires Inv(m) && s in m.queues && m.queues[s].pending
    ensures m.grid != map[]
  {
    hide UniqueKernels;
    assert QueueInv(s, m.queues[s]);
    assert InFlight(m.queues, s, m.queues[s].ops[0].kernel);
  }

  lemma NothingPending<S>(m: Manager<S>)
    requires Inv(m) && AllRoomed(m) && m.gpu == {}
    ensures forall s | s in m.queues :: !m.queues[s].pending
  {
    hide Inv;
    forall s | s in m.queues
      ensures !m.queues[s].pending
    {
      if m.queues[s].pending {
        PendingInGrid(m, s);
        assert false;
      }
    }
  }

  lemma FlagUses<S>(m: Manager<S>, flag: bool)
    requires Listed(m)
    ensures var m' := m.(serviceZero := flag);
            Listed(m') && Work(m') == Work(m) && (AllRoomed(m') <==> AllRoomed(m))
            && Left(m') == Left(m) - (if m.serviceZero then 1 else 0) + (if flag then 1 else 0)
  {
    hide Work, Listed;
    SameWork(m, m.(serviceZero := flag));
  }

  /** What a round leaves undone: no more than before, and strictly less if it gets on. */
  ghost predicate Progress<S>(m: Manager<S>, m': Manager<S>, strict: bool) {
    && Listed(m) && Listed(m') && Work(m') <= Work(m) && (AllRoomed(m) ==> AllRoomed(m'))
    && Left(m') <= Left(m) - if strict then 1 else 0
  }

  /** Nothing is under way, and something is queued. */
  ghost predicate Ripe<S>(m: Manager<S>)
    requires Listed(m)
  {
    (forall s | s in m.queues :: !m.queues[s].pending) && exists s :: s in m.queues && m.queues[s].ops != []
  }

  lemma ServeZero<S>(m: Manager<S>)
    requires Inv(m) && Prepared(m).serviceZero
    ensures var (m1, op) := Front(m);
            Listed(m) && Performable(m1, op) && Progress(m, Performed(m1, op, true), Ripe(m))
  {
    InvLists(m);
    ExclusiveZero(m);
    PreparedKeepsInv(m);
    FlagUses(m, true);
    FlagUses(m, false);
    var pm := m.(serviceZero := true);
    assert Prepared(m) == pm;
    hide Inv, WellFormed, UniqueKernels, GridExact, Work, Left, AllRoomed, Performed, Performable, StartFront,
      Exclusive;
    if m.queues[m.zero].ops == [] {
      assert Performed(pm.(serviceZero := false), NoOperation(), true) == m.(serviceZero := false) by {
        NothingPerformed(m.(serviceZero := false));
      }
    } else if m.queues[m.zero].pending {
      NothingPerformed(pm);
      assert pm == m;
    } else {
      StartUses(pm, m.zero);
    }
  }

  lemma ExclusiveZero<S>(m: Manager<S>)
    requires Inv(m)
    ensures m.queues[m.zero].pending ==> m.serviceZero
    ensures Prepared(m).serviceZero ==> Prepared(m) == m.(serviceZero := true)
    ensures Prepared(m).serviceZero && !m.serviceZero ==> forall s | s in m.order :: m.queues[s].ops == []
  {
  }

  lemma NothingPerformed<S>(m: Manager<S>)
    ensures Performable(m, NoOperation()) && Performed(m, NoOperation(), true) == m
  {
  }

  lemma ServeConcurrent<S>(m: Manager<S>)
    requires Inv(m) && !Prepared(m).serviceZero
    ensures var (m1, op) := Front(m);
            Listed(m) && Performable(m1, op) && Progress(m, Performed(m1, op, true), Ripe(m))
  {
    InvLists(m);
    ReadyHasWork(m.queues, m.order);
    assert Prepared(m) == m && !ConcurrentEmpty(m);
    hide Inv, WellFormed, UniqueKernels, GridExact, Work, Left, AllRoomed, Performed, Performable, StartFront, Ready;
    match Ready(m.queues, m.order) {
      case Some(s) =>
        StartUses(m, s);
      case None =>
        NothingPerformed(m);
        if Ripe(m) {
          var s :| s in m.order && m.queues[s].ops != [];
          SomeReady(m.queues, m.order, s);
        }
    }
  }

  lemma {:induction false} SomeReady<S>(queues: map<S, Queue<S>>, order: seq<S>, s: S)
    requires (forall t | t in order :: t in queues) && s in order && !queues[s].pending && queues[s].ops != []
    ensures Ready(queues, order).Some?
  {
    if order[0] != s { SomeReady(queues, order[1..], s); }
  }

  /** A round of service by a GPU that has room never adds to what is left, and takes something off it
      if a kernel is reported or none is under way. */
  lemma RoundUses<S>(m: Manager<S>, finished: nat)
    requires Inv(m) && (finished == 0 || finished in m.gpu)
    ensures Listed(m)
    ensures Progress(m, Operated(m, finished, true), finished != 0 || (AllRoomed(m) && m.gpu == {} && Work(m) > 0))
  {
    RegisterUses(m, finished);
    var m1 := Registered(m, finished);
    hide Inv, WellFormed, UniqueKernels, GridExact, Work, Left, AllRoomed, Performed, Performable, Front, Prepared,
      Registered, Listed, Ripe;
    if Prepared(m1).serviceZero {
      ServeZero(m1);
    } else {
      ServeConcurrent(m1);
    }
    if finished == 0 && AllRoomed(m) && m.gpu == {} && Work(m) > 0 {
      Ripens(m);
      assert m1 == m by { NothingRegistered(m); }
    }
  }

  lemma NothingRegistered<S>(m: Manager<S>)
    ensures Registrable(m, 0) && Registered(m, 0) == m
  {
  }

  lemma Ripens<S>(m: Manager<S>)
    requires Inv(m) && AllRoomed(m) && m.gpu == {} && Listed(m) && Work(m) > 0
    ensures Ripe(m)
  {
    NothingPending(m);
    NoWork(m);
  }

  // ---------------------------------------------------------------- everything is served

  /** Rounds of service in which every kernel finds room, and one that is inside the simulator is
      reported whenever there are any. */
  ghost predicate Attended<S>(ms: seq<Manager<S>>, finished: seq<nat>) {
    && |ms| == |finished| + 1 && Inv(ms[0]) && AllRoomed(ms[0])
    && forall k | 0 <= k < |finished| && Inv(ms[k]) ::
         && (if ms[k].gpu == {} then finished[k] == 0 else finished[k] in ms[k].gpu && finished[k] != 0)
         && ms[k + 1] == Operated(ms[k], finished[k], true)
  }

  lemma RoundAttended<S>(m: Manager<S>, finished: nat, m': Manager<S>)
    requires Inv(m) && AllRoomed(m)
    requires if m.gpu == {} then finished == 0 else finished in m.gpu && finished != 0
    requires m' == Operated(m, finished, true)
    ensures Inv(m') && Progress(m, m', Listed(m) && Work(m) > 0)
  {
    hide Operated, Work, Listed, Inv;
    InvParts(m);
    RoundUses(m, finished);
    StepKeepsInv(m, Service(finished, true));
  }

  lemma NextRound<S>(ms: seq<Manager<S>>, finished: seq<nat>, k: nat)
    requires Attended(ms, finished) && k < |finished| && Inv(ms[k]) && AllRoomed(ms[k])
    ensures Inv(ms[k + 1]) && Progress(ms[k], ms[k + 1], Listed(ms[k]) && Work(ms[k]) > 0)
  {
    hide Operated, Work, Listed, Inv, Progress, AllRoomed;
    RoundAttended(ms[k], finished[k], ms[k + 1]);
  }

  lemma {:induction false} RoundsUse<S>(ms: seq<Manager<S>>, finished: seq<nat>, k: nat)
    requires Attended(ms, finished) && k < |ms|
    ensures Inv(ms[k]) && AllRoomed(ms[k]) && Listed(ms[0]) && Listed(ms[k])
    ensures Work(ms[k]) == 0 || Left(ms[k]) <= Left(ms[0]) - k
  {
    if k == 0 {
      hide GridExact, UniqueKernels, Work, Left;
      InvParts(ms[0]);
    } else {
      hide Attended, Inv, Work, Left, AllRoomed, Listed;
      assert |ms| == |finished| + 1 by { AttendedLength(ms, finished); }
      RoundsUse(ms, finished, k - 1);
      NextRound(ms, finished, k - 1);
    }
  }

  lemma AttendedLength<S>(ms: seq<Manager<S>>, finished: seq<nat>)
    requires Attended(ms, finished)
    ensures |ms| == |finished| + 1
  {
    hide Inv, Operated;
  }

  /** Then every operation that is queued completes, within four rounds for each and one more. */
  lemma AllServed<S>(ms: seq<Manager<S>>, finished: seq<nat>)
    requires Attended(ms, finished)
    ensures Listed(ms[0])
    ensures |finished| > 4 * Work(ms[0]) ==>
              var m := ms[|finished|];
              forall s | s in m.queues :: m.queues[s].ops == [] && m.queues[s].completed == m.queues[s].pushed
  {
    var n := |finished|;
    RoundsUse(ms, finished, n);
    GpuIsWork(ms[n]);
    if n > 4 * Work(ms[0]) {
      NoWork(ms[n]);
      hide UniqueKernels, GridExact, Work, AllRoomed, Listed;
      assert Work(ms[n]) == 0;
      forall s | s in ms[n].queues
        ensures ms[n].queues[s].ops == [] && ms[n].queues[s].completed == ms[n].queues[s].pushed
      {
        assert QueueInv(s, ms[n].queues[s]);
      }
    }
  }

  // ---------------------------------------------------------------- kernels without room

  /** The kernel at the front of `s` is under way, but the simulator does not know of it. */
  ghost predicate Stuck<S>(m: Manager<S>, s: S) {
    s in m.queues && Started(m.queues[s]) && Kernel(m.queues[s].ops[0]) && m.queues[s].ops[0].kernel !in m.gpu
  }

  lemma RegisterLeavesStuck<S>(m: Manager<S>, uid: nat, s: S)
    requires Inv(m) && (uid == 0 || uid in m.gpu) && Stuck(m, s)
    ensures Registrable(m, uid) && Stuck(Registered(m, uid), s)
    ensures Registered(m, uid).queues[s] == m.queues[s]
  {
    RegisterKeepsInv(m, uid);
    if uid != 0 {
      OnFlight(m, uid);
      hide Inv;
      assert m.grid[uid] != s;
    }
  }

  lemma OtherKernel<S>(m: Manager<S>, s: S, t: S)
    requires UniqueKernels(m.queues) && s in m.queues && t in m.queues && s != t
    requires m.queues[s].ops != [] && m.queues[t].ops != [] && Kernel(m.queues[s].ops[0]) && Kernel(m.queues[t].ops[0])
    ensures m.queues[s].ops[0].kernel != m.queues[t].ops[0].kernel
  {
  }

  lemma PreparedWellFormed<S>(m: Manager<S>)
    requires WellFormed(m)
    ensures WellFormed(Prepared(m))
  {
    hide QueueInv;
  }

  /** What performing the operation that was started on `t` leaves of `s`. */
  lemma PerformLeavesStuck<S>(m: Manager<S>, t: S, op: Op<S>, canStart: bool, s: S)
    requires s != t && Stuck(m, s) && Performable(m, op) && op.stream == Some(t) && op.kind != NoOp
    requires Kernel(op) ==> op.kernel > 0 && op.kernel in m.grid && m.grid[op.kernel] == t
    requires Kernel(op) ==> op.kernel != m.queues[s].ops[0].kernel
    ensures var m' := Performed(m, op, canStart); Stuck(m', s) && m'.queues[s] == m.queues[s]
  {
  }

  lemma StartLeavesStuck<S>(m: Manager<S>, t: S, canStart: bool, s: S)
    requires Inv(m) && t in m.queues && Idle(m, t) && Stuck(m, s)
    requires Performable(StartFront(m, t).0, StartFront(m, t).1)
    ensures var m' := Performed(StartFront(m, t).0, StartFront(m, t).1, canStart);
            Stuck(m', s) && m'.queues[s] == m.queues[s]
  {
    StartFacts(m, t);
    InvParts(m);
    hide Inv, UniqueKernels, GridExact, WellFormed, Listed, Performed, Performable;
    if Kernel(m.queues[t].ops[0]) { OtherKernel(m, s, t); }
    PerformLeavesStuck(StartFront(m, t).0, t, StartFront(m, t).1, canStart, s);
  }

  lemma ServiceLeavesStuck<S>(m: Manager<S>, canStart: bool, s: S)
    requires Inv(m) && Stuck(m, s)
    ensures var (m1, op) := Front(m);
            && Performable(m1, op)
            && var m' := Performed(m1, op, canStart); Stuck(m', s) && m'.queues[s] == m.queues[s]
  {
    ServiceKeepsInv(m, canStart);
    PreparedKeepsInv(m);
    var pm := Prepared(m);
    ReadyHasWork(pm.queues, pm.order);
    hide Inv, WellFormed, UniqueKernels, GridExact, Ready, StartFront, Performed, Performable, QueueInv;
    assert Stuck(pm, s) && pm.queues == m.queues;
    if pm.serviceZero {
      if pm.queues[pm.zero].ops == [] {
        Unperformed(pm.(serviceZero := false), canStart);
      } else if pm.queues[pm.zero].pending {
        Unperformed(pm, canStart);
      } else {
        StartLeavesStuck(pm, pm.zero, canStart, s);
      }
    } else {
      match Ready(pm.queues, pm.order) {
        case Some(t) => StartLeavesStuck(pm, t, canStart, s);
        case None => Unperformed(pm, canStart);
      }
    }
  }

  lemma Unperformed<S>(m: Manager<S>, canStart: bool)
    ensures Performable(m, NoOperation()) && Performed(m, NoOperation(), canStart) == m
  {
  }

  /** No step gets it going again: its stream keeps it in front, and completes nothing more. */
  lemma StepLeavesStuck<S>(m: Manager<S>, e: Event<S>, s: S)
    requires Inv(m) && Enabled(m, e) && Stuck(m, s)
    ensures var m' := Stepped(m, e);
            Stuck(m', s) && m'.queues[s].ops[0] == m.queues[s].ops[0]
            && m'.queues[s].completed == m.queues[s].completed
  {
    hide Inv, UniqueKernels, GridExact, QueueInv, Front, Performed, Performable, Registered, Registrable;
    InvParts(m);
    match e
    case Push(op, limitHit) =>
    case Add(t) =>
    case Destroy(t) =>
    case Finish(uid) =>
      RegisterLeavesStuck(m, uid, s);
    case Service(uid, canStart) =>
      RegisterKeepsInv(m, uid);
      RegisterLeavesStuck(m, uid, s);
      ServiceLeavesStuck(Registered(m, uid), canStart, s);
  }

  lemma {:induction false} StuckForever<S>(zero: S, blocking: bool, events: seq<Event<S>>, states: seq<Manager<S>>,
      s: S, k: nat, j: nat)
    requires IsRun(zero, blocking, events, states) && k <= j < |states| && Stuck(states[k], s)
    ensures Stuck(states[j], s) && states[j].queues[s].ops[0] == states[k].queues[s].ops[0]
    ensures states[j].queues[s].completed == states[k].queues[s].completed
    decreases j
  {
    hide Inv, Enabled, Stepped;
    if k < j {
      StuckForever(zero, blocking, events, states, s, k, j - 1);
      RunKeepsInv(zero, blocking, events, states, j - 1);
      StepLeavesStuck(states[j - 1], events[j - 1], s);
    }
  }

  /** The operation that a round of service starts. */
  ghost function NextStarted<S>(m: Manager<S>, finished: nat): Op<S>
    requires Inv(m) && (finished == 0 || finished in m.gpu)
  {
    RegisterKeepsInv(m, finished);
    Front(Registered(m, finished)).1
  }

  lemma FrontKernel<S>(m: Manager<S>)
    requires Inv(m) && Kernel(Front(m).1)
    ensures var (m1, op) := Front(m);
            && op.stream.Some? && op.stream.value in m1.queues && op.kernel in m1.grid && op.kernel !in m1.gpu
            && Stuck(m1, op.stream.value) && op == m1.queues[op.stream.value].ops[0]
  {
    PreparedKeepsInv(m);
    var pm := Prepared(m);
    ReadyHasWork(pm.queues, pm.order);
    hide Inv, UniqueKernels, GridExact, Ready, QueueInv;
    var s := if pm.serviceZero then pm.zero else Ready(pm.queues, pm.order).value;
    StartFacts(pm, s);
  }

  /** As long as all kernels under way are inside the simulator, a round keeps it so if and only if it
      does not start a kernel while there is no room; if it does, that kernel is stuck. */
  lemma RoomExactly<S>(m: Manager<S>, finished: nat, canStart: bool)
    requires Inv(m) && AllRoomed(m) && (finished == 0 || finished in m.gpu)
    ensures var (op, m') := (NextStarted(m, finished), Operated(m, finished, canStart));
            && (AllRoomed(m') <==> !(op.kind == KernelLaunch && !canStart))
            && (op.kind == KernelLaunch && !canStart ==> op.stream.Some? && Stuck(m', op.stream.value))
  {
    RegisterUses(m, finished);
    var m1 := Registered(m, finished);
    var (m2, op) := Front(m1);
    ServiceKeepsInv(m1, canStart);
    RoundUses(m, finished);
    hide Inv, UniqueKernels, GridExact, Ready, Front, Listed, Left, Work, Stuck, Registered;
    if Kernel(op) && !canStart { FrontKernel(m1); }
  }

  /** The only stream with work is stream zero, and it is idle: its front operation is served. */
  lemma ZeroIsServed<S>(m: Manager<S>)
    requires Inv(m) && m.order == [] && Idle(m, m.zero)
    ensures NextStarted(m, 0) == m.queues[m.zero].ops[0]
  {
    NothingRegistered(m);
    FrontServes(m);
    hide Inv, Front;
  }

  lemma OneQueued<S>(zero: S, op: Op<S>)
    requires op.kind == KernelLaunch && op.stream.None? && op.kernel > 0 && !op.done
    ensures var m0: Manager<S> := Initial(zero, false);
            && Inv(m0) && Pushable(m0, op)
            && var m1 := Accepted(m0, op, false);
               Inv(m1) && AllRoomed(m1) && m1.order == [] && m1.zero == zero && Idle(m1, zero)
               && m1.queues[zero].ops == [op.(stream := Some(zero))]
  {
    AcceptKeepsInv(Initial(zero, false), op, false);
  }

  /** It does happen: a kernel is pushed and chosen while there is no room. */
  lemma KernelWithoutRoom<S>(zero: S)
    ensures var op := Op(KernelLaunch, None, 1, false, false, 0);
            var m0: Manager<S> := Initial(zero, false);
            && Inv(m0) && Pushable(m0, op)
            && var m1 := Accepted(m0, op, false);
               Inv(m1) && Stuck(Operated(m1, 0, false), zero)
  {
    hide Inv, Pushable, Accepted, AllRoomed, Idle, Operated, NextStarted, Stuck;
    var op := Op(KernelLaunch, None, 1, false, false, 0);
    OneQueued(zero, op);
    var m1 := Accepted(Initial(zero, false), op, false);
    ZeroIsServed(m1);
    RoomExactly(m1, 0, false);
  }
}
