/** The worker pool as interleaved steps of one dispatcher and its workers, up to the call of stop. A step is one
    access to shared state. Mutexes and condition variables are explicit, and the dispatcher reads the statuses one
    by one without the workers' mutexes. */
module ThreadPool {
  datatype Option<+T> = None | Some(value: T)

  datatype Status = Idle | StartWork | WorkerReady | Working

  /** Where a worker thread is. The comment names the next thing that it does. */
  datatype Pc =
    | Enter        // lock its mutex
    | Check        // test its status
    | Parked       // (waiting on its condition variable)
    | Woken        // lock its mutex again
    | Claim        // write WORKING
    | Unlock       // unlock its mutex
    | Work         // run work_imp
    | Finish       // lock its mutex
    | SetIdle      // write IDLE
    | IdleUnlock   // unlock its mutex
    | LockQueue    // lock the queue mutex
    | Signal       // signal the queue condition variable
    | QueueUnlock  // unlock the queue mutex
  {
    predicate HoldsMutex() { Check? || Claim? || Unlock? || SetIdle? || IdleUnlock? }

    predicate HoldsQueue() { Signal? || QueueUnlock? }

    predicate AtWork() { Unlock? || Work? || Finish? || SetIdle? }

    /** Behind its IDLE status, but its queue signal is still to come. */
    predicate WillSignal() { IdleUnlock? || LockQueue? || Signal? }
  }

  /** Where the dispatcher is, and the worker that it is busy with. */
  datatype Dispatcher =
    | Out                          // call wait_worker or wait_worker_nb
    | Scan(k: nat, block: bool)    // read the status of worker k, or give up behind the last one
    | QParked                      // (waiting on the queue condition variable)
    | QWoken                       // lock the queue mutex again
    | Found(id: nat)               // unlock the queue mutex
    | Take(id: nat)                // lock the worker's mutex
    | SetReady(id: nat)            // write WORKER_READY
    | ReadyUnlock(id: nat)         // unlock the worker's mutex
    | Has(id: nat)                 // start the worker, release it, or forget about it
    | SetStart(id: nat)            // write START_WORK
    | Wake(id: nat)                // signal the worker's condition variable
    | StartUnlock(id: nat)         // unlock the worker's mutex
    | RelSet(id: nat)              // write IDLE
    | RelUnlock(id: nat)           // unlock the worker's mutex
    | RelQueue                     // lock the queue mutex
    | RelSignal                    // signal the queue condition variable
    | RelQueueUnlock               // unlock the queue mutex
  {
    predicate HoldsQueue() { Scan? || Found? || RelSignal? || RelQueueUnlock? }

    predicate HoldsMutex(i: nat)
    {
      (SetReady? || ReadyUnlock? || SetStart? || Wake? || StartUnlock? || RelSet? || RelUnlock?) && id == i
    }

    /** Worker i was found idle and is about to be handed out. */
    predicate Chose(i: nat) { (Found? || Take? || SetReady?) && id == i }

    /** Worker i is handed out and neither started nor released yet. */
    predicate Owns(i: nat) { (ReadyUnlock? || Has? || SetStart? || RelSet?) && id == i }

    /** Inside a call that waits for a worker. */
    predicate Waiting() { Scan? || QParked? || QWoken? || Found? || Take? || SetReady? || ReadyUnlock? }

    predicate Focus(n: nat)
    {
      && (Scan? ==> k <= n)
      && ((Found? || Take? || SetReady? || ReadyUnlock? || Has?) ==> id < n)
      && ((SetStart? || Wake? || StartUnlock? || RelSet? || RelUnlock?) ==> id < n)
    }
  }

  datatype Owner = Free | ByWorker | ByDispatcher

  datatype QueueOwner = NoOne | QWorker(i: nat) | QDispatcher

  datatype Event = Hand(id: nat) | Start(id: nat) | Run(id: nat) | Done(id: nat) | Release(id: nat) | Drop(id: nat)

  datatype Cell = Cell(status: Status, pc: Pc, mutex: Owner)

  datatype State = State(cells: seq<Cell>, queue: QueueOwner, disp: Dispatcher, log: seq<Event>)

  /** What the dispatcher's caller does next, where that is up to it. */
  datatype Choice = Ask(block: bool) | StartIt | ReleaseIt | DropIt

  /** The outcome of a step: the one cell it may change, the queue mutex, the dispatcher, and what it logs. */
  datatype Move = Move(cell: Cell, queue: QueueOwner, disp: Dispatcher, event: Option<Event>)

  function SignalQueue(d: Dispatcher): Dispatcher
  {
    if d.QParked? then QWoken else d
  }

  /** A worker waits to be signalled, or for a mutex. */
  predicate WorkerBlocked(c: Cell, q: QueueOwner)
  {
    || c.pc.Parked?
    || ((c.pc.Enter? || c.pc.Woken? || c.pc.Finish?) && !c.mutex.Free?)
    || (c.pc.LockQueue? && !q.NoOne?)
  }

  /** The next step of worker i, when it is not blocked. */
  function WorkerMove(c: Cell, i: nat, q: QueueOwner, d: Dispatcher): Move
    requires !WorkerBlocked(c, q)
  {
    match c.pc
    case Enter => Move(Cell(c.status, Check, ByWorker), q, d, None)
    case Woken => Move(Cell(c.status, Check, ByWorker), q, d, None)
    case Check =>
      if c.status != StartWork then Move(Cell(c.status, Parked, Free), q, d, None)
      else Move(Cell(c.status, Claim, c.mutex), q, d, None)
    case Claim => Move(Cell(Working, Unlock, c.mutex), q, d, None)
    case Unlock => Move(Cell(c.status, Work, Free), q, d, None)
    case Work => Move(Cell(c.status, Finish, c.mutex), q, d, Some(Run(i)))
    case Finish => Move(Cell(c.status, SetIdle, ByWorker), q, d, None)
    case SetIdle => Move(Cell(Idle, IdleUnlock, c.mutex), q, d, Some(Done(i)))
    case IdleUnlock => Move(Cell(c.status, LockQueue, Free), q, d, None)
    case LockQueue => Move(Cell(c.status, Signal, c.mutex), QWorker(i), d, None)
    case Signal => Move(Cell(c.status, QueueUnlock, c.mutex), q, SignalQueue(d), None)
    case QueueUnlock => Move(Cell(c.status, Enter, c.mutex), NoOne, d, None)
  }

  /** The worker whose cell the dispatcher's next step looks at. */
  function FocusOf(d: Dispatcher): nat
  {
    match d
    case Scan(k, _) => k
    case Out => 0 case QParked => 0 case QWoken => 0 case RelQueue => 0 case RelSignal => 0 case RelQueueUnlock => 0
    case _ => d.id
  }

  /** The dispatcher waits for the mutex of the worker it is busy with, or for its caller's decision. */
  predicate FocusBlocked(c: Cell, d: Dispatcher, ch: Choice)
  {
    || (d.Take? && !c.mutex.Free?)
    || (d.Has? && (ch.Ask? || (!ch.DropIt? && !c.mutex.Free?)))
  }

  /** The next step of the dispatcher, looking at a worker's cell. */
  function FocusedMove(c: Cell, q: QueueOwner, d: Dispatcher, ch: Choice): Move
    requires !FocusBlocked(c, d, ch)
  {
    match d
    case Scan(k, block) => Move(c, q, if c.status.Idle? then Found(k) else Scan(k + 1, block), None)
    case Found(i) => Move(c, NoOne, Take(i), None)
    case Take(i) => Move(Cell(c.status, c.pc, ByDispatcher), q, SetReady(i), None)
    case SetReady(i) => Move(Cell(WorkerReady, c.pc, c.mutex), q, ReadyUnlock(i), Some(Hand(i)))
    case ReadyUnlock(i) => Move(Cell(c.status, c.pc, Free), q, Has(i), None)
    case Has(i) =>
      if ch.StartIt? then Move(Cell(c.status, c.pc, ByDispatcher), q, SetStart(i), None)
      else if ch.ReleaseIt? then Move(Cell(c.status, c.pc, ByDispatcher), q, RelSet(i), None)
      else Move(c, q, Out, Some(Drop(i)))
    case SetStart(i) => Move(Cell(StartWork, c.pc, c.mutex), q, Wake(i), Some(Start(i)))
    case Wake(i) => Move(if c.pc.Parked? then Cell(c.status, Woken, c.mutex) else c, q, StartUnlock(i), None)
    case StartUnlock(i) => Move(Cell(c.status, c.pc, Free), q, Out, None)
    case RelSet(i) => Move(Cell(Idle, c.pc, c.mutex), q, RelUnlock(i), Some(Release(i)))
    case RelUnlock(i) => Move(Cell(c.status, c.pc, Free), q, RelQueue, None)
    case _ => Move(c, q, d, None)
  }

  /** The next step of the dispatcher where it looks at no worker: the queue mutex and its own place change. */
  function QueueMove(q: QueueOwner, d: Dispatcher, ch: Choice): Option<(QueueOwner, Dispatcher)>
  {
    match d
    case Out => if q.NoOne? && ch.Ask? then Some((QDispatcher, Scan(0, ch.block))) else None
    case Scan(_, block) => Some((NoOne, if block then QParked else Out))
    case QParked => None
    case QWoken => if q.NoOne? then Some((QDispatcher, Scan(0, true))) else None
    case RelQueue => if q.NoOne? then Some((QDispatcher, RelSignal)) else None
    case RelSignal => Some((q, RelQueueUnlock))
    case RelQueueUnlock => Some((NoOne, Out))
    case _ => None
  }

  predicate Focused(n: nat, d: Dispatcher)
  {
    if d.Scan? then d.k < n
    else !(d.Out? || d.QParked? || d.QWoken? || d.RelQueue? || d.RelSignal? || d.RelQueueUnlock?)
  }

  /** One step of a run. The last two are wake-ups that nobody asked for, which condition variables permit. */
  datatype Action = Worker(i: nat) | Caller(ch: Choice) | SpuriousWorker(i: nat) | SpuriousDispatcher

  function Apply(s: State, i: nat, m: Move): State
    requires i < |s.cells|
  {
    State(s.cells[i := m.cell], m.queue, m.disp, Extend(s.log, m.event))
  }

  function Extend(log: seq<Event>, e: Option<Event>): seq<Event>
  {
    if e.None? then log else log + [e.value]
  }

  function Step(s: State, a: Action): Option<State>
  {
    match a
    case Worker(i) =>
      if i < |s.cells| && !WorkerBlocked(s.cells[i], s.queue)
      then Some(Apply(s, i, WorkerMove(s.cells[i], i, s.queue, s.disp))) else None
    case Caller(ch) =>
      if Focused(|s.cells|, s.disp) then
        var i := FocusOf(s.disp);
        if i < |s.cells| && !FocusBlocked(s.cells[i], s.disp, ch)
        then Some(Apply(s, i, FocusedMove(s.cells[i], s.queue, s.disp, ch))) else None
      else
        var m := QueueMove(s.queue, s.disp, ch);
        if m.None? then None else Some(s.(queue := m.value.0, disp := m.value.1))
    case SpuriousWorker(i) =>
      if i < |s.cells| && s.cells[i].pc.Parked? then Some(s.(cells := s.cells[i := s.cells[i].(pc := Woken)])) else None
    case SpuriousDispatcher => if s.disp.QParked? then Some(s.(disp := QWoken)) else None
  }

  /** All workers are set up and none is handed out. */
  function Init(n: nat): State
  {
    State(seq(n, _ => Cell(Idle, Enter, Free)), NoOne, Out, [])
  }

  /** The state after a schedule of steps, if each of them is possible. */
  function Exec(s: State, schedule: seq<Action>): Option<State>
  {
    if schedule == [] then Some(s)
    else
      var t := Exec(s, schedule[..|schedule| - 1]);
      if t.None? then None else Step(t.value, schedule[|schedule| - 1])
  }

  // ----- the life of one worker, as the log shows it -----

  datatype Phase = Resting | Handed | Started | Ran | Lost | Broken

  /** A worker is handed out, then started, run and done, or released, or forgotten by the caller. Anything else
      breaks the protocol. */
  function Advance(p: Phase, e: Event): Phase
  {
    match (p, e)
    case (Resting, Hand(_)) => Handed
    case (Handed, Start(_)) => Started
    case (Handed, Release(_)) => Resting
    case (Handed, Drop(_)) => Lost
    case (Started, Run(_)) => Ran
    case (Ran, Done(_)) => Resting
    case (_, _) => Broken
  }

  function PhaseOf(log: seq<Event>, i: nat): Phase
  {
    if log == [] then Resting
    else
      var p, e := PhaseOf(log[..|log| - 1], i), log[|log| - 1];
      if e.id == i then Advance(p, e) else p
  }

  function Count(log: seq<Event>, e: Event): nat
  {
    if log == [] then 0 else Count(log[..|log| - 1], e) + (if log[|log| - 1] == e then 1 else 0)
  }

  // ----- the invariant -----

  /** Mutual exclusion: a mutex has the one owner that is inside its critical section. */
  predicate LocksOk(c: Cell, i: nat, q: QueueOwner, d: Dispatcher)
  {
    && (c.pc.HoldsMutex() ==> c.mutex.ByWorker?)
    && (d.HoldsMutex(i) ==> c.mutex.ByDispatcher?)
    && (!c.pc.HoldsMutex() && !d.HoldsMutex(i) ==> c.mutex.Free?)
    && (q == QWorker(i) <==> c.pc.HoldsQueue())
  }

  /** The status follows the worker and what the dispatcher does with it. */
  predicate StatusOk(c: Cell, i: nat, d: Dispatcher)
  {
    && (c.status.Working? <==> c.pc.AtWork())
    && (c.pc.Claim? ==> c.status.StartWork?)
    && (c.pc.IdleUnlock? ==> c.status.Idle?)
    && (d.Chose(i) ==> c.status.Idle?)
    && (d.Owns(i) ==> c.status.WorkerReady?)
    && (d == Wake(i) ==> c.status.StartWork?)
  }

  /** The status is where the worker's history in the log has got to. */
  predicate HistoryOk(c: Cell, i: nat, d: Dispatcher, p: Phase)
  {
    && (c.status.Idle? ==> p.Resting?)
    && (c.status.WorkerReady? ==> p.Lost? || (p.Handed? && d.Owns(i)))
    && (c.status.StartWork? ==> p.Started?)
    && (c.status.Working? ==> if c.pc.Unlock? || c.pc.Work? then p.Started? else p.Ran?)
    && (d.Owns(i) ==> p.Handed?)
  }

  /** No lost wake-up: whoever is parked, or about to park, has a signal coming if there is something to do. */
  predicate WakeUpsOk(c: Cell, i: nat, d: Dispatcher)
  {
    && (c.pc.Parked? && c.status.StartWork? ==> d == Wake(i))
    && (d.QParked? && c.status.Idle? ==> c.pc.WillSignal())
    && (d.Scan? && i < d.k && c.status.Idle? ==> c.pc.WillSignal())
  }

  /** What holds of worker i in every reachable state. */
  predicate CellOk(c: Cell, i: nat, q: QueueOwner, d: Dispatcher, p: Phase)
  {
    LocksOk(c, i, q, d) && StatusOk(c, i, d) && HistoryOk(c, i, d, p) && WakeUpsOk(c, i, d)
  }

  predicate DispatcherOk(n: nat, q: QueueOwner, d: Dispatcher)
  {
    && (q.QDispatcher? <==> d.HoldsQueue())
    && (q.QWorker? ==> q.i < n)
    && d.Focus(n)
  }

  ghost predicate Inv(s: State)
  {
    && DispatcherOk(|s.cells|, s.queue, s.disp)
    && forall i :: 0 <= i < |s.cells| ==> CellOk(s.cells[i], i, s.queue, s.disp, PhaseOf(s.log, i))
  }

  /** The phase of a worker after a step. */
  function AdvanceBy(p: Phase, e: Option<Event>, j: nat): Phase
  {
    if e.Some? && e.value.id == j then Advance(p, e.value) else p
  }

  lemma {:induction false} PhaseAfter(log: seq<Event>, e: Option<Event>, j: nat)
    ensures PhaseOf(Extend(log, e), j) == AdvanceBy(PhaseOf(log, j), e, j)
  {
    if e.Some? {
      assert (log + [e.value])[..|log|] == log;
    }
  }

  /** A dispatcher that waits on the queue, or was just woken, is not busy with any worker. */
  lemma NotBusy(d: Dispatcher, i: nat)
    requires d.QParked? || d.QWoken?
    ensures !d.Chose(i) && !d.Owns(i) && !d.HoldsMutex(i) && d != Wake(i)
  {
  }

  lemma Exclusive(d: Dispatcher, i: nat)
    ensures d == Wake(i) ==> d.HoldsMutex(i)
    ensures d.Owns(i) ==> !d.Chose(i) && d != Wake(i)
    ensures d.Chose(i) ==> d != Wake(i)
  {
  }

  lemma WorkerKeepsLocks(c: Cell, i: nat, n: nat, q: QueueOwner, d: Dispatcher)
    requires i < n && LocksOk(c, i, q, d) && DispatcherOk(n, q, d) && !WorkerBlocked(c, q)
    ensures var m := WorkerMove(c, i, q, d); LocksOk(m.cell, i, m.queue, m.disp) && DispatcherOk(n, m.queue, m.disp)
  {
    hide d.HoldsMutex;
    NotBusy(QWoken, i);
    NotBusy(QParked, i);
  }

  lemma WorkerKeepsStatus(c: Cell, i: nat, q: QueueOwner, d: Dispatcher)
    requires LocksOk(c, i, q, d) && StatusOk(c, i, d) && !WorkerBlocked(c, q)
    ensures var m := WorkerMove(c, i, q, d); StatusOk(m.cell, i, m.disp)
  {
    hide d.HoldsMutex, d.Chose, d.Owns;
    Exclusive(d, i);
    if c.pc.Signal? {
      NotBusy(QWoken, i);
    } else {
      assert WorkerMove(c, i, q, d).disp == d;
    }
  }

  lemma WorkerKeepsHistory(c: Cell, i: nat, q: QueueOwner, d: Dispatcher, p: Phase)
    requires StatusOk(c, i, d) && HistoryOk(c, i, d, p) && !WorkerBlocked(c, q)
    ensures var m := WorkerMove(c, i, q, d);
            HistoryOk(m.cell, i, m.disp, AdvanceBy(p, m.event, i))
  {
    hide d.HoldsMutex, d.Chose, d.Owns;
    if c.pc.Signal? {
      NotBusy(QWoken, i);
      NotBusy(QParked, i);
    } else {
      assert WorkerMove(c, i, q, d).disp == d;
    }
  }

  lemma WorkerKeepsWakeUps(c: Cell, i: nat, n: nat, q: QueueOwner, d: Dispatcher, p: Phase)
    requires CellOk(c, i, q, d, p) && DispatcherOk(n, q, d) && !WorkerBlocked(c, q)
    ensures var m := WorkerMove(c, i, q, d); WakeUpsOk(m.cell, i, m.disp)
  {
  }

  /** What a worker's step does to the shared state. */
  lemma WorkerEffect(c: Cell, i: nat, q: QueueOwner, d: Dispatcher)
    requires LocksOk(c, i, q, d) && !WorkerBlocked(c, q)
    ensures var m := WorkerMove(c, i, q, d);
            && (m.event.None? || m.event.value.id == i)
            && (m.disp == d || (d.QParked? && m.disp.QWoken?))
            && (m.queue == q || (q.NoOne? && m.queue == QWorker(i)) || (q == QWorker(i) && m.queue.NoOne?))
  {
  }

  lemma WorkerKeepsOther(c: Cell, i: nat, q: QueueOwner, d: Dispatcher, o: Cell, j: nat, r: Phase)
    requires LocksOk(c, i, q, d) && !WorkerBlocked(c, q)
    requires j != i && CellOk(o, j, q, d, r)
    ensures var m := WorkerMove(c, i, q, d);
            CellOk(o, j, m.queue, m.disp, AdvanceBy(r, m.event, j))
  {
    hide WorkerMove;
    WorkerEffect(c, i, q, d);
  }

  lemma DispatcherKeepsOwn(c: Cell, n: nat, q: QueueOwner, d: Dispatcher, ch: Choice, p: Phase)
    requires Focused(n, d) && DispatcherOk(n, q, d) && CellOk(c, FocusOf(d), q, d, p) && !FocusBlocked(c, d, ch)
    ensures var m, i := FocusedMove(c, q, d, ch), FocusOf(d);
            && CellOk(m.cell, i, m.queue, m.disp, AdvanceBy(p, m.event, i))
            && DispatcherOk(n, m.queue, m.disp)
  {
  }

  lemma DispatcherKeepsOther(c: Cell, n: nat, q: QueueOwner, d: Dispatcher, ch: Choice, o: Cell, j: nat, r: Phase)
    requires Focused(n, d) && DispatcherOk(n, q, d) && !FocusBlocked(c, d, ch)
    requires j != FocusOf(d) && CellOk(o, j, q, d, r)
    ensures var m := FocusedMove(c, q, d, ch);
            CellOk(o, j, m.queue, m.disp, AdvanceBy(r, m.event, j))
  {
  }

  lemma QueueKeeps(n: nat, q: QueueOwner, d: Dispatcher, ch: Choice, o: Cell, j: nat, r: Phase)
    requires !Focused(n, d) && DispatcherOk(n, q, d) && QueueMove(q, d, ch).Some?
    requires j < n && CellOk(o, j, q, d, r)
    ensures var m := QueueMove(q, d, ch).value; CellOk(o, j, m.0, m.1, r)
  {
  }

  lemma QueueKeepsDispatcher(n: nat, q: QueueOwner, d: Dispatcher, ch: Choice)
    requires !Focused(n, d) && DispatcherOk(n, q, d) && QueueMove(q, d, ch).Some?
    ensures var m := QueueMove(q, d, ch).value; DispatcherOk(n, m.0, m.1)
  {
  }

  /** Every step keeps the invariant. */
  lemma {:induction false} StepKeepsInv(s: State, a: Action)
    requires Inv(s) && Step(s, a).Some?
    ensures Inv(Step(s, a).value)
  {
    hide LocksOk, StatusOk, HistoryOk, WakeUpsOk, DispatcherOk, PhaseOf, WorkerMove, FocusedMove,
      WorkerBlocked, FocusBlocked, Extend, QueueMove, AdvanceBy, Focused, FocusOf;
    var n, t := |s.cells|, Step(s, a).value;
    match a {
      case Worker(i) =>
        var c, p := s.cells[i], PhaseOf(s.log, i);
        var m := WorkerMove(c, i, s.queue, s.disp);
        WorkerKeepsLocks(c, i, n, s.queue, s.disp);
        WorkerKeepsStatus(c, i, s.queue, s.disp);
        WorkerKeepsHistory(c, i, s.queue, s.disp, p);
        WorkerKeepsWakeUps(c, i, n, s.queue, s.disp, p);
        forall j | 0 <= j < n ensures CellOk(t.cells[j], j, t.queue, t.disp, PhaseOf(t.log, j)) {
          PhaseAfter(s.log, m.event, j);
          if j != i {
            WorkerKeepsOther(c, i, s.queue, s.disp, s.cells[j], j, PhaseOf(s.log, j));
          }
        }
      case Caller(ch) =>
        if Focused(n, s.disp) {
          var i := FocusOf(s.disp);
          var c, m := s.cells[i], FocusedMove(s.cells[i], s.queue, s.disp, ch);
          DispatcherKeepsOwn(c, n, s.queue, s.disp, ch, PhaseOf(s.log, i));
          forall j | 0 <= j < n ensures CellOk(t.cells[j], j, t.queue, t.disp, PhaseOf(t.log, j)) {
            PhaseAfter(s.log, m.event, j);
            if j != i {
              DispatcherKeepsOther(c, n, s.queue, s.disp, ch, s.cells[j], j, PhaseOf(s.log, j));
            }
          }
        } else {
          QueueKeepsDispatcher(n, s.queue, s.disp, ch);
          forall j | 0 <= j < n ensures CellOk(t.cells[j], j, t.queue, t.disp, PhaseOf(t.log, j)) {
            QueueKeeps(n, s.queue, s.disp, ch, s.cells[j], j, PhaseOf(s.log, j));
          }
        }
      case SpuriousWorker(i) =>
        SpuriousKeepsOwn(s.cells[i], i, s.queue, s.disp, PhaseOf(s.log, i));
      case SpuriousDispatcher =>
        SpuriousKeepsDispatcher(n, s.queue);
        forall j | 0 <= j < n ensures CellOk(t.cells[j], j, t.queue, t.disp, PhaseOf(t.log, j)) {
          SpuriousKeeps(s.cells[j], j, s.queue, PhaseOf(s.log, j));
        }
    }
  }

  lemma SpuriousKeepsOwn(c: Cell, i: nat, q: QueueOwner, d: Dispatcher, p: Phase)
    requires c.pc.Parked? && CellOk(c, i, q, d, p)
    ensures CellOk(c.(pc := Woken), i, q, d, p)
  {
  }

  lemma SpuriousKeepsDispatcher(n: nat, q: QueueOwner)
    requires DispatcherOk(n, q, QParked)
    ensures DispatcherOk(n, q, QWoken)
  {
  }

  lemma SpuriousKeeps(c: Cell, i: nat, q: QueueOwner, p: Phase)
    requires CellOk(c, i, q, QParked, p)
    ensures CellOk(c, i, q, QWoken, p)
  {
  }

  lemma InitInv(n: nat)
    ensures Inv(Init(n)) && |Init(n).cells| == n
  {
    assert PhaseOf([], 0) == Resting;
  }

  lemma ExecNothing(s: State)
    ensures Exec(s, []) == Some(s)
  {
  }

  lemma StepKeepsSize(s: State, a: Action)
    requires Step(s, a).Some?
    ensures |Step(s, a).value.cells| == |s.cells|
  {
  }

  /** The invariant holds after every schedule. */
  lemma {:induction false} AlwaysInv(n: nat, schedule: seq<Action>)
    requires Exec(Init(n), schedule).Some?
    ensures Inv(Exec(Init(n), schedule).value) && |Exec(Init(n), schedule).value.cells| == n
  {
    hide CellOk, Inv, Step, Init;
    if schedule == [] {
      InitInv(n);
      ExecNothing(Init(n));
    } else {
      var before := schedule[..|schedule| - 1];
      AlwaysInv(n, before);
      StepKeepsInv(Exec(Init(n), before).value, schedule[|schedule| - 1]);
      StepKeepsSize(Exec(Init(n), before).value, schedule[|schedule| - 1]);
    }
  }

  // ----- mutual exclusion and wake-ups -----

  /** No two threads are ever inside the same critical section. */
  lemma {:induction false} MutualExclusion(n: nat, schedule: seq<Action>, i: nat, j: nat)
    requires Exec(Init(n), schedule).Some? && i < n && j < n
    ensures var s := Exec(Init(n), schedule).value;
            && |s.cells| == n
            && !(s.cells[i].pc.HoldsMutex() && s.disp.HoldsMutex(i))
            && !(s.cells[i].pc.HoldsQueue() && s.disp.HoldsQueue())
            && (s.cells[i].pc.HoldsQueue() && s.cells[j].pc.HoldsQueue() ==> i == j)
  {
    hide Exec, Init;
    AlwaysInv(n, schedule);
    var s := Exec(Init(n), schedule).value;
    assert CellOk(s.cells[i], i, s.queue, s.disp, PhaseOf(s.log, i));
    assert CellOk(s.cells[j], j, s.queue, s.disp, PhaseOf(s.log, j));
  }

  /** Whenever the dispatcher is parked on the queue, every idle worker's signal is still to come, although the
      statuses were read one by one. A worker that was started and is parked is about to be signalled. */
  lemma {:induction false} NoLostWakeUp(n: nat, schedule: seq<Action>, i: nat)
    requires Exec(Init(n), schedule).Some? && i < n
    ensures var s := Exec(Init(n), schedule).value;
            && |s.cells| == n
            && (s.disp.QParked? && s.cells[i].status.Idle? ==> s.cells[i].pc.WillSignal())
            && (s.cells[i].pc.Parked? && s.cells[i].status.StartWork? ==> s.disp == Wake(i))
  {
    hide Exec, Init;
    AlwaysInv(n, schedule);
    var s := Exec(Init(n), schedule).value;
    assert CellOk(s.cells[i], i, s.queue, s.disp, PhaseOf(s.log, i));
  }

  // ----- every start is one run -----

  /** A start that has not led to a run of work_imp yet. */
  predicate Pending(c: Cell)
  {
    c.status.StartWork? || (c.status.Working? && (c.pc.Unlock? || c.pc.Work?))
  }

  /** How the events of a worker that keeps the protocol add up. */
  lemma {:induction false} Balance(log: seq<Event>, i: nat)
    ensures var p := PhaseOf(log, i);
            !p.Broken? ==>
              && Count(log, Hand(i)) == Count(log, Start(i)) + Count(log, Release(i))
                                        + (if p.Handed? || p.Lost? then 1 else 0)
              && Count(log, Start(i)) == Count(log, Run(i)) + (if p.Started? then 1 else 0)
              && Count(log, Run(i)) == Count(log, Done(i)) + (if p.Ran? then 1 else 0)
              && Count(log, Drop(i)) == if p.Lost? then 1 else 0
  {
    if log != [] {
      Balance(log[..|log| - 1], i);
    }
  }

  /** In every run, a worker's starts are its runs plus at most one that is pending, and its hand-outs are its starts
      and releases plus the one that is outstanding or was forgotten. */
  lemma {:induction false} ExactlyOnce(n: nat, schedule: seq<Action>, i: nat)
    requires Exec(Init(n), schedule).Some? && i < n
    ensures var s := Exec(Init(n), schedule).value;
            && |s.cells| == n
            && Count(s.log, Start(i)) == Count(s.log, Run(i)) + (if Pending(s.cells[i]) then 1 else 0)
            && Count(s.log, Hand(i)) == Count(s.log, Start(i)) + Count(s.log, Release(i))
                                        + (if s.cells[i].status.WorkerReady? then 1 else 0)
  {
    hide Exec, Init, PhaseOf, Count;
    AlwaysInv(n, schedule);
    var s := Exec(Init(n), schedule).value;
    assert CellOk(s.cells[i], i, s.queue, s.disp, PhaseOf(s.log, i));
    Balance(s.log, i);
  }

  lemma {:induction false} BrokenStays(log: seq<Event>, k: nat, i: nat)
    requires k <= |log| && PhaseOf(log[..k], i).Broken?
    ensures PhaseOf(log, i).Broken?
    decreases |log|
  {
    if k < |log| {
      assert log[..|log| - 1][..k] == log[..k];
      BrokenStays(log[..|log| - 1], k, i);
    } else {
      assert log[..k] == log;
    }
  }

  /** As long as a worker that was handed out is neither done nor released, it is not available. */
  lemma {:induction false} BusyUntil(log: seq<Event>, a: nat, i: nat)
    requires a < |log| && log[a] == Hand(i)
    requires forall k :: a < k < |log| ==> log[k] != Done(i) && log[k] != Release(i)
    ensures !PhaseOf(log, i).Resting?
    decreases |log|
  {
    var before := log[..|log| - 1];
    if a < |log| - 1 {
      BusyUntil(before, a, i);
    }
  }

  /** A worker is not handed out again before it has finished or been released. */
  lemma {:induction false} NotHandedOutTwice(n: nat, schedule: seq<Action>, i: nat, a: nat, b: nat)
    requires Exec(Init(n), schedule).Some? && i < n
    requires a < b < |Exec(Init(n), schedule).value.log|
    requires var log := Exec(Init(n), schedule).value.log; log[a] == Hand(i) && log[b] == Hand(i)
    ensures var log := Exec(Init(n), schedule).value.log;
            exists k :: a < k < b && (log[k] == Done(i) || log[k] == Release(i))
  {
    hide Exec, Init, CellOk;
    AlwaysInv(n, schedule);
    var s := Exec(Init(n), schedule).value;
    NotBroken(s, i);
    var log := s.log;
    if forall k :: a < k < b ==> log[k] != Done(i) && log[k] != Release(i) {
      BusyUntil(log[..b], a, i);
      BrokenStep(log, b, i);
      BrokenStays(log, b + 1, i);
    }
  }

  lemma NotBroken(s: State, i: nat)
    requires Inv(s) && i < |s.cells|
    ensures !PhaseOf(s.log, i).Broken?
  {
    hide PhaseOf;
    assert CellOk(s.cells[i], i, s.queue, s.disp, PhaseOf(s.log, i));
  }

  lemma {:induction false} BrokenStep(log: seq<Event>, b: nat, i: nat)
    requires b < |log| && log[b] == Hand(i) && !PhaseOf(log[..b], i).Resting?
    ensures PhaseOf(log[..b + 1], i).Broken?
  {
    assert log[..b + 1][..b] == log[..b];
  }

  // ----- deadlock -----

  /** No thread can move, short of a wake-up that nobody asked for, whatever the caller wants next. */
  ghost predicate Stuck(s: State)
  {
    && (forall i :: 0 <= i < |s.cells| ==> Step(s, Worker(i)).None?)
    && (forall ch: Choice :: !ch.DropIt? ==> Step(s, Caller(ch)).None?)
  }

  /** If the pool is ever stuck, the dispatcher waits for a worker and its caller has forgotten every single one. */
  lemma {:induction false} StuckMeansAllDropped(n: nat, schedule: seq<Action>, i: nat)
    requires Exec(Init(n), schedule).Some? && Stuck(Exec(Init(n), schedule).value) && i < n
    ensures var s := Exec(Init(n), schedule).value; s.disp.QParked? && Drop(i) in s.log
  {
    hide Exec, Init, PhaseOf;
    AlwaysInv(n, schedule);
    var s := Exec(Init(n), schedule).value;
    StuckIsLost(s, i);
    LostWasDropped(s.log, i);
  }

  lemma {:induction false} StuckIsLost(s: State, i: nat)
    requires Inv(s) && Stuck(s) && i < |s.cells|
    ensures s.disp.QParked? && PhaseOf(s.log, i).Lost?
  {
    hide PhaseOf;
    if !s.queue.NoOne? {
      QueueHolderMoves(s);
    } else if !s.disp.QParked? {
      DispatcherMoves(s);
    } else {
      WorkerParked(s, i);
      ParkedIsLost(s.cells[i], i, s.queue, PhaseOf(s.log, i));
    }
  }

  lemma {:induction false} LostWasDropped(log: seq<Event>, i: nat)
    requires PhaseOf(log, i).Lost?
    ensures Drop(i) in log
  {
    if log[|log| - 1] != Drop(i) {
      LostWasDropped(log[..|log| - 1], i);
    }
  }

  lemma ParkedIsLost(c: Cell, i: nat, q: QueueOwner, p: Phase)
    requires CellOk(c, i, q, QParked, p) && c.pc.Parked?
    ensures p.Lost?
  {
  }

  /** A queue mutex that is held is held by a thread that can move. */
  lemma {:induction false} QueueHolderMoves(s: State)
    requires Inv(s) && !s.queue.NoOne?
    ensures !Stuck(s)
  {
    hide PhaseOf, WorkerMove, FocusedMove;
    if s.queue.QWorker? {
      var i := s.queue.i;
      assert CellOk(s.cells[i], i, s.queue, s.disp, PhaseOf(s.log, i));
      assert Step(s, Worker(i)).Some?;
    } else {
      assert Step(s, Caller(StartIt)).Some?;
    }
  }

  /** Otherwise the dispatcher can move, or the worker whose mutex it wants, unless the dispatcher is parked. */
  lemma {:induction false} DispatcherMoves(s: State)
    requires Inv(s) && s.queue.NoOne? && !s.disp.QParked?
    ensures !Stuck(s)
  {
    hide PhaseOf, WorkerMove, FocusedMove;
    if Focused(|s.cells|, s.disp) {
      var i := FocusOf(s.disp);
      assert CellOk(s.cells[i], i, s.queue, s.disp, PhaseOf(s.log, i));
      assert Step(s, Worker(i)).Some? || Step(s, Caller(StartIt)).Some?;
    } else {
      assert Step(s, Caller(Ask(true))).Some?;
    }
  }

  lemma {:induction false} WorkerParked(s: State, i: nat)
    requires Inv(s) && Stuck(s) && i < |s.cells| && s.disp.QParked? && s.queue.NoOne?
    ensures s.cells[i].pc.Parked? && CellOk(s.cells[i], i, s.queue, QParked, PhaseOf(s.log, i))
  {
    hide PhaseOf, WorkerMove, FocusedMove;
    assert CellOk(s.cells[i], i, s.queue, s.disp, PhaseOf(s.log, i));
    assert Step(s, Worker(i)).None?;
  }

  /** With at least one worker, and a caller that starts or releases every worker it is given, the pool never
      deadlocks. */
  lemma {:induction false} NoDeadlock(n: nat, schedule: seq<Action>)
    requires n > 0 && Exec(Init(n), schedule).Some?
    requires forall i :: Drop(i) !in Exec(Init(n), schedule).value.log
    ensures !Stuck(Exec(Init(n), schedule).value)
  {
    hide Exec, Init, Stuck;
    if Stuck(Exec(Init(n), schedule).value) {
      StuckMeansAllDropped(n, schedule, 0);
    }
  }

  /** A worker that was forgotten once is never handed out or run again. */
  lemma {:induction false} LostForever(s: State, schedule: seq<Action>, i: nat)
    requires Inv(s) && i < |s.cells| && PhaseOf(s.log, i).Lost? && Exec(s, schedule).Some?
    ensures var t := Exec(s, schedule).value;
            && Inv(t) && |t.cells| == |s.cells| && PhaseOf(t.log, i).Lost?
            && Count(t.log, Hand(i)) == Count(s.log, Hand(i)) && Count(t.log, Run(i)) == Count(s.log, Run(i))
  {
    hide Inv, PhaseOf, Step, Count;
    if schedule != [] {
      var before, a := schedule[..|schedule| - 1], schedule[|schedule| - 1];
      LostForever(s, before, i);
      var u := Exec(s, before).value;
      StepKeepsInv(u, a);
      StepKeepsSize(u, a);
      LostStep(u, a, i);
    }
  }

  lemma {:induction false} LostStep(s: State, a: Action, i: nat)
    requires PhaseOf(s.log, i).Lost? && Step(s, a).Some? && Inv(Step(s, a).value)
    requires i < |Step(s, a).value.cells|
    ensures var t := Step(s, a).value;
            && PhaseOf(t.log, i).Lost?
            && Count(t.log, Hand(i)) == Count(s.log, Hand(i)) && Count(t.log, Run(i)) == Count(s.log, Run(i))
  {
    hide Inv;
    var t := Step(s, a).value;
    NotBroken(t, i);
    StepLog(s, a);
    if t.log != s.log {
      assert t.log[..|s.log|] == s.log;
    }
  }

  lemma StepLog(s: State, a: Action)
    requires Step(s, a).Some?
    ensures var t := Step(s, a).value;
            t.log == s.log || (|t.log| == |s.log| + 1 && t.log[..|s.log|] == s.log)
  {
    hide WorkerMove, FocusedMove, QueueMove, WorkerBlocked, FocusBlocked;
  }

  // ----- a wait for a worker returns -----

  /** How far a worker is from parking again. */
  function PcRank(pc: Pc): nat
  {
    match pc
    case Parked => 0 case Check => 1 case Enter => 2 case Woken => 2 case QueueUnlock => 3 case Signal => 4
    case LockQueue => 5 case IdleUnlock => 6 case SetIdle => 7 case Finish => 8 case Work => 9 case Unlock => 10
    case Claim => 11
  }

  /** How many steps a worker can take before it parks, if nothing new is started. */
  function Rank(c: Cell): nat
  {
    PcRank(c.pc) + if c.status.StartWork? && !c.pc.Claim? then 11 else 0
  }

  function Ranks(cells: seq<Cell>): nat
  {
    if cells == [] then 0 else Ranks(cells[..|cells| - 1]) + Rank(cells[|cells| - 1])
  }

  /** How many steps the dispatcher can take before it parks or returns with a worker. */
  function DispatcherRank(d: Dispatcher, n: nat): (r: nat)
    ensures r <= n + 6
  {
    match d
    case ReadyUnlock(_) => 1
    case SetReady(_) => 2
    case Take(_) => 3
    case Found(_) => 4
    case Scan(k, _) => if k <= n then 5 + (n - k) else 0
    case QWoken => n + 6
    case _ => 0
  }

  /** Each worker's step may wake the dispatcher, which then scans all over again. */
  function Measure(s: State): nat
  {
    (|s.cells| + 7) * Ranks(s.cells) + DispatcherRank(s.disp, |s.cells|)
  }

  lemma {:induction false} RanksUpdate(cells: seq<Cell>, i: nat, c: Cell)
    requires i < |cells|
    ensures Ranks(cells[i := c]) == Ranks(cells) - Rank(cells[i]) + Rank(c)
    decreases |cells|
  {
    hide Rank;
    var last := |cells| - 1;
    if i < last {
      RanksUpdate(cells[..last], i, c);
      assert cells[i := c][..last] == cells[..last][i := c];
    } else {
      assert cells[i := c][..last] == cells[..last];
    }
  }

  lemma WaitingRankDrops(c: Cell, i: nat, q: QueueOwner, d: Dispatcher)
    requires !WorkerBlocked(c, q) && !c.pc.AtWork() && !c.pc.WillSignal()
    ensures Rank(WorkerMove(c, i, q, d).cell) < Rank(c)
  {
    hide SignalQueue;
  }

  lemma FinishingNext(c: Cell, i: nat, q: QueueOwner, d: Dispatcher)
    requires !WorkerBlocked(c, q) && (c.pc.AtWork() || c.pc.WillSignal())
    ensures var m := WorkerMove(c, i, q, d).cell;
            && m.status == (if c.pc.SetIdle? then Idle else c.status)
            && m.pc == (if c.pc.Unlock? then Work else if c.pc.Work? then Finish else if c.pc.Finish? then SetIdle
                        else if c.pc.SetIdle? then IdleUnlock else if c.pc.IdleUnlock? then LockQueue
                        else if c.pc.LockQueue? then Signal else QueueUnlock)
  {
    hide SignalQueue;
  }

  lemma FinishingRankDrops(c: Cell, i: nat, q: QueueOwner, d: Dispatcher)
    requires !WorkerBlocked(c, q) && (c.pc.AtWork() || c.pc.WillSignal())
    ensures Rank(WorkerMove(c, i, q, d).cell) < Rank(c)
  {
    FinishingNext(c, i, q, d);
    hide WorkerMove, WorkerBlocked;
  }

  lemma WorkerRankDrops(c: Cell, i: nat, q: QueueOwner, d: Dispatcher)
    requires !WorkerBlocked(c, q)
    ensures Rank(WorkerMove(c, i, q, d).cell) < Rank(c)
  {
    hide WorkerMove, WorkerBlocked, Rank;
    if c.pc.AtWork() || c.pc.WillSignal() {
      FinishingRankDrops(c, i, q, d);
    } else {
      WaitingRankDrops(c, i, q, d);
    }
  }

  lemma DispatcherRankDrops(c: Cell, n: nat, q: QueueOwner, d: Dispatcher, ch: Choice)
    requires Focused(n, d) && d.Waiting() && !FocusBlocked(c, d, ch) && FocusedMove(c, q, d, ch).disp.Waiting()
    requires d.Focus(n)
    requires d.Chose(FocusOf(d)) ==> c.status.Idle?
    ensures var m := FocusedMove(c, q, d, ch);
            Rank(m.cell) == Rank(c) && DispatcherRank(m.disp, n) < DispatcherRank(d, n)
  {
  }

  lemma {:induction false} Weigh(k: nat, a: nat, b: nat)
    requires a < b
    ensures k * a + k <= k * b
  {
    if a < b - 1 {
      Weigh(k, a, b - 1);
    }
    assert k * b == k * (b - 1) + k;
  }

  /** Every step inside a wait that somebody asked for makes progress. */
  lemma {:induction false} WaitProgress(s: State, a: Action)
    requires Inv(s) && Step(s, a).Some? && (a.Worker? || a.Caller?)
    requires s.disp.Waiting() && Step(s, a).value.disp.Waiting()
    ensures Measure(Step(s, a).value) < Measure(s)
  {
    hide PhaseOf, WorkerMove, FocusedMove, QueueMove, Rank, Ranks, DispatcherRank, LocksOk, HistoryOk, WakeUpsOk,
      WorkerBlocked, FocusBlocked, StatusOk;
    var n, t := |s.cells|, Step(s, a).value;
    match a {
      case Worker(i) =>
        var c := s.cells[i];
        assert CellOk(c, i, s.queue, s.disp, PhaseOf(s.log, i));
        WorkerRankDrops(c, i, s.queue, s.disp);
        RanksUpdate(s.cells, i, WorkerMove(c, i, s.queue, s.disp).cell);
        Weigh(n + 7, Ranks(t.cells), Ranks(s.cells));
      case Caller(ch) =>
        if Focused(n, s.disp) {
          var i := FocusOf(s.disp);
          assert CellOk(s.cells[i], i, s.queue, s.disp, PhaseOf(s.log, i));
          ChosenIsIdle(s.cells[i], i, s.disp);
          DispatcherRankDrops(s.cells[i], n, s.queue, s.disp, ch);
          RanksUpdate(s.cells, i, FocusedMove(s.cells[i], s.queue, s.disp, ch).cell);
        } else {
          QueueRankDrops(n, s.queue, s.disp, ch);
        }
    }
  }

  lemma ChosenIsIdle(c: Cell, i: nat, d: Dispatcher)
    requires StatusOk(c, i, d)
    ensures d.Chose(i) ==> c.status.Idle?
  {
  }

  lemma QueueRankDrops(n: nat, q: QueueOwner, d: Dispatcher, ch: Choice)
    requires !Focused(n, d) && d.Waiting() && d.Focus(n)
    requires QueueMove(q, d, ch).Some? && QueueMove(q, d, ch).value.1.Waiting()
    ensures DispatcherRank(QueueMove(q, d, ch).value.1, n) < DispatcherRank(d, n)
  {
  }

  /** A run that stays inside one wait for a worker. */
  ghost predicate StaysWaiting(s: State, schedule: seq<Action>)
  {
    && (forall k :: 0 <= k <= |schedule| ==>
          Exec(s, schedule[..k]).Some? && Exec(s, schedule[..k]).value.disp.Waiting())
    && (forall a :: a in schedule ==> a.Worker? || a.Caller?)
  }

  /** A wait for a worker cannot go on forever: without unasked wake-ups it ends after a bounded number of steps of
      any threads, in any order. It cannot get stuck either, unless every worker was forgotten. */
  lemma {:induction false} WaitReturns(n: nat, prefix: seq<Action>, schedule: seq<Action>)
    requires Exec(Init(n), prefix).Some? && StaysWaiting(Exec(Init(n), prefix).value, schedule)
    ensures var s := Exec(Init(n), prefix).value;
            |schedule| <= Measure(s) && Exec(s, schedule).Some? &&
            var t := Exec(s, schedule).value;
            Stuck(t) ==> forall i :: 0 <= i < n ==> Drop(i) in t.log
  {
    hide Exec, Init, Stuck, Measure, Step, Inv;
    var s := Exec(Init(n), prefix).value;
    AlwaysInv(n, prefix);
    StepsBounded(s, schedule);
    ExecConcat(Init(n), prefix, schedule);
    if Stuck(Exec(s, schedule).value) {
      forall i | 0 <= i < n ensures Drop(i) in Exec(s, schedule).value.log {
        StuckMeansAllDropped(n, prefix + schedule, i);
      }
    }
  }

  lemma {:induction false} StepsBounded(s: State, schedule: seq<Action>)
    requires Inv(s) && StaysWaiting(s, schedule)
    ensures Exec(s, schedule).Some?
    ensures Inv(Exec(s, schedule).value) && Exec(s, schedule).value.disp.Waiting()
    ensures |schedule| + Measure(Exec(s, schedule).value) <= Measure(s)
    decreases |schedule|
  {
    hide Inv, Step, Measure;
    assert schedule[..|schedule|] == schedule;
    if schedule != [] {
      var last := |schedule| - 1;
      var before := schedule[..last];
      assert forall k :: 0 <= k <= last ==> before[..k] == schedule[..k];
      StepsBounded(s, before);
      StepKeepsInv(Exec(s, before).value, schedule[last]);
      WaitProgress(Exec(s, before).value, schedule[last]);
    }
  }

  lemma {:induction false} ExecConcat(s: State, x: seq<Action>, y: seq<Action>)
    requires Exec(s, x).Some?
    ensures Exec(s, x + y) == Exec(Exec(s, x).value, y)
    decreases |y|
  {
    hide Step;
    if y == [] {
      assert x + y == x;
    } else {
      ExecConcat(s, x, y[..|y| - 1]);
      assert (x + y)[..|x + y| - 1] == x + y[..|y| - 1];
    }
  }
}
