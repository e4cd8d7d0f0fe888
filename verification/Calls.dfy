/** What the calls of the worker pool lead to, in every run: a start to a run of that worker, a release to its release,
    and a wait that does not block to an answer. */
module Calls {
  import opened ThreadPool
  import opened Deadlock

  // ----- start and release -----

  /** The first event of worker i at or behind a place in the log. */
  function NextEvent(log: seq<Event>, from: nat, i: nat): Option<Event>
    decreases |log| - from
  {
    if from >= |log| then None
    else if log[from].id == i then Some(log[from]) else NextEvent(log, from + 1, i)
  }

  lemma {:induction false} NextAfter(log: seq<Event>, e: Option<Event>, from: nat, i: nat)
    requires from <= |log|
    ensures var x := NextEvent(log, from, i);
            NextEvent(Extend(log, e), from, i)
            == if x.Some? then x else if e.Some? && e.value.id == i then e else None
    decreases |log| - from
  {
    if e.Some? {
      var more := log + [e.value];
      if from < |log| {
        NextAfter(log, e, from + 1, i);
        assert more[from] == log[from];
      }
    }
  }

  /** What the caller's choice about worker i has to be followed by. */
  function Wanted(ch: Choice, i: nat): Event
    requires !ch.Ask?
  {
    match ch
    case StartIt => Start(i)
    case ReleaseIt => Release(i)
    case DropIt => Drop(i)
  }

  /** The dispatcher is about to do to worker i what its caller chose. */
  predicate Decided(d: Dispatcher, ch: Choice, i: nat)
  {
    (ch.StartIt? && d == SetStart(i)) || (ch.ReleaseIt? && d == RelSet(i))
  }

  lemma Chosen(c: Cell, q: QueueOwner, i: nat, ch: Choice)
    requires !FocusBlocked(c, Has(i), ch)
    ensures !ch.Ask?
    ensures var m := FocusedMove(c, q, Has(i), ch);
            if ch.DropIt? then m.event == Some(Drop(i)) else m.event.None? && Decided(m.disp, ch, i)
  {
  }

  /** What a step logs. */
  function EventOf(s: State, a: Action): Option<Event>
    requires Step(s, a).Some?
  {
    match a
    case Worker(i) => WorkerMove(s.cells[i], i, s.queue, s.disp).event
    case Caller(ch) =>
      if Focused(|s.cells|, s.disp) then FocusedMove(s.cells[FocusOf(s.disp)], s.queue, s.disp, ch).event else None
    case _ => None
  }

  lemma StepExtends(s: State, a: Action)
    requires Step(s, a).Some?
    ensures Step(s, a).value.log == Extend(s.log, EventOf(s, a))
  {
    hide WorkerMove, FocusedMove, QueueMove, WorkerBlocked, FocusBlocked, Focused, FocusOf;
  }

  /** A worker that is handed out logs nothing itself. */
  lemma QuietWhileReady(c: Cell, i: nat, q: QueueOwner, d: Dispatcher)
    requires StatusOk(c, i, d) && c.status.WorkerReady? && !WorkerBlocked(c, q)
    ensures WorkerMove(c, i, q, d).event.None?
  {
    hide SignalQueue;
  }

  /** Until the dispatcher moves, nothing happens to the worker; then it is what was chosen. */
  lemma {:induction false} DecidedStep(s: State, a: Action, ch: Choice, i: nat)
    requires Inv(s) && i < |s.cells| && Decided(s.disp, ch, i) && Step(s, a).Some?
    ensures var e := EventOf(s, a);
            if a.Caller? then e == Some(Wanted(ch, i))
            else Step(s, a).value.disp == s.disp && (e.Some? ==> e.value.id != i)
  {
    hide PhaseOf, WakeUpsOk, LocksOk, Extend;
    assert CellOk(s.cells[i], i, s.queue, s.disp, PhaseOf(s.log, i));
    if a.Worker? {
      assert CellOk(s.cells[a.i], a.i, s.queue, s.disp, PhaseOf(s.log, a.i));
      if a.i == i {
        QuietWhileReady(s.cells[i], i, s.queue, s.disp);
      }
      WorkerEffect(s.cells[a.i], a.i, s.queue, s.disp);
    }
  }

  /** What the log shows of worker i behind a decision, and whether the dispatcher has moved. */
  ghost predicate Follows(s: State, schedule: seq<Action>, t: State, ch: Choice, i: nat)
    requires !ch.Ask?
  {
    && |s.log| <= |t.log|
    && var x := NextEvent(t.log, |s.log|, i);
       x == Some(Wanted(ch, i)) || (x.None? && Decided(t.disp, ch, i) && forall a :: a in schedule ==> !a.Caller?)
  }

  lemma {:induction false} FollowsOn(s: State, t: State, schedule: seq<Action>, ch: Choice, i: nat)
    requires !ch.Ask? && Inv(t) && i < |t.cells| && Exec(t, schedule).Some?
    requires Follows(s, [], t, ch, i)
    ensures Follows(s, schedule, Exec(t, schedule).value, ch, i)
    ensures Inv(Exec(t, schedule).value) && |Exec(t, schedule).value.cells| == |t.cells|
    decreases |schedule|
  {
    hide Inv, Step, NextEvent, Decided;
    if schedule != [] {
      var before, a := schedule[..|schedule| - 1], schedule[|schedule| - 1];
      var u := Exec(t, before).value;
      FollowsOn(s, t, before, ch, i);
      StepKeepsInv(u, a);
      StepKeepsSize(u, a);
      FollowsStep(s, u, before, a, ch, i);
    }
  }

  lemma {:induction false} FollowsStep(s: State, u: State, before: seq<Action>, a: Action, ch: Choice, i: nat)
    requires !ch.Ask? && Inv(u) && i < |u.cells| && Step(u, a).Some? && Follows(s, before, u, ch, i)
    ensures Follows(s, before + [a], Step(u, a).value, ch, i)
  {
    hide Inv, NextEvent, Decided, Step, EventOf;
    StepExtends(u, a);
    NextAfter(u.log, EventOf(u, a), |s.log|, i);
    if NextEvent(u.log, |s.log|, i).None? {
      DecidedStep(u, a, ch, i);
    }
  }

  /** In every run, once the caller has decided about the worker it was given, the next thing that the log shows of
      that worker is what was decided, whatever all threads do; and the dispatcher's own next step does it. */
  lemma {:induction false} DecisionFollows(n: nat, prefix: seq<Action>, i: nat, ch: Choice, schedule: seq<Action>)
    requires Exec(Init(n), prefix).Some? && Exec(Init(n), prefix).value.disp == Has(i) && !ch.Ask?
    requires var s := Exec(Init(n), prefix).value;
             Step(s, Caller(ch)).Some? && Exec(Step(s, Caller(ch)).value, schedule).Some?
    ensures var s := Exec(Init(n), prefix).value;
            var t := Exec(Step(s, Caller(ch)).value, schedule).value;
            var x := NextEvent(t.log, |s.log|, i);
            && (x.Some? ==> x == Some(Wanted(ch, i)))
            && ((ch.DropIt? || exists a :: a in schedule && a.Caller?) ==> x.Some?)
  {
    hide Exec, Init, NextEvent, Inv;
    var s := Exec(Init(n), prefix).value;
    AlwaysInv(n, prefix);
    HasWorker(s, i);
    FirstDecided(s, i, ch);
    StepKeepsInv(s, Caller(ch));
    StepKeepsSize(s, Caller(ch));
    FollowsOn(s, Step(s, Caller(ch)).value, schedule, ch, i);
  }

  lemma HasWorker(s: State, i: nat)
    requires Inv(s) && s.disp == Has(i)
    ensures i < |s.cells|
  {
  }

  lemma {:induction false} FirstDecided(s: State, i: nat, ch: Choice)
    requires s.disp == Has(i) && i < |s.cells| && Step(s, Caller(ch)).Some? && !ch.Ask?
    ensures Follows(s, [], Step(s, Caller(ch)).value, ch, i)
  {
    Chosen(s.cells[i], s.queue, i, ch);
    hide FocusedMove, FocusBlocked;
    var e := FocusedMove(s.cells[i], s.queue, s.disp, ch).event;
    NextAfter(s.log, e, |s.log|, i);
  }

  // ----- a worker that was started runs -----

  /** The steps that a started worker still has to take before it runs work_imp, the run included. */
  function StepsToRun(pc: Pc): nat
  {
    match pc
    case Work => 1 case Unlock => 2 case Claim => 3 case Check => 4 case Enter => 5 case Woken => 5 case Parked => 5
    case QueueUnlock => 6 case Signal => 7 case LockQueue => 8 case IdleUnlock => 9
    case Finish => 0 case SetIdle => 0
  }

  function OwnSteps(schedule: seq<Action>, i: nat): nat
  {
    if schedule == [] then 0
    else OwnSteps(schedule[..|schedule| - 1], i) + if schedule[|schedule| - 1] == Worker(i) then 1 else 0
  }

  lemma PendingPlace(c: Cell, i: nat, d: Dispatcher)
    requires StatusOk(c, i, d) && Pending(c)
    ensures 1 <= StepsToRun(c.pc) <= 8 && (c.status.Working? <==> c.pc.AtWork())
  {
    hide d.Chose, d.Owns;
  }

  lemma PendingNext(c: Cell, i: nat, q: QueueOwner, d: Dispatcher)
    requires !WorkerBlocked(c, q) && !c.pc.Work? && !c.pc.Finish? && !c.pc.SetIdle? && !c.pc.IdleUnlock?
    requires c.pc.AtWork() || c.status.StartWork?
    ensures var m := WorkerMove(c, i, q, d);
            && m.event.None? && m.cell.status == (if c.pc.Claim? then Working else c.status)
            && m.cell.pc == (if c.pc.LockQueue? then Signal else if c.pc.Signal? then QueueUnlock
                             else if c.pc.QueueUnlock? then Enter else if c.pc.Enter? || c.pc.Woken? then Check
                             else if c.pc.Check? then Claim else if c.pc.Claim? then Unlock else Work)
  {
    hide SignalQueue;
  }

  /** One step of a started worker takes it closer to its run, which is logged. */
  lemma PendingMoves(c: Cell, i: nat, q: QueueOwner, d: Dispatcher)
    requires StatusOk(c, i, d) && Pending(c) && !WorkerBlocked(c, q)
    ensures var m := WorkerMove(c, i, q, d);
            if c.pc.Work? then m.event == Some(Run(i))
            else m.event.None? && Pending(m.cell) && StepsToRun(m.cell.pc) == StepsToRun(c.pc) - 1
  {
    PendingPlace(c, i, d);
    hide StatusOk;
    if c.pc.Work? {
      WorkLogs(c, i, q, d);
    } else {
      PendingNext(c, i, q, d);
      NotParked(c, q);
      hide WorkerMove, WorkerBlocked;
    }
  }

  lemma WorkLogs(c: Cell, i: nat, q: QueueOwner, d: Dispatcher)
    requires c.pc.Work? && !WorkerBlocked(c, q)
    ensures WorkerMove(c, i, q, d).event == Some(Run(i))
  {
  }

  lemma NotParked(c: Cell, q: QueueOwner)
    requires !WorkerBlocked(c, q)
    ensures !c.pc.Parked?
  {
  }

  /** The dispatcher leaves a started worker alone, except for waking it up. */
  lemma PendingKept(c: Cell, q: QueueOwner, d: Dispatcher, ch: Choice)
    requires StatusOk(c, FocusOf(d), d) && Pending(c) && !FocusBlocked(c, d, ch)
    ensures var m := FocusedMove(c, q, d, ch); Pending(m.cell) && StepsToRun(m.cell.pc) == StepsToRun(c.pc)
  {
  }

  /** Any step of any thread: a started worker runs, or is as close to its run as before, or one own step closer. */
  lemma {:induction false} PendingStep(s: State, a: Action, i: nat)
    requires Inv(s) && i < |s.cells| && Pending(s.cells[i]) && Step(s, a).Some?
    ensures var t := Step(s, a).value;
            i < |t.cells|
            && if a == Worker(i) && s.cells[i].pc.Work? then EventOf(s, a) == Some(Run(i))
               else
                 && Pending(t.cells[i])
                 && StepsToRun(t.cells[i].pc) == StepsToRun(s.cells[i].pc) - (if a == Worker(i) then 1 else 0)
  {
    hide PhaseOf, WakeUpsOk, LocksOk, HistoryOk, WorkerMove, FocusedMove, QueueMove, StatusOk, Pending, WorkerBlocked,
      FocusBlocked;
    assert CellOk(s.cells[i], i, s.queue, s.disp, PhaseOf(s.log, i));
    match a {
      case Worker(j) =>
        if j == i {
          PendingMoves(s.cells[i], i, s.queue, s.disp);
        }
      case Caller(ch) =>
        if Focused(|s.cells|, s.disp) && FocusOf(s.disp) == i {
          PendingKept(s.cells[i], s.queue, s.disp, ch);
        }
      case SpuriousWorker(j) =>
        PendingWoken(s.cells[j]);
      case SpuriousDispatcher =>
    }
  }

  lemma PendingWoken(c: Cell)
    requires c.pc.Parked?
    ensures Pending(c) ==> Pending(c.(pc := Woken))
  {
  }

  lemma {:induction false} CountGrows(log: seq<Event>, e: Option<Event>, x: Event)
    ensures Count(Extend(log, e), x) == Count(log, x) + if e == Some(x) then 1 else 0
  {
    if e.Some? {
      assert (log + [e.value])[..|log|] == log;
    }
  }

  lemma {:induction false} RunsOnce(s: State, schedule: seq<Action>, i: nat)
    requires Inv(s) && i < |s.cells| && Pending(s.cells[i]) && Exec(s, schedule).Some?
    ensures var t := Exec(s, schedule).value;
            && Inv(t) && |t.cells| == |s.cells|
            && (Count(t.log, Run(i)) > Count(s.log, Run(i))
                || (Count(t.log, Run(i)) == Count(s.log, Run(i)) && Pending(t.cells[i])
                    && StepsToRun(t.cells[i].pc) == StepsToRun(s.cells[i].pc) - OwnSteps(schedule, i)))
    decreases |schedule|
  {
    hide Inv, Step, Pending, StepsToRun, Count, EventOf;
    if schedule != [] {
      var before, a := schedule[..|schedule| - 1], schedule[|schedule| - 1];
      RunsOnce(s, before, i);
      var u := Exec(s, before).value;
      StepKeepsInv(u, a);
      StepKeepsSize(u, a);
      StepExtends(u, a);
      CountGrows(u.log, EventOf(u, a), Run(i));
      if Pending(u.cells[i]) {
        PendingStep(u, a, i);
      }
    }
  }

  /** In every run, a worker with a start that is pending has run work_imp by its eighth own step from there on,
      whatever the other threads do in between. */
  lemma {:induction false} StartedRuns(n: nat, prefix: seq<Action>, schedule: seq<Action>, i: nat)
    requires Exec(Init(n), prefix).Some? && Exec(Exec(Init(n), prefix).value, schedule).Some? && i < n
    requires var s := Exec(Init(n), prefix).value; i < |s.cells| && Pending(s.cells[i])
    requires OwnSteps(schedule, i) >= 8
    ensures var s := Exec(Init(n), prefix).value;
            Count(Exec(s, schedule).value.log, Run(i)) > Count(s.log, Run(i))
  {
    hide Exec, Init, Inv, Pending, StepsToRun, Count, OwnSteps;
    AlwaysInv(n, prefix);
    var s := Exec(Init(n), prefix).value;
    RunsOnce(s, schedule, i);
    PendingCell(s, i);
    PendingCell(Exec(s, schedule).value, i);
  }

  lemma PendingCell(s: State, i: nat)
    requires Inv(s) && i < |s.cells|
    ensures Pending(s.cells[i]) ==> 1 <= StepsToRun(s.cells[i].pc) <= 8
  {
    hide PhaseOf, StatusOk, Pending, StepsToRun;
    assert CellOk(s.cells[i], i, s.queue, s.disp, PhaseOf(s.log, i));
    if Pending(s.cells[i]) {
      PendingPlace(s.cells[i], i, s.disp);
    }
  }

  /** The dispatcher does not hold the worker's mutex, and nobody holds the queue mutex if the worker wants it. */
  predicate CanGo(c: Cell, q: QueueOwner)
  {
    !c.mutex.ByDispatcher? && (c.pc.LockQueue? ==> q.NoOne?)
  }

  /** It can take these steps: a worker with a pending start is blocked by nothing but the dispatcher that holds its
      mutex, in a critical section in which it never waits, or by a thread that holds the queue mutex, likewise. */
  lemma {:induction false} StartedMoves(n: nat, prefix: seq<Action>, i: nat)
    requires Exec(Init(n), prefix).Some? && i < n
    requires var s := Exec(Init(n), prefix).value; i < |s.cells| && Pending(s.cells[i])
    ensures var s := Exec(Init(n), prefix).value;
            && (CanGo(s.cells[i], s.queue) ==> Step(s, Worker(i)).Some?)
            && (s.cells[i].mutex.ByDispatcher? ==> forall ch: Choice :: Step(s, Caller(ch)).Some?)
  {
    hide Exec, Init;
    AlwaysInv(n, prefix);
    var s := Exec(Init(n), prefix).value;
    hide PhaseOf;
    assert CellOk(s.cells[i], i, s.queue, s.disp, PhaseOf(s.log, i));
    hide WorkerMove, FocusedMove, StatusOk, HistoryOk, WakeUpsOk, WorkerBlocked;
    if CanGo(s.cells[i], s.queue) {
      PendingFree(s.cells[i], i, s.queue, s.disp, PhaseOf(s.log, i));
    }
    if s.cells[i].mutex.ByDispatcher? {
      HeldMoves(s.cells[i], i, s.queue, s.disp, |s.cells|);
    }
  }

  lemma PendingFree(c: Cell, i: nat, q: QueueOwner, d: Dispatcher, p: Phase)
    requires CellOk(c, i, q, d, p) && Pending(c) && CanGo(c, q)
    ensures !WorkerBlocked(c, q)
  {
  }

  lemma HeldMoves(c: Cell, i: nat, q: QueueOwner, d: Dispatcher, n: nat)
    requires LocksOk(c, i, q, d) && c.mutex.ByDispatcher? && i < n
    ensures Focused(n, d) && FocusOf(d) == i && forall ch: Choice :: !FocusBlocked(c, d, ch)
  {
  }

  lemma StillGoes(c: Cell, i: nat, q: QueueOwner, d: Dispatcher)
    requires StatusOk(c, i, d) && Pending(c) && CanGo(c, q) && !WorkerBlocked(c, q) && !c.pc.Work?
    ensures var m := WorkerMove(c, i, q, d); CanGo(m.cell, m.queue)
  {
    PendingPlace(c, i, d);
    hide StatusOk, SignalQueue;
  }

  /** Left alone with its mutex free, it runs within eight steps. */
  lemma {:induction false} RunsAlone(s: State, i: nat) returns (k: nat)
    requires Inv(s) && i < |s.cells| && Pending(s.cells[i]) && CanGo(s.cells[i], s.queue)
    ensures k <= 8 && k == StepsToRun(s.cells[i].pc)
    ensures var t := Exec(s, seq(k, _ => Worker(i))); t.Some? && t.value.log == s.log + [Run(i)]
    decreases StepsToRun(s.cells[i].pc)
  {
    hide PhaseOf, Exec, StatusOk, HistoryOk, LocksOk, WakeUpsOk, Pending, CanGo, WorkerBlocked, WorkerMove;
    var c := s.cells[i];
    assert CellOk(c, i, s.queue, s.disp, PhaseOf(s.log, i));
    PendingFree(c, i, s.queue, s.disp, PhaseOf(s.log, i));
    PendingPlace(c, i, s.disp);
    PendingMoves(c, i, s.queue, s.disp);
    var a := Worker(i);
    var t := Step(s, a).value;
    StepKeepsInv(s, a);
    StepExtends(s, a);
    ExecFirst(s, a, []);
    if c.pc.Work? {
      k := 1;
      assert seq(1, _ => a) == [a];
    } else {
      StillGoes(c, i, s.queue, s.disp);
      var rest := RunsAlone(t, i);
      k := rest + 1;
      ExecFirst(s, a, seq(rest, _ => a));
      assert seq(k, _ => a) == [a] + seq(rest, _ => a);
      assert t.log == s.log;
    }
  }

  // ----- a release signals the queue -----

  /** Inside a release, before its signal. */
  predicate Releasing(d: Dispatcher)
  {
    d.RelSet? || d.RelUnlock? || d.RelQueue?
  }

  lemma {:induction false} ReleasingStep(s: State, a: Action)
    requires Inv(s) && Releasing(s.disp) && Step(s, a).Some?
    ensures var d := Step(s, a).value.disp; Releasing(d) || d.RelSignal?
  {
    hide PhaseOf, WorkerMove, WorkerBlocked, StatusOk, HistoryOk, WakeUpsOk, LocksOk, Extend;
    if a.Worker? {
      assert CellOk(s.cells[a.i], a.i, s.queue, s.disp, PhaseOf(s.log, a.i));
      WorkerEffect(s.cells[a.i], a.i, s.queue, s.disp);
    }
  }

  /** In every run, a release does not return before it has signalled the queue, with the mutex of the queue. */
  lemma {:induction false} ReleaseSignals(n: nat, prefix: seq<Action>, schedule: seq<Action>)
    requires Exec(Init(n), prefix).Some? && Exec(Init(n), prefix).value.disp.RelSet?
    requires Exec(Exec(Init(n), prefix).value, schedule).Some?
    ensures var s := Exec(Init(n), prefix).value;
            || Releasing(Exec(s, schedule).value.disp)
            || exists k :: 0 <= k <= |schedule| && Signals(Exec(s, schedule[..k]))
  {
    hide Exec, Init, Inv, Signals;
    AlwaysInv(n, prefix);
    var s := Exec(Init(n), prefix).value;
    ReleaseRun(s, schedule);
  }

  predicate Signals(t: Option<State>)
  {
    t.Some? && t.value.disp.RelSignal? && t.value.queue.QDispatcher?
  }

  lemma {:induction false} ReleaseRun(s: State, schedule: seq<Action>)
    requires Inv(s) && Releasing(s.disp) && Exec(s, schedule).Some?
    ensures Inv(Exec(s, schedule).value)
    ensures || Releasing(Exec(s, schedule).value.disp)
            || exists k :: 0 <= k <= |schedule| && Signals(Exec(s, schedule[..k]))
    decreases |schedule|
  {
    hide Inv, Step, Signals;
    assert schedule[..|schedule|] == schedule;
    if schedule != [] {
      var last := |schedule| - 1;
      var before := schedule[..last];
      ReleaseRun(s, before);
      StepKeepsInv(Exec(s, before).value, schedule[last]);
      if Releasing(Exec(s, before).value.disp) {
        ReleasingStep(Exec(s, before).value, schedule[last]);
        SignalsHeld(Exec(s, schedule).value);
      } else {
        var k :| 0 <= k <= last && Signals(Exec(s, before[..k]));
        assert before[..k] == schedule[..k];
      }
    }
  }

  lemma SignalsHeld(t: State)
    requires Inv(t)
    ensures t.disp.RelSignal? ==> Signals(Some(t))
  {
    hide CellOk;
  }

  // ----- starts and releases return -----

  /** The dispatcher's own steps up to the end of a start or a release. */
  function CallRank(d: Dispatcher): nat
  {
    match d
    case SetStart(_) => 3 case Wake(_) => 2 case StartUnlock(_) => 1
    case RelSet(_) => 5 case RelUnlock(_) => 4 case RelQueue => 3 case RelSignal => 2 case RelQueueUnlock => 1
    case _ => 0
  }

  function DispatcherSteps(schedule: seq<Action>): nat
  {
    if schedule == [] then 0
    else DispatcherSteps(schedule[..|schedule| - 1]) + if schedule[|schedule| - 1].Caller? then 1 else 0
  }

  lemma FocusedReturns(c: Cell, n: nat, q: QueueOwner, d: Dispatcher, ch: Choice)
    requires Focused(n, d) && CallRank(d) > 0 && !FocusBlocked(c, d, ch)
    ensures var e := FocusedMove(c, q, d, ch).disp; CallRank(e) == CallRank(d) - 1 && (CallRank(e) == 0 ==> e.Out?)
  {
  }

  lemma QueueReturns(n: nat, q: QueueOwner, d: Dispatcher, ch: Choice)
    requires !Focused(n, d) && CallRank(d) > 0 && QueueMove(q, d, ch).Some?
    ensures var e := QueueMove(q, d, ch).value.1; CallRank(e) == CallRank(d) - 1 && (CallRank(e) == 0 ==> e.Out?)
  {
  }

  lemma {:induction false} ReturningStep(s: State, a: Action)
    requires Inv(s) && CallRank(s.disp) > 0 && Step(s, a).Some?
    ensures var d := Step(s, a).value.disp;
            if a.Caller? then CallRank(d) == CallRank(s.disp) - 1 && (CallRank(d) == 0 ==> d.Out?) else d == s.disp
  {
    hide PhaseOf, WorkerMove, FocusedMove, QueueMove, WorkerBlocked, FocusBlocked, StatusOk, HistoryOk, WakeUpsOk,
      LocksOk, Extend, Focused, FocusOf;
    match a {
      case Worker(i) =>
        assert CellOk(s.cells[i], i, s.queue, s.disp, PhaseOf(s.log, i));
        WorkerEffect(s.cells[i], i, s.queue, s.disp);
      case Caller(ch) =>
        if Focused(|s.cells|, s.disp) {
          FocusedReturns(s.cells[FocusOf(s.disp)], |s.cells|, s.queue, s.disp, ch);
        } else {
          QueueReturns(|s.cells|, s.queue, s.disp, ch);
        }
      case SpuriousWorker(i) =>
      case SpuriousDispatcher =>
    }
  }

  lemma StillReturning(s: State, a: Action)
    requires s.disp.Out? && !a.Caller? && Step(s, a).Some?
    ensures Step(s, a).value.disp.Out?
  {
    hide WorkerBlocked, Extend, FocusedMove, QueueMove;
  }

  /** In every run, a start has returned when the dispatcher has made three steps behind its lock, and a release when it
      has made five, whatever the other threads do. */
  lemma {:induction false} CallsReturn(n: nat, prefix: seq<Action>, schedule: seq<Action>)
    requires Exec(Init(n), prefix).Some? && CallRank(Exec(Init(n), prefix).value.disp) > 0
    requires Exec(Exec(Init(n), prefix).value, schedule).Some?
    requires DispatcherSteps(schedule) <= CallRank(Exec(Init(n), prefix).value.disp)
    ensures var s := Exec(Init(n), prefix).value;
            var d := Exec(s, schedule).value.disp;
            CallRank(d) == CallRank(s.disp) - DispatcherSteps(schedule) && (CallRank(d) == 0 ==> d.Out?)
  {
    hide Exec, Init, Inv, CallRank, DispatcherSteps;
    AlwaysInv(n, prefix);
    ReturningRun(Exec(Init(n), prefix).value, schedule);
  }

  lemma {:induction false} ReturningRun(s: State, schedule: seq<Action>)
    requires Inv(s) && CallRank(s.disp) > 0 && Exec(s, schedule).Some?
    requires DispatcherSteps(schedule) <= CallRank(s.disp)
    ensures var t := Exec(s, schedule).value;
            Inv(t) && CallRank(t.disp) == CallRank(s.disp) - DispatcherSteps(schedule)
            && (CallRank(t.disp) == 0 ==> t.disp.Out?)
    decreases |schedule|
  {
    hide Inv, Step, CallRank;
    if schedule != [] {
      var before, a := schedule[..|schedule| - 1], schedule[|schedule| - 1];
      ReturningRun(s, before);
      var u := Exec(s, before).value;
      StepKeepsInv(u, a);
      if CallRank(u.disp) > 0 {
        ReturningStep(u, a);
      } else {
        StillReturning(u, a);
        OutIsDone();
      }
    }
  }

  lemma OutIsDone()
    ensures CallRank(Out) == 0
  {
  }

  /** It waits for nothing on its way but the queue mutex. */
  lemma {:induction false} CallsMove(n: nat, prefix: seq<Action>, ch: Choice)
    requires Exec(Init(n), prefix).Some? && CallRank(Exec(Init(n), prefix).value.disp) > 0
    ensures var s := Exec(Init(n), prefix).value;
            Step(s, Caller(ch)).None? ==> s.disp.RelQueue? && !s.queue.NoOne?
  {
    hide Exec, Init;
    AlwaysInv(n, prefix);
    hide FocusedMove, PhaseOf, CellOk;
  }

  // ----- waits -----

  /** Where a wait can be that is to block, or not to block. */
  predicate InMode(d: Dispatcher, block: bool)
  {
    && (d.Scan? ==> d.block == block)
    && if block then !d.Out? else !d.QParked? && !d.QWoken?
  }

  lemma FocusedMode(c: Cell, q: QueueOwner, d: Dispatcher, ch: Choice, block: bool)
    requires d.Waiting() && InMode(d, block) && !FocusBlocked(c, d, ch)
    ensures InMode(FocusedMove(c, q, d, ch).disp, block)
  {
  }

  lemma QueueMode(q: QueueOwner, d: Dispatcher, ch: Choice, block: bool)
    requires d.Waiting() && InMode(d, block) && QueueMove(q, d, ch).Some?
    ensures InMode(QueueMove(q, d, ch).value.1, block)
  {
  }

  lemma {:induction false} StepInMode(s: State, a: Action, block: bool)
    requires Inv(s) && s.disp.Waiting() && InMode(s.disp, block) && Step(s, a).Some?
    ensures InMode(Step(s, a).value.disp, block)
  {
    hide PhaseOf, WorkerMove, FocusedMove, QueueMove, WorkerBlocked, FocusBlocked, StatusOk, HistoryOk, WakeUpsOk,
      LocksOk, Extend, Focused, FocusOf;
    match a {
      case Worker(i) =>
        assert CellOk(s.cells[i], i, s.queue, s.disp, PhaseOf(s.log, i));
        WorkerEffect(s.cells[i], i, s.queue, s.disp);
      case Caller(ch) =>
        if Focused(|s.cells|, s.disp) {
          FocusedMode(s.cells[FocusOf(s.disp)], s.queue, s.disp, ch, block);
        } else {
          QueueMode(s.queue, s.disp, ch, block);
        }
      case SpuriousWorker(i) =>
      case SpuriousDispatcher =>
    }
  }

  /** Every state of the run but the last is inside a wait. */
  ghost predicate Waits(s: State, schedule: seq<Action>) {
    forall k :: 0 <= k < |schedule| ==> Exec(s, schedule[..k]).Some? && Exec(s, schedule[..k]).value.disp.Waiting()
  }

  lemma {:induction false} RunInMode(s: State, schedule: seq<Action>, block: bool)
    requires Inv(s) && InMode(s.disp, block) && Waits(s, schedule) && Exec(s, schedule).Some?
    ensures var t := Exec(s, schedule).value; Inv(t) && InMode(t.disp, block)
    decreases |schedule|
  {
    hide Inv, Step, InMode;
    if schedule != [] {
      var last := |schedule| - 1;
      var before := schedule[..last];
      assert forall k :: 0 <= k < last ==> before[..k] == schedule[..k];
      RunInMode(s, before, block);
      StepInMode(Exec(s, before).value, schedule[last], block);
      StepKeepsInv(Exec(s, before).value, schedule[last]);
    }
  }

  /** In every run, a wait that is to block does not return without a worker, and one that is not to block never parks
      the dispatcher; when either returns with a worker, that is the one that was handed out. */
  lemma {:induction false} AsAsked(n: nat, prefix: seq<Action>, block: bool, schedule: seq<Action>)
    requires Exec(Init(n), prefix).Some? && Exec(Init(n), prefix).value.disp.Out?
    requires var s := Exec(Init(n), prefix).value;
             && Step(s, Caller(Ask(block))).Some?
             && var t := Step(s, Caller(Ask(block))).value;
                Waits(t, schedule) && Exec(t, schedule).Some?
    ensures var s := Exec(Init(n), prefix).value;
            var d := Exec(Step(s, Caller(Ask(block))).value, schedule).value.disp;
            if block then !d.Out? else !d.QParked? && !d.QWoken?
    ensures var s := Exec(Init(n), prefix).value;
            var t := Exec(Step(s, Caller(Ask(block))).value, schedule).value;
            t.disp.Has? ==> PhaseOf(t.log, t.disp.id).Handed?
  {
    hide Exec, Init, Inv;
    var s := Exec(Init(n), prefix).value;
    AlwaysInv(n, prefix);
    StepKeepsInv(s, Caller(Ask(block)));
    Asked(s, block);
    var t := Exec(Step(s, Caller(Ask(block))).value, schedule).value;
    RunInMode(Step(s, Caller(Ask(block))).value, schedule, block);
    if t.disp.Has? {
      HandedOut(t);
    }
  }

  lemma Asked(s: State, block: bool)
    requires s.disp.Out? && Step(s, Caller(Ask(block))).Some?
    ensures InMode(Step(s, Caller(Ask(block))).value.disp, block)
  {
    hide FocusedMove;
  }

  lemma HandedOut(t: State)
    requires Inv(t) && t.disp.Has?
    ensures PhaseOf(t.log, t.disp.id).Handed?
  {
    hide PhaseOf;
    assert CellOk(t.cells[t.disp.id], t.disp.id, t.queue, t.disp, PhaseOf(t.log, t.disp.id));
  }

  /** How many workers a scan has passed when the dispatcher is at a place behind its start. */
  function Passed(d: Dispatcher, n: nat): nat
  {
    if d.Scan? then d.k else if d.Found? then d.id else n
  }

  /** In some state of the run, worker i is idle, or not. */
  ghost predicate SeenIdle(s: State, schedule: seq<Action>, i: nat, idle: bool) {
    exists k :: 0 <= k < |schedule| && SeesIdle(Exec(s, schedule[..k]), i, idle)
  }

  predicate SeesIdle(t: Option<State>, i: nat, idle: bool)
  {
    t.Some? && i < |t.value.cells| && t.value.cells[i].status.Idle? == idle
  }

  lemma {:induction false} SeenMore(s: State, before: seq<Action>, a: Action, i: nat, idle: bool)
    ensures SeenIdle(s, before, i, idle) ==> SeenIdle(s, before + [a], i, idle)
    ensures SeesIdle(Exec(s, before), i, idle) ==> SeenIdle(s, before + [a], i, idle)
  {
    hide Exec, SeesIdle;
    var all := before + [a];
    assert all[..|before|] == before;
    if SeenIdle(s, before, i, idle) {
      var k :| 0 <= k < |before| && SeesIdle(Exec(s, before[..k]), i, idle);
      assert all[..k] == before[..k];
    }
  }

  lemma {:induction false} ScanStep(s: State, a: Action)
    requires Inv(s) && s.disp.Scan? && Step(s, a).Some?
    ensures var d, k, n := Step(s, a).value.disp, s.disp.k, |s.cells|;
            if a.Caller? && k < n then d == if s.cells[k].status.Idle? then Found(k) else Scan(k + 1, s.disp.block)
            else if a.Caller? then k == n && d == if s.disp.block then QParked else Out
            else d == s.disp
  {
    hide PhaseOf, WorkerMove, WorkerBlocked, StatusOk, HistoryOk, WakeUpsOk, LocksOk, Extend;
    if a.Worker? {
      assert CellOk(s.cells[a.i], a.i, s.queue, s.disp, PhaseOf(s.log, a.i));
      WorkerEffect(s.cells[a.i], a.i, s.queue, s.disp);
    }
  }

  /** The run stays inside one scan up to its last step. */
  ghost predicate Scans(s: State, schedule: seq<Action>) {
    forall k :: 0 <= k < |schedule| ==> Exec(s, schedule[..k]).Some? && Exec(s, schedule[..k]).value.disp.Scan?
  }

  /** What a scan has seen when the dispatcher is at d. */
  ghost predicate Saw(s: State, schedule: seq<Action>, d: Dispatcher) {
    && (forall i :: 0 <= i < Passed(d, |s.cells|) ==> SeenIdle(s, schedule, i, false))
    && (d.Found? ==> SeenIdle(s, schedule, d.id, true))
    && (d.Scan? || d.Found? || d.QParked? || d.Out?)
  }

  /** In every run, a scan finds a worker that it saw idle, and saw each worker before that one busy; and it gives up,
      to park or to return without a worker, only when it has seen every worker busy. */
  lemma {:induction false} FindsFirstIdle(n: nat, prefix: seq<Action>, schedule: seq<Action>)
    requires Exec(Init(n), prefix).Some?
    requires var s := Exec(Init(n), prefix).value;
             && s.disp.Scan? && s.disp.k == 0
             && Scans(s, schedule) && Exec(s, schedule).Some?
    ensures var s := Exec(Init(n), prefix).value;
            && Saw(s, schedule, Exec(s, schedule).value.disp)
            && (Exec(s, schedule).value.disp.Out? ==> !s.disp.block)
            && (Exec(s, schedule).value.disp.QParked? ==> s.disp.block)
  {
    hide Exec, Init, Inv, Saw, Scans;
    AlwaysInv(n, prefix);
    var s := Exec(Init(n), prefix).value;
    ScanRun(s, schedule);
  }

  lemma {:induction false} ScanRun(s: State, schedule: seq<Action>)
    requires Inv(s) && s.disp.Scan? && s.disp.k == 0 && Scans(s, schedule) && Exec(s, schedule).Some?
    ensures var t := Exec(s, schedule).value;
            && Inv(t) && |t.cells| == |s.cells| && Saw(s, schedule, t.disp)
            && (t.disp.Scan? ==> t.disp.block == s.disp.block)
            && (t.disp.Out? ==> !s.disp.block) && (t.disp.QParked? ==> s.disp.block)
    decreases |schedule|
  {
    hide Inv, Step, Saw;
    if schedule == [] {
      NothingSeen(s);
    } else {
      var last := |schedule| - 1;
      var before, a := schedule[..last], schedule[last];
      assert forall k :: 0 <= k < last ==> before[..k] == schedule[..k];
      ScanRun(s, before);
      var u := Exec(s, before).value;
      StepKeepsInv(u, a);
      StepKeepsSize(u, a);
      ScanStep(u, a);
      SawMore(s, before, a);
      assert before + [a] == schedule;
    }
  }

  lemma NothingSeen(s: State)
    requires s.disp.Scan? && s.disp.k == 0
    ensures Saw(s, [], s.disp)
  {
  }

  lemma {:induction false} SawMore(s: State, before: seq<Action>, a: Action)
    requires Exec(s, before).Some? && Step(Exec(s, before).value, a).Some?
    requires var u := Exec(s, before).value;
             Inv(u) && u.disp.Scan? && |u.cells| == |s.cells| && Saw(s, before, u.disp)
    ensures Saw(s, before + [a], Step(Exec(s, before).value, a).value.disp)
  {
    hide Inv, Step, Exec, SeenIdle;
    var u, n := Exec(s, before).value, |s.cells|;
    var k, d := u.disp.k, Step(u, a).value.disp;
    ScanStep(u, a);
    forall i | 0 <= i < Passed(d, n)
      ensures SeenIdle(s, before + [a], i, false)
    {
      SeenMore(s, before, a, i, false);
      assert i < Passed(u.disp, n) || (i == k < n && !u.cells[k].status.Idle?);
    }
    if d.Found? {
      SeenMore(s, before, a, k, true);
    }
  }
}
