/** When the worker pool deadlocks: exactly if its caller forgets every worker. */
module Deadlock {
  import opened ThreadPool

  /** A wait that goes on until there is a worker. */
  predicate BlockingWait(d: Dispatcher)
  {
    (d.Scan? && d.block) || d.QParked? || d.QWoken?
  }

  ghost predicate AllLost(s: State) {
    forall i :: 0 <= i < |s.cells| ==> PhaseOf(s.log, i).Lost?
  }

  /** Whatever anybody does, the wait goes on. */
  ghost predicate NeverReturns(s: State) {
    forall schedule :: Exec(s, schedule).Some? ==> BlockingWait(Exec(s, schedule).value.disp)
  }

  /** The wait can get to where no thread can move. */
  ghost predicate CanHang(s: State) {
    exists schedule :: StaysWaiting(s, schedule) && Exec(s, schedule).Some? && Stuck(Exec(s, schedule).value)
  }

  // ----- with every worker forgotten, a wait does not return -----

  lemma ScansOn(c: Cell, i: nat, n: nat, q: QueueOwner, d: Dispatcher, ch: Choice, p: Phase)
    requires BlockingWait(d) && Focused(n, d) && i == FocusOf(d) && CellOk(c, i, q, d, p) && p.Lost?
    requires !FocusBlocked(c, d, ch)
    ensures BlockingWait(FocusedMove(c, q, d, ch).disp)
  {
  }

  lemma QueuesOn(n: nat, q: QueueOwner, d: Dispatcher, ch: Choice)
    requires BlockingWait(d) && !Focused(n, d) && QueueMove(q, d, ch).Some?
    ensures BlockingWait(QueueMove(q, d, ch).value.1)
  {
  }

  lemma {:induction false} StillWaiting(s: State, a: Action)
    requires Inv(s) && AllLost(s) && BlockingWait(s.disp) && Step(s, a).Some?
    ensures BlockingWait(Step(s, a).value.disp)
  {
    hide PhaseOf, WorkerMove, FocusedMove, QueueMove, WorkerBlocked, FocusBlocked, StatusOk, HistoryOk, WakeUpsOk,
      LocksOk, Extend, Focused, FocusOf;
    match a {
      case Worker(i) =>
        assert CellOk(s.cells[i], i, s.queue, s.disp, PhaseOf(s.log, i));
        WorkerEffect(s.cells[i], i, s.queue, s.disp);
      case Caller(ch) =>
        if Focused(|s.cells|, s.disp) {
          var i := FocusOf(s.disp);
          assert CellOk(s.cells[i], i, s.queue, s.disp, PhaseOf(s.log, i));
          ScansOn(s.cells[i], i, |s.cells|, s.queue, s.disp, ch, PhaseOf(s.log, i));
        } else {
          QueuesOn(|s.cells|, s.queue, s.disp, ch);
        }
      case SpuriousWorker(i) =>
      case SpuriousDispatcher =>
    }
  }

  lemma {:induction false} LostStays(s: State, a: Action)
    requires Inv(s) && AllLost(s) && Step(s, a).Some?
    ensures var t := Step(s, a).value; Inv(t) && AllLost(t) && |t.cells| == |s.cells|
  {
    hide Inv, Step, PhaseOf, Count;
    StepKeepsInv(s, a);
    StepKeepsSize(s, a);
    var t := Step(s, a).value;
    forall i | 0 <= i < |t.cells|
      ensures PhaseOf(t.log, i).Lost?
    {
      LostStep(s, a, i);
    }
  }

  lemma {:induction false} WaitsForever(s: State, schedule: seq<Action>)
    requires Inv(s) && AllLost(s) && BlockingWait(s.disp) && Exec(s, schedule).Some?
    ensures var t := Exec(s, schedule).value; Inv(t) && AllLost(t) && BlockingWait(t.disp)
  {
    hide Inv, AllLost, Step, BlockingWait;
    if schedule != [] {
      var before, a := schedule[..|schedule| - 1], schedule[|schedule| - 1];
      WaitsForever(s, before);
      LostStays(Exec(s, before).value, a);
      StillWaiting(Exec(s, before).value, a);
    }
  }

  // ----- a run that goes on as long as it can -----

  /** A step that somebody asked for, and that forgets no worker. */
  lemma {:induction false} SomeStep(s: State) returns (a: Action)
    requires !Stuck(s)
    ensures Step(s, a).Some? && (a.Worker? || (a.Caller? && !a.ch.DropIt?))
  {
    hide Step;
    if i :| 0 <= i < |s.cells| && Step(s, Worker(i)).Some? {
      a := Worker(i);
    } else {
      var ch: Choice :| !ch.DropIt? && Step(s, Caller(ch)).Some?;
      a := Caller(ch);
    }
  }

  lemma {:induction false} ExecFirst(s: State, a: Action, schedule: seq<Action>)
    requires Step(s, a).Some?
    ensures Exec(s, [a]) == Step(s, a) && Exec(s, [a] + schedule) == Exec(Step(s, a).value, schedule)
  {
    hide Step;
    assert [a][..0] == [];
    assert Exec(s, [a][..0]) == Some(s);
    ExecConcat(s, [a], schedule);
  }

  lemma {:induction false} StaysFirst(s: State, a: Action, schedule: seq<Action>)
    requires s.disp.Waiting() && Step(s, a).Some? && (a.Worker? || a.Caller?)
    requires StaysWaiting(Step(s, a).value, schedule)
    ensures StaysWaiting(s, [a] + schedule)
  {
    hide Step, Exec;
    var all, t := [a] + schedule, Step(s, a).value;
    forall k | 0 <= k <= |all|
      ensures Exec(s, all[..k]).Some? && Exec(s, all[..k]).value.disp.Waiting()
    {
      if k == 0 {
        ExecNothing(s);
        assert all[..0] == [];
      } else {
        ExecFirst(s, a, schedule[..k - 1]);
        assert all[..k] == [a] + schedule[..k - 1];
      }
    }
  }

  lemma StaysNowhere(s: State)
    requires s.disp.Waiting()
    ensures StaysWaiting(s, []) && Exec(s, []) == Some(s)
  {
  }

  lemma IsWaiting(d: Dispatcher)
    requires BlockingWait(d)
    ensures d.Waiting()
  {
  }

  /** With every worker forgotten, the pool gets stuck in the wait. */
  lemma {:induction false} GetsStuck(s: State) returns (schedule: seq<Action>)
    requires Inv(s) && AllLost(s) && BlockingWait(s.disp)
    ensures StaysWaiting(s, schedule) && Exec(s, schedule).Some? && Stuck(Exec(s, schedule).value)
    decreases Measure(s)
  {
    hide Inv, AllLost, Step, Exec, BlockingWait, Stuck, Measure, StaysWaiting;
    IsWaiting(s.disp);
    StaysNowhere(s);
    schedule := [];
    if !Stuck(s) {
      var a := SomeStep(s);
      var t := Step(s, a).value;
      LostStays(s, a);
      StillWaiting(s, a);
      IsWaiting(t.disp);
      WaitProgress(s, a);
      var rest := GetsStuck(t);
      StaysFirst(s, a, rest);
      ExecFirst(s, a, rest);
      schedule := [a] + rest;
    }
  }

  // ----- with a worker left, a wait returns -----

  lemma WaitingForgetsNone(c: Cell, q: QueueOwner, d: Dispatcher, ch: Choice)
    requires d.Waiting() && !FocusBlocked(c, d, ch) && FocusedMove(c, q, d, ch).event.Some?
    ensures !FocusedMove(c, q, d, ch).event.value.Drop?
  {
  }

  lemma WorkerForgetsNone(c: Cell, i: nat, q: QueueOwner, d: Dispatcher)
    requires !WorkerBlocked(c, q) && WorkerMove(c, i, q, d).event.Some?
    ensures !WorkerMove(c, i, q, d).event.value.Drop?
  {
    hide SignalQueue;
  }

  lemma {:induction false} LostByDrop(log: seq<Event>, e: Option<Event>, i: nat)
    requires PhaseOf(Extend(log, e), i).Lost? && (e.Some? ==> !e.value.Drop?)
    ensures PhaseOf(log, i).Lost?
  {
    hide PhaseOf, Extend;
    PhaseAfter(log, e, i);
  }

  lemma {:induction false} LostBefore(s: State, a: Action, i: nat)
    requires s.disp.Waiting() && Step(s, a).Some? && PhaseOf(Step(s, a).value.log, i).Lost?
    ensures PhaseOf(s.log, i).Lost?
  {
    hide PhaseOf, WorkerMove, FocusedMove, QueueMove, WorkerBlocked, FocusBlocked, Extend, Focused, FocusOf;
    match a {
      case Worker(j) =>
        var m := WorkerMove(s.cells[j], j, s.queue, s.disp);
        if m.event.Some? {
          WorkerForgetsNone(s.cells[j], j, s.queue, s.disp);
        }
        LostByDrop(s.log, m.event, i);
      case Caller(ch) =>
        if Focused(|s.cells|, s.disp) {
          var c := s.cells[FocusOf(s.disp)];
          var m := FocusedMove(c, s.queue, s.disp, ch);
          if m.event.Some? {
            WaitingForgetsNone(c, s.queue, s.disp, ch);
          }
          LostByDrop(s.log, m.event, i);
        }
      case SpuriousWorker(j) =>
      case SpuriousDispatcher =>
    }
  }

  lemma {:induction false} AllLostBefore(s: State, a: Action)
    requires s.disp.Waiting() && Step(s, a).Some? && AllLost(Step(s, a).value)
    ensures AllLost(s)
  {
    hide Step, PhaseOf;
    StepKeepsSize(s, a);
    forall i | 0 <= i < |s.cells|
      ensures PhaseOf(s.log, i).Lost?
    {
      LostBefore(s, a, i);
    }
  }

  lemma {:induction false} StuckIsAllLost(s: State)
    requires Inv(s) && Stuck(s)
    ensures AllLost(s)
  {
    hide Inv, Stuck, PhaseOf;
    forall i | 0 <= i < |s.cells|
      ensures PhaseOf(s.log, i).Lost?
    {
      StuckIsLost(s, i);
    }
  }

  /** A run that ends the wait. */
  lemma {:induction false} Leaves(s: State) returns (schedule: seq<Action>)
    requires Inv(s) && !AllLost(s) && BlockingWait(s.disp)
    ensures Exec(s, schedule).Some? && !BlockingWait(Exec(s, schedule).value.disp)
    decreases Measure(s)
  {
    hide Inv, AllLost, Step, Exec, BlockingWait, Stuck, Measure;
    IsWaiting(s.disp);
    if Stuck(s) {
      StuckIsAllLost(s);
    }
    var a := SomeStep(s);
    var t := Step(s, a).value;
    ExecFirst(s, a, []);
    schedule := [a];
    if BlockingWait(t.disp) {
      IsWaiting(t.disp);
      StepKeepsInv(s, a);
      WaitProgress(s, a);
      if AllLost(t) {
        AllLostBefore(s, a);
      }
      var rest := Leaves(t);
      ExecFirst(s, a, rest);
      schedule := [a] + rest;
    }
  }

  lemma {:induction false} LostFromTheStart(s: State, schedule: seq<Action>)
    requires StaysWaiting(s, schedule) && Exec(s, schedule).Some? && AllLost(Exec(s, schedule).value)
    ensures AllLost(s)
    decreases |schedule|
  {
    hide AllLost, Step;
    assert schedule[..|schedule|] == schedule;
    if schedule != [] {
      var last := |schedule| - 1;
      var before := schedule[..last];
      assert forall k :: 0 <= k <= last ==> before[..k] == schedule[..k];
      assert before[..last] == before;
      AllLostBefore(Exec(s, before).value, schedule[last]);
      LostFromTheStart(s, before);
    }
  }

  // ----- the exact condition -----

  lemma {:induction false} CountIn(log: seq<Event>, e: Event)
    requires e in log
    ensures Count(log, e) > 0
  {
    if log[|log| - 1] != e {
      CountIn(log[..|log| - 1], e);
    }
  }

  /** A worker is lost exactly if it was forgotten. */
  lemma {:induction false} LostIffDropped(s: State)
    requires Inv(s)
    ensures AllLost(s) <==> forall i :: 0 <= i < |s.cells| ==> Drop(i) in s.log
  {
    hide Inv, PhaseOf, Count;
    forall i | 0 <= i < |s.cells|
      ensures PhaseOf(s.log, i).Lost? <==> Drop(i) in s.log
    {
      if PhaseOf(s.log, i).Lost? {
        LostWasDropped(s.log, i);
      }
      if Drop(i) in s.log {
        CountIn(s.log, Drop(i));
        NotBroken(s, i);
        Balance(s.log, i);
      }
    }
  }

  lemma {:induction false} HangsIfLost(s: State)
    requires Inv(s) && BlockingWait(s.disp)
    ensures NeverReturns(s) <==> AllLost(s)
    ensures CanHang(s) <==> AllLost(s)
  {
    hide Inv, AllLost, Exec, BlockingWait, Stuck, StaysWaiting;
    if AllLost(s) {
      forall schedule | Exec(s, schedule).Some?
        ensures BlockingWait(Exec(s, schedule).value.disp)
      {
        WaitsForever(s, schedule);
      }
      var schedule := GetsStuck(s);
    } else {
      var schedule := Leaves(s);
    }
    if schedule :| StaysWaiting(s, schedule) && Exec(s, schedule).Some? && Stuck(Exec(s, schedule).value) {
      StepsBounded(s, schedule);
      StuckIsAllLost(Exec(s, schedule).value);
      LostFromTheStart(s, schedule);
    }
  }

  /** In every run, a wait for a worker never returns exactly if every worker was forgotten before it got there, and
      that is also exactly when it can end with no thread able to move. */
  lemma {:induction false} WaitHangsIff(n: nat, prefix: seq<Action>)
    requires Exec(Init(n), prefix).Some? && BlockingWait(Exec(Init(n), prefix).value.disp)
    ensures var s := Exec(Init(n), prefix).value;
            && (NeverReturns(s) <==> forall i :: 0 <= i < n ==> Drop(i) in s.log)
            && (CanHang(s) <==> forall i :: 0 <= i < n ==> Drop(i) in s.log)
  {
    hide Inv, AllLost, Exec, Init, BlockingWait, NeverReturns, CanHang;
    AlwaysInv(n, prefix);
    HangsIfLost(Exec(Init(n), prefix).value);
    LostIffDropped(Exec(Init(n), prefix).value);
  }

  // ----- a run that forgets every worker -----

  /** After the first k workers were handed out and forgotten one after the other, before any worker moved. */
  function Dropped(n: nat, k: nat): State
  {
    State(seq(n, j => Cell(if j < k then WorkerReady else Idle, Enter, Free)), NoOne, Out, DropLog(k))
  }

  function DropLog(k: nat): seq<Event>
  {
    if k == 0 then [] else DropLog(k - 1) + [Hand(k - 1)] + [Drop(k - 1)]
  }

  lemma ExecMore(s: State, schedule: seq<Action>, a: Action, t: State)
    requires Exec(s, schedule).Some? && Step(Exec(s, schedule).value, a) == Some(t)
    ensures Exec(s, schedule + [a]) == Some(t)
  {
    hide Step;
    assert (schedule + [a])[..|schedule|] == schedule;
  }

  /** A step of the dispatcher that looks at worker k. */
  lemma FocusedStep(s: State, k: nat, ch: Choice, m: Move)
    requires Focused(|s.cells|, s.disp) && FocusOf(s.disp) == k < |s.cells|
    requires !FocusBlocked(s.cells[k], s.disp, ch) && m == FocusedMove(s.cells[k], s.queue, s.disp, ch)
    ensures Step(s, Caller(ch)) == Some(State(s.cells[k := m.cell], m.queue, m.disp, Extend(s.log, m.event)))
  {
    hide FocusedMove, FocusBlocked, Focused, FocusOf;
  }

  /** The scan passes the workers that were handed out. */
  lemma {:induction false} ScansTo(n: nat, k: nat, j: nat) returns (x: seq<Action>)
    requires j <= k <= n
    ensures Exec(Dropped(n, k), x) == Some(Dropped(n, k).(queue := QDispatcher, disp := Scan(j, true)))
  {
    hide Exec;
    var s, ask := Dropped(n, k), Ask(true);
    if j == 0 {
      ExecNothing(s);
      ExecMore(s, [], Caller(ask), s.(queue := QDispatcher, disp := Scan(0, true)));
      x := [] + [Caller(ask)];
    } else {
      x := ScansTo(n, k, j - 1);
      var t := s.(queue := QDispatcher, disp := Scan(j - 1, true));
      FocusedStep(t, j - 1, ask, Move(t.cells[j - 1], QDispatcher, Scan(j, true), None));
      assert t.cells[j - 1 := t.cells[j - 1]] == t.cells;
      ExecMore(s, x, Caller(ask), t.(disp := Scan(j, true)));
      x := x + [Caller(ask)];
    }
  }

  /** Handing out worker k, step by step. */
  lemma {:induction false} HandsOut(n: nat, k: nat) returns (x: seq<Action>)
    requires k < n
    ensures var s := Dropped(n, k);
            Exec(s, x) == Some(State(s.cells[k := Cell(WorkerReady, Enter, Free)], NoOne, Has(k), s.log + [Hand(k)]))
  {
    hide Exec;
    var s, ask, l := Dropped(n, k), Ask(true), DropLog(k);
    var c := s.cells;
    var i, held := Cell(Idle, Enter, Free), Cell(Idle, Enter, ByDispatcher);
    var ready := Cell(WorkerReady, Enter, ByDispatcher);
    x := ScansTo(n, k, k);
    hide Dropped;
    FocusedStep(State(c, QDispatcher, Scan(k, true), l), k, ask, Move(i, QDispatcher, Found(k), None));
    ExecMore(s, x, Caller(ask), State(c[k := i], QDispatcher, Found(k), l));
    x := x + [Caller(ask)];
    assert c[k := i] == c;
    FocusedStep(State(c, QDispatcher, Found(k), l), k, ask, Move(i, NoOne, Take(k), None));
    ExecMore(s, x, Caller(ask), State(c, NoOne, Take(k), l));
    x := x + [Caller(ask)];
    FocusedStep(State(c, NoOne, Take(k), l), k, ask, Move(held, NoOne, SetReady(k), None));
    ExecMore(s, x, Caller(ask), State(c[k := held], NoOne, SetReady(k), l));
    x := x + [Caller(ask)];
    FocusedStep(State(c[k := held], NoOne, SetReady(k), l), k, ask, Move(ready, NoOne, ReadyUnlock(k), Some(Hand(k))));
    assert c[k := held][k := ready] == c[k := ready];
    ExecMore(s, x, Caller(ask), State(c[k := ready], NoOne, ReadyUnlock(k), l + [Hand(k)]));
    x := x + [Caller(ask)];
    FocusedStep(State(c[k := ready], NoOne, ReadyUnlock(k), l + [Hand(k)]), k, ask,
                Move(Cell(WorkerReady, Enter, Free), NoOne, Has(k), None));
    assert c[k := ready][k := Cell(WorkerReady, Enter, Free)] == c[k := Cell(WorkerReady, Enter, Free)];
    ExecMore(s, x, Caller(ask), State(c[k := Cell(WorkerReady, Enter, Free)], NoOne, Has(k), l + [Hand(k)]));
    x := x + [Caller(ask)];
  }

  lemma {:induction false} DropsOne(n: nat, k: nat) returns (x: seq<Action>)
    requires k < n
    ensures Exec(Dropped(n, k), x) == Some(Dropped(n, k + 1))
  {
    hide Exec;
    var s, free := Dropped(n, k), Cell(WorkerReady, Enter, Free);
    x := HandsOut(n, k);
    var t := State(s.cells[k := free], NoOne, Has(k), s.log + [Hand(k)]);
    FocusedStep(t, k, DropIt, Move(free, NoOne, Out, Some(Drop(k))));
    assert t.cells[k := free] == Dropped(n, k + 1).cells;
    ExecMore(s, x, Caller(DropIt), Dropped(n, k + 1));
    x := x + [Caller(DropIt)];
  }

  lemma {:induction false} DropsAll(n: nat, k: nat) returns (x: seq<Action>)
    requires k <= n
    ensures Exec(Init(n), x) == Some(Dropped(n, k))
  {
    hide Exec;
    if k == 0 {
      assert Init(n) == Dropped(n, 0);
      ExecNothing(Init(n));
      x := [];
    } else {
      var before := DropsAll(n, k - 1);
      var more := DropsOne(n, k - 1);
      ExecConcat(Init(n), before, more);
      x := before + more;
    }
  }

  lemma {:induction false} DropIsLogged(k: nat, i: nat)
    requires i < k
    ensures Drop(i) in DropLog(k)
  {
    if i < k - 1 {
      DropIsLogged(k - 1, i);
    }
  }

  /** The synchronisation loop forgets the worker that it was given on a radio error. In a pool of any size, doing so
      once for every worker deadlocks its next wait for a worker. */
  lemma {:induction false} DropDeadlocks(n: nat)
    ensures exists schedule ::
              && Exec(Init(n), schedule).Some? && Exec(Init(n), schedule).value.log == DropLog(n)
              && NeverReturns(Exec(Init(n), schedule).value) && CanHang(Exec(Init(n), schedule).value)
  {
    hide Exec, Init, NeverReturns, CanHang, DropLog;
    var x := DropsAll(n, n);
    var s := Dropped(n, n).(queue := QDispatcher, disp := Scan(0, true));
    ExecMore(Init(n), x, Caller(Ask(true)), s);
    x := x + [Caller(Ask(true))];
    forall i | 0 <= i < n
      ensures Drop(i) in s.log
    {
      DropIsLogged(n, i);
    }
    WaitHangsIff(n, x);
  }
}
