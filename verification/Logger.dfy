/** The log writer: a queue under a mutex that a thread drains into files which are rotated by size. The methods of
    the class are the sections that run without interruption; a run is any interleaving of them. */
module Logger {
  /** What the logger holds. A file is the sequence of the messages printed to it; the earlier files are closed. */
  datatype Store = Store(
    queue: seq<string>, closed: seq<seq<string>>, current: seq<string>,
    curLength: int, maxLength: int, nameIdx: nat, running: bool)

  /** A message is printed up to its first null character. */
  function Printed(msg: string): (p: string)
    ensures p <= msg
  {
    if msg == [] || msg[0] == '\0' then [] else [msg[0]] + Printed(msg[1..])
  }

  function PrintAll(msgs: seq<string>): (pieces: seq<string>)
    ensures |pieces| == |msgs|
  {
    seq(|msgs|, i requires 0 <= i < |msgs| => Printed(msgs[i]))
  }

  function Size(file: seq<string>): nat
  {
    if file == [] then 0 else Size(file[..|file| - 1]) + |file[|file| - 1]|
  }

  function Flatten(files: seq<seq<string>>): seq<string>
  {
    if files == [] then [] else Flatten(files[..|files| - 1]) + files[|files| - 1]
  }

  /** Everything that was printed, over all files in order. */
  function OnDisk(s: Store): seq<string>
  {
    Flatten(s.closed) + s.current
  }

  /** Prints the first message. */
  function Taken(s: Store): Store
    requires s.queue != []
  {
    s.(queue := s.queue[1..], current := s.current + [Printed(s.queue[0])])
  }

  predicate Full(s: Store, n: nat)
  {
    n > 0 && s.curLength + n >= s.maxLength > 0
  }

  /** Counts what was printed, and starts a new file once the limit is reached. */
  function Accounted(s: Store, n: nat): Store
  {
    if Full(s, n) then s.(closed := s.closed + [s.current], current := [], nameIdx := s.nameIdx + 1, curLength := 0)
    else s.(curLength := s.curLength + n)
  }

  function Flushed(s: Store): Store
  {
    s.(current := s.current + PrintAll(s.queue))
  }

  function Empty(maxLength: int): Store
  {
    Store([], [], [], 0, maxLength * 1024, 0, true)
  }

  /** A file that was closed: its last message took it to the limit. */
  predicate ClosedOk(file: seq<string>, maxLength: int)
  {
    && file != []
    && maxLength <= Size(file) < maxLength + |file[|file| - 1]|
  }

  /** The files, when n characters of the current one are not counted yet. */
  predicate FilesOk(s: Store, n: nat)
  {
    && s.nameIdx == |s.closed| && s.curLength + n == Size(s.current)
    && (n > 0 ==> s.current != [] && n == |s.current[|s.current| - 1]|)
    && (if s.maxLength > 0
        then s.curLength < s.maxLength && forall i :: 0 <= i < |s.closed| ==> ClosedOk(s.closed[i], s.maxLength)
        else s.closed == [])
  }

  class LoggerFile {
    var buffer: seq<string>
    var closedFiles: seq<seq<string>>
    var logfile: seq<string>
    var curLength: int
    var maxLength: int
    var nameIdx: nat
    var isRunning: bool

    function State(): Store
      reads this
    {
      Store(buffer, closedFiles, logfile, curLength, maxLength, nameIdx, isRunning)
    }

    /** Opens the first file. The limit is given in units of 1024 characters; zero or less is no limit. */
    constructor (maxLength_: int)
      ensures State() == Empty(maxLength_) && FilesOk(State(), 0)
    {
      buffer, closedFiles, logfile := [], [], [];
      curLength, maxLength, nameIdx, isRunning := 0, maxLength_ * 1024, 0, true;
    }

    method Log(msg: string)
      modifies this`buffer
      ensures State() == old(State()).(queue := old(State()).queue + [msg])
    {
      buffer := buffer + [msg];
    }

    /** The section in which the thread prints a message. */
    method Print() returns (n: nat)
      requires buffer != []
      modifies this`buffer, this`logfile
      ensures State() == Taken(old(State())) && n == |Printed(old(buffer[0]))|
    {
      var s := buffer[0];
      n := |Printed(s)|;
      logfile := logfile + [Printed(s)];
      buffer := buffer[1..];
    }

    /** What the thread does behind that section. */
    method Account(n: nat)
      modifies this
      ensures State() == Accounted(old(State()), n)
      ensures old(FilesOk(State(), n)) ==> FilesOk(State(), 0)
    {
      if FilesOk(State(), n) {
        AccountKeepsFiles(State(), n);
      }
      if n > 0 {
        curLength := curLength + n;
        if curLength >= maxLength && maxLength > 0 {
          closedFiles := closedFiles + [logfile];
          nameIdx := nameIdx + 1;
          logfile := [];
          curLength := 0;
        }
      }
    }

    /** The thread's loop up to where it waits, when nobody interferes. */
    method RunThread()
      requires FilesOk(State(), 0)
      modifies this
      ensures FilesOk(State(), 0) && buffer == []
      ensures OnDisk(State()) == old(OnDisk(State()) + PrintAll(buffer))
      ensures maxLength == old(maxLength) && isRunning == old(isRunning)
    {
      hide Flatten, PrintAll, Printed, FilesOk;
      ghost var was := State();
      PrintNone(OnDisk(was));
      while buffer != []
        invariant FilesOk(State(), 0) && OnDisk(State()) + PrintAll(buffer) == OnDisk(was) + PrintAll(was.queue)
        invariant maxLength == was.maxLength && isRunning == was.running
        decreases |buffer|
      {
        ghost var s := State();
        var n := Print();
        TakeKeeps(s);
        AccountKeeps(State(), n);
        Account(n);
      }
      PrintNone(OnDisk(State()));
    }

    /** Prints what is left. The queue keeps its messages. */
    method Flush()
      modifies this`logfile
      ensures State() == Flushed(old(State()))
    {
      ghost var was := State();
      var i := 0;
      while i < |buffer|
        invariant i <= |buffer| && logfile == was.current + PrintAll(buffer)[..i]
        invariant State() == was.(current := logfile)
      {
        logfile := logfile + [Printed(buffer[i])];
        i := i + 1;
      }
    }

    /** The destructor, when the thread is done. */
    method Close()
      modifies this`buffer, this`isRunning, this`logfile
      ensures State() == Flushed(old(State()).(queue := old(State()).queue + ["Closing log\n"], running := false))
    {
      Log("Closing log\n");
      isRunning := false;
      Flush();
    }
  }

  lemma PrintNone(x: seq<string>)
    ensures x + PrintAll([]) == x
  {
  }

  lemma PrintConcat(x: seq<string>, y: seq<string>)
    ensures PrintAll(x + y) == PrintAll(x) + PrintAll(y)
  {
    hide Printed;
  }

  lemma Assoc<T>(x: seq<T>, y: seq<T>, z: seq<T>)
    ensures (x + y) + z == x + (y + z)
  {
  }

  /** Printing a message moves it from the queue to the disk. */
  lemma {:induction false} TakeKeeps(s: Store)
    requires s.queue != []
    ensures var t := Taken(s); OnDisk(t) + PrintAll(t.queue) == OnDisk(s) + PrintAll(s.queue)
    ensures FilesOk(s, 0) ==> FilesOk(Taken(s), |Printed(s.queue[0])|)
  {
    hide Flatten, Printed, ClosedOk;
    var p, t := Printed(s.queue[0]), Taken(s);
    assert PrintAll(s.queue) == [p] + PrintAll(t.queue);
    Assoc(Flatten(s.closed), s.current, [p]);
    Assoc(OnDisk(s), [p], PrintAll(t.queue));
    assert t.current[..|s.current|] == s.current;
  }

  /** Starting a new file moves nothing. */
  lemma {:induction false} AccountKeeps(s: Store, n: nat)
    ensures OnDisk(Accounted(s, n)) == OnDisk(s)
  {
    assert (s.closed + [s.current])[..|s.closed|] == s.closed;
    assert Flatten(s.closed + [s.current]) == Flatten(s.closed) + s.current;
  }

  lemma {:induction false} AccountKeepsFiles(s: Store, n: nat)
    requires FilesOk(s, n)
    ensures FilesOk(Accounted(s, n), 0)
  {
    var t := Accounted(s, n);
    if Full(s, n) {
      assert ClosedOk(s.current, s.maxLength);
      assert forall i :: 0 <= i < |t.closed| ==> t.closed[i] == if i < |s.closed| then s.closed[i] else s.current;
    }
  }

  // ----- all runs -----

  /** Where the writer thread is. The comment names the next thing that it does. */
  datatype Pc =
    | Test            // test whether the logger is running
    | Lock            // lock the mutex and look at the queue
    | Waiting         // (waiting on the condition variable)
    | Woken           // lock the mutex again
    | Wrote(n: nat)   // account for the n characters it has printed
    | Finished        // (the thread is done)

  datatype State = State(store: Store, pc: Pc, flushed: bool)

  datatype Event =
    | Log(msg: string)   // some thread logs a message
    | Writer             // the writer thread makes its next step
    | Spurious           // the writer thread wakes up unasked
    | Stop               // the destructor tells the writer to stop
    | Flush              // the destructor, behind the end of the thread

  function Signal(pc: Pc): Pc
  {
    if pc.Waiting? then Woken else pc
  }

  /** With the mutex: prints the first message, or waits for one. */
  function TakeOrWait(s: State): State
  {
    if s.store.queue == [] then s.(pc := Waiting)
    else s.(store := Taken(s.store), pc := Wrote(|Printed(s.store.queue[0])|))
  }

  function WriterStep(s: State): State
  {
    match s.pc
    case Test => s.(pc := if s.store.running then Lock else Finished)
    case Lock => TakeOrWait(s)
    case Woken => if s.store.running then TakeOrWait(s) else s.(pc := Finished)
    case Wrote(n) => s.(store := Accounted(s.store, n), pc := Test)
    case Waiting => s
    case Finished => s
  }

  /** When an event can happen. Nothing happens behind the destructor's flush. */
  predicate Enabled(s: State, e: Event)
  {
    && !s.flushed
    && match e
       case Log(_) => true
       case Writer => !s.pc.Waiting? && !s.pc.Finished?
       case Spurious => s.pc.Waiting?
       case Stop => s.store.running
       case Flush => s.pc.Finished?
  }

  function Step(s: State, e: Event): State
  {
    match e
    case Log(msg) => s.(store := s.store.(queue := s.store.queue + [msg]), pc := Signal(s.pc))
    case Writer => WriterStep(s)
    case Spurious => s.(pc := Woken)
    case Stop => s.(store := s.store.(running := false), pc := Signal(s.pc))
    case Flush => s.(store := Flushed(s.store), flushed := true)
  }

  function Init(maxLength: int): State
  {
    State(Empty(maxLength), Test, false)
  }

  function Run(s: State, run: seq<Event>): State
  {
    if run == [] then s else Step(Run(s, run[..|run| - 1]), run[|run| - 1])
  }

  /** Every event of a run can happen where it does. */
  predicate CanRun(s: State, run: seq<Event>)
  {
    run == [] || (CanRun(s, run[..|run| - 1]) && Enabled(Run(s, run[..|run| - 1]), run[|run| - 1]))
  }

  /** The messages that are logged in a run, in order. */
  function Logged(run: seq<Event>): seq<string>
  {
    if run == [] then []
    else
      var e := run[|run| - 1];
      Logged(run[..|run| - 1]) + if e.Log? then [e.msg] else []
  }

  /** What is on disk and what is still to come. */
  function Everything(s: State): seq<string>
  {
    OnDisk(s.store) + if s.flushed then [] else PrintAll(s.store.queue)
  }

  lemma {:induction false} StepKeeps(s: State, e: Event)
    requires Enabled(s, e)
    ensures Everything(Step(s, e)) == Everything(s) + if e.Log? then [Printed(e.msg)] else []
  {
    hide Printed, Flatten;
    var q := s.store.queue;
    match e {
      case Log(msg) =>
        PrintConcat(q, [msg]);
        Assoc(OnDisk(s.store), PrintAll(q), [Printed(msg)]);
      case Writer =>
        if s.pc.Wrote? {
          AccountKeeps(s.store, s.pc.n);
        } else if q != [] {
          TakeKeeps(s.store);
        }
      case Flush =>
        Assoc(Flatten(s.store.closed), s.store.current, PrintAll(q));
        assert Everything(Step(s, e)) == OnDisk(Flushed(s.store));
      case _ =>
    }
  }

  /** In every run, the files in order followed by the queue are exactly what was logged, in order. When the
      destructor has flushed the queue, all of it is on disk. */
  lemma {:induction false} Conservation(maxLength: int, run: seq<Event>)
    requires CanRun(Init(maxLength), run)
    ensures var s := Run(Init(maxLength), run);
            OnDisk(s.store) + (if s.flushed then [] else PrintAll(s.store.queue)) == PrintAll(Logged(run))
  {
    hide OnDisk, PrintAll, Step, Enabled;
    if run == [] {
      NothingLogged(maxLength);
    } else {
      var before, e := run[..|run| - 1], run[|run| - 1];
      Conservation(maxLength, before);
      StepKeeps(Run(Init(maxLength), before), e);
      LogOne(Logged(before), e);
    }
  }

  lemma NothingLogged(maxLength: int)
    ensures OnDisk(Empty(maxLength)) + PrintAll([]) == PrintAll([])
  {
  }

  lemma LogOne(msgs: seq<string>, e: Event)
    ensures PrintAll(msgs + if e.Log? then [e.msg] else [])
            == PrintAll(msgs) + if e.Log? then [Printed(e.msg)] else []
  {
    hide Printed;
  }

  /** What the files look like before the destructor's flush, which does not look at sizes. */
  predicate SizesOk(s: State)
  {
    !s.flushed ==> FilesOk(s.store, if s.pc.Wrote? then s.pc.n else 0)
  }

  lemma {:induction false} StepKeepsSizes(s: State, e: Event)
    requires Enabled(s, e) && SizesOk(s)
    ensures SizesOk(Step(s, e)) && Step(s, e).store.maxLength == s.store.maxLength
    ensures Step(s, e).flushed ==> Step(s, e).store.closed == s.store.closed
  {
    hide Printed, Flatten, PrintAll, Size, ClosedOk;
    if e.Writer? {
      if s.pc.Wrote? {
        AccountKeepsFiles(s.store, s.pc.n);
      } else if s.store.queue != [] {
        TakeKeeps(s.store);
      }
    }
  }

  /** In every run, a file is closed exactly when its last message took it to the limit: its size is at least the
      limit, and was below it before that message. Without a limit there is one file. */
  lemma {:induction false} Rotation(maxLength: int, run: seq<Event>)
    requires CanRun(Init(maxLength), run)
    ensures var s := Run(Init(maxLength), run);
            && SizesOk(s) && s.store.maxLength == maxLength * 1024
            && (maxLength <= 0 ==> s.store.closed == [])
            && (maxLength > 0 ==>
                  forall i :: 0 <= i < |s.store.closed| ==> ClosedOk(s.store.closed[i], maxLength * 1024))
  {
    hide Step, ClosedOk, Size;
    if run == [] {
      NewFileOk();
    } else {
      var before := run[..|run| - 1];
      Rotation(maxLength, before);
      StepKeepsSizes(Run(Init(maxLength), before), run[|run| - 1]);
    }
  }

  lemma NewFileOk()
    ensures Size([]) == 0
  {
  }

  // ----- what is logged is written -----

  /** The writer waits only for an empty queue, and is done only when it was told to stop. */
  predicate Awake(s: State)
  {
    && (s.pc.Waiting? ==> s.store.queue == [])
    && (s.pc.Finished? ==> !s.store.running)
    && (s.flushed ==> s.pc.Finished?)
  }

  lemma StepKeepsAwake(s: State, e: Event)
    requires Enabled(s, e) && Awake(s)
    ensures Awake(Step(s, e))
  {
    hide Taken, Accounted, Printed, PrintAll;
    KeepsRunning(s);
  }

  lemma KeepsRunning(s: State)
    ensures WriterStep(s).store.running == s.store.running
  {
  }

  /** In every run, the writer never waits while there is a message in the queue: logging wakes it up. */
  lemma {:induction false} NeverOverslept(maxLength: int, run: seq<Event>)
    requires CanRun(Init(maxLength), run)
    ensures var s := Run(Init(maxLength), run); Awake(s) && (s.pc.Waiting? ==> s.store.queue == [])
  {
    hide Step, Enabled;
    if run != [] {
      var before := run[..|run| - 1];
      NeverOverslept(maxLength, before);
      StepKeepsAwake(Run(Init(maxLength), before), run[|run| - 1]);
    }
  }

  /** A wake-up that nobody asked for makes the writer look again, and wait again, with nothing changed. */
  lemma WaitsAgain(s: State)
    requires Awake(s) && s.pc.Waiting? && s.store.running
    ensures Enabled(s, Spurious) && Enabled(Step(s, Spurious), Writer) && Step(Step(s, Spurious), Writer) == s
  {
  }

  /** The steps of the writer before it can look at the queue. */
  function Lead(pc: Pc): nat
  {
    if pc.Wrote? then 2 else if pc.Test? then 1 else 0
  }

  /** The steps of the writer that print the whole queue, three for each message but the first. */
  function StepsToPrint(s: State): nat
  {
    if s.store.queue == [] then 0 else Lead(s.pc) + 3 * |s.store.queue| - 2
  }

  lemma WriterProgress(s: State)
    requires Awake(s) && s.store.running && s.store.queue != []
    ensures Enabled(s, Writer) && Awake(Step(s, Writer)) && Step(s, Writer).store.running
    ensures StepsToPrint(Step(s, Writer)) == StepsToPrint(s) - 1
  {
    hide Taken, Accounted, Printed;
    KeepsRunning(s);
    StepKeepsAwake(s, Writer);
    QueueAfter(s);
  }

  lemma QueueAfter(s: State)
    requires s.store.queue != []
    ensures Taken(s.store).queue == s.store.queue[1..]
    ensures forall n :: Accounted(s.store, n).queue == s.store.queue
  {
    hide Printed;
  }

  /** A run that goes on with k steps of the writer. */
  function Onward(run: seq<Event>, k: nat): seq<Event>
  {
    run + seq(k, _ => Writer)
  }

  lemma {:induction false} WritesOn(s: State, run: seq<Event>) returns (more: seq<Event>)
    requires CanRun(s, run) && Awake(Run(s, run)) && Run(s, run).store.running
    ensures more == Onward(run, StepsToPrint(Run(s, run)))
    ensures CanRun(s, more) && Run(s, more).store.queue == [] && !Run(s, more).flushed
    decreases StepsToPrint(Run(s, run))
  {
    hide Run, CanRun, Step, Enabled;
    var t := Run(s, run);
    var k := StepsToPrint(t);
    if t.store.queue == [] {
      more := run;
      assert run == Onward(run, k);
    } else {
      WriterProgress(t);
      Extend(s, run, Writer);
      more := WritesOn(s, run + [Writer]);
      assert Onward(run + [Writer], k - 1) == Onward(run, k);
    }
  }

  /** From every state of every run in which the writer was not told to stop, its own next steps put all that was
      logged so far on disk, in order: three for each message in the queue, at most. */
  lemma {:induction false} WrittenSoon(maxLength: int, run: seq<Event>)
    requires CanRun(Init(maxLength), run) && Run(Init(maxLength), run).store.running
    ensures exists k: nat ::
              && k <= 3 * |Run(Init(maxLength), run).store.queue|
              && var more := Onward(run, k);
                 && CanRun(Init(maxLength), more)
                 && var t := Run(Init(maxLength), more);
                    t.store.queue == [] && OnDisk(t.store) == PrintAll(Logged(run))
  {
    hide Run, CanRun, Init, OnDisk, Logged;
    NeverOverslept(maxLength, run);
    var more := WritesOn(Init(maxLength), run);
    var k := StepsToPrint(Run(Init(maxLength), run));
    Conservation(maxLength, more);
    PrintNone(OnDisk(Run(Init(maxLength), more).store));
    NothingMoreLogged(run, k);
  }

  lemma {:induction false} NothingMoreLogged(run: seq<Event>, k: nat)
    ensures Logged(Onward(run, k)) == Logged(run)
  {
    if k == 0 {
      assert Onward(run, k) == run;
    } else {
      NothingMoreLogged(run, k - 1);
      assert Onward(run, k)[..|run| + k - 1] == Onward(run, k - 1);
    }
  }

  /** What is printed of a message is what stands before its first null character. */
  lemma {:induction false} PrintedPart(msg: string)
    ensures var p := Printed(msg); '\0' !in p && (|p| < |msg| ==> msg[|p|] == '\0')
  {
    if msg != [] && msg[0] != '\0' {
      PrintedPart(msg[1..]);
    }
  }

  /** Messages without null characters are printed in full. */
  lemma {:induction false} PrintedInFull(msg: string)
    ensures Printed(msg) == msg <==> '\0' !in msg
  {
    if msg != [] {
      PrintedInFull(msg[1..]);
    }
  }

  // ----- the end of the thread -----

  function WriterSteps(s: State, k: nat): State
    decreases k
  {
    if k == 0 then s else WriterSteps(WriterStep(s), k - 1)
  }

  /** The thread does not end, if nothing but its own steps happens. */
  ghost predicate Hangs(s: State) {
    forall k: nat :: !WriterSteps(s, k).pc.Finished?
  }

  /** When the destructor has told the thread to stop and nothing else is logged, the thread ends, and the destructor
      with it, unless the thread was just about to look at an empty queue: then it waits for a signal that was
      given already. */
  lemma {:induction false} StopEnds(s: State)
    requires s.store.running
    ensures Hangs(Step(s, Stop)) <==> s.pc.Lock? && s.store.queue == []
  {
    hide Taken, Accounted, Printed;
    var t := Step(s, Stop);
    if s.pc.Lock? && s.store.queue == [] {
      forall k: nat ensures !WriterSteps(t, k).pc.Finished? {
        if k > 0 {
          WaitsForever(WriterStep(t), k - 1);
        }
      }
    } else {
      EndsSoon(t);
    }
  }

  lemma {:induction false} WaitsForever(s: State, k: nat)
    requires s.pc.Waiting?
    ensures WriterSteps(s, k).pc.Waiting?
  {
    if k > 0 {
      WaitsForever(s, k - 1);
    }
  }

  lemma {:induction false} EndsSoon(s: State)
    requires !s.store.running && !s.pc.Waiting? && !(s.pc.Lock? && s.store.queue == [])
    ensures WriterSteps(s, 3).pc.Finished?
  {
    hide Taken, Accounted, Printed;
    var a := WriterStep(s);
    var b := WriterStep(a);
    KeepsRunning(s);
    KeepsRunning(a);
    KeepsRunning(b);
    assert WriterSteps(s, 3) == WriterSteps(a, 2) == WriterSteps(b, 1) == WriterSteps(WriterStep(b), 0);
  }

  /** The thread prints the closing message and goes round its loop before it is told to stop. */
  lemma {:induction false} LateStop() returns (run: seq<Event>)
    ensures CanRun(Init(-1), run)
    ensures var t := Run(Init(-1), run); t.pc.Lock? && t.store.queue == [] && t.store.running && !t.flushed
  {
    hide Printed, Run, CanRun;
    var s, closing := Init(-1), Log("Closing log\n");
    NoRun(s);
    run := [];
    Extend(s, run, closing);
    run := run + [closing];
    Extend(s, run, Writer);
    run := run + [Writer];
    Extend(s, run, Writer);
    run := run + [Writer];
    Extend(s, run, Writer);
    run := run + [Writer];
    Extend(s, run, Writer);
    run := run + [Writer];
  }

  /** So there are runs in which the destructor never returns. */
  lemma {:induction false} StopCanHang()
    ensures exists run :: CanRun(Init(-1), run + [Stop]) && Hangs(Run(Init(-1), run + [Stop]))
  {
    hide Hangs, Run, CanRun, Init;
    var run := LateStop();
    Extend(Init(-1), run, Stop);
    StopEnds(Run(Init(-1), run));
  }

  lemma NoRun(s: State)
    ensures CanRun(s, []) && Run(s, []) == s
  {
  }

  lemma Extend(s: State, run: seq<Event>, e: Event)
    requires CanRun(s, run) && Enabled(Run(s, run), e)
    ensures CanRun(s, run + [e]) && Run(s, run + [e]) == Step(Run(s, run), e)
  {
    assert (run + [e])[..|run|] == run;
  }
}
