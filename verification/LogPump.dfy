/** The log pump: callers push lines under a lock and then wake a single runner through a one-slot
    channel; the runner takes all pending lines and writes them to the sink. */
module LogPump {
  datatype Option<T> = None | Some(value: T)

  /** A line is known by its place in the order of all calls of push. */
  type Line = nat

  type Sink = nat

  const DEFAULT_LOG_QUEUE_LINES: nat := 1024

  /** Where the runner is: not started, waiting for a notification, about to take the pending lines, or
      writing the rest of a batch. */
  datatype Runner = NotStarted | Waiting | Taking | Writing(sink: Sink, batch: seq<Line>)

  datatype Written = Written(sink: Sink, line: Line)

  datatype Pump = Pump(
    sink: Option<Sink>, limit: int, pending: seq<Line>, token: bool, runner: Runner,
    starting: nat,    // callers that have set a sink and not yet made sure that the runner is started
    waking: nat,      // callers that are about to notify
    pushed: nat,      // calls of push so far
    written: seq<Written>,
    withoutSink: set<Line>, dropped: set<Line>, discarded: set<Line>)

  const INITIAL: Pump := Pump(None, 0, [], false, NotStarted, 0, 0, 0, [], {}, {}, {})

  /** The atomic steps of callers and runner. */
  datatype Step =
    | SetLimit(limit: int)
    | SetSink(sink: Option<Sink>)
    | Start
    | Push
    | Wake
    | Receive
    | Take
    | Write

  predicate Enabled(p: Pump, step: Step) {
    match step
    case Start => p.starting > 0
    case Wake => p.waking > 0
    case Receive => p.runner == Waiting && p.token
    case Take => p.runner == Taking
    case Write => p.runner.Writing?
    case _ => true
  }

  function EffectiveLimit(limit: int): nat {
    if limit <= 0 then DEFAULT_LOG_QUEUE_LINES else limit
  }

  /** The next line is queued; if the queue is full, its oldest line goes. */
  function Queued(p: Pump): Pump {
    var full := |p.pending| >= EffectiveLimit(p.limit);
    p.(pending := (if full then p.pending[1..] else p.pending) + [p.pushed],
       dropped := if full then p.dropped + {p.pending[0]} else p.dropped,
       pushed := p.pushed + 1, waking := p.waking + 1)
  }

  function Next(p: Pump, step: Step): Pump
    requires Enabled(p, step)
  {
    match step
    case SetLimit(limit) => p.(limit := limit)
    case SetSink(sink) => p.(sink := sink, starting := p.starting + (if sink.Some? then 1 else 0))
    case Start =>
      p.(starting := p.starting - 1, runner := if p.runner == NotStarted then Waiting else p.runner,
          waking := p.waking + 1)
    case Push =>
      if p.sink.None? then p.(withoutSink := p.withoutSink + {p.pushed}, pushed := p.pushed + 1) else Queued(p)
    case Wake => p.(waking := p.waking - 1, token := true)
    case Receive => p.(token := false, runner := Taking)
    case Take =>
      if p.sink.None? then p.(pending := [], runner := Waiting, discarded := p.discarded + Lines(p.pending))
      else if p.pending == [] then p.(runner := Waiting)
      else p.(pending := [], runner := Writing(p.sink.value, p.pending))
    case Write =>
      if p.runner.batch == [] then p.(runner := Taking)
      else p.(written := p.written + [Written(p.runner.sink, p.runner.batch[0])],
              runner := Writing(p.runner.sink, p.runner.batch[1..]))
  }

  function Lines(s: seq<Line>): set<Line> {
    set l | l in s
  }

  // ----- what every step keeps

  function Batch(p: Pump): seq<Line> {
    if p.runner.Writing? then p.runner.batch else []
  }

  function WrittenLines(w: seq<Written>): seq<Line> {
    seq(|w|, i requires 0 <= i < |w| => w[i].line)
  }

  /** All lines that are or will be written, in the order of writing. */
  function OnTheWay(p: Pump): seq<Line> {
    WrittenLines(p.written) + Batch(p) + p.pending
  }

  predicate Increasing(s: seq<Line>) {
    forall i, j | 0 <= i < j < |s| :: s[i] < s[j]
  }

  /** Lines are written in the order in which they were pushed, each at most once. */
  ghost predicate InOrder(p: Pump) {
    Increasing(OnTheWay(p)) && forall i | 0 <= i < |OnTheWay(p)| :: OnTheWay(p)[i] < p.pushed
  }

  ghost predicate Lost(p: Pump, l: Line) {
    l in p.withoutSink || l in p.dropped || l in p.discarded
  }

  /** A pushed line is on its way, or it was lost in one of three ways; it is never both. */
  ghost predicate Accounted(p: Pump) {
    && (forall l: Line :: l < p.pushed <==> l in OnTheWay(p) || Lost(p, l))
    && (forall l: Line :: !(l in OnTheWay(p) && Lost(p, l)))
    && p.withoutSink !! p.dropped && p.withoutSink !! p.discarded && p.dropped !! p.discarded
  }

  /** Somebody will look at the pending lines. */
  predicate WillLook(p: Pump) {
    p.token || p.waking > 0 || p.starting > 0 || p.runner == Taking || p.runner.Writing?
  }

  ghost predicate NoLostWakeup(p: Pump) {
    && (p.pending != [] && p.sink.Some? ==> WillLook(p))
    && (p.sink.Some? ==> p.runner != NotStarted || p.starting > 0)
    && (p.pending != [] || p.token || p.waking > 0 ==> p.runner != NotStarted || p.starting > 0)
  }

  ghost predicate Holds(p: Pump) {
    InOrder(p) && Accounted(p) && NoLostWakeup(p)
  }

  lemma WakeupKept(p: Pump, step: Step)
    requires NoLostWakeup(p) && Enabled(p, step)
    ensures NoLostWakeup(Next(p, step))
  {}

  /** Adding a later line, after dropping the oldest of the pending ones or not. */
  lemma QueuedOrder(front: seq<Line>, pending: seq<Line>, full: bool, next: Line)
    requires Increasing(front + pending) && forall i | 0 <= i < |front + pending| :: (front + pending)[i] < next
    requires full ==> pending != []
    ensures var more := front + ((if full then pending[1..] else pending) + [next]);
            Increasing(more) && forall i | 0 <= i < |more| :: more[i] < next + 1
  {
    var all, rest := front + pending, if full then pending[1..] else pending;
    var more := front + (rest + [next]);
    forall i | 0 <= i < |more| - 1 ensures more[i] == all[if full && i >= |front| then i + 1 else i] < next {
    }
    forall i, j | 0 <= i < j < |more| ensures more[i] < more[j] {
      assert more[i] < next;
    }
  }

  lemma TakenOrder(w: seq<Line>, b: seq<Line>, pending: seq<Line>)
    requires Increasing(w + b + pending)
    ensures Increasing(w + b) && forall i | 0 <= i < |w + b| :: (w + b)[i] == (w + b + pending)[i]
  {
    assert forall i | 0 <= i < |w + b| :: (w + b)[i] == (w + b + pending)[i];
  }

  lemma WriteMoves(p: Pump)
    requires p.runner.Writing? && p.runner.batch != []
    ensures OnTheWay(Next(p, Write)) == OnTheWay(p)
  {
    var w, l := p.written, p.runner.batch[0];
    assert WrittenLines(w + [Written(p.runner.sink, l)]) == WrittenLines(w) + [l];
  }

  lemma TakeMoves(p: Pump)
    requires p.runner == Taking && p.sink.Some?
    ensures OnTheWay(Next(p, Take)) == OnTheWay(p)
  {
    assert WrittenLines(p.written) + [] + p.pending == WrittenLines(p.written) + p.pending + [];
  }

  /** What a step does to the lines on their way: nothing, or one of three things. */
  lemma LinesAfter(p: Pump, step: Step)
    requires Enabled(p, step)
    ensures var q, front := Next(p, step), WrittenLines(p.written) + Batch(p);
            if step.Push? && p.sink.Some? then
              var full := |p.pending| >= EffectiveLimit(p.limit);
              OnTheWay(q) == front + ((if full then p.pending[1..] else p.pending) + [p.pushed])
            else if step.Take? && p.sink.None? then OnTheWay(q) == front
            else OnTheWay(q) == OnTheWay(p)
  {
    match step
    case Write => if p.runner.batch != [] { WriteMoves(p); }
    case Take => if p.sink.Some? { TakeMoves(p); }
    case Push =>
    case SetLimit(l) =>
    case SetSink(s) =>
    case Start =>
    case Wake =>
    case Receive =>
  }

  lemma OrderKept(p: Pump, step: Step)
    requires InOrder(p) && Enabled(p, step)
    ensures InOrder(Next(p, step))
  {
    var q, front := Next(p, step), WrittenLines(p.written) + Batch(p);
    LinesAfter(p, step);
    if step.Push? && p.sink.Some? {
      QueuedOrder(front, p.pending, |p.pending| >= EffectiveLimit(p.limit), p.pushed);
    } else if step.Take? && p.sink.None? {
      TakenOrder(WrittenLines(p.written), Batch(p), p.pending);
    }
  }

  lemma AccountQueued(p: Pump)
    requires InOrder(p) && Accounted(p) && p.sink.Some?
    ensures Accounted(Next(p, Push))
  {
    hide WrittenLines, Batch, OnTheWay, InOrder;
    LinesAfter(p, Push);
    QueuedMembers(p);
    var q := Queued(p);
    assert !Lost(p, p.pushed) && p.pushed !in OnTheWay(p);
    if |p.pending| >= EffectiveLimit(p.limit) {
      var l := p.pending[0];
      assert !Lost(p, l) && l in OnTheWay(p);
      assert forall x: Line :: Lost(q, x) <==> Lost(p, x) || x == l;
    } else {
      assert forall x: Line :: Lost(q, x) <==> Lost(p, x);
    }
  }

  /** The lines on their way after a push. */
  lemma QueuedMembers(p: Pump)
    requires InOrder(p)
    ensures var q := Queued(p);
            if |p.pending| >= EffectiveLimit(p.limit) then
              p.pending[0] in OnTheWay(p) &&
              forall x: Line :: x in OnTheWay(q) <==> (x in OnTheWay(p) && x != p.pending[0]) || x == p.pushed
            else forall x: Line :: x in OnTheWay(q) <==> x in OnTheWay(p) || x == p.pushed
  {
    hide WrittenLines;
    var q, front := Queued(p), WrittenLines(p.written) + Batch(p);
    assert WrittenLines(q.written) + Batch(q) == front;
    if |p.pending| >= EffectiveLimit(p.limit) {
      assert OnTheWay(p)[|front|] == p.pending[0];
      forall x: Line ensures x in OnTheWay(q) <==> (x in OnTheWay(p) && x != p.pending[0]) || x == p.pushed {
        DroppedOne(front, p.pending, p.pushed, x);
        Regroup(front, p.pending[1..], [p.pushed]);
      }
    }
  }

  lemma Regroup(a: seq<Line>, b: seq<Line>, c: seq<Line>)
    ensures a + (b + c) == a + b + c
  {}

  lemma AccountDiscarded(p: Pump)
    requires InOrder(p) && Accounted(p) && p.sink.None? && p.runner == Taking
    ensures Accounted(Next(p, Take))
  {
    var q, front := Next(p, Take), WrittenLines(p.written) + Batch(p);
    LinesAfter(p, Take);
    hide WrittenLines, Batch;
    forall x: Line ensures x in OnTheWay(p) <==> x in front || x in p.pending {}
    forall x: Line ensures !(x in front && x in p.pending) {
      NotTwice(front, p.pending, x);
    }
    assert forall x: Line :: x in q.discarded <==> x in p.discarded || x in p.pending;
  }

  lemma AccountUnqueued(p: Pump)
    requires Accounted(p) && p.sink.None?
    ensures Accounted(Next(p, Push))
  {
    var q := Next(p, Push);
    LinesAfter(p, Push);
    hide OnTheWay;
    assert !Lost(p, p.pushed) && p.pushed !in OnTheWay(p);
    assert forall x: Line :: Lost(q, x) <==> Lost(p, x) || x == p.pushed;
  }

  lemma AccountSame(p: Pump, q: Pump)
    requires Accounted(p) && OnTheWay(q) == OnTheWay(p) && q.pushed == p.pushed
    requires q.withoutSink == p.withoutSink && q.dropped == p.dropped && q.discarded == p.discarded
    ensures Accounted(q)
  {
    hide OnTheWay;
    assert forall x: Line :: Lost(q, x) <==> Lost(p, x);
  }

  lemma AccountKept(p: Pump, step: Step)
    requires InOrder(p) && Accounted(p) && Enabled(p, step)
    ensures Accounted(Next(p, step))
  {
    hide Accounted, InOrder, OnTheWay;
    LinesAfter(p, step);
    if step.Push? && p.sink.Some? {
      AccountQueued(p);
    } else if step.Take? && p.sink.None? {
      AccountDiscarded(p);
    } else if step.Push? {
      AccountUnqueued(p);
    } else {
      AccountSame(p, Next(p, step));
    }
  }

  lemma NotTwice(a: seq<Line>, b: seq<Line>, x: Line)
    requires Increasing(a + b)
    ensures !(x in a && x in b)
  {
    forall i, j | 0 <= i < |a| && 0 <= j < |b| ensures a[i] < b[j] {
      assert (a + b)[i] < (a + b)[|a| + j];
    }
  }

  lemma DroppedOne(front: seq<Line>, pending: seq<Line>, next: Line, x: Line)
    requires Increasing(front + pending) && pending != []
    ensures x in front + (pending[1..] + [next]) <==> (x in front + pending && x != pending[0]) || x == next
  {
    var l := pending[0];
    assert pending == [l] + pending[1..];
    assert (front + [l]) + pending[1..] == front + pending;
    NotTwice(front, pending, l);
    NotTwice(front + [l], pending[1..], l);
  }

  // ----- every run

  /** The steps can be taken one after the other. */
  ghost predicate IsRun(p: Pump, steps: seq<Step>)
    decreases |steps|
  {
    steps == [] || (Enabled(p, steps[0]) && IsRun(Next(p, steps[0]), steps[1..]))
  }

  ghost function Final(p: Pump, steps: seq<Step>): Pump
    requires IsRun(p, steps)
    decreases |steps|
  {
    if steps == [] then p else Final(Next(p, steps[0]), steps[1..])
  }

  lemma {:induction false} RunKeeps(p: Pump, steps: seq<Step>)
    requires Holds(p) && IsRun(p, steps)
    ensures Holds(Final(p, steps))
    decreases |steps|
  {
    hide InOrder, Accounted, NoLostWakeup, Next, Enabled;
    if steps != [] {
      OrderKept(p, steps[0]);
      AccountKept(p, steps[0]);
      WakeupKept(p, steps[0]);
      RunKeeps(Next(p, steps[0]), steps[1..]);
    }
  }

  /** In every interleaving, from the start: lines are written in push order and at most once, every
      line is accounted for, no wakeup is lost, every line goes to the sink that was set when it was taken,
      and the queue is bounded and drops its oldest lines. */
  lemma EveryRun(steps: seq<Step>)
    requires IsRun(INITIAL, steps)
    ensures Holds(Final(INITIAL, steps))
    ensures Final(INITIAL, steps).sink == LastSet(steps)
    ensures forall w | w in Final(INITIAL, steps).written :: IsFromTake(steps, w.sink, w.line)
    ensures forall l | l in Final(INITIAL, steps).withoutSink :: IsPushedInVain(steps, l)
    ensures forall l | l in Final(INITIAL, steps).discarded :: IsDiscarded(steps, l)
    ensures IsBounded(Final(INITIAL, steps), LargestLimit(steps), SmallestLimit(steps))
  {
    hide Holds, INITIAL, LargestLimit, SmallestLimit, LastSet, IsFromTake, IsPushedInVain, IsDiscarded, IsBounded,
      Final, IsRun;
    AtTheStart();
    RunKeeps(INITIAL, steps);
    SinkIsLastSet(steps);
    GoesWhereTaken(steps);
    LostWithoutSink(steps);
    StaysBounded(steps);
  }

  // ----- where the lines go

  lemma {:induction false} LastStep(p: Pump, steps: seq<Step>)
    requires IsRun(p, steps) && steps != []
    ensures var init, last := steps[..|steps| - 1], steps[|steps| - 1];
            IsRun(p, init) && Enabled(Final(p, init), last) && Final(p, steps) == Next(Final(p, init), last)
    decreases |steps|
  {
    hide Next, Enabled;
    var init := steps[..|steps| - 1];
    if |steps| > 1 {
      LastStep(Next(p, steps[0]), steps[1..]);
      assert steps[1..][..|steps| - 2] == init[1..];
    }
  }

  /** The sink that the callers have set last. */
  function LastSet(steps: seq<Step>): Option<Sink> {
    if steps == [] then None
    else if steps[|steps| - 1].SetSink? then steps[|steps| - 1].sink
    else LastSet(steps[..|steps| - 1])
  }

  lemma {:induction false} SinkIsLastSet(steps: seq<Step>)
    requires IsRun(INITIAL, steps)
    ensures Final(INITIAL, steps).sink == LastSet(steps)
    decreases |steps|
  {
    if steps != [] {
      LastStep(INITIAL, steps);
      SinkIsLastSet(steps[..|steps| - 1]);
    }
  }

  /** Step t of the run takes the line from the pending ones. */
  ghost predicate IsTaken(steps: seq<Step>, t: nat, line: Line) {
    && t < |steps| && steps[t].Take?
    && IsRun(INITIAL, steps[..t]) && line in Final(INITIAL, steps[..t]).pending
  }

  /** The line was taken when this sink was the one set last. */
  ghost predicate IsFromTake(steps: seq<Step>, sink: Sink, line: Line) {
    exists t: nat :: IsTaken(steps, t, line) && LastSet(steps[..t]) == Some(sink)
  }

  lemma StillFromTake(steps: seq<Step>, sink: Sink, line: Line)
    requires steps != [] && IsFromTake(steps[..|steps| - 1], sink, line)
    ensures IsFromTake(steps, sink, line)
  {
    hide LastSet, Final, IsRun;
    var t: nat :| IsTaken(steps[..|steps| - 1], t, line) && LastSet(steps[..|steps| - 1][..t]) == Some(sink);
    assert steps[..|steps| - 1][..t] == steps[..t];
    assert IsTaken(steps, t, line);
  }

  /** What is written, and what is left of the batch, goes to the sink that was set at the taking. */
  lemma {:induction false} GoesWhereTaken(steps: seq<Step>)
    requires IsRun(INITIAL, steps)
    ensures var p := Final(INITIAL, steps);
            && (forall w | w in p.written :: IsFromTake(steps, w.sink, w.line))
            && (p.runner.Writing? ==> forall l | l in p.runner.batch :: IsFromTake(steps, p.runner.sink, l))
    decreases |steps|
  {
    hide IsRun, Final, IsFromTake, LastSet;
    if steps == [] {
      NothingDone(steps);
    } else {
      var init, last := steps[..|steps| - 1], steps[|steps| - 1];
      LastStep(INITIAL, steps);
      GoesWhereTaken(init);
      var p, q := Final(INITIAL, init), Final(INITIAL, steps);
      forall w | w in p.written ensures IsFromTake(steps, w.sink, w.line) {
        StillFromTake(steps, w.sink, w.line);
      }
      if p.runner.Writing? {
        forall l | l in p.runner.batch ensures IsFromTake(steps, p.runner.sink, l) {
          StillFromTake(steps, p.runner.sink, l);
        }
      }
      if last.Take? && q.runner.Writing? {
        forall l | l in q.runner.batch ensures IsFromTake(steps, q.runner.sink, l) {
          JustTaken(steps, q.runner.sink, l);
        }
      }
    }
  }

  lemma NothingDone(steps: seq<Step>)
    requires steps == []
    ensures IsRun(INITIAL, steps) && Final(INITIAL, steps) == INITIAL
  {}

  lemma JustTaken(steps: seq<Step>, sink: Sink, line: Line)
    requires steps != [] && steps[|steps| - 1].Take? && IsRun(INITIAL, steps[..|steps| - 1])
    requires var p := Final(INITIAL, steps[..|steps| - 1]); p.sink == Some(sink) && line in p.pending
    ensures IsFromTake(steps, sink, line)
  {
    hide LastSet, Final, IsRun;
    SinkIsLastSet(steps[..|steps| - 1]);
    assert IsTaken(steps, |steps| - 1, line);
  }

  /** How often the callers have pushed. */
  function Pushes(steps: seq<Step>): nat {
    if steps == [] then 0
    else Pushes(steps[..|steps| - 1]) + (if steps[|steps| - 1].Push? then 1 else 0)
  }

  /** The line was pushed at a time when no sink was set. */
  ghost predicate IsPushedInVain(steps: seq<Step>, line: Line) {
    exists t: nat :: IsPushedAt(steps, t, line) && LastSet(steps[..t]).None?
  }

  ghost predicate IsPushedAt(steps: seq<Step>, t: nat, line: Line) {
    t < |steps| && steps[t].Push? && Pushes(steps[..t]) == line
  }

  /** The line was taken at a time when no sink was set. */
  ghost predicate IsDiscarded(steps: seq<Step>, line: Line) {
    exists t: nat :: IsTaken(steps, t, line) && LastSet(steps[..t]).None?
  }

  /** Apart from those that a full queue drops, lines are lost only for want of a sink. */
  lemma {:induction false} LostWithoutSink(steps: seq<Step>)
    requires IsRun(INITIAL, steps)
    ensures var p := Final(INITIAL, steps);
            && p.pushed == Pushes(steps)
            && (forall l | l in p.withoutSink :: IsPushedInVain(steps, l))
            && (forall l | l in p.discarded :: IsDiscarded(steps, l))
    decreases |steps|
  {
    hide IsRun, Final, IsPushedInVain, IsDiscarded, LastSet;
    if steps == [] {
      NothingDone(steps);
    } else {
      var init, last := steps[..|steps| - 1], steps[|steps| - 1];
      LastStep(INITIAL, steps);
      LostWithoutSink(init);
      SinkIsLastSet(init);
      var p := Final(INITIAL, init);
      forall l | l in p.withoutSink ensures IsPushedInVain(steps, l) { StillInVain(steps, l); }
      forall l | l in p.discarded ensures IsDiscarded(steps, l) { StillDiscarded(steps, l); }
      if last.Push? && p.sink.None? { JustInVain(steps); }
      if last.Take? && p.sink.None? {
        forall l | l in p.pending ensures IsDiscarded(steps, l) { JustDiscarded(steps, l); }
      }
    }
  }

  lemma StillInVain(steps: seq<Step>, line: Line)
    requires steps != [] && IsPushedInVain(steps[..|steps| - 1], line)
    ensures IsPushedInVain(steps, line)
  {
    hide LastSet, Pushes;
    var t: nat :| IsPushedAt(steps[..|steps| - 1], t, line) && LastSet(steps[..|steps| - 1][..t]).None?;
    assert steps[..|steps| - 1][..t] == steps[..t];
    assert IsPushedAt(steps, t, line);
  }

  lemma StillDiscarded(steps: seq<Step>, line: Line)
    requires steps != [] && IsDiscarded(steps[..|steps| - 1], line)
    ensures IsDiscarded(steps, line)
  {
    hide LastSet, Final, IsRun;
    var t: nat :| IsTaken(steps[..|steps| - 1], t, line) && LastSet(steps[..|steps| - 1][..t]).None?;
    assert steps[..|steps| - 1][..t] == steps[..t];
    assert IsTaken(steps, t, line);
  }

  lemma JustInVain(steps: seq<Step>)
    requires steps != [] && steps[|steps| - 1].Push? && LastSet(steps[..|steps| - 1]).None?
    ensures IsPushedInVain(steps, Pushes(steps[..|steps| - 1]))
  {
    hide LastSet, Pushes;
    assert IsPushedAt(steps, |steps| - 1, Pushes(steps[..|steps| - 1]));
  }

  lemma JustDiscarded(steps: seq<Step>, line: Line)
    requires steps != [] && steps[|steps| - 1].Take? && IsRun(INITIAL, steps[..|steps| - 1])
    requires LastSet(steps[..|steps| - 1]).None? && line in Final(INITIAL, steps[..|steps| - 1]).pending
    ensures IsDiscarded(steps, line)
  {
    hide LastSet, Final, IsRun;
    assert IsTaken(steps, |steps| - 1, line);
  }

  /** With one sink only, every line goes to it. */
  lemma OneSink(steps: seq<Step>, sink: Sink)
    requires IsRun(INITIAL, steps)
    requires forall i | 0 <= i < |steps| && steps[i].SetSink? && steps[i].sink.Some? :: steps[i].sink.value == sink
    ensures forall w | w in Final(INITIAL, steps).written :: w.sink == sink
  {
    hide IsRun, Final, LastSet;
    GoesWhereTaken(steps);
    forall w | w in Final(INITIAL, steps).written ensures w.sink == sink {
      var t: nat :| IsTaken(steps, t, w.line) && LastSet(steps[..t]) == Some(w.sink);
      LastSetIsSet(steps[..t]);
    }
  }

  lemma {:induction false} LastSetIsSet(steps: seq<Step>)
    ensures LastSet(steps).Some? ==> SetSink(LastSet(steps)) in steps
    decreases |steps|
  {
    if steps != [] {
      LastSetIsSet(steps[..|steps| - 1]);
    }
  }

  // ----- the bound of the queue

  /** The largest limit that was in force; nothing set, or no positive number, means 1024 lines. */
  function LargestLimit(steps: seq<Step>): (limit: nat)
    ensures limit >= 1024
  {
    if steps == [] then 1024
    else
      var before, last := LargestLimit(steps[..|steps| - 1]), steps[|steps| - 1];
      if last.SetLimit? && last.limit > before then last.limit else before
  }

  /** The smallest limit that was in force. */
  function SmallestLimit(steps: seq<Step>): (limit: nat)
    ensures limit <= 1024
  {
    if steps == [] then 1024
    else
      var before, last := SmallestLimit(steps[..|steps| - 1]), steps[|steps| - 1];
      if last.SetLimit? && 0 < last.limit < before then last.limit else before
  }

  /** No more lines are pending than the largest limit allows. A dropped line is older than all of them, and
      at least as many lines as the smallest limit have been pushed since. */
  ghost predicate IsBounded(p: Pump, most: nat, least: nat) {
    && |p.pending| <= most && least <= EffectiveLimit(p.limit) <= most
    && (forall d, l | d in p.dropped && l in p.pending :: d < l)
    && (forall d | d in p.dropped :: d + least < p.pushed)
  }

  lemma {:induction false} StaysBounded(steps: seq<Step>)
    requires IsRun(INITIAL, steps)
    ensures IsBounded(Final(INITIAL, steps), LargestLimit(steps), SmallestLimit(steps))
    decreases |steps|
  {
    hide IsRun, Final, INITIAL, Holds, Next, Enabled, IsBounded;
    if steps == [] {
      NothingDone(steps);
      BoundedAtStart();
    } else {
      var init := steps[..|steps| - 1];
      LastStep(INITIAL, steps);
      StaysBounded(init);
      AtTheStart();
      RunKeeps(INITIAL, init);
      StepBounded(Final(INITIAL, init), steps[|steps| - 1], LargestLimit(init), SmallestLimit(init));
    }
  }

  lemma BoundedAtStart()
    ensures IsBounded(INITIAL, 1024, 1024)
  {}

  lemma StepBounded(p: Pump, step: Step, most: nat, least: nat)
    requires Holds(p) && IsBounded(p, most, least) && Enabled(p, step) && least <= 1024 <= most
    ensures IsBounded(Next(p, step), if step.SetLimit? && step.limit > most then step.limit else most,
                      if step.SetLimit? && 0 < step.limit < least then step.limit else least)
  {
    if step.Push? && p.sink.Some? {
      var q := Queued(p);
      PendingOrder(p);
      if p.pending != [] { Spread(p.pending, p.pushed); }
      hide InOrder, Accounted, Increasing, OnTheWay;
      forall d, l | d in q.dropped && l in q.pending ensures d < l {
        assert l == p.pushed || l in p.pending;
        if |p.pending| >= EffectiveLimit(p.limit) && d == p.pending[0] && l != p.pushed {
          assert l in p.pending[1..];
        }
      }
    }
  }

  /** Between the first and the next of increasing lines there is room for all of them. */
  lemma {:induction false} Spread(lines: seq<Line>, next: Line)
    requires lines != [] && forall i, j | 0 <= i < j < |lines| :: lines[i] < lines[j]
    requires lines[|lines| - 1] < next
    ensures lines[0] + |lines| <= next
  {
    if |lines| > 1 {
      Spread(lines[..|lines| - 1], lines[|lines| - 1]);
    }
  }

  /** The pending lines are in order, and all lines so far come before the next one. */
  lemma PendingOrder(p: Pump)
    requires InOrder(p) && Accounted(p)
    ensures forall i, j | 0 <= i < j < |p.pending| :: p.pending[i] < p.pending[j]
    ensures forall i | 0 <= i < |p.pending| :: p.pending[i] < p.pushed
    ensures forall d | d in p.dropped :: d < p.pushed
  {
    hide WrittenLines;
    var front := WrittenLines(p.written) + Batch(p);
    forall i | 0 <= i < |p.pending| ensures p.pending[i] == OnTheWay(p)[|front| + i] {}
    forall d | d in p.dropped ensures d < p.pushed {
      assert Lost(p, d);
    }
  }

  lemma AtTheStart()
    ensures Holds(INITIAL)
  {}

  // ----- everything pending is written in the end

  /** The steps that callers and runner take by themselves. */
  predicate Internal(step: Step) {
    step.Start? || step.Wake? || step.Receive? || step.Take? || step.Write?
  }

  predicate Quiet(p: Pump) {
    p.starting == 0 && p.waking == 0 && !(p.runner == Waiting && p.token) && p.runner != Taking && !p.runner.Writing?
  }

  /** How many more internal steps there can be. */
  function Measure(p: Pump): nat {
    4 * p.starting + 3 * p.waking + (if p.token then 2 else 0) + 3 * |p.pending|
    + (match p.runner case Taking => 1 case Writing(_, b) => 2 + |b| case _ => 0)
  }

  lemma InternalStep(p: Pump, step: Step)
    requires Internal(step) && Enabled(p, step)
    ensures Measure(Next(p, step)) < Measure(p) && Next(p, step).sink == p.sink
    ensures p.sink.Some? ==> OnTheWay(Next(p, step)) == OnTheWay(p)
  {
    LinesAfter(p, step);
  }

  /** With a sink, internal steps cannot go on forever, and when none is left to take every line that
      was pending has been written, in order. */
  lemma {:induction false} AllIsWritten(p: Pump, steps: seq<Step>)
    requires Holds(p) && p.sink.Some? && IsRun(p, steps) && forall i | 0 <= i < |steps| :: Internal(steps[i])
    ensures |steps| <= Measure(p)
    ensures Quiet(Final(p, steps)) ==> WrittenLines(Final(p, steps).written) == OnTheWay(p)
    decreases |steps|
  {
    hide Next, Enabled, Measure;
    if steps == [] {
      if Quiet(p) { QuietIsEmpty(p); }
    } else {
      var q := Next(p, steps[0]);
      InternalStep(p, steps[0]);
      OrderKept(p, steps[0]);
      AccountKept(p, steps[0]);
      WakeupKept(p, steps[0]);
      assert forall i | 0 <= i < |steps[1..]| :: Internal(steps[1..][i]);
      AllIsWritten(q, steps[1..]);
    }
  }

  lemma QuietIsEmpty(p: Pump)
    requires NoLostWakeup(p) && p.sink.Some? && Quiet(p)
    ensures WrittenLines(p.written) == OnTheWay(p)
  {
    assert p.pending == [] && Batch(p) == [];
    assert WrittenLines(p.written) + [] + [] == WrittenLines(p.written);
  }

  /** As long as a caller or the runner has something to do, some internal step can be taken. */
  lemma NotStuck(p: Pump)
    ensures Quiet(p) <==> forall step :: Internal(step) ==> !Enabled(p, step)
  {
    if !Quiet(p) {
      var step := if p.starting > 0 then Start else if p.waking > 0 then Wake
                  else if p.runner == Taking then Take else if p.runner.Writing? then Write else Receive;
      assert Internal(step) && Enabled(p, step);
    }
  }
}
