/** The critical sections of the log pump, each on the fields it changes; every one is a step of the
    machine that is proved correct in LogPump. */
module LogSections {
  import opened LogPump

  class PumpObject {
    var sink: Option<Sink>
    var limit: int
    var pending: seq<Line>
    var notify: bool            // the one slot of the channel
    var started: bool           // the runner has been started
    var written: seq<Written>   // what the sinks have received
    ghost var state: Pump       // the machine's state, callers and history included

    ghost predicate Valid()
      reads this
    {
      && state.sink == sink && state.limit == limit && state.pending == pending && state.token == notify
      && (started <==> state.runner != NotStarted) && state.written == written && Holds(state)
    }

    constructor ()
      ensures Valid() && state == INITIAL
    {
      hide Holds;
      sink, limit, pending, notify, started, written := None, 0, [], false, false, [];
      state := INITIAL;
      new;
      AtTheStart();
    }

    method SetLimit(limit: int)
      requires Valid()
      modifies this
      ensures Valid() && state == Next(old(state), Step.SetLimit(limit))
      ensures this.limit == limit && sink == old(sink) && pending == old(pending) && written == old(written)
    {
      hide Holds;
      NextKeeps(state, Step.SetLimit(limit));
      state := Next(state, Step.SetLimit(limit));
      this.limit := limit;
    }

    /** Sets the sink; the caller goes on to Start if there is one now. */
    method SetSink(sink: Option<Sink>)
      requires Valid()
      modifies this
      ensures Valid() && state == Next(old(state), Step.SetSink(sink))
      ensures this.sink == sink && limit == old(limit) && pending == old(pending) && written == old(written)
    {
      hide Holds;
      NextKeeps(state, Step.SetSink(sink));
      state := Next(state, Step.SetSink(sink));
      this.sink := sink;
    }

    /** Starts the runner, but only once; the caller goes on to Wake. */
    method Start()
      requires Valid() && Enabled(state, Step.Start)
      modifies this
      ensures Valid() && state == Next(old(state), Step.Start) && started
    {
      hide Holds;
      NextKeeps(state, Step.Start);
      state := Next(state, Step.Start);
      if !started {
        started := true;
      }
    }

    /** Queues an entry if there is a sink; the oldest entry goes when the queue is full. The caller goes on
        to Wake if the entry was queued. */
    method Push(entry: Line) returns (queued: bool)
      requires Valid() && entry == state.pushed
      modifies this
      ensures Valid() && state == Next(old(state), Step.Push) && queued == sink.Some?
      ensures sink == old(sink) && limit == old(limit) && written == old(written)
      ensures !queued ==> pending == old(pending)
      ensures queued ==>
                pending == (if |old(pending)| < (if limit <= 0 then 1024 else limit) then old(pending)
                            else old(pending)[1..]) + [entry]
    {
      hide Holds;
      NextKeeps(state, Step.Push);
      state := Next(state, Step.Push);
      if sink.None? {
        return false;
      }
      var limit := this.limit;
      if limit <= 0 {
        limit := DEFAULT_LOG_QUEUE_LINES;
      }
      if |pending| >= limit {
        pending := pending[1..];
      }
      pending := pending + [entry];
      queued := true;
    }

    /** Fills the slot of the channel; does nothing if it is full. */
    method Wake()
      requires Valid() && Enabled(state, Step.Wake)
      modifies this
      ensures Valid() && state == Next(old(state), Step.Wake)
      ensures notify && pending == old(pending) && written == old(written)
    {
      hide Holds;
      NextKeeps(state, Step.Wake);
      state := Next(state, Step.Wake);
      if !notify {
        notify := true;
      }
    }

    /** The runner takes the notification out of the slot. */
    method Receive()
      requires Valid() && Enabled(state, Step.Receive)
      modifies this
      ensures Valid() && state == Next(old(state), Step.Receive)
      ensures !notify && pending == old(pending) && written == old(written)
    {
      hide Holds;
      NextKeeps(state, Step.Receive);
      state := Next(state, Step.Receive);
      notify := false;
    }

    /** The runner takes all pending entries; it goes on to write them unless there is no sink or none of them. */
    method Take() returns (to: Option<Sink>, batch: seq<Line>)
      requires Valid() && Enabled(state, Step.Take)
      modifies this
      ensures Valid() && state == Next(old(state), Step.Take)
      ensures to == old(sink) == sink && batch == old(pending) && pending == [] && written == old(written)
      ensures to.Some? && batch != [] <==> state.runner.Writing?
      ensures state.runner.Writing? ==> state.runner == Writing(to.value, batch)
    {
      hide Holds;
      NextKeeps(state, Step.Take);
      state := Next(state, Step.Take);
      to, batch := sink, pending;
      pending := [];
    }

    /** The runner hands one entry to the sink that it has found when it took the batch. */
    method Write(to: Sink, entry: Line)
      requires Valid() && state.runner.Writing? && state.runner.sink == to
      requires state.runner.batch != [] && state.runner.batch[0] == entry
      modifies this
      ensures Valid() && state == Next(old(state), Step.Write)
      ensures written == old(written) + [Written(to, entry)]
    {
      hide Holds;
      NextKeeps(state, Step.Write);
      state := Next(state, Step.Write);
      written := written + [Written(to, entry)];
    }

    /** The loop over a batch, when nobody else takes a step in between: the sink receives all entries, in
        order, and then the runner looks for more. */
    method WriteBatch(to: Sink, batch: seq<Line>)
      requires Valid() && state.runner == Writing(to, batch)
      modifies this
      ensures Valid() && written == old(written) + Entries(to, batch)
      ensures state == old(state).(written := written, runner := Taking)
    {
      hide Holds, Next, Entries;
      NoEntries(to, batch);
      for i := 0 to |batch|
        invariant Valid() && written == old(written) + Entries(to, batch[..i])
        invariant state == old(state).(written := written, runner := Writing(to, batch[i..]))
      {
        assert batch[i..][1..] == batch[i + 1..];
        OneEntryMore(to, batch, i);
        WriteStep(state);
        Write(to, batch[i]);
      }
      WriteStep(state);
      assert batch[..|batch|] == batch;
      NextKeeps(state, Step.Write);
      state := Next(state, Step.Write);
    }
  }

  /** The entries that a sink receives for the lines. */
  function Entries(to: Sink, lines: seq<Line>): (r: seq<Written>)
    ensures |r| == |lines| && forall i | 0 <= i < |lines| :: r[i] == Written(to, lines[i])
  {
    if lines == [] then [] else Entries(to, lines[..|lines| - 1]) + [Written(to, lines[|lines| - 1])]
  }

  lemma NoEntries(to: Sink, lines: seq<Line>)
    ensures Entries(to, lines[..0]) == []
  {}

  lemma OneEntryMore(to: Sink, lines: seq<Line>, i: nat)
    requires i < |lines|
    ensures Entries(to, lines[..i + 1]) == Entries(to, lines[..i]) + [Written(to, lines[i])]
  {
    assert lines[..i + 1][..i] == lines[..i];
  }

  /** What the runner does with the rest of a batch. */
  lemma WriteStep(p: Pump)
    requires p.runner.Writing?
    ensures Next(p, Step.Write) ==
            if p.runner.batch == [] then p.(runner := Taking)
            else p.(written := p.written + [Written(p.runner.sink, p.runner.batch[0])],
                    runner := Writing(p.runner.sink, p.runner.batch[1..]))
  {}

  lemma NextKeeps(p: Pump, step: Step)
    requires Holds(p) && Enabled(p, step)
    ensures Holds(Next(p, step))
  {
    hide InOrder, Accounted, NoLostWakeup, Next, Enabled;
    OrderKept(p, step);
    AccountKept(p, step);
    WakeupKept(p, step);
  }
}
