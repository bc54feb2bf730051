/** The generator's run loop as a state machine over the events that wake it.
    The kill timer, the message ticker and the cancellable context become a
    sequence of events; when the kill timer and a tick are ready together,
    the order of the two in the sequence is the choice the runtime's select
    makes. */
module RunLoop {
  import opened Common
  import opened Passages

  /** The generator's settings, as read by the run loop. Durations are
      nanoseconds. */
  datatype Config = Config(killPeriod: int64, messageSize: int64, messageTotal: int64, messagePeriod: int64)

  /** What can happen while the loop runs: the kill timer fires, the ticker
      ticks, or the context is cancelled. */
  datatype Event = Tick | Kill | Cancel

  /** Where the run is: waiting in the loop for a tick or the kill timer;
      waiting after the loop for cancellation or the kill timer; or
      returned, with the error it returned. */
  datatype Phase = Waiting | Draining | Done(err: Option<Error>)

  /** The run's state: its phase, the count of lines emitted by this run,
      whether the context has been cancelled, the two counters, the cursor of
      the random source, and the blobs this run has handed to the sink. */
  datatype State = State(phase: Phase, total: int, canceled: bool, lines: int, bytes: int, pos: nat, sent: seq<seq<byte>>)

  /** The number of bytes a blob of the configured size has. */
  function BlobSize(c: Config): nat
  {
    if c.messageSize <= 0 then 0 else c.messageSize
  }

  /** The loop head: the loop goes on while the context is not cancelled and
      fewer than messageTotal lines were emitted. Once it stops, a cancelled
      context ends the run with the cancellation error at once, since the
      final wait sees it; otherwise the run waits for cancellation or kill. */
  function LoopHead(c: Config, s: State): State
  {
    s.(phase := if !s.canceled && s.total < c.messageTotal then Waiting
                else if s.canceled then Done(Some(Canceled))
                else Draining)
  }

  /** The state in which a run begins: nothing emitted yet. */
  function Start(c: Config, canceled: bool, lines: int, bytes: int, pos: nat): State
  {
    LoopHead(c, State(Waiting, 0, canceled, lines, bytes, pos, []))
  }

  /** A tick inside the loop: synthesize and write one blob; a failure ends
      the run with that failure, otherwise the count and both counters go up
      and the loop head is evaluated again. */
  function OnTick(c: Config, corpus: seq<seq<byte>>, o: Oracle, s: State): State
    requires |corpus| > 0
  {
    var r := Synth(corpus, c.messageSize, o, s.pos);
    if r.err.Some? then s.(phase := Done(r.err), pos := r.next)
    else
      LoopHead(c, s.(total := s.total + 1, lines := s.lines + 1, bytes := s.bytes + c.messageSize,
                     pos := r.next, sent := s.sent + [r.blob]))
  }

  /** One event. Inside the loop the wait listens to the kill timer and the
      ticker only, so a cancellation is merely recorded. After the loop the
      wait listens to cancellation and the kill timer, and ticks are dropped. */
  function Step(c: Config, corpus: seq<seq<byte>>, o: Oracle, s: State, e: Event): State
    requires |corpus| > 0
  {
    match s.phase
    case Waiting =>
      (match e
       case Kill => s.(phase := Done(None))
       case Cancel => s.(canceled := true)
       case Tick => OnTick(c, corpus, o, s))
    case Draining =>
      (match e
       case Kill => s.(phase := Done(None))
       case Cancel => s.(canceled := true, phase := Done(Some(Canceled)))
       case Tick => s)
    case Done(_) => s
  }

  /** The state after the events, stopping at the first that ends the run. */
  function Exec(c: Config, corpus: seq<seq<byte>>, o: Oracle, s: State, events: seq<Event>): State
    requires |corpus| > 0
    decreases |events|
  {
    if events == [] || s.phase.Done? then s
    else Exec(c, corpus, o, Step(c, corpus, o, s, events[0]), events[1..])
  }

  /** What holds of every state of a run that began with counters lines0 and
      bytes0: the count never passes the quota (and stays 0 without one); the
      lines counter rose by exactly the count and the bytes counter by the
      count times messageSize; every blob sent has exactly the configured
      size; the loop waits only below the quota; and a cancellation error
      is returned only after cancellation. */
  ghost predicate Inv(c: Config, lines0: int, bytes0: int, s: State)
  {
    0 <= s.total && (s.total <= c.messageTotal || s.total == 0) &&
    s.lines == lines0 + s.total && s.bytes == bytes0 + s.total * c.messageSize &&
    |s.sent| == s.total && (forall i | 0 <= i < |s.sent| :: |s.sent[i]| == BlobSize(c)) &&
    (s.phase == Waiting ==> s.total < c.messageTotal) &&
    (s.phase == Draining ==> !s.canceled && c.messageTotal <= s.total) &&
    (s.phase == Done(Some(Canceled)) ==> s.canceled)
  }

  /** A run begins in a state that satisfies the invariant. */
  lemma StartInv(c: Config, canceled: bool, lines: int, bytes: int, pos: nat)
    ensures Inv(c, lines, bytes, Start(c, canceled, lines, bytes, pos))
  {
  }

  /** One more line adds one more messageSize to the bytes counter. */
  lemma MulSucc(t: int, m: int)
    ensures (t + 1) * m == t * m + m
  {
  }

  /** Emitting one blob keeps the invariant. */
  lemma OnTickInv(c: Config, corpus: seq<seq<byte>>, o: Oracle, lines0: int, bytes0: int, s: State)
    requires |corpus| > 0 && Inv(c, lines0, bytes0, s) && s.phase == Waiting
    ensures Inv(c, lines0, bytes0, OnTick(c, corpus, o, s))
  {
    var r := Synth(corpus, c.messageSize, o, s.pos);
    SynthIsFragments(corpus, c.messageSize, o, s.pos);
    if r.err.None? {
      assert |r.blob| == BlobSize(c);
      var t := s.(total := s.total + 1, lines := s.lines + 1, bytes := s.bytes + c.messageSize,
                  pos := r.next, sent := s.sent + [r.blob]);
      MulSucc(s.total, c.messageSize);
      assert forall i | 0 <= i < |t.sent| :: |t.sent[i]| == BlobSize(c);
    }
  }

  /** Every event keeps the invariant. */
  lemma StepInv(c: Config, corpus: seq<seq<byte>>, o: Oracle, lines0: int, bytes0: int, s: State, e: Event)
    requires |corpus| > 0 && Inv(c, lines0, bytes0, s)
    ensures Inv(c, lines0, bytes0, Step(c, corpus, o, s, e))
  {
    if s.phase == Waiting && e == Tick {
      OnTickInv(c, corpus, o, lines0, bytes0, s);
    }
  }

  /** Every state a run reaches keeps the invariant. */
  lemma {:induction false} ExecInv(c: Config, corpus: seq<seq<byte>>, o: Oracle, lines0: int, bytes0: int, s: State, events: seq<Event>)
    requires |corpus| > 0 && Inv(c, lines0, bytes0, s)
    ensures Inv(c, lines0, bytes0, Exec(c, corpus, o, s, events))
    decreases |events|
  {
    if events != [] && !s.phase.Done? {
      StepInv(c, corpus, o, lines0, bytes0, s, events[0]);
      ExecInv(c, corpus, o, lines0, bytes0, Step(c, corpus, o, s, events[0]), events[1..]);
    }
  }

  /** The kill timer always ends the run: once it has fired, the run has
      returned. */
  lemma {:induction false} KillEndsRun(c: Config, corpus: seq<seq<byte>>, o: Oracle, s: State, events: seq<Event>)
    requires |corpus| > 0 && Kill in events
    ensures Exec(c, corpus, o, s, events).phase.Done?
    decreases |events|
  {
    if !s.phase.Done? && events[0] != Kill {
      assert Kill in events[1..];
      KillEndsRun(c, corpus, o, Step(c, corpus, o, s, events[0]), events[1..]);
    }
  }

  /** The accounting of a whole run, whatever the events: the lines emitted
      never exceed the quota (none at all when the quota is not positive), the
      lines counter rises by one per line and the bytes counter by messageSize
      per line, every blob sent has exactly the configured size, and the run
      returns the cancellation error only when the context was cancelled. */
  lemma RunAccounting(c: Config, corpus: seq<seq<byte>>, o: Oracle, canceled: bool, lines0: int, bytes0: int, pos: nat, events: seq<Event>)
    requires |corpus| > 0
    ensures var f := Exec(c, corpus, o, Start(c, canceled, lines0, bytes0, pos), events);
      0 <= f.total <= (if c.messageTotal <= 0 then 0 else c.messageTotal as int) &&
      f.lines == lines0 + f.total && f.bytes == bytes0 + f.total * c.messageSize &&
      |f.sent| == f.total && (forall i | 0 <= i < |f.sent| :: |f.sent[i]| == BlobSize(c)) &&
      (f.phase == Done(Some(Canceled)) ==> f.canceled)
  {
    StartInv(c, canceled, lines0, bytes0, pos);
    ExecInv(c, corpus, o, lines0, bytes0, Start(c, canceled, lines0, bytes0, pos), events);
  }

  /** Only a cancellation cancels the context: a run ends with the context
      cancelled only when it was cancelled before or a cancellation event
      arrived. */
  lemma {:induction false} CanceledOnlyByCancel(c: Config, corpus: seq<seq<byte>>, o: Oracle, s: State, events: seq<Event>)
    requires |corpus| > 0
    ensures Exec(c, corpus, o, s, events).canceled ==> s.canceled || Cancel in events
    decreases |events|
  {
    if events != [] && !s.phase.Done? {
      var t := Step(c, corpus, o, s, events[0]);
      assert t.canceled ==> s.canceled || events[0] == Cancel;
      CanceledOnlyByCancel(c, corpus, o, t, events[1..]);
      assert Cancel in events[1..] ==> Cancel in events;
    }
  }

  /** A context cancelled before the run begins ends it at once with the
      cancellation error, before anything is emitted. */
  lemma CanceledBeforeRun(c: Config, corpus: seq<seq<byte>>, o: Oracle, lines0: int, bytes0: int, pos: nat, events: seq<Event>)
    requires |corpus| > 0
    ensures Exec(c, corpus, o, Start(c, true, lines0, bytes0, pos), events) == State(Done(Some(Canceled)), 0, true, lines0, bytes0, pos, [])
  {
  }

  /** The first event after the loop that is not a tick, if any. */
  function FirstStop(events: seq<Event>): (r: Option<Event>)
    ensures r.Some? ==> r.value != Tick && r.value in events
    ensures r.None? <==> forall i | 0 <= i < |events| :: events[i] == Tick
  {
    if events == [] then None
    else if events[0] != Tick then Some(events[0])
    else FirstStop(events[1..])
  }

  /** The first event that is not a tick, found by position. */
  lemma {:induction false} FirstStopAt(events: seq<Event>, j: nat)
    requires j < |events| && events[j] != Tick
    requires forall k | 0 <= k < j :: events[k] == Tick
    ensures FirstStop(events) == Some(events[j])
    decreases j
  {
    if j > 0 {
      FirstStopAt(events[1..], j - 1);
    }
  }

  /** After the loop, ticks are ignored and the first kill or cancellation
      decides the result: a kill returns no error, a cancellation returns the
      cancellation error; nothing else about the state changes. */
  lemma {:induction false} DrainOutcome(c: Config, corpus: seq<seq<byte>>, o: Oracle, s: State, events: seq<Event>)
    requires |corpus| > 0 && s.phase == Draining
    ensures Exec(c, corpus, o, s, events) ==
      match FirstStop(events)
      case None => s
      case Some(Kill) => s.(phase := Done(None))
      case Some(_) => s.(canceled := true, phase := Done(Some(Canceled)))
    decreases |events|
  {
    if events != [] && events[0] == Tick {
      DrainOutcome(c, corpus, o, s, events[1..]);
    }
  }

  /** n ticks. */
  function Ticks(n: nat): (t: seq<Event>)
    ensures |t| == n && forall i | 0 <= i < n :: t[i] == Tick
  {
    seq(n, _ => Tick)
  }

  /** A run that is never cancelled and whose buffer never fails emits one
      line per tick until the quota is reached, and the kill timer then ends
      it without an error, however many ticks came before it. */
  lemma {:induction false} TicksThenKill(c: Config, corpus: seq<seq<byte>>, o: Oracle, s: State, n: nat)
    requires |corpus| > 0 && s.phase == Waiting && !s.canceled && 0 <= s.total < c.messageTotal
    requires forall a | s.pos <= a :: !o.appendFails(a)
    ensures var f := Exec(c, corpus, o, s, Ticks(n) + [Kill]);
      f.phase == Done(None) && f.total == (if s.total + n < c.messageTotal then s.total + n else c.messageTotal as int)
    decreases n
  {
    var events := Ticks(n) + [Kill];
    if n > 0 {
      assert events[0] == Tick;
      assert events[1..] == Ticks(n - 1) + [Kill];
      var r := Synth(corpus, c.messageSize, o, s.pos);
      SynthFailsIffAppendFails(corpus, c.messageSize, o, s.pos);
      SynthIsFragments(corpus, c.messageSize, o, s.pos);
      assert r.err.None?;
      var t := Step(c, corpus, o, s, Tick);
      assert t.total == s.total + 1 && t.pos == r.next >= s.pos;
      if t.phase == Waiting {
        TicksThenKill(c, corpus, o, t, n - 1);
      } else {
        assert t.phase == Draining;
        DrainOutcome(c, corpus, o, t, events[1..]);
        assert events[1..][n - 1] == Kill;
      }
    }
  }

  /** A cancellation does not interrupt the wait inside the loop: the next
      tick still emits a line, and only then does the loop head see the
      cancellation and end the run with the cancellation error, even when the
      kill timer fires afterwards. */
  lemma CancelSeenAtLoopHead(c: Config, corpus: seq<seq<byte>>, o: Oracle, s: State)
    requires |corpus| > 0 && s.phase == Waiting && Synth(corpus, c.messageSize, o, s.pos).err.None?
    ensures var f := Exec(c, corpus, o, s, [Cancel, Tick, Kill]);
      f.phase == Done(Some(Canceled)) && f.total == s.total + 1
  {
  }

  /** The kill timer firing inside the loop ends the run without an error,
      even when the context was cancelled during the wait. */
  lemma KillInLoopReturnsNoError(c: Config, corpus: seq<seq<byte>>, o: Oracle, s: State)
    requires |corpus| > 0 && s.phase == Waiting
    ensures Exec(c, corpus, o, s, [Cancel, Kill]) == s.(canceled := true, phase := Done(None))
  {
  }

  /** A failed append ends the run with that failure; the sink receives
      nothing and the counters stay put. */
  lemma AppendFailureEndsRun(c: Config, corpus: seq<seq<byte>>, o: Oracle, s: State, events: seq<Event>)
    requires |corpus| > 0 && s.phase == Waiting && Synth(corpus, c.messageSize, o, s.pos).err.Some?
    ensures var f := Exec(c, corpus, o, s, [Tick] + events);
      f.phase == Done(Some(AppendFailed)) && f.total == s.total && f.lines == s.lines && f.bytes == s.bytes && f.sent == s.sent
  {
    assert ([Tick] + events)[1..] == events;
    SynthFailsIffAppendFails(corpus, c.messageSize, o, s.pos);
  }

  /** One step of Exec, at any position of the event sequence. */
  lemma ExecUnfold(c: Config, corpus: seq<seq<byte>>, o: Oracle, s: State, events: seq<Event>, i: nat)
    requires |corpus| > 0 && i < |events| && !s.phase.Done?
    ensures Exec(c, corpus, o, s, events[i..]) == Exec(c, corpus, o, Step(c, corpus, o, s, events[i]), events[i + 1..])
  {
    assert events[i..][1..] == events[i + 1..];
  }

  /** Cancellations that arrive while the loop waits are recorded one by one
      and change nothing else. */
  lemma {:induction false} CancelsWhileWaiting(c: Config, corpus: seq<seq<byte>>, o: Oracle, s: State, events: seq<Event>, i: nat, j: nat)
    requires |corpus| > 0 && s.phase == Waiting && i <= j <= |events|
    requires forall k | i <= k < j :: events[k] == Cancel
    ensures Exec(c, corpus, o, s, events[i..]) == Exec(c, corpus, o, s.(canceled := s.canceled || i < j), events[j..])
    decreases j - i
  {
    if i < j {
      ExecUnfold(c, corpus, o, s, events, i);
      CancelsWhileWaiting(c, corpus, o, s.(canceled := true), events, i + 1, j);
    }
  }

  /** The wait inside the loop followed by the event that ends it: the
      cancellations on the way are recorded, then that event is stepped. */
  lemma WaitThenStep(c: Config, corpus: seq<seq<byte>>, o: Oracle, s: State, events: seq<Event>, i: nat, j: nat)
    requires |corpus| > 0 && s.phase == Waiting && i <= j < |events|
    requires forall k | i <= k < j :: events[k] == Cancel
    ensures var w := s.(canceled := s.canceled || i < j);
      Exec(c, corpus, o, s, events[i..]) == Exec(c, corpus, o, Step(c, corpus, o, w, events[j]), events[j + 1..])
  {
    CancelsWhileWaiting(c, corpus, o, s, events, i, j);
    ExecUnfold(c, corpus, o, s.(canceled := s.canceled || i < j), events, j);
  }

  /** Ticks that arrive after the loop are dropped. */
  lemma {:induction false} TicksWhileDraining(c: Config, corpus: seq<seq<byte>>, o: Oracle, s: State, events: seq<Event>, i: nat, j: nat)
    requires |corpus| > 0 && s.phase == Draining && i <= j <= |events|
    requires forall k | i <= k < j :: events[k] == Tick
    ensures Exec(c, corpus, o, s, events[i..]) == Exec(c, corpus, o, s, events[j..])
    decreases j - i
  {
    if i < j {
      ExecUnfold(c, corpus, o, s, events, i);
      TicksWhileDraining(c, corpus, o, s, events, i + 1, j);
    }
  }

  /** A tick inside the loop, spelled out: the synthesis either fails, and
      the run ends with its error, or its blob is sent and counted. */
  lemma TickInLoop(c: Config, corpus: seq<seq<byte>>, o: Oracle, s: State)
    requires |corpus| > 0 && s.phase == Waiting
    ensures var r := Synth(corpus, c.messageSize, o, s.pos);
      Step(c, corpus, o, s, Tick) ==
        if r.err.Some? then s.(phase := Done(r.err), pos := r.next)
        else LoopHead(c, s.(total := s.total + 1, lines := s.lines + 1, bytes := s.bytes + c.messageSize,
                            pos := r.next, sent := s.sent + [r.blob]))
  {
  }
}
