/** The logging generator: its defaults, the functional options that adjust
    them, and the object that runs the emission loop against its sink. */
module Generator {
  import opened Common
  import opened Sinks
  import opened Corpus
  import opened Passages
  import opened RunLoop
  import Validation

  /** The default kill period: one minute, in nanoseconds. */
  const DefaultKillPeriod: int64 := 60_000_000_000
  /** The default message size: 1 << 10 bytes. */
  const DefaultMessageSize: int64 := 1024
  /** The default number of lines a run emits. */
  const DefaultMessageTotal: int64 := 30
  /** The default message period: one second, in nanoseconds. */
  const DefaultMessagePeriod: int64 := 1_000_000_000

  /** The functional options. Each closure of the program is represented by
      the field it sets and the value it sets it to; a logger is known only
      by identity. */
  datatype GeneratorOption =
    | WithLog(logger: nat)
    | WithKillPeriod(killPeriod: int64)
    | WithMessageSize(messageSize: int64)
    | WithMessageTotal(messageTotal: int64)
    | WithMessagePeriod(messagePeriod: int64)

  /** What the options can change: the destination and the run settings. */
  datatype Settings = Settings(writer: Writer, config: Config)

  /** A new generator writes to standard output with the default settings. */
  const Defaults: Settings := Settings(Stdout, Config(DefaultKillPeriod, DefaultMessageSize, DefaultMessageTotal, DefaultMessagePeriod))

  /** The defaults pass the command line's configuration check, as written
      and as corrected: thirty one-second periods end before one minute. */
  lemma DefaultsPassValidation()
    ensures Validation.ValidateAsWritten(Defaults.config) == Validation.Accepted
    ensures Validation.Validate(Defaults.config) == Validation.Accepted
  {
  }

  /** What one option does to the settings. */
  function Assign(s: Settings, o: GeneratorOption): Settings
  {
    match o
    case WithLog(l) => s.(writer := LogWriter(l))
    case WithKillPeriod(p) => s.(config := s.config.(killPeriod := p))
    case WithMessageSize(p) => s.(config := s.config.(messageSize := p))
    case WithMessageTotal(p) => s.(config := s.config.(messageTotal := p))
    case WithMessagePeriod(p) => s.(config := s.config.(messagePeriod := p))
  }

  /** The options applied in order. */
  function Configure(s: Settings, opts: seq<GeneratorOption>): Settings
    decreases |opts|
  {
    if opts == [] then s else Configure(Assign(s, opts[0]), opts[1..])
  }

  /** Applying one more option after a list is applying the list, then it. */
  lemma {:induction false} ConfigureSnoc(s: Settings, opts: seq<GeneratorOption>, o: GeneratorOption)
    ensures Configure(s, opts + [o]) == Assign(Configure(s, opts), o)
    decreases |opts|
  {
    if opts != [] {
      assert (opts + [o])[1..] == opts[1..] + [o];
      ConfigureSnoc(Assign(s, opts[0]), opts[1..], o);
    }
  }

  /** The settings each option touches. */
  datatype Field = Destination | KillPeriod | MessageSize | MessageTotal | MessagePeriod

  function FieldOf(o: GeneratorOption): Field
  {
    match o
    case WithLog(_) => Destination
    case WithKillPeriod(_) => KillPeriod
    case WithMessageSize(_) => MessageSize
    case WithMessageTotal(_) => MessageTotal
    case WithMessagePeriod(_) => MessagePeriod
  }

  /** Options that touch different settings can be given in either order. */
  lemma OptionsCommute(s: Settings, a: GeneratorOption, b: GeneratorOption)
    requires FieldOf(a) != FieldOf(b)
    ensures Assign(Assign(s, a), b) == Assign(Assign(s, b), a)
  {
  }

  /** Of two options that touch the same setting, the later one wins. */
  lemma LaterOptionWins(s: Settings, a: GeneratorOption, b: GeneratorOption)
    requires FieldOf(a) == FieldOf(b)
    ensures Assign(Assign(s, a), b) == Assign(s, b)
  {
  }

  /** The last option of the list that touches field f, if any: the
      reference the fold is compared with. */
  function LastFor(opts: seq<GeneratorOption>, f: Field): (r: Option<GeneratorOption>)
    ensures r.Some? ==> r.value in opts && FieldOf(r.value) == f
    ensures r.None? <==> forall i | 0 <= i < |opts| :: FieldOf(opts[i]) != f
    decreases |opts|
  {
    if opts == [] then None
    else if FieldOf(opts[|opts| - 1]) == f then Some(opts[|opts| - 1])
    else LastFor(opts[..|opts| - 1], f)
  }

  /** The settings s with, for every field, the value set by the last option
      touching it, and the value of s where no option touches it. */
  function LastWins(s: Settings, opts: seq<GeneratorOption>): Settings
  {
    Settings(
      match LastFor(opts, Destination) case Some(WithLog(l)) => LogWriter(l) case _ => s.writer,
      Config(
        match LastFor(opts, KillPeriod) case Some(WithKillPeriod(p)) => p case _ => s.config.killPeriod,
        match LastFor(opts, MessageSize) case Some(WithMessageSize(p)) => p case _ => s.config.messageSize,
        match LastFor(opts, MessageTotal) case Some(WithMessageTotal(p)) => p case _ => s.config.messageTotal,
        match LastFor(opts, MessagePeriod) case Some(WithMessagePeriod(p)) => p case _ => s.config.messagePeriod))
  }

  /** The last option touching f in a list extended by o. */
  lemma LastForSnoc(opts: seq<GeneratorOption>, o: GeneratorOption, f: Field)
    ensures LastFor(opts + [o], f) == if FieldOf(o) == f then Some(o) else LastFor(opts, f)
  {
    assert (opts + [o])[..|opts|] == opts;
  }

  /** Applying the options in order gives each setting the value of the last
      option that sets it, and leaves the others at their earlier value. */
  lemma {:induction false} ConfigureIsLastWins(s: Settings, opts: seq<GeneratorOption>)
    ensures Configure(s, opts) == LastWins(s, opts)
    decreases |opts|
  {
    if opts != [] {
      var init := opts[..|opts| - 1];
      var o := opts[|opts| - 1];
      assert opts == init + [o];
      ConfigureSnoc(s, init, o);
      ConfigureIsLastWins(s, init);
      LastForSnoc(init, o, Destination);
      LastForSnoc(init, o, KillPeriod);
      LastForSnoc(init, o, MessageSize);
      LastForSnoc(init, o, MessageTotal);
      LastForSnoc(init, o, MessagePeriod);
    }
  }

  /** A generator: where it writes, its settings, and the two counters it
      exposes as metrics (lines emitted and bytes emitted). */
  class Generator {
    var writer: Sink
    var killPeriod: int64
    var messageSize: int64
    var messageTotal: int64
    var messagePeriod: int64
    var linesTotal: int
    var bytesTotal: int

    /** The settings as the options see them. */
    function Current(): Settings
      reads this
    {
      Settings(writer.kind, Config(killPeriod, messageSize, messageTotal, messagePeriod))
    }

    /** A generator with the defaults, adjusted by the options in order; its
        sink is a fresh one that has received nothing, and both counters
        start at zero. */
    constructor (options: seq<GeneratorOption>)
      ensures Current() == Configure(Defaults, options)
      ensures writer.records == [] && linesTotal == 0 && bytesTotal == 0
    {
      writer := new Sink(Stdout);
      killPeriod := DefaultKillPeriod;
      messageSize := DefaultMessageSize;
      messageTotal := DefaultMessageTotal;
      messagePeriod := DefaultMessagePeriod;
      linesTotal, bytesTotal := 0, 0;
      new;
      var i := 0;
      while i < |options|
        invariant 0 <= i <= |options|
        invariant Current() == Configure(Defaults, options[..i])
        invariant writer.records == [] && linesTotal == 0 && bytesTotal == 0
      {
        assert options[..i + 1] == options[..i] + [options[i]];
        ConfigureSnoc(Defaults, options[..i], options[i]);
        Apply(options[i]);
        i := i + 1;
      }
      assert options[..i] == options;
    }

    /** One option. A logger option gives the generator a fresh sink for that
        logger; every other option sets one setting. The counters and the
        sink's contents are left alone. */
    method Apply(o: GeneratorOption)
      modifies this
      ensures Current() == Assign(old(Current()), o)
      ensures linesTotal == old(linesTotal) && bytesTotal == old(bytesTotal)
      ensures o.WithLog? ==> fresh(writer) && writer.records == []
      ensures !o.WithLog? ==> writer == old(writer)
    {
      match o
      case WithLog(l) => writer := new Sink(LogWriter(l));
      case WithKillPeriod(p) => killPeriod := p;
      case WithMessageSize(p) => messageSize := p;
      case WithMessageTotal(p) => messageTotal := p;
      case WithMessagePeriod(p) => messagePeriod := p;
    }

    /** One tick inside the loop: synthesize a blob and write it; when that
        succeeds, the lines counter rises by one and the bytes counter by
        messageSize. The result is the state machine's step for a tick from
        the run state s that the generator mirrors; pos is the position of
        the random source and base what the sink held before the run. */
    method EmitLine(o: Oracle, pos: nat, ghost c: Config, ghost s: State, ghost base: seq<seq<byte>>)
        returns (err: Option<Error>, next: nat, ghost t: State)
      requires c == Current().config && s.phase == Waiting && s.pos == pos
      requires s.lines == linesTotal && s.bytes == bytesTotal && writer.records == base + s.sent
      modifies this, writer
      ensures |Sentences()| > 0
      ensures t == Step(c, Sentences(), o, s, Tick)
      ensures t.lines == linesTotal && t.bytes == bytesTotal && t.pos == next && writer.records == base + t.sent
      ensures t.canceled == s.canceled && (if err.Some? then t.phase == Done(err) else t.total == s.total + 1)
      ensures writer == old(writer) && Current() == old(Current())
    {
      TickInLoop(c, Sentences(), o, s);
      err, next := WritePassages(messageSize, writer, o, pos);
      ghost var r := Synth(Sentences(), c.messageSize, o, pos);
      if err.None? {
        linesTotal := linesTotal + 1;
        bytesTotal := bytesTotal + messageSize;
        t := LoopHead(c, s.(total := s.total + 1, lines := s.lines + 1, bytes := s.bytes + c.messageSize,
                            pos := r.next, sent := s.sent + [r.blob]));
      } else {
        t := s.(phase := Done(err), pos := next);
      }
    }

    /** One run against the given events (the kill timer, ticks and
        cancellation, in the order they happen; the kill timer always fires
        eventually), with the context already cancelled or not, and the
        random source at position pos0. It returns the run's error and where
        the random source stands afterwards. The run does what the state
        machine RunLoop.Exec says: the error, the counters and the blobs the
        sink receives are those of the final state, and the settings and the
        sink stay the same. Hence the count never passes the quota, the
        counters rise by one line and messageSize bytes per blob, every blob
        has the configured size, and the cancellation error is returned only
        after a cancellation. */
    method Run(events: seq<Event>, canceled0: bool, o: Oracle, pos0: nat) returns (err: Option<Error>, pos: nat)
      requires Kill in events
      modifies this, writer
      ensures |Sentences()| > 0
      ensures var f := Exec(old(Current()).config, Sentences(), o,
                            Start(old(Current()).config, canceled0, old(linesTotal), old(bytesTotal), pos0), events);
        f.phase == Done(err) && pos == f.pos && linesTotal == f.lines && bytesTotal == f.bytes &&
        writer.records == old(writer.records) + f.sent
      ensures writer == old(writer) && Current() == old(Current())
      ensures old(linesTotal) <= linesTotal <= old(linesTotal) + (if messageTotal <= 0 then 0 else messageTotal as int)
      ensures bytesTotal - old(bytesTotal) == (linesTotal - old(linesTotal)) * messageSize
      ensures |writer.records| - |old(writer.records)| == linesTotal - old(linesTotal)
      ensures forall i | |old(writer.records)| <= i < |writer.records| :: |writer.records[i]| == BlobSize(Current().config)
      ensures err == Some(Canceled) ==> canceled0 || Cancel in events
    {
      CorpusSize();
      var c := Config(killPeriod, messageSize, messageTotal, messagePeriod);
      ghost var start := Start(c, canceled0, linesTotal, bytesTotal, pos0);
      RunAccounting(c, Sentences(), o, canceled0, linesTotal, bytesTotal, pos0, events);
      CanceledOnlyByCancel(c, Sentences(), o, start, events);
      ghost var f := Exec(c, Sentences(), o, start, events);
      ghost var before := writer.records;
      err, pos := RunEvents(events, canceled0, o, pos0);
      assert writer.records[|before|..] == f.sent;
    }

    /** The loop of Run, step by step: it ends in the state RunLoop.Exec
        gives for the events. */
    method RunEvents(events: seq<Event>, canceled0: bool, o: Oracle, pos0: nat) returns (err: Option<Error>, pos: nat)
      requires Kill in events
      modifies this, writer
      ensures |Sentences()| > 0
      ensures var f := Exec(old(Current()).config, Sentences(), o,
                            Start(old(Current()).config, canceled0, old(linesTotal), old(bytesTotal), pos0), events);
        f.phase == Done(err) && pos == f.pos && linesTotal == f.lines && bytesTotal == f.bytes &&
        writer.records == old(writer.records) + f.sent
      ensures writer == old(writer) && Current() == old(Current())
    {
      CorpusSize();
      var c := Config(killPeriod, messageSize, messageTotal, messagePeriod);
      ghost var start := Start(c, canceled0, linesTotal, bytesTotal, pos0);
      ghost var s := start;
      var total := 0;
      var canceled := canceled0;
      pos := pos0;
      var i := 0;
      ghost var kill :| 0 <= kill < |events| && events[kill] == Kill;
      while !canceled && total < messageTotal
        invariant i <= kill < |events| && events[kill] == Kill
        invariant s == LoopHead(c, s) && s.total == total && s.canceled == canceled
        invariant s.lines == linesTotal && s.bytes == bytesTotal && s.pos == pos
        invariant writer.records == old(writer.records) + s.sent
        invariant Exec(c, Sentences(), o, start, events) == Exec(c, Sentences(), o, s, events[i..])
        invariant writer == old(writer) && Config(killPeriod, messageSize, messageTotal, messagePeriod) == c
        decreases |events| - i
      {
        var j, killed;
        ghost var w;
        j, killed, canceled, w := AwaitTick(events, i, kill, canceled, c, o, s);
        if killed {
          s := w.(phase := Done(None));
          return None, pos;
        }
        i := j;
        var e, next;
        e, next, s := EmitLine(o, pos, c, w, old(writer.records));
        pos := next;
        if e.Some? {
          return e, pos;
        }
        total := total + 1;
      }
      err, s := AwaitEnd(events, i, kill, canceled, c, o, s);
    }
  }

  /** The wait inside the loop: it listens to the kill timer and the ticker
      only, so it returns at the first tick or kill from position i on, and
      reports whether a cancellation arrived in between. */
  method AwaitTickOrKill(events: seq<Event>, i: nat, ghost kill: nat) returns (j: nat, sawCancel: bool)
    requires i <= kill < |events| && events[kill] == Kill
    ensures i <= j <= kill && events[j] != Cancel
    ensures forall k | i <= k < j :: events[k] == Cancel
    ensures sawCancel <==> i < j
  {
    j := i;
    while events[j] == Cancel
      invariant i <= j <= kill
      invariant forall k | i <= k < j :: events[k] == Cancel
      decreases kill - j
    {
      j := j + 1;
    }
    sawCancel := i < j;
  }

  /** The wait inside the loop, from position i of the events on, and the
      event that ends it: cancellations on the way are recorded, and the
      result says whether the kill timer fired or a tick arrived, in which
      case j is the position after the tick. In the state machine, the run
      from s then goes on as the step of that tick from w, the state with
      the cancellations recorded; or ends, when the kill timer fired. */
  method AwaitTick(events: seq<Event>, i: nat, ghost kill: nat, canceled: bool, ghost c: Config, ghost o: Oracle, ghost s: State)
      returns (j: nat, killed: bool, nowCanceled: bool, ghost w: State)
    requires i <= kill < |events| && events[kill] == Kill
    requires s.phase == Waiting && s.canceled == canceled
    ensures |Sentences()| > 0
    ensures w == s.(canceled := nowCanceled) && (canceled ==> nowCanceled)
    ensures killed ==> Exec(c, Sentences(), o, s, events[i..]) == w.(phase := Done(None))
    ensures !killed ==> i < j <= kill
    ensures !killed ==> Exec(c, Sentences(), o, s, events[i..]) == Exec(c, Sentences(), o, Step(c, Sentences(), o, w, Tick), events[j..])
  {
    CorpusSize();
    var k, sawCancel := AwaitTickOrKill(events, i, kill);
    nowCanceled := canceled || sawCancel;
    w := s.(canceled := nowCanceled);
    WaitThenStep(c, Sentences(), o, s, events, i, k);
    killed := events[k] == Kill;
    j := k + 1;
  }

  /** The wait after the loop: it listens to cancellation and the kill timer
      only, so it returns at the first cancellation or kill from position i
      on, ticks being ignored. */
  method AwaitCancelOrKill(events: seq<Event>, i: nat, ghost kill: nat) returns (j: nat)
    requires i <= kill < |events| && events[kill] == Kill
    ensures i <= j <= kill && events[j] != Tick
    ensures forall k | i <= k < j :: events[k] == Tick
  {
    j := i;
    while events[j] == Tick
      invariant i <= j <= kill
      invariant forall k | i <= k < j :: events[k] == Tick
      decreases kill - j
    {
      j := j + 1;
    }
  }

  /** The wait after the loop and the result of the run: the context's
      error, which is the cancellation error once the context is cancelled
      and none otherwise. A context already cancelled is seen at once; else
      the wait ends at the first cancellation or kill, ticks being ignored.
      The result is the state machine's final state from the loop's exit
      state s. */
  method AwaitEnd(events: seq<Event>, i: nat, ghost kill: nat, canceled: bool, ghost c: Config, ghost o: Oracle, ghost s: State)
      returns (err: Option<Error>, ghost t: State)
    requires i <= kill < |events| && events[kill] == Kill
    requires s == LoopHead(c, s) && s.phase != Waiting && s.canceled == canceled
    ensures |Sentences()| > 0
    ensures Exec(c, Sentences(), o, s, events[i..]) == t && t.phase == Done(err)
    ensures t.lines == s.lines && t.bytes == s.bytes && t.pos == s.pos && t.sent == s.sent
    ensures err == if !canceled && FirstStop(events[i..]) == Some(Kill) then None else Some(Canceled)
  {
    CorpusSize();
    if canceled {
      return Some(Canceled), s;
    }
    var j := AwaitCancelOrKill(events, i, kill);
    FirstStopAt(events[i..], j - i);
    TicksWhileDraining(c, Sentences(), o, s, events, i, j);
    ExecUnfold(c, Sentences(), o, s, events, j);
    if events[j] == Kill {
      err, t := None, s.(phase := Done(None));
    } else {
      err, t := Some(Canceled), s.(canceled := true, phase := Done(Some(Canceled)));
    }
  }
}
