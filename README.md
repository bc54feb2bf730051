# logging-generator: a verified model of the generator core

The logging generator emits a bounded number of synthetic log lines of a
fixed size, one per message period, until its quota is reached or its kill
period ends. This project models its core in Dafny:

- **`Corpus`** (`corpus.dfy`): the 23 sentences, as the source spells them
  and as the UTF-8 bytes they are stored in.
- **`Passages`** (`passages.dfy`): the content synthesizer `writePassages`. The synthesizer draws random sentences,
  appends one space to each, cuts the last fragment so the buffer reaches
  exactly `desiredSize` bytes, and then writes the buffer once to its sink.
  The random source and the buffer's append result come from an oracle
  (`Oracle`). The specification functions are `Fragments`, `Flatten` and
  `Synth`. The loop itself is the method `FillBuffer`. It is proved against
  `Fill`, the loop read step by step, and `Fill` is proved equal to `Synth`.
- **`Sinks`** (`sinks.dfy`): the destination of a blob. It is either
  standard output or the logger adapter whose `WriteString` always reports
  `(0, nil)`. Each sink keeps the sequence of blobs it received.
- **`RunLoop`** (`runloop.dfy`): `Run` as a state machine. The kill timer,
  the ticker and the context become a sequence of events `Tick | Kill | Cancel`.
  When two events are ready at the same time, their order in the sequence is
  the choice Go's `select` makes. `Step` and `Exec` are the reference
  semantics. The invariant `Inv` and the lemmas about it give the count
  bounds, the counter agreement and the exit and return rules.
- **`Generator`** (`generator.dfy`): the defaults, the `With*` options as
  the datatype `GeneratorOption`, and the class `Generator` with its setting
  fields and two counters. Its constructor applies the options in order, and
  its method `Run` consumes events. `Run` is proved to do exactly what
  `RunLoop.Exec` says.
- **`Validation`** (`validation.dfy`): the command line's check
  `messageTotal * messagePeriod > killPeriod => error`, both as written and
  corrected. It also defines an ideal-timing event schedule, used to say what
  the check promises about a run.

Durations are `int64` nanoseconds, as in Go's `time.Duration`. The
Prometheus counters are unbounded integers.

The model follows the code, including where its behaviour may be
unexpected:
- A cancellation does not interrupt the wait inside the loop. That wait
  listens only to the kill timer and the ticker, so a tick after a
  cancellation still emits a line.
- A sink write failure is ignored (`io.WriteString`'s result is dropped).
  Only a failing buffer append reaches `Run` as an error.
- A non-positive size still writes the empty blob once.
- The configuration check accepts a product equal to the kill period.
- A second call of `Run` is not rejected.

## Model

| member | source | states |
|---|---|---|
| Corpus.Sentence | pkg/generator/passages.go:11-33 | defines sentence i of the corpus, spelled as in the source literal |
| Corpus.Strings | pkg/generator/passages.go:10-34 | the corpus has exactly 23 sentences |
| Corpus.Sentences | pkg/generator/passages.go:10-34 | the stored corpus has one byte string per sentence |
| Corpus.CorpusSize | pkg/generator/passages.go:10-34 | the corpus as stored bytes has 23 entries, so a draw always has a sentence to pick |
| Corpus.Utf8 | pkg/generator/passages.go:10-34 | a sentence stored as UTF-8 has at least as many bytes as characters and at most four per character, so cuts count bytes, not characters |
| Corpus.EncodeRune | pkg/generator/passages.go:10-34 | one character is one to four bytes, and one byte exactly when it is ASCII |
| Passages.Piece | pkg/generator/passages.go:42 | a drawn candidate is the sentence plus one trailing space, so it is at least one byte long and ends in a space |
| Passages.Draw | pkg/generator/passages.go:42 | every draw is an index in [0, len(passages)), and it is the random source's value whenever that value is in range |
| Passages.Fragment | pkg/generator/passages.go:42-46 | a fragment is non-empty and no longer than the r bytes still missing |
| Passages.FragmentOfPiece | pkg/generator/passages.go:42-46 | a fragment is a prefix of the drawn piece, and the whole piece unless it was cut to exactly r bytes |
| Passages.NextFragment | pkg/generator/passages.go:42-46 | one draw of the loop yields the fragment the specification gives for that draw: between 1 and r bytes |
| Passages.Fragments | pkg/generator/passages.go:41-52 | a non-positive size yields no fragment (no draw); a positive size yields at least one and at most desiredSize fragments, so the loop terminates |
| Passages.FragmentsLength | pkg/generator/passages.go:41-52 | the fragments together are exactly desiredSize bytes (0 for a non-positive size) |
| Passages.FragmentsShape | pkg/generator/passages.go:42-46 | each fragment is a non-empty prefix of the piece drawn for it, and every fragment but the last is the whole piece, so only the last can be cut |
| Passages.Synth | pkg/generator/passages.go:41-52 | the draw cursor never moves back; an error is the append error, comes with no blob and after at least one draw; a success is exactly max(desiredSize, 0) bytes |
| Passages.Fill | pkg/generator/passages.go:41-52 | defines the loop read step by step: no bytes missing returns the buffer; a failing append returns the error with no blob; otherwise the fragment is appended and the loop goes on with the next draw |
| Passages.FillIsSynth | pkg/generator/passages.go:41-52 | the loop's step-by-step reading (bytes still missing, buffer so far, draw cursor) ends as the synthesis does, with the buffer so far in front of its blob |
| Passages.FillBuffer | pkg/generator/passages.go:38-52 | the loop returns the error, buffer and draw cursor of its step-by-step reading from an empty buffer: the first append error, or the full buffer |
| Passages.WritePassages | pkg/generator/passages.go:37-55 | the result is the synthesis of desiredSize: on success exactly one blob reaches the sink and the result is nil; on an append error the error is returned and nothing is written |
| Passages.NoDrawForNonPositiveSize | pkg/generator/passages.go:41-53 | a size of 0 or less makes no draw and yields the empty blob with no error |
| Passages.SynthIsFragments | pkg/generator/passages.go:41-52 | a successful synthesis is the fragments concatenated, with one draw per fragment |
| Passages.SynthFailsIffAppendFails | pkg/generator/passages.go:47-50 | the synthesis returns an error if and only if one of its appends fails |
| Passages.SynthStopsAtFirstFailure | pkg/generator/passages.go:47-50 | a failed synthesis stops at the first failing append: that append is its last draw, and none before it failed |
| Sinks.Sink.WriteString | pkg/generator/generator.go:52-55 | the blob is recorded, and the logger adapter reports 0 bytes and no error |
| RunLoop.Start | pkg/generator/generator.go:128 | defines the state a run begins in: total 0, the counters as they were, nothing sent, then the loop-head test |
| RunLoop.LoopHead | pkg/generator/generator.go:133 | defines the loop-head test: waiting while the context is not cancelled and total is below the quota; otherwise done with the cancellation error if cancelled, else waiting for the kill timer after the loop |
| RunLoop.OnTick | pkg/generator/generator.go:141-148 | defines a tick in the loop: the synthesizer's error ends the run; otherwise total, lines and bytes rise, the blob is sent, and the loop head is tested again |
| RunLoop.Step | pkg/generator/generator.go:133-154 | defines one event: in the loop a kill returns nil, a cancellation is only recorded, a tick emits; after the loop a kill returns nil, a cancellation returns its error, a tick is dropped; a finished run ignores events |
| RunLoop.Exec | pkg/generator/generator.go:133-156 | defines a run as the events stepped in order until the run is done |
| RunLoop.StartInv | pkg/generator/generator.go:128 | a run starts with total 0 and unchanged counters, which satisfies the invariant |
| RunLoop.OnTickInv | pkg/generator/generator.go:141-148 | a tick keeps the invariant: total stays within the quota and the counters stay at lines0 + total and bytes0 + total * messageSize |
| RunLoop.StepInv | pkg/generator/generator.go:133-154 | every event keeps the invariant |
| RunLoop.ExecInv | pkg/generator/generator.go:133-156 | every state reached by a run keeps the invariant |
| RunLoop.RunAccounting | pkg/generator/generator.go:128-148 | whatever the events: 0 <= total <= max(messageTotal, 0); linesTotal rose by total and bytesTotal by total * messageSize; every blob sent has the configured size; a cancellation error implies the context was cancelled |
| RunLoop.CanceledOnlyByCancel | pkg/generator/generator.go:133 | the context ends up cancelled only if it was cancelled before the run or a cancellation arrived |
| RunLoop.KillEndsRun | pkg/generator/generator.go:134-136 | once the kill timer has fired, the run has returned |
| RunLoop.CanceledBeforeRun | pkg/generator/generator.go:133 | a context cancelled before the run gives the cancellation error, with no emission and no counter change |
| RunLoop.FirstStop | pkg/generator/generator.go:151-154 | the first non-tick event, or none exactly when all events are ticks |
| RunLoop.FirstStopAt | pkg/generator/generator.go:151-154 | the first event that is not a tick is the one at the first position holding a non-tick |
| RunLoop.DrainOutcome | pkg/generator/generator.go:151-156 | after the loop, ticks are ignored; the first kill returns nil and the first cancellation returns the cancellation error; nothing else changes |
| RunLoop.TicksThenKill | pkg/generator/generator.go:133-156 | with no cancellation and no append failure, n ticks and then a kill emit min(messageTotal - total, n) more lines and return nil |
| RunLoop.CancelSeenAtLoopHead | pkg/generator/generator.go:133-139 | a tick after a cancellation still emits one line; the loop head then sees the cancellation and the run returns the cancellation error |
| RunLoop.KillInLoopReturnsNoError | pkg/generator/generator.go:134-136 | a kill during the in-loop wait returns nil, with no emission and no counter change, even after a cancellation |
| RunLoop.AppendFailureEndsRun | pkg/generator/generator.go:141-144 | a synthesizer error is returned at once, with total, both counters and the sink unchanged |
| RunLoop.WaitThenStep | pkg/generator/generator.go:134-139 | the in-loop wait records the cancellations that arrive and then steps the tick or kill that ends it |
| RunLoop.CancelsWhileWaiting | pkg/generator/generator.go:134-139 | cancellations during the in-loop wait only mark the context as cancelled |
| RunLoop.TicksWhileDraining | pkg/generator/generator.go:151-154 | ticks after the loop are dropped |
| Generator.DefaultKillPeriod | pkg/generator/generator.go:15 | defines the default kill period: one minute in nanoseconds |
| Generator.DefaultMessageSize | pkg/generator/generator.go:17 | defines the default message size: 1 << 10 = 1024 bytes |
| Generator.DefaultMessageTotal | pkg/generator/generator.go:19 | defines the default quota: 30 lines |
| Generator.DefaultMessagePeriod | pkg/generator/generator.go:21 | defines the default message period: one second in nanoseconds |
| Generator.Defaults | pkg/generator/generator.go:98-104 | defines the settings before any option: standard output and the four defaults |
| Generator.Assign | pkg/generator/generator.go:60-95 | defines one option: WithLog sets the writer to the logger adapter, each other With* option sets its own field |
| Generator.Configure | pkg/generator/generator.go:119-121 | defines the options applied one after the other, in argument order |
| Generator.DefaultsPassValidation | pkg/generator/generator.go:13-22 | the defaults (1 minute, 1024 bytes, 30 lines, 1 second) pass both the written and the corrected configuration check |
| Generator.ConfigureSnoc | pkg/generator/generator.go:119-121 | the options are applied in argument order |
| Generator.OptionsCommute | pkg/generator/generator.go:60-95 | options that set different fields commute |
| Generator.LaterOptionWins | pkg/generator/generator.go:60-95 | of two options for the same field, the later one overrides the earlier |
| Generator.LastFor | pkg/generator/generator.go:119-121 | the last option for a field is one of the options and sets that field; there is none exactly when no option sets it |
| Generator.ConfigureIsLastWins | pkg/generator/generator.go:60-95 | after the options, each field holds the value of the last option that sets it, and its default when no option sets it |
| Generator.Generator.constructor | pkg/generator/generator.go:98-124 | the defaults, then the options in order; both counters start at 0 and the sink is empty |
| Generator.Generator.Apply | pkg/generator/generator.go:60-95 | one option assigns its own field only; a logger option installs a fresh logger sink; the counters are unchanged |
| Generator.Generator.EmitLine | pkg/generator/generator.go:141-148 | one tick: the synthesizer's error, or one blob written plus 1 line and messageSize bytes counted, as RunLoop.Step says |
| Generator.Generator.Run | pkg/generator/generator.go:127-157 | the result, counters and blobs written are those of RunLoop.Exec; the counters rise by at most max(messageTotal, 0) lines with bytes = lines * messageSize; a cancellation error only after a cancellation; the settings are unchanged |
| Generator.Generator.RunEvents | pkg/generator/generator.go:127-157 | the loop and the final wait of Run, step by step, end in the state RunLoop.Exec gives for the events |
| Generator.AwaitTick | pkg/generator/generator.go:134-139 | the in-loop wait: a kill ends the run with no error and only the cancellations recorded; a tick hands the run on to that tick's step |
| Generator.AwaitTickOrKill | pkg/generator/generator.go:134-139 | the in-loop wait returns at the first tick or kill, and reports whether a cancellation came first |
| Generator.AwaitCancelOrKill | pkg/generator/generator.go:151-154 | the final wait returns at the first cancellation or kill and skips ticks |
| Generator.AwaitEnd | pkg/generator/generator.go:151-156 | the run returns the context's error: nil exactly when the context was not cancelled before the wait and the first event other than a tick is the kill, the cancellation error otherwise; the counters and the blobs sent stay as they were |
| Validation.WrapInt64 | cmd/logging-generator/main.go:42 | Go's int64 result is congruent to the exact value modulo 2^64, and equal to it when it fits |
| Validation.ValidateAsWritten | cmd/logging-generator/main.go:42-44 | without overflow, the written check accepts exactly when messageTotal * messagePeriod <= killPeriod, equality included |
| Validation.Validate | cmd/logging-generator/main.go:42-44 | defines the corrected check: accept exactly when the exact product messageTotal * messagePeriod is less than killPeriod, as the error message asks |
| Validation.ChecksAgreeElsewhere | cmd/logging-generator/main.go:42-44 | the written and the corrected check differ only on overflow or on equality |
| Validation.FourTimesTenExceedsThirty | cmd/logging-generator/main.go:42-44 | 4 lines every 10 s with a 30 s kill period are rejected |
| Validation.IdealEvents | pkg/generator/generator.go:129-132 | under ideal timing the run sees the ticks due before the kill deadline (plus the tied one if select picks it), then the kill |
| Validation.MultiplesAtLeast | pkg/generator/generator.go:129-132 | when t periods fit in k, at least t ticks are due by time k |
| Validation.MultiplesBelow | pkg/generator/generator.go:129-132 | when t periods exceed k, fewer than t ticks are due by time k |
| Validation.IdealRun | pkg/generator/generator.go:133-156 | a run with n ticks before the kill, no cancellation and no append failure emits min(max(messageTotal, 0), n) lines and returns nil |
| Validation.ValidatedRunEmitsQuota | cmd/logging-generator/main.go:42-44 | a configuration the corrected check accepts sends its whole quota before the kill timer fires, whichever way select breaks a tie |
| Validation.TieLosesLastLine | cmd/logging-generator/main.go:42-44 | the written check accepts messageTotal * messagePeriod == killPeriod, and if kill wins the tie at the deadline only messageTotal - 1 lines are emitted |
| Validation.ThreeLinesInThreeSeconds | cmd/logging-generator/main.go:42-44 | 3 lines, 1 s apart, with a 3 s kill period are accepted, yet only 2 lines are emitted when kill wins the tie |
| Validation.OverflowSlipsThrough | cmd/logging-generator/main.go:42-44 | 2^62 lines every 4 ns with a 1 minute kill period: the product wraps to 0 and is accepted, and the run is killed before its quota |

## Left out

- Real time: timers, the ticker, `select` and `context.Context` are replaced by an explicit event sequence. A tie between the kill timer and a tick is whichever comes first in the sequence. The ticker dropping ticks for a slow reader is covered only because any event sequence is allowed.
- Generator.Generator.Run: requires a `Kill` event somewhere in the sequence, because the kill timer always fires eventually. Events after the run returns are ignored.
- Generator.Generator.Run: does not model the panic `time.NewTicker` raises for a non-positive message period. The model runs such a configuration on whatever events it is given.
- Prometheus: the `CounterVec`s, `Collect`/`Describe` (pkg/generator/metrics.go) and the registry are foreign-library code. The two counters are unbounded integer fields. The float64 `Add` is integer addition. The panic that a negative `Add` raises for a negative message size is not modelled.
- `math/rand`: the k-th draw is the oracle value `intn(k)`. `rand.Intn` keeps it below 23, so every sequence of in-range draws is covered. An out-of-range value never occurs; the model reads it as the last index. Seeding and the process-wide cursor are outside the model.
- `bytes.Buffer.WriteString`: in Go it never returns an error (it panics when memory runs out). The model keeps the error branch reachable through the `appendFails` oracle. The production behaviour is the oracle that never fails.
- The sink: logrus formatting, `os.Stdout` write errors (whose result is ignored anyway) and `writer.Write([]byte)` are not modelled. The core never calls `Write`, and it behaves like `WriteString`.
- Corpus.CorpusSize: states the corpus size (23). The model does not prove that each sentence is non-empty, because the solver cannot cheaply compute the lengths of the long string literals. No proof needs that fact: each piece carries its trailing space, so every iteration still appends at least one byte.
- `int(desiredSize)` truncation on 32-bit platforms: a 64-bit `int` is assumed.
- UTF-8: the corpus is modelled by its UTF-8 bytes. A cut may split a multi-byte character, as in the program.
- cmd/logging-generator/main.go: cobra/viper flag binding, the formatter setup, the signal-handling goroutine with its second-interrupt exit (concurrency), and the metrics HTTP server (network I/O). Only the check at line 42 is modelled.

## Findings

| source | as written | input that shows it | evidently intended | confidence | as-written member | corrected member |
|---|---|---|---|---|---|---|
| cmd/logging-generator/main.go:42-44 | `time.Duration(messageTotal)*messagePeriod` is multiplied in wrapping int64 arithmetic | messageTotal = 2^62, messagePeriod = 4ns, killPeriod = 1 minute: the product wraps to 0 and the configuration is accepted | reject every configuration whose exact product exceeds the kill period | medium, not executed | Validation.OverflowSlipsThrough | Validation.ValidatedRunEmitsQuota |
| cmd/logging-generator/main.go:42-44 | only a product greater than the kill period is rejected, although the message says it "must be less than" | messageTotal = 3, messagePeriod = 1s, killPeriod = 3s: accepted; the third tick and the kill timer fall due together, and when select picks the kill only 2 lines are emitted | reject a product equal to the kill period, so the quota always ends before the deadline | low, not executed | Validation.TieLosesLastLine | Validation.ValidatedRunEmitsQuota |
