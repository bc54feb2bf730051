/** The configuration check the command line makes before a generator is
    built: the message quota, sent one per message period, has to fit in the
    kill period. The check as the program writes it multiplies in Go's
    wrapping int64 arithmetic and accepts a quota that ends exactly at the
    kill deadline; the corrected check compares the exact product and asks
    for the quota to end strictly before the deadline. */
module Validation {
  import opened Common
  import opened Corpus
  import opened Passages
  import opened RunLoop

  /** 2^64, the modulus of Go's int64 arithmetic. */
  const TwoTo64: int := 0x1_0000_0000_0000_0000

  /** What the check decides: the configuration is accepted, or rejected
      because the quota cannot be sent before the kill period ends. */
  datatype Verdict = Accepted | TooLong

  /** An integer as Go's int64 arithmetic leaves it: reduced modulo 2^64
      into the int64 range. A value already in range is left alone. */
  function WrapInt64(x: int): (r: int64)
    ensures (x - r) % TwoTo64 == 0
    ensures -0x8000_0000_0000_0000 <= x < 0x8000_0000_0000_0000 ==> r == x
  {
    var m := x % TwoTo64;
    if m < 0x8000_0000_0000_0000 then m else m - TwoTo64
  }

  /** The check as written: the quota times the period, multiplied as
      time.Duration values, is compared with the kill period, and only a
      product larger than the kill period is rejected. */
  function ValidateAsWritten(c: Config): (v: Verdict)
    ensures -0x8000_0000_0000_0000 <= c.messageTotal * c.messagePeriod < 0x8000_0000_0000_0000 ==>
      (v == Accepted <==> c.messageTotal * c.messagePeriod <= c.killPeriod)
  {
    if WrapInt64(c.messageTotal * c.messagePeriod) > c.killPeriod then TooLong else Accepted
  }

  /** The corrected check: the exact product of quota and period has to be
      less than the kill period, as the check's own error message says. */
  function Validate(c: Config): Verdict
  {
    if c.messageTotal * c.messagePeriod < c.killPeriod then Accepted else TooLong
  }

  /** The lines a run with quota messageTotal can emit at most. */
  function Quota(c: Config): nat
  {
    if c.messageTotal <= 0 then 0 else c.messageTotal
  }

  /** The events of a run under ideal timing: the ticker ticks at p, 2p,
      3p, ... and the kill timer fires at the kill period K (at once when K
      is not positive). Ticks strictly before K come first; a tick due
      exactly at K ties with the kill timer, and killFirst is the choice the
      runtime's select makes between the two. Events after the kill timer
      cannot matter, since it ends the run. */
  function IdealEvents(c: Config, killFirst: bool): (events: seq<Event>)
    requires c.messagePeriod > 0
    ensures |events| == TicksBeforeKill(c, killFirst) + 1
    ensures events[|events| - 1] == Kill
    ensures forall i | 0 <= i < |events| - 1 :: events[i] == Tick
  {
    Ticks(TicksBeforeKill(c, killFirst)) + [Kill]
  }

  /** The number of multiples of p among 1, 2, ..., k: the ticks of a
      ticker with period p due no later than k. */
  function Multiples(k: int, p: int): nat
    requires p > 0
    decreases k
  {
    if k < p then 0 else 1 + Multiples(k - p, p)
  }

  /** How many ticks reach the run before the kill timer under ideal
      timing: those due strictly before K, and also the one due exactly at
      K when the select picks the tick. */
  function TicksBeforeKill(c: Config, killFirst: bool): nat
    requires c.messagePeriod > 0
  {
    if killFirst then Multiples(c.killPeriod - 1, c.messagePeriod)
    else Multiples(c.killPeriod, c.messagePeriod)
  }

  /** When t periods fit in k, at least t ticks are due by k. */
  lemma {:induction false} MultiplesAtLeast(k: int, p: int, t: nat)
    requires p > 0 && t * p <= k
    ensures Multiples(k, p) >= t
    decreases t
  {
    if t > 0 {
      assert t * p == (t - 1) * p + p;
      MultiplesAtLeast(k - p, p, t - 1);
    }
  }

  /** When t periods exceed k, fewer than t ticks are due by k. */
  lemma {:induction false} MultiplesBelow(k: int, p: int, t: nat)
    requires p > 0 && t >= 1 && k < t * p
    ensures Multiples(k, p) < t
    decreases t
  {
    if k >= p {
      assert t * p == (t - 1) * p + p;
      MultiplesBelow(k - p, p, t - 1);
    }
  }

  /** When the deadline is exactly t periods, t - 1 ticks are due strictly
      before it. */
  lemma TicksBeforeDeadline(t: int, p: int)
    requires t > 0 && p > 0
    ensures Multiples(t * p - 1, p) == t - 1
  {
    assert t * p == (t - 1) * p + p;
    MultiplesAtLeast(t * p - 1, p, t - 1);
    MultiplesBelow(t * p - 1, p, t);
  }

  /** After a run of ticks, the first event that is not a tick is the kill. */
  lemma FirstStopIsKill(n: nat)
    ensures FirstStop(Ticks(n) + [Kill]) == Some(Kill)
  {
    var events := Ticks(n) + [Kill];
    assert events[n] == Kill;
    assert forall i | 0 <= i < |events| :: events[i] != Cancel;
  }

  /** A run that is not cancelled and whose buffer never fails, given n
      ticks and then the kill timer, emits min(quota, n) lines and returns
      no error. */
  lemma IdealRun(c: Config, corpus: seq<seq<byte>>, o: Oracle, lines0: int, bytes0: int, pos: nat, n: nat)
    requires |corpus| > 0
    requires forall a | pos <= a :: !o.appendFails(a)
    ensures var f := Exec(c, corpus, o, Start(c, false, lines0, bytes0, pos), Ticks(n) + [Kill]);
      f.phase == Done(None) && f.total == (if n < Quota(c) then n else Quota(c))
  {
    var s := Start(c, false, lines0, bytes0, pos);
    if c.messageTotal <= 0 {
      DrainOutcome(c, corpus, o, s, Ticks(n) + [Kill]);
      FirstStopIsKill(n);
    } else {
      TicksThenKill(c, corpus, o, s, n);
    }
  }

  /** A configuration the corrected check accepts has its whole quota sent
      before the kill timer fires under ideal timing, whichever way the
      runtime breaks a tie, provided the buffer never fails. */
  lemma {:induction false} ValidatedRunEmitsQuota(c: Config, killFirst: bool, o: Oracle, lines0: int, bytes0: int, pos: nat)
    requires c.messagePeriod > 0 && Validate(c) == Accepted
    requires forall a | pos <= a :: !o.appendFails(a)
    ensures |Sentences()| > 0
    ensures var f := Exec(c, Sentences(), o, Start(c, false, lines0, bytes0, pos), IdealEvents(c, killFirst));
      f.phase == Done(None) && f.total == Quota(c)
  {
    CorpusSize();
    var n := TicksBeforeKill(c, killFirst);
    IdealRun(c, Sentences(), o, lines0, bytes0, pos, n);
    if c.messageTotal > 0 {
      MultiplesAtLeast(c.killPeriod - 1, c.messagePeriod, c.messageTotal);
      MultiplesAtLeast(c.killPeriod, c.messagePeriod, c.messageTotal);
    }
  }

  /** The check as written accepts a quota that ends exactly at the kill
      deadline; when the select then lets the kill timer win the tie, the
      run emits one line fewer than its quota. */
  lemma {:induction false} TieLosesLastLine(c: Config, o: Oracle, lines0: int, bytes0: int, pos: nat)
    requires c.messagePeriod > 0 && c.messageTotal > 0 && c.messageTotal * c.messagePeriod == c.killPeriod
    requires forall a | pos <= a :: !o.appendFails(a)
    ensures ValidateAsWritten(c) == Accepted && Validate(c) == TooLong
    ensures |Sentences()| > 0
    ensures var f := Exec(c, Sentences(), o, Start(c, false, lines0, bytes0, pos), IdealEvents(c, true));
      f.phase == Done(None) && f.total == c.messageTotal - 1
  {
    CorpusSize();
    TicksBeforeDeadline(c.messageTotal, c.messagePeriod);
    IdealRun(c, Sentences(), o, lines0, bytes0, pos, c.messageTotal - 1);
  }

  /** The tie of TieLosesLastLine on concrete numbers: three lines, one per
      second, with a three-second kill period. */
  lemma ThreeLinesInThreeSeconds(o: Oracle)
    requires forall a :: !o.appendFails(a)
    ensures var c := Config(3_000_000_000, 1024, 3, 1_000_000_000);
      ValidateAsWritten(c) == Accepted &&
      Exec(c, Sentences(), o, Start(c, false, 0, 0, 0), IdealEvents(c, true)).total == 2
  {
    TieLosesLastLine(Config(3_000_000_000, 1024, 3, 1_000_000_000), o, 0, 0, 0);
  }

  /** The check as written lets a configuration through whose product
      overflows int64 and wraps to zero: a quota of 2^62 lines, one every
      four nanoseconds, with a one-minute kill period. The exact product is
      far beyond the kill period, and an ideal run is killed long before its
      quota is sent. */
  lemma OverflowSlipsThrough(o: Oracle)
    requires forall a :: !o.appendFails(a)
    ensures var c := Config(60_000_000_000, 1024, 0x4000_0000_0000_0000, 4);
      ValidateAsWritten(c) == Accepted && Validate(c) == TooLong &&
      c.messageTotal * c.messagePeriod > c.killPeriod &&
      Exec(c, Sentences(), o, Start(c, false, 0, 0, 0), IdealEvents(c, true)).total < c.messageTotal
  {
    var c := Config(60_000_000_000, 1024, 0x4000_0000_0000_0000, 4);
    assert c.messageTotal * c.messagePeriod == TwoTo64;
    MultiplesBelow(c.killPeriod - 1, c.messagePeriod, c.messageTotal);
    CorpusSize();
    IdealRun(c, Sentences(), o, 0, 0, 0, TicksBeforeKill(c, true));
  }

  /** Four lines ten seconds apart do not fit in thirty seconds: both checks
      reject the configuration. */
  lemma FourTimesTenExceedsThirty()
    ensures var c := Config(30_000_000_000, 1024, 4, 10_000_000_000);
      ValidateAsWritten(c) == TooLong && Validate(c) == TooLong
  {
  }

  /** The two checks differ only where the product overflows int64 or ends
      exactly at the kill deadline; everywhere else they agree. */
  lemma {:induction false} ChecksAgreeElsewhere(c: Config)
    requires -0x8000_0000_0000_0000 <= c.messageTotal * c.messagePeriod < 0x8000_0000_0000_0000
    requires c.messageTotal * c.messagePeriod != c.killPeriod
    ensures ValidateAsWritten(c) == Validate(c)
  {
  }
}
