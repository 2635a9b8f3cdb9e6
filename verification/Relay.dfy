/** The bidirectional relay's activity tracker and idle watchdog (src/proxy/relay.rs). Time is in nanoseconds since the
    relay started; the tracker keeps whole milliseconds (1_000_000 ns), as the source does.

    A run interleaves passing time, reads and writes that moved data, and the watchdog's own steps: loading the last
    activity to arm itself, and waking at or after the deadline to compare. */
module Relay {
  import opened Bytes

  datatype Side = A | B

  /** How a relay ends; a failed copy reports an error and no counts. */
  datatype RelayEnd = Completed | IdleTimeout | Cancelled | Failed

  datatype Watchdog = Loading | Sleeping(armedAtMs: nat)

  /** `active` is the instant of the last touch, to the nanosecond; the tracker itself only has `lastActivityMs`. */
  datatype State = State(
    clock: nat,
    lastActivityMs: nat,
    aToB: nat,
    bToA: nat,
    watchdog: Watchdog,
    end: Option<RelayEnd>,
    active: nat)

  const START := State(0, 0, 0, 0, Loading, None, 0)

  datatype Event = Wait(d: nat) | Read(side: Side, n: nat) | Write(n: nat) | Load | Wake | CopyDone(ok: bool) | Cancel

  function Touch(s: State): State { s.(lastActivityMs := s.clock / 1_000_000, active := s.clock) }

  function Deadline(idleTimeout: nat, armedAtMs: nat): nat { armedAtMs * 1_000_000 + idleTimeout }

  /** Once the relay has ended nothing moves any more. */
  function Step(idleTimeout: nat, s: State, e: Event): State {
    if s.end.Some? then s
    else
      match e
      case Wait(d) => s.(clock := s.clock + d)
      case Read(side, n) =>
        if n == 0 then s
        else if side == A then Touch(s.(aToB := s.aToB + n))
        else Touch(s.(bToA := s.bToA + n))
      case Write(n) => if n == 0 then s else Touch(s)
      case Load => if s.watchdog.Loading? then s.(watchdog := Sleeping(s.lastActivityMs)) else s
      case Wake =>
        if s.watchdog.Sleeping? && s.clock >= Deadline(idleTimeout, s.watchdog.armedAtMs) then
          if s.lastActivityMs == s.watchdog.armedAtMs then s.(end := Some(IdleTimeout)) else s.(watchdog := Loading)
        else s
      case CopyDone(ok) => s.(end := Some(if ok then Completed else Failed))
      case Cancel => s.(end := Some(Cancelled))
  }

  function Run(idleTimeout: nat, h: seq<Event>): State {
    if h == [] then START else Step(idleTimeout, Run(idleTimeout, h[..|h| - 1]), h[|h| - 1])
  }

  lemma RunAppend(t: nat, h: seq<Event>, e: Event)
    ensures Run(t, h + [e]) == Step(t, Run(t, h), e)
  {
    assert (h + [e])[..|h|] == h;
  }

  lemma Replay(t: nat, h: seq<Event>, e: Event, before: State, after: State)
    requires Run(t, h) == before && Step(t, before, e) == after
    ensures Run(t, h + [e]) == after
  {
    RunAppend(t, h, e);
  }

  // ---- Byte counts ----

  /** Bytes read from one side before the relay ended. */
  ghost function BytesRead(t: nat, h: seq<Event>, side: Side): nat {
    if h == [] then 0
    else
      var last, before := h[|h| - 1], h[..|h| - 1];
      BytesRead(t, before, side) + if last.Read? && last.side == side && Run(t, before).end.None? then last.n else 0
  }

  /** However the relay ends, the counts to report are the bytes each side gave. */
  lemma {:induction false} CountsAreBytesRead(t: nat, h: seq<Event>)
    ensures Run(t, h).aToB == BytesRead(t, h, A) && Run(t, h).bToA == BytesRead(t, h, B)
  {
    if h == [] {
    } else {
      CountsAreBytesRead(t, h[..|h| - 1]);
    }
  }

  // ---- What the events say ----

  /** The time on the clock: all waiting before the relay ended. */
  ghost function Now(t: nat, h: seq<Event>): nat {
    if h == [] then 0
    else
      var last, before := h[|h| - 1], h[..|h| - 1];
      Now(t, before) + if last.Wait? && Run(t, before).end.None? then last.d else 0
  }

  /** When data last moved: the time of the last read or write of at least one byte before the relay ended. */
  ghost function LastMoved(t: nat, h: seq<Event>): nat {
    if h == [] then 0
    else
      var last, before := h[|h| - 1], h[..|h| - 1];
      if Run(t, before).end.None? && (last.Read? || last.Write?) && last.n > 0 then Now(t, before)
      else LastMoved(t, before)
  }

  /** Time without data, up to now or to the end. */
  ghost function Idle(t: nat, h: seq<Event>): int { Now(t, h) - LastMoved(t, h) }

  /** What the sub-millisecond part of the last movement is, which the tracker does not keep. */
  ghost function Truncated(t: nat, h: seq<Event>): nat { LastMoved(t, h) % 1_000_000 }

  /** The clock and the last touch are what the events say. */
  lemma {:induction false} RunFollowsEvents(t: nat, h: seq<Event>)
    ensures Run(t, h).clock == Now(t, h) && Run(t, h).active == LastMoved(t, h)
  {
    if h == [] {
    } else {
      RunFollowsEvents(t, h[..|h| - 1]);
    }
  }

  /** A relay that goes on ends with the event that ends it, as that event says: when the copy is over, on
      cancellation, or at a wake-up of the watchdog. Once it has ended nothing changes any more. */
  lemma EndIsItsCause(t: nat, h: seq<Event>, e: Event)
    ensures var before, after := Run(t, h).end, Run(t, h + [e]).end;
            && (before.Some? ==> Run(t, h + [e]) == Run(t, h))
            && (before.None? ==>
                  && (after == Some(Completed) <==> e == CopyDone(true))
                  && (after == Some(Failed) <==> e == CopyDone(false))
                  && (after == Some(Cancelled) <==> e == Cancel)
                  && (after == Some(IdleTimeout) ==> e == Wake))
  {
    RunAppend(t, h, e);
  }

  // ---- Idleness ----

  ghost predicate Consistent(t: nat, s: State) {
    && s.lastActivityMs == s.active / 1_000_000 && s.active <= s.clock
    && (s.watchdog.Sleeping? ==> s.watchdog.armedAtMs <= s.lastActivityMs)
    && (s.end == Some(IdleTimeout) ==> s.clock >= Deadline(t, s.lastActivityMs))
  }

  lemma ConsistentStep(t: nat, s: State, e: Event)
    requires Consistent(t, s)
    ensures Consistent(t, Step(t, s, e))
  {
    FloorMonotone(s.active, s.clock);
  }

  lemma {:induction false} RunConsistent(t: nat, h: seq<Event>)
    ensures Consistent(t, Run(t, h))
  {
    if h == [] {
    } else {
      RunConsistent(t, h[..|h| - 1]);
      ConsistentStep(t, Run(t, h[..|h| - 1]), h[|h| - 1]);
    }
  }

  lemma FloorMonotone(a: nat, b: nat)
    requires a <= b
    ensures a / 1_000_000 <= b / 1_000_000
  {
  }

  /** The watchdog ends a relay only when no data moved for `idleTimeout` less the sub-millisecond part of the last
      activity: for the full `idleTimeout` when activity falls on whole milliseconds, and never short by a whole one. */
  lemma EndsOnlyWhenIdle(t: nat, h: seq<Event>)
    ensures Run(t, h).end == Some(IdleTimeout) ==>
              && Idle(t, h) >= t - Truncated(t, h) > t - 1_000_000
              && (Truncated(t, h) == 0 ==> Idle(t, h) >= t)
  {
    RunConsistent(t, h);
    RunFollowsEvents(t, h);
  }

  ghost predicate Busy(t: nat, h: seq<Event>) {
    forall n :: 0 <= n < |h| && h[n].Wake? ==> Idle(t, h[..n]) < t - Truncated(t, h[..n])
  }

  lemma BusyPrefix(t: nat, h: seq<Event>, n: nat)
    requires Busy(t, h) && n <= |h|
    ensures Busy(t, h[..n])
  {
    forall k | 0 <= k < n && h[..n][k].Wake? ensures Idle(t, h[..n][..k]) < t - Truncated(t, h[..n][..k]) {
      assert h[..n][..k] == h[..k];
    }
  }

  lemma BusyStep(t: nat, s: State, e: Event)
    requires Consistent(t, s) && s.end != Some(IdleTimeout)
    requires e.Wake? ==> s.clock - s.active < t - s.active % 1_000_000
    ensures Step(t, s, e).end != Some(IdleTimeout)
  {
  }

  /** A relay whose gaps in activity, measured from the millisecond the activity fell in, stay below `idleTimeout` at
      every wake-up is never ended by the watchdog. */
  lemma {:induction false} BusyRelayIsNeverEnded(t: nat, h: seq<Event>)
    requires Busy(t, h)
    ensures Run(t, h).end != Some(IdleTimeout)
  {
    if h == [] {
    } else {
      var n := |h| - 1;
      BusyPrefix(t, h, n);
      BusyRelayIsNeverEnded(t, h[..n]);
      RunConsistent(t, h[..n]);
      RunFollowsEvents(t, h[..n]);
      BusyStep(t, Run(t, h[..n]), h[n]);
    }
  }

  // ---- Prompt wake-ups ----

  /** Time passes only while the watchdog sleeps, and not beyond its deadline: it is woken on time. */
  ghost predicate Prompt(t: nat, h: seq<Event>) {
    forall n :: 0 <= n < |h| && h[n].Wait? ==> PromptWait(t, Run(t, h[..n]), h[n].d)
  }

  ghost predicate PromptWait(t: nat, s: State, d: nat) {
    s.end.None? && d > 0 ==> s.watchdog.Sleeping? && s.clock + d <= Deadline(t, s.watchdog.armedAtMs)
  }

  ghost predicate OnTime(t: nat, s: State) {
    && (s.end.None? && s.watchdog.Sleeping? ==> s.clock <= Deadline(t, s.watchdog.armedAtMs))
    && (s.end.None? && s.watchdog.Loading? ==> s.clock <= Deadline(t, s.lastActivityMs))
    && (s.end == Some(IdleTimeout) ==> s.clock == Deadline(t, s.lastActivityMs))
  }

  lemma OnTimeStep(t: nat, s: State, e: Event)
    requires Consistent(t, s) && OnTime(t, s) && (e.Wait? ==> PromptWait(t, s, e.d))
    ensures OnTime(t, Step(t, s, e))
  {
    FloorMonotone(s.active, s.clock);
  }

  lemma PromptPrefix(t: nat, h: seq<Event>, n: nat)
    requires Prompt(t, h) && n <= |h|
    ensures Prompt(t, h[..n])
  {
    forall k | 0 <= k < n && h[..n][k].Wait? ensures PromptWait(t, Run(t, h[..n][..k]), h[..n][k].d) {
      assert h[..n][..k] == h[..k];
    }
  }

  lemma {:induction false} PromptRunOnTime(t: nat, h: seq<Event>)
    requires Prompt(t, h)
    ensures OnTime(t, Run(t, h))
  {
    if h == [] {
    } else {
      var n := |h| - 1;
      PromptPrefix(t, h, n);
      PromptRunOnTime(t, h[..n]);
      RunConsistent(t, h[..n]);
      OnTimeStep(t, Run(t, h[..n]), h[n]);
    }
  }

  /** With prompt wake-ups the watchdog fires exactly `idleTimeout` after the millisecond of the last activity, through
      any number of re-arms. The relay was then idle for the full `idleTimeout` if and only if that activity fell on a
      whole millisecond. */
  lemma PromptWatchdogFiresExactly(t: nat, h: seq<Event>)
    requires Prompt(t, h) && Run(t, h).end == Some(IdleTimeout)
    ensures Now(t, h) == LastMoved(t, h) / 1_000_000 * 1_000_000 + t
    ensures Idle(t, h) == t - Truncated(t, h)
    ensures Idle(t, h) >= t <==> Truncated(t, h) == 0
  {
    PromptRunOnTime(t, h);
    RunConsistent(t, h);
    RunFollowsEvents(t, h);
  }

  /** A watchdog that is loading, or armed with the last activity, fires at the deadline of the last activity. */
  lemma FiresAtDeadline(t: nat, h: seq<Event>, s: State) returns (rest: seq<Event>)
    requires Run(t, h) == s && s.end.None? && s.clock <= Deadline(t, s.lastActivityMs)
    requires s.watchdog.Loading? || s.watchdog == Sleeping(s.lastActivityMs)
    ensures forall i :: 0 <= i < |rest| ==> rest[i].Wait? || rest[i].Load? || rest[i].Wake?
    ensures Run(t, h + rest).end == Some(IdleTimeout)
    ensures Run(t, h + rest).clock == Deadline(t, s.lastActivityMs)
  {
    var deadline := Deadline(t, s.lastActivityMs);
    var due := deadline - s.clock;
    var armed := s.(watchdog := Sleeping(s.lastActivityMs));
    var waited := armed.(clock := deadline);
    Replay(t, h, Load, s, armed);
    Replay(t, h + [Load], Wait(due), armed, waited);
    Replay(t, h + [Load] + [Wait(due)], Wake, waited, waited.(end := Some(IdleTimeout)));
    rest := [Load] + [Wait(due)] + [Wake];
    assert h + rest == h + [Load] + [Wait(due)] + [Wake];
  }

  /** A watchdog armed with an earlier activity goes back to loading at the deadline of that one. */
  lemma ReloadsAtStaleDeadline(t: nat, h: seq<Event>, s: State) returns (rest: seq<Event>)
    requires Run(t, h) == s && s.end.None? && s.watchdog.Sleeping?
    requires s.watchdog.armedAtMs != s.lastActivityMs && s.clock <= Deadline(t, s.watchdog.armedAtMs)
    ensures forall i :: 0 <= i < |rest| ==> rest[i].Wait? || rest[i].Load? || rest[i].Wake?
    ensures Run(t, h + rest) == s.(clock := Deadline(t, s.watchdog.armedAtMs), watchdog := Loading)
  {
    var deadline := Deadline(t, s.watchdog.armedAtMs);
    var waited := s.(clock := deadline);
    Replay(t, h, Wait(deadline - s.clock), s, waited);
    Replay(t, h + [Wait(deadline - s.clock)], Wake, waited, waited.(watchdog := Loading));
    rest := [Wait(deadline - s.clock)] + [Wake];
    assert h + rest == h + [Wait(deadline - s.clock)] + [Wake];
  }

  /** From any point of a prompt run, if no more data moves, the watchdog does fire, at that very instant. */
  lemma QuietRelayIsEnded(t: nat, h: seq<Event>) returns (rest: seq<Event>)
    requires Prompt(t, h) && Run(t, h).end.None?
    ensures forall i :: 0 <= i < |rest| ==> rest[i].Wait? || rest[i].Load? || rest[i].Wake?
    ensures Run(t, h + rest).end == Some(IdleTimeout)
    ensures Now(t, h + rest) == LastMoved(t, h) / 1_000_000 * 1_000_000 + t
  {
    PromptRunOnTime(t, h);
    RunConsistent(t, h);
    RunFollowsEvents(t, h);
    var s := Run(t, h);
    if s.watchdog.Sleeping? && s.watchdog.armedAtMs != s.lastActivityMs {
      var first := ReloadsAtStaleDeadline(t, h, s);
      var second := FiresAtDeadline(t, h + first, s.(clock := Deadline(t, s.watchdog.armedAtMs), watchdog := Loading));
      rest := first + second;
      assert h + rest == h + first + second;
    } else {
      rest := FiresAtDeadline(t, h, s);
    }
    RunFollowsEvents(t, h + rest);
  }

  /** The tracker's truncation shows for every timeout of a millisecond or more: with data moved 0.999999 ms in, the
      relay is ended after that much less than the timeout without data. */
  lemma TruncationShortensTheTimeout(t: nat) returns (h: seq<Event>, s: State)
    requires t >= 1_000_000
    ensures s == Run(t, h) && s.end == Some(IdleTimeout) && Idle(t, h) == t - 999_999 < t
  {
    var armed := START.(watchdog := Sleeping(0));
    var early := armed.(clock := 999_999);
    var touched := early.(aToB := 1, active := 999_999);
    var late := touched.(clock := t);
    s := late.(end := Some(IdleTimeout));
    h := [];
    Replay(t, h, Load, START, armed);
    h := h + [Load];
    Replay(t, h, Wait(999_999), armed, early);
    h := h + [Wait(999_999)];
    Replay(t, h, Read(A, 1), early, touched);
    h := h + [Read(A, 1)];
    Replay(t, h, Wait(t - 999_999), touched, late);
    h := h + [Wait(t - 999_999)];
    Replay(t, h, Wake, late, s);
    h := h + [Wake];
    RunFollowsEvents(t, h);
  }

  // ---- The tracker ----

  /** The progress record the two wrapped streams and the watchdog share. */
  class ActivityTracker {
    var lastActivityMs: nat
    var aToB: nat
    var bToA: nat

    ghost predicate Represents(s: State)
      reads this
    {
      lastActivityMs == s.lastActivityMs && aToB == s.aToB && bToA == s.bToA
    }

    constructor ()
      ensures Represents(START)
    {
      lastActivityMs, aToB, bToA := 0, 0, 0;
    }

    method Touch(elapsedNs: nat)
      modifies this`lastActivityMs
      ensures lastActivityMs == elapsedNs / 1_000_000
    {
      lastActivityMs := elapsedNs / 1_000_000;
    }

    /** A read of n bytes from one side came back. */
    method PollRead(t: nat, side: Side, n: nat, ghost s: State, now: nat)
      requires Represents(s) && s.end.None? && now == s.clock
      modifies this
      ensures Represents(Step(t, s, Read(side, n)))
    {
      if n > 0 {
        if side == A {
          aToB := aToB + n;
        } else {
          bToA := bToA + n;
        }
        Touch(now);
      }
    }

    /** A write of n bytes, plain or vectored, came back. */
    method PollWrite(t: nat, n: nat, ghost s: State, now: nat)
      requires Represents(s) && s.end.None? && now == s.clock
      modifies this
      ensures Represents(Step(t, s, Write(n)))
    {
      if n > 0 {
        Touch(now);
      }
    }

    /** The watchdog arms itself: the deadline it will sleep to. */
    method Arm(t: nat, ghost s: State) returns (armedAtMs: nat, deadline: nat)
      requires Represents(s) && s.end.None? && s.watchdog.Loading?
      ensures Step(t, s, Load).watchdog == Sleeping(armedAtMs) && deadline == Deadline(t, armedAtMs)
    {
      armedAtMs := lastActivityMs;
      deadline := armedAtMs * 1_000_000 + t;
    }

    /** The watchdog wakes at or after its deadline: either it fires or it goes round again. */
    method AfterSleep(t: nat, armedAtMs: nat, ghost s: State) returns (fires: bool)
      requires Represents(s) && s.end.None? && s.watchdog == Sleeping(armedAtMs) && s.clock >= Deadline(t, armedAtMs)
      ensures Step(t, s, Wake).end == if fires then Some(IdleTimeout) else None
      ensures !fires ==> Step(t, s, Wake).watchdog == Loading
    {
      fires := lastActivityMs == armedAtMs;
    }
  }
}
