/** Per-backend circuit breakers (src/circuit.rs): closed, open and half-open, with a consecutive-failure counter,
    an in-flight probe counter and RAII guards that give a probe slot back when dropped.

    Each public operation and each guard drop is one atomic step on one breaker. Runs of steps carry what the
    breaker itself does not record: the history, the clock, and for every live guard the half-open period it was
    issued in. */
module CircuitBreaker {
  import opened Bytes

  type NonZeroU32 = x: int | 0 < x < U32_SIZE witness 1

  datatype CircuitState = Closed | Open | HalfOpen

  datatype Config = Config(threshold: NonZeroU32, recovery: nat, maxProbes: NonZeroU32)

  datatype Breaker = Breaker(state: CircuitState, failures: U32, inflight: U32, openedAt: Option<nat>)

  const FRESH := Breaker(Closed, 0, 0, None)

  /** What a check hands back: the state it reports, and whether a guard comes with it. */
  datatype Verdict = Verdict(state: CircuitState, guarded: bool)

  predicate Admits(v: Verdict) { v.state != Open }

  function WrapAdd(x: U32): U32 { if x == U32_SIZE - 1 then 0 else x + 1 }

  function WrapSub(x: U32): U32 { if x == 0 then U32_SIZE - 1 else x - 1 }

  predicate Recovered(c: Config, b: Breaker, now: nat) {
    b.openedAt.Some? && Elapsed(b.openedAt.value, now) >= c.recovery
  }

  function CheckStep(c: Config, b: Breaker, now: nat): (Breaker, Verdict) {
    match b.state
    case Closed => (b, Verdict(Closed, false))
    case Open =>
      if Recovered(c, b, now) then (b.(state := HalfOpen, inflight := 1), Verdict(HalfOpen, true))
      else (b, Verdict(Open, false))
    case HalfOpen =>
      var added := b.(inflight := WrapAdd(b.inflight));
      if b.inflight >= c.maxProbes then (added.(inflight := WrapSub(added.inflight)), Verdict(Open, false))
      else (added, Verdict(HalfOpen, true))
  }

  function SuccessStep(b: Breaker): Breaker {
    match b.state
    case HalfOpen => Breaker(Closed, 0, 0, None)
    case Closed => b.(failures := 0)
    case Open => b
  }

  function FailureStep(c: Config, b: Breaker, now: nat): Breaker {
    match b.state
    case Closed =>
      var counted := b.(failures := WrapAdd(b.failures));
      if b.failures + 1 >= c.threshold then counted.(state := Open, openedAt := Some(now)) else counted
    case HalfOpen => b.(inflight := 0, state := Open, openedAt := Some(now))
    case Open => b
  }

  function DropStep(b: Breaker): Breaker {
    if b.state == HalfOpen then b.(inflight := WrapSub(b.inflight)) else b
  }

  // ---- Runs ----

  datatype Event =
    | Wait(d: nat)
    | Request
    | RecordSuccess
    | RecordFailure
    | Release(guard: nat)

  /** A breaker together with the clock, the half-open period number, the period of each live guard, and how many
      guards of earlier periods were dropped in the current half-open period. */
  datatype World = World(b: Breaker, clock: nat, period: nat, live: seq<nat>, stale: nat)

  const START := World(FRESH, 0, 0, [], 0)

  function Step(c: Config, w: World, e: Event): World {
    match e
    case Wait(d) => w.(clock := w.clock + d)
    case Request =>
      var (b, v) := CheckStep(c, w.b, w.clock);
      var probing := w.b.state == Open && b.state == HalfOpen;
      var period := if probing then w.period + 1 else w.period;
      World(b, w.clock, period, if v.guarded then w.live + [period] else w.live, if probing then 0 else w.stale)
    case RecordSuccess => w.(b := SuccessStep(w.b))
    case RecordFailure => w.(b := FailureStep(c, w.b, w.clock))
    case Release(g) =>
      if g < |w.live| then
        w.(b := DropStep(w.b),
           live := w.live[..g] + w.live[g + 1..],
           stale := if w.b.state == HalfOpen && w.live[g] != w.period then w.stale + 1 else w.stale)
      else w
  }

  function Run(c: Config, h: seq<Event>): World {
    if h == [] then START else Step(c, Run(c, h[..|h| - 1]), h[|h| - 1])
  }

  /** Live guards of period p. */
  function Issued(live: seq<nat>, p: nat): nat {
    if live == [] then 0 else Issued(live[..|live| - 1], p) + if live[|live| - 1] == p then 1 else 0
  }

  // ---- The history the breaker stands for ----

  /** Failures recorded since the last recorded success. */
  ghost function FailureStreak(h: seq<Event>): nat {
    if h == [] || h[|h| - 1].RecordSuccess? then 0
    else FailureStreak(h[..|h| - 1]) + if h[|h| - 1].RecordFailure? then 1 else 0
  }

  /** When the breaker last went from another state to Open. */
  ghost function LastOpening(c: Config, h: seq<Event>): nat {
    if h == [] then 0
    else
      var before, after := Run(c, h[..|h| - 1]), Run(c, h);
      if before.b.state != Open && after.b.state == Open then after.clock else LastOpening(c, h[..|h| - 1])
  }

  /** Everything the four fields mean, as facts about the history. */
  ghost predicate Meaning(c: Config, h: seq<Event>, w: World) {
    && (w.b.state == Closed ==> w.b.failures == FailureStreak(h) < c.threshold && w.b.openedAt == None)
    && (w.b.state != Closed ==>
          w.b.failures == c.threshold && w.b.openedAt == Some(LastOpening(c, h)) && LastOpening(c, h) <= w.clock)
    && (w.b.state == HalfOpen ==> w.clock - LastOpening(c, h) >= c.recovery)
    && (w.b.state != HalfOpen ==> w.b.inflight == 0)
  }

  /** On every run the fields are exactly the history's failure streak and opening time. */
  lemma {:induction false} RunMeaning(c: Config, h: seq<Event>)
    ensures Meaning(c, h, Run(c, h))
  {
    if h == [] {
    } else {
      RunMeaning(c, h[..|h| - 1]);
      assert Run(c, h) == Step(c, Run(c, h[..|h| - 1]), h[|h| - 1]);
    }
  }

  /** On every run a request is admitted exactly when the breaker is closed, or open for `recovery` or longer, or
      half-open with fewer than `maxProbes` probes on the counter. */
  lemma AdmitsExactly(c: Config, h: seq<Event>)
    ensures var w := Run(c, h);
            Admits(CheckStep(c, w.b, w.clock).1)
            <==> || w.b.state == Closed
                 || (w.b.state == Open && w.clock - LastOpening(c, h) >= c.recovery)
                 || (w.b.state == HalfOpen && w.b.inflight < c.maxProbes)
  {
    RunMeaning(c, h);
  }

  /** What a request is told: a refused one that the circuit is open; an admitted one the state it leaves behind, with a
      guard exactly if that is half-open. */
  lemma VerdictTellsTheState(c: Config, b: Breaker, now: nat)
    ensures var (after, v) := CheckStep(c, b, now);
            && (Admits(v) ==> v.state == after.state && (v.guarded <==> after.state == HalfOpen))
            && (!Admits(v) ==> v == Verdict(Open, false) && after == b)
  {
  }

  /** How the state moves on every run: Closed to Open with the failure that completes a streak of `threshold`, Open to
      HalfOpen with the first request once `recovery` has passed, HalfOpen to Closed with a success and to Open with a
      failure; and nothing else moves it. */
  lemma StateMoves(c: Config, h: seq<Event>, e: Event)
    ensures var w, next := Run(c, h), Run(c, h + [e]).b.state;
            match w.b.state
            case Closed => next == if e.RecordFailure? && FailureStreak(h) + 1 == c.threshold then Open else Closed
            case Open => next == if e.Request? && w.clock - LastOpening(c, h) >= c.recovery then HalfOpen else Open
            case HalfOpen => next == if e.RecordSuccess? then Closed else if e.RecordFailure? then Open else HalfOpen
  {
    RunMeaning(c, h);
    RunAppend(c, h, e);
  }

  ghost function Now(h: seq<Event>): nat {
    if h == [] then 0 else Now(h[..|h| - 1]) + if h[|h| - 1].Wait? then h[|h| - 1].d else 0
  }

  lemma {:induction false} ClockIsNow(c: Config, h: seq<Event>)
    ensures Run(c, h).clock == Now(h)
  {
    if h == [] {
    } else {
      ClockIsNow(c, h[..|h| - 1]);
    }
  }

  /** A closed breaker opens on exactly the failure that completes a streak of `threshold`. */
  lemma OpensExactlyAtThreshold(c: Config, h: seq<Event>, e: Event)
    requires Run(c, h).b.state == Closed
    ensures Run(c, h + [e]).b.state == Open <==> e.RecordFailure? && FailureStreak(h + [e]) == c.threshold
    ensures Run(c, h + [e]).b.state != Open ==> Run(c, h + [e]).b.state == Closed
  {
    RunMeaning(c, h);
    assert (h + [e])[..|h|] == h;
  }

  /** The failure counter never wraps: a counted failure always adds exactly one. */
  lemma {:induction false} FailureCountNeverWraps(c: Config, h: seq<Event>)
    ensures var w, v := Run(c, h), Run(c, h + [RecordFailure]);
            w.b.state == Closed ==> v.b.failures == w.b.failures + 1 <= c.threshold
  {
    RunMeaning(c, h);
    assert (h + [RecordFailure])[..|h|] == h;
  }

  /** A request is admitted only by a closed breaker or once `recovery` has passed since the last opening. */
  lemma NothingAdmittedBeforeRecovery(c: Config, h: seq<Event>)
    ensures var w := Run(c, h);
            Admits(CheckStep(c, w.b, w.clock).1) ==> w.b.state == Closed || w.clock - LastOpening(c, h) >= c.recovery
  {
    RunMeaning(c, h);
  }

  /** An open breaker admits the next request as a probe exactly when `recovery` has passed since it opened, so
      waiting that long always lets it leave Open; a recorded outcome always settles a half-open one. */
  lemma OpenCanAlwaysLeave(c: Config, h: seq<Event>)
    requires Run(c, h).b.state == Open
    ensures var w := Run(c, h);
            CheckStep(c, w.b, w.clock).1 == Verdict(HalfOpen, true) <==> w.clock >= LastOpening(c, h) + c.recovery
    ensures Run(c, h + [Wait(c.recovery), Request]).b.state == HalfOpen
    ensures Run(c, h + [Wait(c.recovery), Request, RecordSuccess]).b == FRESH
  {
    RunMeaning(c, h);
    RunAppend(c, h, Wait(c.recovery));
    RunAppend(c, h + [Wait(c.recovery)], Request);
    RunAppend(c, h + [Wait(c.recovery), Request], RecordSuccess);
    assert h + [Wait(c.recovery)] + [Request] == h + [Wait(c.recovery), Request];
    assert h + [Wait(c.recovery), Request] + [RecordSuccess] == h + [Wait(c.recovery), Request, RecordSuccess];
  }

  lemma RunAppend(c: Config, h: seq<Event>, e: Event)
    ensures Run(c, h + [e]) == Step(c, Run(c, h), e)
  {
    assert (h + [e])[..|h|] == h;
  }

  // ---- The probe count ----

  lemma {:induction false} IssuedSplit(a: seq<nat>, b: seq<nat>, p: nat)
    ensures Issued(a + b, p) == Issued(a, p) + Issued(b, p)
  {
    if b == [] {
      assert a + b == a;
    } else {
      IssuedSplit(a, b[..|b| - 1], p);
      assert (a + b)[..|a + b| - 1] == a + b[..|b| - 1];
    }
  }

  lemma IssuedRemove(live: seq<nat>, g: nat, p: nat)
    requires g < |live|
    ensures Issued(live[..g] + live[g + 1..], p) == Issued(live, p) - if live[g] == p then 1 else 0
  {
    assert live == live[..g] + [live[g]] + live[g + 1..];
    IssuedPush(live[..g], live[g], p);
    IssuedSplit(live[..g] + [live[g]], live[g + 1..], p);
    IssuedSplit(live[..g], live[g + 1..], p);
  }

  lemma {:induction false} IssuedNone(live: seq<nat>, p: nat)
    requires forall i :: 0 <= i < |live| ==> live[i] != p
    ensures Issued(live, p) == 0
  {
    if live == [] {
    } else {
      IssuedNone(live[..|live| - 1], p);
    }
  }

  lemma IssuedPush(live: seq<nat>, q: nat, p: nat)
    ensures Issued(live + [q], p) == Issued(live, p) + if q == p then 1 else 0
  {
    assert (live + [q])[..|live|] == live;
  }

  /** The 32-bit counter shows n guards issued less the stale drops; the guards exceed the limit by no more than
      those. */
  ghost predicate Shows(shown: U32, n: nat, stale: nat, limit: NonZeroU32) {
    shown == (n - stale) % U32_SIZE && n <= limit + stale
  }

  lemma ShowsOneMore(shown: U32, n: nat, stale: nat, limit: NonZeroU32)
    requires Shows(shown, n, stale, limit) && shown < limit
    ensures Shows(shown + 1, n + 1, stale, limit)
  {
  }

  lemma ShowsOneLess(shown: U32, n: nat, stale: nat, limit: NonZeroU32)
    requires Shows(shown, n, stale, limit)
    ensures n > 0 ==> Shows(WrapSub(shown), n - 1, stale, limit)
    ensures Shows(WrapSub(shown), n, stale + 1, limit)
  {
  }

  lemma ShowsExactlyIff(shown: U32, n: nat, stale: nat, limit: NonZeroU32)
    requires Shows(shown, n, stale, limit)
    ensures shown == n <==> stale % U32_SIZE == 0 && n < U32_SIZE
    ensures stale == 0 ==> shown == n <= limit
  {
  }

  /** While half-open the counter shows the live guards of this period less the guards of earlier periods dropped during
      it. */
  ghost predicate Accounted(c: Config, w: World) {
    && (forall i :: 0 <= i < |w.live| ==> w.live[i] <= w.period)
    && (w.b.state == HalfOpen ==> Shows(w.b.inflight, Issued(w.live, w.period), w.stale, c.maxProbes))
  }

  lemma AccountedProbe(c: Config, w: World)
    requires Accounted(c, w) && w.b.state == HalfOpen && w.b.inflight < c.maxProbes
    ensures Accounted(c, w.(b := w.b.(inflight := w.b.inflight + 1), live := w.live + [w.period]))
  {
    IssuedPush(w.live, w.period, w.period);
    ShowsOneMore(w.b.inflight, Issued(w.live, w.period), w.stale, c.maxProbes);
  }

  lemma AccountedFirstProbe(c: Config, w: World)
    requires Accounted(c, w)
    ensures var p := w.period + 1;
            Accounted(c, World(w.b.(state := HalfOpen, inflight := 1), w.clock, p, w.live + [p], 0))
  {
    IssuedPush(w.live, w.period + 1, w.period + 1);
    IssuedNone(w.live, w.period + 1);
  }

  lemma AccountedRequest(c: Config, w: World)
    requires Accounted(c, w)
    ensures Accounted(c, Step(c, w, Request))
  {
    var v := Step(c, w, Request);
    if w.b.state == HalfOpen && w.b.inflight < c.maxProbes {
      AccountedProbe(c, w);
      assert v == w.(b := w.b.(inflight := w.b.inflight + 1), live := w.live + [w.period]);
    } else if w.b.state == Open && v.b.state == HalfOpen {
      AccountedFirstProbe(c, w);
    } else {
      RefusedRequestChangesNothing(c, w);
    }
  }

  lemma RefusedRequestChangesNothing(c: Config, w: World)
    requires !CheckStep(c, w.b, w.clock).1.guarded
    ensures Step(c, w, Request) == w
  {
  }

  lemma AccountedRelease(c: Config, w: World, g: nat)
    requires Accounted(c, w) && g < |w.live|
    ensures Accounted(c, Step(c, w, Release(g)))
  {
    IssuedRemove(w.live, g, w.period);
    if w.b.state == HalfOpen {
      ShowsOneLess(w.b.inflight, Issued(w.live, w.period), w.stale, c.maxProbes);
    }
  }

  lemma AccountedStep(c: Config, w: World, e: Event)
    requires Accounted(c, w)
    ensures Accounted(c, Step(c, w, e))
  {
    if e.Request? {
      AccountedRequest(c, w);
    } else if e.Release? && e.guard < |w.live| {
      AccountedRelease(c, w, e.guard);
    }
  }

  /** The exact accounting law of every run. */
  lemma {:induction false} RunAccounted(c: Config, h: seq<Event>)
    ensures Accounted(c, Run(c, h))
  {
    if h == [] {
    } else {
      RunAccounted(c, h[..|h| - 1]);
      AccountedStep(c, Run(c, h[..|h| - 1]), h[|h| - 1]);
    }
  }

  /** The counter is the number of live probes of this half-open period if and only if no guard of an earlier period was
      dropped during it (or a multiple of 2^32 of them, with fewer than 2^32 probes live). Without such a drop the count
      is within `maxProbes`, dropping a guard of this period does not underflow it, and a request is admitted exactly
      when fewer than `maxProbes` probes are in flight. */
  lemma ProbeCountExactIffNoStaleDrop(c: Config, h: seq<Event>)
    requires Run(c, h).b.state == HalfOpen
    ensures var w := Run(c, h);
            w.b.inflight == Issued(w.live, w.period) <==> w.stale % U32_SIZE == 0 && Issued(w.live, w.period) < U32_SIZE
    ensures var w := Run(c, h);
            w.stale == 0 ==>
              && w.b.inflight == Issued(w.live, w.period) <= c.maxProbes
              && (forall g :: 0 <= g < |w.live| && w.live[g] == w.period ==> DropStep(w.b).inflight == w.b.inflight - 1)
              && (Admits(CheckStep(c, w.b, w.clock).1) <==> Issued(w.live, w.period) < c.maxProbes)
  {
    RunAccounted(c, h);
    var w := Run(c, h);
    ShowsExactlyIff(w.b.inflight, Issued(w.live, w.period), w.stale, c.maxProbes);
    forall g | 0 <= g < |w.live| && w.live[g] == w.period ensures Issued(w.live, w.period) >= 1 {
      IssuedRemove(w.live, g, w.period);
    }
  }

  /** Every guard is dropped before the next half-open period starts: whenever a request takes the breaker from
      Open to HalfOpen, no guard is live. */
  ghost predicate GuardsDroppedBetweenPeriods(c: Config, h: seq<Event>) {
    forall n :: 0 <= n < |h| ==> DropsBefore(c, h, n)
  }

  ghost predicate DropsBefore(c: Config, h: seq<Event>, n: nat)
    requires n < |h|
  {
    Run(c, h[..n]).b.state == Open && Run(c, h[..n + 1]).b.state == HalfOpen ==> Run(c, h[..n]).live == []
  }

  ghost predicate CountsLiveGuards(c: Config, w: World) {
    w.b.state == HalfOpen ==> w.b.inflight == |w.live| <= c.maxProbes
  }

  lemma CountsLiveGuardsStep(c: Config, w: World, e: Event)
    requires CountsLiveGuards(c, w)
    requires w.b.state == Open && Step(c, w, e).b.state == HalfOpen ==> w.live == []
    ensures CountsLiveGuards(c, Step(c, w, e))
  {
  }

  /** On such runs, of any length, the counter equals the number of live guards while half-open, stays within
      `maxProbes`, and no guard drop underflows it. */
  lemma {:induction false} SeparatedPeriodsCountExactly(c: Config, h: seq<Event>)
    requires GuardsDroppedBetweenPeriods(c, h)
    ensures var w := Run(c, h);
            w.b.state == HalfOpen ==>
              && w.b.inflight == |w.live| <= c.maxProbes
              && (w.live != [] ==> DropStep(w.b).inflight == w.b.inflight - 1)
  {
    if h == [] {
    } else {
      var n := |h| - 1;
      assert h[..n + 1] == h;
      assert DropsBefore(c, h, n);
      assert GuardsDroppedBetweenPeriods(c, h[..n]) by {
        forall k | 0 <= k < n ensures DropsBefore(c, h[..n], k) {
          assert DropsBefore(c, h, k);
          assert h[..n][..k] == h[..k] && h[..n][..k + 1] == h[..k + 1];
        }
      }
      SeparatedPeriodsCountExactly(c, h[..n]);
      CountsLiveGuardsStep(c, Run(c, h[..n]), h[n]);
    }
  }

  lemma Replay(c: Config, h: seq<Event>, e: Event, before: World, after: World)
    requires Run(c, h) == before && Step(c, before, e) == after
    ensures Run(c, h + [e]) == after
  {
    RunAppend(c, h, e);
  }

  /** A breaker that opens at once and recovers at once, in its first half-open period and reopened. */
  lemma ReopenedRun(c: Config) returns (h: seq<Event>)
    requires c == Config(1, 0, 1)
    ensures h == [] + [RecordFailure] + [Request] + [RecordFailure]
    ensures Run(c, h) == World(Breaker(Open, 1, 0, Some(0)), 0, 1, [1], 0)
  {
    var first := World(Breaker(HalfOpen, 1, 1, Some(0)), 0, 1, [1], 0);
    h := [] + [RecordFailure];
    Replay(c, [], RecordFailure, START, World(Breaker(Open, 1, 0, Some(0)), 0, 0, [], 0));
    Replay(c, h, Request, World(Breaker(Open, 1, 0, Some(0)), 0, 0, [], 0), first);
    h := h + [Request];
    Replay(c, h, RecordFailure, first, World(Breaker(Open, 1, 0, Some(0)), 0, 1, [1], 0));
    h := h + [RecordFailure];
  }

  /** And then in its second half-open period, with the guard of the first dropped in it. */
  lemma StaleRun(c: Config) returns (h: seq<Event>)
    requires c == Config(1, 0, 1)
    ensures h == [] + [RecordFailure] + [Request] + [RecordFailure] + [Request] + [Release(0)]
    ensures Run(c, h) == World(Breaker(HalfOpen, 1, 0, Some(0)), 0, 2, [2], 1)
  {
    h := ReopenedRun(c);
    var second := World(Breaker(HalfOpen, 1, 1, Some(0)), 0, 2, [1, 2], 0);
    assert [1] + [2] == [1, 2] && second.live[..0] + second.live[1..] == [2];
    Replay(c, h, Request, Run(c, h), second);
    h := h + [Request];
    Replay(c, h, Release(0), second, World(Breaker(HalfOpen, 1, 0, Some(0)), 0, 2, [2], 1));
    h := h + [Release(0)];
  }

  /** A guard that outlives its period: one probe is in flight, yet the counter reads zero; the next drop wraps it to
      2^32 - 1; and with a limit of one a second probe is admitted beside the first. */
  lemma StaleGuardBreaksTheCount(c: Config) returns (h: seq<Event>)
    requires c == Config(1, 0, 1)
    ensures var w := Run(c, h);
            && w.b.state == HalfOpen && w.stale == 1
            && Issued(w.live, w.period) == 1 && w.b.inflight == 0
            && Run(c, h + [Release(0)]).b.inflight == U32_SIZE - 1
            && Issued(Run(c, h + [Request]).live, w.period) == 2 > c.maxProbes
  {
    h := StaleRun(c);
    RunAppend(c, h, Release(0));
    RunAppend(c, h, Request);
    IssuedPush([], 2, 2);
    assert [] + [2] == [2];
    IssuedPush([2], 2, 2);
  }

  // ---- The registry ----

  const ID_CAP: nat := 256

  class BackendBreaker {
    var state: CircuitState
    var failures: U32
    var inflight: U32
    var openedAt: Option<nat>

    ghost function Value(): Breaker
      reads this
    {
      Breaker(state, failures, inflight, openedAt)
    }

    constructor ()
      ensures Value() == FRESH
    {
      state, failures, inflight, openedAt := Closed, 0, 0, None;
    }

    method Admit(config: Config, now: nat) returns (verdict: Verdict)
      modifies this
      ensures (Value(), verdict) == CheckStep(config, old(Value()), now)
    {
      match state
      case Closed => return Verdict(Closed, false);
      case Open =>
        if openedAt.Some? && Elapsed(openedAt.value, now) >= config.recovery {
          inflight := 1;
          state := HalfOpen;
          return Verdict(HalfOpen, true);
        }
        return Verdict(Open, false);
      case HalfOpen =>
        var before := inflight;
        inflight := WrapAdd(inflight);
        if before >= config.maxProbes {
          inflight := WrapSub(inflight);
          return Verdict(Open, false);
        }
        return Verdict(HalfOpen, true);
    }

    method Succeed()
      modifies this
      ensures Value() == SuccessStep(old(Value()))
    {
      match state
      case HalfOpen =>
        failures := 0;
        inflight := 0;
        state := Closed;
        openedAt := None;
      case Closed => failures := 0;
      case Open =>
    }

    method Fail(config: Config, now: nat)
      modifies this
      ensures Value() == FailureStep(config, old(Value()), now)
    {
      match state
      case Closed =>
        var count := failures + 1;
        failures := WrapAdd(failures);
        if count >= config.threshold {
          state := Open;
          openedAt := Some(now);
        }
      case HalfOpen =>
        inflight := 0;
        state := Open;
        openedAt := Some(now);
      case Open =>
    }
  }

  class HalfOpenGuard {
    const breaker: BackendBreaker

    constructor (breaker: BackendBreaker)
      ensures this.breaker == breaker
    {
      this.breaker := breaker;
    }

    /** Gives the probe slot back unless the breaker has left half-open. The breaker may be out of the registry by
        now. */
    method Drop()
      modifies breaker
      ensures breaker.Value() == DropStep(old(breaker.Value()))
    {
      if breaker.state == HalfOpen {
        breaker.inflight := WrapSub(breaker.inflight);
      }
    }
  }

  class CircuitBreakers {
    const config: Config
    var breakers: map<Data, BackendBreaker>

    /** Every id fits the key buffer and has a breaker of its own. */
    ghost predicate Valid()
      reads this
    {
      && (forall id :: id in breakers ==> |id| <= ID_CAP)
      && (forall i, j :: i in breakers && j in breakers && i != j ==> breakers[i] != breakers[j])
    }

    /** The breaker an id stands for: its own, or a fresh one. */
    ghost function View(id: Data): Breaker
      reads this, breakers.Values
    {
      if id in breakers then breakers[id].Value() else FRESH
    }

    constructor (config: Config)
      ensures Valid() && this.config == config && breakers == map[]
    {
      this.config := config;
      breakers := map[];
    }

    /** Entry-or-insert: the id's breaker, every other id untouched. */
    method BreakerFor(id: Data) returns (b: BackendBreaker)
      requires Valid() && |id| <= ID_CAP
      modifies this
      ensures Valid() && id in breakers && b == breakers[id] && b.Value() == old(View(id))
      ensures breakers == old(breakers)[id := b]
      ensures fresh(b) || b in old(breakers).Values
    {
      if id in breakers {
        b := breakers[id];
      } else {
        b := new BackendBreaker();
        breakers := breakers[id := b];
      }
    }

    method Check(id: Data, now: nat) returns (state: CircuitState, guard: HalfOpenGuard?)
      requires Valid()
      modifies this, breakers.Values
      ensures Valid()
      ensures |id| > ID_CAP ==> state == Open && guard == null && breakers == old(breakers)
      ensures |id| <= ID_CAP && old(View(id)).state == Closed ==> state == Closed && guard == null
      ensures |id| <= ID_CAP ==>
                && id in breakers
                && (View(id), Verdict(state, guard != null)) == CheckStep(config, old(View(id)), now)
                && (guard != null ==> guard.breaker == breakers[id])
      ensures forall k :: k != id ==> (k in breakers <==> k in old(breakers)) && View(k) == old(View(k))
    {
      if |id| > ID_CAP {
        return Open, null;
      }
      var b := BreakerFor(id);
      var verdict := b.Admit(config, now);
      guard := null;
      if verdict.guarded {
        guard := new HalfOpenGuard(b);
      }
      return verdict.state, guard;
    }

    /** Success is looked up, not inserted: an unknown id stays unknown. */
    method RecordSuccess(id: Data)
      requires Valid()
      modifies breakers.Values
      ensures Valid()
      ensures View(id) == if id in breakers then SuccessStep(old(View(id))) else FRESH
      ensures forall k :: k != id ==> View(k) == old(View(k))
    {
      if id !in breakers {
        return;
      }
      breakers[id].Succeed();
    }

    method RecordFailure(id: Data, now: nat)
      requires Valid()
      modifies this, breakers.Values
      ensures Valid()
      ensures |id| > ID_CAP ==> breakers == old(breakers)
      ensures |id| <= ID_CAP ==> id in breakers && View(id) == FailureStep(config, old(View(id)), now)
      ensures forall k :: k != id ==> (k in breakers <==> k in old(breakers)) && View(k) == old(View(k))
    {
      if |id| > ID_CAP {
        return;
      }
      var b := BreakerFor(id);
      b.Fail(config, now);
    }

    method State(id: Data) returns (state: CircuitState)
      ensures state == View(id).state
    {
      if id in breakers {
        return breakers[id].state;
      }
      return Closed;
    }

    /** Removal forgets the id; guards still out keep the old breaker, which nothing else reaches any more. */
    method RemoveBackend(id: Data)
      requires Valid()
      modifies this
      ensures Valid() && breakers == old(breakers) - {id}
      ensures View(id) == FRESH
      ensures forall k :: k != id ==> View(k) == old(View(k))
      ensures id in old(breakers) ==> forall k :: k in breakers ==> breakers[k] != old(breakers)[id]
    {
      breakers := breakers - {id};
    }
  }
}
