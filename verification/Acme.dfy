/** The pacing of ACME certificate orders (src/tls/acme.rs): the order start-up may place, and the renewal loop with its
    failure backoff. Times are in seconds on one clock that does not go back. */
module Acme {
  import opened Bytes
  import opened Backoff

  const BASE_SECS: U64 := 300
  const MAX_SECS: U64 := 21600
  const MAX_DOUBLINGS: nat := 16
  const RENEWAL_BUFFER_SECS: nat := 2592000
  const RETRY_INTERVAL_SECS: nat := 43200
  const HOUR: nat := 3600

  // ---- The backoff floor ----

  function FailureBackoff(failures: U32): U64 {
    if failures == 0 then 0
    else
      var doublings := Min(failures - 1, MAX_DOUBLINGS);
      ShiftFits(doublings);
      Min(SaturatingMul(BASE_SECS, Pow2(doublings)), MAX_SECS)
  }

  /** The cap on doublings and the saturation never show. */
  lemma FailureBackoffIsExact(failures: U32)
    requires failures >= 1
    ensures FailureBackoff(failures) == Min(BASE_SECS * Pow2(failures - 1), MAX_SECS)
  {
    assert Pow2(8) == 256;
    Pow2Monotone(0, failures - 1);
    if failures - 1 > MAX_DOUBLINGS {
      Pow2Monotone(8, MAX_DOUBLINGS);
      Pow2Monotone(8, failures - 1);
    }
    Pow2Add(8, 8);
    Pow2Monotone(Min(failures - 1, MAX_DOUBLINGS), MAX_DOUBLINGS);
  }

  lemma FailureBackoffGrows(m: U32, n: U32)
    requires 1 <= m <= n
    ensures FailureBackoff(m) <= FailureBackoff(n)
  {
    FailureBackoffIsExact(m);
    FailureBackoffIsExact(n);
    Pow2Monotone(m - 1, n - 1);
  }

  // ---- Certificates ----

  /** A certificate by the end of its validity; none if it cannot be parsed. */
  datatype Cert = Cert(notAfter: Option<nat>)

  function ExpiryIn(c: Cert, now: nat): nat {
    if c.notAfter.Some? && c.notAfter.value > now then c.notAfter.value - now else 0
  }

  function RenewalIn(c: Cert, now: nat): nat {
    if ExpiryIn(c, now) > RENEWAL_BUFFER_SECS then ExpiryIn(c, now) - RENEWAL_BUFFER_SECS else 0
  }

  /** A certificate is valid up to its end and due in its last thirty days; one that cannot be parsed is neither
      valid nor waited for. */
  lemma DueInTheLastThirtyDays(c: Cert, now: nat)
    ensures ExpiryIn(c, now) > 0 <==> c.notAfter.Some? && now < c.notAfter.value
    ensures ExpiryIn(c, now) > 0 ==> now + ExpiryIn(c, now) == c.notAfter.value
    ensures RenewalIn(c, now) > 0 <==> c.notAfter.Some? && now + 30 * 24 * 3600 < c.notAfter.value
    ensures RenewalIn(c, now) > 0 ==> now + RenewalIn(c, now) + 30 * 24 * 3600 == c.notAfter.value
  {
  }

  /** The sleep before the next order: the certificate's own renewal time, floored by the failure backoff. */
  function NextRenewalSleep(cert: Option<Cert>, now: nat, failures: U32): nat {
    var renewalIn := if cert.Some? then RenewalIn(cert.value, now) else RETRY_INTERVAL_SECS;
    if renewalIn > FailureBackoff(failures) then renewalIn else FailureBackoff(failures)
  }

  // ---- The process ----

  /** An order: when it was placed and whether it worked. */
  datatype Attempt = Attempt(at: nat, ok: bool)

  /** How an order goes: how long it takes, and the certificate it brings, if any. */
  datatype Order = Order(takes: nat, result: Option<Cert>)

  /** What one pass of the loop meets: how late it wakes, and its order. */
  datatype Pass = Pass(late: nat, order: Order)

  /** The renewal loop between two passes. `attempts` are its own orders. */
  datatype Loop = Loop(clock: nat, cert: Option<Cert>, failures: U32, attempts: seq<Attempt>)

  function CountFailure(failures: U32): U32 { if failures == U32_SIZE - 1 then failures else failures + 1 }

  function LoopStep(l: Loop, p: Pass): Loop {
    var at := l.clock + NextRenewalSleep(l.cert, l.clock, l.failures) + p.late;
    Loop(at + p.order.takes,
         if p.order.result.Some? then p.order.result else l.cert,
         if p.order.result.Some? then 0 else CountFailure(l.failures),
         l.attempts + [Attempt(at, p.order.result.Some?)])
  }

  function LoopSteps(l: Loop, passes: seq<Pass>): Loop {
    if passes == [] then l else LoopStep(LoopSteps(l, passes[..|passes| - 1]), passes[|passes| - 1])
  }

  /** Start-up: no order if the cached certificate is not due; otherwise one order, and if that fails the cached
      certificate is served as long as it has not expired. Without a certificate to serve the process ends. */
  datatype Boot = Boot(order: seq<Attempt>, loop: Option<Loop>)

  function Startup(cached: Option<Cert>, at: nat, order: Order): Boot {
    if cached.Some? && RenewalIn(cached.value, at) > 0 then Boot([], Some(Loop(at, cached, 0, [])))
    else
      var done := at + order.takes;
      if order.result.Some? then Boot([Attempt(at, true)], Some(Loop(done, order.result, 0, [])))
      else
        var serves := cached.Some? && ExpiryIn(cached.value, done) > 0;
        Boot([Attempt(at, false)], if serves then Some(Loop(done, cached, 0, [])) else None)
  }

  /** All orders of a process, the one at start-up included. */
  function Orders(cached: Option<Cert>, at: nat, order: Order, passes: seq<Pass>): seq<Attempt> {
    var boot := Startup(cached, at, order);
    boot.order + if boot.loop.Some? then LoopSteps(boot.loop.value, passes).attempts else []
  }

  /** What start-up does: it orders unless the cached certificate has more than thirty days left; it serves what it
      ordered, or else a cached certificate that is still valid when the order has failed; and it goes on exactly if it
      has one of the two, with no failure on the loop's counter. */
  lemma StartupExactly(cached: Option<Cert>, at: nat, order: Order)
    ensures var boot := Startup(cached, at, order);
            var ends := if cached.Some? && cached.value.notAfter.Some? then cached.value.notAfter.value else 0;
            var fine, stale := at + 30 * 24 * 3600 < ends, at + order.takes < ends;
            && boot.order == (if fine then [] else [Attempt(at, order.result.Some?)])
            && (boot.loop.Some? <==> fine || order.result.Some? || stale)
            && (boot.loop.Some? ==>
                  && boot.loop.value.failures == 0 && boot.loop.value.attempts == []
                  && boot.loop.value.clock == (if fine then at else at + order.takes)
                  && boot.loop.value.cert == (if fine || order.result.None? then cached else order.result))
  {
  }

  /** The start-up code. */
  method ProvisionInitialCert(cached: Option<Cert>, at: nat, order: Order) returns (boot: Boot)
    ensures boot == Startup(cached, at, order)
  {
    if cached.Some? {
      var renewalIn := RenewalIn(cached.value, at);
      if renewalIn > 0 {
        return Boot([], Some(Loop(at, cached, 0, [])));
      }
    }
    var clock := at + order.takes;
    if order.result.Some? {
      return Boot([Attempt(at, true)], Some(Loop(clock, order.result, 0, [])));
    }
    if cached.Some? && ExpiryIn(cached.value, clock) > 0 {
      return Boot([Attempt(at, false)], Some(Loop(clock, cached, 0, [])));
    }
    return Boot([Attempt(at, false)], None);
  }

  /** The renewal loop over its passes. */
  method RunRenewals(start: nat, cert: Option<Cert>, passes: seq<Pass>) returns (attempts: seq<Attempt>)
    ensures attempts == LoopSteps(Loop(start, cert, 0, []), passes).attempts
  {
    ghost var l := Loop(start, cert, 0, []);
    var clock: nat, served, failures: U32 := start, cert, 0;
    attempts := [];
    for n := 0 to |passes|
      invariant Loop(clock, served, failures, attempts) == LoopSteps(l, passes[..n])
    {
      var p := passes[n];
      ghost var before := Loop(clock, served, failures, attempts);
      assert passes[..n + 1] == passes[..n] + [p];
      LoopPush(l, passes[..n], p);
      var sleep := NextRenewalSleep(served, clock, failures);
      clock := clock + sleep + p.late;
      attempts := attempts + [Attempt(clock, p.order.result.Some?)];
      clock := clock + p.order.takes;
      if p.order.result.Some? {
        failures, served := 0, p.order.result;
      } else {
        failures := CountFailure(failures);
      }
      assert Loop(clock, served, failures, attempts) == LoopStep(before, p);
    }
    assert passes[..|passes|] == passes;
  }

  /** The process: start-up, and the loop unless start-up failed for good. */
  method RunProcess(cached: Option<Cert>, at: nat, order: Order, passes: seq<Pass>) returns (orders: seq<Attempt>)
    ensures orders == Orders(cached, at, order, passes)
  {
    var boot := ProvisionInitialCert(cached, at, order);
    if boot.loop.None? {
      return boot.order;
    }
    var own := RunRenewals(boot.loop.value.clock, boot.loop.value.cert, passes);
    return boot.order + own;
  }

  lemma LoopPush(l: Loop, passes: seq<Pass>, p: Pass)
    ensures LoopSteps(l, passes + [p]) == LoopStep(LoopSteps(l, passes), p)
  {
    assert (passes + [p])[..|passes|] == passes;
  }

  // ---- The loop alone ----

  /** The failures in a row at the end of the loop's orders, saturating as its counter does. */
  ghost function Failures(attempts: seq<Attempt>): U32 {
    if attempts == [] || attempts[|attempts| - 1].ok then 0 else CountFailure(Failures(attempts[..|attempts| - 1]))
  }

  /** Each order comes at least the backoff of the failures before it after the one before. */
  ghost predicate Paced(attempts: seq<Attempt>) {
    forall i :: 0 < i < |attempts| ==> PacedAfter(attempts, i)
  }

  ghost predicate PacedAfter(attempts: seq<Attempt>, i: nat)
    requires 0 < i < |attempts|
  {
    attempts[i].at >= attempts[i - 1].at + FailureBackoff(Failures(attempts[..i]))
  }

  ghost predicate Tracked(l: Loop) {
    Paced(l.attempts) && l.failures == Failures(l.attempts)
    && (l.attempts != [] ==> l.clock >= l.attempts[|l.attempts| - 1].at)
  }

  lemma TrackedStep(l: Loop, p: Pass)
    requires Tracked(l)
    ensures Tracked(LoopStep(l, p))
  {
    var r, n := LoopStep(l, p), |l.attempts|;
    assert r.attempts[..n] == l.attempts;
    forall i | 0 < i < |r.attempts| ensures PacedAfter(r.attempts, i) {
      if i < n {
        assert PacedAfter(l.attempts, i) && r.attempts[..i] == l.attempts[..i];
      }
    }
  }

  /** Every run of the loop is paced, whatever the certificates, the outcomes and the delays. */
  lemma {:induction false} LoopIsPaced(l: Loop, passes: seq<Pass>)
    requires Tracked(l)
    ensures Tracked(LoopSteps(l, passes))
  {
    if passes == [] {
    } else {
      LoopIsPaced(l, passes[..|passes| - 1]);
      TrackedStep(LoopSteps(l, passes[..|passes| - 1]), passes[|passes| - 1]);
    }
  }

  /** The newest certificate: that of the last order that brought one, or else the one the loop began with. */
  ghost function Newest(first: Option<Cert>, passes: seq<Pass>): Option<Cert> {
    if passes == [] then first
    else
      var last := passes[|passes| - 1].order.result;
      if last.Some? then last else Newest(first, passes[..|passes| - 1])
  }

  /** The loop places one order per pass, counted by its outcome, and waits on the newest certificate. */
  lemma {:induction false} LoopFollowsPasses(start: nat, cert: Option<Cert>, passes: seq<Pass>)
    ensures var l := LoopSteps(Loop(start, cert, 0, []), passes);
            && l.cert == Newest(cert, passes) && |l.attempts| == |passes|
            && (forall i :: 0 <= i < |passes| ==> l.attempts[i].ok == passes[i].order.result.Some?)
            && l.clock == if passes == [] then start
                          else l.attempts[|passes| - 1].at + passes[|passes| - 1].order.takes
  {
    if passes == [] {
    } else {
      LoopFollowsPasses(start, cert, passes[..|passes| - 1]);
    }
  }

  lemma OrderIsDue(l: Loop, p: Pass)
    ensures var orders := LoopStep(l, p).attempts;
            var prompt, soonest := orders[|orders| - 1].at - p.late, l.clock + FailureBackoff(l.failures);
            match l.cert
            case None => prompt == if soonest > l.clock + 12 * 3600 then soonest else l.clock + 12 * 3600
            case Some(Cert(None)) => prompt == soonest
            case Some(Cert(Some(end))) =>
              prompt == if soonest + 30 * 24 * 3600 > end then soonest else end - 30 * 24 * 3600
  {
  }

  /** An order is placed no earlier than thirty days before the newest certificate ends, twelve hours after the last
      order if there is no certificate at all, and the backoff of the failures in a row; and, but for waking late, no
      later than the last of these. */
  lemma OrdersWhenDue(start: nat, cert: Option<Cert>, passes: seq<Pass>, p: Pass)
    ensures var l := LoopSteps(Loop(start, cert, 0, []), passes);
            var orders, newest := LoopStep(l, p).attempts, Newest(cert, passes);
            var prompt := orders[|orders| - 1].at - p.late;
            && prompt >= l.clock + FailureBackoff(Failures(l.attempts))
            && (newest.Some? && newest.value.notAfter.Some? ==> prompt + 30 * 24 * 3600 >= newest.value.notAfter.value)
            && (newest == None ==> prompt >= l.clock + 12 * 3600)
            && (|| prompt == l.clock + FailureBackoff(Failures(l.attempts))
                || (newest.Some? && newest.value.notAfter == Some(prompt + 30 * 24 * 3600))
                || (newest == None && prompt == l.clock + 12 * 3600))
  {
    LoopFollowsPasses(start, cert, passes);
    LoopIsPaced(Loop(start, cert, 0, []), passes);
    OrderIsDue(LoopSteps(Loop(start, cert, 0, []), passes), p);
  }

  lemma {:induction false} FailuresAtLeast(attempts: seq<Attempt>, n: nat)
    requires n <= |attempts| && n < U32_SIZE
    requires forall i :: |attempts| - n <= i < |attempts| ==> !attempts[i].ok
    ensures Failures(attempts) >= n
  {
    if n == 0 {
    } else {
      FailuresAtLeast(attempts[..|attempts| - 1], n - 1);
    }
  }

  lemma GapAfterFailures(attempts: seq<Attempt>, i: nat, n: nat)
    requires Paced(attempts) && 1 <= n <= i < |attempts| && n < U32_SIZE
    requires forall k :: i - n <= k < i ==> !attempts[k].ok
    ensures attempts[i].at - attempts[i - 1].at >= FailureBackoff(n)
  {
    assert PacedAfter(attempts, i);
    FailuresAtLeast(attempts[..i], n);
    FailureBackoffGrows(n, Failures(attempts[..i]));
  }

  /** n orders in a row from the i-th on all fail. */
  ghost predicate FailingRow(orders: seq<Attempt>, i: nat, n: nat) {
    i + n <= |orders| && forall k :: i <= k < i + n ==> !orders[k].ok
  }

  /** In the loop, the fifth order after four failures in a row comes more than an hour after the first of them. */
  lemma FourAttemptsAnHour(attempts: seq<Attempt>, i: nat)
    requires Paced(attempts) && i + 4 < |attempts| && FailingRow(attempts, i, 4)
    ensures attempts[i + 4].at - attempts[i].at >= 4500 > HOUR
  {
    GapAfterFailures(attempts, i + 1, 1);
    GapAfterFailures(attempts, i + 2, 2);
    GapAfterFailures(attempts, i + 3, 3);
    GapAfterFailures(attempts, i + 4, 4);
  }

  // ---- The whole process ----

  /** No n failing orders in a row are placed within one hour. */
  ghost predicate NeverInAnHour(orders: seq<Attempt>, n: nat)
    requires n > 0
  {
    forall i :: 0 <= i && FailingRow(orders, i, n) ==> orders[i + n - 1].at - orders[i].at > HOUR
  }

  /** A cached certificate that is due for renewal but still valid: the one case where a failed start-up order leads
      into the loop. */
  predicate ServedStale(cached: Option<Cert>, at: nat) {
    cached.Some? && RenewalIn(cached.value, at) == 0 && ExpiryIn(cached.value, at) > 0
  }

  /** After a failed start-up order the loop runs only for such a certificate, which it then finds due: its first sleep
      is zero, so that its first order follows at once. */
  lemma FailedStartupIsNotSleptOff(cached: Option<Cert>, at: nat, takes: nat)
    requires var boot := Startup(cached, at, Order(takes, None)); boot.order != [] && boot.loop.Some?
    ensures ServedStale(cached, at)
    ensures var l := Startup(cached, at, Order(takes, None)).loop.value;
            l.clock == at + takes && NextRenewalSleep(l.cert, l.clock, l.failures) == 0
  {
  }

  /** The loop's orders in a process. */
  lemma LoopOrdersArePaced(cached: Option<Cert>, at: nat, order: Order, passes: seq<Pass>) returns (own: seq<Attempt>)
    ensures Paced(own) && Orders(cached, at, order, passes) == Startup(cached, at, order).order + own
    ensures var loop := Startup(cached, at, order).loop;
            own == if loop.Some? then LoopSteps(loop.value, passes).attempts else []
  {
    var boot := Startup(cached, at, order);
    own := [];
    if boot.loop.Some? {
      LoopIsPaced(boot.loop.value, passes);
      own := LoopSteps(boot.loop.value, passes).attempts;
    }
  }

  lemma OrdersGoOn(attempts: seq<Attempt>, i: nat)
    requires Paced(attempts) && i + 1 < |attempts|
    ensures attempts[i].at <= attempts[i + 1].at
  {
    assert PacedAfter(attempts, i + 1);
  }

  lemma {:induction false} LoopIsNotBefore(l: Loop, passes: seq<Pass>, start: nat)
    requires l.clock >= start && forall i :: 0 <= i < |l.attempts| ==> l.attempts[i].at >= start
    ensures var r := LoopSteps(l, passes);
            r.clock >= start && forall i :: 0 <= i < |r.attempts| ==> r.attempts[i].at >= start
  {
    if passes == [] {
    } else {
      LoopIsNotBefore(l, passes[..|passes| - 1], start);
    }
  }

  /** A failing row of all orders, but for a start-up order in front, is a failing row of the loop's. */
  lemma RowInLoop(first: seq<Attempt>, own: seq<Attempt>, i: nat, n: nat)
    requires |first| <= 1 && n >= 1 && FailingRow(first + own, i, n)
    ensures i >= |first| ==> FailingRow(own, i - |first|, n)
    ensures i < |first| ==> FailingRow(own, 0, n - 1)
  {
    var orders := first + own;
    forall k | 0 <= k < |own| && !orders[|first| + k].ok ensures !own[k].ok {
      assert orders[|first| + k] == own[k];
    }
    assert forall k :: 0 <= k < |own| ==> orders[|first| + k] == own[k];
  }

  lemma SixInLoop(own: seq<Attempt>, k: nat)
    requires Paced(own) && FailingRow(own, k, 6)
    ensures own[k + 5].at - own[k].at > HOUR
  {
    FourAttemptsAnHour(own, k);
    OrdersGoOn(own, k + 4);
  }

  lemma SixInARow(first: seq<Attempt>, own: seq<Attempt>, i: nat)
    requires |first| <= 1 && Paced(own) && (first != [] && own != [] ==> first[0].at <= own[0].at)
    requires FailingRow(first + own, i, 6)
    ensures (first + own)[i + 5].at - (first + own)[i].at > HOUR
  {
    RowInLoop(first, own, i, 6);
    if i < |first| {
      FourAttemptsAnHour(own, 0);
    } else {
      SixInLoop(own, i - |first|);
    }
  }

  lemma StartupComesFirst(cached: Option<Cert>, at: nat, order: Order, passes: seq<Pass>)
    ensures var boot := Startup(cached, at, order);
            && |boot.order| <= 1 && (boot.order != [] ==> boot.order[0].at == at)
            && (boot.loop.Some? ==>
                  var own := LoopSteps(boot.loop.value, passes).attempts;
                  own != [] ==> own[0].at >= at)
  {
    var boot := Startup(cached, at, order);
    if boot.loop.Some? {
      LoopIsNotBefore(boot.loop.value, passes, at);
    }
  }

  /** In every process, start-up included, six failing orders in a row take more than an hour. */
  lemma SixNeverInAnHour(cached: Option<Cert>, at: nat, order: Order, passes: seq<Pass>)
    ensures NeverInAnHour(Orders(cached, at, order, passes), 6)
  {
    var first := Startup(cached, at, order).order;
    var own := LoopOrdersArePaced(cached, at, order, passes);
    var orders: seq<Attempt> := first + own;
    StartupComesFirst(cached, at, order, passes);
    forall i | 0 <= i && FailingRow(orders, i, 6) ensures orders[i + 5].at - orders[i].at > HOUR {
      SixInARow(first, own, i);
    }
  }

  lemma FailedStartupEnds(cached: Option<Cert>, at: nat, order: Order)
    requires !ServedStale(cached, at) && order.result.None? && Startup(cached, at, order).order != []
    ensures Startup(cached, at, order).loop.None?
  {
    if Startup(cached, at, order).loop.Some? {
      FailedStartupIsNotSleptOff(cached, at, order.takes);
    }
  }

  lemma FiveInARow(first: seq<Attempt>, own: seq<Attempt>, i: nat)
    requires |first| <= 1 && Paced(own) && (first != [] && !first[0].ok ==> own == [])
    requires FailingRow(first + own, i, 5)
    ensures (first + own)[i + 4].at - (first + own)[i].at > HOUR
  {
    assert i >= |first| by {
      assert first != [] ==> (first + own)[0] == first[0];
    }
    RowInLoop(first, own, i, 5);
    FourAttemptsAnHour(own, i - |first|);
  }

  lemma FiveNeverInAnHour(cached: Option<Cert>, at: nat, order: Order, passes: seq<Pass>)
    requires !(ServedStale(cached, at) && order.result.None?)
    ensures NeverInAnHour(Orders(cached, at, order, passes), 5)
  {
    var first := Startup(cached, at, order).order;
    var own := LoopOrdersArePaced(cached, at, order, passes);
    var orders: seq<Attempt> := first + own;
    if first != [] && !first[0].ok {
      FailedStartupEnds(cached, at, order);
    }
    forall i | 0 <= i && FailingRow(orders, i, 5) ensures orders[i + 4].at - orders[i].at > HOUR {
      FiveInARow(first, own, i);
    }
  }

  const FAILS := Pass(0, Order(0, None))

  lemma DueStaysDue(c: Cert, at: nat, now: nat)
    requires RenewalIn(c, at) == 0 && at <= now
    ensures RenewalIn(c, now) == 0
  {
  }

  lemma FirstBackoffs()
    ensures FailureBackoff(1) == 300 && FailureBackoff(2) == 600 && FailureBackoff(3) == 1200
  {
  }

  /** One more pass that fails at once, with a due certificate. */
  lemma FailingPass(start: Loop, passes: seq<Pass>, l: Loop, c: Cert, at: nat, gap: nat)
    requires LoopSteps(start, passes) == l && l.cert == Some(c) && RenewalIn(c, at) == 0 && at <= l.clock
    requires l.failures < 4 && FailureBackoff(l.failures) == gap
    ensures LoopSteps(start, passes + [FAILS])
            == Loop(l.clock + gap, l.cert, l.failures + 1, l.attempts + [Attempt(l.clock + gap, false)])
  {
    DueStaysDue(c, at, l.clock);
    LoopPush(start, passes, FAILS);
  }

  /** Four passes in a row that fail at once. */
  lemma FourFailingPasses(c: Cert, at: nat) returns (passes: seq<Pass>)
    requires RenewalIn(c, at) == 0
    ensures LoopSteps(Loop(at, Some(c), 0, []), passes).attempts
            == [] + [Attempt(at, false)] + [Attempt(at + 300, false)] + [Attempt(at + 900, false)]
               + [Attempt(at + 2100, false)]
  {
    var first := [] + [Attempt(at, false)];
    var second := first + [Attempt(at + 300, false)];
    var third := second + [Attempt(at + 900, false)];
    var start := Loop(at, Some(c), 0, []);
    FirstBackoffs();
    passes := [];
    FailingPass(start, passes, start, c, at, 0);
    passes := passes + [FAILS];
    FailingPass(start, passes, Loop(at, Some(c), 1, first), c, at, 300);
    passes := passes + [FAILS];
    FailingPass(start, passes, Loop(at + 300, Some(c), 2, second), c, at, 600);
    passes := passes + [FAILS];
    FailingPass(start, passes, Loop(at + 900, Some(c), 3, third), c, at, 1200);
    passes := passes + [FAILS];
  }

  /** Five failing orders, the last 2100 seconds after the first. */
  function FiveOrders(at: nat): seq<Attempt> {
    [Attempt(at, false), Attempt(at, false), Attempt(at + 300, false), Attempt(at + 900, false),
     Attempt(at + 2100, false)]
  }

  lemma FiveWithinAnHour(at: nat)
    ensures !NeverInAnHour(FiveOrders(at), 5)
  {
    var orders := FiveOrders(at);
    assert FailingRow(orders, 0, 5) && orders[0 + 5 - 1].at - orders[0].at == 2100;
  }

  /** The process that breaks the promise: a due certificate, and every order failing at once. */
  lemma StartupFailureIsNotPaced(cached: Option<Cert>, at: nat) returns (passes: seq<Pass>)
    requires ServedStale(cached, at)
    ensures Orders(cached, at, Order(0, None), passes) == FiveOrders(at)
    ensures !NeverInAnHour(Orders(cached, at, Order(0, None), passes), 5)
  {
    passes := FourFailingPasses(cached.value, at);
    assert Startup(cached, at, Order(0, None)) == Boot([Attempt(at, false)], Some(Loop(at, cached, 0, [])));
    FiveWithinAnHour(at);
  }

  /** Five failing orders in a row are never placed within one hour, in any process that starts with this cached
      certificate at this time and whose start-up order, if it places one, works or fails as given, if and only if it
      is not the case that the certificate is due, still valid, and the order fails. */
  lemma FiveNeverInAnHourIff(cached: Option<Cert>, at: nat, ok: bool)
    ensures (forall order: Order, passes: seq<Pass> ::
               order.result.Some? == ok ==> NeverInAnHour(Orders(cached, at, order, passes), 5))
            <==> !(ServedStale(cached, at) && !ok)
  {
    if ServedStale(cached, at) && !ok {
      var passes := StartupFailureIsNotPaced(cached, at);
      assert Order(0, None).result.Some? == ok;
    } else {
      forall order: Order, passes: seq<Pass> | order.result.Some? == ok
        ensures NeverInAnHour(Orders(cached, at, order, passes), 5)
      {
        FiveNeverInAnHour(cached, at, order, passes);
      }
    }
  }
}
