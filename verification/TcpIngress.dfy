/** TCP ingress accounting (src/ingress/tcp.rs): the accept loop, one task per connection, the connection permits and
    the counters, stepped one atomic action at a time in any interleaving.

    Connections are numbered in the order they are accepted. `settled` holds a connection once for every time it was
    counted as relayed or dropped, so that counting one twice would show. */
module TcpIngress {
  import opened Bytes

  datatype DropReason = Acl | RateLimit | Capacity | NoBackend | CircuitOpen | Protocol

  /** Where the accept loop is with the connection it has just taken. */
  datatype Loop = Idle | Admitting | Acquiring | Stopped

  /** Where a connection's task is; a counted task still holds its permit until it exits. */
  datatype Stage = Selecting | Gating | Dialing | Relaying | Ended(ok: bool) | Counted

  datatype State = State(
    loop: Loop,
    tasks: map<nat, Stage>,
    permits: nat,
    accepted: nat,
    relayed: nat,
    dropped: multiset<DropReason>,
    active: int,
    settled: multiset<nat>)

  function Start(maxConnections: nat): State {
    State(Idle, map[], maxConnections, 0, 0, multiset{}, 0, multiset{})
  }

  /** Outcomes of calls into other parts come with the event. */
  datatype Event =
    | Accept
    | AcceptFails
    | Shutdown
    | Admit(allowed: bool, withinRate: bool)
    | Acquire
    | Select(task: nat, found: bool)
    | Gate(task: nat, closed: bool)
    | Dial(task: nat, ok: bool)
    | RelayEnds(task: nat, ok: bool)
    | Count(task: nat)
    | Exit(task: nat)

  /** The access list speaks before the rate limiter. */
  function Refusal(allowed: bool, withinRate: bool): Option<DropReason> {
    if !allowed then Some(Acl) else if !withinRate then Some(RateLimit) else None
  }

  function Drop(s: State, c: nat, reason: DropReason): State {
    s.(dropped := s.dropped + multiset{reason}, settled := s.settled + multiset{c})
  }

  function Move(s: State, c: nat, stage: Stage): State { s.(tasks := s.tasks[c := stage]) }

  function Step(s: State, e: Event): State {
    match e
    case Accept => if s.loop == Idle then s.(loop := Admitting, accepted := s.accepted + 1) else s
    case AcceptFails => s
    case Shutdown => if s.loop == Idle then s.(loop := Stopped) else s
    case Admit(allowed, withinRate) =>
      if s.loop != Admitting || s.accepted == 0 then s
      else
        var refused := Refusal(allowed, withinRate);
        if refused.Some? then Drop(s.(loop := Idle), s.accepted - 1, refused.value) else s.(loop := Acquiring)
    case Acquire =>
      if s.loop != Acquiring || s.accepted == 0 then s
      else if s.permits == 0 then Drop(s.(loop := Idle), s.accepted - 1, Capacity)
      else Move(s.(loop := Idle, permits := s.permits - 1), s.accepted - 1, Selecting)
    case Select(c, found) =>
      if c !in s.tasks || s.tasks[c] != Selecting then s
      else if found then Move(s, c, Gating)
      else Drop(Move(s, c, Counted), c, NoBackend)
    case Gate(c, closed) =>
      if c !in s.tasks || s.tasks[c] != Gating then s
      else if closed then Move(s, c, Dialing)
      else Drop(Move(s, c, Counted), c, CircuitOpen)
    case Dial(c, ok) =>
      if c !in s.tasks || s.tasks[c] != Dialing then s
      else if ok then Move(s.(active := s.active + 1), c, Relaying)
      else Drop(Move(s, c, Counted), c, Protocol)
    case RelayEnds(c, ok) =>
      if c !in s.tasks || s.tasks[c] != Relaying then s else Move(s.(active := s.active - 1), c, Ended(ok))
    case Count(c) =>
      if c !in s.tasks || !s.tasks[c].Ended? then s
      else if s.tasks[c].ok then Move(s.(relayed := s.relayed + 1, settled := s.settled + multiset{c}), c, Counted)
      else Drop(Move(s, c, Counted), c, Protocol)
    case Exit(c) =>
      if c !in s.tasks || s.tasks[c] != Counted then s
      else s.(tasks := s.tasks - {c}, permits := s.permits + 1)
  }

  function Run(maxConnections: nat, h: seq<Event>): State {
    if h == [] then Start(maxConnections) else Step(Run(maxConnections, h[..|h| - 1]), h[|h| - 1])
  }

  /** The accept loop holds the newest connection. */
  predicate Holding(s: State) { s.accepted > 0 && (s.loop == Admitting || s.loop == Acquiring) }

  /** Taken and not yet counted. */
  predicate InProgress(s: State, c: nat) {
    (Holding(s) && c == s.accepted - 1) || (c in s.tasks && s.tasks[c] != Counted)
  }

  function Unsettled(s: State): set<nat> { set c | c in UpTo(s.accepted) && InProgress(s, c) }

  function RelaysIn(tasks: map<nat, Stage>): set<nat> { set c | c in tasks && tasks[c] == Relaying }

  /** Each connection is counted once when it is settled and not at all before. */
  ghost predicate CountedOnce(s: State) {
    && (forall c :: c in s.tasks ==> c < s.accepted)
    && (s.loop == Admitting || s.loop == Acquiring ==> s.accepted > 0 && s.accepted - 1 !in s.tasks)
    && (forall c: nat :: s.settled[c] == if c < s.accepted && !InProgress(s, c) then 1 else 0)
  }

  /** Every count is one relayed or one dropped connection; one permit per live task; the gauge is the relays. */
  ghost predicate Tallied(maxConnections: nat, s: State) {
    && |s.settled| == s.relayed + |s.dropped|
    && s.permits + |s.tasks| == maxConnections
    && s.active == |RelaysIn(s.tasks)|
  }

  lemma CountedOnceInLoop(s: State, e: Event)
    requires CountedOnce(s) && (e.Accept? || e.AcceptFails? || e.Shutdown? || e.Admit? || e.Acquire?)
    ensures CountedOnce(Step(s, e))
  {
  }

  /** Moving a task on, and counting its connection exactly if it moves to Counted, keeps the ledger. */
  lemma MoveKeepsLedger(s: State, r: State, c: nat, stage: Stage)
    requires CountedOnce(s) && c in s.tasks && s.tasks[c] != Counted
    requires r.loop == s.loop && r.accepted == s.accepted && r.tasks == s.tasks[c := stage]
    requires r.settled == if stage == Counted then s.settled + multiset{c} else s.settled
    ensures CountedOnce(r)
  {
    forall k: nat ensures r.settled[k] == if k < r.accepted && !InProgress(r, k) then 1 else 0 {
      assert s.settled[k] == if k < s.accepted && !InProgress(s, k) then 1 else 0;
      if k == c {
        assert c < s.accepted && !(Holding(s) && c == s.accepted - 1);
      }
    }
  }

  lemma CountedOnceInTask(s: State, e: Event)
    requires CountedOnce(s) && (e.Select? || e.Gate? || e.Dial? || e.RelayEnds? || e.Count?)
    ensures CountedOnce(Step(s, e))
  {
    var r, c := Step(s, e), e.task;
    if r != s {
      match e
      case Select(_, found) => MoveKeepsLedger(s, r, c, if found then Gating else Counted);
      case Gate(_, closed) => MoveKeepsLedger(s, r, c, if closed then Dialing else Counted);
      case Dial(_, ok) => MoveKeepsLedger(s, r, c, if ok then Relaying else Counted);
      case RelayEnds(_, ok) => MoveKeepsLedger(s, r, c, Ended(ok));
      case Count(_) => MoveKeepsLedger(s, r, c, Counted);
    }
  }

  lemma CountedOnceOnExit(s: State, c: nat)
    requires CountedOnce(s)
    ensures CountedOnce(Step(s, Exit(c)))
  {
  }

  lemma RelaysAfterMove(tasks: map<nat, Stage>, c: nat, stage: Stage)
    ensures |RelaysIn(tasks[c := stage])|
            == |RelaysIn(tasks)| - (if c in tasks && tasks[c] == Relaying then 1 else 0)
               + (if stage == Relaying then 1 else 0)
  {
    var rest := RelaysIn(tasks) - {c};
    assert RelaysIn(tasks[c := stage]) == if stage == Relaying then rest + {c} else rest;
    assert RelaysIn(tasks) == if c in tasks && tasks[c] == Relaying then rest + {c} else rest;
  }

  lemma TalliedInLoop(m: nat, s: State, e: Event)
    requires CountedOnce(s) && Tallied(m, s) && (e.Accept? || e.AcceptFails? || e.Shutdown? || e.Admit? || e.Acquire?)
    ensures Tallied(m, Step(s, e))
  {
    if e.Acquire? && s.accepted > 0 {
      RelaysAfterMove(s.tasks, s.accepted - 1, Selecting);
    }
  }

  /** Moving a task on, with one count exactly if it moves to Counted and the gauge kept to the relays, keeps the
      tally. */
  lemma MoveKeepsTally(m: nat, s: State, r: State, c: nat, stage: Stage)
    requires Tallied(m, s) && c in s.tasks && r.tasks == s.tasks[c := stage] && r.permits == s.permits
    requires |r.settled| - |s.settled| == r.relayed - s.relayed + |r.dropped| - |s.dropped|
    requires r.active == s.active - (if s.tasks[c] == Relaying then 1 else 0) + (if stage == Relaying then 1 else 0)
    ensures Tallied(m, r)
  {
    RelaysAfterMove(s.tasks, c, stage);
    assert r.tasks.Keys == s.tasks.Keys;
  }

  lemma TalliedMove(m: nat, s: State, e: Event)
    requires Tallied(m, s) && (e.Select? || e.Gate? || e.Dial? || e.RelayEnds? || e.Count?)
    ensures Tallied(m, Step(s, e))
  {
    var r, c := Step(s, e), e.task;
    if r != s {
      match e
      case Select(_, found) => MoveKeepsTally(m, s, r, c, if found then Gating else Counted);
      case Gate(_, closed) => MoveKeepsTally(m, s, r, c, if closed then Dialing else Counted);
      case Dial(_, ok) => MoveKeepsTally(m, s, r, c, if ok then Relaying else Counted);
      case RelayEnds(_, ok) => MoveKeepsTally(m, s, r, c, Ended(ok));
      case Count(_) => MoveKeepsTally(m, s, r, c, Counted);
    }
  }

  lemma TalliedExit(m: nat, s: State, c: nat)
    requires Tallied(m, s)
    ensures Tallied(m, Step(s, Exit(c)))
  {
    var r := Step(s, Exit(c));
    if r.tasks != s.tasks {
      assert RelaysIn(r.tasks) == RelaysIn(s.tasks);
      assert s.tasks.Keys == r.tasks.Keys + {c};
    }
  }

  lemma {:induction false} RunBalances(m: nat, h: seq<Event>)
    ensures CountedOnce(Run(m, h)) && Tallied(m, Run(m, h))
  {
    if h == [] {
      assert RelaysIn(Run(m, h).tasks) == {};
    } else {
      var before, e := Run(m, h[..|h| - 1]), h[|h| - 1];
      RunBalances(m, h[..|h| - 1]);
      if e.Accept? || e.AcceptFails? || e.Shutdown? || e.Admit? || e.Acquire? {
        CountedOnceInLoop(before, e);
        TalliedInLoop(m, before, e);
      } else {
        if e.Exit? {
          CountedOnceOnExit(before, e.task);
          TalliedExit(m, before, e.task);
        } else {
          CountedOnceInTask(before, e);
          TalliedMove(m, before, e);
        }
      }
    }
  }

  /** Over every interleaving: accepted = relayed + dropped + connections still in progress, each settled connection is
      counted exactly once, permits held are exactly the live tasks and so never exceed `maxConnections`, and the
      active gauge is the number of relays under way. */
  lemma AccountingBalances(m: nat, h: seq<Event>)
    ensures var s := Run(m, h);
            && s.accepted == s.relayed + |s.dropped| + |Unsettled(s)|
            && |s.tasks| == m - s.permits <= m
            && s.active == |RelaysIn(s.tasks)|
            && (forall c: nat :: s.settled[c] == if c < s.accepted && c !in Unsettled(s) then 1 else 0)
  {
    RunBalances(m, h);
    var s := Run(m, h);
    assert s.settled == multiset(UpTo(s.accepted) - Unsettled(s));
    assert |UpTo(s.accepted) - Unsettled(s)| == s.accepted - |Unsettled(s)|;
  }

  // ---- Each counter by its own events ----

  ghost predicate At(s: State, c: nat, stage: Stage) { c in s.tasks && s.tasks[c] == stage }

  /** The event that drops a connection for a reason: denied, or over the rate, by the accept loop; refused when
      `maxConnections` tasks are live; left without a backend, before an open circuit, or after a failed dial or relay,
      by its task at that stage. */
  ghost predicate Drops(m: nat, s: State, e: Event, reason: DropReason) {
    match reason
    case Acl => s.loop == Admitting && e.Admit? && !e.allowed
    case RateLimit => s.loop == Admitting && e.Admit? && e.allowed && !e.withinRate
    case Capacity => s.loop == Acquiring && e.Acquire? && |s.tasks| == m
    case NoBackend => e.Select? && At(s, e.task, Selecting) && !e.found
    case CircuitOpen => e.Gate? && At(s, e.task, Gating) && !e.closed
    case Protocol => (e.Dial? && At(s, e.task, Dialing) && !e.ok) || (e.Count? && At(s, e.task, Ended(false)))
  }

  ghost function DropsIn(m: nat, h: seq<Event>, reason: DropReason): nat {
    if h == [] then 0
    else DropsIn(m, h[..|h| - 1], reason) + if Drops(m, Run(m, h[..|h| - 1]), h[|h| - 1], reason) then 1 else 0
  }

  ghost function RelaysCounted(m: nat, h: seq<Event>): nat {
    if h == [] then 0
    else
      var s, e := Run(m, h[..|h| - 1]), h[|h| - 1];
      RelaysCounted(m, h[..|h| - 1]) + if e.Count? && At(s, e.task, Ended(true)) then 1 else 0
  }

  lemma DropOnAcquire(m: nat, s: State, reason: DropReason)
    requires CountedOnce(s) && Tallied(m, s)
    ensures Step(s, Acquire).dropped[reason] == s.dropped[reason] + if Drops(m, s, Acquire, reason) then 1 else 0
  {
  }

  lemma DropInLoop(m: nat, s: State, e: Event, reason: DropReason)
    requires (s.loop == Admitting ==> s.accepted > 0) && (e.Accept? || e.AcceptFails? || e.Shutdown? || e.Admit?)
    ensures Step(s, e).dropped[reason] == s.dropped[reason] + if Drops(m, s, e, reason) then 1 else 0
  {
  }

  lemma DropInTask(m: nat, s: State, e: Event, reason: DropReason)
    requires e.Select? || e.Gate? || e.Dial? || e.RelayEnds? || e.Count? || e.Exit?
    ensures Step(s, e).dropped[reason] == s.dropped[reason] + if Drops(m, s, e, reason) then 1 else 0
  {
  }

  /** On every run each drop counter is the number of its own events. */
  lemma {:induction false} DropsAreTheirEvents(m: nat, h: seq<Event>, reason: DropReason)
    ensures Run(m, h).dropped[reason] == DropsIn(m, h, reason)
  {
    if h == [] {
    } else {
      var s := Run(m, h[..|h| - 1]);
      DropsAreTheirEvents(m, h[..|h| - 1], reason);
      RunBalances(m, h[..|h| - 1]);
      var e := h[|h| - 1];
      if e.Acquire? {
        DropOnAcquire(m, s, reason);
      } else if e.Accept? || e.AcceptFails? || e.Shutdown? || e.Admit? {
        DropInLoop(m, s, e, reason);
      } else {
        DropInTask(m, s, e, reason);
      }
      assert Run(m, h) == Step(s, h[|h| - 1]);
    }
  }

  lemma RelayStep(s: State, e: Event)
    ensures Step(s, e).relayed == s.relayed + if e.Count? && At(s, e.task, Ended(true)) then 1 else 0
  {
  }

  /** And the relay counter is the number of relays that went well. */
  lemma {:induction false} RelaysAreTheirEvents(m: nat, h: seq<Event>)
    ensures Run(m, h).relayed == RelaysCounted(m, h)
  {
    if h == [] {
    } else {
      var s := Run(m, h[..|h| - 1]);
      RelaysAreTheirEvents(m, h[..|h| - 1]);
      RelayStep(s, h[|h| - 1]);
      assert Run(m, h) == Step(s, h[|h| - 1]);
    }
  }

  /** How the accept loop goes on: it takes one connection at a time, counts it, asks whether to admit it and for a
      permit, and is then free again; it stops on shutdown between connections, for good. */
  lemma LoopMoves(m: nat, h: seq<Event>, e: Event)
    ensures var s := Run(m, h);
            Step(s, e).accepted == s.accepted + if s.loop == Idle && e.Accept? then 1 else 0
    ensures var s, next := Run(m, h), Step(Run(m, h), e).loop;
            match s.loop
            case Idle => next == if e.Accept? then Admitting else if e.Shutdown? then Stopped else Idle
            case Admitting => next == if e == Admit(true, true) then Acquiring else if e.Admit? then Idle else Admitting
            case Acquiring => next == if e.Acquire? then Idle else Acquiring
            case Stopped => next == Stopped
  {
    RunBalances(m, h);
  }

  /** The stage after an event of its own connection: each answer takes a task one stage further or to its end, and a
      relay ends as it went; an event at another stage changes nothing. */
  ghost function NextStage(stage: Stage, e: Event): Stage {
    match stage
    case Selecting => if e.Select? then (if e.found then Gating else Counted) else stage
    case Gating => if e.Gate? then (if e.closed then Dialing else Counted) else stage
    case Dialing => if e.Dial? then (if e.ok then Relaying else Counted) else stage
    case Relaying => if e.RelayEnds? then Ended(e.ok) else stage
    case Ended(_) => if e.Count? then Counted else stage
    case Counted => stage
  }

  /** An event of a connection moves its task so, and no other. */
  lemma OwnEventMoves(s: State, e: Event, k: nat)
    requires (e.Select? || e.Gate? || e.Dial? || e.RelayEnds? || e.Count?) && k in s.tasks
    ensures k in Step(s, e).tasks
    ensures Step(s, e).tasks[k] == if k == e.task then NextStage(s.tasks[k], e) else s.tasks[k]
  {
  }

  /** A task ends exactly once its connection is counted. */
  lemma EndsOnceCounted(s: State, c: nat)
    ensures Step(s, Exit(c)).tasks == if c in s.tasks && s.tasks[c] == Counted then s.tasks - {c} else s.tasks
  {
  }

  /** An event of the accept loop adds a task only for the connection it holds, to select a backend, and only with a
      permit left. */
  lemma LoopEventSpawns(s: State, e: Event)
    requires e.Accept? || e.AcceptFails? || e.Shutdown? || e.Admit? || e.Acquire?
    ensures var spawns := e.Acquire? && s.loop == Acquiring && s.accepted > 0 && s.permits > 0;
            Step(s, e).tasks == if spawns then s.tasks[s.accepted - 1 := Selecting] else s.tasks
  {
  }

  // ---- The shared counters and the code that moves them ----

  lemma DropsByReason(m: multiset<DropReason>)
    ensures |m| == m[Acl] + m[RateLimit] + m[Capacity] + m[NoBackend] + m[CircuitOpen] + m[Protocol]
  {
    var a := m[Acl := 0];
    var b := a[RateLimit := 0];
    var c := b[Capacity := 0];
    var d := c[NoBackend := 0];
    var e := d[CircuitOpen := 0];
    var rest := e[Protocol := 0];
    assert |a| == |m| - m[Acl] && |b| == |a| - m[RateLimit] && |c| == |b| - m[Capacity];
    assert |d| == |c| - m[NoBackend] && |e| == |d| - m[CircuitOpen] && |rest| == |e| - m[Protocol];
    forall reason ensures rest[reason] == 0 {
      match reason
      case Acl =>
      case RateLimit =>
      case Capacity =>
      case NoBackend =>
      case CircuitOpen =>
      case Protocol =>
    }
    assert rest == multiset{};
  }

  /** The counters and permits as the accept loop and the connection tasks share them. Each method is the code of one
      step, and takes the represented state where the step takes it; other tasks may come in between any two. */
  class Ingress {
    var accepted: nat
    var relayed: nat
    var droppedAcl: nat
    var droppedRateLimit: nat
    var droppedCapacity: nat
    var droppedNoBackend: nat
    var droppedCircuitOpen: nat
    var droppedProtocol: nat
    var active: int
    var permits: nat

    ghost predicate Represents(s: State)
      reads this
    {
      && accepted == s.accepted && relayed == s.relayed && active == s.active && permits == s.permits
      && droppedAcl == s.dropped[Acl] && droppedRateLimit == s.dropped[RateLimit]
      && droppedCapacity == s.dropped[Capacity]
      && droppedNoBackend == s.dropped[NoBackend] && droppedCircuitOpen == s.dropped[CircuitOpen]
      && droppedProtocol == s.dropped[Protocol]
    }

    constructor (maxConnections: nat)
      ensures Represents(Start(maxConnections))
    {
      accepted, relayed, active, permits := 0, 0, 0, maxConnections;
      droppedAcl, droppedRateLimit, droppedCapacity := 0, 0, 0;
      droppedNoBackend, droppedCircuitOpen, droppedProtocol := 0, 0, 0;
    }

    method RecordDrop(reason: DropReason, ghost s: State, ghost c: nat)
      requires Represents(s)
      modifies this
      ensures Represents(Drop(s, c, reason))
    {
      match reason
      case Acl => droppedAcl := droppedAcl + 1;
      case RateLimit => droppedRateLimit := droppedRateLimit + 1;
      case Capacity => droppedCapacity := droppedCapacity + 1;
      case NoBackend => droppedNoBackend := droppedNoBackend + 1;
      case CircuitOpen => droppedCircuitOpen := droppedCircuitOpen + 1;
      case Protocol => droppedProtocol := droppedProtocol + 1;
    }

    /** After every run, the sum of the counters says how many connections are still in progress. */
    method Unaccounted(m: nat, ghost h: seq<Event>) returns (n: int)
      requires Represents(Run(m, h))
      ensures n == |Unsettled(Run(m, h))|
    {
      n := accepted - relayed
           - (droppedAcl + droppedRateLimit + droppedCapacity)
           - (droppedNoBackend + droppedCircuitOpen + droppedProtocol);
      AccountingBalances(m, h);
      DropsByReason(Run(m, h).dropped);
    }

    /** The accept loop takes a connection. */
    method RecordAccepted(ghost s: State)
      requires Represents(s) && s.loop == Idle
      modifies this
      ensures Represents(Step(s, Accept))
    {
      accepted := accepted + 1;
    }

    /** It turns the connection away for the access list's or the rate limiter's reason, or goes on. */
    method Admit(allowed: bool, withinRate: bool, ghost s: State) returns (goesOn: bool)
      requires Represents(s) && s.loop == Admitting && s.accepted > 0
      modifies this
      ensures var r := Step(s, Event.Admit(allowed, withinRate));
              Represents(r) && r.loop == if goesOn then Acquiring else Idle
    {
      var refused := Refusal(allowed, withinRate);
      if refused.Some? {
        RecordDrop(refused.value, s, s.accepted - 1);
      }
      return refused.None?;
    }

    /** It takes a permit for a new task, or drops the connection when there is none. */
    method TryAcquire(ghost s: State) returns (spawned: bool)
      requires Represents(s) && s.loop == Acquiring && s.accepted > 0
      modifies this
      ensures var r := Step(s, Acquire);
              Represents(r) && r.tasks == if spawned then s.tasks[s.accepted - 1 := Selecting] else s.tasks
    {
      if permits == 0 {
        RecordDrop(Capacity, s, s.accepted - 1);
        return false;
      }
      permits := permits - 1;
      return true;
    }

    /** A connection task asks for a backend. */
    method SelectBackend(found: bool, ghost c: nat, ghost s: State)
      requires Represents(s) && c in s.tasks && s.tasks[c] == Selecting
      modifies this
      ensures Represents(Step(s, Select(c, found)))
    {
      if !found {
        RecordDrop(NoBackend, s, c);
      }
    }

    /** It asks the backend's circuit breaker. */
    method PassGate(closed: bool, ghost c: nat, ghost s: State)
      requires Represents(s) && c in s.tasks && s.tasks[c] == Gating
      modifies this
      ensures Represents(Step(s, Gate(c, closed)))
    {
      if !closed {
        RecordDrop(CircuitOpen, s, c);
      }
    }

    /** It has dialled. */
    method AfterDial(ok: bool, ghost c: nat, ghost s: State)
      requires Represents(s) && c in s.tasks && s.tasks[c] == Dialing
      modifies this
      ensures Represents(Step(s, Dial(c, ok)))
    {
      if !ok {
        RecordDrop(Protocol, s, c);
        return;
      }
      active := active + 1;
    }

    /** Its relay is over. */
    method AfterRelay(ghost ok: bool, ghost c: nat, ghost s: State)
      requires Represents(s) && c in s.tasks && s.tasks[c] == Relaying
      modifies this
      ensures Represents(Step(s, RelayEnds(c, ok)))
    {
      active := active - 1;
    }

    /** It counts how the relay went. */
    method CountRelay(ok: bool, ghost c: nat, ghost s: State)
      requires Represents(s) && c in s.tasks && s.tasks[c] == Ended(ok)
      modifies this
      ensures Represents(Step(s, Count(c)))
    {
      if ok {
        relayed := relayed + 1;
      } else {
        RecordDrop(Protocol, s, c);
      }
    }

    /** A connection task ends and its permit goes back. */
    method ReleasePermit(ghost c: nat, ghost s: State)
      requires Represents(s) && c in s.tasks && s.tasks[c] == Counted
      modifies this
      ensures Represents(Step(s, Exit(c)))
    {
      permits := permits + 1;
    }
  }
}
