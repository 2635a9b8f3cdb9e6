/** The trailing-edge debounced file watcher (src/fs_watch.rs). Each accepted event bumps a shared generation and
    starts a worker that sleeps for the debounce and reloads only if the generation is still its own.

    A run is any interleaving of passing time, file events and worker wake-ups; a worker never wakes before its sleep
    is over, but may wake arbitrarily later. */
module FsWatch {
  import opened Bytes

  datatype Kind = Modify | Create | OtherKind

  /** What the notification backend delivers; an error carries no event. */
  datatype Notice = NoticeError | Notice(kind: Kind, paths: seq<Data>)

  predicate Accepts(triggers: seq<Data>, n: Notice) {
    n.Notice? && n.kind != OtherKind && exists p :: p in n.paths && p in triggers
  }

  datatype Config = Config(triggers: seq<Data>, debounce: nat)

  /** A worker's check: when it ran, how many events had been accepted by then, and whether it reloaded. */
  datatype Wake = Wake(at: nat, seen: nat, reloaded: bool)

  /** `events` holds when each accepted event happened; the worker of event i is in `sleeping` with the generation it
      remembers until it has run its check, which `checks` records. */
  datatype State = State(clock: nat, generation: U64, events: seq<nat>, sleeping: map<nat, U64>, checks: map<nat, Wake>)

  const START := State(0, 0, [], map[], map[])

  datatype Event = Wait(d: nat) | Notify(n: Notice) | WakeUp(worker: nat)

  function Step(c: Config, s: State, e: Event): State {
    match e
    case Wait(d) => s.(clock := s.clock + d)
    case Notify(n) =>
      if Accepts(c.triggers, n) then
        var mine := if s.generation == U64_SIZE - 1 then 0 else s.generation + 1;
        s.(generation := mine, events := s.events + [s.clock], sleeping := s.sleeping[|s.events| := mine])
      else s
    case WakeUp(i) =>
      if i in s.sleeping && i < |s.events| && s.clock >= s.events[i] + c.debounce then
        s.(sleeping := s.sleeping - {i},
           checks := s.checks[i := Wake(s.clock, |s.events|, s.generation == s.sleeping[i])])
      else s
  }

  function Run(c: Config, h: seq<Event>): State {
    if h == [] then START else Step(c, Run(c, h[..|h| - 1]), h[|h| - 1])
  }

  // ---- What the notices say ----

  ghost function Now(h: seq<Event>): nat {
    if h == [] then 0 else Now(h[..|h| - 1]) + if h[|h| - 1].Wait? then h[|h| - 1].d else 0
  }

  /** A notice counts if it is no error, and a modification or creation of one of the watched files. */
  lemma AcceptsExactly(triggers: seq<Data>, n: Notice)
    ensures Accepts(triggers, n) <==> n.Notice? && (n.kind == Modify || n.kind == Create) && Concerns(triggers, n.paths)
  {
    if n.Notice? && exists p :: p in n.paths && p in triggers {
      var p :| p in n.paths && p in triggers;
      var i, j :| 0 <= i < |n.paths| && n.paths[i] == p && 0 <= j < |triggers| && triggers[j] == p;
      assert n.paths[i] == triggers[j];
    }
    if n.Notice? && Concerns(triggers, n.paths) {
      var i, j :| 0 <= i < |n.paths| && 0 <= j < |triggers| && n.paths[i] == triggers[j];
      assert n.paths[i] in n.paths && n.paths[i] in triggers;
    }
  }

  ghost predicate Concerns(triggers: seq<Data>, paths: seq<Data>) {
    exists i, j :: 0 <= i < |paths| && 0 <= j < |triggers| && paths[i] == triggers[j]
  }

  /** The times of the notices that count. */
  ghost function Changes(c: Config, h: seq<Event>): seq<nat> {
    if h == [] then []
    else
      var last, before := h[|h| - 1], Changes(c, h[..|h| - 1]);
      if last.Notify? && last.n.Notice? && (last.n.kind == Modify || last.n.kind == Create)
         && Concerns(c.triggers, last.n.paths)
      then before + [Now(h[..|h| - 1])]
      else before
  }

  /** The events of a run are exactly those, each at its time. */
  lemma {:induction false} EventsAreChanges(c: Config, h: seq<Event>)
    ensures Run(c, h).clock == Now(h) && Run(c, h).events == Changes(c, h)
  {
    if h == [] {
    } else {
      EventsAreChanges(c, h[..|h| - 1]);
      if h[|h| - 1].Notify? {
        AcceptsExactly(c.triggers, h[|h| - 1].n);
      }
    }
  }

  /** Every accepted event has one worker, asleep with its own generation or done. */
  ghost predicate Accounted(s: State) {
    && s.generation == |s.events|
    && s.sleeping.Keys !! s.checks.Keys
    && (forall i :: i in s.sleeping || i in s.checks <==> 0 <= i < |s.events|)
    && (forall i :: i in s.sleeping ==> s.sleeping[i] == i + 1)
  }

  /** Every check came at least one debounce after its event, and reloaded exactly when no event was accepted between
      that event and the check. */
  ghost predicate Timely(c: Config, s: State) {
    && (forall i, j :: 0 <= i < j < |s.events| ==> s.events[i] <= s.events[j])
    && (forall i :: 0 <= i < |s.events| ==> s.events[i] <= s.clock)
    && (forall i :: i in s.checks ==> SoundCheck(c, s.events, s.clock, i, s.checks[i]))
  }

  ghost predicate SoundCheck(c: Config, events: seq<nat>, clock: nat, i: nat, w: Wake) {
    && i < w.seen <= |events|
    && events[i] + c.debounce <= w.at <= clock
    && events[w.seen - 1] <= w.at
    && (w.seen < |events| ==> w.at <= events[w.seen])
    && (w.reloaded <==> w.seen == i + 1)
  }

  lemma CheckStaysSound(c: Config, s: State, events: seq<nat>, clock: nat, i: nat)
    requires Timely(c, s) && i in s.checks
    requires s.events <= events && s.clock <= clock && |events| <= |s.events| + 1
    requires |events| > |s.events| ==> events[|s.events|] == s.clock
    ensures SoundCheck(c, events, clock, i, s.checks[i])
  {
    assert SoundCheck(c, s.events, s.clock, i, s.checks[i]);
  }

  /** A worker that wakes adds a sound check. */
  lemma TimelyWakeUp(c: Config, s: State, i: nat)
    requires Accounted(s) && Timely(c, s)
    ensures Timely(c, Step(c, s, WakeUp(i)))
  {
    var r := Step(c, s, WakeUp(i));
    if r != s {
      assert s.generation == s.sleeping[i] <==> |s.events| == i + 1;
      assert SoundCheck(c, s.events, s.clock, i, r.checks[i]);
    }
  }

  /** Time and notices leave the checks as they are, and sound. */
  lemma TimelyStep(c: Config, s: State, e: Event)
    requires Accounted(s) && Timely(c, s)
    ensures Timely(c, Step(c, s, e))
  {
    var r := Step(c, s, e);
    if e.WakeUp? {
      TimelyWakeUp(c, s, e.worker);
    } else {
      forall i | i in r.checks ensures SoundCheck(c, r.events, r.clock, i, r.checks[i]) {
        CheckStaysSound(c, s, r.events, r.clock, i);
      }
    }
  }

  lemma AccountedStep(c: Config, s: State, e: Event)
    requires Accounted(s) && |Step(c, s, e).events| < U64_SIZE
    ensures Accounted(Step(c, s, e))
  {
  }

  lemma {:induction false} RunKeeps(c: Config, h: seq<Event>)
    requires |Run(c, h).events| < U64_SIZE
    ensures Accounted(Run(c, h)) && Timely(c, Run(c, h))
  {
    if h == [] {
    } else {
      RunKeeps(c, h[..|h| - 1]);
      TimelyStep(c, Run(c, h[..|h| - 1]), h[|h| - 1]);
      AccountedStep(c, Run(c, h[..|h| - 1]), h[|h| - 1]);
    }
  }

  /** A worker reloads exactly when no accepted event followed its own before its check; and then at least one debounce
      of quiet lies between its event and the next one. */
  lemma ReloadsOnlyAfterQuiet(c: Config, h: seq<Event>, i: nat)
    requires |Run(c, h).events| < U64_SIZE && i in Run(c, h).checks
    ensures var s := Run(c, h);
            && i < s.checks[i].seen <= |s.events|
            && s.checks[i].at >= s.events[i] + c.debounce
            && (s.checks[i].reloaded <==> s.checks[i].seen == i + 1)
            && (s.checks[i].reloaded && i + 1 < |s.events| ==>
                  s.events[i + 1] >= s.checks[i].at >= s.events[i] + c.debounce)
  {
    RunKeeps(c, h);
    assert SoundCheck(c, Run(c, h).events, Run(c, h).clock, i, Run(c, h).checks[i]);
  }

  /** Accepted events first..last follow each other in less than the debounce. */
  ghost predicate Burst(c: Config, events: seq<nat>, first: nat, last: nat) {
    first <= last < |events| && forall i :: first <= i < last ==> events[i + 1] < events[i] + c.debounce
  }

  /** A burst yields at most one reload, that of its last event. */
  lemma BurstReloadsAtMostOnce(c: Config, h: seq<Event>, first: nat, last: nat, i: nat)
    requires |Run(c, h).events| < U64_SIZE && Burst(c, Run(c, h).events, first, last) && first <= i <= last
    ensures var s := Run(c, h);
            i in s.checks && s.checks[i].reloaded ==> i == last
  {
    if i in Run(c, h).checks {
      ReloadsOnlyAfterQuiet(c, h, i);
    }
  }

  /** Once no worker is asleep, the newest event has been followed by its reload, at least one debounce after it: the
      file as it was last saved has been read. */
  lemma NewestEventIsReloaded(c: Config, h: seq<Event>)
    requires |Run(c, h).events| < U64_SIZE && Run(c, h).sleeping == map[] && Run(c, h).events != []
    ensures var s := Run(c, h);
            var newest := |s.events| - 1;
            newest in s.checks && s.checks[newest].reloaded && s.checks[newest].at >= s.events[newest] + c.debounce
  {
    RunKeeps(c, h);
    var s := Run(c, h);
    var newest := |s.events| - 1;
    assert newest in s.sleeping || newest in s.checks;
    assert SoundCheck(c, s.events, s.clock, newest, s.checks[newest]);
  }

  /** When the worker of an event checks exactly one debounce after it, the event is reloaded if and only if no later
      event had been accepted by then: always after more than a debounce of quiet, and never after less. An event that
      comes at that very instant may fall on either side of the check. */
  lemma PromptCheckFollowsQuiet(c: Config, h: seq<Event>, i: nat)
    requires |Run(c, h).events| < U64_SIZE && i in Run(c, h).checks && i < |Run(c, h).events|
    requires Run(c, h).checks[i].at == Run(c, h).events[i] + c.debounce
    ensures var s := Run(c, h);
            && (s.checks[i].reloaded <==> s.checks[i].seen == i + 1)
            && (i + 1 == |s.events| || s.events[i + 1] > s.events[i] + c.debounce ==> s.checks[i].reloaded)
            && (s.checks[i].reloaded ==> i + 1 == |s.events| || s.events[i + 1] >= s.events[i] + c.debounce)
  {
    RunKeeps(c, h);
    assert SoundCheck(c, Run(c, h).events, Run(c, h).clock, i, Run(c, h).checks[i]);
  }

  // ---- The shared generation and the code around it ----

  /** The notification callback and the workers it spawns, around the one generation counter they share. */
  class Watcher {
    const config: Config
    var generation: U64

    constructor (config: Config)
      ensures this.config == config && generation == START.generation
    {
      this.config, generation := config, 0;
    }

    /** Spawns a worker exactly for an accepted event, with the generation the event was given. */
    method OnNotice(n: Notice, ghost s: State) returns (worker: Option<U64>)
      requires generation == s.generation
      modifies this
      ensures var r := Step(config, s, Notify(n));
              && generation == r.generation
              && (worker.Some? <==> n.Notice? && (n.kind == Modify || n.kind == Create)
                                    && exists i :: 0 <= i < |n.paths| && n.paths[i] in config.triggers)
              && r.sleeping == if worker.Some? then s.sleeping[|s.events| := worker.value] else s.sleeping
    {
      if n.NoticeError? {
        return None;
      }
      if n.kind != Modify && n.kind != Create {
        return None;
      }
      var ours := false;
      for i := 0 to |n.paths|
        invariant !ours && forall k :: 0 <= k < i ==> n.paths[k] !in config.triggers
      {
        if n.paths[i] in config.triggers {
          ours := true;
          break;
        }
      }
      if !ours {
        return None;
      }
      generation := if generation == U64_SIZE - 1 then 0 else generation + 1;
      return Some(generation);
    }

    /** A worker after its sleep. */
    method Check(mine: U64, ghost i: nat, ghost s: State) returns (reload: bool)
      requires generation == s.generation && i in s.sleeping && s.sleeping[i] == mine
      requires i < |s.events| && s.clock >= s.events[i] + config.debounce
      ensures var r := Step(config, s, WakeUp(i));
              i in r.checks && r.checks[i].reloaded == reload && generation == r.generation
    {
      if generation != mine {
        return false;
      }
      return true;
    }
  }
}
