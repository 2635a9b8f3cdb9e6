/** Backend selection (src/balancer/mod.rs and select_backend of src/balancer/rendezvous.rs): the highest rendezvous
    score among eligible, non-excluded backends wins, and ties keep the earlier one. */
module Balancer {
  import opened Bytes
  import opened Net
  import opened Rendezvous

  /** A backend with the weight it is scored by. */
  datatype Candidate = Candidate(id: Id, weight: real)

  /** Who asks, and the stand-in for the logarithm. */
  datatype Query = Query(client: IpAddr, cost: U64 -> real)

  ghost predicate Sound(q: Query) { LogLike(q.cost) }

  function ScoreOf(q: Query, c: Candidate): real
    requires forall x: U64 :: q.cost(x) > 0.0
  {
    Score(q.cost, q.client, c.id, c.weight)
  }

  predicate Eligible(excluded: seq<Id>, c: Candidate) { c.weight > 0.0 && c.id !in excluded }

  /** The first backend of the highest score among the eligible ones. */
  function Pick(q: Query, pool: seq<Candidate>, excluded: seq<Id>): Option<Candidate>
    requires forall x: U64 :: q.cost(x) > 0.0
  {
    if pool == [] then None
    else
      var best, last := Pick(q, pool[..|pool| - 1], excluded), pool[|pool| - 1];
      if Eligible(excluded, last) && (best.None? || ScoreOf(q, last) > ScoreOf(q, best.value)) then Some(last) else best
  }

  /** The k-th candidate is weighted and not excluded, no such candidate has a larger weight by cost of its hash,
      and none before it as large a one. */
  ghost predicate Wins(q: Query, pool: seq<Candidate>, excluded: seq<Id>, k: nat)
    requires forall x: U64 :: q.cost(x) > 0.0
  {
    && k < |pool| && pool[k].weight > 0.0 && pool[k].id !in excluded
    && forall i :: 0 <= i < |pool| && pool[i].weight > 0.0 && pool[i].id !in excluded ==>
         var x, y := pool[i].weight / q.cost(HashPair(q.client, pool[i].id)),
                     pool[k].weight / q.cost(HashPair(q.client, pool[k].id));
         x <= y && (i < k ==> x < y)
  }

  ghost predicate NobodyWins(pool: seq<Candidate>, excluded: seq<Id>) {
    forall i :: 0 <= i < |pool| ==> pool[i].weight <= 0.0 || pool[i].id in excluded
  }

  /** One more candidate at the end: it wins if it scores strictly more than the winner so far. */
  lemma WinsPush(q: Query, pool: seq<Candidate>, excluded: seq<Id>, c: Candidate, best: Option<nat>)
    requires forall x: U64 :: q.cost(x) > 0.0
    requires if best.Some? then Wins(q, pool, excluded, best.value) else NobodyWins(pool, excluded)
    ensures !Eligible(excluded, c) ==>
              if best.Some? then Wins(q, pool + [c], excluded, best.value) else NobodyWins(pool + [c], excluded)
    ensures Eligible(excluded, c) && (best.None? || ScoreOf(q, c) > ScoreOf(q, pool[best.value])) ==>
              Wins(q, pool + [c], excluded, |pool|)
    ensures Eligible(excluded, c) && best.Some? && ScoreOf(q, c) <= ScoreOf(q, pool[best.value]) ==>
              Wins(q, pool + [c], excluded, best.value)
  {
  }

  /** The winner among the first i candidates, if anybody wins. */
  ghost predicate WinsAmong(q: Query, pool: seq<Candidate>, excluded: seq<Id>, i: nat, best: Option<nat>)
    requires forall x: U64 :: q.cost(x) > 0.0
  {
    && i <= |pool|
    && (if best.Some? then Wins(q, pool[..i], excluded, best.value) else NobodyWins(pool[..i], excluded))
  }

  lemma WinsAmongNext(q: Query, pool: seq<Candidate>, excluded: seq<Id>, i: nat, best: Option<nat>)
    requires forall x: U64 :: q.cost(x) > 0.0
    requires i < |pool| && WinsAmong(q, pool, excluded, i, best)
    ensures best.Some? ==> best.value < i
    ensures var better :=
              Eligible(excluded, pool[i]) && (best.None? || ScoreOf(q, pool[i]) > ScoreOf(q, pool[best.value]));
            WinsAmong(q, pool, excluded, i + 1, if better then Some(i) else best)
  {
    WinsPush(q, pool[..i], excluded, pool[i], best);
    assert pool[..i + 1] == pool[..i] + [pool[i]];
  }

  /** The pick is the winner, and there is none exactly when nobody wins. */
  lemma {:induction false} WinnerIsPick(q: Query, pool: seq<Candidate>, excluded: seq<Id>, best: Option<nat>)
    requires forall x: U64 :: q.cost(x) > 0.0
    requires if best.Some? then Wins(q, pool, excluded, best.value) else NobodyWins(pool, excluded)
    ensures Pick(q, pool, excluded) == if best.Some? then Some(pool[best.value]) else None
  {
    if pool == [] {
    } else {
      var front, last := pool[..|pool| - 1], pool[|pool| - 1];
      if best.None? {
        WinnerIsPick(q, front, excluded, None);
      } else if best.value < |front| {
        WinnerIsPick(q, front, excluded, best);
      } else {
        LastWins(q, pool, excluded);
      }
    }
  }

  lemma LastWins(q: Query, pool: seq<Candidate>, excluded: seq<Id>)
    requires forall x: U64 :: q.cost(x) > 0.0
    requires pool != [] && Wins(q, pool, excluded, |pool| - 1)
    ensures Pick(q, pool, excluded) == Some(pool[|pool| - 1])
  {
    var front := pool[..|pool| - 1];
    if Pick(q, front, excluded).Some? {
      var i := PickIsAMember(q, front, excluded);
      assert pool[i] == front[i];
    }
  }

  lemma {:induction false} PickIsAMember(q: Query, pool: seq<Candidate>, excluded: seq<Id>) returns (i: nat)
    requires forall x: U64 :: q.cost(x) > 0.0
    requires Pick(q, pool, excluded).Some?
    ensures i < |pool| && pool[i] == Pick(q, pool, excluded).value && Eligible(excluded, pool[i])
  {
    var front := pool[..|pool| - 1];
    if Pick(q, front, excluded) == Pick(q, pool, excluded) {
      i := PickIsAMember(q, front, excluded);
    } else {
      i := |pool| - 1;
    }
  }

  // ---- The loops ----

  /** The candidates two parallel slices stand for; a missing weight counts as 1. */
  function Pool(ids: seq<Id>, weights: seq<real>): (r: seq<Candidate>)
    ensures |r| == |ids|
    ensures forall i :: 0 <= i < |ids| ==> r[i] == Candidate(ids[i], if i < |weights| then weights[i] else 1.0)
  {
    seq(|ids|, i requires 0 <= i < |ids| => Candidate(ids[i], if i < |weights| then weights[i] else 1.0))
  }

  method SelectBackend(q: Query, ids: seq<Id>, weights: seq<real>) returns (best: Option<nat>)
    requires forall x: U64 :: q.cost(x) > 0.0
    ensures var pool := Pool(ids, weights);
            && (best.None? <==> Pick(q, pool, []).None?)
            && (best.Some? ==> best.value < |ids| && Pick(q, pool, []) == Some(pool[best.value]))
            && if best.Some? then Wins(q, pool, [], best.value) else NobodyWins(pool, [])
  {
    ghost var pool := Pool(ids, weights);
    best := None;
    var bestScore := 0.0;
    for i := 0 to |ids|
      invariant best.Some? ==> best.value < i && bestScore == ScoreOf(q, pool[best.value])
      invariant WinsAmong(q, pool, [], i, best)
    {
      WinsAmongNext(q, pool, [], i, best);
      var weight := if i < |weights| then weights[i] else 1.0;
      if weight > 0.0 {
        var score := Score(q.cost, q.client, ids[i], weight);
        if best.None? || score > bestScore {
          best, bestScore := Some(i), score;
        }
      }
    }
    assert pool[..|ids|] == pool;
    WinnerIsPick(q, pool, [], best);
  }

  /** A configured backend. */
  datatype Backend = Backend(id: Id, pool: Data, weight: real)

  function Clamp(x: real): real { if x < 0.0 then 0.0 else if x > 1.0 then 1.0 else x }

  /** Base weight, times the health factor, times what connection pressure leaves. */
  function ScoredWeight(b: Backend, factor: Id -> real, pressure: Backend -> real): real {
    b.weight * factor(b.id) * (1.0 - Clamp(pressure(b)))
  }

  function Scored(pool: seq<Backend>, factor: Id -> real, pressure: Backend -> real): (r: seq<Candidate>)
    ensures |r| == |pool|
    ensures forall i :: 0 <= i < |pool| ==> r[i] == Candidate(pool[i].id, ScoredWeight(pool[i], factor, pressure))
  {
    seq(|pool|, i requires 0 <= i < |pool| => Candidate(pool[i].id, ScoredWeight(pool[i], factor, pressure)))
  }

  method SelectWithPressureExcluding(q: Query, pool: seq<Backend>, factor: Id -> real, pressure: Backend -> real,
                                     excluded: seq<Id>)
    returns (r: Option<Backend>)
    requires forall x: U64 :: q.cost(x) > 0.0
    ensures var pick := Pick(q, Scored(pool, factor, pressure), excluded);
            && (r.None? <==> pick.None?)
            && (r.Some? ==>
                  r.value in pool && pick == Some(Candidate(r.value.id, ScoredWeight(r.value, factor, pressure))))
    ensures if r.None? then NobodyWins(Scored(pool, factor, pressure), excluded)
            else exists k ::
                   0 <= k < |pool| && pool[k] == r.value && Wins(q, Scored(pool, factor, pressure), excluded, k)
  {
    if pool == [] {
      return None;
    }
    var weights := Scored(pool, factor, pressure);
    var best: Option<nat> := None;
    var bestScore := 0.0;
    for i := 0 to |pool|
      invariant best.Some? ==> best.value < i && bestScore == ScoreOf(q, weights[best.value])
      invariant WinsAmong(q, weights, excluded, i, best)
    {
      WinsAmongNext(q, weights, excluded, i, best);
      if weights[i].weight > 0.0 && pool[i].id !in excluded {
        var score := Score(q.cost, q.client, pool[i].id, weights[i].weight);
        if best.None? || score > bestScore {
          best, bestScore := Some(i), score;
        }
      }
    }
    assert weights[..|pool|] == weights;
    WinnerIsPick(q, weights, excluded, best);
    if best.None? {
      return None;
    }
    return Some(pool[best.value]);
  }

  /** The weight a backend is scored by: all of its weight by its health without pressure, none at full pressure, in
      proportion in between; and a heavier backend of the same health and pressure is not scored lighter. */
  lemma ScoredWeightIs(b: Backend, heavier: Backend, factor: Id -> real, pressure: Backend -> real)
    requires heavier.id == b.id && heavier.weight >= b.weight && pressure(heavier) == pressure(b) && factor(b.id) >= 0.0
    ensures var healthy, w := b.weight * factor(b.id), ScoredWeight(b, factor, pressure);
            && (pressure(b) <= 0.0 ==> w == healthy)
            && (pressure(b) >= 1.0 ==> w == 0.0)
            && (0.0 <= pressure(b) <= 1.0 ==> w + healthy * pressure(b) == healthy)
    ensures ScoredWeight(b, factor, pressure) <= ScoredWeight(heavier, factor, pressure)
  {
    ScalesUp(b.weight, heavier.weight, factor(b.id));
    ScalesUp(b.weight * factor(b.id), heavier.weight * factor(b.id), 1.0 - Clamp(pressure(b)));
  }

  lemma ScalesUp(x: real, y: real, z: real)
    requires x <= y && z >= 0.0
    ensures x * z <= y * z
  {
  }

  /** What the health table knows of a backend: the fresh entry, if there is one. */
  datatype Health = Health(online: bool, load: real, latencyMs: nat)

  function WeightFactor(h: Option<Health>, latencyThresholdMs: nat): (r: real)
    ensures 0.0 <= r <= 1.0
    ensures h.Some? && (!h.value.online || h.value.load >= 1.0) ==> r == 0.0
    ensures h.None? ==> r == 1.0
    ensures h.Some? && h.value.online ==>
              && (h.value.latencyMs <= latencyThresholdMs ==> r + Clamp(h.value.load) == 1.0)
              && (h.value.latencyMs > latencyThresholdMs ==>
                    r * (h.value.latencyMs as real) == (1.0 - Clamp(h.value.load)) * (latencyThresholdMs as real))
  {
    if h.None? then 1.0
    else if !h.value.online then 0.0
    else
      var loadFactor := 1.0 - Clamp(h.value.load);
      if h.value.latencyMs > latencyThresholdMs then
        ProductOfFractions(loadFactor, latencyThresholdMs as real, h.value.latencyMs as real);
        loadFactor * ((latencyThresholdMs as real) / (h.value.latencyMs as real))
      else loadFactor
  }

  lemma ProductOfFractions(a: real, x: real, y: real)
    requires 0.0 <= a <= 1.0 && 0.0 <= x < y
    ensures 0.0 <= a * (x / y) <= 1.0
    ensures a * (x / y) * y == a * x
  {
    var f := x / y;
    assert f * y == x;
    assert 0.0 <= f <= 1.0;
    assert a * f <= f;
  }

  /** More load or more latency never raises the factor. */
  lemma WeightFactorFalls(g: Health, h: Health, latencyThresholdMs: nat)
    requires g.online && h.online && g.load <= h.load && g.latencyMs <= h.latencyMs
    ensures WeightFactor(Some(h), latencyThresholdMs) <= WeightFactor(Some(g), latencyThresholdMs)
  {
    var a, b := 1.0 - Clamp(g.load), 1.0 - Clamp(h.load);
    var t, x, y := latencyThresholdMs as real, g.latencyMs as real, h.latencyMs as real;
    if h.latencyMs > latencyThresholdMs {
      ProductOfFractions(b, t, y);
      if g.latencyMs > latencyThresholdMs {
        SharesFall(t, x, y);
        ProductsGrow(b, a, t / y, t / x);
      } else {
        SharesFall(t, t, y);
        ProductsGrow(b, a, t / y, 1.0);
      }
    }
  }

  lemma SharesFall(t: real, x: real, y: real)
    requires 0.0 <= t <= x <= y && y > 0.0
    ensures 0.0 <= t / y <= 1.0
    ensures x > 0.0 ==> t / y <= t / x
  {
    assert t / y * y == t;
    if x > 0.0 {
      assert t / x * x == t;
    }
  }

  lemma ProductsGrow(b: real, a: real, g: real, f: real)
    requires 0.0 <= b <= a && 0.0 <= g <= f
    ensures b * g <= a * f
  {
    assert b * g <= b * f <= a * f;
  }

  // ---- What a pick is ----

  function Better(q: Query, x: Option<Candidate>, y: Option<Candidate>): Option<Candidate>
    requires forall h: U64 :: q.cost(h) > 0.0
  {
    if x.None? then y else if y.Some? && ScoreOf(q, y.value) > ScoreOf(q, x.value) then y else x
  }

  /** Selection over two stretches is the better of the two selections, the earlier one on a tie. */
  lemma {:induction false} PickSplit(q: Query, a: seq<Candidate>, b: seq<Candidate>, excluded: seq<Id>)
    requires Sound(q)
    ensures Pick(q, a + b, excluded) == Better(q, Pick(q, a, excluded), Pick(q, b, excluded))
  {
    if b == [] {
      assert a + b == a;
    } else {
      PickSplit(q, a, b[..|b| - 1], excluded);
      assert (a + b)[..|a + b| - 1] == a + b[..|b| - 1];
    }
  }

  lemma PickOne(q: Query, c: Candidate, excluded: seq<Id>)
    requires Sound(q)
    ensures Pick(q, [c], excluded) == if Eligible(excluded, c) then Some(c) else None
  {
    assert [c][..0] == [];
  }

  lemma PickAround(q: Query, a: seq<Candidate>, c: Candidate, b: seq<Candidate>, excluded: seq<Id>)
    requires Sound(q)
    ensures Pick(q, a + [c] + b, excluded)
            == Better(q,
                      Better(q, Pick(q, a, excluded), if Eligible(excluded, c) then Some(c) else None),
                      Pick(q, b, excluded))
    ensures Pick(q, a + b, excluded) == Better(q, Pick(q, a, excluded), Pick(q, b, excluded))
  {
    PickSplit(q, a + [c], b, excluded);
    PickSplit(q, a, [c], excluded);
    PickOne(q, c, excluded);
    PickSplit(q, a, b, excluded);
  }

  /** The pick is eligible and no eligible backend scores higher; there is one exactly when some backend is eligible. */
  lemma {:induction false} PickIsBest(q: Query, pool: seq<Candidate>, excluded: seq<Id>)
    requires Sound(q)
    ensures var r := Pick(q, pool, excluded);
            && (r.Some? <==> exists c :: c in pool && Eligible(excluded, c))
            && (r.Some? ==> r.value in pool && Eligible(excluded, r.value))
            && (forall c :: c in pool && Eligible(excluded, c) ==> ScoreOf(q, c) <= ScoreOf(q, r.value))
  {
    if pool == [] {
    } else {
      var front, last := pool[..|pool| - 1], pool[|pool| - 1];
      assert pool == front + [last];
      PickIsBest(q, front, excluded);
    }
  }

  function Filtered(pool: seq<Candidate>, excluded: seq<Id>): seq<Candidate> {
    if pool == [] then []
    else Filtered(pool[..|pool| - 1], excluded) + if pool[|pool| - 1].id in excluded then [] else [pool[|pool| - 1]]
  }

  /** Selecting with exclusions is selecting from the pool without the excluded backends. */
  lemma {:induction false} ExclusionIsFiltering(q: Query, pool: seq<Candidate>, excluded: seq<Id>)
    requires Sound(q)
    ensures Pick(q, pool, excluded) == Pick(q, Filtered(pool, excluded), [])
  {
    if pool == [] {
    } else {
      var front, last := pool[..|pool| - 1], pool[|pool| - 1];
      ExclusionIsFiltering(q, front, excluded);
      var f := Filtered(front, excluded);
      if last.id in excluded {
        assert Filtered(pool, excluded) == f;
      } else {
        assert Filtered(pool, excluded) == f + [last];
        PickPush(q, f, last, []);
      }
    }
  }

  lemma PickPush(q: Query, front: seq<Candidate>, last: Candidate, excluded: seq<Id>)
    requires Sound(q)
    ensures Pick(q, front + [last], excluded)
            == Better(q, Pick(q, front, excluded), if Eligible(excluded, last) then Some(last) else None)
  {
    assert (front + [last])[..|front|] == front;
  }

  /** Removing a backend that was not selected never changes the choice. */
  lemma RemovalKeepsChoice(q: Query, a: seq<Candidate>, c: Candidate, b: seq<Candidate>, excluded: seq<Id>)
    requires Sound(q) && Pick(q, a + [c] + b, excluded) != Some(c)
    ensures Pick(q, a + b, excluded) == Pick(q, a + [c] + b, excluded)
  {
    PickAround(q, a, c, b, excluded);
  }

  /** Adding a backend keeps the choice or moves it to the new one; so only clients that move to it are remapped. */
  lemma AdditionKeepsOrMoves(q: Query, a: seq<Candidate>, c: Candidate, b: seq<Candidate>, excluded: seq<Id>)
    requires Sound(q)
    ensures Pick(q, a + [c] + b, excluded) == Pick(q, a + b, excluded) || Pick(q, a + [c] + b, excluded) == Some(c)
  {
    PickAround(q, a, c, b, excluded);
  }

  lemma HeavierScoresHigher(q: Query, c: Candidate, weight: real)
    requires Sound(q) && 0.0 < c.weight <= weight
    ensures ScoreOf(q, c) <= ScoreOf(q, c.(weight := weight))
  {
    QuotientGrows(c.weight, weight, q.cost(HashPair(q.client, c.id)));
  }

  /** Raising only the winner's weight keeps it the winner. */
  lemma RaisingWinnerKeepsIt(q: Query, a: seq<Candidate>, c: Candidate, b: seq<Candidate>, excluded: seq<Id>,
                             weight: real)
    requires Sound(q) && c !in a && c !in b && Pick(q, a + [c] + b, excluded) == Some(c) && c.weight <= weight
    ensures Pick(q, a + [c.(weight := weight)] + b, excluded) == Some(c.(weight := weight))
  {
    var raised := c.(weight := weight);
    PickAround(q, a, c, b, excluded);
    PickAround(q, a, raised, b, excluded);
    PickIsBest(q, a, excluded);
    PickIsBest(q, b, excluded);
    PickIsBest(q, a + [c] + b, excluded);
    HeavierScoresHigher(q, c, weight);
  }

  // ---- Working through the pool ----

  lemma {:induction false} FilteredShrinks(pool: seq<Candidate>, excluded: seq<Id>, id: Id)
    ensures |Filtered(pool, excluded + [id])| <= |Filtered(pool, excluded)|
    ensures (exists c :: c in pool && c.id == id && id !in excluded) ==>
              |Filtered(pool, excluded + [id])| < |Filtered(pool, excluded)|
  {
    if pool == [] {
    } else {
      var front, last := pool[..|pool| - 1], pool[|pool| - 1];
      assert pool == front + [last];
      FilteredShrinks(front, excluded, id);
    }
  }

  /** The backends tried in turn when each winner is excluded from the next selection, until none is left. */
  ghost function Attempts(q: Query, pool: seq<Candidate>, excluded: seq<Id>): seq<Candidate>
    requires Sound(q)
    decreases |Filtered(pool, excluded)|
  {
    var r := Pick(q, pool, excluded);
    if r.None? then []
    else
      PickIsBest(q, pool, excluded);
      FilteredShrinks(pool, excluded, r.value.id);
      [r.value] + Attempts(q, pool, excluded + [r.value.id])
  }

  lemma {:induction false} AttemptsAreEligible(q: Query, pool: seq<Candidate>, excluded: seq<Id>, i: nat)
    requires Sound(q) && i < |Attempts(q, pool, excluded)|
    ensures Attempts(q, pool, excluded)[i] in pool && Eligible(excluded, Attempts(q, pool, excluded)[i])
    ensures i > 0 ==> Attempts(q, pool, excluded)[i].id != Attempts(q, pool, excluded)[0].id
    decreases i
  {
    PickIsBest(q, pool, excluded);
    var more := excluded + [Pick(q, pool, excluded).value.id];
    if i == 0 {
    } else {
      AttemptsAreEligible(q, pool, more, i - 1);
    }
  }

  lemma {:induction false} AttemptsAreOrdered(q: Query, pool: seq<Candidate>, excluded: seq<Id>, i: nat, j: nat)
    requires Sound(q) && i < j < |Attempts(q, pool, excluded)|
    ensures Attempts(q, pool, excluded)[i].id != Attempts(q, pool, excluded)[j].id
    ensures ScoreOf(q, Attempts(q, pool, excluded)[i]) >= ScoreOf(q, Attempts(q, pool, excluded)[j])
    decreases i
  {
    if i == 0 {
      AttemptsAreEligible(q, pool, excluded, j);
      PickIsBest(q, pool, excluded);
    } else {
      AttemptsAreOrdered(q, pool, excluded + [Pick(q, pool, excluded).value.id], i - 1, j - 1);
    }
  }

  lemma {:induction false} AttemptsCover(q: Query, pool: seq<Candidate>, excluded: seq<Id>, c: Candidate)
    returns (i: nat)
    requires Sound(q) && c in pool && Eligible(excluded, c)
    ensures i < |Attempts(q, pool, excluded)| && Attempts(q, pool, excluded)[i].id == c.id
    decreases |Filtered(pool, excluded)|
  {
    PickIsBest(q, pool, excluded);
    var winner := Pick(q, pool, excluded).value;
    if c.id == winner.id {
      i := 0;
    } else {
      FilteredShrinks(pool, excluded, winner.id);
      i := AttemptsCover(q, pool, excluded + [winner.id], c);
      i := i + 1;
    }
  }

  lemma {:induction false} AttemptsExhaust(q: Query, pool: seq<Candidate>, excluded: seq<Id>)
    requires Sound(q)
    ensures Pick(q, pool, excluded + Ids(Attempts(q, pool, excluded))) == None
    decreases |Filtered(pool, excluded)|
  {
    var r := Pick(q, pool, excluded);
    if r.None? {
      assert excluded + Ids([]) == excluded;
    } else {
      PickIsBest(q, pool, excluded);
      FilteredShrinks(pool, excluded, r.value.id);
      var more := excluded + [r.value.id];
      AttemptsExhaust(q, pool, more);
      var rest := Attempts(q, pool, more);
      IdsPush(r.value, rest, excluded);
    }
  }

  /** Excluding each winner in turn lists every eligible id exactly once, each by an eligible backend of the pool, in
      non-increasing order of score; after the last of them nothing is left to select. */
  lemma AttemptsListEveryBackendOnce(q: Query, pool: seq<Candidate>, excluded: seq<Id>)
    requires Sound(q)
    ensures var tried := Attempts(q, pool, excluded);
            && (forall i :: 0 <= i < |tried| ==> tried[i] in pool && Eligible(excluded, tried[i]))
            && (forall i, j :: 0 <= i < j < |tried| ==>
                  tried[i].id != tried[j].id && ScoreOf(q, tried[i]) >= ScoreOf(q, tried[j]))
            && (forall c :: c in pool && Eligible(excluded, c) ==> c.id in Ids(tried))
            && Pick(q, pool, excluded + Ids(tried)) == None
  {
    var tried := Attempts(q, pool, excluded);
    forall i | 0 <= i < |tried| ensures tried[i] in pool && Eligible(excluded, tried[i]) {
      AttemptsAreEligible(q, pool, excluded, i);
    }
    forall i, j | 0 <= i < j < |tried|
      ensures tried[i].id != tried[j].id && ScoreOf(q, tried[i]) >= ScoreOf(q, tried[j])
    {
      AttemptsAreOrdered(q, pool, excluded, i, j);
    }
    forall c | c in pool && Eligible(excluded, c) ensures c.id in Ids(tried) {
      var i := AttemptsCover(q, pool, excluded, c);
      assert Ids(tried)[i] == c.id;
    }
    AttemptsExhaust(q, pool, excluded);
  }

  function Ids(cs: seq<Candidate>): (r: seq<Id>)
    ensures |r| == |cs| && forall i :: 0 <= i < |cs| ==> r[i] == cs[i].id
  {
    seq(|cs|, i requires 0 <= i < |cs| => cs[i].id)
  }

  lemma IdsPush(c: Candidate, rest: seq<Candidate>, excluded: seq<Id>)
    ensures excluded + [c.id] + Ids(rest) == excluded + Ids([c] + rest)
  {
    assert Ids([c] + rest) == [c.id] + Ids(rest);
  }

  /** With unique ids, as the configuration demands, every eligible backend is itself tried. */
  lemma UniqueIdsAreAllTried(q: Query, pool: seq<Candidate>, excluded: seq<Id>, c: Candidate)
    requires Sound(q) && c in pool && Eligible(excluded, c)
    requires forall i, j :: 0 <= i < j < |pool| ==> pool[i].id != pool[j].id
    ensures c in Attempts(q, pool, excluded)
  {
    var i := AttemptsCover(q, pool, excluded, c);
    AttemptsAreEligible(q, pool, excluded, i);
    assert Attempts(q, pool, excluded)[i] == c;
  }

  /** A backend that is offline, fully loaded or fully pressured is never selected. */
  lemma DeadBackendIsNeverSelected(q: Query, pool: seq<Backend>, factor: Id -> real, pressure: Backend -> real,
                                   excluded: seq<Id>, b: Backend)
    requires Sound(q) && b in pool && (factor(b.id) == 0.0 || pressure(b) >= 1.0)
    ensures Pick(q, Scored(pool, factor, pressure), excluded)
            != Some(Candidate(b.id, ScoredWeight(b, factor, pressure)))
  {
    NothingLeft(b.weight, factor(b.id), 1.0 - Clamp(pressure(b)));
    assert ScoredWeight(b, factor, pressure) == 0.0;
    PickIsBest(q, Scored(pool, factor, pressure), excluded);
  }

  lemma NothingLeft(weight: real, health: real, room: real)
    requires health == 0.0 || room == 0.0
    ensures weight * health * room == 0.0
  {
    assert health == 0.0 ==> weight * health == 0.0;
  }
}
