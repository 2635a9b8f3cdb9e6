/** The shared response cache (src/cache.rs): an LRU store keyed by the joined bytes of CacheKey.Key,
    with time-to-live expiry, header stripping and a full flush.

    The reference is a plain reading of the call history, by triple and without any store:
    `LastPut` is the most recent accepted put for a triple since the last clear. A hit is always that put
    (`HitIsLastPut`), and a put survives while fewer than `capacity` other triples are used between two uses
    of it (`RetainedPutHits`). */
module ResponseCache {
  import opened Bytes
  import CK = CacheKey

  type Triple = CK.Triple
  type Headers = map<string, seq<Data>>

  const UNCACHEABLE: seq<string> := [
    "set-cookie", "set-cookie2", "connection", "keep-alive", "proxy-authenticate",
    "proxy-authorization", "te", "trailer", "transfer-encoding", "upgrade"]

  datatype Response = Response(status: nat, headers: Headers, body: Data)

  /** Times and lifetimes are in nanoseconds. */
  datatype Entry = Entry(response: Response, insertedAt: nat, ttl: nat)

  const NANOS_PER_SEC: nat := 1_000_000_000

  datatype Slot = Slot(key: Data, entry: Entry)

  datatype Directives = Directives(noStore: bool, isPrivate: bool, maxAge: Option<U64>)

  type NonZero = x: nat | x > 0 witness 1

  datatype Config = Config(maxEntries: NonZero, maxEntryBytes: NonZero, defaultTtlSecs: NonZero)

  predicate Expired(e: Entry, now: nat) { Elapsed(e.insertedAt, now) > e.ttl }

  /** Headers without the never-cache set; all values of a stripped name go. */
  function Sanitized(h: Headers): Headers { map name | name in h && name !in UNCACHEABLE :: h[name] }

  /** The stripping loop: one removal per uncacheable name. */
  method SanitizedForCache(h: Headers) returns (out: Headers)
    ensures out == Sanitized(h)
  {
    out := h;
    for i := 0 to |UNCACHEABLE|
      invariant out == map name | name in h && name !in UNCACHEABLE[..i] :: h[name]
    {
      assert UNCACHEABLE[..i + 1] == UNCACHEABLE[..i] + [UNCACHEABLE[i]];
      out := out - {UNCACHEABLE[i]};
    }
    assert UNCACHEABLE[..|UNCACHEABLE|] == UNCACHEABLE;
  }

  // ---- The LRU store: slots in order of use, most recent first, one per key ----

  type Store = seq<Slot>

  ghost predicate DistinctKeys(s: Store) {
    forall i, j :: 0 <= i < j < |s| ==> s[i].key != s[j].key
  }

  function Without(s: Store, key: Data): Store {
    if s == [] then []
    else if s[0].key == key then Without(s[1..], key)
    else [s[0]] + Without(s[1..], key)
  }

  function Find(s: Store, key: Data): (r: Option<Entry>)
    ensures r.Some? ==> Slot(key, r.value) in s
    ensures r.None? ==> forall i :: 0 <= i < |s| ==> s[i].key != key
  {
    if s == [] then None
    else if s[0].key == key then Some(s[0].entry)
    else
      var r := Find(s[1..], key);
      assert s == [s[0]] + s[1..];
      r
  }

  /** A hit moves the slot to the front; an expired slot is popped. */
  function GetFrom(s: Store, key: Data, now: nat): (Store, Option<Response>) {
    match Find(s, key)
    case None => (s, None)
    case Some(e) =>
      if Expired(e, now) then (Without(s, key), None)
      else ([Slot(key, e)] + Without(s, key), Some(e.response))
  }

  /** The least recently used slot makes room for a new key in a full store. */
  function Insert(s: Store, capacity: NonZero, key: Data, e: Entry): Store {
    var rest := Without(s, key);
    [Slot(key, e)] + (if |rest| >= capacity then rest[..capacity - 1] else rest)
  }

  // ---- Calls ----

  datatype Call =
    | Put(t: Triple, response: Response, directives: Directives, at: nat)
    | Lookup(t: Triple, at: nat)
    | Clear

  /** In whole seconds, as the directives and the configuration give it. */
  function TtlSecs(c: Config, d: Directives): nat { if d.maxAge.Some? then d.maxAge.value else c.defaultTtlSecs }

  function Ttl(c: Config, d: Directives): nat { TtlSecs(c, d) * NANOS_PER_SEC }

  predicate Accepted(c: Config, call: Call) {
    call.Put? && !call.directives.noStore && !call.directives.isPrivate
    && |call.response.body| <= c.maxEntryBytes && TtlSecs(c, call.directives) != 0
  }

  /** What an accepted put stores. */
  function EntryOf(c: Config, call: Call): Entry
    requires call.Put?
  {
    Entry(call.response.(headers := Sanitized(call.response.headers)), call.at, Ttl(c, call.directives))
  }

  function Step(c: Config, s: Store, call: Call): Store {
    match call
    case Put(t, _, _, _) => if Accepted(c, call) then Insert(s, c.maxEntries, CK.Key(t), EntryOf(c, call)) else s
    case Lookup(t, at) => GetFrom(s, CK.Key(t), at).0
    case Clear => []
  }

  /** The store after a history of calls on an empty cache. */
  function Run(c: Config, h: seq<Call>): Store {
    if h == [] then [] else Step(c, Run(c, h[..|h| - 1]), h[|h| - 1])
  }

  lemma HistoryPush(c: Config, h: seq<Call>, call: Call)
    ensures Run(c, h + [call]) == Step(c, Run(c, h), call)
  {
    assert (h + [call])[..|h|] == h;
  }

  // ---- The cache object ----

  class Cache {
    const config: Config
    var store: Store
    ghost var history: seq<Call>

    /** The store is what the calls so far have made of it. */
    ghost predicate Valid()
      reads this
    {
      store == Run(config, history)
    }

    constructor (config: Config)
      ensures Valid() && this.config == config && history == []
    {
      this.config := config;
      store, history := [], [];
    }

    /** Whatever calls came before, a hit is the last accepted put of this triple, stripped and within its lifetime. */
    method Get(t: Triple, now: nat) returns (r: Option<Response>)
      requires Valid()
      modifies this
      ensures Valid() && history == old(history) + [Lookup(t, now)]
      ensures (store, r) == GetFrom(old(store), CK.Key(t), now)
      ensures r.Some? ==> IsLastPut(config, old(history), t, now, r.value) && store[0].key == CK.Key(t)
      ensures r.None? ==> forall x :: x in store ==> x.key != CK.Key(t)
      ensures forall x: Slot :: x.key != CK.Key(t) ==> (x in store <==> x in old(store))
    {
      HitIsLastPut(config, history, t, now);
      RunDistinct(config, history);
      LookupTouchesOneKey(store, CK.Key(t), now);
      HistoryPush(config, history, Lookup(t, now));
      history := history + [Lookup(t, now)];
      var lookup := CK.BuildLookupKey(t);
      var key := lookup.bytes;
      var found := Find(store, key);
      if found.None? {
        return None;
      }
      if Expired(found.value, now) {
        store := Without(store, key);
        return None;
      }
      store := [Slot(key, found.value)] + Without(store, key);
      return Some(found.value.response);
    }

    method Put(t: Triple, response: Response, d: Directives, now: nat) returns (accepted: bool)
      requires Valid()
      modifies this
      ensures Valid() && history == old(history) + [Call.Put(t, response, d, now)]
      ensures accepted <==> && !d.noStore && !d.isPrivate && |response.body| <= config.maxEntryBytes
                            && (if d.maxAge.Some? then d.maxAge.value else config.defaultTtlSecs) != 0
      ensures !accepted ==> store == old(store)
      ensures store == Step(config, old(store), Call.Put(t, response, d, now))
    {
      HistoryPush(config, history, Call.Put(t, response, d, now));
      history := history + [Call.Put(t, response, d, now)];
      if d.noStore || d.isPrivate {
        return false;
      }
      if |response.body| > config.maxEntryBytes {
        return false;
      }
      var ttlSecs := if d.maxAge.Some? then d.maxAge.value else config.defaultTtlSecs;
      if ttlSecs == 0 {
        return false;
      }
      var key := CK.OwnedKey(t);
      var headers := SanitizedForCache(response.headers);
      var entry := Entry(response.(headers := headers), now, ttlSecs * NANOS_PER_SEC);
      store := Insert(store, config.maxEntries, key, entry);
      return true;
    }

    method Clear()
      modifies this
      ensures Valid() && history == old(history) + [Call.Clear] && store == []
    {
      HistoryPush(config, history, Call.Clear);
      store, history := [], history + [Call.Clear];
    }
  }

  // ---- The reference ----

  /** The most recent accepted put for the triple since the last clear, read off the history. */
  ghost function LastPut(c: Config, h: seq<Call>, t: Triple): (r: Option<Call>)
    ensures r.Some? ==> r.value.Put? && r.value.t == t && Accepted(c, r.value) && r.value in h
    ensures r.Some? ==>
              var p := r.value;
              && !p.directives.noStore && !p.directives.isPrivate && |p.response.body| <= c.maxEntryBytes
              && (if p.directives.maxAge.Some? then p.directives.maxAge.value else c.defaultTtlSecs) != 0
  {
    if h == [] then None
    else
      var last := h[|h| - 1];
      if last.Clear? then None
      else if Accepted(c, last) && last.t == t then Some(last)
      else LastPut(c, h[..|h| - 1], t)
  }

  /** The response is that put's, without the headers no cache may keep and with all others, and not past its lifetime:
      its own max-age in seconds, or else the default. */
  ghost predicate IsLastPut(c: Config, h: seq<Call>, t: Triple, now: nat, r: Response) {
    var p := LastPut(c, h, t);
    && p.Some?
    && r.status == p.value.response.status
    && r.body == p.value.response.body
    && (forall name :: name in r.headers <==> name in p.value.response.headers && name !in UNCACHEABLE)
    && (forall name :: name in r.headers ==> r.headers[name] == p.value.response.headers[name])
    && var d := p.value.directives;
       now <= p.value.at + (if d.maxAge.Some? then d.maxAge.value else c.defaultTtlSecs) * 1_000_000_000
  }

  // ---- Store lemmas ----

  lemma {:induction false} WithoutSlots(s: Store, key: Data)
    requires DistinctKeys(s)
    ensures DistinctKeys(Without(s, key))
    ensures forall x :: x in Without(s, key) <==> x in s && x.key != key
    ensures |Without(s, key)| <= |s|
  {
    if s == [] {
    } else {
      WithoutSlots(s[1..], key);
      var rest := Without(s[1..], key);
      assert s == [s[0]] + s[1..];
      forall x ensures x in Without(s, key) <==> x in s && x.key != key {
      }
      if s[0].key != key {
        forall j | 0 <= j < |rest| ensures rest[j].key != s[0].key {
          assert rest[j] in rest;
          assert rest[j] in s[1..];
        }
      }
    }
  }

  lemma DistinctFront(x: Slot, s: Store)
    requires DistinctKeys(s) && forall y :: y in s ==> y.key != x.key
    ensures DistinctKeys([x] + s)
  {
    forall j | 0 <= j < |s| ensures s[j].key != x.key {
      assert s[j] in s;
    }
  }

  /** A lookup leaves the slots of other keys where they count, and its own key in front or gone. */
  lemma LookupTouchesOneKey(s: Store, key: Data, now: nat)
    requires DistinctKeys(s)
    ensures var (after, r) := GetFrom(s, key, now);
            && (forall x: Slot :: x.key != key ==> (x in after <==> x in s))
            && (r.Some? ==> after != [] && after[0].key == key)
            && (r.None? ==> forall x :: x in after ==> x.key != key)
  {
    WithoutSlots(s, key);
  }

  lemma StepDistinct(c: Config, s: Store, call: Call)
    requires DistinctKeys(s) && |s| <= c.maxEntries
    ensures DistinctKeys(Step(c, s, call)) && |Step(c, s, call)| <= c.maxEntries
  {
    if !call.Clear? {
      var key := CK.Key(call.t);
      WithoutSlots(s, key);
      var rest := Without(s, key);
      if Accepted(c, call) {
        var kept := if |rest| >= c.maxEntries then rest[..c.maxEntries - 1] else rest;
        assert forall y :: y in kept ==> y in rest;
        DistinctFront(Slot(key, EntryOf(c, call)), kept);
      } else if call.Lookup? && Find(s, key).Some? {
        DistinctFront(Slot(key, Find(s, key).value), rest);
        HitShrinks(s, key);
      }
    }
  }

  lemma {:induction false} HitShrinks(s: Store, key: Data)
    requires Find(s, key).Some?
    ensures |Without(s, key)| < |s|
  {
    if s[0].key == key {
      WithoutLength(s[1..], key);
    } else {
      HitShrinks(s[1..], key);
    }
  }

  lemma {:induction false} WithoutLength(s: Store, key: Data)
    ensures |Without(s, key)| <= |s|
  {
    if s == [] {
    } else {
      WithoutLength(s[1..], key);
    }
  }

  /** Every reachable store holds one slot per key and at most `maxEntries` of them. */
  lemma {:induction false} RunDistinct(c: Config, h: seq<Call>)
    ensures DistinctKeys(Run(c, h)) && |Run(c, h)| <= c.maxEntries
  {
    if h == [] {
    } else {
      RunDistinct(c, h[..|h| - 1]);
      StepDistinct(c, Run(c, h[..|h| - 1]), h[|h| - 1]);
    }
  }

  // ---- Soundness ----

  /** The slot is exactly what the most recent accepted put of its triple left. */
  ghost predicate Backed(c: Config, h: seq<Call>, x: Slot) {
    exists t: Triple :: CK.Key(t) == x.key && LastPut(c, h, t).Some? && x.entry == EntryOf(c, LastPut(c, h, t).value)
  }

  lemma {:induction false} RunBacked(c: Config, h: seq<Call>, x: Slot)
    requires x in Run(c, h)
    ensures Backed(c, h, x)
  {
    var g, call := h[..|h| - 1], h[|h| - 1];
    var s := Run(c, g);
    RunDistinct(c, g);
    var key := CK.Key(call.t);
    WithoutSlots(s, key);
    if Accepted(c, call) && x == Slot(key, EntryOf(c, call)) {
      assert LastPut(c, h, call.t) == Some(call);
    } else {
      assert x in s;
      assert Accepted(c, call) ==> x.key != key;
      RunBacked(c, g, x);
      var t: Triple :| CK.Key(t) == x.key && LastPut(c, g, t).Some? && x.entry == EntryOf(c, LastPut(c, g, t).value);
      CK.KeyInjective(t, call.t);
      assert LastPut(c, h, t) == LastPut(c, g, t);
    }
  }

  /** Over every history, with any times and any evictions, a hit is the status, stripped headers and body of the
      most recent accepted put for that same triple since the last clear, no older than its time to live. */
  lemma HitIsLastPut(c: Config, h: seq<Call>, t: Triple, now: nat)
    ensures var r := GetFrom(Run(c, h), CK.Key(t), now).1;
            r.Some? ==> IsLastPut(c, h, t, now, r.value)
  {
    var found := Find(Run(c, h), CK.Key(t));
    if found.Some? {
      var x := Slot(CK.Key(t), found.value);
      RunBacked(c, h, x);
      var u: Triple :| CK.Key(u) == x.key && LastPut(c, h, u).Some? && x.entry == EntryOf(c, LastPut(c, h, u).value);
      CK.KeyInjective(t, u);
    }
  }

  // ---- Retention ----

  /** The other triples put or looked up since this triple was last put or looked up. */
  ghost function Rivals(c: Config, h: seq<Call>, t: Triple): set<Triple> {
    if h == [] then {}
    else
      var last, before := h[|h| - 1], Rivals(c, h[..|h| - 1], t);
      if last.Clear? then {}
      else if !last.Lookup? && !Accepted(c, last) then before
      else if last.t == t then {}
      else before + {last.t}
  }

  /** Since its last accepted put, fewer than `maxEntries` other triples were used between two uses of this one. */
  ghost predicate Retained(c: Config, h: seq<Call>, t: Triple) {
    h != [] && !h[|h| - 1].Clear?
    && (|| (Accepted(c, h[|h| - 1]) && h[|h| - 1].t == t)
        || (Retained(c, h[..|h| - 1], t) && |Rivals(c, h, t)| < c.maxEntries))
  }

  ghost predicate Among(key: Data, triples: set<Triple>) { exists u :: u in triples && CK.Key(u) == key }

  /** The slots before position i belong to rivals. */
  ghost predicate RivalsAhead(s: Store, i: nat, rivals: set<Triple>) {
    i <= |s| && forall j :: 0 <= j < i ==> Among(s[j].key, rivals)
  }

  ghost predicate At(s: Store, i: nat, x: Slot) { i < |s| && s[i] == x }

  /** A slot with n rivals used since its own use sits at position n or nearer the front. */
  lemma {:induction false} RivalsBoundPosition(s: Store, i: nat, rivals: set<Triple>)
    requires DistinctKeys(s) && RivalsAhead(s, i, rivals)
    ensures i <= |rivals|
  {
    if i == 0 {
    } else {
      assert Among(s[i - 1].key, rivals);
      var u :| u in rivals && CK.Key(u) == s[i - 1].key;
      assert RivalsAhead(s, i - 1, rivals - {u}) by {
        forall j | 0 <= j < i - 1 ensures Among(s[j].key, rivals - {u}) {
          assert Among(s[j].key, rivals);
          var v :| v in rivals && CK.Key(v) == s[j].key;
          assert v in rivals - {u};
        }
      }
      RivalsBoundPosition(s, i - 1, rivals - {u});
    }
  }

  lemma {:induction false} WithoutSplit(a: Store, b: Store, key: Data)
    ensures Without(a + b, key) == Without(a, key) + Without(b, key)
  {
    if a == [] {
      assert a + b == b;
    } else {
      WithoutSplit(a[1..], b, key);
      var front, back := Without(a[1..], key), Without(b, key);
      assert (a + b)[0] == a[0] && (a + b)[1..] == a[1..] + b;
      Assoc([a[0]], front, back);
    }
  }

  /** Taking another key out keeps the slot, with only rivals ahead of it. */
  lemma WithoutKeepsPlace(s: Store, i: nat, x: Slot, rivals: set<Triple>, key: Data) returns (k: nat)
    requires DistinctKeys(s) && At(s, i, x) && RivalsAhead(s, i, rivals) && x.key != key
    ensures At(Without(s, key), k, x) && RivalsAhead(Without(s, key), k, rivals)
  {
    var front := Without(s[..i], key);
    k := |front|;
    assert s == s[..i] + (s[i..i + 1] + s[i + 1..]);
    WithoutSplit(s[..i], s[i..i + 1] + s[i + 1..], key);
    WithoutSplit(s[i..i + 1], s[i + 1..], key);
    assert s[i..i + 1][1..] == [] && s[i..i + 1] == [x];
    WithoutSlots(s[..i], key);
    forall j | 0 <= j < k ensures Among(Without(s, key)[j].key, rivals) {
      assert front[j] in front;
      assert front[j] in s[..i];
    }
  }

  lemma RivalInFront(y: Slot, s: Store, k: nat, x: Slot, rivals: set<Triple>, u: Triple)
    requires At(s, k, x) && RivalsAhead(s, k, rivals) && y.key == CK.Key(u)
    ensures At([y] + s, k + 1, x) && RivalsAhead([y] + s, k + 1, rivals + {u})
  {
    forall j | 0 <= j < k + 1 ensures Among(([y] + s)[j].key, rivals + {u}) {
      if j == 0 {
        assert u in rivals + {u};
      } else {
        assert Among(s[j - 1].key, rivals);
        var v :| v in rivals && CK.Key(v) == s[j - 1].key;
        assert v in rivals + {u};
      }
    }
  }

  lemma RivalsGrow(s: Store, k: nat, rivals: set<Triple>, u: Triple)
    requires RivalsAhead(s, k, rivals)
    ensures RivalsAhead(s, k, rivals + {u})
  {
    forall j | 0 <= j < k ensures Among(s[j].key, rivals + {u}) {
      assert Among(s[j].key, rivals);
      var v :| v in rivals && CK.Key(v) == s[j].key;
      assert v in rivals + {u};
    }
  }

  /** A lookup of another triple moves the slot back by at most one place. */
  lemma RivalLookup(s: Store, i: nat, x: Slot, rivals: set<Triple>, u: Triple, now: nat) returns (k: nat)
    requires DistinctKeys(s) && At(s, i, x) && RivalsAhead(s, i, rivals) && x.key != CK.Key(u)
    ensures At(GetFrom(s, CK.Key(u), now).0, k, x) && RivalsAhead(GetFrom(s, CK.Key(u), now).0, k, rivals + {u})
  {
    var key := CK.Key(u);
    k := i;
    if Find(s, key).Some? {
      k := WithoutKeepsPlace(s, i, x, rivals, key);
      if !Expired(Find(s, key).value, now) {
        RivalInFront(Slot(key, Find(s, key).value), Without(s, key), k, x, rivals, u);
        k := k + 1;
        return;
      }
    }
    RivalsGrow(GetFrom(s, key, now).0, k, rivals, u);
  }

  /** An insertion of another triple moves the slot back by at most one place, and out only past `capacity` rivals. */
  lemma RivalInsert(s: Store, i: nat, x: Slot, rivals: set<Triple>, u: Triple, capacity: NonZero, e: Entry)
    returns (k: nat)
    requires DistinctKeys(s) && At(s, i, x) && RivalsAhead(s, i, rivals) && x.key != CK.Key(u)
    requires |rivals + {u}| < capacity
    ensures At(Insert(s, capacity, CK.Key(u), e), k, x)
    ensures RivalsAhead(Insert(s, capacity, CK.Key(u), e), k, rivals + {u})
  {
    var key := CK.Key(u);
    var y, rest := Slot(key, e), Without(s, key);
    k := WithoutKeepsPlace(s, i, x, rivals, key);
    RivalInFront(y, rest, k, x, rivals, u);
    k := k + 1;
    WithoutSlots(s, key);
    DistinctFront(y, rest);
    RivalsBoundPosition([y] + rest, k, rivals + {u});
    var kept := Insert(s, capacity, key, e);
    assert forall j :: 0 <= j <= k ==> kept[j] == ([y] + rest)[j];
  }

  lemma {:induction false} RetainedSlot(c: Config, h: seq<Call>, t: Triple, now: nat) returns (i: nat)
    requires Retained(c, h, t)
    requires forall call :: call in h && !call.Clear? ==> call.at <= now
    requires LastPut(c, h, t).Some? && !Expired(EntryOf(c, LastPut(c, h, t).value), now)
    ensures At(Run(c, h), i, Slot(CK.Key(t), EntryOf(c, LastPut(c, h, t).value)))
    ensures RivalsAhead(Run(c, h), i, Rivals(c, h, t))
  {
    var g, call := h[..|h| - 1], h[|h| - 1];
    assert call in h;
    if Accepted(c, call) && call.t == t {
      i := 0;
    } else {
      i := RetainedSlot(c, g, t, now);
      var s, x := Run(c, g), Slot(CK.Key(t), EntryOf(c, LastPut(c, h, t).value));
      RunDistinct(c, g);
      if call.Lookup? || Accepted(c, call) {
        if call.t == t {
          FindsSlot(s, i, x);
          i := 0;
        } else {
          CK.KeyInjective(t, call.t);
          if call.Lookup? {
            i := RivalLookup(s, i, x, Rivals(c, g, t), call.t, call.at);
          } else {
            i := RivalInsert(s, i, x, Rivals(c, g, t), call.t, c.maxEntries, EntryOf(c, call));
          }
        }
      }
    }
  }

  lemma {:induction false} FindsSlot(s: Store, i: nat, x: Slot)
    requires DistinctKeys(s) && At(s, i, x)
    ensures Find(s, x.key) == Some(x.entry)
  {
    if i == 0 {
    } else {
      FindsSlot(s[1..], i - 1, x);
    }
  }

  /** A put that is still within its time to live is served, as long as fewer than `maxEntries` other triples
      came between any two uses of its triple. */
  lemma RetainedPutHits(c: Config, h: seq<Call>, t: Triple, now: nat)
    requires Retained(c, h, t)
    requires forall call :: call in h && !call.Clear? ==> call.at <= now
    ensures LastPut(c, h, t).Some?
    ensures var p, r := LastPut(c, h, t).value, GetFrom(Run(c, h), CK.Key(t), now).1;
            && (r.Some? <==> now <= p.at + (if p.directives.maxAge.Some? then p.directives.maxAge.value
                                            else c.defaultTtlSecs) * 1_000_000_000)
            && (r.Some? ==> IsLastPut(c, h, t, now, r.value))
  {
    RetainedWasPut(c, h, t);
    var p := LastPut(c, h, t).value;
    RunDistinct(c, h);
    if Elapsed(p.at, now) <= Ttl(c, p.directives) {
      var i := RetainedSlot(c, h, t, now);
      FindsSlot(Run(c, h), i, Slot(CK.Key(t), EntryOf(c, p)));
    }
    HitIsLastPut(c, h, t, now);
  }

  lemma {:induction false} RetainedWasPut(c: Config, h: seq<Call>, t: Triple)
    requires Retained(c, h, t)
    ensures LastPut(c, h, t).Some?
  {
    if Accepted(c, h[|h| - 1]) && h[|h| - 1].t == t {
    } else {
      RetainedWasPut(c, h[..|h| - 1], t);
    }
  }
}
